/** The emitted `serialize` code writes the wire image of the message, field by field. */
module SerializeProof {
  import opened Common
  import opened DecimalText
  import opened StructPattern
  import opened WireTypes
  import opened PyTarget
  import opened Generator
  import opened TreeLaws
  import opened PackLaws
  import opened WrittenBytes

  /* ---- which variables the code for a message may disturb ---- */

  /** The names that belong to the surrounding code: outer loop variables and outer `_v`s. */
  predicate Stable(v: Var, depth: nat, cnt: nat) {
    v.Self? || (v.Loop? && v.k < depth) || (v.Sub? && v.n <= cnt)
  }

  predicate Sheltered(s: Slot, depth: nat, cnt: nat) {
    s.Ptr? ==> Stable(s.root, depth, cnt)
  }

  /** The surrounding variables are as before. */
  ghost predicate Kept(a: Store, b: Store, depth: nat, cnt: nat) {
    forall v :: v in a && Stable(v, depth, cnt) && Sheltered(a[v], depth, cnt) ==> v in b && b[v] == a[v]
  }

  /** Variable c gives access to the object o. */
  ghost predicate Reads(vars: Store, c: Var, o: Tree, depth: nat, cnt: nat) {
    && c in vars && Stable(c, depth, cnt) && Sheltered(vars[c], depth, cnt)
    && Value(vars, c) == Some(o)
  }

  lemma KeptReads(a: Store, b: Store, c: Var, o: Tree, depth: nat, cnt: nat)
    requires Kept(a, b, depth, cnt) && Reads(a, c, o, depth, cnt)
    ensures Reads(b, c, o, depth, cnt)
  {
    if a[c].Ptr? {
      assert a[c].root in a && a[a[c].root].Own?;
    }
  }

  lemma KeptBind(vars: Store, v: Var, s: Slot, depth: nat, cnt: nat)
    requires !Stable(v, depth, cnt)
    ensures Kept(vars, Bind(vars, v, s), depth, cnt)
  {
  }

  lemma KeptTrans(a: Store, b: Store, c: Store, depth: nat, cnt: nat, depth': nat, cnt': nat)
    requires Kept(a, b, depth, cnt) && Kept(b, c, depth', cnt') && depth <= depth' && cnt <= cnt'
    ensures Kept(a, c, depth, cnt)
  {
  }

  /** A run that appended `bs` to the buffer and left the surrounding variables alone. */
  ghost predicate Wrote(r: Option<State>, st: State, bs: seq<Byte>, depth: nat, cnt: nat) {
    && r.Some?
    && r.value.buff == st.buff + bs
    && r.value.input == st.input
    && Kept(st.vars, r.value.vars, depth, cnt)
  }

  lemma WroteNothing(st: State, depth: nat, cnt: nat)
    ensures Wrote(Some(st), st, [], depth, cnt)
  {
    assert st.buff + [] == st.buff;
  }

  lemma WroteThen(a: seq<Stmt>, b: seq<Stmt>, st: State, x: seq<Byte>, y: seq<Byte>,
                  depth: nat, cnt: nat, cnt': nat)
    requires Wrote(Exec(a, st), st, x, depth, cnt) && cnt <= cnt'
    requires Wrote(Exec(b, Exec(a, st).value), Exec(a, st).value, y, depth, cnt')
    ensures Wrote(Exec(a + b, st), st, x + y, depth, cnt)
  {
    hide Exec, Kept;
    ExecAppend(a, b, st);
    var s1 := Exec(a, st).value;
    var s2 := Exec(b, s1).value;
    KeptTrans(st.vars, s1.vars, s2.vars, depth, cnt, depth, cnt');
    assert st.buff + x + y == st.buff + (x + y);
  }

  /** Binding a temporary and then going on. */
  lemma WroteAfterBind(s: Stmt, rest: seq<Stmt>, st: State, v: Var, slot: Slot, bs: seq<Byte>, depth: nat, cnt: nat)
    requires ExecStmt(s, st) == Some(st.(vars := Bind(st.vars, v, slot))) && !Stable(v, depth, cnt)
    requires Wrote(Exec(rest, st.(vars := Bind(st.vars, v, slot))), st.(vars := Bind(st.vars, v, slot)), bs, depth, cnt)
    ensures Wrote(Exec([s] + rest, st), st, bs, depth, cnt)
  {
    ExecOne(s, st);
    ExecAppend([s], rest, st);
    var st' := st.(vars := Bind(st.vars, v, slot));
    KeptBind(st.vars, v, slot, depth, cnt);
    KeptTrans(st.vars, st'.vars, Exec(rest, st').value.vars, depth, cnt, depth, cnt);
  }

  lemma WroteOne(s: Stmt, st: State, bs: seq<Byte>, depth: nat, cnt: nat)
    requires ExecStmt(s, st) == Some(st.(buff := st.buff + bs))
    ensures Wrote(Exec([s], st), st, bs, depth, cnt)
  {
    ExecOne(s, st);
  }

  /** A run that wrote w, or that failed because w is an exception. */
  ghost predicate Ends(r: Option<State>, st: State, w: Option<seq<Byte>>, depth: nat, cnt: nat) {
    if w.Some? then Wrote(r, st, w.value, depth, cnt) else r.None?
  }

  lemma EndsThen(a: seq<Stmt>, b: seq<Stmt>, st: State, x: Option<seq<Byte>>, y: Option<seq<Byte>>,
                 depth: nat, cnt: nat, cnt': nat)
    requires Ends(Exec(a, st), st, x, depth, cnt) && cnt <= cnt'
    requires x.Some? ==> Exec(a, st).Some? && Ends(Exec(b, Exec(a, st).value), Exec(a, st).value, y, depth, cnt')
    ensures Ends(Exec(a + b, st), st, Both(x, y), depth, cnt)
  {
    hide Exec, Kept;
    ExecAppend(a, b, st);
    if x.Some? && y.Some? {
      WroteThen(a, b, st, x.value, y.value, depth, cnt, cnt');
    }
  }

  lemma EndsAfterBind(s: Stmt, rest: seq<Stmt>, st: State, v: Var, slot: Slot,
                      w: Option<seq<Byte>>, depth: nat, cnt: nat)
    requires ExecStmt(s, st) == Some(st.(vars := Bind(st.vars, v, slot))) && !Stable(v, depth, cnt)
    requires Ends(Exec(rest, st.(vars := Bind(st.vars, v, slot))), st.(vars := Bind(st.vars, v, slot)), w, depth, cnt)
    ensures Ends(Exec([s] + rest, st), st, w, depth, cnt)
  {
    hide Exec, ExecStmt, Wrote, Bind;
    if w.Some? {
      WroteAfterBind(s, rest, st, v, slot, w.value, depth, cnt);
    } else {
      ExecOne(s, st);
      ExecAppend([s], rest, st);
    }
  }

  /** A single write. */
  lemma EndsOne(fmt: Fmt, args: seq<Arg>, st: State, w: Option<seq<Byte>>, depth: nat, cnt: nat)
    requires PackCall(st.vars, fmt, args) == w
    ensures Ends(Exec([Write(fmt, args)], st), st, w, depth, cnt)
  {
    hide PackCall;
    ExecOne(Write(fmt, args), st);
  }

  /* ---- chunks of simple fields ---- */

  /** The values of the fields, in order. */
  function ValuesAt(fs: seq<Field>, o: Tree): (ts: seq<Tree>)
    requires FieldsValue(fs, o)
    ensures |ts| == |fs|
  {
    seq(|fs|, i requires 0 <= i < |fs| => assert FieldAt(fs[i], o); Get(o, fs[i].path).value)
  }

  lemma {:induction false} ArgsOfRefs(vars: Store, v: Var, fs: seq<Field>, o: Tree)
    requires FieldsValue(fs, o) && Value(vars, v) == Some(o)
    ensures ArgsValues(vars, PlainArgs(Refs(v, fs))) == Some(ValuesAt(fs, o))
  {
    hide Value, FieldValue;
    var args := PlainArgs(Refs(v, fs));
    if fs != [] {
      assert fs == [fs[0]] + fs[1..];
      FieldsValueSplit([fs[0]], fs[1..], o);
      assert FieldAt(fs[0], o);
      assert args[1..] == PlainArgs(Refs(v, fs[1..]));
      ArgsOfRefs(vars, v, fs[1..], o);
      assert [ValuesAt(fs, o)[0]] + ValuesAt(fs[1..], o) == ValuesAt(fs, o);
    }
  }

  lemma {:induction false} PackSimpleFields(fs: seq<Field>, o: Tree)
    requires AllSimple(fs) && FieldsValue(fs, o)
    ensures PackEach(PatternOf(fs), ValuesAt(fs, o)) == Some(WireFields(fs, o))
  {
    if fs != [] {
      assert fs == [fs[0]] + fs[1..];
      FieldsValueSplit([fs[0]], fs[1..], o);
      AllSimpleSplit(fs, 1);
      PackSimpleFields(fs[1..], o);
      SimpleFieldWire(fs[0], o);
      PackFirst(PatternOf(fs), ValuesAt(fs, o), PatternOf(fs[1..]), ValuesAt(fs[1..], o));
    }
  }

  lemma PackFirst(codes: string, ts: seq<Tree>, codes': string, ts': seq<Tree>)
    requires codes != "" && ts != [] && codes' == codes[1..] && ts' == ts[1..]
    requires ts[0].Num? && Fits(codes[0], ts[0].n) && PackEach(codes', ts').Some?
    ensures PackEach(codes, ts) == Some(PackCode(codes[0], ts[0].n) + PackEach(codes', ts').value)
  {
  }

  lemma SimpleFieldWire(f: Field, o: Tree)
    requires FieldAt(f, o) && IsSimple(f.ty)
    ensures var t := Get(o, f.path).value;
            t.Num? && Fits(Code(f.ty.base.p), t.n) && WireField(f.ty, t) == PackCode(Code(f.ty.base.p), t.n)
  {
    assert BaseValue(f.ty.base, Get(o, f.path).value);
  }

  /** The pack call of one chunk. */
  lemma PackChunk(vars: Store, v: Var, fs: seq<Field>, o: Tree)
    requires AllSimple(fs) && FieldsValue(fs, o) && Value(vars, v) == Some(o)
    ensures PackCall(vars, Lit(Reduce(PatternOf(fs))), PlainArgs(Refs(v, fs))) == Some(WireFields(fs, o))
  {
    ArgsOfRefs(vars, v, fs, o);
    var pattern := PatternOf(fs);
    ReduceKeepsLetters(pattern);
    var tokens := Tokens(Reduce(pattern)).value;
    assert 's' !in Codes(tokens);
    PackByCodes(tokens, ValuesAt(fs, o));
    PackSimpleFields(fs, o);
  }

  lemma WriteChunk(c: Var, fs: seq<Field>, st: State, o: Tree, depth: nat, cnt: nat)
    requires AllSimple(fs) && FieldsValue(fs, o) && Reads(st.vars, c, o, depth, cnt)
    requires |fs| > 1 ==> o.Obj?
    ensures Wrote(Exec(Chunk(true, c, fs), st), st, WireFields(fs, o), depth, cnt)
  {
    hide Exec, Kept, WireFields, FieldsValue, Reduce, AllSimple, PackCall, Wrote, Bind, BindTo;
    var fmt := Lit(Reduce(PatternOf(fs)));
    if |fs| > 1 {
      var alias := Alias(X, Ref(c, []));
      var write := Write(fmt, PlainArgs(Refs(X, fs)));
      AliasSelf(st, c, o, depth, cnt);
      var slot := BindTo(st.vars, X, Ref(c, [])).value[X];
      var st' := st.(vars := Bind(st.vars, X, slot));
      PackChunk(st'.vars, X, fs, o);
      WritesPacked(fmt, PlainArgs(Refs(X, fs)), st', WireFields(fs, o), depth, cnt);
      WroteAfterBind(alias, [write], st, X, slot, WireFields(fs, o), depth, cnt);
    } else {
      ReadsValue(st.vars, c, o, depth, cnt);
      PackChunk(st.vars, c, fs, o);
      WritesPacked(fmt, PlainArgs(Refs(c, fs)), st, WireFields(fs, o), depth, cnt);
      assert [] + [Write(fmt, PlainArgs(Refs(c, fs)))] == [Write(fmt, PlainArgs(Refs(c, fs)))];
    }
  }

  lemma ReadsValue(vars: Store, c: Var, o: Tree, depth: nat, cnt: nat)
    requires Reads(vars, c, o, depth, cnt)
    ensures Value(vars, c) == Some(o)
  {
  }

  /** `_x = self` */
  lemma AliasSelf(st: State, c: Var, o: Tree, depth: nat, cnt: nat)
    requires Reads(st.vars, c, o, depth, cnt)
    ensures var r := BindTo(st.vars, X, Ref(c, []));
      && r.Some? && X in r.value && r.value == Bind(st.vars, X, r.value[X]) && Value(r.value, X) == Some(o)
      && ExecStmt(Alias(X, Ref(c, [])), st) == Some(st.(vars := r.value))
  {
    hide BindTo, Bind, Value;
    AliasValue(st.vars, X, c, [], o, depth, cnt);
  }

  lemma WritesPacked(fmt: Fmt, args: seq<Arg>, st: State, bs: seq<Byte>, depth: nat, cnt: nat)
    requires PackCall(st.vars, fmt, args) == Some(bs)
    ensures Wrote(Exec([Write(fmt, args)], st), st, bs, depth, cnt)
  {
    hide PackCall, Wrote;
    WroteOne(Write(fmt, args), st, bs, depth, cnt);
  }

  /** Binding a temporary to `c.path` makes it denote what is there. */
  lemma AliasValue(vars: Store, v: Var, c: Var, path: seq<string>, o: Tree, depth: nat, cnt: nat)
    requires Reads(vars, c, o, depth, cnt) && !Stable(v, depth, cnt) && Get(o, path).Some?
    ensures var r := BindTo(vars, v, Ref(c, path));
      && r.Some? && v in r.value && r.value == Bind(vars, v, r.value[v])
      && Value(r.value, v) == Get(o, path)
      && Sheltered(r.value[v], depth, cnt)
      && (!Mutable(Get(o, path).value) ==> r.value[v] == Val(Get(o, path).value))
  {
    hide Stable, Get;
    var t := Get(o, path).value;
    var slot := if !Mutable(t) || !Place(vars, Ref(c, path)).Some? then Val(t)
                else Ptr(Place(vars, Ref(c, path)).value.0, Place(vars, Ref(c, path)).value.1);
    assert BindTo(vars, v, Ref(c, path)) == Some(Bind(vars, v, slot));
    if slot.Ptr? {
      AliasPlace(vars, v, c, path, o, depth, cnt);
    }
  }

  /** An alias into an owner denotes what is at its path. */
  lemma AliasPlace(vars: Store, v: Var, c: Var, path: seq<string>, o: Tree, depth: nat, cnt: nat)
    requires Reads(vars, c, o, depth, cnt) && !Stable(v, depth, cnt) && Get(o, path).Some?
    requires Place(vars, Ref(c, path)).Some?
    ensures var p := Place(vars, Ref(c, path)).value;
      var slot := Ptr(p.0, p.1);
      Value(Bind(vars, v, slot), v) == Get(o, path) && Sheltered(slot, depth, cnt)
  {
    if vars[c].Ptr? {
      GetConcat(vars[vars[c].root].t, vars[c].path, path);
    }
  }

  lemma {:induction false} WriteChunks(c: Var, fs: seq<Field>, st: State, o: Tree, depth: nat, cnt: nat)
    requires AllSimple(fs) && FieldsValue(fs, o) && Reads(st.vars, c, o, depth, cnt) && o.Obj?
    ensures Wrote(Exec(Chunks(true, c, fs), st), st, WireFields(fs, o), depth, cnt)
    decreases |fs|
  {
    if |fs| == 0 {
      WroteNothing(st, depth, cnt);
    } else if |fs| <= MAX_CHUNK {
      WriteChunk(c, fs, st, o, depth, cnt);
    } else {
      var a, b := fs[..MAX_CHUNK], fs[MAX_CHUNK..];
      AllSimpleSplit(fs, MAX_CHUNK);
      assert fs == a + b;
      FieldsValueSplit(a, b, o);
      WriteChunk(c, a, st, o, depth, cnt);
      var st' := Exec(Chunk(true, c, a), st).value;
      KeptReads(st.vars, st'.vars, c, o, depth, cnt);
      WriteChunks(c, b, st', o, depth, cnt);
      WroteThen(Chunk(true, c, a), Chunks(true, c, b), st, WireFields(a, o), WireFields(b, o), depth, cnt, cnt);
      WireFieldsSplit(a, b, o);
    }
  }

  /* ---- strings and byte arrays ---- */

  lemma EvalAfterBind(vars: Store, r: Ref, v: Var, s: Slot)
    requires r.v != v && (r.v in vars && vars[r.v].Ptr? ==> vars[r.v].root != v)
    ensures Eval(Bind(vars, v, s), r) == Eval(vars, r)
  {
  }

  /** The expression r denotes t and does not depend on the scratch variables. */
  ghost predicate Shows(vars: Store, r: Ref, t: Tree) {
    && Eval(vars, r) == Some(t)
    && r.v != Length && r.v != Pattern
    && (r.v in vars && vars[r.v].Ptr? ==> vars[r.v].root != Length && vars[r.v].root != Pattern)
  }

  lemma ShowsAfterLength(vars: Store, r: Ref, t: Tree, v: Var, s: Slot)
    requires Shows(vars, r, t) && (v == Length || v == Pattern)
    ensures Shows(Bind(vars, v, s), r, t)
  {
    EvalAfterBind(vars, r, v, s);
  }

  predicate IsStringLike(ty: FieldType) {
    ty == One(Str) || IsByteArray(ty)
  }

  /** `'<I%s<c>'%length` applied to the length and the value or elements at r. */
  lemma PackWithLength(vars: Store, r: Ref, t: Tree, c: char)
    requires Shows(vars, r, t) && IsCode(c)
    requires
      || (t.Bytes? && c == 's' && |t.bs| < MAX_LEN)
      || (t.List? && c == 'B' && |t.es| < MAX_LEN && ElementsValue(Prim(UInt8), t.es))
    requires IntOf(vars, Length) == Some(if t.List? then |t.es| else |t.bs|)
    ensures var arg := if t.List? then Star(r) else Plain(r);
      PackCall(vars, WithLength("I", [c]), [LengthArg, arg])
      == Some(if t.List? then WireLength(|t.es|) + WireElements(Prim(UInt8), t.es) else WireLength(|t.bs|) + t.bs)
  {
    hide WireElements, ElementsValue, Tokens, Pack, Value, PackNumbers, Decimal;
    var n := if t.List? then |t.es| else |t.bs|;
    var arg := if t.List? then Star(r) else Plain(r);
    var vals := if t.List? then t.es else [t];
    LengthFormat(n, c);
    assert [LengthArg, arg][1..] == [arg] && [arg][1..] == [];
    assert ArgsValues(vars, [arg]) == Some(vals + []);
    assert vals + [] == vals;
    assert ArgsValues(vars, [LengthArg, arg]) == Some([Num(n)] + vals);
    PackAfterLength(n, Token(n, c), vals);
    if t.List? {
      PackCounted(n, 'B', vals);
      PackElements(UInt8, t.es);
    } else {
      PackBytes(n, t.bs);
      assert Padded(t.bs, n) == t.bs;
    }
  }

  lemma ElementsByteLike(p: Simple, es: seq<Tree>)
    requires IsByteLike(p) && ElementsValue(Prim(p), es)
    ensures ElementsValue(Prim(UInt8), es)
    ensures WireElements(Prim(UInt8), es) == WireElements(Prim(p), es)
  {
    forall i | 0 <= i < |es| ensures BaseValue(Prim(UInt8), es[i]) { assert BaseValue(Prim(p), es[i]); }
    PackElements(p, es);
    PackElements(UInt8, es);
  }

  /** Setting the length and packing it with the value: strings and variable byte arrays. */
  lemma WriteVarString(r: Ref, ty: FieldType, t: Tree, st: State, depth: nat, cnt: nat)
    requires IsStringLike(ty) && !ty.Fixed? && FieldValue(ty, t) && Shows(st.vars, r, t)
    ensures Wrote(Exec(StringCode(true, r, ty), st), st, WireField(ty, t), depth, cnt)
  {
    hide Kept, PackCall, Get, WireElements, ElementsValue;
    assert ty.One? ==> BaseValue(Str, t);
    var n := if t.List? then |t.es| else |t.bs|;
    var slot := Int(n);
    var st' := st.(vars := Bind(st.vars, Length, slot));
    ShowsAfterLength(st.vars, r, t, Length, slot);
    if t.List? {
      ElementsByteLike(ty.base.p, t.es);
    }
    PackWithLength(st'.vars, r, t, if t.List? then 'B' else 's');
    var code := StringCode(true, r, ty);
    var last := code[1];
    assert code == [SetLength(r)] + [last];
    if ty.One? {
      WroteOne(last, st', WireField(ty, t), depth, cnt);
    } else {
      var branch := if t.List? then last.thn else last.els;
      WroteOne(branch[0], st', WireField(ty, t), depth, cnt);
      assert branch == [branch[0]];
      ExecOne(last, st');
    }
    WroteAfterBind(SetLength(r), [last], st, Length, slot, WireField(ty, t), depth, cnt);
  }

  /** The pack call of a fixed-length array, with the count that the compression leaves. */
  lemma PackFixed(vars: Store, r: Ref, t: Tree, n: nat, c: char)
    requires Shows(vars, r, t) && IsCode(c)
    requires (t.Bytes? && c == 's' && |t.bs| == n) || (t.List? && c != 's' && |t.es| == n)
    ensures var arg := if t.List? then Star(r) else Plain(r);
      PackCall(vars, Lit(Reduce(Counted(n, c))), [arg])
      == if t.Bytes? then Some(t.bs[..KeptCount(n)]) else if KeptCount(n) == n then PackNumbers(c, t.es) else None
  {
    hide KeptCount, Reduce, Tokens, Get;
    var arg := if t.List? then Star(r) else Plain(r);
    var vals := if t.List? then t.es else [t];
    ReduceCounted(n, c);
    assert [arg][1..] == [];
    assert ArgsValues(vars, [arg]) == Some(vals + []);
    assert vals + [] == vals;
    if t.List? {
      PackCounted(KeptCount(n), c, vals);
    } else {
      PackBytes(KeptCount(n), t.bs);
    }
  }

  lemma WriteFixedString(r: Ref, ty: FieldType, t: Tree, st: State, depth: nat, cnt: nat)
    requires IsByteArray(ty) && ty.Fixed? && FieldValue(ty, t) && Shows(st.vars, r, t)
    ensures Ends(Exec(StringCode(true, r, ty), st), st, WrittenField(ty, t), depth, cnt)
  {
    hide Reduce, WireElements, Kept, Decimal, Tokens, Get, PackNumbers, KeptCount, PackCall;
    if t.List? {
      ElementsByteLike(ty.base.p, t.es);
      PackElements(UInt8, t.es);
    }
    var c := if t.List? then 'B' else 's';
    PackFixed(st.vars, r, t, ty.len, c);
    var s := StringCode(true, r, ty)[0];
    var branch := if t.List? then s.thn else s.els;
    EndsOne(Lit(Reduce(Counted(ty.len, c))), [if t.List? then Star(r) else Plain(r)],
            st, WrittenField(ty, t), depth, cnt);
    assert branch == [Write(Lit(Reduce(Counted(ty.len, c))), [if t.List? then Star(r) else Plain(r)])];
    ExecOne(s, st);
    assert StringCode(true, r, ty) == [s];
  }

  lemma WriteString(r: Ref, ty: FieldType, t: Tree, st: State, depth: nat, cnt: nat)
    requires IsStringLike(ty) && FieldValue(ty, t) && Shows(st.vars, r, t)
    ensures Ends(Exec(StringCode(true, r, ty), st), st, WrittenField(ty, t), depth, cnt)
  {
    hide Exec, Wrote, WireField;
    if ty.Fixed? {
      WriteFixedString(r, ty, t, st, depth, cnt);
    } else {
      WriteVarString(r, ty, t, st, depth, cnt);
      StringWritten(ty, t);
    }
  }

  lemma StringWritten(ty: FieldType, t: Tree)
    requires IsStringLike(ty) && !ty.Fixed? && FieldValue(ty, t)
    ensures WrittenField(ty, t) == Some(WireField(ty, t))
  {
  }

  lemma WriteStringField(c: Var, path: seq<string>, ty: FieldType, st: State, o: Tree, depth: nat, cnt: nat)
    requires IsStringLike(ty) && Reads(st.vars, c, o, depth, cnt)
    requires Get(o, path).Some? && FieldValue(ty, Get(o, path).value)
    ensures Ends(Exec(StringField(true, Ref(c, path), ty), st), st, WrittenField(ty, Get(o, path).value), depth, cnt)
  {
    var t := Get(o, path).value;
    AliasValue(st.vars, X, c, path, o, depth, cnt);
    var slot := BindTo(st.vars, X, Ref(c, path)).value[X];
    var st' := st.(vars := Bind(st.vars, X, slot));
    assert Get(t, []) == Some(t);
    WriteString(Ref(X, []), ty, t, st', depth, cnt);
    EndsAfterBind(Alias(X, Ref(c, path)), StringCode(true, Ref(X, []), ty),
                  st, X, slot, WrittenField(ty, t), depth, cnt);
  }

  /* ---- arrays ---- */

  /** `length = len(r); buff.write(_struct_I.pack(length))` */
  lemma WriteLength(r: Ref, t: Tree, st: State, depth: nat, cnt: nat)
    requires Shows(st.vars, r, t) && t.List? && |t.es| < MAX_LEN
    ensures Wrote(Exec(LengthCode(true, r), st), st, WireLength(|t.es|), depth, cnt)
    ensures var st' := Exec(LengthCode(true, r), st).value;
      Shows(st'.vars, r, t) && IntOf(st'.vars, Length) == Some(|t.es|)
  {
    var slot := Int(|t.es|);
    var st' := st.(vars := Bind(st.vars, Length, slot));
    ShowsAfterLength(st.vars, r, t, Length, slot);
    var w := Write(Lit("I"), [LengthArg]);
    TokensOfCounted("", 'I', "");
    assert "" + ['I'] + "" == "I";
    assert [Token(1, 'I')] + [] == [Token(1, 'I')];
    assert [LengthArg][1..] == [];
    assert ArgsValues(st'.vars, [LengthArg]) == Some([Num(|t.es|)] + []);
    assert [Num(|t.es|)] + [] == [Num(|t.es|)];
    PackLengthOnly(|t.es|);
    WroteOne(w, st', WireLength(|t.es|), depth, cnt);
    WroteAfterBind(SetLength(r), [w], st, Length, slot, WireLength(|t.es|), depth, cnt);
    assert LengthCode(true, r) == [SetLength(r)] + [w];
    ExecOne(SetLength(r), st);
    ExecOne(w, st');
    ExecAppend([SetLength(r)], [w], st);
  }

  lemma PackLengthOnly(n: nat)
    requires n < MAX_LEN
    ensures Pack([Token(1, 'I')], [Num(n)]) == Some(WireLength(n))
  {
    PackCounted(1, 'I', [Num(n)]);
    assert [Num(n)][1..] == [];
    assert Limit('I') == MAX_LEN by {
      assert Pow256(4) == 256 * Pow256(3) == 65536 * Pow256(2) == 0x100_0000 * Pow256(1);
    }
    assert PackCode('I', n) + [] == PackCode('I', n);
  }

  /** The elements of an array of simple values, after its length. */
  function SimpleWritten(ty: FieldType, es: seq<Tree>): Option<seq<Byte>>
    requires ElementsValue(ty.base, es)
  {
    if ty.Fixed? && KeptCount(ty.len) != ty.len then None else Some(WireElements(ty.base, es))
  }

  lemma WriteSimpleArray(r: Ref, ty: FieldType, t: Tree, st: State, depth: nat, cnt: nat)
    requires !ty.One? && ty.base.Prim? && Shows(st.vars, r, t)
    requires t.List? && ElementsValue(ty.base, t.es) && (ty.Fixed? ==> |t.es| == ty.len)
    requires ty.Varying? ==> IntOf(st.vars, Length) == Some(|t.es|)
    ensures Ends(Exec(SimpleArrayCode(true, r, ty), st), st, SimpleWritten(ty, t.es), depth, cnt)
  {
    hide Reduce, WireElements, ElementsValue, Kept, Wrote, Decimal, Tokens, Get, PackNumbers, Exec, KeptCount;
    var c := Code(ty.base.p);
    var bs := WireElements(ty.base, t.es);
    PackElements(ty.base.p, t.es);
    if ty.Fixed? {
      PackFixed(st.vars, r, t, ty.len, c);
      EndsOne(Lit(Reduce(Counted(ty.len, c))), [Star(r)], st, SimpleWritten(ty, t.es), depth, cnt);
    } else {
      var slot := Text(Counted(|t.es|, c));
      var st' := st.(vars := Bind(st.vars, Pattern, slot));
      ShowsAfterLength(st.vars, r, t, Pattern, slot);
      var w := Write(FromPattern, [Star(r)]);
      CountedFormat(|t.es|, c);
      PackCounted(|t.es|, c, t.es);
      assert [Star(r)][1..] == [];
      assert ArgsValues(st'.vars, [Star(r)]) == Some(t.es + []);
      assert t.es + [] == t.es;
      WroteOne(w, st', bs, depth, cnt);
      WroteAfterBind(SetPattern(c), [w], st, Pattern, slot, bs, depth, cnt);
      assert SimpleArrayCode(true, r, ty) == [SetPattern(c)] + [w];
    }
  }

  lemma ShowsField(vars: Store, c: Var, path: seq<string>, o: Tree, depth: nat, cnt: nat)
    requires Reads(vars, c, o, depth, cnt) && Get(o, path).Some?
    ensures Shows(vars, Ref(c, path), Get(o, path).value)
  {
  }

  /* ---- whole field lists ---- */

  /** The code that serializes one array element held in v. */
  function ElementCode(b: Base, v: Var, depth: nat, cnt: nat): Gen
    requires !b.Prim?
  {
    if b.Str? then Gen(StringCode(true, Ref(v, []), One(Str)), cnt)
    else GenBody(true, v, b.fields, depth + 1, cnt)
  }

  lemma {:induction false} WriteEach(b: Base, es: seq<Tree>, st: State, depth: nat, cnt: nat)
    requires !b.Prim? && ElementsValue(b, es)
    ensures var v := Loop(depth);
      Ends(RunEach(v, es, ElementCode(b, v, depth, cnt).code, st), st, WrittenElements(b, es), depth, cnt)
    decreases b, 2, |es|
  {
    hide Kept, ElementCode, WrittenBase, BaseValue;
    var v := Loop(depth);
    var body := ElementCode(b, v, depth, cnt).code;
    if es == [] {
      WroteNothing(st, depth, cnt);
    } else {
      ElementsRest(b, es);
      var st1 := st.(vars := Bind(st.vars, v, Val(es[0])));
      KeptBind(st.vars, v, Val(es[0]), depth, cnt);
      WriteElement(b, es[0], st1, depth, cnt);
      if WrittenBase(b, es[0]).Some? {
        var st2 := Exec(body, st1).value;
        KeptTrans(st.vars, st1.vars, st2.vars, depth, cnt, depth + 1, cnt);
        WriteEach(b, es[1..], st2, depth, cnt);
        if WrittenElements(b, es[1..]).Some? {
          var st3 := RunEach(v, es[1..], body, st2).value;
          KeptTrans(st.vars, st2.vars, st3.vars, depth, cnt, depth, cnt);
          var x, y := WrittenBase(b, es[0]).value, WrittenElements(b, es[1..]).value;
          assert st.buff + x + y == st.buff + (x + y);
        }
      }
    }
  }

  lemma {:induction false} WriteElement(b: Base, e: Tree, st: State, depth: nat, cnt: nat)
    requires !b.Prim? && BaseValue(b, e)
    requires Loop(depth) in st.vars && st.vars[Loop(depth)] == Val(e)
    ensures Ends(Exec(ElementCode(b, Loop(depth), depth, cnt).code, st), st, WrittenBase(b, e), depth + 1, cnt)
    decreases b, 1, 0
  {
    var v := Loop(depth);
    if b.Str? {
      assert Get(e, []) == Some(e);
      assert FieldValue(One(Str), e) && WrittenField(One(Str), e) == WrittenBase(Str, e);
      WriteString(Ref(v, []), One(Str), e, st, depth + 1, cnt);
    } else {
      WriteBody(v, b.fields, st, e, depth + 1, cnt);
    }
  }

  /** The length, if any, and the elements of an array that is not a byte array. */
  lemma ArrayWritten(ty: FieldType, t: Tree)
    requires !ty.One? && !IsByteArray(ty) && FieldValue(ty, t)
    ensures t.List? && ElementsValue(ty.base, t.es) && (ty.Varying? ==> |t.es| < MAX_LEN)
    ensures (ty.Fixed? ==> |t.es| == ty.len)
    ensures var elements := if ty.base.Prim? then SimpleWritten(ty, t.es) else WrittenElements(ty.base, t.es);
      WrittenField(ty, t) == Both(if ty.Varying? then Some(WireLength(|t.es|)) else Some([]), elements)
  {
    hide KeptCount, WireElements;
    var elements := if ty.base.Prim? then SimpleWritten(ty, t.es) else WrittenElements(ty.base, t.es);
    BothNothing(elements);
    if ty.base.Str? {
      StringElements(t.es);
    }
  }

  lemma {:induction false} WriteArray(c: Var, f: Field, st: State, o: Tree, depth: nat, cnt: nat)
    requires !f.ty.One? && !IsByteArray(f.ty) && FieldAt(f, o) && Reads(st.vars, c, o, depth, cnt)
    ensures Ends(Exec(GenComplex(true, c, f, depth, cnt).code, st), st,
                 WrittenField(f.ty, Get(o, f.path).value), depth, cnt)
    decreases f, 1, 0
  {
    hide Kept, Reads, WrittenField, WrittenElements, SimpleWritten, FieldValue, ElementsValue, GenComplex;
    hide ElementCode, Exec, SimpleArrayCode, LengthCode;
    NoCode(st);
    var r, ty, t := Ref(c, f.path), f.ty, Get(o, f.path).value;
    ArrayWritten(ty, t);
    ShowsField(st.vars, c, f.path, o, depth, cnt);
    var len := if ty.Varying? then LengthCode(true, r) else [];
    var lenBytes := if ty.Varying? then WireLength(|t.es|) else [];
    if ty.Varying? {
      WriteLength(r, t, st, depth, cnt);
    } else {
      WroteNothing(st, depth, cnt);
    }
    var st' := Exec(len, st).value;
    assert Shows(st'.vars, r, t);
    var rest := ArrayCode(ty, r, depth, cnt);
    var elements := if ty.base.Prim? then SimpleWritten(ty, t.es) else WrittenElements(ty.base, t.es);
    if ty.base.Prim? {
      WriteSimpleArray(r, ty, t, st', depth, cnt);
    } else {
      WriteEach(ty.base, t.es, st', depth, cnt);
      RunsEach(Loop(depth), r, t, ElementCode(ty.base, Loop(depth), depth, cnt).code, st');
    }
    EndsThen(len, rest, st, Some(lenBytes), elements, depth, cnt, cnt);
    ArrayCodeIs(c, f, depth, cnt);
  }

  lemma NoCode(st: State)
    ensures Exec([], st) == Some(st)
  {
  }

  /** The code for the elements of an array. */
  function ArrayCode(ty: FieldType, r: Ref, depth: nat, cnt: nat): seq<Stmt>
    requires !ty.One?
  {
    if ty.base.Prim? then SimpleArrayCode(true, r, ty)
    else [ForEach(Loop(depth), r, ElementCode(ty.base, Loop(depth), depth, cnt).code)]
  }

  lemma ArrayCodeIs(c: Var, f: Field, depth: nat, cnt: nat)
    requires !f.ty.One? && !IsByteArray(f.ty)
    ensures var r := Ref(c, f.path);
      GenComplex(true, c, f, depth, cnt).code
      == (if f.ty.Varying? then LengthCode(true, r) else []) + ArrayCode(f.ty, r, depth, cnt)
  {
    hide GenBody;
  }

  lemma RunsEach(v: Var, r: Ref, t: Tree, body: seq<Stmt>, st: State)
    requires Eval(st.vars, r) == Some(t) && t.List?
    ensures Exec([ForEach(v, r, body)], st) == RunEach(v, t.es, body, st)
  {
    hide RunEach;
    ExecOne(ForEach(v, r, body), st);
  }

  lemma {:induction false} WriteEmbedded(c: Var, f: Field, st: State, o: Tree, depth: nat, cnt: nat)
    requires IsEmbedded(f.ty) && FieldAt(f, o) && Reads(st.vars, c, o, depth, cnt)
    ensures Ends(Exec(GenComplex(true, c, f, depth, cnt).code, st), st,
                 WrittenField(f.ty, Get(o, f.path).value), depth, cnt)
    decreases f, 1, 0
  {
    var r, b, t := Ref(c, f.path), f.ty.base, Get(o, f.path).value;
    assert BaseValue(b, t);
    var v := Sub(cnt + 1);
    AliasValue(st.vars, v, c, f.path, o, depth, cnt);
    var slot := BindTo(st.vars, v, r).value[v];
    var st' := st.(vars := Bind(st.vars, v, slot));
    WriteBody(v, b.fields, st', t, depth + 1, cnt + 1);
    var code := GenBody(true, v, b.fields, depth + 1, cnt + 1).code;
    EndsOutside(Exec(code, st'), st', WrittenFields(b.fields, t), depth, cnt);
    EndsAfterBind(Alias(v, r), code, st, v, slot, WrittenFields(b.fields, t), depth, cnt);
    assert WrittenField(f.ty, t) == WrittenBase(b, t) == WrittenFields(b.fields, t);
  }

  /** What is kept for inner code is kept for the code around it. */
  lemma EndsOutside(r: Option<State>, st: State, w: Option<seq<Byte>>, depth: nat, cnt: nat)
    requires Ends(r, st, w, depth + 1, cnt + 1)
    ensures Ends(r, st, w, depth, cnt)
  {
  }

  lemma {:induction false} WriteComplex(c: Var, f: Field, st: State, o: Tree, depth: nat, cnt: nat)
    requires !IsSimple(f.ty) && FieldAt(f, o) && Reads(st.vars, c, o, depth, cnt)
    ensures Ends(Exec(GenComplex(true, c, f, depth, cnt).code, st), st,
                 WrittenField(f.ty, Get(o, f.path).value), depth, cnt)
    decreases f, 2, 0
  {
    hide Exec, Ends, Reads, WrittenField;
    if IsStringLike(f.ty) {
      WriteStringField(c, f.path, f.ty, st, o, depth, cnt);
    } else if f.ty.One? {
      WriteEmbedded(c, f, st, o, depth, cnt);
    } else {
      WriteArray(c, f, st, o, depth, cnt);
    }
  }

  lemma {:induction false} CounterGrows(ser: bool, c: Var, fs: seq<Field>, depth: nat, cnt: nat)
    ensures GenFields(ser, c, fs, depth, cnt).cnt >= cnt
    decreases fs, 0
  {
    hide Chunks;
    var k := SimpleRun(fs);
    if k < |fs| {
      ComplexCounterGrows(ser, c, fs[k], depth, cnt);
      CounterGrows(ser, c, fs[k + 1..], depth, GenComplex(ser, c, fs[k], depth, cnt).cnt);
    }
  }

  lemma {:induction false} ComplexCounterGrows(ser: bool, c: Var, f: Field, depth: nat, cnt: nat)
    requires !IsSimple(f.ty)
    ensures GenComplex(ser, c, f, depth, cnt).cnt >= cnt
    decreases f, 0
  {
    if f.ty.base.Msg? {
      if f.ty.One? {
        CounterGrows(ser, Sub(cnt + 1), f.ty.base.fields, depth + 1, cnt + 1);
      } else {
        CounterGrows(ser, Loop(depth), f.ty.base.fields, depth + 1, cnt);
      }
    }
  }

  /** The fields before, at and after index k. */
  lemma FieldsAround(fs: seq<Field>, k: nat, o: Tree)
    requires k < |fs| && FieldsValue(fs, o)
    ensures FieldsValue(fs[..k], o) && FieldAt(fs[k], o) && FieldsValue(fs[k + 1..], o)
    ensures WrittenFields(fs, o)
         == Both(Both(WrittenFields(fs[..k], o), WrittenField(fs[k].ty, Get(o, fs[k].path).value)),
                 WrittenFields(fs[k + 1..], o))
  {
    hide WrittenFields, WrittenField, Both;
    assert fs == (fs[..k] + [fs[k]]) + fs[k + 1..];
    FieldsValueSplit(fs[..k] + [fs[k]], fs[k + 1..], o);
    FieldsValueSplit(fs[..k], [fs[k]], o);
    WrittenSplit(fs[..k] + [fs[k]], fs[k + 1..], o);
    WrittenSplit(fs[..k], [fs[k]], o);
    WrittenOne(fs[k], o);
  }

  lemma {:induction false} SimpleFieldsWritten(fs: seq<Field>, o: Tree)
    requires AllSimple(fs) && FieldsValue(fs, o)
    ensures WrittenFields(fs, o) == Some(WireFields(fs, o))
  {
    if fs != [] {
      assert fs == [fs[0]] + fs[1..];
      FieldsValueSplit([fs[0]], fs[1..], o);
      AllSimpleSplit(fs, 1);
      SimpleFieldWire(fs[0], o);
      SimpleFieldsWritten(fs[1..], o);
    }
  }

  lemma {:induction false} WriteFields(c: Var, fs: seq<Field>, st: State, o: Tree, depth: nat, cnt: nat)
    requires FieldsValue(fs, o) && Reads(st.vars, c, o, depth, cnt) && o.Obj?
    ensures Ends(Exec(GenFields(true, c, fs, depth, cnt).code, st), st, WrittenFields(fs, o), depth, cnt)
    decreases fs, 3, 0
  {
    hide Exec, Kept, Reads, WrittenFields, WrittenField, FieldsValue, GenComplex, Chunks;
    var k := SimpleRun(fs);
    if k == |fs| {
      assert fs[..k] == fs;
      WriteChunks(c, fs, st, o, depth, cnt);
      SimpleFieldsWritten(fs, o);
    } else {
      FieldsAround(fs, k, o);
      WriteHead(c, fs, k, st, o, depth, cnt);
      var g := GenComplex(true, c, fs[k], depth, cnt);
      var head := Chunks(true, c, fs[..k]) + g.code;
      var x := Both(WrittenFields(fs[..k], o), WrittenField(fs[k].ty, Get(o, fs[k].path).value));
      var h := GenFields(true, c, fs[k + 1..], depth, g.cnt).code;
      ComplexCounterGrows(true, c, fs[k], depth, cnt);
      if x.Some? {
        var st' := Exec(head, st).value;
        KeptReads(st.vars, st'.vars, c, o, depth, cnt);
        ReadsMore(st'.vars, c, o, depth, cnt, g.cnt);
        WriteFields(c, fs[k + 1..], st', o, depth, g.cnt);
      }
      EndsThen(head, h, st, x, WrittenFields(fs[k + 1..], o), depth, cnt, g.cnt);
      FieldsCode(c, fs, k, depth, cnt);
    }
  }

  lemma ReadsMore(vars: Store, c: Var, o: Tree, depth: nat, cnt: nat, cnt': nat)
    requires Reads(vars, c, o, depth, cnt) && cnt <= cnt'
    ensures Reads(vars, c, o, depth, cnt')
  {
  }

  lemma FieldsCode(c: Var, fs: seq<Field>, k: nat, depth: nat, cnt: nat)
    requires k == SimpleRun(fs) < |fs|
    ensures var g := GenComplex(true, c, fs[k], depth, cnt);
      GenFields(true, c, fs, depth, cnt).code
      == Chunks(true, c, fs[..k]) + g.code + GenFields(true, c, fs[k + 1..], depth, g.cnt).code
  {
    hide GenComplex, Chunks;
  }

  /** A run of simple fields and the field that ends it. */
  lemma {:induction false} WriteHead(c: Var, fs: seq<Field>, k: nat, st: State, o: Tree, depth: nat, cnt: nat)
    requires k < |fs| && AllSimple(fs[..k]) && !IsSimple(fs[k].ty)
    requires FieldsValue(fs[..k], o) && FieldAt(fs[k], o) && Reads(st.vars, c, o, depth, cnt) && o.Obj?
    ensures Ends(Exec(Chunks(true, c, fs[..k]) + GenComplex(true, c, fs[k], depth, cnt).code, st), st,
                 Both(WrittenFields(fs[..k], o), WrittenField(fs[k].ty, Get(o, fs[k].path).value)), depth, cnt)
    decreases fs, 2, 0
  {
    hide Exec, Kept, Reads, WrittenFields, WrittenField, FieldsValue, GenComplex, Chunks;
    var a := Chunks(true, c, fs[..k]);
    WriteChunks(c, fs[..k], st, o, depth, cnt);
    SimpleFieldsWritten(fs[..k], o);
    var st' := Exec(a, st).value;
    KeptReads(st.vars, st'.vars, c, o, depth, cnt);
    WriteComplex(c, fs[k], st', o, depth, cnt);
    EndsThen(a, GenComplex(true, c, fs[k], depth, cnt).code, st,
             WrittenFields(fs[..k], o), WrittenField(fs[k].ty, Get(o, fs[k].path).value), depth, cnt, cnt);
  }

  lemma {:induction false} WriteBody(c: Var, fs: seq<Field>, st: State, o: Tree, depth: nat, cnt: nat)
    requires FieldsValue(fs, o) && Reads(st.vars, c, o, depth, cnt) && o.Obj?
    ensures Ends(Exec(GenBody(true, c, fs, depth, cnt).code, st), st, WrittenFields(fs, o), depth, cnt)
    decreases fs, 4, 0
  {
    hide GenFields, Reads;
    if fs == [] {
      ExecOne(Pass, st);
      WroteNothing(st, depth, cnt);
    } else {
      WriteFields(c, fs, st, o, depth, cnt);
    }
  }

  /**
   Running the emitted `serialize` body on any well-typed message, whatever the counter and the
   other local variables are: it appends the written bytes, or fails where they are an exception.
   */
  lemma SerializeWrites(fs: seq<Field>, t: Tree, st: State, cnt: nat)
    requires HasSlots(fs, t) && FieldsValue(fs, t) && Self in st.vars && st.vars[Self] == Own(t)
    ensures var r := Exec(SerializeCode(fs, cnt), st); var w := WrittenFields(fs, t);
      && r.Some? == w.Some?
      && (w.Some? ==> r.value.buff == st.buff + w.value && Self in r.value.vars && r.value.vars[Self] == Own(t))
  {
    hide Exec, WrittenFields, FieldsValue, GenBody;
    FlattenWritten(fs, t);
    WriteBody(Self, Flatten(fs), st, t, 1, cnt);
  }

  /** It appends exactly the wire image if and only if every array in the message has a safe length. */
  lemma SerializeWritesWireIff(fs: seq<Field>, t: Tree, st: State, cnt: nat)
    requires HasSlots(fs, t) && FieldsValue(fs, t) && Self in st.vars && st.vars[Self] == Own(t)
    ensures var r := Exec(SerializeCode(fs, cnt), st);
      (r.Some? && r.value.buff == st.buff + WireFields(fs, t)) <==> SafeInFields(Writing, fs, t)
  {
    hide Exec, WrittenFields, WireFields, FieldsValue, SerializeCode, SafeInFields;
    SerializeWrites(fs, t, st, cnt);
    FieldsFaithful(fs, t);
  }

  /** For a specification with safe lengths that is every message. */
  lemma SerializeWritesWire(fs: seq<Field>, t: Tree, st: State, cnt: nat)
    requires SafeFields(fs) && HasSlots(fs, t) && FieldsValue(fs, t)
    requires Self in st.vars && st.vars[Self] == Own(t)
    ensures Exec(SerializeCode(fs, cnt), st).Some?
    ensures Exec(SerializeCode(fs, cnt), st).value.buff == st.buff + WireFields(fs, t)
    ensures Self in Exec(SerializeCode(fs, cnt), st).value.vars
    ensures Exec(SerializeCode(fs, cnt), st).value.vars[Self] == Own(t)
  {
    hide Exec, WrittenFields, WireFields, FieldsValue, SerializeCode, SafeInFields, SafeFields;
    SafeFieldsSafe(fs, t);
    WrittenIsWireIff(fs, t);
    SerializeWrites(fs, t, st, cnt);
  }
}
