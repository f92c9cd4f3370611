/** The emitted `deserialize` code rebuilds the message from its wire image. */
module DeserializeProof {
  import opened Common
  import opened DecimalText
  import opened StructPattern
  import opened WireTypes
  import opened PyTarget
  import opened Generator
  import opened TreeLaws
  import opened PackLaws
  import opened FillLaws
  import opened TextSearch
  import opened WrittenBytes
  import opened SerializeProof

  /* ---- which variables survive ---- */

  predicate Scratch(v: Var) {
    v.X? || v.Start? || v.End? || v.Length? || v.I? || v.Pattern?
  }

  predicate StableRoot(v: Var, depth: nat) {
    v.Self? || (v.Loop? && v.k < depth)
  }

  /** The object being filled sits at bp in the object owned by root, and c refers to it. */
  ghost predicate Focus(vars: Store, c: Var, root: Var, bp: seq<string>, tree: Tree, depth: nat, cnt: nat) {
    && Stable(c, depth, cnt) && StableRoot(root, depth)
    && root in vars && vars[root] == Own(tree)
    && (if c == root then bp == [] else c in vars && vars[c] == Ptr(root, bp))
    && Get(tree, bp).Some?
  }

  /** Slots that filling the object at bp of root may invalidate. */
  predicate Exposed(s: Slot, root: Var, bp: seq<string>, depth: nat) {
    || (s.Ptr? && ((s.root == root && bp < s.path) || !StableRoot(s.root, depth)))
    || (s.Val? && Mutable(s.t))
  }

  ghost predicate Framed(a: Store, b: Store, root: Var, bp: seq<string>, depth: nat, cnt: nat) {
    forall v :: v in a && Stable(v, depth, cnt) && v != root && !Exposed(a[v], root, bp, depth)
      ==> v in b && b[v] == a[v]
  }

  lemma FramedTrans(a: Store, b: Store, c: Store, root: Var, bp: seq<string>, bp': seq<string>,
                    depth: nat, cnt: nat, depth': nat, cnt': nat)
    requires Framed(a, b, root, bp, depth, cnt) && Framed(b, c, root, bp', depth', cnt')
    requires bp <= bp' && depth <= depth' && cnt <= cnt'
    ensures Framed(a, c, root, bp, depth, cnt)
  {
    forall v | v in a && Stable(v, depth, cnt) && v != root && !Exposed(a[v], root, bp, depth)
      ensures v in c && c[v] == a[v]
    {
      assert b[v] == a[v] && Stable(v, depth', cnt') && !Exposed(b[v], root, bp', depth');
    }
  }

  /** Only scratch variables changed. */
  ghost predicate Quiet(a: Store, b: Store) {
    forall v :: v in a && !Scratch(v) && !(a[v].Ptr? && Scratch(a[v].root)) ==> v in b && b[v] == a[v]
  }

  lemma QuietBind(vars: Store, v: Var, s: Slot)
    requires Scratch(v)
    ensures Quiet(vars, Bind(vars, v, s))
  {
  }

  lemma QuietFocus(a: Store, b: Store, c: Var, root: Var, bp: seq<string>, tree: Tree, depth: nat, cnt: nat)
    requires Quiet(a, b) && Focus(a, c, root, bp, tree, depth, cnt)
    ensures Focus(b, c, root, bp, tree, depth, cnt)
    ensures Framed(a, b, root, bp, depth, cnt)
  {
  }

  /** A run that consumed n bytes and left the focused object as o. */
  ghost predicate Filled(r: Option<State>, st: State, c: Var, root: Var, bp: seq<string>, tree: Tree,
                         o: Tree, n: nat, depth: nat, cnt: nat)
  {
    && r.Some? && IntOf(st.vars, End).Some?
    && r.value.input == st.input && r.value.buff == st.buff
    && IntOf(r.value.vars, End) == Some(IntOf(st.vars, End).value + n)
    && Focus(r.value.vars, c, root, bp, Put(tree, bp, o), depth, cnt)
    && Framed(st.vars, r.value.vars, root, bp, depth, cnt)
  }

  lemma FilledThen(a: seq<Stmt>, b: seq<Stmt>, st: State, c: Var, root: Var, bp: seq<string>, tree: Tree,
                   o1: Tree, n1: nat, o2: Tree, n2: nat, depth: nat, cnt: nat, cnt': nat)
    requires Focus(st.vars, c, root, bp, tree, depth, cnt) && cnt <= cnt'
    requires Filled(Exec(a, st), st, c, root, bp, tree, o1, n1, depth, cnt)
    requires var s1 := Exec(a, st).value;
      Filled(Exec(b, s1), s1, c, root, bp, Put(tree, bp, o1), o2, n2, depth, cnt')
    ensures Filled(Exec(a + b, st), st, c, root, bp, tree, o2, n1 + n2, depth, cnt)
  {
    hide Exec, Framed, Put, Get;
    ExecAppend(a, b, st);
    var s1 := Exec(a, st).value;
    var s2 := Exec(b, s1).value;
    PutPut(tree, bp, o1, o2);
    FramedTrans(st.vars, s1.vars, s2.vars, root, bp, bp, depth, cnt, depth, cnt');
  }

  lemma FilledNothing(st: State, c: Var, root: Var, bp: seq<string>, tree: Tree, depth: nat, cnt: nat)
    requires Focus(st.vars, c, root, bp, tree, depth, cnt) && IntOf(st.vars, End).Some?
    ensures Filled(Some(st), st, c, root, bp, tree, Get(tree, bp).value, 0, depth, cnt)
  {
    PutGet(tree, bp);
  }

  /** Scratch work before a run does not change its effect. */
  lemma FilledAfterQuiet(a: seq<Stmt>, b: seq<Stmt>, st: State, c: Var, root: Var, bp: seq<string>, tree: Tree,
                         n1: nat, o: Tree, n2: nat, depth: nat, cnt: nat)
    requires Focus(st.vars, c, root, bp, tree, depth, cnt)
    requires Exec(a, st).Some? && Quiet(st.vars, Exec(a, st).value.vars)
    requires IntOf(st.vars, End).Some?
    requires var s1 := Exec(a, st).value;
      && s1.input == st.input && s1.buff == st.buff
      && IntOf(s1.vars, End) == Some(IntOf(st.vars, End).value + n1)
      && Filled(Exec(b, s1), s1, c, root, bp, tree, o, n2, depth, cnt)
    ensures Filled(Exec(a + b, st), st, c, root, bp, tree, o, n1 + n2, depth, cnt)
  {
    hide Exec, Framed, Put, Get, Quiet;
    ExecAppend(a, b, st);
    var s1 := Exec(a, st).value;
    var s2 := Exec(b, s1).value;
    QuietFocus(st.vars, s1.vars, c, root, bp, tree, depth, cnt);
    FramedTrans(st.vars, s1.vars, s2.vars, root, bp, bp, depth, cnt, depth, cnt);
  }

  /* ---- reading from the input ---- */

  function Advanced(st: State, e: nat, n: nat): State {
    st.(vars := Bind(Bind(st.vars, Start, Int(e)), End, Int(e + n)))
  }

  /** `start = end; end += n` makes the slice the next n bytes. */
  lemma ReadAdvance(k: Count, st: State, e: nat, bs: seq<Byte>)
    requires IntOf(st.vars, End) == Some(e) && CountOf(st.vars, k) == Some(|bs|) && At(st.input, e, bs)
    ensures Exec([Advance(k)], st) == Some(Advanced(st, e, |bs|))
    ensures Slice(Advanced(st, e, |bs|)) == Some(bs)
    ensures IntOf(Advanced(st, e, |bs|).vars, End) == Some(e + |bs|)
    ensures Quiet(st.vars, Advanced(st, e, |bs|).vars)
    ensures FormatOf(Advanced(st, e, |bs|).vars, FromPattern) == FormatOf(st.vars, FromPattern)
  {
    ExecOne(Advance(k), st);
  }

  /** `start = end; end += 4; (length,) = unpack(...)` */
  lemma ReadLength(r: Ref, st: State, e: nat, n: nat)
    requires n < MAX_LEN && IntOf(st.vars, End) == Some(e) && At(st.input, e, WireLength(n))
    ensures Exec(LengthCode(false, r), st).Some?
    ensures var s := Exec(LengthCode(false, r), st).value;
      && s.input == st.input && s.buff == st.buff
      && IntOf(s.vars, Length) == Some(n) && IntOf(s.vars, End) == Some(e + 4)
      && Quiet(st.vars, s.vars)
  {
    ReadAdvance(Const(4), st, e, WireLength(n));
    var s1 := Advanced(st, e, 4);
    UnpackLengthStep(s1, n);
    ExecOne(UnpackLength, s1);
    assert LengthCode(false, r) == [Advance(Const(4))] + [UnpackLength];
    ExecAppend([Advance(Const(4))], [UnpackLength], st);
    QuietBind(s1.vars, Length, Int(n));
  }

  lemma UnpackLengthStep(st: State, n: nat)
    requires n < MAX_LEN && Slice(st) == Some(WireLength(n))
    ensures ExecStmt(UnpackLength, st) == Some(st.(vars := Bind(st.vars, Length, Int(n))))
  {
    hide Bind, UnpackCall, Slice, WireLength;
    LengthUnpacked(st, n);
  }

  lemma LengthUnpacked(st: State, n: nat)
    requires n < MAX_LEN && Slice(st) == Some(WireLength(n))
    ensures UnpackCall(st, Lit("I")) == Some([Num(n)])
  {
    hide Decimal, Number, Slice, UnpackCode, PackCode, UnpackNumbers, PackNumbers, WireLength, Pack;
    TokensOfCounted("", 'I', "");
    assert "" + ['I'] + "" == "I";
    assert [Token(1, 'I')] + [] == [Token(1, 'I')];
    hide Tokens;
    PackLengthOnly(n);
    PackCounted(1, 'I', [Num(n)]);
    UnpackCounted(1, 'I', [Num(n)]);
  }

  /* ---- assigning attributes ---- */

  /** Variable w reaches the focused object: it is c itself, or the alias `_x`. */
  ghost predicate Reaches(vars: Store, w: Var, c: Var, root: Var, bp: seq<string>) {
    w == c || (w == X && X in vars && vars[X] == Ptr(root, bp))
  }

  /** Numbers, texts and aliases to the focused object itself. */
  ghost predicate KeepsScratch(a: Store, b: Store, root: Var, bp: seq<string>) {
    forall w :: w in a && w != root && (a[w].Int? || a[w].Text? || a[w] == Ptr(root, bp)) ==> w in b && b[w] == a[w]
  }

  lemma AssignField(vars: Store, w: Var, c: Var, root: Var, bp: seq<string>, path: seq<string>,
                    tree: Tree, x: Tree, depth: nat, cnt: nat)
    requires Focus(vars, c, root, bp, tree, depth, cnt) && Reaches(vars, w, c, root, bp)
    requires path != [] && Get(Get(tree, bp).value, path).Some?
    ensures var r := Assign(vars, Ref(w, path), x);
      && r.Some?
      && Focus(r.value, c, root, bp, Put(tree, bp, Put(Get(tree, bp).value, path, x)), depth, cnt)
      && Framed(vars, r.value, root, bp, depth, cnt)
      && KeepsScratch(vars, r.value, root, bp)
  {
    var o := Get(tree, bp).value;
    assert [] + path == path;
    GetConcat(tree, bp, path);
    PutConcat(tree, bp, path, x);
    GetPut(tree, bp, Put(o, path, x));
    StoreFocus(vars, c, root, bp, path, tree, x, depth, cnt);
  }

  /** The store after an assignment below bp. */
  lemma StoreFocus(vars: Store, c: Var, root: Var, bp: seq<string>, path: seq<string>,
                   tree: Tree, x: Tree, depth: nat, cnt: nat)
    requires Focus(vars, c, root, bp, tree, depth, cnt) && path != []
    requires Get(tree, bp + path).Some? && Get(Put(tree, bp + path, x), bp).Some?
    ensures var r := StoreAt(vars, root, bp + path, x);
      && r.Some?
      && Focus(r.value, c, root, bp, Put(tree, bp + path, x), depth, cnt)
      && Framed(vars, r.value, root, bp, depth, cnt)
      && KeepsScratch(vars, r.value, root, bp)
  {
    var p := bp + path;
    assert !(p <= bp);
    assert forall s: Slot {:trigger Survives(s, root, p)} :: !Survives(s, root, p) ==> Exposed(s, root, bp, depth);
    assert forall s: Slot {:trigger Survives(s, root, p)} ::
      s.Int? || s.Text? || s == Ptr(root, bp) ==> Survives(s, root, p);
  }

  lemma EvalField(vars: Store, c: Var, root: Var, bp: seq<string>, path: seq<string>, tree: Tree, depth: nat, cnt: nat)
    requires Focus(vars, c, root, bp, tree, depth, cnt)
    ensures Eval(vars, Ref(c, path)) == Get(Get(tree, bp).value, path)
  {
  }

  /* ---- chunks of simple fields ---- */

  predicate Named(fs: seq<Field>) {
    forall i :: 0 <= i < |fs| ==> fs[i].path != []
  }

  lemma SimpleNorm(f: Field, v: Tree)
    requires IsSimple(f.ty) && FieldAt(f, v)
    ensures NormField(f.ty, Get(v, f.path).value) == Get(v, f.path).value
  {
  }

  /** `(w.a, w.b,) = values` */
  lemma {:induction false} AssignFields(vars: Store, w: Var, c: Var, root: Var, bp: seq<string>, fs: seq<Field>,
                                        tree: Tree, v: Tree, depth: nat, cnt: nat)
    requires Focus(vars, c, root, bp, tree, depth, cnt) && Reaches(vars, w, c, root, bp)
    requires AllSimple(fs) && Named(fs) && FieldsValue(fs, v)
    requires PrefixFree(fs) && AllReady(fs, Get(tree, bp).value)
    ensures var r := AssignAll(vars, Refs(w, fs), ValuesAt(fs, v));
      && r.Some?
      && Focus(r.value, c, root, bp, Put(tree, bp, Fill(Get(tree, bp).value, fs, v)), depth, cnt)
      && Framed(vars, r.value, root, bp, depth, cnt)
      && KeepsScratch(vars, r.value, root, bp)
    decreases fs
  {
    hide WireFields, Assign, Reduce, FieldsValue, PrefixFree, Exposed;
    var o := Get(tree, bp).value;
    if fs == [] {
      PutGet(tree, bp);
    } else {
      FieldsValueRest(fs, v);
      AllSimpleSplit(fs, 1);
      SimpleNorm(fs[0], v);
      assert Ready(fs[0], o);
      var x := Get(v, fs[0].path).value;
      AssignField(vars, w, c, root, bp, fs[0].path, tree, x, depth, cnt);
      var vars' := Assign(vars, Ref(w, fs[0].path), x).value;
      var o' := Put(o, fs[0].path, x);
      GetPut(tree, bp, o');
      ReadyAfterPut(fs, o, x);
      AssignFields(vars', w, c, root, bp, fs[1..], Put(tree, bp, o'), v, depth, cnt);
      PutPut(tree, bp, o', Fill(o', fs[1..], v));
      var vars2 := AssignAll(vars', Refs(w, fs[1..]), ValuesAt(fs[1..], v)).value;
      FramedTrans(vars, vars', vars2, root, bp, bp, depth, cnt, depth, cnt);
      AssignAllStep(vars, w, fs, v, vars');
    }
  }

  lemma AssignAllStep(vars: Store, w: Var, fs: seq<Field>, v: Tree, vars': Store)
    requires fs != [] && FieldsValue(fs, v) && FieldsValue(fs[1..], v) && FieldAt(fs[0], v)
    requires Assign(vars, Ref(w, fs[0].path), Get(v, fs[0].path).value) == Some(vars')
    ensures AssignAll(vars, Refs(w, fs), ValuesAt(fs, v)) == AssignAll(vars', Refs(w, fs[1..]), ValuesAt(fs[1..], v))
  {
    hide Assign, FieldsValue, Get;
    assert Refs(w, fs)[1..] == Refs(w, fs[1..]);
    assert ValuesAt(fs, v)[1..] == ValuesAt(fs[1..], v);
  }

  /** `f = bool(f)` on fields that already hold 0 or 1. */
  lemma {:induction false} BoolFixesKeep(c: Var, root: Var, bp: seq<string>, fs: seq<Field>, st: State,
                                         tree: Tree, v: Tree, depth: nat, cnt: nat)
    requires Focus(st.vars, c, root, bp, tree, depth, cnt) && IntOf(st.vars, End).Some?
    requires AllSimple(fs) && Named(fs) && FieldsValue(fs, v)
    requires forall i :: 0 <= i < |fs| ==> Get(Get(tree, bp).value, fs[i].path) == Get(v, fs[i].path)
    ensures Filled(Exec(BoolFixes(c, fs), st), st, c, root, bp, tree, Get(tree, bp).value, 0, depth, cnt)
    decreases fs
  {
    hide Framed, Put, FieldsValue, Exec;
    var o := Get(tree, bp).value;
    FilledNothing(st, c, root, bp, tree, depth, cnt);
    if fs == [] {
      NoCode(st);
    } else {
      FieldsValueRest(fs, v);
      AllSimpleSplit(fs, 1);
      assert forall i :: 0 <= i < |fs[1..]| ==> fs[1..][i] == fs[i + 1];
      if fs[0].ty.base.p == Bool {
        var s := ToBool(Ref(c, fs[0].path));
        ToBoolKeeps(c, root, bp, fs[0], st, tree, v, depth, cnt);
        var st' := Exec([s], st).value;
        PutGet(tree, bp);
        BoolFixesKeep(c, root, bp, fs[1..], st', tree, v, depth, cnt);
        FilledThen([s], BoolFixes(c, fs[1..]), st, c, root, bp, tree, o, 0, o, 0, depth, cnt, cnt);
      } else {
        BoolFixesKeep(c, root, bp, fs[1..], st, tree, v, depth, cnt);
        assert [] + BoolFixes(c, fs[1..]) == BoolFixes(c, fs[1..]);
      }
    }
  }

  lemma ToBoolKeeps(c: Var, root: Var, bp: seq<string>, f: Field, st: State,
                    tree: Tree, v: Tree, depth: nat, cnt: nat)
    requires Focus(st.vars, c, root, bp, tree, depth, cnt) && IntOf(st.vars, End).Some?
    requires f.ty == One(Prim(Bool)) && f.path != [] && FieldAt(f, v)
    requires Get(Get(tree, bp).value, f.path) == Get(v, f.path)
    ensures Filled(Exec([ToBool(Ref(c, f.path))], st), st, c, root, bp, tree, Get(tree, bp).value, 0, depth, cnt)
  {
    hide Exec, Assign;
    var o := Get(tree, bp).value;
    var x := Get(v, f.path).value;
    assert BaseValue(Prim(Bool), x);
    assert Truth(x) == x;
    EvalField(st.vars, c, root, bp, f.path, tree, depth, cnt);
    AssignField(st.vars, c, c, root, bp, f.path, tree, x, depth, cnt);
    PutGet(o, f.path);
    StepToBool(Ref(c, f.path), st, x);
    PutGet(tree, bp);
  }

  lemma {:induction false} SizeOfWire(fs: seq<Field>, v: Tree)
    requires AllSimple(fs) && FieldsValue(fs, v)
    ensures |WireFields(fs, v)| == SizeOf(fs)
  {
    if fs != [] {
      FieldsValueRest(fs, v);
      AllSimpleSplit(fs, 1);
      SimpleFieldWire(fs[0], v);
      SizeOfWire(fs[1..], v);
    }
  }

  /** The unpack call of one chunk yields the field values. */
  lemma UnpackChunk(st: State, fs: seq<Field>, v: Tree)
    requires AllSimple(fs) && FieldsValue(fs, v) && Slice(st) == Some(WireFields(fs, v))
    ensures UnpackCall(st, Lit(Reduce(PatternOf(fs)))) == Some(ValuesAt(fs, v))
  {
    var pattern := PatternOf(fs);
    ReduceKeepsLetters(pattern);
    var tokens := Tokens(Reduce(pattern)).value;
    assert 's' !in Codes(tokens);
    PackSimpleFields(fs, v);
    UnpackPacked(tokens, ValuesAt(fs, v));
  }

  /** `start = end; end += size; (w.a, w.b,) = unpack(...)` */
  lemma ReadFieldsAtOnce(w: Var, c: Var, root: Var, bp: seq<string>, fs: seq<Field>, st: State,
                         tree: Tree, v: Tree, depth: nat, cnt: nat)
    requires Focus(st.vars, c, root, bp, tree, depth, cnt) && Reaches(st.vars, w, c, root, bp)
    requires AllSimple(fs) && Named(fs) && FieldsValue(fs, v)
    requires PrefixFree(fs) && AllReady(fs, Get(tree, bp).value)
    requires IntOf(st.vars, End).Some? && At(st.input, IntOf(st.vars, End).value, WireFields(fs, v))
    ensures var code := [Advance(Const(SizeOf(fs))), UnpackTuple(Refs(w, fs), Lit(Reduce(PatternOf(fs))))];
      Filled(Exec(code, st), st, c, root, bp, tree, Fill(Get(tree, bp).value, fs, v), |WireFields(fs, v)|, depth, cnt)
  {
    hide Framed, Fill, AllReady, PrefixFree, WireFields, FieldsValue, Reduce, PatternOf, Put, SizeOf, Exec, Slice;
    hide At, Get, Around, Exposed;
    var e := IntOf(st.vars, End).value;
    var bs := WireFields(fs, v);
    var a, u := Advance(Const(SizeOf(fs))), UnpackTuple(Refs(w, fs), Lit(Reduce(PatternOf(fs))));
    SizeOfWire(fs, v);
    ReadAdvance(Const(SizeOf(fs)), st, e, bs);
    var st' := Advanced(st, e, |bs|);
    QuietFocus(st.vars, st'.vars, c, root, bp, tree, depth, cnt);
    UnpackTupleFills(w, c, root, bp, fs, st', tree, v, depth, cnt);
    var o' := Fill(Get(tree, bp).value, fs, v);
    FilledAfterQuiet([a], [u], st, c, root, bp, tree, |bs|, o', 0, depth, cnt);
    assert [a] + [u] == [a, u];
    assert Filled(Exec([a, u], st), st, c, root, bp, tree, o', |bs|, depth, cnt);
  }

  lemma UnpackTupleFills(w: Var, c: Var, root: Var, bp: seq<string>, fs: seq<Field>, st: State,
                         tree: Tree, v: Tree, depth: nat, cnt: nat)
    requires Focus(st.vars, c, root, bp, tree, depth, cnt) && Reaches(st.vars, w, c, root, bp)
    requires AllSimple(fs) && Named(fs) && FieldsValue(fs, v)
    requires PrefixFree(fs) && AllReady(fs, Get(tree, bp).value)
    requires IntOf(st.vars, End).Some? && Slice(st) == Some(WireFields(fs, v))
    ensures Filled(Exec([UnpackTuple(Refs(w, fs), Lit(Reduce(PatternOf(fs))))], st), st, c, root, bp, tree,
                   Fill(Get(tree, bp).value, fs, v), 0, depth, cnt)
  {
    hide Exec, Reduce, PatternOf, Fill, WireFields, Get, Put, AssignAll, PrefixFree;
    UnpackChunk(st, fs, v);
    AssignFields(st.vars, w, c, root, bp, fs, tree, v, depth, cnt);
    StepUnpackTuple(Refs(w, fs), Lit(Reduce(PatternOf(fs))), st, ValuesAt(fs, v));
    var vars' := AssignAll(st.vars, Refs(w, fs), ValuesAt(fs, v)).value;
    assert IntOf(vars', End) == IntOf(st.vars, End);
  }

  lemma FilledSimple(fs: seq<Field>, o: Tree, v: Tree)
    requires AllSimple(fs) && FieldsValue(fs, v) && PrefixFree(fs) && AllReady(fs, o)
    ensures forall i :: 0 <= i < |fs| ==> Get(Fill(o, fs, v), fs[i].path) == Get(v, fs[i].path)
  {
    forall i | 0 <= i < |fs| ensures Get(Fill(o, fs, v), fs[i].path) == Get(v, fs[i].path) {
      FillGet(o, fs, v, i);
      SimpleNorm(fs[i], v);
    }
  }

  /** The unpack call and the bool conversions after it. */
  lemma ReadAndFix(w: Var, c: Var, root: Var, bp: seq<string>, fs: seq<Field>, st: State,
                   tree: Tree, v: Tree, depth: nat, cnt: nat)
    requires Focus(st.vars, c, root, bp, tree, depth, cnt) && Reaches(st.vars, w, c, root, bp)
    requires AllSimple(fs) && Named(fs) && FieldsValue(fs, v)
    requires PrefixFree(fs) && AllReady(fs, Get(tree, bp).value)
    requires IntOf(st.vars, End).Some? && At(st.input, IntOf(st.vars, End).value, WireFields(fs, v))
    ensures var code := [Advance(Const(SizeOf(fs))), UnpackTuple(Refs(w, fs), Lit(Reduce(PatternOf(fs))))];
      Filled(Exec(code + BoolFixes(c, fs), st), st, c, root, bp, tree, Fill(Get(tree, bp).value, fs, v),
             |WireFields(fs, v)|, depth, cnt)
  {
    hide Framed, Fill, AllReady, PrefixFree, WireFields, FieldsValue, Reduce, PatternOf, Put, Exec, SizeOf, BoolFixes;
    hide At;
    var code := [Advance(Const(SizeOf(fs))), UnpackTuple(Refs(w, fs), Lit(Reduce(PatternOf(fs))))];
    var o := Get(tree, bp).value;
    var o' := Fill(o, fs, v);
    ReadFieldsAtOnce(w, c, root, bp, fs, st, tree, v, depth, cnt);
    var st' := Exec(code, st).value;
    GetPut(tree, bp, o');
    FilledSimple(fs, o, v);
    BoolFixesKeep(c, root, bp, fs, st', Put(tree, bp, o'), v, depth, cnt);
    FilledThen(code, BoolFixes(c, fs), st, c, root, bp, tree, o', |WireFields(fs, v)|, o', 0, depth, cnt, cnt);
  }

  lemma ReadChunk(c: Var, root: Var, bp: seq<string>, fs: seq<Field>, st: State,
                  tree: Tree, v: Tree, depth: nat, cnt: nat)
    requires Focus(st.vars, c, root, bp, tree, depth, cnt) && Get(tree, bp).value.Obj?
    requires AllSimple(fs) && Named(fs) && FieldsValue(fs, v)
    requires PrefixFree(fs) && AllReady(fs, Get(tree, bp).value)
    requires IntOf(st.vars, End).Some? && At(st.input, IntOf(st.vars, End).value, WireFields(fs, v))
    ensures Filled(Exec(Chunk(false, c, fs), st), st, c, root, bp, tree, Fill(Get(tree, bp).value, fs, v),
                   |WireFields(fs, v)|, depth, cnt)
  {
    hide Framed, Fill, AllReady, PrefixFree, WireFields, FieldsValue, Reduce, PatternOf, Put, SizeOf, BoolFixes, At;
    hide Exec;
    var fmt := Lit(Reduce(PatternOf(fs)));
    if |fs| > 1 {
      var alias := Alias(X, Ref(c, []));
      AliasFocus(X, [], c, root, bp, st, tree, depth, cnt);
      assert bp + [] == bp;
      var st' := st.(vars := Bind(st.vars, X, Ptr(root, bp)));
      QuietBind(st.vars, X, Ptr(root, bp));
      QuietFocus(st.vars, st'.vars, c, root, bp, tree, depth, cnt);
      ReadAndFix(X, c, root, bp, fs, st', tree, v, depth, cnt);
      var code := [Advance(Const(SizeOf(fs))), UnpackTuple(Refs(X, fs), fmt)];
      FilledAfterQuiet([alias], code + BoolFixes(c, fs), st, c, root, bp, tree, 0, Fill(Get(tree, bp).value, fs, v),
                       |WireFields(fs, v)|, depth, cnt);
      ConcatAssociates([alias], code, BoolFixes(c, fs));
    } else {
      ReadAndFix(c, c, root, bp, fs, st, tree, v, depth, cnt);
      var code := [Advance(Const(SizeOf(fs))), UnpackTuple(Refs(c, fs), fmt)];
      assert [] + code == code;
    }
  }

  /** `x = c.path` on an object is an alias for its place. */
  lemma AliasFocus(x: Var, path: seq<string>, c: Var, root: Var, bp: seq<string>, st: State,
                   tree: Tree, depth: nat, cnt: nat)
    requires Focus(st.vars, c, root, bp, tree, depth, cnt)
    requires Get(Get(tree, bp).value, path).Some? && Get(Get(tree, bp).value, path).value.Obj?
    ensures Exec([Alias(x, Ref(c, path))], st) == Some(st.(vars := Bind(st.vars, x, Ptr(root, bp + path))))
  {
    hide Exec;
    EvalField(st.vars, c, root, bp, path, tree, depth, cnt);
    assert [] + path == path;
    StepAlias(x, Ref(c, path), st);
  }

  lemma FillHalves(fs: seq<Field>, k: nat, o: Tree, v: Tree)
    requires k <= |fs| && FieldsValue(fs, v) && PrefixFree(fs) && AllReady(fs, o) && Named(fs)
    ensures FieldsValue(fs[..k], v) && FieldsValue(fs[k..], v)
    ensures PrefixFree(fs[..k]) && AllReady(fs[..k], o) && Named(fs[..k]) && Named(fs[k..])
    ensures PrefixFree(fs[k..]) && AllReady(fs[k..], Fill(o, fs[..k], v))
    ensures Fill(o, fs, v) == Fill(Fill(o, fs[..k], v), fs[k..], v)
    ensures WireFields(fs, v) == WireFields(fs[..k], v) + WireFields(fs[k..], v)
  {
    assert fs == fs[..k] + fs[k..];
    FieldsValueSplit(fs[..k], fs[k..], v);
    FillReady(o, fs[..k], fs[k..], v);
    FillSplit(o, fs[..k], fs[k..], v);
    WireFieldsSplit(fs[..k], fs[k..], v);
  }

  lemma FillNone(fs: seq<Field>, o: Tree, v: Tree)
    requires fs == []
    ensures FieldsValue(fs, v) && Fill(o, fs, v) == o && WireFields(fs, v) == []
  {
  }

  /** Filling keeps an object an object. */
  lemma {:induction false} FillObj(o: Tree, fs: seq<Field>, v: Tree)
    requires FieldsValue(fs, v) && Named(fs) && o.Obj?
    ensures Fill(o, fs, v).Obj?
    decreases fs
  {
    if fs != [] {
      FieldsValueRest(fs, v);
      assert forall i :: 0 <= i < |fs[1..]| ==> fs[1..][i] == fs[i + 1];
      FillObj(Put(o, fs[0].path, NormField(fs[0].ty, Get(v, fs[0].path).value)), fs[1..], v);
    }
  }

  lemma {:induction false} ReadChunks(c: Var, root: Var, bp: seq<string>, fs: seq<Field>, st: State,
                                      tree: Tree, v: Tree, depth: nat, cnt: nat)
    requires Focus(st.vars, c, root, bp, tree, depth, cnt) && Get(tree, bp).value.Obj?
    requires AllSimple(fs) && Named(fs) && FieldsValue(fs, v)
    requires PrefixFree(fs) && AllReady(fs, Get(tree, bp).value)
    requires IntOf(st.vars, End).Some? && At(st.input, IntOf(st.vars, End).value, WireFields(fs, v))
    ensures Filled(Exec(Chunks(false, c, fs), st), st, c, root, bp, tree, Fill(Get(tree, bp).value, fs, v),
                   |WireFields(fs, v)|, depth, cnt)
    decreases |fs|
  {
    hide Framed, Fill, AllReady, PrefixFree, WireFields, FieldsValue, Reduce, PatternOf, Put;
    var o := Get(tree, bp).value;
    if |fs| == 0 {
      FillNone(fs, o, v);
      FilledNothing(st, c, root, bp, tree, depth, cnt);
    } else if |fs| <= MAX_CHUNK {
      ReadChunk(c, root, bp, fs, st, tree, v, depth, cnt);
    } else {
      var a, b := fs[..MAX_CHUNK], fs[MAX_CHUNK..];
      AllSimpleSplit(fs, MAX_CHUNK);
      FillHalves(fs, MAX_CHUNK, o, v);
      AtSplit(st.input, IntOf(st.vars, End).value, WireFields(a, v), WireFields(b, v));
      ReadChunk(c, root, bp, a, st, tree, v, depth, cnt);
      var st' := Exec(Chunk(false, c, a), st).value;
      var o' := Fill(o, a, v);
      FillObj(o, a, v);
      GetPut(tree, bp, o');
      ReadChunks(c, root, bp, b, st', Put(tree, bp, o'), v, depth, cnt);
      ChunksJoin(c, root, bp, fs, st, tree, v, depth, cnt);
    }
  }

  lemma ChunksJoin(c: Var, root: Var, bp: seq<string>, fs: seq<Field>, st: State,
                   tree: Tree, v: Tree, depth: nat, cnt: nat)
    requires |fs| > MAX_CHUNK && AllSimple(fs) && FieldsValue(fs, v) && Focus(st.vars, c, root, bp, tree, depth, cnt)
    requires Named(fs) && PrefixFree(fs) && AllReady(fs, Get(tree, bp).value)
    requires var a, b := fs[..MAX_CHUNK], fs[MAX_CHUNK..];
      && AllSimple(a) && AllSimple(b) && FieldsValue(a, v) && FieldsValue(b, v)
      && var o' := Fill(Get(tree, bp).value, a, v);
         && Filled(Exec(Chunk(false, c, a), st), st, c, root, bp, tree, o', |WireFields(a, v)|, depth, cnt)
         && Filled(Exec(Chunks(false, c, b), Exec(Chunk(false, c, a), st).value), Exec(Chunk(false, c, a), st).value,
                   c, root, bp, Put(tree, bp, o'), Fill(o', b, v), |WireFields(b, v)|, depth, cnt)
    ensures Filled(Exec(Chunks(false, c, fs), st), st, c, root, bp, tree, Fill(Get(tree, bp).value, fs, v),
                   |WireFields(fs, v)|, depth, cnt)
  {
    hide Framed, Fill, AllReady, PrefixFree, WireFields, FieldsValue, Put, Get, Exec, Chunk, Filled;
    var a, b := fs[..MAX_CHUNK], fs[MAX_CHUNK..];
    var o' := Fill(Get(tree, bp).value, a, v);
    FillHalves(fs, MAX_CHUNK, Get(tree, bp).value, v);
    var code, o2, n := Chunks(false, c, fs), Fill(o', b, v), |WireFields(fs, v)|;
    assert code == Chunk(false, c, a) + Chunks(false, c, b);
    FilledThen(Chunk(false, c, a), Chunks(false, c, b), st, c, root, bp, tree,
               o', |WireFields(a, v)|, o2, |WireFields(b, v)|, depth, cnt, cnt);
    assert Filled(Exec(code, st), st, c, root, bp, tree, o2, n, depth, cnt);
  }

  /* ---- strings and byte arrays ---- */

  /** The bytes of a string or byte array, without its length. */
  function PayloadOf(ty: FieldType, t: Tree): seq<Byte>
    requires IsStringLike(ty) && FieldValue(ty, t)
  {
    if t.Bytes? then t.bs else seq(|t.es|, i requires 0 <= i < |t.es| => ByteOf(t.es[i]))
  }

  lemma {:induction false} ByteElements(p: Simple, es: seq<Tree>)
    requires IsByteLike(p) && ElementsValue(Prim(p), es)
    ensures WireElements(Prim(p), es) == seq(|es|, i requires 0 <= i < |es| => ByteOf(es[i]))
  {
    hide WireBase, BaseValue;
    if es != [] {
      ElementsRest(Prim(p), es);
      ByteElements(p, es[1..]);
      ByteElement(p, es[0]);
    }
  }

  lemma ByteElement(p: Simple, t: Tree)
    requires IsByteLike(p) && BaseValue(Prim(p), t)
    ensures WireBase(Prim(p), t) == [ByteOf(t)]
  {
    assert SimpleValue(p, t);
    assert Code(p) == 'B' && Limit('B') == 256 by { assert Pow256(1) == 256 * Pow256(0); }
    assert LittleEndian(t.n, 1) == [t.n % 256] + LittleEndian(t.n / 256, 0);
  }

  lemma StringWire(ty: FieldType, t: Tree)
    requires IsStringLike(ty) && FieldValue(ty, t)
    ensures NormField(ty, t) == Bytes(PayloadOf(ty, t))
    ensures ty.Fixed? ==> WireField(ty, t) == PayloadOf(ty, t) && |PayloadOf(ty, t)| == ty.len
    ensures !ty.Fixed? ==> |PayloadOf(ty, t)| < MAX_LEN
                           && WireField(ty, t) == WireLength(|PayloadOf(ty, t)|) + PayloadOf(ty, t)
  {
    if ty.One? {
      assert BaseValue(Str, t);
    } else if t.List? {
      ByteElements(ty.base.p, t.es);
    }
  }

  /** `start = end; end += n; target = str[start:end]`, after the length if there is one. */
  lemma ReadPayload(k: Count, target: Ref, st: State, e: nat, bs: seq<Byte>)
    requires IntOf(st.vars, End) == Some(e) && CountOf(st.vars, k) == Some(|bs|) && At(st.input, e, bs)
    ensures Exec([Advance(k), TakeBytes(target)], st)
         == var s := Advanced(st, e, |bs|); WithVars(s, Assign(s.vars, target, Bytes(bs)))
  {
    hide Exec, Get, Assign;
    ReadAdvance(k, st, e, bs);
    var s := Advanced(st, e, |bs|);
    StepTakeBytes(target, s, bs);
    ExecCons(Advance(k), [TakeBytes(target)], st);
    assert [Advance(k)] + [TakeBytes(target)] == [Advance(k), TakeBytes(target)];
  }

  /** The state just before the bytes are assigned: only scratch variables have changed. */
  lemma ReadStringBytes(target: Ref, ty: FieldType, t: Tree, st: State, e: nat) returns (s: State)
    requires IsStringLike(ty) && FieldValue(ty, t)
    requires IntOf(st.vars, End) == Some(e) && At(st.input, e, WireField(ty, t))
    ensures Exec(StringCode(false, target, ty), st) == WithVars(s, Assign(s.vars, target, NormField(ty, t)))
    ensures Quiet(st.vars, s.vars) && s.input == st.input && s.buff == st.buff
    ensures IntOf(s.vars, End) == Some(e + |WireField(ty, t)|)
  {
    hide Assign, Exec, WireField, NormField, FieldValue, Get;
    StringWire(ty, t);
    var bs := PayloadOf(ty, t);
    if ty.Fixed? {
      ReadPayload(Const(ty.len), target, st, e, bs);
      s := Advanced(st, e, |bs|);
    } else {
      AtSplit(st.input, e, WireLength(|bs|), bs);
      ReadLength(target, st, e, |bs|);
      var s1 := Exec(LengthCode(false, target), st).value;
      ReadPayload(LengthVar, target, s1, e + 4, bs);
      ExecAppend(LengthCode(false, target), [Advance(LengthVar), TakeBytes(target)], st);
      s := Advanced(s1, e + 4, |bs|);
      assert Quiet(s1.vars, s.vars);
    }
  }

  /** One assignment after scratch work. */
  lemma FilledByAssign(code: seq<Stmt>, st: State, s: State, c: Var, root: Var, bp: seq<string>, path: seq<string>,
                       tree: Tree, x: Tree, n: nat, depth: nat, cnt: nat)
    requires Focus(st.vars, c, root, bp, tree, depth, cnt) && path != [] && Get(Get(tree, bp).value, path).Some?
    requires Exec(code, st) == WithVars(s, Assign(s.vars, Ref(c, path), x))
    requires Quiet(st.vars, s.vars) && s.input == st.input && s.buff == st.buff
    requires IntOf(st.vars, End).Some? && IntOf(s.vars, End) == Some(IntOf(st.vars, End).value + n)
    ensures Filled(Exec(code, st), st, c, root, bp, tree, Put(Get(tree, bp).value, path, x), n, depth, cnt)
  {
    hide Get, Put, Exec, Assign;
    QuietFocus(st.vars, s.vars, c, root, bp, tree, depth, cnt);
    AssignField(s.vars, c, c, root, bp, path, tree, x, depth, cnt);
    var vars' := Assign(s.vars, Ref(c, path), x).value;
    FramedTrans(st.vars, s.vars, vars', root, bp, bp, depth, cnt, depth, cnt);
    assert IntOf(vars', End) == IntOf(s.vars, End);
  }

  lemma ReadStringField(c: Var, root: Var, bp: seq<string>, f: Field, st: State,
                        tree: Tree, v: Tree, depth: nat, cnt: nat)
    requires Focus(st.vars, c, root, bp, tree, depth, cnt) && f.path != [] && Ready(f, Get(tree, bp).value)
    requires IsStringLike(f.ty) && FieldAt(f, v)
    requires IntOf(st.vars, End).Some?
    requires At(st.input, IntOf(st.vars, End).value, WireField(f.ty, Get(v, f.path).value))
    ensures var t := Get(v, f.path).value;
      Filled(Exec(GenComplex(false, c, f, depth, cnt).code, st), st, c, root, bp, tree,
             Put(Get(tree, bp).value, f.path, NormField(f.ty, t)), |WireField(f.ty, t)|, depth, cnt)
  {
    hide Put, Exec, WireField, NormField;
    var t := Get(v, f.path).value;
    var s := ReadStringBytes(Ref(c, f.path), f.ty, t, st, IntOf(st.vars, End).value);
    var code := StringCode(false, Ref(c, f.path), f.ty);
    assert GenComplex(false, c, f, depth, cnt).code == code;
    FilledByAssign(code, st, s, c, root, bp, f.path, tree, NormField(f.ty, t), |WireField(f.ty, t)|, depth, cnt);
  }

  /* ---- arrays of simple values ---- */

  lemma TruthOfBools(es: seq<Tree>)
    requires ElementsValue(Prim(Bool), es)
    ensures seq(|es|, i requires 0 <= i < |es| => Truth(es[i])) == es
  {
    forall i | 0 <= i < |es| ensures Truth(es[i]) == es[i] { assert BaseValue(Prim(Bool), es[i]); }
  }

  lemma NormSimpleElements(p: Simple, es: seq<Tree>)
    requires ElementsValue(Prim(p), es)
    ensures NormElements(Prim(p), es) == es
  {
    forall i | 0 <= i < |es| ensures NormElements(Prim(p), es)[i] == es[i] { assert BaseValue(Prim(p), es[i]); }
  }

  /** `start = end; end += size; target = unpack(fmt, str[start:end])` */
  lemma UnpackListStep(k: Count, fmt: Fmt, target: Ref, n: nat, p: Simple, es: seq<Tree>, st: State, e: nat)
    requires ElementsValue(Prim(p), es) && |es| == n
    requires IntOf(st.vars, End) == Some(e) && At(st.input, e, WireElements(Prim(p), es))
    requires CountOf(st.vars, k) == Some(n * CodeSize(Code(p)))
    requires FormatOf(Advanced(st, e, n * CodeSize(Code(p))).vars, fmt).Some?
    requires Tokens(FormatOf(Advanced(st, e, n * CodeSize(Code(p))).vars, fmt).value) == Some([Token(n, Code(p))])
    ensures |WireElements(Prim(p), es)| == n * CodeSize(Code(p))
    ensures Exec([Advance(k), UnpackList(target, fmt)], st)
         == var s := Advanced(st, e, n * CodeSize(Code(p))); WithVars(s, Assign(s.vars, target, List(es)))
  {
    hide Get, Assign, FormatOf, WireElements, Exec;
    PackElements(p, es);
    NumbersInverse(Code(p), es);
    ReadAdvance(k, st, e, WireElements(Prim(p), es));
    var s := Advanced(st, e, n * CodeSize(Code(p)));
    UnpackCounted(n, Code(p), es);
    assert UnpackCall(s, fmt) == Some(es);
    StepUnpackList(target, fmt, s, es);
    ExecCons(Advance(k), [UnpackList(target, fmt)], st);
    assert [Advance(k)] + [UnpackList(target, fmt)] == [Advance(k), UnpackList(target, fmt)];
  }

  /** The code of a simple array up to the bool conversion. */
  function SimpleArrayHead(r: Ref, ty: FieldType): seq<Stmt>
    requires !ty.One? && ty.base.Prim?
  {
    var code := Code(ty.base.p);
    if ty.Varying? then LengthCode(false, r) + [SetPattern(code), Advance(PatternSize), UnpackList(r, FromPattern)]
    else [Advance(Const(ty.len * CodeSize(code))), UnpackList(r, Lit(Reduce(Counted(ty.len, code))))]
  }

  lemma CountedSize(n: nat, c: char)
    ensures CalcSize([Token(n, c)]) == n * CodeSize(c)
  {
    assert [Token(n, c)][1..] == [];
  }

  /** `pattern = '<%s<c>'%length` and the unpack call that uses it. */
  lemma ReadByPattern(r: Ref, p: Simple, es: seq<Tree>, st: State, e: nat) returns (s: State)
    requires ElementsValue(Prim(p), es) && IntOf(st.vars, Length) == Some(|es|)
    requires IntOf(st.vars, End) == Some(e) && At(st.input, e, WireElements(Prim(p), es))
    ensures Exec([SetPattern(Code(p)), Advance(PatternSize), UnpackList(r, FromPattern)], st)
         == WithVars(s, Assign(s.vars, r, List(es)))
    ensures Quiet(st.vars, s.vars) && s.input == st.input && s.buff == st.buff
    ensures IntOf(s.vars, End) == Some(e + |WireElements(Prim(p), es)|)
  {
    hide Get, Assign, WireElements, ElementsValue, Decimal, Exec, Tokens;
    var c, n := Code(p), |es|;
    var s1 := st.(vars := Bind(st.vars, Pattern, Text(Counted(n, c))));
    QuietBind(st.vars, Pattern, Text(Counted(n, c)));
    CountedFormat(n, c);
    CountedSize(n, c);
    UnpackListStep(PatternSize, FromPattern, r, n, p, es, s1, e);
    s := Advanced(s1, e, n * CodeSize(c));
    ReadAdvance(PatternSize, s1, e, WireElements(Prim(p), es));
    StepSetPattern(c, st, n);
    var rest := [Advance(PatternSize), UnpackList(r, FromPattern)];
    ExecCons(SetPattern(c), rest, st);
    assert [SetPattern(c)] + rest == [SetPattern(c), Advance(PatternSize), UnpackList(r, FromPattern)];
  }

  lemma ReadFixedSimple(r: Ref, p: Simple, es: seq<Tree>, st: State, e: nat) returns (s: State)
    requires ElementsValue(Prim(p), es) && !HasDoubleNine(Decimal(|es|))
    requires IntOf(st.vars, End) == Some(e) && At(st.input, e, WireElements(Prim(p), es))
    ensures Exec([Advance(Const(|es| * CodeSize(Code(p)))), UnpackList(r, Lit(Reduce(Counted(|es|, Code(p)))))], st)
         == WithVars(s, Assign(s.vars, r, List(es)))
    ensures Quiet(st.vars, s.vars) && s.input == st.input && s.buff == st.buff
    ensures IntOf(s.vars, End) == Some(e + |WireElements(Prim(p), es)|)
  {
    hide Get, Assign, WireElements, ElementsValue, Decimal, Reduce, Counted, HasDoubleNine;
    var c, n := Code(p), |es|;
    ReduceKeepsCountIff(n, c);
    UnpackListStep(Const(n * CodeSize(c)), Lit(Reduce(Counted(n, c))), r, n, p, es, st, e);
    s := Advanced(st, e, n * CodeSize(c));
    ReadAdvance(Const(n * CodeSize(c)), st, e, WireElements(Prim(p), es));
  }

  /** A list value of an array type. */
  predicate ListValue(ty: FieldType, t: Tree) {
    !ty.One? && t.List? && ElementsValue(ty.base, t.es) && (if ty.Varying? then |t.es| < MAX_LEN else |t.es| == ty.len)
  }

  lemma ReadSimpleHead(r: Ref, ty: FieldType, t: Tree, st: State, e: nat) returns (s: State)
    requires ListValue(ty, t) && ty.base.Prim? && !IsByteArray(ty) && SafeLength(Reading, ty) && FieldValue(ty, t)
    requires IntOf(st.vars, End) == Some(e) && At(st.input, e, WireField(ty, t))
    ensures Exec(SimpleArrayHead(r, ty), st) == WithVars(s, Assign(s.vars, r, t))
    ensures Quiet(st.vars, s.vars) && s.input == st.input && s.buff == st.buff
    ensures IntOf(s.vars, End) == Some(e + |WireField(ty, t)|)
  {
    hide Get, Assign, WireElements, ElementsValue, Decimal, Reduce, Counted, HasDoubleNine, Exec, At, LengthCode;
    var p, es := ty.base.p, t.es;
    if ty.Varying? {
      AtSplit(st.input, e, WireLength(|es|), WireElements(Prim(p), es));
      ReadLength(r, st, e, |es|);
      var s1 := Exec(LengthCode(false, r), st).value;
      s := ReadByPattern(r, p, es, s1, e + 4);
      var rest := [SetPattern(Code(p)), Advance(PatternSize), UnpackList(r, FromPattern)];
      ExecAppend(LengthCode(false, r), rest, st);
    } else {
      s := ReadFixedSimple(r, p, es, st, e);
    }
  }

  /** `target = map(bool, target)` on a list of zeros and ones. */
  lemma MapBoolKeeps(c: Var, root: Var, bp: seq<string>, path: seq<string>, st: State,
                     tree: Tree, es: seq<Tree>, depth: nat, cnt: nat)
    requires Focus(st.vars, c, root, bp, tree, depth, cnt) && IntOf(st.vars, End).Some?
    requires path != [] && Get(Get(tree, bp).value, path) == Some(List(es)) && ElementsValue(Prim(Bool), es)
    ensures Filled(Exec([MapBool(Ref(c, path))], st), st, c, root, bp, tree, Get(tree, bp).value, 0, depth, cnt)
  {
    hide Put, Assign, ElementsValue, Exec;
    var s := MapBool(Ref(c, path));
    TruthOfBools(es);
    EvalField(st.vars, c, root, bp, path, tree, depth, cnt);
    StepMapBool(Ref(c, path), st, es);
    FilledByAssign([s], st, st, c, root, bp, path, tree, List(es), 0, depth, cnt);
    PutGet(Get(tree, bp).value, path);
  }

  lemma ReadSimpleArray(c: Var, root: Var, bp: seq<string>, f: Field, st: State,
                        tree: Tree, v: Tree, depth: nat, cnt: nat)
    requires Focus(st.vars, c, root, bp, tree, depth, cnt) && f.path != [] && Ready(f, Get(tree, bp).value)
    requires !f.ty.One? && f.ty.base.Prim? && !IsByteArray(f.ty) && SafeLength(Reading, f.ty) && FieldAt(f, v)
    requires IntOf(st.vars, End).Some?
    requires At(st.input, IntOf(st.vars, End).value, WireField(f.ty, Get(v, f.path).value))
    ensures var t := Get(v, f.path).value;
      Filled(Exec(GenComplex(false, c, f, depth, cnt).code, st), st, c, root, bp, tree,
             Put(Get(tree, bp).value, f.path, NormField(f.ty, t)), |WireField(f.ty, t)|, depth, cnt)
  {
    hide Put, Assign, ElementsValue, Exec, WireField, SafeLength, Framed, Reduce, At, Filled, GenComplex;
    var t, r := Get(v, f.path).value, Ref(c, f.path);
    assert ListValue(f.ty, t);
    NormSimpleElements(f.ty.base.p, t.es);
    assert NormField(f.ty, t) == t;
    var head := SimpleArrayHead(r, f.ty);
    var s := ReadSimpleHead(r, f.ty, t, st, IntOf(st.vars, End).value);
    FilledByAssign(head, st, s, c, root, bp, f.path, tree, t, |WireField(f.ty, t)|, depth, cnt);
    SimpleArrayWhole(c, f, depth, cnt);
    if f.ty.base.p == Bool {
      FixBools(head, c, root, bp, f.path, st, tree, t.es, |WireField(f.ty, t)|, depth, cnt);
    } else {
      assert head + [] == head;
    }
  }

  lemma SimpleArrayWhole(c: Var, f: Field, depth: nat, cnt: nat)
    requires !f.ty.One? && f.ty.base.Prim? && !IsByteArray(f.ty)
    ensures GenComplex(false, c, f, depth, cnt).code
         == SimpleArrayHead(Ref(c, f.path), f.ty) + (if f.ty.base.p == Bool then [MapBool(Ref(c, f.path))] else [])
  {
    hide Reduce, Counted, CodeSize;
  }

  /** The bool conversion after the array has been read. */
  lemma FixBools(head: seq<Stmt>, c: Var, root: Var, bp: seq<string>, path: seq<string>, st: State,
                 tree: Tree, es: seq<Tree>, n: nat, depth: nat, cnt: nat)
    requires Focus(st.vars, c, root, bp, tree, depth, cnt) && path != [] && Get(Get(tree, bp).value, path).Some?
    requires ElementsValue(Prim(Bool), es)
    requires Filled(Exec(head, st), st, c, root, bp, tree, Put(Get(tree, bp).value, path, List(es)), n, depth, cnt)
    ensures Filled(Exec(head + [MapBool(Ref(c, path))], st), st, c, root, bp, tree,
                   Put(Get(tree, bp).value, path, List(es)), n, depth, cnt)
  {
    hide Exec, Framed, ElementsValue;
    var o' := Put(Get(tree, bp).value, path, List(es));
    GetPut(Get(tree, bp).value, path, List(es));
    GetPut(tree, bp, o');
    MapBoolKeeps(c, root, bp, path, Exec(head, st).value, Put(tree, bp, o'), es, depth, cnt);
    FilledThen(head, [MapBool(Ref(c, path))], st, c, root, bp, tree, o', n, o', 0, depth, cnt, cnt);
  }

  /* ---- arrays of strings and messages ---- */

  /** The code that reads one element into v. */
  function ReadElementCode(b: Base, v: Var, depth: nat, cnt: nat): Gen
    requires !b.Prim?
  {
    if b.Str? then Gen(StringCode(false, Ref(v, []), One(Str)), cnt)
    else
      var g := GenBody(false, v, b.fields, depth + 1, cnt);
      Gen([Construct(v, b.fields)] + g.code, g.cnt)
  }

  /** Whatever surrounds the loop is as before. */
  ghost predicate Around(a: Store, b: Store, depth: nat, cnt: nat) {
    Framed(a, b, Loop(depth), [], depth, cnt)
  }

  lemma AroundFocus(a: Store, b: Store, c: Var, root: Var, bp: seq<string>, tree: Tree, depth: nat, cnt: nat)
    requires Around(a, b, depth, cnt) && Focus(a, c, root, bp, tree, depth, cnt)
    ensures Focus(b, c, root, bp, tree, depth, cnt) && Framed(a, b, root, bp, depth, cnt)
  {
  }

  lemma AroundTrans(a: Store, b: Store, c: Store, depth: nat, cnt: nat)
    requires Around(a, b, depth, cnt) && Around(b, c, depth, cnt)
    ensures Around(a, c, depth, cnt)
  {
    FramedTrans(a, b, c, Loop(depth), [], [], depth, cnt, depth, cnt);
  }

  lemma AroundQuiet(a: Store, b: Store, depth: nat, cnt: nat)
    requires Quiet(a, b)
    ensures Around(a, b, depth, cnt)
  {
  }

  lemma AroundBind(vars: Store, s: Slot, depth: nat, cnt: nat)
    ensures Around(vars, Bind(vars, Loop(depth), s), depth, cnt)
  {
  }

  /** An element of value x has been read into the loop variable. */
  ghost predicate ElementRead(r: Option<State>, st: State, x: Tree, n: nat, depth: nat, cnt: nat) {
    && r.Some? && IntOf(st.vars, End).Some?
    && r.value.input == st.input && r.value.buff == st.buff
    && IntOf(r.value.vars, End) == Some(IntOf(st.vars, End).value + n)
    && Loop(depth) in r.value.vars
    && r.value.vars[Loop(depth)] == (if Mutable(x) then Own(x) else Val(x))
    && Around(st.vars, r.value.vars, depth, cnt)
  }

  lemma ReadStringElement(t: Tree, st: State, depth: nat, cnt: nat)
    requires BaseValue(Str, t) && IntOf(st.vars, End).Some?
    requires At(st.input, IntOf(st.vars, End).value, WireBase(Str, t))
    ensures ElementRead(Exec(ReadElementCode(Str, Loop(depth), depth, cnt).code, st), st,
                        t, |WireBase(Str, t)|, depth, cnt)
  {
    hide Exec, Framed, At;
    var v := Loop(depth);
    assert FieldValue(One(Str), t) && WireField(One(Str), t) == WireBase(Str, t) && NormField(One(Str), t) == t;
    var s := ReadStringBytes(Ref(v, []), One(Str), t, st, IntOf(st.vars, End).value);
    AroundQuiet(st.vars, s.vars, depth, cnt);
    AroundBind(s.vars, Val(t), depth, cnt);
    AroundTrans(st.vars, s.vars, Bind(s.vars, v, Val(t)), depth, cnt);
  }

  /** `target.append(v)` */
  lemma AppendElement(c: Var, root: Var, bp: seq<string>, path: seq<string>, st: State,
                      tree: Tree, done: seq<Tree>, x: Tree, depth: nat, cnt: nat)
    requires Focus(st.vars, c, root, bp, tree, depth, cnt) && IntOf(st.vars, End).Some? && path != []
    requires Get(Get(tree, bp).value, path) == Some(List(done))
    requires Loop(depth) in st.vars && st.vars[Loop(depth)] == (if Mutable(x) then Own(x) else Val(x))
    ensures Filled(Exec([Append(Ref(c, path), Loop(depth))], st), st, c, root, bp, tree,
                   Put(Get(tree, bp).value, path, List(done + [x])), 0, depth, cnt)
  {
    hide Framed, Put, Assign, MovedFrom, Exec, Get;
    var v, r := Loop(depth), Ref(c, path);
    EvalField(st.vars, c, root, bp, path, tree, depth, cnt);
    var vars' := if Mutable(x) then MovedFrom(st.vars, v) else st.vars;
    AroundMoved(st.vars, depth, cnt);
    AroundFocus(st.vars, vars', c, root, bp, tree, depth, cnt);
    StepAppend(r, v, st);
    assert AppendTo(st.vars, r, v) == Assign(vars', r, List(done + [x]));
    assert Exec([Append(r, v)], st) == WithVars(st, Assign(vars', r, List(done + [x])));
    AppendAssign(c, root, bp, path, st, vars', tree, List(done + [x]), depth, cnt);
  }

  lemma AroundMoved(vars: Store, depth: nat, cnt: nat)
    ensures Around(vars, vars, depth, cnt) && Around(vars, MovedFrom(vars, Loop(depth)), depth, cnt)
    ensures IntOf(MovedFrom(vars, Loop(depth)), End) == IntOf(vars, End)
  {
  }

  lemma AppendAssign(c: Var, root: Var, bp: seq<string>, path: seq<string>, st: State, vars': Store,
                     tree: Tree, x: Tree, depth: nat, cnt: nat)
    requires Focus(vars', c, root, bp, tree, depth, cnt) && IntOf(st.vars, End).Some? && path != []
    requires Framed(st.vars, vars', root, bp, depth, cnt) && IntOf(vars', End) == IntOf(st.vars, End)
    requires Get(Get(tree, bp).value, path).Some?
    ensures Filled(WithVars(st, Assign(vars', Ref(c, path), x)), st, c, root, bp, tree,
                   Put(Get(tree, bp).value, path, x), 0, depth, cnt)
  {
    hide Get, Put, Assign;
    AssignField(vars', c, c, root, bp, path, tree, x, depth, cnt);
    var vars2 := Assign(vars', Ref(c, path), x).value;
    FramedTrans(st.vars, vars', vars2, root, bp, bp, depth, cnt, depth, cnt);
    assert IntOf(vars2, End) == IntOf(vars', End);
  }

  lemma {:induction false} WireElementsAt(b: Base, es: seq<Tree>, lo: nat)
    requires ElementsValue(b, es) && lo < |es|
    ensures BaseValue(b, es[lo]) && ElementsValue(b, es[lo..]) && ElementsValue(b, es[lo + 1..])
    ensures WireElements(b, es[lo..]) == WireBase(b, es[lo]) + WireElements(b, es[lo + 1..])
  {
    assert es[lo..][1..] == es[lo + 1..] && es[lo..][0] == es[lo];
    forall i | 0 <= i < |es[lo..]| ensures BaseValue(b, es[lo..][i]) { assert es[lo..][i] == es[lo + i]; }
    ElementsRest(b, es[lo..]);
  }

  lemma {:induction false} ReadElement(b: Base, t: Tree, st: State, depth: nat, cnt: nat)
    requires !b.Prim? && DeclaredBase(b) && BaseValue(b, t) && SafeInBase(Reading, b, t) && IntOf(st.vars, End).Some?
    requires At(st.input, IntOf(st.vars, End).value, WireBase(b, t))
    ensures ElementRead(Exec(ReadElementCode(b, Loop(depth), depth, cnt).code, st), st,
                        NormBase(b, t), |WireBase(b, t)|, depth, cnt)
    decreases b, 1, 0
  {
    hide Exec, Framed, Get, Put, WireFields, NormSlots, FieldsValue;
    if b.Str? {
      ReadStringElement(t, st, depth, cnt);
    } else {
      var v, o := Loop(depth), NewObject(b.fields);
      var st1 := st.(vars := Bind(st.vars, v, Own(o)));
      StepConstruct(v, b.fields, st);
      AroundBind(st.vars, Own(o), depth, cnt);
      NewObjectShaped(b.fields);
      FocusOnNew(st.vars, o, depth, cnt);
      DeclaredPrefixFree(b.fields);
      ReadBody(v, v, [], b.fields, st1, o, t, depth + 1, cnt);
      FillIsNorm(b.fields, o, t);
      ExecCons(Construct(v, b.fields), GenBody(false, v, b.fields, depth + 1, cnt).code, st);
      ElementFromBody(b.fields, st, st1, o, t, depth, cnt);
    }
  }

  lemma FocusOnNew(vars: Store, o: Tree, depth: nat, cnt: nat)
    ensures Focus(Bind(vars, Loop(depth), Own(o)), Loop(depth), Loop(depth), [], o, depth + 1, cnt)
    ensures Get(o, []) == Some(o)
  {
  }

  lemma ElementFromBody(fs: seq<Field>, st: State, st1: State, o: Tree, t: Tree, depth: nat, cnt: nat)
    requires FieldsValue(fs, t) && Fill(o, fs, t).Obj? && IntOf(st.vars, End).Some?
    requires st1 == st.(vars := Bind(st.vars, Loop(depth), Own(o))) && Get(o, []) == Some(o)
    requires Filled(Exec(GenBody(false, Loop(depth), fs, depth + 1, cnt).code, st1), st1,
                    Loop(depth), Loop(depth), [], o, Fill(o, fs, t), |WireFields(fs, t)|, depth + 1, cnt)
    ensures ElementRead(Exec(GenBody(false, Loop(depth), fs, depth + 1, cnt).code, st1), st,
                        Fill(o, fs, t), |WireFields(fs, t)|, depth, cnt)
  {
    hide Exec, WireFields, Fill, FieldsValue;
    AroundBind(st.vars, Own(o), depth, cnt);
    var st2 := Exec(GenBody(false, Loop(depth), fs, depth + 1, cnt).code, st1).value;
    FramedTrans(st.vars, st1.vars, st2.vars, Loop(depth), [], [], depth, cnt, depth + 1, cnt);
  }

  /** The body of the array loop: read an element, append it. */
  function LoopBody(b: Base, r: Ref, depth: nat, cnt: nat): seq<Stmt>
    requires !b.Prim?
  {
    ReadElementCode(b, Loop(depth), depth, cnt).code + [Append(r, Loop(depth))]
  }

  lemma {:induction false} ReadOneMore(b: Base, t: Tree, c: Var, root: Var, bp: seq<string>, path: seq<string>,
                                       st: State, tree: Tree, done: seq<Tree>, depth: nat, cnt: nat)
    requires !b.Prim? && DeclaredBase(b) && BaseValue(b, t) && SafeInBase(Reading, b, t)
    requires Focus(st.vars, c, root, bp, tree, depth, cnt) && IntOf(st.vars, End).Some? && path != []
    requires Get(Get(tree, bp).value, path) == Some(List(done))
    requires At(st.input, IntOf(st.vars, End).value, WireBase(b, t))
    ensures Filled(Exec(LoopBody(b, Ref(c, path), depth, cnt), st), st, c, root, bp, tree,
                   Put(Get(tree, bp).value, path, List(done + [NormBase(b, t)])), |WireBase(b, t)|, depth, cnt)
    decreases b, 2, 0
  {
    hide Exec, Framed, Get, Put, WireBase, NormBase, ReadElementCode;
    ReadElement(b, t, st, depth, cnt);
    var code := ReadElementCode(b, Loop(depth), depth, cnt).code;
    var st' := Exec(code, st).value;
    AroundFocus(st.vars, st'.vars, c, root, bp, tree, depth, cnt);
    AppendElement(c, root, bp, path, st', tree, done, NormBase(b, t), depth, cnt);
    var append := Append(Ref(c, path), Loop(depth));
    ExecAppend(code, [append], st);
    FramedTrans(st.vars, st'.vars, Exec([append], st').value.vars, root, bp, bp, depth, cnt, depth, cnt);
  }

  /** The elements read after `lo` turns of the loop. */
  function Done(b: Base, es: seq<Tree>, lo: nat): seq<Tree>
    requires ElementsValue(b, es) && lo <= |es|
  {
    NormElements(b, es)[..lo]
  }

  lemma DoneNext(b: Base, es: seq<Tree>, lo: nat)
    requires ElementsValue(b, es) && lo < |es|
    ensures BaseValue(b, es[lo]) && Done(b, es, lo + 1) == Done(b, es, lo) + [NormBase(b, es[lo])]
  {
    assert BaseValue(b, es[lo]);
  }

  lemma {:induction false} ReadRange(b: Base, es: seq<Tree>, lo: nat, c: Var, root: Var, bp: seq<string>,
                                     path: seq<string>, st: State, tree: Tree, depth: nat, cnt: nat)
    requires !b.Prim? && DeclaredBase(b) && ElementsValue(b, es) && SafeInElements(Reading, b, es) && lo <= |es|
    requires ElementsValue(b, es[lo..])
    requires Focus(st.vars, c, root, bp, tree, depth, cnt) && IntOf(st.vars, End).Some? && path != []
    requires Get(Get(tree, bp).value, path) == Some(List(Done(b, es, lo)))
    requires At(st.input, IntOf(st.vars, End).value, WireElements(b, es[lo..]))
    ensures Filled(RunRange(lo, |es|, LoopBody(b, Ref(c, path), depth, cnt), st), st, c, root, bp, tree,
                   Put(Get(tree, bp).value, path, List(NormElements(b, es))), |WireElements(b, es[lo..])|, depth, cnt)
    decreases b, 3, |es| - lo
  {
    hide Exec, Framed, Get, Put, NormBase, LoopBody, NormElements, ElementsValue, WireBase, Bind, At, SafeInBase;
    var o, body := Get(tree, bp).value, LoopBody(b, Ref(c, path), depth, cnt);
    if lo == |es| {
      RangeDone(b, es, path, o);
      FilledNothing(st, c, root, bp, tree, depth, cnt);
    } else {
      var e := IntOf(st.vars, End).value;
      WireElementsAt(b, es, lo);
      AtSplit(st.input, e, WireBase(b, es[lo]), WireElements(b, es[lo + 1..]));
      var st1 := st.(vars := Bind(st.vars, I, Int(lo)));
      BindIKeeps(st, lo, c, root, bp, tree, depth, cnt);
      ReadOneMore(b, es[lo], c, root, bp, path, st1, tree, Done(b, es, lo), depth, cnt);
      DoneNext(b, es, lo);
      var o' := Put(o, path, List(Done(b, es, lo + 1)));
      var st2 := Exec(body, st1).value;
      GetPut(tree, bp, o');
      GetPut(o, path, List(Done(b, es, lo + 1)));
      ReadRange(b, es, lo + 1, c, root, bp, path, st2, Put(tree, bp, o'), depth, cnt);
      PutPut(o, path, List(Done(b, es, lo + 1)), List(NormElements(b, es)));
      RangeJoin(b, es, lo, c, root, bp, path, st, tree, body, depth, cnt);
    }
  }

  lemma RangeDone(b: Base, es: seq<Tree>, path: seq<string>, o: Tree)
    requires ElementsValue(b, es) && Get(o, path) == Some(List(Done(b, es, |es|)))
    ensures Put(o, path, List(NormElements(b, es))) == o
    ensures ElementsValue(b, es[|es|..]) && WireElements(b, es[|es|..]) == []
  {
    assert Done(b, es, |es|) == NormElements(b, es);
    PutGet(o, path);
  }

  lemma BindIKeeps(st: State, i: nat, c: Var, root: Var, bp: seq<string>, tree: Tree, depth: nat, cnt: nat)
    requires Focus(st.vars, c, root, bp, tree, depth, cnt)
    ensures var vars' := Bind(st.vars, I, Int(i));
      && Focus(vars', c, root, bp, tree, depth, cnt)
      && Framed(st.vars, vars', root, bp, depth, cnt)
      && IntOf(vars', End) == IntOf(st.vars, End)
  {
    QuietBind(st.vars, I, Int(i));
    QuietFocus(st.vars, Bind(st.vars, I, Int(i)), c, root, bp, tree, depth, cnt);
  }

  lemma RangeJoin(b: Base, es: seq<Tree>, lo: nat, c: Var, root: Var, bp: seq<string>, path: seq<string>,
                  st: State, tree: Tree, body: seq<Stmt>, depth: nat, cnt: nat)
    requires ElementsValue(b, es) && lo < |es| && IntOf(st.vars, End).Some?
    requires ElementsValue(b, es[lo..]) && ElementsValue(b, es[lo + 1..]) && BaseValue(b, es[lo])
    requires Focus(st.vars, c, root, bp, tree, depth, cnt)
    requires WireElements(b, es[lo..]) == WireBase(b, es[lo]) + WireElements(b, es[lo + 1..])
    requires var st1 := st.(vars := Bind(st.vars, I, Int(lo)));
      var o := Get(tree, bp).value;
      var o' := Put(o, path, List(Done(b, es, lo + 1)));
      var o2 := Put(o, path, List(NormElements(b, es)));
      && Filled(Exec(body, st1), st1, c, root, bp, tree, o', |WireBase(b, es[lo])|, depth, cnt)
      && Filled(RunRange(lo + 1, |es|, body, Exec(body, st1).value), Exec(body, st1).value, c, root, bp,
                Put(tree, bp, o'), o2, |WireElements(b, es[lo + 1..])|, depth, cnt)
    ensures Filled(RunRange(lo, |es|, body, st), st, c, root, bp, tree,
                   Put(Get(tree, bp).value, path, List(NormElements(b, es))), |WireElements(b, es[lo..])|, depth, cnt)
  {
    hide Exec, Get, Put, NormBase, NormElements, ElementsValue, WireBase, Done, Framed, WireElements, Bind;
    var st1 := st.(vars := Bind(st.vars, I, Int(lo)));
    var o := Get(tree, bp).value;
    var o' := Put(o, path, List(Done(b, es, lo + 1)));
    var o2 := Put(o, path, List(NormElements(b, es)));
    var st2 := Exec(body, st1).value;
    var st3 := RunRange(lo + 1, |es|, body, st2).value;
    assert RunRange(lo, |es|, body, st) == Some(st3);
    PutPut(tree, bp, o', o2);
    BindIKeeps(st, lo, c, root, bp, tree, depth, cnt);
    FramedTrans(st.vars, st1.vars, st2.vars, root, bp, bp, depth, cnt, depth, cnt);
    FramedTrans(st.vars, st2.vars, st3.vars, root, bp, bp, depth, cnt, depth, cnt);
  }

  /** `target = []` */
  lemma ReadEmptyList(c: Var, root: Var, bp: seq<string>, path: seq<string>, st: State,
                      tree: Tree, depth: nat, cnt: nat)
    requires Focus(st.vars, c, root, bp, tree, depth, cnt) && IntOf(st.vars, End).Some?
    requires path != [] && Get(Get(tree, bp).value, path).Some?
    ensures var r := Exec([EmptyList(Ref(c, path))], st);
      && Filled(r, st, c, root, bp, tree, Put(Get(tree, bp).value, path, List([])), 0, depth, cnt)
      && (IntOf(st.vars, Length).Some? ==> IntOf(r.value.vars, Length) == IntOf(st.vars, Length))
  {
    hide Get, Put, Assign, Exec;
    StepEmptyList(Ref(c, path), st);
    FilledByAssign([EmptyList(Ref(c, path))], st, st, c, root, bp, path, tree, List([]), 0, depth, cnt);
    AssignField(st.vars, c, c, root, bp, path, tree, List([]), depth, cnt);
  }

  /** `target = []` and the loop that fills it. */
  lemma {:induction false} ReadList(b: Base, es: seq<Tree>, k: Count, c: Var, root: Var, bp: seq<string>,
                                    path: seq<string>, st: State, tree: Tree, depth: nat, cnt: nat)
    requires !b.Prim? && DeclaredBase(b) && ElementsValue(b, es) && SafeInElements(Reading, b, es)
    requires Focus(st.vars, c, root, bp, tree, depth, cnt) && IntOf(st.vars, End).Some? && path != []
    requires Get(Get(tree, bp).value, path).Some?
    requires k == Const(|es|) || (k == LengthVar && IntOf(st.vars, Length) == Some(|es|))
    requires At(st.input, IntOf(st.vars, End).value, WireElements(b, es))
    ensures Filled(Exec([EmptyList(Ref(c, path)), ForRange(k, LoopBody(b, Ref(c, path), depth, cnt))], st), st,
                   c, root, bp, tree, Put(Get(tree, bp).value, path, List(NormElements(b, es))),
                   |WireElements(b, es)|, depth, cnt)
    decreases b, 4, 0
  {
    hide Exec, Framed, Get, Put, NormBase, LoopBody, ElementsValue, WireElements, At, SafeInElements;
    var o, r := Get(tree, bp).value, Ref(c, path);
    var body := LoopBody(b, r, depth, cnt);
    var a, f := EmptyList(r), ForRange(k, body);
    ReadEmptyList(c, root, bp, path, st, tree, depth, cnt);
    var st1 := Exec([a], st).value;
    var o1 := Put(o, path, List([]));
    GetPut(o, path, List([]));
    GetPut(tree, bp, o1);
    assert es[0..] == es && Done(b, es, 0) == [];
    ReadRange(b, es, 0, c, root, bp, path, st1, Put(tree, bp, o1), depth, cnt);
    PutPut(o, path, List([]), List(NormElements(b, es)));
    StepForRange(k, body, st1, |es|);
    FilledThen([a], [f], st, c, root, bp, tree, o1, 0,
               Put(o, path, List(NormElements(b, es))), |WireElements(b, es)|, depth, cnt, cnt);
    assert [a] + [f] == [a, f];
  }

  lemma ListCode(c: Var, f: Field, depth: nat, cnt: nat)
    requires !f.ty.One? && !f.ty.base.Prim?
    ensures var r := Ref(c, f.path);
      var k := if f.ty.Varying? then LengthVar else Const(f.ty.len);
      GenComplex(false, c, f, depth, cnt).code
      == (if f.ty.Varying? then LengthCode(false, r) else [])
         + [EmptyList(r), ForRange(k, LoopBody(f.ty.base, r, depth, cnt))]
  {
    if f.ty.base.Str? {
      var e := StringCode(false, Ref(Loop(depth), []), One(Str));
      assert [] + e == e;
    }
  }

  lemma {:induction false} ReadArray(c: Var, root: Var, bp: seq<string>, f: Field, st: State,
                                     tree: Tree, v: Tree, depth: nat, cnt: nat)
    requires Focus(st.vars, c, root, bp, tree, depth, cnt) && f.path != [] && Ready(f, Get(tree, bp).value)
    requires !f.ty.One? && !f.ty.base.Prim? && DeclaredBase(f.ty.base) && FieldAt(f, v)
    requires SafeInField(Reading, f.ty, Get(v, f.path).value)
    requires IntOf(st.vars, End).Some?
    requires At(st.input, IntOf(st.vars, End).value, WireField(f.ty, Get(v, f.path).value))
    ensures var t := Get(v, f.path).value;
      Filled(Exec(GenComplex(false, c, f, depth, cnt).code, st), st, c, root, bp, tree,
             Put(Get(tree, bp).value, f.path, NormField(f.ty, t)), |WireField(f.ty, t)|, depth, cnt)
    decreases f, 5, 0
  {
    hide Exec, Framed, Put, NormBase, LoopBody, WireElements, At, GenComplex, ElementsValue, SafeInElements, SafeLength;
    var t, ty, r, e := Get(v, f.path).value, f.ty, Ref(c, f.path), IntOf(st.vars, End).value;
    var k := if ty.Varying? then LengthVar else Const(ty.len);
    var loop := [EmptyList(r), ForRange(k, LoopBody(ty.base, r, depth, cnt))];
    ListCode(c, f, depth, cnt);
    var o' := Put(Get(tree, bp).value, f.path, NormField(ty, t));
    if ty.Varying? {
      AtSplit(st.input, e, WireLength(|t.es|), WireElements(ty.base, t.es));
      ReadLength(r, st, e, |t.es|);
      var st1 := Exec(LengthCode(false, r), st).value;
      QuietFocus(st.vars, st1.vars, c, root, bp, tree, depth, cnt);
      ReadList(ty.base, t.es, k, c, root, bp, f.path, st1, tree, depth, cnt);
      FilledAfterQuiet(LengthCode(false, r), loop, st, c, root, bp, tree, 4, o',
                       |WireElements(ty.base, t.es)|, depth, cnt);
    } else {
      ReadList(ty.base, t.es, k, c, root, bp, f.path, st, tree, depth, cnt);
      assert [] + loop == loop;
    }
  }

  /* ---- embedded messages and whole field lists ---- */

  lemma {:induction false} ReadEmbedded(c: Var, root: Var, bp: seq<string>, f: Field, st: State,
                                        tree: Tree, v: Tree, depth: nat, cnt: nat)
    requires Focus(st.vars, c, root, bp, tree, depth, cnt) && f.path != [] && Ready(f, Get(tree, bp).value)
    requires IsEmbedded(f.ty) && DeclaredBase(f.ty.base) && FieldAt(f, v)
    requires SafeInField(Reading, f.ty, Get(v, f.path).value)
    requires IntOf(st.vars, End).Some?
    requires At(st.input, IntOf(st.vars, End).value, WireField(f.ty, Get(v, f.path).value))
    ensures var t := Get(v, f.path).value;
      Filled(Exec(GenComplex(false, c, f, depth, cnt).code, st), st, c, root, bp, tree,
             Put(Get(tree, bp).value, f.path, NormField(f.ty, t)), |WireField(f.ty, t)|, depth, cnt)
    decreases f, 5, 0
  {
    hide Exec, Framed, Put, NormSlots, At, WireFields, Bind, FieldsValue, SafeInFields, SafeLength;
    var t, o, fs := Get(v, f.path).value, Get(tree, bp).value, f.ty.base.fields;
    var sub, w := Get(o, f.path).value, Sub(cnt + 1);
    assert BaseValue(f.ty.base, t);
    var slot := Ptr(root, bp + f.path);
    var st1 := st.(vars := Bind(st.vars, w, slot));
    AliasFocus(w, f.path, c, root, bp, st, tree, depth, cnt);
    FocusOnSub(st.vars, c, root, bp, f.path, tree, depth, cnt);
    DeclaredPrefixFree(fs);
    ReadBody(w, root, bp + f.path, fs, st1, tree, t, depth + 1, cnt + 1);
    FillIsNorm(fs, sub, t);
    PutConcat(tree, bp, f.path, Fill(sub, fs, t));
    var code := GenBody(false, w, fs, depth + 1, cnt + 1).code;
    ExecCons(Alias(w, Ref(c, f.path)), code, st);
    EmbeddedJoin(c, root, bp, f.path, st, st1, Exec(code, st1),
                 tree, Fill(sub, fs, t), |WireFields(fs, t)|, depth, cnt);
  }

  lemma FocusOnSub(vars: Store, c: Var, root: Var, bp: seq<string>, path: seq<string>, tree: Tree, depth: nat, cnt: nat)
    requires Focus(vars, c, root, bp, tree, depth, cnt) && path != [] && Get(Get(tree, bp).value, path).Some?
    ensures var vars' := Bind(vars, Sub(cnt + 1), Ptr(root, bp + path));
      && Focus(vars', Sub(cnt + 1), root, bp + path, tree, depth + 1, cnt + 1)
      && Get(tree, bp + path) == Get(Get(tree, bp).value, path)
      && IntOf(vars', End) == IntOf(vars, End)
  {
    GetConcat(tree, bp, path);
  }

  lemma EmbeddedJoin(c: Var, root: Var, bp: seq<string>, path: seq<string>, st: State, st1: State, r: Option<State>,
                     tree: Tree, x: Tree, n: nat, depth: nat, cnt: nat)
    requires Focus(st.vars, c, root, bp, tree, depth, cnt) && path != []
    requires Get(Get(tree, bp).value, path).Some? && IntOf(st.vars, End).Some?
    requires st1 == st.(vars := Bind(st.vars, Sub(cnt + 1), Ptr(root, bp + path)))
    requires Filled(r, st1, Sub(cnt + 1), root, bp + path, tree, x, n, depth + 1, cnt + 1)
    ensures Filled(r, st, c, root, bp, tree, Put(Get(tree, bp).value, path, x), n, depth, cnt)
  {
    var o := Get(tree, bp).value;
    PutConcat(tree, bp, path, x);
    GetPut(tree, bp, Put(o, path, x));
    SubFramed(st.vars, root, bp, path, depth, cnt);
    FramedTrans(st.vars, st1.vars, r.value.vars, root, bp, bp + path, depth, cnt, depth + 1, cnt + 1);
    if c != root {
      assert st1.vars[c] == Ptr(root, bp);
      assert !Exposed(st1.vars[c], root, bp + path, depth + 1);
    }
  }

  lemma SubFramed(vars: Store, root: Var, bp: seq<string>, path: seq<string>, depth: nat, cnt: nat)
    ensures Framed(vars, Bind(vars, Sub(cnt + 1), Ptr(root, bp + path)), root, bp, depth, cnt)
  {
  }

  lemma {:induction false} ReadComplex(c: Var, root: Var, bp: seq<string>, f: Field, st: State,
                                       tree: Tree, v: Tree, depth: nat, cnt: nat)
    requires Focus(st.vars, c, root, bp, tree, depth, cnt) && f.path != [] && Ready(f, Get(tree, bp).value)
    requires !IsSimple(f.ty) && DeclaredBase(f.ty.base) && FieldAt(f, v)
    requires SafeInField(Reading, f.ty, Get(v, f.path).value)
    requires IntOf(st.vars, End).Some?
    requires At(st.input, IntOf(st.vars, End).value, WireField(f.ty, Get(v, f.path).value))
    ensures var t := Get(v, f.path).value;
      Filled(Exec(GenComplex(false, c, f, depth, cnt).code, st), st, c, root, bp, tree,
             Put(Get(tree, bp).value, f.path, NormField(f.ty, t)), |WireField(f.ty, t)|, depth, cnt)
    decreases f, 6, 0
  {
    hide Exec, Filled, Put, At, WireField, NormField, GenComplex;
    if IsStringLike(f.ty) {
      ReadStringField(c, root, bp, f, st, tree, v, depth, cnt);
    } else if f.ty.One? {
      ReadEmbedded(c, root, bp, f, st, tree, v, depth, cnt);
    } else if f.ty.base.Prim? {
      ReadSimpleArray(c, root, bp, f, st, tree, v, depth, cnt);
    } else {
      ReadArray(c, root, bp, f, st, tree, v, depth, cnt);
    }
  }

  /** What the field list must satisfy to be read into the object o, safe lengths apart. */
  ghost predicate Presented(fs: seq<Field>, o: Tree, v: Tree) {
    && Named(fs) && PrefixFree(fs) && AllReady(fs, o) && o.Obj? && FieldsValue(fs, v)
    && forall i :: 0 <= i < |fs| ==> DeclaredBase(fs[i].ty.base)
  }

  ghost predicate Readable(fs: seq<Field>, o: Tree, v: Tree) {
    Presented(fs, o, v) && SafeInFields(Reading, fs, v)
  }

  /** Reading a prefix of the fields leaves the rest as it should be. */
  lemma PresentedSplit(fs: seq<Field>, k: nat, o: Tree, v: Tree)
    requires Presented(fs, o, v) && k <= |fs|
    ensures Presented(fs[..k], o, v) && Presented(fs[k..], Fill(o, fs[..k], v), v)
    ensures Fill(o, fs, v) == Fill(Fill(o, fs[..k], v), fs[k..], v)
    ensures WireFields(fs, v) == WireFields(fs[..k], v) + WireFields(fs[k..], v)
  {
    FillHalves(fs, k, o, v);
    FillObj(o, fs[..k], v);
  }

  lemma ReadableSplit(fs: seq<Field>, k: nat, o: Tree, v: Tree)
    requires Readable(fs, o, v) && k <= |fs|
    ensures Readable(fs[..k], o, v) && Readable(fs[k..], Fill(o, fs[..k], v), v)
    ensures Fill(o, fs, v) == Fill(Fill(o, fs[..k], v), fs[k..], v)
    ensures WireFields(fs, v) == WireFields(fs[..k], v) + WireFields(fs[k..], v)
  {
    hide Fill, WireFields, SafeInFields;
    PresentedSplit(fs, k, o, v);
    SafeHalves(fs, k, v);
  }

  lemma SafeHalves(fs: seq<Field>, k: nat, v: Tree)
    requires k <= |fs| && FieldsValue(fs, v) && SafeInFields(Reading, fs, v)
    requires FieldsValue(fs[..k], v) && FieldsValue(fs[k..], v)
    ensures SafeInFields(Reading, fs[..k], v) && SafeInFields(Reading, fs[k..], v)
  {
    hide SafeInField, FieldValue;
    var a, b := fs[..k], fs[k..];
    forall i | 0 <= i < |a| ensures FieldAt(a[i], v) && SafeInField(Reading, a[i].ty, Get(v, a[i].path).value) {
      assert a[i] == fs[i];
    }
    forall i | 0 <= i < |b| ensures FieldAt(b[i], v) && SafeInField(Reading, b[i].ty, Get(v, b[i].path).value) {
      assert b[i] == fs[k + i];
    }
  }

  lemma {:induction false} ReadFields(c: Var, root: Var, bp: seq<string>, fs: seq<Field>, st: State,
                                      tree: Tree, v: Tree, depth: nat, cnt: nat)
    requires Focus(st.vars, c, root, bp, tree, depth, cnt) && Readable(fs, Get(tree, bp).value, v)
    requires IntOf(st.vars, End).Some? && At(st.input, IntOf(st.vars, End).value, WireFields(fs, v))
    ensures Filled(Exec(GenFields(false, c, fs, depth, cnt).code, st), st, c, root, bp, tree,
                   Fill(Get(tree, bp).value, fs, v), |WireFields(fs, v)|, depth, cnt)
    decreases fs, 7, 0
  {
    hide Exec, Framed, Put, At, WireFields, Fill, AllReady, PrefixFree, FieldsValue, Chunks, GenComplex, SafeInFields;
    var k, o := SimpleRun(fs), Get(tree, bp).value;
    if k == |fs| {
      assert fs[..k] == fs;
      ReadChunks(c, root, bp, fs, st, tree, v, depth, cnt);
    } else {
      var e := IntOf(st.vars, End).value;
      ReadableSplit(fs, k, o, v);
      AtSplit(st.input, e, WireFields(fs[..k], v), WireFields(fs[k..], v));
      ReadChunks(c, root, bp, fs[..k], st, tree, v, depth, cnt);
      var o1 := Fill(o, fs[..k], v);
      var st1 := Exec(Chunks(false, c, fs[..k]), st).value;
      GetPut(tree, bp, o1);
      assert fs[k..][0] == fs[k];
      ReadFromComplex(c, root, bp, fs[k..], st1, Put(tree, bp, o1), v, depth, cnt);
      assert fs[k..][1..] == fs[k + 1..];
      FieldsJoin(c, root, bp, fs, k, st, tree, v, depth, cnt);
    }
  }

  /** The code for a list that starts with a field that is not simple. */
  function FromComplex(c: Var, fs: seq<Field>, depth: nat, cnt: nat): seq<Stmt>
    requires fs != [] && !IsSimple(fs[0].ty)
  {
    var g := GenComplex(false, c, fs[0], depth, cnt);
    g.code + GenFields(false, c, fs[1..], depth, g.cnt).code
  }

  lemma {:induction false} ReadFromComplex(c: Var, root: Var, bp: seq<string>, fs: seq<Field>, st: State,
                                           tree: Tree, v: Tree, depth: nat, cnt: nat)
    requires fs != [] && !IsSimple(fs[0].ty)
    requires Focus(st.vars, c, root, bp, tree, depth, cnt) && Readable(fs, Get(tree, bp).value, v)
    requires IntOf(st.vars, End).Some? && At(st.input, IntOf(st.vars, End).value, WireFields(fs, v))
    ensures Filled(Exec(FromComplex(c, fs, depth, cnt), st), st, c, root, bp, tree,
                   Fill(Get(tree, bp).value, fs, v), |WireFields(fs, v)|, depth, cnt)
    decreases fs, 6, 0
  {
    hide Exec, Framed, Put, At, WireFields, Fill, PrefixFree, GenComplex, GenFields;
    var o, e, f := Get(tree, bp).value, IntOf(st.vars, End).value, fs[0];
    ReadableSplit(fs, 1, o, v);
    assert fs[..1] == [f];
    assert FieldAt(f, v) && Ready(f, o) && SafeInField(Reading, f.ty, Get(v, f.path).value);
    var t := Get(v, f.path).value;
    WireFieldsOne(f, v);
    FillOne(o, f, v);
    AtSplit(st.input, e, WireField(f.ty, t), WireFields(fs[1..], v));
    ReadComplex(c, root, bp, f, st, tree, v, depth, cnt);
    var g := GenComplex(false, c, f, depth, cnt);
    var o1 := Fill(o, fs[..1], v);
    var st1 := Exec(g.code, st).value;
    GetPut(tree, bp, o1);
    ComplexCounterGrows(false, c, f, depth, cnt);
    FocusCounter(st1.vars, c, root, bp, Put(tree, bp, o1), depth, cnt, g.cnt);
    ReadFields(c, root, bp, fs[1..], st1, Put(tree, bp, o1), v, depth, g.cnt);
    FilledThen(g.code, GenFields(false, c, fs[1..], depth, g.cnt).code, st, c, root, bp, tree,
               o1, |WireField(f.ty, t)|, Fill(o1, fs[1..], v), |WireFields(fs[1..], v)|, depth, cnt, g.cnt);
  }

  lemma FocusCounter(vars: Store, c: Var, root: Var, bp: seq<string>, tree: Tree, depth: nat, cnt: nat, cnt': nat)
    requires Focus(vars, c, root, bp, tree, depth, cnt) && cnt <= cnt'
    ensures Focus(vars, c, root, bp, tree, depth, cnt')
  {
  }

  lemma FieldsJoin(c: Var, root: Var, bp: seq<string>, fs: seq<Field>, k: nat, st: State,
                   tree: Tree, v: Tree, depth: nat, cnt: nat)
    requires k == SimpleRun(fs) < |fs|
    requires Focus(st.vars, c, root, bp, tree, depth, cnt) && Readable(fs, Get(tree, bp).value, v)
    requires FieldsValue(fs[..k], v) && FieldsValue(fs[k..], v)
    requires var o1 := Fill(Get(tree, bp).value, fs[..k], v);
      var st1 := Exec(Chunks(false, c, fs[..k]), st);
      && Filled(st1, st, c, root, bp, tree, o1, |WireFields(fs[..k], v)|, depth, cnt)
      && Filled(Exec(FromComplex(c, fs[k..], depth, cnt), st1.value), st1.value, c, root, bp, Put(tree, bp, o1),
                Fill(o1, fs[k..], v), |WireFields(fs[k..], v)|, depth, cnt)
    ensures Filled(Exec(GenFields(false, c, fs, depth, cnt).code, st), st, c, root, bp, tree,
                   Fill(Get(tree, bp).value, fs, v), |WireFields(fs, v)|, depth, cnt)
  {
    hide Exec, Framed, Put, WireFields, Fill, Chunks, GenComplex, GenFields, FromComplex, Filled, Readable;
    hide FieldsValue, SafeInFields;
    ReadableSplit(fs, k, Get(tree, bp).value, v);
    var o1 := Fill(Get(tree, bp).value, fs[..k], v);
    var a, b := Chunks(false, c, fs[..k]), FromComplex(c, fs[k..], depth, cnt);
    FilledThen(a, b, st, c, root, bp, tree, o1, |WireFields(fs[..k], v)|,
               Fill(o1, fs[k..], v), |WireFields(fs[k..], v)|, depth, cnt, cnt);
    JoinedCode(c, fs, k, depth, cnt);
  }

  lemma JoinedCode(c: Var, fs: seq<Field>, k: nat, depth: nat, cnt: nat)
    requires k == SimpleRun(fs) < |fs|
    ensures GenFields(false, c, fs, depth, cnt).code == Chunks(false, c, fs[..k]) + FromComplex(c, fs[k..], depth, cnt)
  {
    hide Chunks, GenComplex;
    assert fs[k..][0] == fs[k] && fs[k..][1..] == fs[k + 1..];
    var g := GenComplex(false, c, fs[k], depth, cnt);
    ConcatAssociates(Chunks(false, c, fs[..k]), g.code, GenFields(false, c, fs[k + 1..], depth, g.cnt).code);
  }

  lemma {:induction false} ReadBody(c: Var, root: Var, bp: seq<string>, fs: seq<Field>, st: State,
                                    tree: Tree, v: Tree, depth: nat, cnt: nat)
    requires Focus(st.vars, c, root, bp, tree, depth, cnt) && Declared(fs)
    requires Shaped(fs, Get(tree, bp).value) && FieldsValue(fs, v) && SafeInFields(Reading, fs, v)
    requires IntOf(st.vars, End).Some? && At(st.input, IntOf(st.vars, End).value, WireFields(fs, v))
    ensures Filled(Exec(GenBody(false, c, fs, depth, cnt).code, st), st, c, root, bp, tree,
                   Fill(Get(tree, bp).value, fs, v), |WireFields(fs, v)|, depth, cnt)
    decreases fs, 8, 0
  {
    hide Exec, Filled, Put, WireFields, Fill, At;
    DeclaredPrefixFree(fs);
    ReadFields(c, root, bp, fs, st, tree, v, depth, cnt);
  }
}
