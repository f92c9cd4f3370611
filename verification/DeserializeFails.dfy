/** The emitted `deserialize` code raises on a wire image that holds an array of unsafe length. */
module DeserializeFails {
  import opened Common
  import opened DecimalText
  import opened StructPattern
  import opened WireTypes
  import opened PyTarget
  import opened Generator
  import opened TreeLaws
  import opened PackLaws
  import opened FillLaws
  import opened TextSearch
  import opened WrittenBytes
  import opened SerializeProof
  import opened DeserializeProof

  lemma FailsFirst(a: seq<Stmt>, b: seq<Stmt>, st: State)
    requires Exec(a, st).None?
    ensures Exec(a + b, st).None?
  {
    hide Exec;
    ExecAppend(a, b, st);
  }

  lemma FailsThen(a: seq<Stmt>, b: seq<Stmt>, st: State)
    requires Exec(a, st).Some? && Exec(b, Exec(a, st).value).None?
    ensures Exec(a + b, st).None?
  {
    hide Exec;
    ExecAppend(a, b, st);
  }

  /* ---- the array whose format has lost elements ---- */

  /** `end` has moved by the full size, but the format stands for fewer bytes. */
  lemma UnpackFails(st: State, n: nat, c: char, bs: seq<Byte>)
    requires IsCode(c) && HasDoubleNine(Decimal(n)) && Slice(st) == Some(bs) && |bs| == n * CodeSize(c)
    ensures UnpackCall(st, Lit(Reduce(Counted(n, c)))).None?
  {
    hide Reduce, Slice, Decimal, HasDoubleNine, Tokens, Unpack, KeptCount;
    ReduceCounted(n, c);
    CountedSize(KeptCount(n), c);
    Fewer(n, CodeSize(c));
  }

  lemma Fewer(n: nat, w: nat)
    requires HasDoubleNine(Decimal(n)) && w >= 1
    ensures KeptCount(n) * w < n * w
  {
    hide HasDoubleNine, KeptCount, Decimal;
    LessTimes(KeptCount(n), n, w);
  }

  lemma LessTimes(k: nat, n: nat, w: nat)
    requires k < n && w >= 1
    ensures k * w < n * w
  {
    assert n * w == k * w + (n - k) * w;
  }

  lemma UnpackListFails(r: Ref, fmt: Fmt, st: State)
    requires UnpackCall(st, fmt).None?
    ensures Exec([UnpackList(r, fmt)], st).None?
  {
    hide UnpackCall, Assign;
    ExecOne(UnpackList(r, fmt), st);
  }

  lemma FailSimpleArray(c: Var, f: Field, st: State, v: Tree, depth: nat, cnt: nat)
    requires !f.ty.One? && f.ty.base.Prim? && !IsByteArray(f.ty) && FieldAt(f, v) && !SafeLength(Reading, f.ty)
    requires IntOf(st.vars, End).Some?
    requires At(st.input, IntOf(st.vars, End).value, WireField(f.ty, Get(v, f.path).value))
    ensures Exec(GenComplex(false, c, f, depth, cnt).code, st).None?
  {
    hide Exec, ElementsValue, WireElements, Reduce, At, GenComplex, HasDoubleNine, Decimal, Counted;
    var ty, t, r, e := f.ty, Get(v, f.path).value, Ref(c, f.path), IntOf(st.vars, End).value;
    var code := Code(ty.base.p);
    var bs := WireElements(ty.base, t.es);
    assert WireField(ty, t) == bs && |t.es| == ty.len;
    ElementsSize(ty.base.p, t.es);
    var adv, unp := Advance(Const(ty.len * CodeSize(code))), UnpackList(r, Lit(Reduce(Counted(ty.len, code))));
    ReadAdvance(Const(ty.len * CodeSize(code)), st, e, bs);
    var st1 := Advanced(st, e, |bs|);
    UnpackFails(st1, ty.len, code, bs);
    UnpackListFails(r, Lit(Reduce(Counted(ty.len, code))), st1);
    FailsThen([adv], [unp], st);
    assert [adv] + [unp] == [adv, unp] == SimpleArrayHead(r, ty);
    SimpleArrayWhole(c, f, depth, cnt);
    FailsFirst(SimpleArrayHead(r, ty), if ty.base.p == Bool then [MapBool(r)] else [], st);
  }

  lemma {:induction false} ElementsSize(p: Simple, es: seq<Tree>)
    requires ElementsValue(Prim(p), es)
    ensures |WireElements(Prim(p), es)| == |es| * CodeSize(Code(p))
  {
    if es != [] {
      ElementsRest(Prim(p), es);
      ElementsSize(p, es[1..]);
      assert SimpleValue(p, es[0]);
      assert |es| * CodeSize(Code(p)) == CodeSize(Code(p)) + (|es| - 1) * CodeSize(Code(p));
    }
  }

  /* ---- where it is in the message ---- */

  lemma {:induction false} FailElement(b: Base, t: Tree, st: State, depth: nat, cnt: nat)
    requires b.Msg? && DeclaredBase(b) && BaseValue(b, t) && !SafeInBase(Reading, b, t) && IntOf(st.vars, End).Some?
    requires At(st.input, IntOf(st.vars, End).value, WireBase(b, t))
    ensures Exec(ReadElementCode(b, Loop(depth), depth, cnt).code, st).None?
    decreases b, 1, 0
  {
    hide Exec, Get, WireFields, FieldsValue, SafeInFields, At;
    var v, o := Loop(depth), NewObject(b.fields);
    var st1 := st.(vars := Bind(st.vars, v, Own(o)));
    StepConstruct(v, b.fields, st);
    AroundBind(st.vars, Own(o), depth, cnt);
    NewObjectShaped(b.fields);
    FocusOnNew(st.vars, o, depth, cnt);
    EndKept(st.vars, v, Own(o));
    FailBody(v, v, [], b.fields, st1, o, t, depth + 1, cnt);
    FailsThen([Construct(v, b.fields)], GenBody(false, v, b.fields, depth + 1, cnt).code, st);
  }

  lemma EndKept(vars: Store, v: Var, s: Slot)
    requires IntOf(vars, End).Some? && v != End
    ensures IntOf(Bind(vars, v, s), End) == IntOf(vars, End)
  {
  }

  lemma UnsafeIsMessage(b: Base, es: seq<Tree>)
    requires ElementsValue(b, es) && !SafeInElements(Reading, b, es)
    ensures b.Msg? && es != []
  {
    PlainElementsSafe(Reading, b, es);
  }

  lemma {:induction false} FailRange(b: Base, es: seq<Tree>, lo: nat, c: Var, root: Var, bp: seq<string>,
                                     path: seq<string>, st: State, tree: Tree, depth: nat, cnt: nat)
    requires b.Msg? && DeclaredBase(b) && ElementsValue(b, es) && lo < |es|
    requires ElementsValue(b, es[lo..]) && !SafeInElements(Reading, b, es[lo..])
    requires Focus(st.vars, c, root, bp, tree, depth, cnt) && IntOf(st.vars, End).Some? && path != []
    requires Get(Get(tree, bp).value, path) == Some(List(Done(b, es, lo)))
    requires At(st.input, IntOf(st.vars, End).value, WireElements(b, es[lo..]))
    ensures RunRange(lo, |es|, LoopBody(b, Ref(c, path), depth, cnt), st).None?
    decreases b, 3, |es| - lo
  {
    hide Exec, Framed, Get, Put, NormBase, LoopBody, NormElements, ElementsValue, WireBase, Bind, At;
    hide SafeInBase, SafeInElements, ReadElementCode;
    var o, body := Get(tree, bp).value, LoopBody(b, Ref(c, path), depth, cnt);
    var e := IntOf(st.vars, End).value;
    WireElementsAt(b, es, lo);
    SafeElementsSplit(Reading, b, es[lo..]);
    assert es[lo..][0] == es[lo] && es[lo..][1..] == es[lo + 1..];
    AtSplit(st.input, e, WireBase(b, es[lo]), WireElements(b, es[lo + 1..]));
    var st1 := st.(vars := Bind(st.vars, I, Int(lo)));
    BindIKeeps(st, lo, c, root, bp, tree, depth, cnt);
    if !SafeInBase(Reading, b, es[lo]) {
      FailElement(b, es[lo], st1, depth, cnt);
      BodyFails(b, Ref(c, path), st1, depth, cnt);
    } else {
      UnsafeIsMessage(b, es[lo + 1..]);
      ReadOneMore(b, es[lo], c, root, bp, path, st1, tree, Done(b, es, lo), depth, cnt);
      DoneNext(b, es, lo);
      var o' := Put(o, path, List(Done(b, es, lo + 1)));
      var st2 := Exec(body, st1).value;
      GetPut(tree, bp, o');
      GetPut(o, path, List(Done(b, es, lo + 1)));
      FailRange(b, es, lo + 1, c, root, bp, path, st2, Put(tree, bp, o'), depth, cnt);
    }
  }

  lemma BodyFails(b: Base, r: Ref, st: State, depth: nat, cnt: nat)
    requires !b.Prim? && Exec(ReadElementCode(b, Loop(depth), depth, cnt).code, st).None?
    ensures Exec(LoopBody(b, r, depth, cnt), st).None?
  {
    hide Exec, ReadElementCode;
    FailsFirst(ReadElementCode(b, Loop(depth), depth, cnt).code, [Append(r, Loop(depth))], st);
  }

  lemma {:induction false} FailList(b: Base, es: seq<Tree>, k: Count, c: Var, root: Var, bp: seq<string>,
                                    path: seq<string>, st: State, tree: Tree, depth: nat, cnt: nat)
    requires b.Msg? && DeclaredBase(b) && ElementsValue(b, es) && !SafeInElements(Reading, b, es)
    requires Focus(st.vars, c, root, bp, tree, depth, cnt) && IntOf(st.vars, End).Some? && path != []
    requires Get(Get(tree, bp).value, path).Some?
    requires k == Const(|es|) || (k == LengthVar && IntOf(st.vars, Length) == Some(|es|))
    requires At(st.input, IntOf(st.vars, End).value, WireElements(b, es))
    ensures Exec([EmptyList(Ref(c, path)), ForRange(k, LoopBody(b, Ref(c, path), depth, cnt))], st).None?
    decreases b, 4, 0
  {
    hide Exec, Framed, Get, Put, NormBase, LoopBody, ElementsValue, WireElements, At, SafeInElements;
    var o, r := Get(tree, bp).value, Ref(c, path);
    var body := LoopBody(b, r, depth, cnt);
    var a, f := EmptyList(r), ForRange(k, body);
    UnsafeIsMessage(b, es);
    ReadEmptyList(c, root, bp, path, st, tree, depth, cnt);
    var st1 := Exec([a], st).value;
    var o1 := Put(o, path, List([]));
    GetPut(o, path, List([]));
    GetPut(tree, bp, o1);
    assert es[0..] == es && Done(b, es, 0) == [];
    FailRange(b, es, 0, c, root, bp, path, st1, Put(tree, bp, o1), depth, cnt);
    StepForRange(k, body, st1, |es|);
    FailsThen([a], [f], st);
    assert [a] + [f] == [a, f];
  }

  lemma {:induction false} FailArray(c: Var, root: Var, bp: seq<string>, f: Field, st: State,
                                     tree: Tree, v: Tree, depth: nat, cnt: nat)
    requires Focus(st.vars, c, root, bp, tree, depth, cnt) && f.path != [] && Ready(f, Get(tree, bp).value)
    requires !f.ty.One? && f.ty.base.Msg? && DeclaredBase(f.ty.base) && FieldAt(f, v)
    requires !SafeInField(Reading, f.ty, Get(v, f.path).value)
    requires IntOf(st.vars, End).Some?
    requires At(st.input, IntOf(st.vars, End).value, WireField(f.ty, Get(v, f.path).value))
    ensures Exec(GenComplex(false, c, f, depth, cnt).code, st).None?
    decreases f, 5, 0
  {
    hide Exec, Framed, Put, NormBase, LoopBody, WireElements, At, GenComplex, ElementsValue, SafeInElements;
    var t, ty, r, e := Get(v, f.path).value, f.ty, Ref(c, f.path), IntOf(st.vars, End).value;
    var k := if ty.Varying? then LengthVar else Const(ty.len);
    var loop := [EmptyList(r), ForRange(k, LoopBody(ty.base, r, depth, cnt))];
    ListCode(c, f, depth, cnt);
    if ty.Varying? {
      AtSplit(st.input, e, WireLength(|t.es|), WireElements(ty.base, t.es));
      ReadLength(r, st, e, |t.es|);
      var st1 := Exec(LengthCode(false, r), st).value;
      QuietFocus(st.vars, st1.vars, c, root, bp, tree, depth, cnt);
      FailList(ty.base, t.es, k, c, root, bp, f.path, st1, tree, depth, cnt);
      FailsThen(LengthCode(false, r), loop, st);
    } else {
      FailList(ty.base, t.es, k, c, root, bp, f.path, st, tree, depth, cnt);
      assert [] + loop == loop;
    }
  }

  lemma {:induction false} FailEmbedded(c: Var, root: Var, bp: seq<string>, f: Field, st: State,
                                        tree: Tree, v: Tree, depth: nat, cnt: nat)
    requires Focus(st.vars, c, root, bp, tree, depth, cnt) && f.path != [] && Ready(f, Get(tree, bp).value)
    requires IsEmbedded(f.ty) && DeclaredBase(f.ty.base) && FieldAt(f, v)
    requires !SafeInField(Reading, f.ty, Get(v, f.path).value)
    requires IntOf(st.vars, End).Some?
    requires At(st.input, IntOf(st.vars, End).value, WireField(f.ty, Get(v, f.path).value))
    ensures Exec(GenComplex(false, c, f, depth, cnt).code, st).None?
    decreases f, 5, 0
  {
    hide Exec, Framed, Put, At, WireFields, Bind, FieldsValue, SafeInFields;
    var t, o, fs := Get(v, f.path).value, Get(tree, bp).value, f.ty.base.fields;
    var w := Sub(cnt + 1);
    assert BaseValue(f.ty.base, t);
    var st1 := st.(vars := Bind(st.vars, w, Ptr(root, bp + f.path)));
    AliasFocus(w, f.path, c, root, bp, st, tree, depth, cnt);
    FocusOnSub(st.vars, c, root, bp, f.path, tree, depth, cnt);
    FailBody(w, root, bp + f.path, fs, st1, tree, t, depth + 1, cnt + 1);
    FailsThen([Alias(w, Ref(c, f.path))], GenBody(false, w, fs, depth + 1, cnt + 1).code, st);
  }

  lemma {:induction false} FailComplex(c: Var, root: Var, bp: seq<string>, f: Field, st: State,
                                       tree: Tree, v: Tree, depth: nat, cnt: nat)
    requires Focus(st.vars, c, root, bp, tree, depth, cnt) && f.path != [] && Ready(f, Get(tree, bp).value)
    requires !IsSimple(f.ty) && DeclaredBase(f.ty.base) && FieldAt(f, v)
    requires !SafeInField(Reading, f.ty, Get(v, f.path).value)
    requires IntOf(st.vars, End).Some?
    requires At(st.input, IntOf(st.vars, End).value, WireField(f.ty, Get(v, f.path).value))
    ensures Exec(GenComplex(false, c, f, depth, cnt).code, st).None?
    decreases f, 6, 0
  {
    hide Exec, At, WireField, GenComplex, SafeInField, SafeLength;
    UnsafeField(f.ty, Get(v, f.path).value);
    if f.ty.One? {
      FailEmbedded(c, root, bp, f, st, tree, v, depth, cnt);
    } else if f.ty.base.Prim? {
      FailSimpleArray(c, f, st, v, depth, cnt);
    } else {
      FailArray(c, root, bp, f, st, tree, v, depth, cnt);
    }
  }

  /** Strings, byte arrays and simple values are never unsafe to read. */
  lemma UnsafeField(ty: FieldType, t: Tree)
    requires FieldValue(ty, t) && !SafeInField(Reading, ty, t)
    ensures ty.base.Msg? || (!ty.One? && ty.base.Prim? && !IsByteArray(ty) && !SafeLength(Reading, ty))
  {
    hide HasDoubleNine;
    if !ty.One? && t.List? {
      PlainElementsSafe(Reading, ty.base, t.es);
    }
  }

  lemma SimpleAreSafe(fs: seq<Field>, v: Tree)
    requires AllSimple(fs) && FieldsValue(fs, v)
    ensures SafeInFields(Reading, fs, v)
  {
    forall i | 0 <= i < |fs| ensures FieldAt(fs[i], v) && SafeInField(Reading, fs[i].ty, Get(v, fs[i].path).value) {
      assert FieldAt(fs[i], v) && IsSimple(fs[i].ty);
    }
  }

  lemma {:induction false} FailFields(c: Var, root: Var, bp: seq<string>, fs: seq<Field>, st: State,
                                      tree: Tree, v: Tree, depth: nat, cnt: nat)
    requires Focus(st.vars, c, root, bp, tree, depth, cnt) && Presented(fs, Get(tree, bp).value, v)
    requires !SafeInFields(Reading, fs, v)
    requires IntOf(st.vars, End).Some? && At(st.input, IntOf(st.vars, End).value, WireFields(fs, v))
    ensures Exec(GenFields(false, c, fs, depth, cnt).code, st).None?
    decreases fs, 7, 0
  {
    hide Exec, Framed, Put, At, WireFields, Fill, AllReady, PrefixFree, FieldsValue, Chunks, GenComplex, GenFields;
    hide SafeInFields;
    var k, o := SimpleRun(fs), Get(tree, bp).value;
    SafeFromRun(fs, v, k);
    var e := IntOf(st.vars, End).value;
    PresentedSplit(fs, k, o, v);
    AtSplit(st.input, e, WireFields(fs[..k], v), WireFields(fs[k..], v));
    ReadChunks(c, root, bp, fs[..k], st, tree, v, depth, cnt);
    var o1 := Fill(o, fs[..k], v);
    var st1 := Exec(Chunks(false, c, fs[..k]), st).value;
    GetPut(tree, bp, o1);
    assert fs[k..][0] == fs[k];
    FailFromComplex(c, root, bp, fs[k..], st1, Put(tree, bp, o1), v, depth, cnt);
    JoinedCode(c, fs, k, depth, cnt);
    FailsThen(Chunks(false, c, fs[..k]), FromComplex(c, fs[k..], depth, cnt), st);
  }

  /** What is unsafe comes after the simple fields. */
  lemma SafeFromRun(fs: seq<Field>, v: Tree, k: nat)
    requires FieldsValue(fs, v) && !SafeInFields(Reading, fs, v) && k == SimpleRun(fs)
    ensures k < |fs| && FieldsValue(fs[..k], v) && FieldsValue(fs[k..], v) && !SafeInFields(Reading, fs[k..], v)
  {
    hide SafeInFields, FieldsValue;
    assert fs == fs[..k] + fs[k..];
    FieldsValueSplit(fs[..k], fs[k..], v);
    SafeConcat(Reading, fs[..k], fs[k..], v);
    SimpleAreSafe(fs[..k], v);
    if k == |fs| {
      assert fs[k..] == [];
      NoneUnsafe(v);
    }
  }

  lemma NoneUnsafe(v: Tree)
    ensures FieldsValue([], v) && SafeInFields(Reading, [], v)
  {
  }

  lemma {:induction false} FailFromComplex(c: Var, root: Var, bp: seq<string>, fs: seq<Field>, st: State,
                                           tree: Tree, v: Tree, depth: nat, cnt: nat)
    requires fs != [] && !IsSimple(fs[0].ty)
    requires Focus(st.vars, c, root, bp, tree, depth, cnt) && Presented(fs, Get(tree, bp).value, v)
    requires !SafeInFields(Reading, fs, v)
    requires IntOf(st.vars, End).Some? && At(st.input, IntOf(st.vars, End).value, WireFields(fs, v))
    ensures Exec(FromComplex(c, fs, depth, cnt), st).None?
    decreases fs, 6, 0
  {
    hide Exec, Framed, Put, At, WireFields, Fill, PrefixFree, GenComplex, GenFields, SafeInFields, SafeInField;
    var o, e, f := Get(tree, bp).value, IntOf(st.vars, End).value, fs[0];
    PresentedSplit(fs, 1, o, v);
    SafeFieldsSplit(Reading, fs, v);
    assert fs[..1] == [f];
    assert FieldAt(f, v) && Ready(f, o);
    var t := Get(v, f.path).value;
    WireFieldsOne(f, v);
    FillOne(o, f, v);
    AtSplit(st.input, e, WireField(f.ty, t), WireFields(fs[1..], v));
    var g := GenComplex(false, c, f, depth, cnt);
    if !SafeInField(Reading, f.ty, t) {
      FailComplex(c, root, bp, f, st, tree, v, depth, cnt);
      FailsFirst(g.code, GenFields(false, c, fs[1..], depth, g.cnt).code, st);
    } else {
      ReadComplex(c, root, bp, f, st, tree, v, depth, cnt);
      var o1 := Fill(o, fs[..1], v);
      var st1 := Exec(g.code, st).value;
      GetPut(tree, bp, o1);
      ComplexCounterGrows(false, c, f, depth, cnt);
      FocusCounter(st1.vars, c, root, bp, Put(tree, bp, o1), depth, cnt, g.cnt);
      FailFields(c, root, bp, fs[1..], st1, Put(tree, bp, o1), v, depth, g.cnt);
      FailsThen(g.code, GenFields(false, c, fs[1..], depth, g.cnt).code, st);
    }
  }

  lemma {:induction false} FailBody(c: Var, root: Var, bp: seq<string>, fs: seq<Field>, st: State,
                                    tree: Tree, v: Tree, depth: nat, cnt: nat)
    requires Focus(st.vars, c, root, bp, tree, depth, cnt) && Declared(fs)
    requires Shaped(fs, Get(tree, bp).value) && FieldsValue(fs, v) && !SafeInFields(Reading, fs, v)
    requires IntOf(st.vars, End).Some? && At(st.input, IntOf(st.vars, End).value, WireFields(fs, v))
    ensures Exec(GenBody(false, c, fs, depth, cnt).code, st).None?
    decreases fs, 8, 0
  {
    hide Exec, Put, WireFields, At, SafeInFields, GenFields;
    DeclaredPrefixFree(fs);
    FailFields(c, root, bp, fs, st, tree, v, depth, cnt);
  }
}
