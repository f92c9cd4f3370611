/** What `deserialize` makes of bytes that no serializer of this kind wrote. */
module AnyBytes {
  import opened Common
  import opened DecimalText
  import opened StructPattern
  import opened WireTypes
  import opened PyTarget
  import opened Generator
  import opened TextSearch
  import opened SerializeProof
  import opened DeserializeProof

  /* ---- a bool from any byte ---- */

  const FLAGGED := [Field(["b"], One(Prim(Bool)))]

  /** What the bytes of the flag are unpacked to, before bool(). */
  lemma ByteUnpacked(st: State, k: Byte)
    requires Slice(st) == Some([k])
    ensures UnpackCall(st, Lit(Reduce("B"))) == Some([Num(k)])
  {
    ReduceKeepsLetters("B");
    var tokens := Tokens(Reduce("B")).value;
    assert Reduce("B") == "B" && tokens == [Token(1, 'B')] by { OneLetter("B"); }
    assert tokens[1..] == [] && [k][..1] == [k] && [k][1..] == [];
    assert FromLittleEndian([k]) == k;
    assert UnpackNumbers('B', 1, [k]) == [Num(k)];
    assert Unpack(tokens[1..], [k][1..]) == [];
  }

  lemma OneLetter(s: string)
    requires s == "B"
    ensures Reduce(s) == s && Tokens(s) == Some([Token(1, 'B')])
  {
    assert s[1..] == "" && Tokens("") == Some([]);
    assert DigitRun(s) == 0 && s[0] == 'B';
    TokensStep(s);
    assert [Token(1, 'B')] + [] == [Token(1, 'B')];
  }

  lemma FlaggedCode(cnt: nat)
    ensures DeserializeCode(FLAGGED, cnt)
         == [StartOver, Advance(Const(1)), UnpackTuple([Ref(Self, ["b"])], Lit(Reduce("B"))), ToBool(Ref(Self, ["b"]))]
  {
    hide Reduce;
    assert FLAGGED[1..] == [] && Flatten([]) == [];
    assert Flatten(FLAGGED) == FLAGGED;
    assert SimpleRun(FLAGGED) == 1 && PatternOf(FLAGGED) == "B" && Refs(Self, FLAGGED) == [Ref(Self, ["b"])];
    assert SizeOf(FLAGGED) == 1;
    assert BoolFixes(Self, FLAGGED[1..]) == [] && BoolFixes(Self, FLAGGED) == [ToBool(Ref(Self, ["b"]))];
    assert EnsureObjects(FLAGGED) == [] && CanonCalls(FLAGGED) == [];
  }

  /** Up to bool(): the byte is in the object as it is. */
  lemma FlagRead(s0: State, o: Tree, k: Byte) returns (s3: State)
    requires Self in s0.vars && s0.vars[Self] == Own(o) && o.Obj? && o.fs.Keys == {"b"} && s0.input == [k]
    ensures Exec([StartOver, Advance(Const(1)), UnpackTuple([Ref(Self, ["b"])], Lit(Reduce("B")))], s0) == Some(s3)
    ensures Self in s3.vars && s3.vars[Self] == Own(Obj(map["b" := Num(k)]))
    ensures Eval(s3.vars, Ref(Self, ["b"])) == Some(Num(k))
  {
    hide Exec, Reduce, UnpackCall, Slice, AssignAll, Eval;
    var r, fmt := Ref(Self, ["b"]), Lit(Reduce("B"));
    var s1 := s0.(vars := Bind(s0.vars, End, Int(0)));
    assert Exec([StartOver], s0) == Some(s1) by { StepStartOver(s0); }
    AtAll([k]);
    ReadAdvance(Const(1), s1, 0, [k]);
    var s2 := Advanced(s1, 0, 1);
    ByteUnpacked(s2, k);
    StepUnpackTuple([r], fmt, s2, [Num(k)]);
    s3 := FlagSet(s2, o, Num(k));
    var a, u := Advance(Const(1)), UnpackTuple([r], fmt);
    ExecCons(StartOver, [a, u], s0);
    ExecCons(a, [u], s1);
    assert [StartOver] + [a, u] == [StartOver, a, u] && [a] + [u] == [a, u];
  }

  lemma StepStartOver(st: State)
    ensures Exec([StartOver], st) == Some(st.(vars := Bind(st.vars, End, Int(0))))
  {
    ExecOne(StartOver, st);
  }

  /** Any byte but zero is true. */
  lemma BoolFromByte(vars: Store, k: Byte, cnt: nat)
    ensures var d := Exec(DeserializeCode(FLAGGED, cnt), State(vars[Self := Own(NewObject(FLAGGED))], [], [k]));
      && d.Some? && Self in d.value.vars
      && d.value.vars[Self] == Own(Obj(map["b" := Num(if k == 0 then 0 else 1)]))
  {
    hide Exec, Reduce, DeserializeCode, Assign, AssignAll, Eval;
    FlaggedCode(cnt);
    assert FLAGGED[1..] == [] && NewSlots(FLAGGED) == map["b" := Num(0)];
    var s0 := State(vars[Self := Own(NewObject(FLAGGED))], [], [k]);
    var s3 := FlagRead(s0, NewObject(FLAGGED), k);
    var r := Ref(Self, ["b"]);
    var s4 := FlagSet(s3, Obj(map["b" := Num(k)]), Num(if k == 0 then 0 else 1));
    StepToBool(r, s3, Num(k));
    ThenOne(StartOver, Advance(Const(1)), UnpackTuple([r], Lit(Reduce("B"))), ToBool(r), s0);
  }

  /** An assignment to the only attribute. */
  lemma FlagSet(st: State, o: Tree, x: Tree) returns (s: State)
    requires Self in st.vars && st.vars[Self] == Own(o) && o.Obj? && o.fs.Keys == {"b"}
    ensures Assign(st.vars, Ref(Self, ["b"]), x) == Some(s.vars)
    ensures AssignAll(st.vars, [Ref(Self, ["b"])], [x]) == Some(s.vars)
    ensures s == st.(vars := s.vars) && Self in s.vars && s.vars[Self] == Own(Obj(map["b" := x]))
    ensures Eval(s.vars, Ref(Self, ["b"])) == Some(x)
  {
    assert ["b"][1..] == [] && o.fs["b" := x] == map["b" := x];
    assert Put(o, ["b"], x) == Obj(map["b" := x]);
    var r := Assign(st.vars, Ref(Self, ["b"]), x);
    s := st.(vars := r.value);
    assert [Ref(Self, ["b"])][1..] == [] && [x][1..] == [];
    assert AssignAll(s.vars, [], []) == Some(s.vars);
  }

  /* ---- bools in an array ---- */

  function FlagsOf(n: nat): seq<Field> {
    [Field(["b"], Fixed(Prim(Bool), n))]
  }

  function Numbers(bs: seq<Byte>): (r: seq<Tree>)
    ensures |r| == |bs| && forall i :: 0 <= i < |bs| ==> r[i] == Num(bs[i])
  {
    seq(|bs|, i requires 0 <= i < |bs| => Num(bs[i]))
  }

  lemma {:induction false} BytesUnpacked(bs: seq<Byte>)
    ensures UnpackNumbers('B', |bs|, bs) == Numbers(bs)
  {
    if bs != [] {
      BytesUnpacked(bs[1..]);
      var one := bs[..1];
      assert one[1..] == [] && FromLittleEndian(one) == bs[0];
      assert CodeSize('B') == 1;
      assert Numbers(bs) == [Num(bs[0])] + Numbers(bs[1..]);
    }
  }

  lemma CountUnpacked(st: State, bs: seq<Byte>)
    requires Slice(st) == Some(bs) && !HasDoubleNine(Decimal(|bs|))
    ensures UnpackCall(st, Lit(Reduce(Counted(|bs|, 'B')))) == Some(Numbers(bs))
  {
    hide Reduce, Counted, Slice, Decimal, HasDoubleNine, Tokens, UnpackNumbers;
    ReduceKeepsCountIff(|bs|, 'B');
    BytesUnpacked(bs);
    var t := [Token(|bs|, 'B')];
    assert t[1..] == [] && bs[..|bs|] == bs && bs[|bs|..] == [];
    assert CalcSize(t[1..]) == 0 && Unpack(t[1..], bs[|bs|..]) == [];
    assert Numbers(bs) + [] == Numbers(bs);
  }

  lemma FlagsCode(n: nat, cnt: nat)
    ensures DeserializeCode(FlagsOf(n), cnt)
         == [StartOver, Advance(Const(n)), UnpackList(Ref(Self, ["b"]), Lit(Reduce(Counted(n, 'B')))),
             MapBool(Ref(Self, ["b"]))]
  {
    hide Reduce, Counted;
    var fs := FlagsOf(n);
    assert fs[1..] == [] && Flatten([]) == [] && Flatten(fs) == fs;
    assert SimpleRun(fs) == 0 && fs[..0] == [];
    var r := Ref(Self, ["b"]);
    var code := [Advance(Const(n)), UnpackList(r, Lit(Reduce(Counted(n, 'B')))), MapBool(r)];
    assert CodeSize('B') == 1 && n * 1 == n;
    assert SimpleArrayCode(false, r, fs[0].ty) == code;
    assert GenComplex(false, Self, fs[0], 1, cnt).code == [] + code == code;
    assert GenFields(false, Self, [], 1, cnt).code == [];
    assert GenFields(false, Self, fs, 1, cnt).code == [] + code + [] == code;
    assert EnsureObjects(fs) == [] && CanonCalls(fs) == [];
  }

  function Flags(bs: seq<Byte>): (r: seq<Tree>)
    ensures |r| == |bs| && forall i :: 0 <= i < |bs| ==> r[i] == Num(if bs[i] == 0 then 0 else 1)
  {
    seq(|bs|, i requires 0 <= i < |bs| => Num(if bs[i] == 0 then 0 else 1))
  }

  lemma FlagsRead(s0: State, o: Tree, bs: seq<Byte>) returns (s3: State)
    requires Self in s0.vars && s0.vars[Self] == Own(o) && o.Obj? && o.fs.Keys == {"b"} && s0.input == bs
    requires !HasDoubleNine(Decimal(|bs|))
    ensures Exec([StartOver, Advance(Const(|bs|)), UnpackList(Ref(Self, ["b"]), Lit(Reduce(Counted(|bs|, 'B'))))], s0)
         == Some(s3)
    ensures Self in s3.vars && s3.vars[Self] == Own(Obj(map["b" := List(Numbers(bs))]))
    ensures Eval(s3.vars, Ref(Self, ["b"])) == Some(List(Numbers(bs)))
  {
    hide Exec, Reduce, Counted, UnpackCall, Slice, Assign, AssignAll, Eval, HasDoubleNine, Decimal, Numbers;
    var r, fmt := Ref(Self, ["b"]), Lit(Reduce(Counted(|bs|, 'B')));
    var s1 := s0.(vars := Bind(s0.vars, End, Int(0)));
    assert Exec([StartOver], s0) == Some(s1) by { StepStartOver(s0); }
    AtAll(bs);
    ReadAdvance(Const(|bs|), s1, 0, bs);
    var s2 := Advanced(s1, 0, |bs|);
    CountUnpacked(s2, bs);
    StepUnpackList(r, fmt, s2, Numbers(bs));
    s3 := FlagSet(s2, o, List(Numbers(bs)));
    var a, u := Advance(Const(|bs|)), UnpackList(r, fmt);
    ExecCons(StartOver, [a, u], s0);
    ExecCons(a, [u], s1);
    assert [StartOver] + [a, u] == [StartOver, a, u] && [a] + [u] == [a, u];
  }

  lemma TruthOfNumbers(es: seq<Tree>, bs: seq<Byte>)
    requires es == Numbers(bs)
    ensures seq(|es|, i requires 0 <= i < |es| => Truth(es[i])) == Flags(bs)
  {
  }

  lemma FlagsMapped(st: State, bs: seq<Byte>) returns (s: State)
    requires Self in st.vars && st.vars[Self] == Own(Obj(map["b" := List(Numbers(bs))]))
    requires Eval(st.vars, Ref(Self, ["b"])) == Some(List(Numbers(bs)))
    ensures Exec([MapBool(Ref(Self, ["b"]))], st) == Some(s)
    ensures Self in s.vars && s.vars[Self] == Own(Obj(map["b" := List(Flags(bs))]))
  {
    hide Exec, Assign, AssignAll, Eval;
    var es := Numbers(bs);
    StepMapBool(Ref(Self, ["b"]), st, es);
    TruthOfNumbers(es, bs);
    s := FlagSet(st, Obj(map["b" := List(Numbers(bs))]), List(Flags(bs)));
  }

  lemma ThenOne(a: Stmt, b: Stmt, c: Stmt, d: Stmt, st: State)
    requires Exec([a, b, c], st).Some?
    ensures Exec([a, b, c, d], st) == Exec([d], Exec([a, b, c], st).value)
  {
    hide Exec;
    ExecAppend([a, b, c], [d], st);
    assert [a, b, c] + [d] == [a, b, c, d];
  }

  /** Each element of the array is true unless its byte is zero. */
  lemma BoolsFromBytes(vars: Store, bs: seq<Byte>, o: Tree, cnt: nat)
    requires o.Obj? && o.fs.Keys == {"b"} && !HasDoubleNine(Decimal(|bs|))
    ensures var d := Exec(DeserializeCode(FlagsOf(|bs|), cnt), State(vars[Self := Own(o)], [], bs));
      d.Some? && Self in d.value.vars && d.value.vars[Self] == Own(Obj(map["b" := List(Flags(bs))]))
  {
    hide Exec, Reduce, Counted, Eval, DeserializeCode, HasDoubleNine, Decimal, FlagsOf, Numbers, Flags;
    FlagsCode(|bs|, cnt);
    var r := Ref(Self, ["b"]);
    var s0 := State(vars[Self := Own(o)], [], bs);
    var s3 := FlagsRead(s0, o, bs);
    var s4 := FlagsMapped(s3, bs);
    ThenOne(StartOver, Advance(Const(|bs|)), UnpackList(r, Lit(Reduce(Counted(|bs|, 'B')))), MapBool(r), s0);
  }

  /* ---- a string that is cut off ---- */

  const NAMED := [Field(["b"], One(Str))]

  lemma NamedCode(cnt: nat)
    ensures DeserializeCode(NAMED, cnt)
         == [StartOver] + LengthCode(false, Ref(Self, ["b"])) + [Advance(LengthVar), TakeBytes(Ref(Self, ["b"]))]
  {
    hide LengthCode;
    assert NAMED[1..] == [] && Flatten([]) == [] && Flatten(NAMED) == NAMED;
    assert SimpleRun(NAMED) == 0 && NAMED[..0] == [];
    assert GenFields(false, Self, [], 1, cnt).code == [];
    assert EnsureObjects(NAMED) == [] && CanonCalls(NAMED) == [];
  }

  lemma CutSlice(st: State, e: nat, n: nat, bs: seq<Byte>)
    requires IntOf(st.vars, End) == Some(e) && IntOf(st.vars, Length) == Some(n)
    requires e <= |st.input| && st.input[e..] == bs && |bs| <= n
    ensures Exec([Advance(LengthVar)], st) == Some(Advanced(st, e, n)) && Slice(Advanced(st, e, n)) == Some(bs)
    ensures IntOf(Advanced(st, e, n).vars, End) == Some(e + n) && Quiet(st.vars, Advanced(st, e, n).vars)
  {
    ExecOne(Advance(LengthVar), st);
    assert st.input[e..|st.input|] == bs;
  }

  /** What is there of a string is taken without complaint, and `end` moves beyond the input. */
  lemma CutString(vars: Store, n: nat, bs: seq<Byte>, o: Tree, cnt: nat)
    requires o.Obj? && o.fs.Keys == {"b"} && |bs| <= n < MAX_LEN
    ensures var d := Exec(DeserializeCode(NAMED, cnt), State(vars[Self := Own(o)], [], WireLength(n) + bs));
      && d.Some? && Self in d.value.vars && d.value.vars[Self] == Own(Obj(map["b" := Bytes(bs)]))
      && IntOf(d.value.vars, End) == Some(4 + n)
  {
    hide Exec, Slice, Assign, AssignAll, Eval, DeserializeCode, WireLength, LengthCode, At;
    NamedCode(cnt);
    var r := Ref(Self, ["b"]);
    var input := WireLength(n) + bs;
    var s0 := State(vars[Self := Own(o)], [], input);
    var s1 := s0.(vars := Bind(s0.vars, End, Int(0)));
    StepStartOver(s0);
    AtAll(input);
    AtSplit(input, 0, WireLength(n), bs);
    ReadLength(r, s1, 0, n);
    var s2 := Exec(LengthCode(false, r), s1).value;
    assert input[4..] == bs;
    CutSlice(s2, 4, n, bs);
    var s3 := Advanced(s2, 4, n);
    StepTakeBytes(r, s3, bs);
    var s4 := FlagSet(s3, o, Bytes(bs));
    EndStays(s3, o, Bytes(bs));
    var a, t := Advance(LengthVar), TakeBytes(r);
    ExecAppend([StartOver], LengthCode(false, r), s0);
    ExecAppend([StartOver] + LengthCode(false, r), [a, t], s0);
    ExecCons(a, [t], s2);
    assert [a] + [t] == [a, t];
  }

  lemma EndStays(st: State, o: Tree, x: Tree)
    requires Self in st.vars && st.vars[Self] == Own(o) && Assign(st.vars, Ref(Self, ["b"]), x).Some?
    requires IntOf(st.vars, End).Some?
    ensures IntOf(Assign(st.vars, Ref(Self, ["b"]), x).value, End) == IntOf(st.vars, End)
  {
  }
}
