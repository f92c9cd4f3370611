/** Serializing a message and deserializing the bytes: the whole methods, end to end. */
module RoundTrip {
  import opened Common
  import opened WireTypes
  import opened WireBytes
  import opened DecimalText
  import opened StructPattern
  import opened PyTarget
  import opened Generator
  import opened TreeLaws
  import opened FillLaws
  import opened TextSearch
  import opened WrittenBytes
  import opened SerializeProof
  import opened DeserializeProof
  import opened DeserializeFails

  /* ---- embedded objects that are still None ---- */

  /** A message object whose embedded messages may not have been constructed yet. */
  predicate Constructible(fs: seq<Field>, o: Tree) {
    forall i :: 0 <= i < |fs| ==>
      Ready(fs[i], o) || (IsEmbedded(fs[i].ty) && Get(o, fs[i].path) == Some(NoneVal))
  }

  function Ensured(fs: seq<Field>, o: Tree): Tree {
    if fs == [] then o
    else Ensured(fs[1..], if IsEmbedded(fs[0].ty) && Get(o, fs[0].path) == Some(NoneVal)
                          then Put(o, fs[0].path, NewObject(fs[0].ty.base.fields)) else o)
  }

  lemma {:induction false} EnsuredOther(fs: seq<Field>, o: Tree, q: seq<string>)
    requires forall i :: 0 <= i < |fs| ==> !(fs[i].path <= q) && !(q <= fs[i].path)
    ensures Get(Ensured(fs, o), q) == Get(o, q)
    decreases fs
  {
    if fs != [] {
      assert forall i :: 0 <= i < |fs[1..]| ==> fs[1..][i] == fs[i + 1];
      if IsEmbedded(fs[0].ty) && Get(o, fs[0].path) == Some(NoneVal) {
        var x := NewObject(fs[0].ty.base.fields);
        GetPutOther(o, fs[0].path, q, x);
        EnsuredOther(fs[1..], Put(o, fs[0].path, x), q);
      } else {
        EnsuredOther(fs[1..], o, q);
      }
    }
  }

  lemma {:induction false} EnsuredReady(fs: seq<Field>, o: Tree)
    requires Declared(fs) && Constructible(fs, o) && o.Obj?
    ensures AllReady(fs, Ensured(fs, o))
    ensures Ensured(fs, o).Obj? && Ensured(fs, o).fs.Keys == o.fs.Keys
    decreases fs
  {
    if fs != [] {
      DeclaredRest(fs);
      DeclaredPrefixFree(fs);
      var p := fs[0].path;
      var missing := IsEmbedded(fs[0].ty) && Get(o, p) == Some(NoneVal);
      var o1 := if missing then Put(o, p, NewObject(fs[0].ty.base.fields)) else o;
      assert forall i :: 0 <= i < |fs[1..]| ==> fs[1..][i] == fs[i + 1];
      forall i | 0 <= i < |fs[1..]|
        ensures Ready(fs[1..][i], o1) || (IsEmbedded(fs[1..][i].ty) && Get(o1, fs[1..][i].path) == Some(NoneVal))
      {
        if missing {
          GetPutOther(o, p, fs[i + 1].path, NewObject(fs[0].ty.base.fields));
        }
      }
      EnsuredReady(fs[1..], o1);
      EnsuredOther(fs[1..], o1, p);
      if missing {
        GetPut(o, p, NewObject(fs[0].ty.base.fields));
        NewObjectShaped(fs[0].ty.base.fields);
      }
      var r := Ensured(fs, o);
      forall i | 0 <= i < |fs| ensures Ready(fs[i], r) {
        if i > 0 {
          assert fs[i] == fs[1..][i - 1];
        }
      }
    }
  }

  /** The `if self.x is None` lines. */
  lemma {:induction false} RunEnsure(fs: seq<Field>, st: State, o: Tree)
    requires Declared(fs) && Constructible(fs, o) && o.Obj?
    requires Self in st.vars && st.vars[Self] == Own(o)
    ensures Exec(EnsureObjects(fs), st).Some?
    ensures var s := Exec(EnsureObjects(fs), st).value;
      s.input == st.input && s.buff == st.buff && Self in s.vars && s.vars[Self] == Own(Ensured(fs, o))
    decreases fs
  {
    if fs != [] {
      DeclaredRest(fs);
      DeclaredPrefixFree(fs);
      var p := fs[0].path;
      var x := NewObject(if IsEmbedded(fs[0].ty) then fs[0].ty.base.fields else []);
      var missing := IsEmbedded(fs[0].ty) && Get(o, p) == Some(NoneVal);
      var o1 := if missing then Put(o, p, x) else o;
      assert forall i :: 0 <= i < |fs[1..]| ==> fs[1..][i] == fs[i + 1];
      forall i | 0 <= i < |fs[1..]|
        ensures Ready(fs[1..][i], o1) || (IsEmbedded(fs[1..][i].ty) && Get(o1, fs[1..][i].path) == Some(NoneVal))
      {
        if missing {
          GetPutOther(o, p, fs[i + 1].path, x);
        }
      }
      if IsEmbedded(fs[0].ty) {
        var s := EnsureObject(Ref(Self, p), fs[0].ty.base.fields);
        EnsureStep(p, fs[0].ty.base.fields, st, o);
        var st1 := Exec([s], st).value;
        RunEnsure(fs[1..], st1, o1);
        ExecCons(s, EnsureObjects(fs[1..]), st);
      } else {
        RunEnsure(fs[1..], st, o);
        assert [] + EnsureObjects(fs[1..]) == EnsureObjects(fs[1..]);
      }
    }
  }

  lemma EnsureStep(p: seq<string>, sub: seq<Field>, st: State, o: Tree)
    requires Self in st.vars && st.vars[Self] == Own(o) && p != [] && Get(o, p).Some?
    ensures var r := Exec([EnsureObject(Ref(Self, p), sub)], st);
      && r.Some? && r.value.input == st.input && r.value.buff == st.buff
      && Self in r.value.vars
      && r.value.vars[Self] == Own(if Get(o, p) == Some(NoneVal) then Put(o, p, NewObject(sub)) else o)
  {
    ExecOne(EnsureObject(Ref(Self, p), sub), st);
  }

  /* ---- canonical times ---- */

  /** What the canon() calls make of the message. */
  function CanonFields(fs: seq<Field>, t: Tree): Tree {
    if fs == [] then t
    else
      var x := Get(t, fs[0].path);
      CanonFields(fs[1..], if IsClock(fs[0].ty) && x.Some? && CanonTime(x.value).Some?
                           then Put(t, fs[0].path, CanonTime(x.value).value) else t)
  }

  predicate IsCanonical(t: Tree) {
    t.Obj? && "nsecs" in t.fs && t.fs["nsecs"].Num? && 0 <= t.fs["nsecs"].n < BILLION
  }

  /** Every top-level time or duration has its nanoseconds below one second. */
  predicate CanonicalClocks(fs: seq<Field>, t: Tree) {
    forall i :: 0 <= i < |fs| && IsClock(fs[i].ty) && Get(t, fs[i].path).Some? ==> IsCanonical(Get(t, fs[i].path).value)
  }

  predicate ClockValue(t: Tree) {
    t.Obj? && "secs" in t.fs && "nsecs" in t.fs && t.fs["secs"].Num? && t.fs["nsecs"].Num?
  }

  lemma CanonIff(t: Tree)
    requires ClockValue(t)
    ensures CanonTime(t).Some? && ClockValue(CanonTime(t).value)
    ensures CanonTime(t).value == t <==> IsCanonical(t)
    ensures IsCanonical(CanonTime(t).value)
  {
    var n := t.fs["nsecs"].n;
    var over := n / BILLION;
    assert n == over * BILLION + n % BILLION;
    if IsCanonical(t) {
      assert over == 0;
      assert t.fs["secs" := t.fs["secs"]]["nsecs" := t.fs["nsecs"]] == t.fs;
    } else {
      assert CanonTime(t).value.fs["nsecs"] != t.fs["nsecs"];
    }
  }

  /** Canonicalizing carries whole seconds over: it is the same time, and nothing else changes. */
  lemma CanonKeepsTime(t: Tree)
    requires ClockValue(t)
    ensures CanonTime(t).Some? && ClockValue(CanonTime(t).value)
    ensures var u := CanonTime(t).value;
      && u.fs["secs"].n * 1000000000 + u.fs["nsecs"].n == t.fs["secs"].n * 1000000000 + t.fs["nsecs"].n
      && 0 <= u.fs["nsecs"].n < 1000000000
      && u.fs.Keys == t.fs.Keys && forall k :: k in t.fs && k != "secs" && k != "nsecs" ==> u.fs[k] == t.fs[k]
  {
    var n := t.fs["nsecs"].n;
    assert n == (n / BILLION) * BILLION + n % BILLION;
  }

  /** A top-level clock field as deserialization leaves it. */
  predicate ClocksIn(fs: seq<Field>, t: Tree) {
    forall i :: 0 <= i < |fs| && IsClock(fs[i].ty) ==>
      fs[i].path != [] && Get(t, fs[i].path).Some? && ClockValue(Get(t, fs[i].path).value)
  }

  lemma ClocksAfterPut(fs: seq<Field>, t: Tree, x: Tree)
    requires fs != [] && PrefixFree(fs) && ClocksIn(fs, t) && Get(t, fs[0].path).Some?
    ensures PrefixFree(fs[1..]) && ClocksIn(fs[1..], Put(t, fs[0].path, x))
    ensures CanonicalClocks(fs[1..], Put(t, fs[0].path, x)) <==> CanonicalClocks(fs[1..], t)
  {
    forall i | 0 <= i < |fs[1..]| ensures Get(Put(t, fs[0].path, x), fs[1..][i].path) == Get(t, fs[1..][i].path) {
      assert fs[1..][i] == fs[i + 1];
      GetPutOther(t, fs[0].path, fs[i + 1].path, x);
    }
    assert forall i :: 0 <= i < |fs[1..]| ==> fs[1..][i] == fs[i + 1];
  }

  /** Running the canon() calls. */
  lemma {:induction false} RunCanon(fs: seq<Field>, st: State, t: Tree)
    requires PrefixFree(fs) && ClocksIn(fs, t) && Self in st.vars && st.vars[Self] == Own(t)
    ensures Exec(CanonCalls(fs), st).Some?
    ensures var s := Exec(CanonCalls(fs), st).value;
      && Self in s.vars && s.vars[Self] == Own(CanonFields(fs, t))
      && s.input == st.input && s.buff == st.buff
      && (End in st.vars && st.vars[End].Int? ==> End in s.vars && s.vars[End] == st.vars[End])
    decreases fs
  {
    if fs != [] {
      assert forall i :: 0 <= i < |fs[1..]| ==> fs[1..][i] == fs[i + 1];
      if IsClock(fs[0].ty) {
        var p := fs[0].path;
        var x := Get(t, p).value;
        CanonIff(x);
        var s := Canon(Ref(Self, p));
        CanonStep(p, st, t);
        var st1 := Exec([s], st).value;
        ClocksAfterPut(fs, t, CanonTime(x).value);
        RunCanon(fs[1..], st1, Put(t, p, CanonTime(x).value));
        ExecCons(s, CanonCalls(fs[1..]), st);
      } else {
        RunCanon(fs[1..], st, t);
        assert [] + CanonCalls(fs[1..]) == CanonCalls(fs[1..]);
      }
    }
  }

  lemma CanonStep(p: seq<string>, st: State, t: Tree)
    requires Self in st.vars && st.vars[Self] == Own(t) && p != []
    requires Get(t, p).Some? && CanonTime(Get(t, p).value).Some?
    ensures var r := Exec([Canon(Ref(Self, p))], st);
      && r.Some? && r.value.input == st.input && r.value.buff == st.buff && Self in r.value.vars
      && r.value.vars[Self] == Own(Put(t, p, CanonTime(Get(t, p).value).value))
      && (End in st.vars && st.vars[End].Int? ==> End in r.value.vars && r.value.vars[End] == st.vars[End])
  {
    ExecOne(Canon(Ref(Self, p)), st);
  }

  lemma {:induction false} CanonFieldsOther(fs: seq<Field>, t: Tree, q: seq<string>)
    requires forall i :: 0 <= i < |fs| ==> !(fs[i].path <= q) && !(q <= fs[i].path)
    ensures Get(CanonFields(fs, t), q) == Get(t, q)
    decreases fs
  {
    if fs != [] {
      assert forall i :: 0 <= i < |fs[1..]| ==> fs[1..][i] == fs[i + 1];
      var x := Get(t, fs[0].path);
      if IsClock(fs[0].ty) && x.Some? && CanonTime(x.value).Some? {
        GetPutOther(t, fs[0].path, q, CanonTime(x.value).value);
        CanonFieldsOther(fs[1..], Put(t, fs[0].path, CanonTime(x.value).value), q);
      } else {
        CanonFieldsOther(fs[1..], t, q);
      }
    }
  }

  /** The canon() calls leave the message alone exactly when its top-level clocks are canonical. */
  lemma {:induction false} CanonFieldsIff(fs: seq<Field>, t: Tree)
    requires PrefixFree(fs) && ClocksIn(fs, t)
    ensures CanonFields(fs, t) == t <==> CanonicalClocks(fs, t)
    decreases fs
  {
    if fs != [] {
      assert forall i :: 0 <= i < |fs[1..]| ==> fs[1..][i] == fs[i + 1];
      if IsClock(fs[0].ty) {
        var p := fs[0].path;
        var x := Get(t, p).value;
        var y := CanonTime(x).value;
        CanonIff(x);
        ClocksAfterPut(fs, t, y);
        CanonFieldsIff(fs[1..], Put(t, p, y));
        if y == x {
          PutGet(t, p);
        } else {
          GetPut(t, p, y);
          CanonFieldsOther(fs[1..], Put(t, p, y), p);
          assert !CanonicalClocks(fs, t);
        }
      } else {
        CanonFieldsIff(fs[1..], t);
      }
      assert CanonicalClocks(fs, t)
        <==> (CanonicalClocks(fs[1..], t) && (IsClock(fs[0].ty) ==> IsCanonical(Get(t, fs[0].path).value)));
    }
  }

  /** Each top-level time and duration is canonicalized, once. */
  lemma {:induction false} CanonFieldsAt(fs: seq<Field>, t: Tree, i: nat)
    requires PrefixFree(fs) && ClocksIn(fs, t) && i < |fs|
    requires fs[i].ty.One? && fs[i].ty.base.Msg? && (fs[i].ty.base.kind == Time || fs[i].ty.base.kind == Duration)
    ensures Get(CanonFields(fs, t), fs[i].path) == CanonTime(Get(t, fs[i].path).value)
    decreases fs
  {
    assert forall j :: 0 <= j < |fs[1..]| ==> fs[1..][j] == fs[j + 1];
    var p := fs[0].path;
    if IsClock(fs[0].ty) {
      var y := CanonTime(Get(t, p).value).value;
      ClocksAfterPut(fs, t, y);
      GetPut(t, p, y);
      if i == 0 {
        CanonFieldsOther(fs[1..], Put(t, p, y), p);
      } else {
        GetPutOther(t, p, fs[i].path, y);
        CanonFieldsAt(fs[1..], Put(t, p, y), i - 1);
      }
    } else {
      CanonFieldsAt(fs[1..], t, i - 1);
    }
  }

  /* ---- the two methods together ---- */

  lemma {:induction false} FlattenDeclared(fs: seq<Field>)
    requires Declared(fs)
    ensures forall i :: 0 <= i < |Flatten(fs)| ==> DeclaredBase(Flatten(fs)[i].ty.base)
    decreases fs, 1
  {
    if fs != [] {
      DeclaredRest(fs);
      FlattenDeclared(fs[1..]);
      FlattenOneDeclared(fs[0]);
    }
  }

  lemma {:induction false} FlattenOneDeclared(f: Field)
    requires DeclaredBase(f.ty.base)
    ensures forall i :: 0 <= i < |FlattenOne(f)| ==> DeclaredBase(FlattenOne(f)[i].ty.base)
    decreases f, 0
  {
    if IsEmbedded(f.ty) {
      FlattenDeclared(f.ty.base.fields);
      var sub, r := Flatten(f.ty.base.fields), FlattenOne(f);
      forall i | 0 <= i < |r| ensures DeclaredBase(r[i].ty.base) { assert r[i].ty == sub[i].ty; }
    }
  }

  lemma {:induction false} NormSlotsAt(fs: seq<Field>, t: Tree, i: nat)
    requires FieldsValue(fs, t) && OneComponent(fs) && DistinctPaths(fs) && i < |fs|
    ensures FieldAt(fs[i], t) && fs[i].path[0] in NormSlots(fs, t)
    ensures NormSlots(fs, t)[fs[i].path[0]] == NormField(fs[i].ty, Get(t, fs[i].path).value)
    decreases fs
  {
    FieldsValueRest(fs, t);
    if i > 0 {
      assert forall k :: 0 <= k < |fs[1..]| ==> fs[1..][k] == fs[k + 1];
      NormSlotsAt(fs[1..], t, i - 1);
      assert fs[0].path != fs[i].path;
      assert fs[0].path == [fs[0].path[0]] && fs[i].path == [fs[i].path[0]];
    }
  }

  lemma ClockFieldValue(kind: Kind, fs: seq<Field>, t: Tree)
    requires fs == (if kind == Time then TIME_FIELDS else DURATION_FIELDS)
    requires BaseValue(Msg(kind, fs), t)
    ensures ClockValue(t) && NormBase(Msg(kind, fs), t) == t
  {
    var p := if kind == Time then UInt32 else Int32;
    assert fs[0] == Field(["secs"], One(Prim(p))) && fs[1] == Field(["nsecs"], One(Prim(p)));
    assert FieldAt(fs[0], t) && FieldAt(fs[1], t);
    assert ["secs"][1..] == [] && ["nsecs"][1..] == [];
    assert fs[1..] == [fs[1]] && fs[1..][1..] == [];
    assert SlotNames(fs[1..]) == {"nsecs"};
    assert SlotNames(fs) == {"secs", "nsecs"};
    assert NormSlots(fs, t) == t.fs;
  }

  /** The clocks of a deserialized message are the clocks of the message. */
  lemma ClocksOfNorm(fs: seq<Field>, t: Tree)
    requires Declared(fs) && HasSlots(fs, t) && FieldsValue(fs, t)
    ensures ClocksIn(fs, Obj(NormSlots(fs, t)))
    ensures CanonicalClocks(fs, Obj(NormSlots(fs, t))) <==> CanonicalClocks(fs, t)
  {
    var n := Obj(NormSlots(fs, t));
    forall i | 0 <= i < |fs| && IsClock(fs[i].ty)
      ensures Get(n, fs[i].path) == Get(t, fs[i].path)
      ensures Get(t, fs[i].path).Some? && ClockValue(Get(t, fs[i].path).value)
    {
      NormSlotsAt(fs, t, i);
      assert fs[i].path == [fs[i].path[0]] && fs[i].path[1..] == [];
      assert DeclaredBase(fs[i].ty.base);
      ClockFieldValue(fs[i].ty.base.kind, fs[i].ty.base.fields, Get(t, fs[i].path).value);
    }
  }

  /** The fields from a fresh start of `end`. */
  lemma RunRead(fs: seq<Field>, st: State, o: Tree, v: Tree, cnt: nat)
    requires Declared(fs) && HasSlots(fs, o) && AllReady(fs, o) && FieldsValue(fs, v) && SafeInFields(Reading, fs, v)
    requires Self in st.vars && st.vars[Self] == Own(o) && IntOf(st.vars, End) == Some(0)
    requires At(st.input, 0, WireFields(fs, v))
    ensures var r := Exec(GenBody(false, Self, Flatten(fs), 1, cnt).code, st);
      && r.Some? && Self in r.value.vars && r.value.vars[Self] == Own(Obj(NormSlots(fs, v)))
      && IntOf(r.value.vars, End) == Some(|WireFields(fs, v)|)
  {
    hide Exec, WireFields, Fill, NormSlots, At, FieldsValue, SafeInFields;
    FlattenWire(fs, v);
    FlattenReady(fs, o);
    FlattenFlat(fs);
    FlattenSafe(Reading, fs, v);
    FlattenDeclared(fs);
    assert Get(o, []) == Some(o);
    ReadFields(Self, Self, [], Flatten(fs), st, o, v, 1, cnt);
    FillFlatten(o, fs, v);
    FillIsNorm(fs, o, v);
  }

  /** An unsafe array stops them. */
  lemma RunReadFails(fs: seq<Field>, st: State, o: Tree, v: Tree, cnt: nat)
    requires Declared(fs) && HasSlots(fs, o) && AllReady(fs, o) && FieldsValue(fs, v) && !SafeInFields(Reading, fs, v)
    requires Self in st.vars && st.vars[Self] == Own(o) && IntOf(st.vars, End) == Some(0)
    requires At(st.input, 0, WireFields(fs, v))
    ensures Exec(GenBody(false, Self, Flatten(fs), 1, cnt).code, st).None?
  {
    hide Exec, WireFields, Fill, At, FieldsValue, SafeInFields, GenFields;
    FlattenWire(fs, v);
    FlattenReady(fs, o);
    FlattenFlat(fs);
    FlattenSafe(Reading, fs, v);
    FlattenDeclared(fs);
    assert Get(o, []) == Some(o);
    FailFields(Self, Self, [], Flatten(fs), st, o, v, 1, cnt);
  }

  /** Up to the fields, `deserialize` only constructs what is missing. */
  lemma RunToFields(fs: seq<Field>, st: State, o: Tree, v: Tree) returns (s: State, o1: Tree)
    requires Declared(fs) && HasSlots(fs, o) && Constructible(fs, o) && FieldsValue(fs, v)
    requires Self in st.vars && st.vars[Self] == Own(o) && st.input == WireFields(fs, v)
    ensures Exec(EnsureObjects(fs) + [StartOver], st) == Some(s)
    ensures HasSlots(fs, o1) && AllReady(fs, o1)
    ensures Self in s.vars && s.vars[Self] == Own(o1) && IntOf(s.vars, End) == Some(0)
    ensures At(s.input, 0, WireFields(fs, v))
  {
    hide Exec, WireFields, FieldsValue, Constructible, Ensured, Declared, EnsureObjects;
    RunEnsure(fs, st, o);
    EnsuredReady(fs, o);
    o1 := Ensured(fs, o);
    var s1 := Exec(EnsureObjects(fs), st).value;
    ExecOne(StartOver, s1);
    s := s1.(vars := Bind(s1.vars, End, Int(0)));
    ExecAppend(EnsureObjects(fs), [StartOver], st);
    assert WireFields(fs, v)[0..] == WireFields(fs, v);
  }

  /**
   Running the emitted `deserialize` body on the wire image of any well-typed message with
   arrays safe to read, in any object of its class, leaves that object equal to the message (with
   byte arrays as byte strings and the top-level times canonicalized) and `end` at the number of
   bytes.
   */
  lemma DeserializeReadsWire(fs: seq<Field>, v: Tree, st: State, o: Tree, cnt: nat)
    requires Declared(fs)
    requires HasSlots(fs, v) && FieldsValue(fs, v) && SafeInFields(Reading, fs, v)
    requires HasSlots(fs, o) && Constructible(fs, o)
    requires Self in st.vars && st.vars[Self] == Own(o) && st.input == WireFields(fs, v)
    ensures var r := Exec(DeserializeCode(fs, cnt), st);
      && r.Some? && Self in r.value.vars
      && r.value.vars[Self] == Own(CanonFields(fs, Obj(NormSlots(fs, v))))
      && IntOf(r.value.vars, End) == Some(|WireFields(fs, v)|)
  {
    hide Exec, WireFields, NormSlots, FieldsValue, Constructible, CanonFields, Declared, GenBody, At;
    hide CanonCalls, EnsureObjects, SafeInFields;
    var s2, o1 := RunToFields(fs, st, o, v);
    RunRead(fs, s2, o1, v, cnt);
    var body := GenBody(false, Self, Flatten(fs), 1, cnt).code;
    var s3 := Exec(body, s2).value;
    DeclaredPrefixFree(fs);
    ClocksOfNorm(fs, v);
    RunCanon(fs, s3, Obj(NormSlots(fs, v)));
    ExecAppend(EnsureObjects(fs) + [StartOver], body, st);
    ExecAppend(EnsureObjects(fs) + [StartOver] + body, CanonCalls(fs), st);
  }

  /**
   The exact condition: the emitted `deserialize` reads a wire image if and only if no fixed
   array of simple values that are not bytes, wherever one is present, has a length whose
   decimal text loses digits. Otherwise it raises an exception.
   */
  lemma DeserializeReadsWireIff(fs: seq<Field>, v: Tree, st: State, o: Tree, cnt: nat)
    requires Declared(fs)
    requires HasSlots(fs, v) && FieldsValue(fs, v)
    requires HasSlots(fs, o) && Constructible(fs, o)
    requires Self in st.vars && st.vars[Self] == Own(o) && st.input == WireFields(fs, v)
    ensures var r := Exec(DeserializeCode(fs, cnt), st);
      && (r.Some? <==> SafeInFields(Reading, fs, v))
      && (r.Some? ==> Self in r.value.vars
                      && r.value.vars[Self] == Own(CanonFields(fs, Obj(NormSlots(fs, v))))
                      && IntOf(r.value.vars, End) == Some(|WireFields(fs, v)|))
  {
    hide Exec, WireFields, NormSlots, FieldsValue, Constructible, CanonFields, Declared, GenBody, At;
    hide CanonCalls, EnsureObjects, SafeInFields;
    if SafeInFields(Reading, fs, v) {
      DeserializeReadsWire(fs, v, st, o, cnt);
    } else {
      var s2, o1 := RunToFields(fs, st, o, v);
      RunReadFails(fs, s2, o1, v, cnt);
      var body := GenBody(false, Self, Flatten(fs), 1, cnt).code;
      FailsThen(EnsureObjects(fs) + [StartOver], body, st);
      FailsFirst(EnsureObjects(fs) + [StartOver] + body, CanonCalls(fs), st);
    }
  }

  /** A fixed byte array of 99 elements is read though it is not written; one of int32 is not read. */
  lemma NinetyNineBytesRead()
    ensures SafeLength(Reading, Fixed(Prim(UInt8), 99)) && !SafeLength(Writing, Fixed(Prim(UInt8), 99))
    ensures !SafeLength(Reading, Fixed(Prim(Int32), 99))
  {
    assert Decimal(9) == "9" && Decimal(99) == "99";
    assert NinePairAt("99", 0);
  }

  /**
   Round trip: serialize any well-typed message whose arrays have safe lengths, deserialize the
   buffer into any object of the class. All bytes are read, and the object comes back as the
   message itself, byte arrays as byte strings, exactly when the top-level times are canonical.
   */
  lemma SerializeThenDeserialize(fs: seq<Field>, v: Tree, o: Tree, vars: Store, cnt: nat, cnt': nat)
    requires Declared(fs)
    requires HasSlots(fs, v) && FieldsValue(fs, v) && SafeInFields(Writing, fs, v)
    requires HasSlots(fs, o) && Constructible(fs, o)
    ensures var s := Exec(SerializeCode(fs, cnt), State(vars[Self := Own(v)], [], []));
      && s.Some?
      && var d := Exec(DeserializeCode(fs, cnt'), State(vars[Self := Own(o)], [], s.value.buff));
         && d.Some? && IntOf(d.value.vars, End) == Some(|s.value.buff|)
         && Self in d.value.vars && d.value.vars[Self] == Own(CanonFields(fs, Obj(NormSlots(fs, v))))
         && (d.value.vars[Self] == Own(Obj(NormSlots(fs, v))) <==> CanonicalClocks(fs, v))
  {
    hide Exec, WireFields, NormSlots, FieldsValue, Constructible, CanonFields, SerializeCode, DeserializeCode;
    hide SafeInFields;
    var st := State(vars[Self := Own(v)], [], []);
    SerializeWritesWireIff(fs, v, st, cnt);
    var bytes := Exec(SerializeCode(fs, cnt), st).value.buff;
    assert bytes == WireFields(fs, v);
    WritableReadable(fs, v);
    DeserializeReadsWire(fs, v, State(vars[Self := Own(o)], [], bytes), o, cnt');
    DeclaredPrefixFree(fs);
    ClocksOfNorm(fs, v);
    CanonFieldsIff(fs, Obj(NormSlots(fs, v)));
  }

  /** With an unsafe length in the message, serializing raises an exception or loses bytes. */
  lemma UnsafeLosesBytes(fs: seq<Field>, v: Tree, vars: Store, cnt: nat)
    requires HasSlots(fs, v) && FieldsValue(fs, v) && !SafeInFields(Writing, fs, v)
    ensures var s := Exec(SerializeCode(fs, cnt), State(vars[Self := Own(v)], [], []));
      s.None? || |s.value.buff| < |WireFields(fs, v)|
  {
    hide Exec, WireFields, FieldsValue, SerializeCode, SafeInFields, WrittenFields;
    SerializeWrites(fs, v, State(vars[Self := Own(v)], [], []), cnt);
    FieldsFaithful(fs, v);
  }

  /* ---- when the value itself comes back ---- */

  /** Every byte array is held as a byte string. */
  predicate PackedBase(b: Base, t: Tree)
    requires BaseValue(b, t)
    decreases b, 1
  {
    b.Msg? ==> PackedFields(b.fields, t)
  }

  predicate PackedField(ty: FieldType, t: Tree)
    requires FieldValue(ty, t)
    decreases ty, 0
  {
    if ty.One? then PackedBase(ty.base, t)
    else if IsByteArray(ty) then t.Bytes?
    else forall i :: 0 <= i < |t.es| ==> BaseValue(ty.base, t.es[i]) && PackedBase(ty.base, t.es[i])
  }

  predicate PackedFields(fs: seq<Field>, t: Tree)
    requires FieldsValue(fs, t)
    decreases fs, 0
  {
    forall i :: 0 <= i < |fs| ==> FieldAt(fs[i], t) && PackedField(fs[i].ty, Get(t, fs[i].path).value)
  }

  lemma {:induction false} NormBaseIff(b: Base, t: Tree)
    requires BaseValue(b, t) && DeclaredBase(b)
    ensures NormBase(b, t) == t <==> PackedBase(b, t)
    decreases b, 1
  {
    if b.Msg? {
      NormSlotsIff(b.fields, t);
    }
  }

  lemma {:induction false} NormFieldIff(ty: FieldType, t: Tree)
    requires FieldValue(ty, t) && DeclaredBase(ty.base)
    ensures NormField(ty, t) == t <==> PackedField(ty, t)
    decreases ty, 0
  {
    if ty.One? {
      NormBaseIff(ty.base, t);
    } else if !IsByteArray(ty) {
      forall i | 0 <= i < |t.es|
        ensures BaseValue(ty.base, t.es[i])
        ensures NormBase(ty.base, t.es[i]) == t.es[i] <==> PackedBase(ty.base, t.es[i])
      {
        assert BaseValue(ty.base, t.es[i]);
        NormBaseIff(ty.base, t.es[i]);
      }
      var r := NormElements(ty.base, t.es);
      if r == t.es {
        forall i | 0 <= i < |t.es| ensures PackedBase(ty.base, t.es[i]) { assert r[i] == t.es[i]; }
      }
      if forall i :: 0 <= i < |t.es| ==> PackedBase(ty.base, t.es[i]) {
        assert forall i :: 0 <= i < |t.es| ==> r[i] == t.es[i];
        assert r == t.es;
      }
    }
  }

  /** Normalizing changes a message exactly when it holds a byte array as a list. */
  lemma {:induction false} NormSlotsIff(fs: seq<Field>, t: Tree)
    requires Declared(fs) && HasSlots(fs, t) && FieldsValue(fs, t)
    ensures Obj(NormSlots(fs, t)) == t <==> PackedFields(fs, t)
    decreases fs, 0
  {
    var m := NormSlots(fs, t);
    forall i | 0 <= i < |fs|
      ensures FieldAt(fs[i], t) && Get(t, fs[i].path).value == t.fs[fs[i].path[0]]
      ensures m[fs[i].path[0]] == t.fs[fs[i].path[0]] <==> PackedField(fs[i].ty, Get(t, fs[i].path).value)
    {
      NormSlotsAt(fs, t, i);
      assert fs[i].path == [fs[i].path[0]] && fs[i].path[1..] == [];
      NormFieldIff(fs[i].ty, Get(t, fs[i].path).value);
    }
    if PackedFields(fs, t) {
      forall k | k in m ensures m[k] == t.fs[k] {
        var i := SlotIndex(fs, k);
        assert m[fs[i].path[0]] == t.fs[fs[i].path[0]];
      }
      assert m == t.fs;
    }
  }

  lemma {:induction false} SlotIndex(fs: seq<Field>, k: string) returns (i: nat)
    requires k in SlotNames(fs)
    ensures i < |fs| && fs[i].path != [] && fs[i].path[0] == k
    decreases fs
  {
    if fs[0].path != [] && fs[0].path[0] == k {
      i := 0;
    } else {
      i := SlotIndex(fs[1..], k);
      i := i + 1;
    }
  }

  /** The very same value comes back, for canonical clocks and byte strings. */
  lemma SameValueComesBack(fs: seq<Field>, v: Tree, vars: Store, cnt: nat, cnt': nat)
    requires Declared(fs) && HasSlots(fs, v) && FieldsValue(fs, v) && SafeInFields(Writing, fs, v)
    requires CanonicalClocks(fs, v) && PackedFields(fs, v)
    ensures var s := Exec(SerializeCode(fs, cnt), State(vars[Self := Own(v)], [], []));
      && s.Some?
      && var d := Exec(DeserializeCode(fs, cnt'), State(vars[Self := Own(NewObject(fs))], [], s.value.buff));
         d.Some? && Self in d.value.vars && d.value.vars[Self] == Own(v)
  {
    hide Exec, WireFields, NormSlots, FieldsValue, SerializeCode, DeserializeCode, CanonicalClocks, PackedFields;
    NewObjectShaped(fs);
    NormSlotsIff(fs, v);
    SerializeThenDeserialize(fs, v, NewObject(fs), vars, cnt, cnt');
  }

  /* ---- a time that does not come back ---- */

  const STAMPED := [Field(["stamp"], One(Msg(Time, TIME_FIELDS)))]

  /** One second, written as nanoseconds. */
  const LATE := Obj(map["stamp" := Obj(map["secs" := Num(0), "nsecs" := Num(BILLION)])])

  lemma StampedDeclared()
    ensures Declared(STAMPED) && Declared(TIME_FIELDS)
  {
    assert DistinctPaths(TIME_FIELDS) && Declared(TIME_FIELDS);
  }

  lemma StampedValue()
    ensures HasSlots(STAMPED, LATE) && FieldsValue(STAMPED, LATE)
  {
    hide SimpleValue;
    var t := LATE.fs["stamp"];
    assert STAMPED[1..] == [] && TIME_FIELDS[1..] == [TIME_FIELDS[1]] && TIME_FIELDS[1..][1..] == [];
    assert Get(LATE, ["stamp"]) == Some(t);
    assert Get(t, ["secs"]) == Some(Num(0)) && Get(t, ["nsecs"]) == Some(Num(BILLION));
    assert SlotNames(TIME_FIELDS[1..]) == {"nsecs"};
    assert SlotNames(TIME_FIELDS) == {"secs", "nsecs"};
    WordFits(0);
    WordFits(BILLION);
    assert FieldAt(TIME_FIELDS[0], t) && FieldAt(TIME_FIELDS[1], t);
    assert BaseValue(Msg(Time, TIME_FIELDS), t);
  }

  lemma WordFits(n: nat)
    requires n < MAX_LEN
    ensures SimpleValue(UInt32, Num(n))
  {
    assert Pow256(4) == 256 * Pow256(3) == 65536 * Pow256(2) == 0x100_0000 * Pow256(1);
  }

  lemma LateSafe()
    requires FieldsValue(STAMPED, LATE)
    ensures SafeInFields(Writing, STAMPED, LATE)
  {
    var t := LATE.fs["stamp"];
    assert FieldAt(STAMPED[0], LATE) && Get(LATE, ["stamp"]) == Some(t);
    assert FieldAt(TIME_FIELDS[0], t) && FieldAt(TIME_FIELDS[1], t);
    assert SafeInField(Writing, TIME_FIELDS[0].ty, Get(t, ["secs"]).value);
    assert SafeInField(Writing, TIME_FIELDS[1].ty, Get(t, ["nsecs"]).value);
    assert SafeInBase(Writing, Msg(Time, TIME_FIELDS), t);
  }

  /** It is written and read without an exception, and comes back as one second. */
  lemma LateTimeChanges(vars: Store, cnt: nat, cnt': nat)
    ensures var s := Exec(SerializeCode(STAMPED, cnt), State(vars[Self := Own(LATE)], [], []));
      && s.Some?
      && var d := Exec(DeserializeCode(STAMPED, cnt'), State(vars[Self := Own(NewObject(STAMPED))], [], s.value.buff));
         && d.Some? && Self in d.value.vars
         && d.value.vars[Self] == Own(Obj(map["stamp" := Obj(map["secs" := Num(1), "nsecs" := Num(0)])]))
  {
    hide Exec, SerializeCode, DeserializeCode, FieldsValue, SafeInFields, NewObject, NormSlots;
    hide CanonicalClocks, CanonFields;
    LateCanon();
    StampedDeclared();
    StampedValue();
    LateSafe();
    LateNormal();
    NewObjectShaped(STAMPED);
    SerializeThenDeserialize(STAMPED, LATE, NewObject(STAMPED), vars, cnt, cnt');
  }

  lemma LateCanon()
    ensures CanonFields(STAMPED, LATE) == Obj(map["stamp" := Obj(map["secs" := Num(1), "nsecs" := Num(0)])])
  {
    var t, u := LATE.fs["stamp"], Obj(map["secs" := Num(1), "nsecs" := Num(0)]);
    assert Get(LATE, ["stamp"]) == Some(t);
    assert CanonTime(t).value.fs == u.fs;
    assert Put(LATE, ["stamp"], u) == Obj(map["stamp" := u]);
    assert STAMPED[1..] == [];
    assert CanonFields([], Put(LATE, ["stamp"], u)) == Put(LATE, ["stamp"], u);
  }

  /** It is as deserialization would leave it, but for its nanoseconds. */
  lemma LateNormal()
    requires HasSlots(STAMPED, LATE) && FieldsValue(STAMPED, LATE)
    ensures Obj(NormSlots(STAMPED, LATE)) == LATE && !CanonicalClocks(STAMPED, LATE)
  {
    hide BaseValue;
    var t := LATE.fs["stamp"];
    assert FieldAt(STAMPED[0], LATE) && Get(LATE, ["stamp"]) == Some(t);
    ClockFieldValue(Time, TIME_FIELDS, t);
    NormSlotsAt(STAMPED, LATE, 0);
    assert IsClock(STAMPED[0].ty) && !IsCanonical(t);
  }

  /* ---- what the emitted code writes, on an example ---- */

  /** A 16-bit minus two, the string "hi" and the array 258, 3. */
  lemma MixedWritten(vars: Store, cnt: nat)
    ensures var s := Exec(SerializeCode(MIXED, cnt), State(vars[Self := Own(MIXED_VALUE)], [], []));
      s.Some? && s.value.buff == [254, 255, 2, 0, 0, 0, 104, 105, 2, 0, 0, 0, 2, 1, 3, 0]
  {
    hide Exec, SerializeCode, FieldsValue, WireFields;
    MixedOnWire();
    assert SafeFields(MIXED);
    SerializeWritesWire(MIXED, MIXED_VALUE, State(vars[Self := Own(MIXED_VALUE)], [], []), cnt);
  }
}
