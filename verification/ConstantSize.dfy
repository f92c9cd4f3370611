/** Exactly which messages take the same number of bytes whatever they hold. */
module ConstantSize {
  import opened Common
  import opened WireTypes
  import opened FixedSize

  /* ---- the condition ---- */

  /** The fewest bytes a value can take: empty strings and arrays. */
  function LeastBase(b: Base): nat
    decreases b, 1
  {
    match b
    case Prim(p) => CodeSize(Code(p))
    case Str => 4
    case Msg(_, fields) => Least(fields)
  }

  function LeastField(ty: FieldType): nat
    decreases ty, 0
  {
    match ty
    case One(b) => LeastBase(b)
    case Fixed(b, n) => n * LeastBase(b)
    case Varying(_) => 4
  }

  function Least(fs: seq<Field>): nat
    decreases fs, 0
  {
    if fs == [] then 0 else LeastField(fs[0].ty) + Least(fs[1..])
  }

  /**
   No string, and no array without a length unless its elements take no bytes; what an array of
   length zero would hold does not matter.
   */
  predicate ConstantBase(b: Base)
    decreases b, 1
  {
    match b
    case Prim(_) => true
    case Str => false
    case Msg(_, fields) => Constant(fields)
  }

  predicate ConstantField(ty: FieldType)
    decreases ty, 0
  {
    match ty
    case One(b) => ConstantBase(b)
    case Fixed(b, n) => n == 0 || ConstantBase(b)
    case Varying(b) => LeastBase(b) == 0
  }

  predicate Constant(fs: seq<Field>)
    decreases fs, 0
  {
    fs == [] || (ConstantField(fs[0].ty) && Constant(fs[1..]))
  }

  /** The size of no bytes is constant. */
  lemma {:induction false} NoBytesConstant(b: Base)
    requires LeastBase(b) == 0
    ensures ConstantBase(b)
    decreases b, 1
  {
    match b
    case Prim(_) =>
    case Msg(_, fields) => NoFieldBytesConstant(fields);
  }

  lemma {:induction false} NoFieldBytesConstant(fs: seq<Field>)
    requires Least(fs) == 0
    ensures Constant(fs)
    decreases fs, 0
  {
    if fs != [] {
      var ty := fs[0].ty;
      assert LeastField(ty) == 0;
      if ty.One? || (ty.Fixed? && ty.len != 0) {
        NoBytesConstant(ty.base);
      }
      NoFieldBytesConstant(fs[1..]);
    }
  }

  /* ---- constant means constant ---- */

  lemma {:induction false} BaseTakes(b: Base, t: Tree)
    requires ConstantBase(b) && BaseValue(b, t)
    ensures |WireBase(b, t)| == LeastBase(b)
    decreases b, 1, 0
  {
    match b
    case Prim(_) =>
    case Msg(_, fields) => FieldsTake(fields, t);
  }

  lemma {:induction false} ElementsTake(b: Base, es: seq<Tree>)
    requires ConstantBase(b) && ElementsValue(b, es)
    ensures |WireElements(b, es)| == |es| * LeastBase(b)
    decreases b, 2, |es|
  {
    hide ConstantBase, BaseValue, LeastBase, WireBase;
    if es != [] {
      BaseTakes(b, es[0]);
      ElementsTake(b, es[1..]);
      assert |es| * LeastBase(b) == LeastBase(b) + (|es| - 1) * LeastBase(b);
    }
  }

  lemma {:induction false} FieldTakes(ty: FieldType, t: Tree)
    requires ConstantField(ty) && FieldValue(ty, t)
    ensures |WireField(ty, t)| == LeastField(ty)
    decreases ty, 0, 0
  {
    hide ConstantBase, BaseValue, WireBase, ElementsValue, WireElements;
    match ty
    case One(b) => BaseTakes(b, t);
    case Fixed(b, n) =>
      if t.List? && n > 0 {
        ElementsTake(b, t.es);
      } else if t.List? {
        NoElements(b, t.es);
      } else {
        assert LeastBase(b) == 1 && |t.bs| == n;
      }
    case Varying(b) =>
      assert t.List?;
      NoBytesConstant(b);
      ElementsTake(b, t.es);
  }

  lemma NoElements(b: Base, es: seq<Tree>)
    requires es == []
    ensures ElementsValue(b, es) && WireElements(b, es) == []
  {
  }

  lemma {:induction false} FieldsTake(fs: seq<Field>, t: Tree)
    requires Constant(fs) && FieldsValue(fs, t)
    ensures |WireFields(fs, t)| == Least(fs)
    decreases fs, 0, 0
  {
    hide WireField, FieldValue, LeastField, ConstantField;
    if fs != [] {
      assert FieldAt(fs[0], t);
      FieldTakes(fs[0].ty, Get(t, fs[0].path).value);
      ValueRest(fs, t);
      FieldsTake(fs[1..], t);
    }
  }

  lemma ValueRest(fs: seq<Field>, t: Tree)
    requires FieldsValue(fs, t) && fs != []
    ensures FieldsValue(fs[1..], t)
  {
    hide FieldAt;
    assert forall i :: 0 <= i < |fs[1..]| ==> fs[1..][i] == fs[i + 1];
  }

  /* ---- otherwise two messages differ in length ---- */

  /** Zeros throughout, with k bytes in every string and k elements in every array without a length. */
  function SampleBase(b: Base, k: nat): Tree
    decreases b, 1
  {
    match b
    case Prim(_) => Num(0)
    case Str => Bytes(Repeat(0, k))
    case Msg(_, fields) => Obj(SampleSlots(fields, k))
  }

  function SampleField(ty: FieldType, k: nat): Tree
    decreases ty, 0
  {
    match ty
    case One(b) => SampleBase(b, k)
    case Fixed(b, n) => List(Repeat(SampleBase(b, k), n))
    case Varying(b) => List(Repeat(SampleBase(b, k), k))
  }

  function SampleSlots(fs: seq<Field>, k: nat): map<string, Tree>
    decreases fs, 0
  {
    if fs == [] then map[]
    else
      var rest := SampleSlots(fs[1..], k);
      if fs[0].path == [] then rest else rest[fs[0].path[0] := SampleField(fs[0].ty, k)]
  }

  lemma {:induction false} SampleKeys(fs: seq<Field>, k: nat)
    ensures SampleSlots(fs, k).Keys == SlotNames(fs)
    decreases fs
  {
    hide SampleField;
    if fs != [] {
      SampleKeys(fs[1..], k);
    }
  }

  lemma {:induction false} SampleAt(fs: seq<Field>, k: nat, i: nat)
    requires i < |fs| && DistinctPaths(fs) && OneComponent(fs)
    ensures var m := SampleSlots(fs, k); fs[i].path[0] in m && m[fs[i].path[0]] == SampleField(fs[i].ty, k)
    decreases fs
  {
    hide SampleField;
    if i > 0 {
      assert forall j :: 0 <= j < |fs[1..]| ==> fs[1..][j] == fs[j + 1];
      SampleAt(fs[1..], k, i - 1);
      assert fs[0].path != fs[i].path;
      assert fs[0].path == [fs[0].path[0]] && fs[i].path == [fs[i].path[0]];
    }
  }

  /** The object has the sample of every field. */
  predicate Holds(fs: seq<Field>, t: Tree, k: nat) {
    forall i :: 0 <= i < |fs| ==> Get(t, fs[i].path) == Some(SampleField(fs[i].ty, k))
  }

  lemma SampleHolds(fs: seq<Field>, k: nat)
    requires Declared(fs)
    ensures HasSlots(fs, Obj(SampleSlots(fs, k))) && Holds(fs, Obj(SampleSlots(fs, k)), k)
  {
    hide SampleField, SampleSlots, DeclaredBase;
    SampleKeys(fs, k);
    var t := Obj(SampleSlots(fs, k));
    forall i | 0 <= i < |fs| ensures Get(t, fs[i].path) == Some(SampleField(fs[i].ty, k)) {
      SampleAt(fs, k, i);
      assert fs[i].path == [fs[i].path[0]] && fs[i].path[1..] == [];
    }
  }

  lemma {:induction false} SampleBaseValue(b: Base, k: nat)
    requires DeclaredBase(b) && k < MAX_LEN
    ensures BaseValue(b, SampleBase(b, k))
    decreases b, 1
  {
    hide Declared;
    match b
    case Prim(p) => ZeroFits(p);
    case Str =>
    case Msg(_, fields) =>
      SampleHolds(fields, k);
      SampleValue(fields, SampleBase(b, k), k);
  }

  lemma ZeroFits(p: Simple)
    ensures SimpleValue(p, Num(0))
  {
  }

  lemma {:induction false} SampleValue(fs: seq<Field>, t: Tree, k: nat)
    requires Declared(fs) && k < MAX_LEN && Holds(fs, t, k)
    ensures FieldsValue(fs, t)
    decreases fs, 0
  {
    hide FieldValue, SampleField;
    forall i | 0 <= i < |fs| ensures FieldAt(fs[i], t) {
      assert Get(t, fs[i].path) == Some(SampleField(fs[i].ty, k));
      SampleBaseValue(fs[i].ty.base, k);
      SampleFieldValue(fs[i].ty, k);
    }
  }

  lemma SampleFieldValue(ty: FieldType, k: nat)
    requires BaseValue(ty.base, SampleBase(ty.base, k)) && k < MAX_LEN
    ensures FieldValue(ty, SampleField(ty, k))
  {
    hide BaseValue, SampleBase;
    var x := SampleBase(ty.base, k);
    assert ElementsValue(ty.base, Repeat(x, k));
    if ty.Fixed? {
      assert ElementsValue(ty.base, Repeat(x, ty.len));
    }
  }

  /* ---- how long the samples are ---- */

  lemma {:induction false} CopiesTake(b: Base, x: Tree, n: nat)
    requires BaseValue(b, x)
    ensures ElementsValue(b, Repeat(x, n)) && |WireElements(b, Repeat(x, n))| == n * |WireBase(b, x)|
    decreases n
  {
    hide BaseValue, WireBase;
    if n > 0 {
      CopiesTake(b, x, n - 1);
      assert Repeat(x, n)[1..] == Repeat(x, n - 1);
      assert n * |WireBase(b, x)| == |WireBase(b, x)| + (n - 1) * |WireBase(b, x)|;
    }
  }

  /** The empty sample takes the fewest bytes, the full one more, unless the size is constant. */
  lemma {:induction false} BaseGrows(b: Base)
    requires DeclaredBase(b)
    ensures BaseValue(b, SampleBase(b, 0)) && BaseValue(b, SampleBase(b, 1))
    ensures |WireBase(b, SampleBase(b, 0))| == LeastBase(b) <= |WireBase(b, SampleBase(b, 1))|
    ensures |WireBase(b, SampleBase(b, 1))| == LeastBase(b) <==> ConstantBase(b)
    decreases b, 1
  {
    hide Declared, SampleSlots, WireFields, FieldsValue;
    SampleBaseValue(b, 0);
    SampleBaseValue(b, 1);
    match b
    case Prim(_) =>
    case Str =>
    case Msg(_, fields) =>
      SampleHolds(fields, 0);
      SampleHolds(fields, 1);
      FieldsGrow(fields, SampleBase(b, 0), SampleBase(b, 1));
  }

  lemma {:induction false} FieldGrows(ty: FieldType)
    requires DeclaredBase(ty.base)
    ensures FieldValue(ty, SampleField(ty, 0)) && FieldValue(ty, SampleField(ty, 1))
    ensures |WireField(ty, SampleField(ty, 0))| == LeastField(ty) <= |WireField(ty, SampleField(ty, 1))|
    ensures |WireField(ty, SampleField(ty, 1))| == LeastField(ty) <==> ConstantField(ty)
    decreases ty, 0
  {
    hide DeclaredBase, BaseValue, WireBase, SampleBase, LeastBase, ConstantBase, WireElements, ElementsValue;
    var b := ty.base;
    var x, y := SampleBase(b, 0), SampleBase(b, 1);
    BaseGrows(b);
    match ty
    case One(_) =>
    case Fixed(_, n) =>
      CopiesTake(b, x, n);
      CopiesTake(b, y, n);
      MoreOrLess(n, LeastBase(b), |WireBase(b, y)|);
    case Varying(_) =>
      CopiesTake(b, x, 0);
      CopiesTake(b, y, 1);
      if LeastBase(b) == 0 {
        NoBytesConstant(b);
      }
  }

  lemma MoreOrLess(n: nat, a: nat, b: nat)
    requires a <= b
    ensures n * a <= n * b && (n * a == n * b <==> n == 0 || a == b)
  {
    assert n * b == n * a + n * (b - a);
    if n > 0 && b > a {
      assert n * (b - a) > 0;
    }
  }

  lemma {:induction false} FieldsGrow(fs: seq<Field>, t: Tree, u: Tree)
    requires Declared(fs) && Holds(fs, t, 0) && Holds(fs, u, 1)
    ensures FieldsValue(fs, t) && FieldsValue(fs, u)
    ensures |WireFields(fs, t)| == Least(fs) <= |WireFields(fs, u)|
    ensures |WireFields(fs, u)| == Least(fs) <==> Constant(fs)
    decreases fs, 0
  {
    hide WireField, FieldValue, SampleField, LeastField, ConstantField, DeclaredBase;
    SampleValue(fs, t, 0);
    SampleValue(fs, u, 1);
    if fs != [] {
      assert forall i :: 0 <= i < |fs[1..]| ==> fs[1..][i] == fs[i + 1];
      assert FieldAt(fs[0], t) && FieldAt(fs[0], u);
      FieldGrows(fs[0].ty);
      FieldsGrow(fs[1..], t, u);
    }
  }

  /** All messages of the type take the same number of bytes exactly when the condition holds. */
  lemma ConstantIff(fs: seq<Field>)
    requires Declared(fs)
    ensures Constant(fs) <==>
      forall t, u :: FieldsValue(fs, t) && FieldsValue(fs, u) ==> |WireFields(fs, t)| == |WireFields(fs, u)|
  {
    hide Constant, FieldsValue, WireFields, Least, SampleSlots, Declared;
    if Constant(fs) {
      forall t, u | FieldsValue(fs, t) && FieldsValue(fs, u) ensures |WireFields(fs, t)| == |WireFields(fs, u)| {
        FieldsTake(fs, t);
        FieldsTake(fs, u);
      }
    } else {
      SampleHolds(fs, 0);
      SampleHolds(fs, 1);
      FieldsGrow(fs, Obj(SampleSlots(fs, 0)), Obj(SampleSlots(fs, 1)));
    }
  }

  /* ---- the generators' predicate is stricter ---- */

  lemma {:induction false} FixedIsConstant(fs: seq<Field>)
    requires FixedCpp(fs) && Declared(fs)
    ensures Constant(fs)
    decreases fs
  {
    if fs != [] {
      var b := fs[0].ty.base;
      if b.Msg? {
        if b.kind != Regular {
          ClockFixed(b.fields);
        }
        FixedIsConstant(b.fields);
      }
      var r := fs[1..];
      assert forall i :: 0 <= i < |r| ==> r[i] == fs[i + 1];
      FixedIsConstant(r);
    }
  }

  /** An array of messages without fields always takes four bytes, but is not counted as fixed. */
  lemma EmptyMessagesConstant()
    ensures var fs := [Field(["a"], Varying(Msg(Regular, [])))]; Constant(fs) && !FixedCpp(fs)
  {
    var fs := [Field(["a"], Varying(Msg(Regular, [])))];
    assert fs[0].ty.Varying?;
    assert LeastBase(Msg(Regular, [])) == 0;
  }
}
