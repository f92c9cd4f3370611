/** The fixed-size analyses of the C++ and JavaScript generators, against the wire format. */
module FixedSize {
  import opened Common
  import opened WireTypes

  /** time and duration count as builtin types. */
  predicate IsBuiltin(b: Base) {
    !(b.Msg? && b.kind == Regular)
  }

  /* ---- the two predicates ---- */

  /** gencpp: no array without a length, no string, and the embedded messages likewise. */
  predicate FixedCpp(fs: seq<Field>)
    decreases fs
  {
    forall i :: 0 <= i < |fs| ==>
      !fs[i].ty.Varying? && !fs[i].ty.base.Str? && (IsBuiltin(fs[i].ty.base) || FixedCpp(fs[i].ty.base.fields))
  }

  /** gennodejs: an array whose length is zero counts as one without a length. */
  predicate FixedNode(fs: seq<Field>)
    decreases fs
  {
    forall i :: 0 <= i < |fs| ==>
      !NoLength(fs[i].ty) && !fs[i].ty.base.Str? && (IsBuiltin(fs[i].ty.base) || FixedNode(fs[i].ty.base.fields))
  }

  predicate NoLength(ty: FieldType) {
    ty.Varying? || (ty.Fixed? && ty.len == 0)
  }

  predicate NoZeroArrays(fs: seq<Field>)
    decreases fs
  {
    forall i :: 0 <= i < |fs| ==>
      !(fs[i].ty.Fixed? && fs[i].ty.len == 0) && (IsBuiltin(fs[i].ty.base) || NoZeroArrays(fs[i].ty.base.fields))
  }

  /** The two differ only in zero-length arrays. */
  lemma {:induction false} PredicatesAgree(fs: seq<Field>)
    ensures FixedNode(fs) <==> FixedCpp(fs) && NoZeroArrays(fs)
    decreases fs
  {
    forall i | 0 <= i < |fs| && !IsBuiltin(fs[i].ty.base)
      ensures FixedNode(fs[i].ty.base.fields) <==> FixedCpp(fs[i].ty.base.fields) && NoZeroArrays(fs[i].ty.base.fields)
    {
      PredicatesAgree(fs[i].ty.base.fields);
    }
  }

  /** is_fixed_length as it runs: the embedded types are collected, then looked into. */
  method IsFixedLength(fs: seq<Field>) returns (fixed: bool)
    ensures fixed == FixedCpp(fs)
    decreases fs
  {
    var types: seq<nat> := [];
    for i := 0 to |fs|
      invariant forall j :: 0 <= j < i ==> !fs[j].ty.Varying? && !fs[j].ty.base.Str?
      invariant forall j :: 0 <= j < i ==> (j in types <==> !IsBuiltin(fs[j].ty.base))
      invariant forall k :: 0 <= k < |types| ==> types[k] < i && !IsBuiltin(fs[types[k]].ty.base)
    {
      if fs[i].ty.Varying? {
        return false;
      }
      if fs[i].ty.base.Str? {
        return false;
      }
      if !IsBuiltin(fs[i].ty.base) {
        types := types + [i];
      }
    }
    for k := 0 to |types|
      invariant forall j :: 0 <= j < k ==> FixedCpp(fs[types[j]].ty.base.fields)
    {
      var inner := IsFixedLength(fs[types[k]].ty.base.fields);
      if !inner {
        return false;
      }
    }
    fixed := true;
  }

  /* ---- sizes ---- */

  /** get_type_size; strings have none. */
  function TypeSize(b: Base): Option<nat>
    requires IsBuiltin(b)
  {
    match b
    case Prim(p) => (
      match p
      case Int8 | UInt8 | Byte_ | Bool | Char => Some(1)
      case Int16 | UInt16 => Some(2)
      case Int32 | UInt32 | Float32 => Some(4)
      case Int64 | UInt64 | Float64 => Some(8)
    )
    case Str => None
    case Msg(_, _) => Some(8)
  }

  function Times(ty: FieldType): nat {
    if ty.Fixed? then ty.len else 1
  }

  /** The size on the wire of a value of fixed size. */
  function BaseSize(b: Base): nat
    decreases b, 1
  {
    match b
    case Prim(p) => CodeSize(Code(p))
    case Str => 0
    case Msg(_, fields) => WireSize(fields)
  }

  function WireSize(fs: seq<Field>): nat
    decreases fs, 0
  {
    if fs == [] then 0 else Times(fs[0].ty) * BaseSize(fs[0].ty.base) + WireSize(fs[1..])
  }

  /** What get_message_fixed_size adds up: embedded messages once, array or not. */
  function NodeFieldSize(ty: FieldType): nat
    decreases ty, 1
  {
    if !IsBuiltin(ty.base) then NodeSize(ty.base.fields)
    else
      var size := TypeSize(ty.base);
      if size.None? then 0 else Times(ty) * size.value
  }

  function NodeSize(fs: seq<Field>): nat
    decreases fs, 0
  {
    if fs == [] then 0 else NodeFieldSize(fs[0].ty) + NodeSize(fs[1..])
  }

  lemma {:induction false} NodeSizeMore(fs: seq<Field>, i: nat)
    requires i < |fs|
    ensures NodeSize(fs[..i + 1]) == NodeSize(fs[..i]) + NodeFieldSize(fs[i].ty)
    decreases i
  {
    hide NodeFieldSize;
    if i == 0 {
      assert fs[..1] == [fs[0]] && fs[..1][1..] == [] && fs[..0] == [];
    } else {
      NodeSizeMore(fs[1..], i - 1);
      assert fs[..i + 1][1..] == fs[1..][..i] && fs[..i][1..] == fs[1..][..i - 1];
    }
  }

  /** get_message_fixed_size as it runs; on messages of fixed size none of its exceptions is raised. */
  method GetMessageFixedSize(fs: seq<Field>) returns (r: Option<nat>)
    ensures r == if FixedNode(fs) then Some(NodeSize(fs)) else None
    decreases fs
  {
    hide NodeSize;
    if !FixedNode(fs) {
      return None;
    }
    var length := 0;
    assert NodeSize(fs[..0]) == 0 by { NoSize(fs); }
    for i := 0 to |fs|
      invariant length == NodeSize(fs[..i])
    {
      NodeSizeMore(fs, i);
      var ty := fs[i].ty;
      if IsBuiltin(ty.base) {
        var size := TypeSize(ty.base);
        if ty.Fixed? {
          length := length + ty.len * size.value;
        } else {
          length := length + size.value;
        }
      } else {
        var inner := GetMessageFixedSize(ty.base.fields);
        length := length + inner.value;
      }
    }
    assert fs[..|fs|] == fs;
    r := Some(length);
  }

  lemma NoSize(fs: seq<Field>)
    ensures NodeSize(fs[..0]) == 0
  {
  }

  /* ---- a fixed message has one size on the wire ---- */

  lemma TimeSize()
    ensures WireSize(TIME_FIELDS) == 8 && WireSize(DURATION_FIELDS) == 8
  {
    assert TIME_FIELDS[1..] == [TIME_FIELDS[1]] && TIME_FIELDS[1..][1..] == [];
    assert DURATION_FIELDS[1..] == [DURATION_FIELDS[1]] && DURATION_FIELDS[1..][1..] == [];
  }

  predicate FixedBase(b: Base) {
    !b.Str? && (IsBuiltin(b) || FixedCpp(b.fields))
  }

  lemma ClockFixed(fs: seq<Field>)
    requires fs == TIME_FIELDS || fs == DURATION_FIELDS
    ensures FixedCpp(fs)
  {
  }

  lemma {:induction false} BaseLength(b: Base, t: Tree)
    requires FixedBase(b) && DeclaredBase(b) && BaseValue(b, t)
    ensures |WireBase(b, t)| == BaseSize(b)
    decreases b, 1, 0
  {
    hide FixedCpp, Declared, FieldsValue, HasSlots;
    match b
    case Prim(_) =>
    case Msg(kind, fields) =>
      if kind != Regular {
        ClockFixed(fields);
      }
      FieldsLength(fields, t);
  }

  lemma {:induction false} ElementsLength(b: Base, es: seq<Tree>)
    requires FixedBase(b) && DeclaredBase(b) && ElementsValue(b, es)
    ensures |WireElements(b, es)| == |es| * BaseSize(b)
    decreases b, 2, |es|
  {
    hide FixedBase, DeclaredBase, BaseValue, BaseSize, WireBase;
    if es != [] {
      BaseLength(b, es[0]);
      ElementsLength(b, es[1..]);
      assert |es| * BaseSize(b) == BaseSize(b) + (|es| - 1) * BaseSize(b);
    }
  }

  lemma {:induction false} FieldLength(ty: FieldType, t: Tree)
    requires !ty.Varying? && FixedBase(ty.base) && DeclaredBase(ty.base) && FieldValue(ty, t)
    ensures |WireField(ty, t)| == Times(ty) * BaseSize(ty.base)
    decreases ty, 0, 0
  {
    hide FixedBase, DeclaredBase, BaseValue, WireBase, ElementsValue, WireElements;
    match ty
    case One(b) => BaseLength(b, t);
    case Fixed(b, n) =>
      if t.List? {
        ElementsLength(b, t.es);
      } else {
        assert BaseSize(b) == 1 && |t.bs| == n;
      }
  }

  /** Every well-typed value of a message of fixed size takes the same number of bytes. */
  lemma {:induction false} FieldsLength(fs: seq<Field>, t: Tree)
    requires FixedCpp(fs) && Declared(fs) && FieldsValue(fs, t)
    ensures |WireFields(fs, t)| == WireSize(fs)
    decreases fs, 0, 0
  {
    hide WireField, FieldValue, BaseSize, DeclaredBase, FixedBase, Times;
    if fs != [] {
      FirstField(fs);
      assert FieldAt(fs[0], t);
      FieldLength(fs[0].ty, Get(t, fs[0].path).value);
      RestFields(fs, t);
      FieldsLength(fs[1..], t);
    }
  }

  lemma FirstField(fs: seq<Field>)
    requires FixedCpp(fs) && Declared(fs) && fs != []
    ensures !fs[0].ty.Varying? && FixedBase(fs[0].ty.base) && DeclaredBase(fs[0].ty.base)
  {
  }

  lemma RestFields(fs: seq<Field>, t: Tree)
    requires FixedCpp(fs) && Declared(fs) && FieldsValue(fs, t) && fs != []
    ensures FixedCpp(fs[1..]) && Declared(fs[1..]) && FieldsValue(fs[1..], t)
  {
    hide FieldAt;
    var r := fs[1..];
    assert forall i :: 0 <= i < |r| ==> r[i] == fs[i + 1];
  }

  lemma FixedMeansConstant(fs: seq<Field>, t: Tree, u: Tree)
    requires FixedCpp(fs) && Declared(fs) && FieldsValue(fs, t) && FieldsValue(fs, u)
    ensures |WireFields(fs, t)| == |WireFields(fs, u)|
  {
    FieldsLength(fs, t);
    FieldsLength(fs, u);
  }

  /* ---- when the computed size is the size on the wire ---- */

  /** An array of messages that has length one, or elements of no size; and its messages likewise. */
  predicate SingleArray(ty: FieldType)
    decreases ty
  {
    IsBuiltin(ty.base) || (
      && (Times(ty) == 1 || WireSize(ty.base.fields) == 0)
      && SingleArrays(ty.base.fields))
  }

  /** Every array of messages is one of these. */
  predicate SingleArrays(fs: seq<Field>)
    decreases fs
  {
    forall i :: 0 <= i < |fs| ==> SingleArray(fs[i].ty)
  }

  lemma TypeSizeIsWireSize(b: Base)
    requires IsBuiltin(b) && !b.Str? && DeclaredBase(b)
    ensures TypeSize(b) == Some(BaseSize(b))
  {
    if b.Msg? {
      TimeSize();
    }
  }

  lemma {:induction false} FieldSizes(ty: FieldType)
    requires !NoLength(ty) && !ty.base.Str? && (IsBuiltin(ty.base) || FixedNode(ty.base.fields))
    requires DeclaredBase(ty.base)
    ensures NodeFieldSize(ty) <= Times(ty) * BaseSize(ty.base)
    ensures NodeFieldSize(ty) == Times(ty) * BaseSize(ty.base) <==> SingleArray(ty)
    decreases ty, 1
  {
    hide FixedNode, SingleArrays, NodeSize, Declared;
    if IsBuiltin(ty.base) {
      TypeSizeIsWireSize(ty.base);
    } else {
      MessageSizes(ty.base.fields);
      var n, w := Times(ty), WireSize(ty.base.fields);
      SmallerProduct(n, w, NodeSize(ty.base.fields));
    }
  }

  lemma SmallerProduct(n: nat, w: nat, k: nat)
    requires n >= 1 && k <= w
    ensures k <= n * w && (k == n * w <==> (n == 1 || w == 0) && k == w)
  {
    assert n * w == w + (n - 1) * w;
    if n > 1 && w > 0 {
      assert (n - 1) * w > 0;
    }
  }

  /** The computed size is never too large, and it is right exactly when no array of messages repeats a size. */
  lemma {:induction false} MessageSizes(fs: seq<Field>)
    requires FixedNode(fs) && Declared(fs)
    ensures NodeSize(fs) <= WireSize(fs)
    ensures NodeSize(fs) == WireSize(fs) <==> SingleArrays(fs)
    decreases fs, 0
  {
    hide NodeFieldSize, BaseSize, Times, DeclaredBase;
    if fs != [] {
      NodeRest(fs);
      FieldSizes(fs[0].ty);
      MessageSizes(fs[1..]);
      SingleRest(fs);
    }
  }

  lemma NodeRest(fs: seq<Field>)
    requires FixedNode(fs) && Declared(fs) && fs != []
    ensures FixedNode(fs[1..]) && Declared(fs[1..]) && DeclaredBase(fs[0].ty.base)
    ensures !NoLength(fs[0].ty) && !fs[0].ty.base.Str? && (IsBuiltin(fs[0].ty.base) || FixedNode(fs[0].ty.base.fields))
  {
    var r := fs[1..];
    assert forall i :: 0 <= i < |r| ==> r[i] == fs[i + 1];
  }

  lemma SingleRest(fs: seq<Field>)
    requires fs != []
    ensures SingleArrays(fs) <==> SingleArray(fs[0].ty) && SingleArrays(fs[1..])
  {
    hide SingleArray;
    var r := fs[1..];
    assert forall i :: 0 <= i < |r| ==> r[i] == fs[i + 1];
    if SingleArrays(r) && SingleArray(fs[0].ty) {
      forall i | 0 <= i < |fs| ensures SingleArray(fs[i].ty) {
        if i > 0 {
          assert fs[i] == r[i - 1];
        }
      }
    }
  }

  /** An array of two messages is counted once. */
  lemma PairCountedOnce()
    ensures var inner := [Field(["x"], One(Prim(Int32)))];
      var fs := [Field(["p"], Fixed(Msg(Regular, inner), 2))];
      FixedNode(fs) && NodeSize(fs) == 4 && WireSize(fs) == 8
  {
    var inner := [Field(["x"], One(Prim(Int32)))];
    var fs := [Field(["p"], Fixed(Msg(Regular, inner), 2))];
    assert inner[1..] == [] && fs[1..] == [];
    assert FixedNode(inner);
    assert WireSize(inner) == 4 && NodeSize(inner) == 4;
  }
}
