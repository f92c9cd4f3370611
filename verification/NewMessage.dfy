/** A message object as its class constructs it: well typed, with byte strings, and all zeros on the wire. */
module NewMessage {
  import opened Common
  import opened WireTypes
  import opened PyTarget
  import opened Generator
  import opened FillLaws
  import opened RoundTrip

  predicate AllZero(bs: seq<Byte>) {
    forall i :: 0 <= i < |bs| ==> bs[i] == 0
  }

  lemma {:induction false} ZeroBytes(w: nat)
    ensures AllZero(LittleEndian(0, w))
  {
    if w > 0 {
      ZeroBytes(w - 1);
    }
  }

  lemma ZeroPacked(p: Simple)
    ensures SimpleValue(p, Num(0)) && AllZero(PackCode(Code(p), 0))
  {
    ZeroBytes(CodeSize(Code(p)));
  }

  lemma ZeroLength()
    ensures AllZero(WireLength(0))
  {
    ZeroBytes(4);
  }

  /** A value as it should be in a new object. */
  predicate FreshBase(b: Base, t: Tree) {
    BaseValue(b, t) && PackedBase(b, t) && AllZero(WireBase(b, t))
  }

  predicate FreshField(ty: FieldType, t: Tree) {
    FieldValue(ty, t) && PackedField(ty, t) && AllZero(WireField(ty, t))
  }

  lemma {:induction false} CopiesZero(b: Base, x: Tree, n: nat)
    requires FreshBase(b, x)
    ensures ElementsValue(b, Repeat(x, n)) && AllZero(WireElements(b, Repeat(x, n)))
    decreases n
  {
    hide BaseValue, WireBase, PackedBase;
    if n > 0 {
      CopiesZero(b, x, n - 1);
      assert Repeat(x, n)[1..] == Repeat(x, n - 1);
    }
  }

  lemma {:induction false} DefaultBaseFresh(b: Base)
    requires DeclaredBase(b)
    ensures FreshBase(b, DefaultBase(b))
    decreases b, 1
  {
    hide Declared, FieldsValue, WireFields, PackedFields;
    match b
    case Prim(p) => ZeroPacked(p);
    case Str => ZeroLength();
    case Msg(_, fields) => NewObjectFresh(fields);
  }

  lemma {:induction false} DefaultFieldFresh(ty: FieldType)
    requires DeclaredBase(ty.base)
    ensures FreshField(ty, DefaultField(ty))
    decreases ty, 0
  {
    hide DeclaredBase, BaseValue, WireBase, PackedBase, DefaultBase, WireLength;
    var b := ty.base;
    DefaultBaseFresh(b);
    ZeroLength();
    match ty
    case One(_) =>
    case Varying(_) => CopiesZero(b, DefaultBase(b), 0);
    case Fixed(_, n) => CopiesZero(b, DefaultBase(b), n);
  }

  lemma {:induction false} FieldsZero(fs: seq<Field>, t: Tree)
    requires forall i :: 0 <= i < |fs| ==> Get(t, fs[i].path).Some? && FreshField(fs[i].ty, Get(t, fs[i].path).value)
    ensures FieldsValue(fs, t) && PackedFields(fs, t) && AllZero(WireFields(fs, t))
    decreases fs
  {
    hide FieldValue, PackedField, WireField;
    forall i | 0 <= i < |fs| ensures FieldAt(fs[i], t) && PackedField(fs[i].ty, Get(t, fs[i].path).value) {
      assert FreshField(fs[i].ty, Get(t, fs[i].path).value);
    }
    if fs != [] {
      assert forall i :: 0 <= i < |fs[1..]| ==> fs[1..][i] == fs[i + 1];
      FieldsZero(fs[1..], t);
      assert FreshField(fs[0].ty, Get(t, fs[0].path).value);
    }
  }

  /** A new message is well typed, holds its byte arrays as byte strings, and is all zeros on the wire. */
  lemma {:induction false} NewObjectFresh(fs: seq<Field>)
    requires Declared(fs)
    ensures HasSlots(fs, NewObject(fs)) && FieldsValue(fs, NewObject(fs)) && PackedFields(fs, NewObject(fs))
    ensures AllZero(WireFields(fs, NewObject(fs)))
    decreases fs, 0
  {
    hide FreshField, DefaultField, FieldsValue, PackedFields, WireFields;
    var t := NewObject(fs);
    forall i | 0 <= i < |fs| ensures Get(t, fs[i].path).Some? && FreshField(fs[i].ty, Get(t, fs[i].path).value) {
      NewSlotsAt(fs, i);
      assert fs[i].path == [fs[i].path[0]] && fs[i].path[1..] == [];
      DefaultFieldFresh(fs[i].ty);
    }
    FieldsZero(fs, t);
  }
}
