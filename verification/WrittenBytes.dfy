/**
 What the emitted `serialize` code really writes. It is the wire image, except that the format
 of a fixed-length array of simple values is compressed: if the decimal text of the length has
 two adjacent nines, a list is refused and a byte string is cut short.
 */
module WrittenBytes {
  import opened Common
  import opened DecimalText
  import opened StructPattern
  import opened WireTypes
  import opened Generator
  import opened TreeLaws

  /** One after the other; None stands for an exception. */
  function Both(a: Option<seq<Byte>>, b: Option<seq<Byte>>): Option<seq<Byte>> {
    if a.None? || b.None? then None else Some(a.value + b.value)
  }

  lemma BothAssociates(a: Option<seq<Byte>>, b: Option<seq<Byte>>, c: Option<seq<Byte>>)
    ensures Both(Both(a, b), c) == Both(a, Both(b, c))
  {
    if a.Some? && b.Some? && c.Some? {
      assert a.value + b.value + c.value == a.value + (b.value + c.value);
    }
  }

  lemma BothNothing(a: Option<seq<Byte>>)
    ensures Both(a, Some([])) == a && Both(Some([]), a) == a
  {
    if a.Some? {
      assert a.value + [] == a.value && [] + a.value == a.value;
    }
  }

  function WrittenBase(b: Base, t: Tree): Option<seq<Byte>>
    requires BaseValue(b, t)
    decreases b, 1
  {
    if b.Msg? then WrittenFields(b.fields, t) else Some(WireBase(b, t))
  }

  function WrittenElements(b: Base, es: seq<Tree>): Option<seq<Byte>>
    requires ElementsValue(b, es)
    decreases b, 2, es
  {
    if es == [] then Some([]) else Both(WrittenBase(b, es[0]), WrittenElements(b, es[1..]))
  }

  /** A fixed-length array of simple values: the count that is left must be the number of elements. */
  function WrittenFixed(b: Base, n: nat, t: Tree): Option<seq<Byte>>
    requires b.Prim? && FieldValue(Fixed(b, n), t)
  {
    if t.Bytes? then Some(t.bs[..KeptCount(n)])
    else if KeptCount(n) == n then Some(WireElements(b, t.es))
    else None
  }

  function WrittenField(ty: FieldType, t: Tree): Option<seq<Byte>>
    requires FieldValue(ty, t)
    decreases ty, 0
  {
    match ty
    case One(b) => WrittenBase(b, t)
    case Varying(b) =>
      if t.List? && b.Msg? then Both(Some(WireLength(|t.es|)), WrittenElements(b, t.es)) else Some(WireField(ty, t))
    case Fixed(b, n) =>
      if b.Prim? then WrittenFixed(b, n, t) else if b.Msg? then WrittenElements(b, t.es) else Some(WireField(ty, t))
  }

  function WrittenFields(fields: seq<Field>, t: Tree): Option<seq<Byte>>
    requires FieldsValue(fields, t)
    decreases fields, 0
  {
    if fields == [] then Some([]) else
      assert FieldAt(fields[0], t);
      assert forall i :: 0 <= i < |fields| - 1 ==> fields[1..][i] == fields[i + 1];
      Both(WrittenField(fields[0].ty, Get(t, fields[0].path).value), WrittenFields(fields[1..], t))
  }

  /** Elements that are strings are written as they are. */
  lemma {:induction false} StringElements(es: seq<Tree>)
    requires ElementsValue(Str, es)
    ensures WrittenElements(Str, es) == Some(WireElements(Str, es))
  {
    if es != [] {
      StringElements(es[1..]);
    }
  }

  /* ---- field lists ---- */

  lemma {:induction false} WrittenSplit(a: seq<Field>, b: seq<Field>, t: Tree)
    requires FieldsValue(a, t) && FieldsValue(b, t)
    ensures FieldsValue(a + b, t)
    ensures WrittenFields(a + b, t) == Both(WrittenFields(a, t), WrittenFields(b, t))
  {
    hide WrittenField, FieldValue;
    FieldsValueSplit(a, b, t);
    if a == [] {
      assert a + b == b;
      BothNothing(WrittenFields(b, t));
    } else {
      assert (a + b)[1..] == a[1..] + b;
      FieldsValueSplit([a[0]], a[1..], t);
      assert a == [a[0]] + a[1..];
      WrittenSplit(a[1..], b, t);
      assert FieldAt(a[0], t);
      BothAssociates(WrittenField(a[0].ty, Get(t, a[0].path).value), WrittenFields(a[1..], t), WrittenFields(b, t));
    }
  }

  lemma WrittenOne(f: Field, t: Tree)
    requires FieldAt(f, t)
    ensures FieldsValue([f], t) && WrittenFields([f], t) == WrittenField(f.ty, Get(t, f.path).value)
  {
    hide WrittenField;
    assert [f][1..] == [];
    BothNothing(WrittenField(f.ty, Get(t, f.path).value));
    assert WrittenFields([f], t) == Both(WrittenField(f.ty, Get(t, f.path).value), WrittenFields([], t));
  }

  lemma {:induction false} WrittenPrefixed(p: seq<string>, fs: seq<Field>, t: Tree, o: Tree)
    requires Get(t, p) == Some(o) && FieldsValue(fs, o)
    ensures FieldsValue(Prefixed(p, fs), t)
    ensures WrittenFields(Prefixed(p, fs), t) == WrittenFields(fs, o)
  {
    hide WrittenField, FieldValue;
    WirePrefixed(p, fs, t, o);
    var r := Prefixed(p, fs);
    if fs != [] {
      GetConcat(t, p, fs[0].path);
      assert r[1..] == Prefixed(p, fs[1..]);
      FieldsValueSplit([fs[0]], fs[1..], o);
      assert fs == [fs[0]] + fs[1..];
      assert FieldAt(fs[0], o);
      WrittenPrefixed(p, fs[1..], t, o);
    }
  }

  lemma {:induction false} FlattenWrittenOne(f: Field, t: Tree)
    requires FieldAt(f, t)
    ensures FieldsValue(FlattenOne(f), t)
    ensures WrittenFields(FlattenOne(f), t) == WrittenField(f.ty, Get(t, f.path).value)
    decreases f, 0
  {
    hide WrittenFields, FieldsValue;
    FlattenWireOne(f, t);
    if IsEmbedded(f.ty) {
      var o := Get(t, f.path).value;
      assert BaseValue(f.ty.base, o);
      FlattenWritten(f.ty.base.fields, o);
      WrittenPrefixed(f.path, Flatten(f.ty.base.fields), t, o);
    } else {
      WrittenOne(f, t);
    }
  }

  /** Flattening does not change what is written. */
  lemma {:induction false} FlattenWritten(fs: seq<Field>, t: Tree)
    requires FieldsValue(fs, t)
    ensures FieldsValue(Flatten(fs), t)
    ensures WrittenFields(Flatten(fs), t) == WrittenFields(fs, t)
    decreases fs, 0
  {
    hide WrittenField, FieldValue;
    FlattenWire(fs, t);
    if fs != [] {
      assert fs == [fs[0]] + fs[1..];
      FieldsValueSplit([fs[0]], fs[1..], t);
      assert FieldAt(fs[0], t);
      FlattenWrittenOne(fs[0], t);
      FlattenWritten(fs[1..], t);
      WrittenSplit(FlattenOne(fs[0]), Flatten(fs[1..]), t);
    }
  }

  /* ---- when it is the wire image ---- */

  datatype Side = Writing | Reading

  /**
   Fixed-length arrays of simple values whose format survives the pattern compression. Byte
   arrays are written with such a format, but read as a slice.
   */
  predicate SafeLength(side: Side, ty: FieldType) {
    ty.Fixed? && ty.base.Prim? && (side.Writing? || !IsByteArray(ty)) ==> !HasDoubleNine(Decimal(ty.len))
  }

  /** No fixed-length array of simple values has a length whose decimal text contains "99". */
  predicate SafeFields(fs: seq<Field>)
    decreases fs, 0
  {
    forall i :: 0 <= i < |fs| ==> SafeField(fs[i])
  }

  predicate SafeField(f: Field)
    decreases f, 0
  {
    SafeLength(Writing, f.ty) && SafeBase(f.ty.base)
  }

  predicate SafeBase(b: Base)
    decreases b, 0
  {
    b.Msg? ==> SafeFields(b.fields)
  }

  /** The arrays that are there in a particular message have safe lengths. */
  predicate SafeInBase(side: Side, b: Base, t: Tree)
    requires BaseValue(b, t)
    decreases b, 1
  {
    b.Msg? ==> SafeInFields(side, b.fields, t)
  }

  predicate SafeInElements(side: Side, b: Base, es: seq<Tree>)
    requires ElementsValue(b, es)
    decreases b, 2
  {
    forall i :: 0 <= i < |es| ==> BaseValue(b, es[i]) && SafeInBase(side, b, es[i])
  }

  predicate SafeInField(side: Side, ty: FieldType, t: Tree)
    requires FieldValue(ty, t)
    decreases ty, 0
  {
    && SafeLength(side, ty)
    && if ty.One? then SafeInBase(side, ty.base, t) else t.List? ==> SafeInElements(side, ty.base, t.es)
  }

  predicate SafeInFields(side: Side, fs: seq<Field>, t: Tree)
    requires FieldsValue(fs, t)
    decreases fs, 0
  {
    forall i :: 0 <= i < |fs| ==> FieldAt(fs[i], t) && SafeInField(side, fs[i].ty, Get(t, fs[i].path).value)
  }

  /** Exactly the wire image, or an exception, or fewer bytes. */
  predicate Faithful(w: Option<seq<Byte>>, wire: seq<Byte>, safe: bool) {
    (safe ==> w == Some(wire)) && (!safe && w.Some? ==> |w.value| < |wire|)
  }

  lemma FaithfulBoth(w: Option<seq<Byte>>, wire: seq<Byte>, safe: bool,
                     w': Option<seq<Byte>>, wire': seq<Byte>, safe': bool)
    requires Faithful(w, wire, safe) && Faithful(w', wire', safe')
    ensures Faithful(Both(w, w'), wire + wire', safe && safe')
  {
  }

  lemma {:induction false} BaseFaithful(b: Base, t: Tree)
    requires BaseValue(b, t)
    ensures Faithful(WrittenBase(b, t), WireBase(b, t), SafeInBase(Writing, b, t))
    decreases b, 1
  {
    hide FieldsValue;
    if b.Msg? {
      FieldsFaithful(b.fields, t);
    }
  }

  lemma {:induction false} ElementsFaithful(b: Base, es: seq<Tree>)
    requires ElementsValue(b, es)
    ensures Faithful(WrittenElements(b, es), WireElements(b, es), SafeInElements(Writing, b, es))
    decreases b, 2, |es|
  {
    hide Faithful, WrittenBase, WireBase, BaseValue, SafeInBase;
    if es == [] {
      NothingFaithful();
    } else {
      BaseFaithful(b, es[0]);
      ElementsFaithful(b, es[1..]);
      FaithfulBoth(WrittenBase(b, es[0]), WireBase(b, es[0]), SafeInBase(Writing, b, es[0]),
                   WrittenElements(b, es[1..]), WireElements(b, es[1..]), SafeInElements(Writing, b, es[1..]));
      SafeElementsSplit(Writing, b, es);
    }
  }

  lemma NothingFaithful()
    ensures Faithful(Some([]), [], true)
  {
  }

  lemma SafeElementsSplit(side: Side, b: Base, es: seq<Tree>)
    requires es != [] && ElementsValue(b, es)
    ensures BaseValue(b, es[0]) && ElementsValue(b, es[1..])
    ensures SafeInElements(side, b, es) <==> SafeInBase(side, b, es[0]) && SafeInElements(side, b, es[1..])
  {
    hide BaseValue, SafeInBase;
    var r := es[1..];
    assert forall i :: 0 <= i < |r| ==> r[i] == es[i + 1];
    if SafeInBase(side, b, es[0]) && SafeInElements(side, b, r) {
      forall i | 0 <= i < |es| ensures BaseValue(b, es[i]) && SafeInBase(side, b, es[i]) {
        if i > 0 {
          assert es[i] == r[i - 1];
        }
      }
    }
  }

  lemma FixedFaithful(b: Base, n: nat, t: Tree)
    requires b.Prim? && FieldValue(Fixed(b, n), t)
    ensures Faithful(WrittenFixed(b, n, t), WireField(Fixed(b, n), t), SafeLength(Writing, Fixed(b, n)))
  {
    hide WireElements, ElementsValue, HasDoubleNine;
    if t.Bytes? {
      assert t.bs[..n] == t.bs;
    }
  }

  lemma {:induction false} FieldFaithful(ty: FieldType, t: Tree)
    requires FieldValue(ty, t)
    ensures Faithful(WrittenField(ty, t), WireField(ty, t), SafeInField(Writing, ty, t))
    decreases ty, 0
  {
    hide Faithful, WrittenBase, WireBase, BaseValue, SafeInBase, WrittenElements, WireElements, SafeInElements;
    hide HasDoubleNine, KeptCount;
    match ty
    case One(b) => BaseFaithful(b, t);
    case Varying(b) =>
      if t.List? {
        ElementsFaithful(b, t.es);
        PlainElementsSafe(Writing, b, t.es);
        if b.Msg? {
          LengthFaithful(WireLength(|t.es|));
          FaithfulBoth(Some(WireLength(|t.es|)), WireLength(|t.es|), true,
                       WrittenElements(b, t.es), WireElements(b, t.es), SafeInElements(Writing, b, t.es));
        } else {
          LengthFaithful(WireField(ty, t));
        }
      } else {
        LengthFaithful(WireField(ty, t));
      }
    case Fixed(b, n) =>
      if b.Prim? {
        FixedFaithful(b, n, t);
        if t.List? {
          PlainElementsSafe(Writing, b, t.es);
        }
      } else {
        ElementsFaithful(b, t.es);
        PlainElementsSafe(Writing, b, t.es);
        LengthFaithful(WireField(ty, t));
      }
  }

  lemma LengthFaithful(bs: seq<Byte>)
    ensures Faithful(Some(bs), bs, true)
  {
  }

  lemma PlainElementsSafe(side: Side, b: Base, es: seq<Tree>)
    requires ElementsValue(b, es)
    ensures !b.Msg? ==> SafeInElements(side, b, es)
  {
  }

  /** The bytes written are the wire image exactly when every array that is there has a safe length. */
  lemma {:induction false} FieldsFaithful(fs: seq<Field>, t: Tree)
    requires FieldsValue(fs, t)
    ensures Faithful(WrittenFields(fs, t), WireFields(fs, t), SafeInFields(Writing, fs, t))
    decreases fs, 0
  {
    hide Faithful, WrittenField, WireField, FieldValue, SafeInField;
    if fs == [] {
      NothingFaithful();
    } else {
      assert fs == [fs[0]] + fs[1..];
      FieldsValueSplit([fs[0]], fs[1..], t);
      assert FieldAt(fs[0], t);
      var o := Get(t, fs[0].path).value;
      FieldFaithful(fs[0].ty, o);
      FieldsFaithful(fs[1..], t);
      FaithfulBoth(WrittenField(fs[0].ty, o), WireField(fs[0].ty, o), SafeInField(Writing, fs[0].ty, o),
                   WrittenFields(fs[1..], t), WireFields(fs[1..], t), SafeInFields(Writing, fs[1..], t));
      SafeFieldsSplit(Writing, fs, t);
    }
  }

  lemma SafeFieldsSplit(side: Side, fs: seq<Field>, t: Tree)
    requires fs != [] && FieldsValue(fs, t)
    ensures FieldAt(fs[0], t) && FieldsValue(fs[1..], t)
    ensures SafeInFields(side, fs, t)
      <==> SafeInField(side, fs[0].ty, Get(t, fs[0].path).value) && SafeInFields(side, fs[1..], t)
  {
    hide FieldValue, SafeInField;
    var r := fs[1..];
    assert forall i :: 0 <= i < |r| ==> r[i] == fs[i + 1];
    assert FieldAt(fs[0], t);
    if SafeInField(side, fs[0].ty, Get(t, fs[0].path).value) && SafeInFields(side, r, t) {
      forall i | 0 <= i < |fs| ensures FieldAt(fs[i], t) && SafeInField(side, fs[i].ty, Get(t, fs[i].path).value) {
        assert FieldAt(fs[i], t);
        if i > 0 {
          assert fs[i] == r[i - 1];
        }
      }
    }
  }

  lemma WrittenIsWireIff(fs: seq<Field>, t: Tree)
    requires FieldsValue(fs, t)
    ensures WrittenFields(fs, t) == Some(WireFields(fs, t)) <==> SafeInFields(Writing, fs, t)
  {
    hide WrittenFields, WireFields, SafeInFields;
    FieldsFaithful(fs, t);
  }

  /* ---- a safe specification is safe for every message ---- */

  lemma {:induction false} SafeBaseSafe(b: Base, t: Tree)
    requires BaseValue(b, t) && SafeBase(b)
    ensures SafeInBase(Writing, b, t)
    decreases b, 1
  {
    hide SafeFields, FieldsValue;
    if b.Msg? {
      SafeFieldsSafe(b.fields, t);
    }
  }

  lemma {:induction false} SafeFieldSafe(ty: FieldType, t: Tree)
    requires FieldValue(ty, t) && SafeLength(Writing, ty) && SafeBase(ty.base)
    ensures SafeInField(Writing, ty, t)
    decreases ty, 0
  {
    hide SafeLength, SafeBase, BaseValue, SafeInBase;
    if ty.One? {
      SafeBaseSafe(ty.base, t);
    } else if t.List? {
      forall j | 0 <= j < |t.es| ensures BaseValue(ty.base, t.es[j]) && SafeInBase(Writing, ty.base, t.es[j]) {
        assert BaseValue(ty.base, t.es[j]);
        SafeBaseSafe(ty.base, t.es[j]);
      }
    }
  }

  lemma {:induction false} SafeFieldsSafe(fs: seq<Field>, t: Tree)
    requires FieldsValue(fs, t) && SafeFields(fs)
    ensures SafeInFields(Writing, fs, t)
    decreases fs, 0
  {
    hide SafeLength, SafeBase, FieldValue, SafeInField;
    forall i | 0 <= i < |fs| ensures FieldAt(fs[i], t) && SafeInField(Writing, fs[i].ty, Get(t, fs[i].path).value) {
      assert FieldAt(fs[i], t) && SafeField(fs[i]);
      SafeFieldSafe(fs[i].ty, Get(t, fs[i].path).value);
    }
  }

  lemma SafeConcat(side: Side, a: seq<Field>, b: seq<Field>, t: Tree)
    requires FieldsValue(a, t) && FieldsValue(b, t) && FieldsValue(a + b, t)
    ensures SafeInFields(side, a + b, t) <==> SafeInFields(side, a, t) && SafeInFields(side, b, t)
  {
    hide FieldValue, SafeInField;
    var c := a + b;
    if SafeInFields(side, c, t) {
      forall i | 0 <= i < |a| ensures FieldAt(a[i], t) && SafeInField(side, a[i].ty, Get(t, a[i].path).value) {
        assert c[i] == a[i];
      }
      forall i | 0 <= i < |b| ensures FieldAt(b[i], t) && SafeInField(side, b[i].ty, Get(t, b[i].path).value) {
        assert c[|a| + i] == b[i];
      }
    }
  }

  lemma SafePrefixed(side: Side, p: seq<string>, fs: seq<Field>, t: Tree, o: Tree)
    requires Get(t, p) == Some(o) && FieldsValue(fs, o) && FieldsValue(Prefixed(p, fs), t)
    ensures SafeInFields(side, Prefixed(p, fs), t) <==> SafeInFields(side, fs, o)
  {
    hide FieldValue, SafeInField;
    var r := Prefixed(p, fs);
    forall i | 0 <= i < |fs|
      ensures FieldAt(fs[i], o) && FieldAt(r[i], t) && r[i].ty == fs[i].ty && Get(t, r[i].path) == Get(o, fs[i].path)
    {
      GetConcat(t, p, fs[i].path);
      assert FieldAt(fs[i], o) && FieldAt(r[i], t);
    }
  }

  lemma SafeOne(side: Side, f: Field, t: Tree)
    requires FieldAt(f, t) && FieldsValue([f], t)
    ensures SafeInFields(side, [f], t) <==> SafeInField(side, f.ty, Get(t, f.path).value)
  {
    hide FieldValue, SafeInField;
    assert [f][0] == f;
  }

  lemma {:induction false} FlattenSafeOne(side: Side, f: Field, t: Tree)
    requires FieldAt(f, t)
    ensures FieldsValue(FlattenOne(f), t)
    ensures SafeInFields(side, FlattenOne(f), t) <==> SafeInField(side, f.ty, Get(t, f.path).value)
    decreases f, 0
  {
    hide SafeInFields, FieldsValue;
    FlattenWireOne(f, t);
    if IsEmbedded(f.ty) {
      var o := Get(t, f.path).value;
      assert BaseValue(f.ty.base, o);
      FlattenSafe(side, f.ty.base.fields, o);
      SafePrefixed(side, f.path, Flatten(f.ty.base.fields), t, o);
      assert SafeInField(side, f.ty, o) <==> SafeInBase(side, f.ty.base, o);
    } else {
      SafeOne(side, f, t);
    }
  }

  /** Flattening keeps the arrays of a message as safe as they are. */
  lemma {:induction false} FlattenSafe(side: Side, fs: seq<Field>, t: Tree)
    requires FieldsValue(fs, t)
    ensures FieldsValue(Flatten(fs), t) && (SafeInFields(side, Flatten(fs), t) <==> SafeInFields(side, fs, t))
    decreases fs, 0
  {
    hide FieldValue, SafeInField;
    FlattenWire(fs, t);
    if fs != [] {
      assert fs == [fs[0]] + fs[1..];
      FieldsValueSplit([fs[0]], fs[1..], t);
      assert FieldAt(fs[0], t);
      FlattenSafeOne(side, fs[0], t);
      FlattenSafe(side, fs[1..], t);
      SafeConcat(side, FlattenOne(fs[0]), Flatten(fs[1..]), t);
      SafeFieldsSplit(side, fs, t);
    }
  }

  /* ---- what can be written can be read ---- */

  lemma {:induction false} BaseWritableReadable(b: Base, t: Tree)
    requires BaseValue(b, t) && SafeInBase(Writing, b, t)
    ensures SafeInBase(Reading, b, t)
    decreases b, 1
  {
    hide FieldsValue;
    if b.Msg? {
      WritableReadable(b.fields, t);
    }
  }

  lemma {:induction false} FieldWritableReadable(ty: FieldType, t: Tree)
    requires FieldValue(ty, t) && SafeInField(Writing, ty, t)
    ensures SafeInField(Reading, ty, t)
    decreases ty, 0
  {
    hide HasDoubleNine, BaseValue, SafeInBase;
    if ty.One? {
      BaseWritableReadable(ty.base, t);
    } else if t.List? {
      forall j | 0 <= j < |t.es| ensures BaseValue(ty.base, t.es[j]) && SafeInBase(Reading, ty.base, t.es[j]) {
        assert BaseValue(ty.base, t.es[j]) && SafeInBase(Writing, ty.base, t.es[j]);
        BaseWritableReadable(ty.base, t.es[j]);
      }
    }
  }

  lemma {:induction false} WritableReadable(fs: seq<Field>, t: Tree)
    requires FieldsValue(fs, t) && SafeInFields(Writing, fs, t)
    ensures SafeInFields(Reading, fs, t)
    decreases fs, 0
  {
    hide FieldValue, SafeInField;
    forall i | 0 <= i < |fs| ensures FieldAt(fs[i], t) && SafeInField(Reading, fs[i].ty, Get(t, fs[i].path).value) {
      assert FieldAt(fs[i], t);
      FieldWritableReadable(fs[i].ty, Get(t, fs[i].path).value);
    }
  }
}
