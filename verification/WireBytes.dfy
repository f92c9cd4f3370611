/** The wire format byte by byte, without the packing functions: what stands at which place. */
module WireBytes {
  import opened Common
  import opened Division
  import opened StructPattern
  import opened WireTypes

  /* ---- little-endian, by position ---- */

  lemma {:induction false} PowSum(a: nat, b: nat)
    ensures Pow256(a + b) == Pow256(a) * Pow256(b)
    decreases a
  {
    if a > 0 {
      PowSum(a - 1, b);
      TimesMoves(Pow256(a - 1), Pow256(b));
    }
  }

  lemma TimesMoves(p: nat, q: nat)
    ensures 256 * (p * q) == (256 * p) * q
  {
  }

  lemma {:induction false} LittleEndianAt(n: nat, w: nat, k: nat)
    requires k < w
    ensures LittleEndian(n, w)[k] == (n / Pow256(k)) % 256
    decreases w
  {
    if k == 0 {
      assert n / 1 == n;
    } else {
      LittleEndianAt(n / 256, w - 1, k - 1);
      DivTwice(n, 256, Pow256(k - 1));
    }
  }

  /** Adding a multiple of a higher power does not change a lower byte. */
  lemma ByteOfSum(v: int, p: nat, q: nat)
    requires p >= 1
    ensures ((v + p * (256 * q)) / p) % 256 == (v / p) % 256
  {
    var r := v % p;
    assert v == (v / p) * p + r;
    assert v + p * (256 * q) == (v / p + 256 * q) * p + r;
    DivIs(v + p * (256 * q), p, v / p + 256 * q, r);
    assert (v / p + 256 * q) % 256 == (v / p) % 256;
  }

  /**
   struct's '<' codes: byte k of a packed value, the least significant first, is its k-th digit in
   base 256; negative values are in two's complement.
   */
  lemma PackCodeAt(c: char, v: int, k: nat)
    requires Fits(c, v) && k < CodeSize(c)
    ensures PackCode(c, v)[k] == (v / Pow256(k)) % 256
  {
    hide Pow256;
    var w := CodeSize(c);
    LittleEndianAt(if v < 0 then v + Limit(c) else v, w, k);
    if v < 0 {
      PowSum(k, w - k);
      PowSum(1, w - k - 1);
      PowOne();
      ByteOfSum(v, Pow256(k), Pow256(w - k - 1));
    }
  }

  lemma PowOne()
    ensures Pow256(0) == 1 && Pow256(1) == 256
  {
    assert Pow256(1) == 256 * Pow256(0);
  }

  lemma Powers()
    ensures Pow256(1) == 0x100 && Pow256(2) == 0x1_0000 && Pow256(3) == 0x100_0000 && Pow256(4) == 0x1_0000_0000
    ensures Pow256(8) == 0x1_0000_0000_0000_0000
  {
    assert Pow256(1) == 256 * Pow256(0);
    assert Pow256(2) == 256 * Pow256(1);
    assert Pow256(3) == 256 * Pow256(2);
    assert Pow256(4) == 256 * Pow256(3);
    PowSum(4, 4);
  }

  /** The four bytes before a string or an array without a length. */
  lemma WireLengthBytes(n: nat)
    requires n < 0x1_0000_0000
    ensures WireLength(n) == [n % 256, (n / 0x100) % 256, (n / 0x1_0000) % 256, (n / 0x100_0000) % 256]
  {
    hide PackCode;
    Powers();
    PowOne();
    PackCodeAt('I', n, 0);
    PackCodeAt('I', n, 1);
    PackCodeAt('I', n, 2);
    PackCodeAt('I', n, 3);
    assert n / 1 == n;
  }

  /* ---- the simple types ---- */

  lemma Limits()
    ensures Limit('b') == Limit('B') == 0x100 && Limit('h') == Limit('H') == 0x1_0000
    ensures Limit('i') == Limit('I') == Limit('f') == 0x1_0000_0000
    ensures Limit('q') == Limit('Q') == Limit('d') == 0x1_0000_0000_0000_0000
  {
    Powers();
  }

  /** The values of the integer types. */
  lemma NarrowRanges(t: Tree)
    requires t.Num?
    ensures SimpleValue(Int8, t) <==> -0x80 <= t.n < 0x80
    ensures SimpleValue(Byte_, t) <==> -0x80 <= t.n < 0x80
    ensures SimpleValue(UInt8, t) <==> 0 <= t.n < 0x100
    ensures SimpleValue(Char, t) <==> 0 <= t.n < 0x100
    ensures SimpleValue(Bool, t) <==> 0 <= t.n < 2
    ensures SimpleValue(Int16, t) <==> -0x8000 <= t.n < 0x8000
    ensures SimpleValue(UInt16, t) <==> 0 <= t.n < 0x1_0000
  {
    hide Limit;
    Limits();
  }

  lemma WideRanges(t: Tree)
    requires t.Num?
    ensures SimpleValue(Int32, t) <==> -0x8000_0000 <= t.n < 0x8000_0000
    ensures SimpleValue(UInt32, t) <==> 0 <= t.n < 0x1_0000_0000
    ensures SimpleValue(Int64, t) <==> -0x8000_0000_0000_0000 <= t.n < 0x8000_0000_0000_0000
    ensures SimpleValue(UInt64, t) <==> 0 <= t.n < 0x1_0000_0000_0000_0000
    ensures SimpleValue(Float32, t) <==> 0 <= t.n < 0x1_0000_0000
    ensures SimpleValue(Float64, t) <==> 0 <= t.n < 0x1_0000_0000_0000_0000
  {
    hide Limit;
    Limits();
  }

  /** How many bytes they take. */
  lemma SimpleSizes()
    ensures CodeSize(Code(Int8)) == CodeSize(Code(UInt8)) == CodeSize(Code(Bool)) == 1
    ensures CodeSize(Code(Char)) == CodeSize(Code(Byte_)) == 1
    ensures CodeSize(Code(Int16)) == CodeSize(Code(UInt16)) == 2
    ensures CodeSize(Code(Int32)) == CodeSize(Code(UInt32)) == CodeSize(Code(Float32)) == 4
    ensures CodeSize(Code(Int64)) == CodeSize(Code(UInt64)) == CodeSize(Code(Float64)) == 8
  {
  }

  /** One, and minus two, in sixteen bits. */
  lemma SixteenBits()
    ensures Fits('h', 1) && PackCode('h', 1) == [1, 0]
    ensures Fits('h', -2) && PackCode('h', -2) == [254, 255]
  {
    hide PackCode;
    Powers();
    PowOne();
    PackCodeAt('h', 1, 0);
    PackCodeAt('h', 1, 1);
    PackCodeAt('h', -2, 0);
    PackCodeAt('h', -2, 1);
    assert 1 / 256 == 0 && -2 / 256 == -1 && -2 / 1 == -2;
  }

  /* ---- a whole message ---- */

  /** A time is its seconds and then its nanoseconds, four bytes each; a duration likewise, signed. */
  lemma ClockOnWire(kind: Kind, t: Tree)
    requires kind != Regular && t.Obj? && t.fs.Keys == {"secs", "nsecs"}
    requires var p := if kind == Time then UInt32 else Int32;
      SimpleValue(p, t.fs["secs"]) && SimpleValue(p, t.fs["nsecs"])
    ensures var b := Msg(kind, if kind == Time then TIME_FIELDS else DURATION_FIELDS);
      var c := if kind == Time then 'I' else 'i';
      BaseValue(b, t) && WireBase(b, t) == PackCode(c, t.fs["secs"].n) + PackCode(c, t.fs["nsecs"].n)
  {
    hide FieldAt, PackCode;
    var p := if kind == Time then UInt32 else Int32;
    var fs := if kind == Time then TIME_FIELDS else DURATION_FIELDS;
    assert fs == [Field(["secs"], One(Prim(p))), Field(["nsecs"], One(Prim(p)))];
    ClockIsValue(p, fs, t);
    TwoFields(fs, t);
  }

  lemma ClockIsValue(p: Simple, fs: seq<Field>, t: Tree)
    requires fs == [Field(["secs"], One(Prim(p))), Field(["nsecs"], One(Prim(p)))]
    requires t.Obj? && t.fs.Keys == {"secs", "nsecs"} && SimpleValue(p, t.fs["secs"]) && SimpleValue(p, t.fs["nsecs"])
    ensures HasSlots(fs, t) && FieldsValue(fs, t)
    ensures Get(t, ["secs"]) == Some(t.fs["secs"]) && Get(t, ["nsecs"]) == Some(t.fs["nsecs"])
  {
    hide SimpleValue;
    assert fs[1..] == [fs[1]] && fs[1..][1..] == [];
    assert ["secs"][1..] == [] && ["nsecs"][1..] == [];
    assert SlotNames(fs[1..]) == {"nsecs"};
    assert SlotNames(fs) == {"secs", "nsecs"};
    assert FieldAt(fs[0], t) && FieldAt(fs[1], t);
  }

  lemma TwoFields(fs: seq<Field>, t: Tree)
    requires |fs| == 2 && FieldsValue(fs, t)
    ensures FieldAt(fs[0], t) && FieldAt(fs[1], t)
    ensures WireFields(fs, t)
         == WireField(fs[0].ty, Get(t, fs[0].path).value) + WireField(fs[1].ty, Get(t, fs[1].path).value)
  {
    hide WireField, FieldAt;
    assert fs[1..] == [fs[1]] && fs[1..][1..] == [];
    assert WireFields(fs[1..][1..], t) == [];
  }

  /** A number, a string and an array. */
  const MIXED := [Field(["a"], One(Prim(Int16))), Field(["s"], One(Str)), Field(["xs"], Varying(Prim(UInt16)))]
  const MIXED_VALUE :=
    Obj(map["a" := Num(-2), "s" := Bytes([104, 105]), "xs" := List([Num(258), Num(3)])])

  lemma MixedFields()
    ensures Declared(MIXED) && HasSlots(MIXED, MIXED_VALUE)
    ensures var t := MIXED_VALUE;
      && Get(t, ["a"]) == Some(Num(-2)) && Get(t, ["s"]) == Some(Bytes([104, 105]))
      && Get(t, ["xs"]) == Some(List([Num(258), Num(3)]))
  {
    assert MIXED[1..] == [MIXED[1], MIXED[2]] && MIXED[1..][1..] == [MIXED[2]] && MIXED[1..][1..][1..] == [];
    assert SlotNames([MIXED[2]]) == {"xs"};
    assert SlotNames(MIXED[1..]) == {"s", "xs"};
    assert ["a"][1..] == [] && ["s"][1..] == [] && ["xs"][1..] == [];
  }

  lemma MixedValues()
    ensures FieldValue(One(Prim(Int16)), Num(-2)) && FieldValue(One(Str), Bytes([104, 105]))
    ensures FieldValue(Varying(Prim(UInt16)), List([Num(258), Num(3)]))
  {
    hide Fits;
    NarrowRanges(Num(-2));
    NarrowRanges(Num(258));
    NarrowRanges(Num(3));
    assert ElementsValue(Prim(UInt16), [Num(258), Num(3)]);
  }

  lemma MixedParts()
    requires FieldValue(One(Prim(Int16)), Num(-2)) && FieldValue(One(Str), Bytes([104, 105]))
    requires FieldValue(Varying(Prim(UInt16)), List([Num(258), Num(3)]))
    ensures WireField(One(Prim(Int16)), Num(-2)) == [254, 255]
    ensures WireField(One(Str), Bytes([104, 105])) == [2, 0, 0, 0, 104, 105]
    ensures WireField(Varying(Prim(UInt16)), List([Num(258), Num(3)])) == [2, 0, 0, 0, 2, 1, 3, 0]
  {
    hide PackCode, WireLength;
    SixteenBits();
    WireLengthBytes(2);
    UnsignedBytes(258);
    UnsignedBytes(3);
    var es := [Num(258), Num(3)];
    assert es[1..] == [Num(3)] && es[1..][1..] == [];
    assert WireElements(Prim(UInt16), es[1..]) == [3, 0];
    assert WireElements(Prim(UInt16), es) == [2, 1, 3, 0];
  }

  lemma UnsignedBytes(n: nat)
    requires n < 0x1_0000
    ensures Fits('H', n) && PackCode('H', n) == [n % 256, n / 256]
  {
    hide PackCode;
    Powers();
    PowOne();
    PackCodeAt('H', n, 0);
    PackCodeAt('H', n, 1);
    assert n / 1 == n;
  }

  /** On the wire: the fields in order, lengths before what they count, low bytes first. */
  lemma MixedOnWire()
    ensures Declared(MIXED) && HasSlots(MIXED, MIXED_VALUE) && FieldsValue(MIXED, MIXED_VALUE)
    ensures WireFields(MIXED, MIXED_VALUE) == [254, 255, 2, 0, 0, 0, 104, 105, 2, 0, 0, 0, 2, 1, 3, 0]
  {
    hide FieldValue, WireField, HasSlots, Declared;
    var t := MIXED_VALUE;
    MixedFields();
    MixedValues();
    MixedParts();
    assert FieldAt(MIXED[0], t) && FieldAt(MIXED[1], t) && FieldAt(MIXED[2], t);
    assert MIXED[1..] == [MIXED[1], MIXED[2]];
    TwoFields(MIXED[1..], t);
  }
}
