/**
 Message types, message values and the ROS wire format. A message specification is the
 tree that its acyclic registration table unfolds to; a value is the tree of Python
 attributes it is stored in.
 */
module WireTypes {
  import opened Common
  import opened StructPattern

  type Byte = x: int | 0 <= x < 256

  /* ---- little-endian integers ---- */

  function Pow256(w: nat): (p: nat)
    ensures p >= 1
  {
    if w == 0 then 1 else 256 * Pow256(w - 1)
  }

  function LittleEndian(n: nat, w: nat): (bs: seq<Byte>)
    ensures |bs| == w
  {
    if w == 0 then [] else [n % 256] + LittleEndian(n / 256, w - 1)
  }

  function FromLittleEndian(bs: seq<Byte>): nat {
    if bs == [] then 0 else bs[0] + 256 * FromLittleEndian(bs[1..])
  }

  lemma {:induction false} LittleEndianInverse(n: nat, w: nat)
    requires n < Pow256(w)
    ensures FromLittleEndian(LittleEndian(n, w)) == n
  {
    if w > 0 {
      LittleEndianInverse(n / 256, w - 1);
      assert LittleEndian(n, w)[1..] == LittleEndian(n / 256, w - 1);
    }
  }

  /* ---- simple types (base.py) ---- */

  datatype Simple =
    | Int8 | UInt8 | Bool | Int16 | UInt16 | Int32 | UInt32 | Int64 | UInt64
    | Float32 | Float64 | Char | Byte_

  /** SIMPLE_TYPES_DICT: bool and char travel as unsigned bytes, byte as a signed one. */
  function Code(p: Simple): (c: char)
    ensures IsCode(c) && c != 's'
  {
    match p
    case Int8 => 'b'
    case UInt8 => 'B'
    case Bool => 'B'
    case Int16 => 'h'
    case UInt16 => 'H'
    case Int32 => 'i'
    case UInt32 => 'I'
    case Int64 => 'q'
    case UInt64 => 'Q'
    case Float32 => 'f'
    case Float64 => 'd'
    case Char => 'B'
    case Byte_ => 'b'
  }

  /** The types whose arrays are handled as byte strings. */
  predicate IsByteLike(p: Simple) {
    p == UInt8 || p == Char
  }

  /** Bytes taken by one value of a `struct` code. */
  function CodeSize(c: char): (w: nat)
    ensures w >= 1
  {
    if c == 'b' || c == 'B' || c == 's' then 1
    else if c == 'h' || c == 'H' then 2
    else if c == 'i' || c == 'I' || c == 'f' then 4
    else 8
  }

  predicate IsSigned(c: char) {
    c == 'b' || c == 'h' || c == 'i' || c == 'q'
  }

  function Limit(c: char): (m: nat)
    ensures m == Pow256(CodeSize(c)) && m % 2 == 0
  {
    var w := CodeSize(c);
    assert Pow256(w) == 256 * Pow256(w - 1);
    Pow256(w)
  }

  /** The values `struct.pack` accepts for a code. Floats are their bit patterns. */
  predicate Fits(c: char, v: int) {
    if IsSigned(c) then -(Limit(c) / 2) <= v < Limit(c) / 2 else 0 <= v < Limit(c)
  }

  function PackCode(c: char, v: int): (bs: seq<Byte>)
    requires Fits(c, v)
    ensures |bs| == CodeSize(c)
  {
    LittleEndian(if v < 0 then v + Limit(c) else v, CodeSize(c))
  }

  function UnpackCode(c: char, bs: seq<Byte>): int {
    var n := FromLittleEndian(bs);
    if IsSigned(c) && n >= Limit(c) / 2 then n - Limit(c) else n
  }

  lemma UnpackPackCode(c: char, v: int)
    requires Fits(c, v)
    ensures UnpackCode(c, PackCode(c, v)) == v
  {
    LittleEndianInverse(if v < 0 then v + Limit(c) else v, CodeSize(c));
  }

  /* ---- message specifications ---- */

  datatype Kind = Regular | Time | Duration

  datatype Base = Prim(p: Simple) | Str | Msg(kind: Kind, fields: seq<Field>)

  datatype FieldType =
    | One(base: Base)
    | Varying(base: Base)
    | Fixed(base: Base, len: nat)

  /** A declared field has a one-component path; flattening makes longer ones. */
  datatype Field = Field(path: seq<string>, ty: FieldType)

  predicate IsSimple(t: FieldType) {
    t.One? && t.base.Prim?
  }

  predicate IsEmbedded(t: FieldType) {
    t.One? && t.base.Msg?
  }

  predicate IsByteArray(t: FieldType) {
    !t.One? && t.base.Prim? && IsByteLike(t.base.p)
  }

  const TIME_FIELDS := [Field(["secs"], One(Prim(UInt32))), Field(["nsecs"], One(Prim(UInt32)))]
  const DURATION_FIELDS := [Field(["secs"], One(Prim(Int32))), Field(["nsecs"], One(Prim(Int32)))]

  /** A legal field name is not empty and has no dot. */
  predicate LegalName(n: string) {
    n != "" && '.' !in n
  }

  /** No two fields are reached by the same path. */
  predicate DistinctPaths(fs: seq<Field>) {
    forall i, j :: 0 <= i < j < |fs| ==> fs[i].path != fs[j].path
  }

  /** Field lists as the loader accepts them: legal, distinct, one-component names. */
  predicate Declared(fs: seq<Field>)
    decreases fs
  {
    && DistinctPaths(fs)
    && forall i :: 0 <= i < |fs| ==>
         && |fs[i].path| == 1 && LegalName(fs[i].path[0])
         && DeclaredBase(fs[i].ty.base)
  }

  predicate DeclaredBase(b: Base)
    decreases b
  {
    b.Msg? ==>
      && Declared(b.fields)
      && (b.kind == Time ==> b.fields == TIME_FIELDS)
      && (b.kind == Duration ==> b.fields == DURATION_FIELDS)
  }

  /* ---- message values ---- */

  datatype Tree =
    | NoneVal
    | Num(n: int)
    | Bytes(bs: seq<Byte>)
    | List(es: seq<Tree>)
    | Obj(fs: map<string, Tree>)

  predicate Mutable(t: Tree) {
    t.List? || t.Obj?
  }

  /** Attribute lookup along a dotted path. */
  function Get(t: Tree, path: seq<string>): Option<Tree>
    decreases path
  {
    if path == [] then Some(t)
    else if t.Obj? && path[0] in t.fs then Get(t.fs[path[0]], path[1..])
    else None
  }

  /** Attribute assignment along a dotted path; the attribute must exist. */
  function Put(t: Tree, path: seq<string>, x: Tree): Tree
    decreases path
  {
    if path == [] then x
    else if t.Obj? && path[0] in t.fs then Obj(t.fs[path[0] := Put(t.fs[path[0]], path[1..], x)])
    else t
  }

  function SlotNames(fields: seq<Field>): set<string> {
    if fields == [] then {}
    else (if fields[0].path == [] then {} else {fields[0].path[0]}) + SlotNames(fields[1..])
  }

  predicate OneComponent(fields: seq<Field>) {
    forall i :: 0 <= i < |fields| ==> |fields[i].path| == 1
  }

  /** An object of a message class: exactly the declared attributes. */
  predicate HasSlots(fields: seq<Field>, t: Tree) {
    t.Obj? && OneComponent(fields) && t.fs.Keys == SlotNames(fields)
  }

  const MAX_LEN: nat := 0x1_0000_0000

  predicate SimpleValue(p: Simple, t: Tree) {
    t.Num? && Fits(Code(p), t.n) && (p == Bool ==> t.n == 0 || t.n == 1)
  }

  predicate BaseValue(b: Base, t: Tree)
    decreases b, 1
  {
    match b
    case Prim(p) => SimpleValue(p, t)
    case Str => t.Bytes? && |t.bs| < MAX_LEN
    case Msg(_, fields) => HasSlots(fields, t) && FieldsValue(fields, t)
  }

  predicate ElementsValue(b: Base, es: seq<Tree>)
    decreases b, 2
  {
    forall i :: 0 <= i < |es| ==> BaseValue(b, es[i])
  }

  /** A value of a field; byte arrays may be held as byte strings or as lists of numbers. */
  predicate FieldValue(ty: FieldType, t: Tree)
    decreases ty, 0
  {
    match ty
    case One(b) => BaseValue(b, t)
    case Varying(b) =>
      || (t.List? && |t.es| < MAX_LEN && ElementsValue(b, t.es))
      || (IsByteArray(ty) && t.Bytes? && |t.bs| < MAX_LEN)
    case Fixed(b, n) =>
      || (t.List? && |t.es| == n && ElementsValue(b, t.es))
      || (IsByteArray(ty) && t.Bytes? && |t.bs| == n)
  }

  /** Every field can be reached and holds a value of its type. */
  predicate FieldsValue(fields: seq<Field>, t: Tree)
    decreases fields, 0
  {
    forall i :: 0 <= i < |fields| ==> FieldAt(fields[i], t)
  }

  predicate FieldAt(f: Field, t: Tree)
    decreases f, 0
  {
    Get(t, f.path).Some? && FieldValue(f.ty, Get(t, f.path).value)
  }

  /* ---- the wire format, field by field ---- */

  function WireLength(n: nat): (bs: seq<Byte>)
    requires n < MAX_LEN
    ensures |bs| == 4
  {
    assert Limit('I') == MAX_LEN by {
      assert Pow256(4) == 256 * Pow256(3) == 65536 * Pow256(2) == 0x100_0000 * Pow256(1);
    }
    PackCode('I', n)
  }

  function WireBase(b: Base, t: Tree): seq<Byte>
    requires BaseValue(b, t)
    decreases b, 1
  {
    match b
    case Prim(p) => PackCode(Code(p), t.n)
    case Str => WireLength(|t.bs|) + t.bs
    case Msg(_, fields) => WireFields(fields, t)
  }

  function WireElements(b: Base, es: seq<Tree>): seq<Byte>
    requires ElementsValue(b, es)
    decreases b, 2, es
  {
    if es == [] then [] else WireBase(b, es[0]) + WireElements(b, es[1..])
  }

  function WireField(ty: FieldType, t: Tree): seq<Byte>
    requires FieldValue(ty, t)
    decreases ty, 0
  {
    match ty
    case One(b) => WireBase(b, t)
    case Varying(b) =>
      if t.List? then WireLength(|t.es|) + WireElements(b, t.es) else WireLength(|t.bs|) + t.bs
    case Fixed(b, _) =>
      if t.List? then WireElements(b, t.es) else t.bs
  }

  function WireFields(fields: seq<Field>, t: Tree): seq<Byte>
    requires FieldsValue(fields, t)
    decreases fields, 0
  {
    if fields == [] then [] else
      assert FieldAt(fields[0], t);
      assert forall i :: 0 <= i < |fields| - 1 ==> fields[1..][i] == fields[i + 1];
      WireField(fields[0].ty, Get(t, fields[0].path).value) + WireFields(fields[1..], t)
  }

  /* ---- what deserialization hands back ---- */

  function ByteOf(t: Tree): Byte {
    if t.Num? && 0 <= t.n < 256 then t.n else 0
  }

  /** The value with every byte array held as a byte string and only declared attributes. */
  function NormBase(b: Base, t: Tree): Tree
    requires BaseValue(b, t)
    decreases b, 1
  {
    match b
    case Prim(_) => t
    case Str => t
    case Msg(_, fields) => Obj(NormSlots(fields, t))
  }

  function NormElements(b: Base, es: seq<Tree>): (r: seq<Tree>)
    requires ElementsValue(b, es)
    ensures |r| == |es|
    decreases b, 2
  {
    seq(|es|, i requires 0 <= i < |es| => NormBase(b, es[i]))
  }

  function NormField(ty: FieldType, t: Tree): Tree
    requires FieldValue(ty, t)
    decreases ty, 0
  {
    if ty.One? then NormBase(ty.base, t)
    else if IsByteArray(ty) then
      if t.List? then Bytes(seq(|t.es|, i requires 0 <= i < |t.es| => ByteOf(t.es[i]))) else t
    else List(NormElements(ty.base, t.es))
  }

  /** The attributes of a message object. */
  function NormSlots(fields: seq<Field>, t: Tree): (m: map<string, Tree>)
    requires FieldsValue(fields, t) && OneComponent(fields)
    ensures m.Keys == SlotNames(fields)
    decreases fields, 0
  {
    if fields == [] then map[] else
      assert FieldAt(fields[0], t);
      assert forall i :: 0 <= i < |fields| - 1 ==> fields[1..][i] == fields[i + 1];
      NormSlots(fields[1..], t)[fields[0].path[0] := NormField(fields[0].ty, Get(t, fields[0].path).value)]
  }
}
