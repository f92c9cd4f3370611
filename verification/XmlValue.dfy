/** XmlRpcValue: values, their XML text and the recursive parser over a moving offset. */
module XmlValue {
  import opened TextSearch
  import opened XmlText
  import opened XmlNumbers
  import Base64

  const VALUE_TAG := "<value>"
  const VALUE_ETAG := "</value>"
  const BOOLEAN_TAG := "<boolean>"
  const BOOLEAN_ETAG := "</boolean>"
  const DOUBLE_TAG := "<double>"
  const DOUBLE_ETAG := "</double>"
  const INT_TAG := "<int>"
  const I4_TAG := "<i4>"
  const I4_ETAG := "</i4>"
  const STRING_TAG := "<string>"
  const DATETIME_TAG := "<dateTime.iso8601>"
  const DATETIME_ETAG := "</dateTime.iso8601>"
  const BASE64_TAG := "<base64>"
  const BASE64_ETAG := "</base64>"
  const ARRAY_TAG := "<array>"
  const DATA_TAG := "<data>"
  const DATA_ETAG := "</data>"
  const ARRAY_ETAG := "</array>"
  const STRUCT_TAG := "<struct>"
  const MEMBER_TAG := "<member>"
  const NAME_TAG := "<name>"
  const NAME_ETAG := "</name>"
  const MEMBER_ETAG := "</member>"
  const STRUCT_ETAG := "</struct>"

  /** A struct keeps its members in the order of their names, as std::map does. */
  datatype Value =
    | Invalid
    | Boolean(b: bool)
    | Int(i: int)
    | Double(text: string)
    | Str(s: string)
    | DateTime(tm: Tm)
    | Binary(bs: seq<bv8>)
    | Array(vs: seq<Value>)
    | Struct(ms: seq<Member>)

  datatype Member = Member(name: string, value: Value)

  /* ---- struct members ---- */

  /** std::string's order. */
  predicate Less(a: string, b: string) {
    b != "" && (a == "" || a[0] < b[0] || (a[0] == b[0] && Less(a[1..], b[1..])))
  }

  /** std::map::insert: a name that is already there keeps its value. */
  function Insert(ms: seq<Member>, m: Member): seq<Member> {
    if ms == [] then [m]
    else if ms[0].name == m.name then ms
    else if Less(m.name, ms[0].name) then [m] + ms
    else [ms[0]] + Insert(ms[1..], m)
  }

  /* ---- printing ---- */

  function Wrapped(tag: string, content: string, etag: string): string {
    VALUE_TAG + (tag + (content + (etag + VALUE_ETAG)))
  }

  function ToXml(v: Value): string
    decreases v, 0
  {
    match v
    case Invalid => ""
    case Boolean(b) => Wrapped(BOOLEAN_TAG, if b then "1" else "0", BOOLEAN_ETAG)
    case Int(i) => Wrapped(I4_TAG, PrintInt(i), I4_ETAG)
    case Double(t) => Wrapped(DOUBLE_TAG, t, DOUBLE_ETAG)
    case Str(s) => VALUE_TAG + (Encode(s) + VALUE_ETAG)
    case DateTime(tm) => Wrapped(DATETIME_TAG, PrintTm(tm), DATETIME_ETAG)
    case Binary(bs) => Wrapped(BASE64_TAG, Base64.Encode(bs), BASE64_ETAG)
    case Array(vs) => Wrapped(ARRAY_TAG, DATA_TAG + (ValuesToXml(vs) + DATA_ETAG), ARRAY_ETAG)
    case Struct(ms) => Wrapped(STRUCT_TAG, MembersToXml(ms), STRUCT_ETAG)
  }

  function ValuesToXml(vs: seq<Value>): string
    decreases vs, 0
  {
    if vs == [] then "" else ToXml(vs[0]) + ValuesToXml(vs[1..])
  }

  function MemberToXml(m: Member): string
    decreases m, 0
  {
    MEMBER_TAG + (NAME_TAG + (Encode(m.name) + (NAME_ETAG + (ToXml(m.value) + MEMBER_ETAG))))
  }

  function MembersToXml(ms: seq<Member>): string
    decreases ms, 0
  {
    if ms == [] then "" else MemberToXml(ms[0]) + MembersToXml(ms[1..])
  }

  /* ---- the printer as it runs: text appended in loops ---- */

  lemma {:induction false} ValuesToXmlMore(vs: seq<Value>, i: nat)
    requires i < |vs|
    ensures ValuesToXml(vs[..i + 1]) == ValuesToXml(vs[..i]) + ToXml(vs[i])
    decreases i
  {
    hide ToXml;
    if i == 0 {
      assert vs[..1] == [vs[0]] && vs[..1][1..] == [] && vs[..0] == [];
    } else {
      ValuesToXmlMore(vs[1..], i - 1);
      assert vs[..i + 1][1..] == vs[1..][..i] && vs[..i][1..] == vs[1..][..i - 1];
    }
  }

  lemma {:induction false} MembersToXmlMore(ms: seq<Member>, i: nat)
    requires i < |ms|
    ensures MembersToXml(ms[..i + 1]) == MembersToXml(ms[..i]) + MemberToXml(ms[i])
    decreases i
  {
    hide MemberToXml;
    if i == 0 {
      assert ms[..1] == [ms[0]] && ms[..1][1..] == [] && ms[..0] == [];
    } else {
      MembersToXmlMore(ms[1..], i - 1);
      assert ms[..i + 1][1..] == ms[1..][..i] && ms[..i][1..] == ms[1..][..i - 1];
    }
  }

  method PrintValue(v: Value) returns (xml: string)
    ensures xml == ToXml(v)
    decreases v, 1
  {
    hide Encode, PrintInt, PrintTm, Base64.Encode, ValuesToXml, MembersToXml, Wrapped;
    match v
    case Invalid => xml := "";
    case Boolean(b) => xml := PrintScalar(BOOLEAN_TAG, if b then "1" else "0", BOOLEAN_ETAG);
    case Int(i) => xml := PrintScalar(I4_TAG, PrintInt(i), I4_ETAG);
    case Double(t) => xml := PrintScalar(DOUBLE_TAG, t, DOUBLE_ETAG);
    case Str(s) => xml := PrintString(s);
    case DateTime(tm) => xml := PrintScalar(DATETIME_TAG, PrintTm(tm), DATETIME_ETAG);
    case Binary(bs) =>
      var base64data := Base64.Put(bs);
      xml := PrintScalar(BASE64_TAG, base64data, BASE64_ETAG);
    case Array(vs) => xml := PrintArray(vs);
    case Struct(ms) => xml := PrintStruct(ms);
  }

  /** A scalar between its tags, appended piece by piece. */
  method PrintScalar(tag: string, content: string, etag: string) returns (xml: string)
    ensures xml == Wrapped(tag, content, etag)
  {
    xml := VALUE_TAG;
    xml := xml + tag;
    xml := xml + content;
    xml := xml + etag;
    xml := xml + VALUE_ETAG;
  }

  /** A string has no type tag. */
  method PrintString(s: string) returns (xml: string)
    ensures xml == VALUE_TAG + (Encode(s) + VALUE_ETAG)
  {
    hide Encode;
    xml := VALUE_TAG;
    var encoded := XmlEncode(s);
    xml := xml + encoded;
    xml := xml + VALUE_ETAG;
  }

  method PrintArray(vs: seq<Value>) returns (xml: string)
    ensures xml == Wrapped(ARRAY_TAG, DATA_TAG + (ValuesToXml(vs) + DATA_ETAG), ARRAY_ETAG)
    decreases vs, 0
  {
    hide ToXml, ValuesToXml;
    xml := VALUE_TAG + ARRAY_TAG + DATA_TAG;
    ghost var head := xml;
    NoValues();
    for i := 0 to |vs|
      invariant xml == head + ValuesToXml(vs[..i])
    {
      var x := PrintValue(vs[i]);
      ValuesToXmlMore(vs, i);
      xml := xml + x;
    }
    assert vs[..|vs|] == vs;
    xml := xml + DATA_ETAG + ARRAY_ETAG + VALUE_ETAG;
  }

  lemma NoValues()
    ensures forall vs: seq<Value> :: ValuesToXml(vs[..0]) == ""
    ensures forall ms: seq<Member> :: MembersToXml(ms[..0]) == ""
  {
  }

  method PrintStruct(ms: seq<Member>) returns (xml: string)
    ensures xml == Wrapped(STRUCT_TAG, MembersToXml(ms), STRUCT_ETAG)
    decreases ms, 0
  {
    hide ToXml, MembersToXml, Encode;
    xml := VALUE_TAG + STRUCT_TAG;
    ghost var head := xml;
    NoValues();
    for i := 0 to |ms|
      invariant xml == head + MembersToXml(ms[..i])
    {
      var x := PrintValue(ms[i].value);
      MembersToXmlMore(ms, i);
      xml := xml + MEMBER_TAG + NAME_TAG + Encode(ms[i].name) + NAME_ETAG + x + MEMBER_ETAG;
    }
    assert ms[..|ms|] == ms;
    xml := xml + STRUCT_ETAG + VALUE_ETAG;
  }

  /* ---- parsing ---- */

  /** Success with a value, or failure; and the offset afterwards. */
  datatype Parsed = Parsed(ok: bool, value: Value, off: nat)

  function Failed(off: nat): Parsed {
    Parsed(false, Invalid, off)
  }

  /** What every parser promises when it starts at `off`. */
  predicate Moves(p: Parsed, xml: string, off: nat) {
    p.ok ==> off <= p.off <= |xml| && !p.value.Invalid?
  }

  function BoolFromXml(xml: string, off: nat): (p: Parsed)
    requires off <= |xml|
    ensures Moves(p, xml, off)
  {
    var r := Strtol(xml, off);
    if r.NoNumber? || (r.n != 0 && r.n != 1) then Failed(off) else Parsed(true, Boolean(r.n == 1), r.end)
  }

  function IntFromXml(xml: string, off: nat): (p: Parsed)
    requires off <= |xml|
    ensures Moves(p, xml, off)
  {
    var r := Strtol(xml, off);
    if r.NoNumber? then Failed(off) else Parsed(true, Int(ToInt32(r.n)), r.end)
  }

  function DoubleFromXml(xml: string, off: nat): (p: Parsed)
    requires off <= |xml|
    ensures Moves(p, xml, off)
  {
    var i := SkipSpaces(xml, off);
    var j := DoubleEnd(xml, i);
    if j == i then Failed(off) else Parsed(true, Double(xml[i..j]), j)
  }

  /** Advances by the length of the decoded text, which may be less than what was read. */
  function StringFromXml(xml: string, off: nat): (p: Parsed)
    requires off <= |xml|
    ensures Moves(p, xml, off)
  {
    var end := FindChar(xml, '<', off);
    if end.Npos? then Failed(off)
    else
      var s := Decode(xml[off..end.i]);
      Parsed(true, Str(s), off + |s|)
  }

  function TimeFromXml(xml: string, off: nat): (p: Parsed)
    requires off <= |xml|
    ensures Moves(p, xml, off)
  {
    var end := FindChar(xml, '<', off);
    if end.Npos? then Failed(off)
    else
      var t := ScanTm(xml[off..end.i]);
      if t.NoTm? then Failed(off) else Parsed(true, DateTime(t.t), end.i)
  }

  function BinaryFromXml(xml: string, off: nat): (p: Parsed)
    requires off <= |xml|
    ensures Moves(p, xml, off)
  {
    var end := FindChar(xml, '<', off);
    if end.Npos? then Failed(off) else Parsed(true, Binary(Base64.Decode(xml[off..end.i]).data), end.i)
  }

  /**
   A value at `off`. On every text the parser stops; success moves the offset on by at least
   the seven characters of the value tag and never past the end, failure leaves it alone.
   */
  function FromXml(xml: string, off: nat): (p: Parsed)
    requires off <= |xml|
    ensures Moves(p, xml, off)
    ensures p.ok ==> off + 7 <= p.off
    ensures !p.ok ==> p == Failed(off)
    decreases |xml| - off, 3
  {
    var v := NextTagIs(VALUE_TAG, xml, off);
    if !v.ok then Failed(off)
    else
      var tag := GetNextTag(xml, v.off);
      var p := TypedFromXml(tag.text, xml, v.off, tag.off);
      if !p.ok then Failed(off) else Parsed(true, p.value, FindTag(VALUE_ETAG, xml, p.off).off)
  }

  /** The dispatch on the type tag; `after` is the offset before that tag. */
  function TypedFromXml(tag: string, xml: string, after: nat, off: nat): (p: Parsed)
    requires after <= off <= |xml|
    ensures Moves(p, xml, after)
    decreases |xml| - after, 2
  {
    if tag == BOOLEAN_TAG then BoolFromXml(xml, off)
    else if tag == I4_TAG || tag == INT_TAG then IntFromXml(xml, off)
    else if tag == DOUBLE_TAG then DoubleFromXml(xml, off)
    else if tag == "" || tag == STRING_TAG then StringFromXml(xml, off)
    else if tag == DATETIME_TAG then TimeFromXml(xml, off)
    else if tag == BASE64_TAG then BinaryFromXml(xml, off)
    else if tag == ARRAY_TAG then ArrayFromXml(xml, off)
    else if tag == STRUCT_TAG then StructFromXml(xml, off)
    else if tag == VALUE_ETAG then StringFromXml(xml, after)
    else Failed(off)
  }

  datatype ValueList = ValueList(vs: seq<Value>, off: nat)

  function ArrayFromXml(xml: string, off: nat): (p: Parsed)
    requires off <= |xml|
    ensures Moves(p, xml, off)
    decreases |xml| - off, 1
  {
    var d := NextTagIs(DATA_TAG, xml, off);
    if !d.ok then Failed(off)
    else
      var l := ValuesFromXml(xml, d.off);
      Parsed(true, Array(l.vs), NextTagIs(DATA_ETAG, xml, l.off).off)
  }

  /** Values until one cannot be parsed. */
  function ValuesFromXml(xml: string, off: nat): (l: ValueList)
    requires off <= |xml|
    ensures off <= l.off <= |xml|
    decreases |xml| - off, 4
  {
    var p := FromXml(xml, off);
    if !p.ok then ValueList([], off)
    else
      var rest := ValuesFromXml(xml, p.off);
      ValueList([p.value] + rest.vs, rest.off)
  }

  function StructFromXml(xml: string, off: nat): (p: Parsed)
    requires off <= |xml|
    ensures Moves(p, xml, off)
    decreases |xml| - off, 1
  {
    MembersFromXml(xml, off, [])
  }

  /** Members until there is no further member tag; one bad value spoils the struct. */
  function MembersFromXml(xml: string, off: nat, ms: seq<Member>): (p: Parsed)
    requires off <= |xml|
    ensures Moves(p, xml, off)
    decreases |xml| - off, 0
  {
    var m := NextTagIs(MEMBER_TAG, xml, off);
    if !m.ok then Parsed(true, Struct(ms), off)
    else
      var name := ParseTag(NAME_TAG, xml, m.off);
      var p := FromXml(xml, name.off);
      if !p.ok then Failed(off)
      else MembersFromXml(xml, NextTagIs(MEMBER_ETAG, xml, p.off).off, Insert(ms, Member(name.text, p.value)))
  }

  /* ---- the parser as it runs: offsets updated in loops ---- */

  method ParseValue(xml: string, off: nat) returns (ok: bool, v: Value, off': nat)
    requires off <= |xml|
    ensures Parsed(ok, v, off') == FromXml(xml, off)
    decreases |xml| - off, 3
  {
    hide NextTagIs, GetNextTag, FindTag, BoolFromXml, IntFromXml, DoubleFromXml, StringFromXml, TimeFromXml;
    hide BinaryFromXml;
    hide ArrayFromXml, StructFromXml;
    var savedOffset := off;
    ok, v, off' := false, Invalid, off;
    var found := NextTagIs(VALUE_TAG, xml, off);
    if !found.ok {
      return;
    }
    var afterValueOffset := found.off;
    var tag := GetNextTag(xml, afterValueOffset);
    if tag.text == ARRAY_TAG {
      ok, v, off' := ParseArray(xml, tag.off);
    } else if tag.text == STRUCT_TAG {
      ok, v, off' := ParseStruct(xml, tag.off);
    } else {
      var p := TypedFromXml(tag.text, xml, afterValueOffset, tag.off);
      ok, v, off' := p.ok, p.value, p.off;
    }
    if ok {
      off' := FindTag(VALUE_ETAG, xml, off').off;
    } else {
      v, off' := Invalid, savedOffset;
    }
  }

  method ParseArray(xml: string, off: nat) returns (ok: bool, v: Value, off': nat)
    requires off <= |xml|
    ensures Parsed(ok, v, off') == ArrayFromXml(xml, off)
    decreases |xml| - off, 1
  {
    hide FromXml;
    ok, v, off' := false, Invalid, off;
    var d := NextTagIs(DATA_TAG, xml, off);
    if !d.ok {
      return;
    }
    off' := d.off;
    var vs: seq<Value> := [];
    while true
      invariant d.off <= off' <= |xml|
      invariant var l := ValuesFromXml(xml, off'); ValuesFromXml(xml, d.off) == ValueList(vs + l.vs, l.off)
      decreases |xml| - off'
    {
      var more, x, next := ParseValue(xml, off');
      ghost var rest := ValuesFromXml(xml, next);
      if !more {
        assert vs + [] == vs;
        break;
      }
      assert vs + ([x] + rest.vs) == vs + [x] + rest.vs;
      vs := vs + [x];
      off' := next;
    }
    ok, v, off' := true, Array(vs), NextTagIs(DATA_ETAG, xml, off').off;
  }

  /** On failure the offset is whatever the loop had reached: ParseValue puts it back. */
  method ParseStruct(xml: string, off: nat) returns (ok: bool, v: Value, off': nat)
    requires off <= |xml|
    ensures var p := StructFromXml(xml, off); ok == p.ok && v == p.value && (ok ==> off' == p.off)
    decreases |xml| - off, 1
  {
    hide FromXml, Insert;
    ok, v, off' := true, Invalid, off;
    var ms: seq<Member> := [];
    while true
      invariant off <= off' <= |xml| && ok
      invariant var p := MembersFromXml(xml, off', ms); var q := StructFromXml(xml, off);
        p.ok == q.ok && p.value == q.value && (p.ok ==> p.off == q.off)
      decreases |xml| - off'
    {
      var m := NextTagIs(MEMBER_TAG, xml, off');
      if !m.ok {
        v := Struct(ms);
        break;
      }
      var name := ParseTag(NAME_TAG, xml, m.off);
      var good, x, next := ParseValue(xml, name.off);
      if !good {
        ok, v := false, Invalid;
        break;
      }
      ms := Insert(ms, Member(name.text, x));
      off' := NextTagIs(MEMBER_ETAG, xml, next).off;
    }
  }
}
