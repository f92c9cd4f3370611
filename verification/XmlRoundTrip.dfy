/** Parsing what was printed, in any context. */
module XmlRoundTrip {
  import opened DecimalText
  import opened TextSearch
  import opened XmlText
  import opened XmlNumbers
  import opened XmlValue
  import Base64

  /* ---- what the tag functions do on a tag that is there ---- */

  lemma NextTagHit(tag: string, xml: string, off: nat)
    requires tag != "" && tag[0] == '<' && |xml| <= INT_MAX && At(xml, off, tag)
    ensures NextTagIs(tag, xml, off) == Step(true, off + |tag|)
  {
    AtChar(xml, off, tag, 0);
    SkipNone(xml, off);
  }

  lemma NextTagMiss(tag: string, xml: string, off: nat, other: string, k: nat)
    requires k < |tag| && k < |other| && tag[k] != other[k] && other[0] == '<' && At(xml, off, other)
    ensures NextTagIs(tag, xml, off) == Step(false, off)
  {
    AtChar(xml, off, other, 0);
    SkipNone(xml, off);
    AtChar(xml, off, other, k);
    AtMismatch(xml, off, tag, k);
  }

  /** A tag as the printer writes it: one '<', one '>'. */
  predicate IsTag(tag: string) {
    && |tag| >= 2 && tag[0] == '<' && tag[|tag| - 1] == '>'
    && forall k :: 0 < k < |tag| - 1 ==> tag[k] != '<' && tag[k] != '>' && tag[k] != '\0'
  }

  /** An end tag that cannot be taken for the end of a value. */
  predicate IsEndTag(tag: string) {
    IsTag(tag) && |tag| >= 4 && tag[1] == '/' && tag[2] != 'v'
  }

  lemma {:induction false} TagEndIs(s: string, i: nat, j: nat)
    requires i < j <= |s| && s[j - 1] == '>'
    requires forall k :: i <= k < j - 1 ==> s[k] != '>'
    requires forall k :: i < k < j ==> s[k] != '\0'
    ensures TagEnd(s, i) == j
    decreases j - i
  {
    if i + 1 < j {
      TagEndIs(s, i + 1, j);
    }
  }

  lemma TagHere(xml: string, off: nat, tag: string)
    requires |xml| <= INT_MAX && IsTag(tag) && At(xml, off, tag)
    ensures GetNextTag(xml, off) == Tagged(tag, off + |tag|)
  {
    AtSlice(xml, off, tag);
    forall k | 0 <= k < |tag| ensures xml[off + k] == tag[k] {
      AtChar(xml, off, tag, k);
    }
    SkipNone(xml, off);
    forall k | off <= k < off + |tag| ensures xml[k] == tag[k - off] {
      assert xml[off + (k - off)] == tag[k - off];
    }
    TagEndIs(xml, off, off + |tag|);
  }

  /** The search for the end of a value passes over anything that does not look like it. */
  lemma EtagFound(xml: string, off: nat, j: nat)
    requires |xml| <= INT_MAX && off <= j && At(xml, j, VALUE_ETAG)
    requires forall k :: off <= k < j ==> xml[k] != '<' || xml[k + 2] != 'v'
    ensures FindTag(VALUE_ETAG, xml, off) == Step(true, j + 8)
  {
    forall k | off <= k < j ensures !At(xml, k, VALUE_ETAG) {
      AtMismatch(xml, k, VALUE_ETAG, if xml[k] != '<' then 0 else 2);
    }
    FindIs(xml, VALUE_ETAG, off, j);
  }

  lemma EtagAfter(xml: string, off: nat, etag: string)
    requires |xml| <= INT_MAX && IsEndTag(etag) && At(xml, off, etag) && At(xml, off + |etag|, VALUE_ETAG)
    ensures FindTag(VALUE_ETAG, xml, off) == Step(true, off + |etag| + 8)
  {
    var j := off + |etag|;
    forall k | off <= k < j ensures xml[k] != '<' || xml[k + 2] != 'v' {
      AtChar(xml, off, etag, k - off);
      if k == off {
        AtChar(xml, off, etag, 2);
      } else if k == j - 1 {
        assert xml[k] == '>';
      }
    }
    EtagFound(xml, off, j);
  }

  /** The first '<' is where the content ends. */
  lemma AngleAfter(xml: string, off: nat, content: string, etag: string)
    requires At(xml, off, content) && At(xml, off + |content|, etag) && etag != "" && etag[0] == '<'
    requires forall k :: 0 <= k < |content| ==> content[k] != '<'
    ensures FindChar(xml, '<', off) == Pos(off + |content|)
  {
    var j := off + |content|;
    AtChar(xml, j, etag, 0);
    forall k | off <= k < j ensures xml[k] != '<' {
      AtChar(xml, off, content, k - off);
    }
    var r := FindChar(xml, '<', off);
    if r.Pos? && r.i < j {
      assert false;
    }
  }

  /* ---- the pieces of a wrapped value ---- */

  lemma WrappedParts(xml: string, off: nat, tag: string, content: string, etag: string)
    requires At(xml, off, Wrapped(tag, content, etag))
    ensures var i := off + 7; var j := i + |tag|; var k := j + |content|;
      && At(xml, off, VALUE_TAG) && At(xml, i, tag) && At(xml, j, content)
      && At(xml, k, etag) && At(xml, k + |etag|, VALUE_ETAG)
  {
    hide At;
    AtSplit(xml, off, VALUE_TAG, tag + (content + (etag + VALUE_ETAG)));
    AtSplit(xml, off + 7, tag, content + (etag + VALUE_ETAG));
    AtSplit(xml, off + 7 + |tag|, content, etag + VALUE_ETAG);
    AtSplit(xml, off + 7 + |tag| + |content|, etag, VALUE_ETAG);
  }

  /** From the content to the whole value. */
  lemma WrappedTrip(xml: string, off: nat, tag: string, content: string, etag: string, v: Value)
    requires |xml| <= INT_MAX && off <= |xml| && At(xml, off, Wrapped(tag, content, etag)) && IsTag(tag)
    requires IsEndTag(etag)
    requires off + 7 + |tag| <= |xml|
    requires var i := off + 7 + |tag|; TypedFromXml(tag, xml, off + 7, i) == Parsed(true, v, i + |content|)
    ensures FromXml(xml, off) == Parsed(true, v, off + |Wrapped(tag, content, etag)|)
  {
    hide At, IsTag, IsEndTag, NextTagIs, GetNextTag, TypedFromXml, FindTag;
    WrappedParts(xml, off, tag, content, etag);
    NextTagHit(VALUE_TAG, xml, off);
    TagHere(xml, off + 7, tag);
    EtagAfter(xml, off + 7 + |tag| + |content|, etag);
  }

  lemma WrappedFails(xml: string, off: nat, tag: string, content: string, etag: string)
    requires |xml| <= INT_MAX && off <= |xml| && At(xml, off, Wrapped(tag, content, etag)) && IsTag(tag)
    requires off + 7 + |tag| <= |xml| && !TypedFromXml(tag, xml, off + 7, off + 7 + |tag|).ok
    ensures FromXml(xml, off) == Failed(off)
  {
    hide At, IsTag, NextTagIs, GetNextTag, TypedFromXml, Wrapped, FindTag;
    WrappedParts(xml, off, tag, content, etag);
    NextTagHit(VALUE_TAG, xml, off);
    TagHere(xml, off + 7, tag);
  }

  /* ---- scalars ---- */

  lemma BooleanTrip(b: bool, xml: string, off: nat)
    requires |xml| <= INT_MAX && off <= |xml| && At(xml, off, ToXml(Boolean(b)))
    ensures FromXml(xml, off) == Parsed(true, Boolean(b), off + |ToXml(Boolean(b))|)
  {
    hide At, FromXml, Strtol, Decimal;
    var content := if b then "1" else "0";
    WrappedParts(xml, off, BOOLEAN_TAG, content, BOOLEAN_ETAG);
    var i := off + 16;
    var n := if b then 1 else 0;
    assert PrintInt(n) == content by { DigitText(); }
    AtChar(xml, i + 1, BOOLEAN_ETAG, 0);
    StrtolPrinted(xml, i, n);
    WrappedTrip(xml, off, BOOLEAN_TAG, content, BOOLEAN_ETAG, Boolean(b));
  }

  lemma IntTrip(n: int, xml: string, off: nat)
    requires |xml| <= INT_MAX && off <= |xml| && At(xml, off, ToXml(Int(n))) && INT32_MIN <= n <= INT32_MAX
    ensures FromXml(xml, off) == Parsed(true, Int(n), off + |ToXml(Int(n))|)
  {
    hide At, FromXml, Strtol, PrintInt, ToInt32;
    WrappedParts(xml, off, I4_TAG, PrintInt(n), I4_ETAG);
    var i := off + 11;
    AtChar(xml, i + |PrintInt(n)|, I4_ETAG, 0);
    StrtolPrinted(xml, i, n);
    ToInt32Same(n);
    assert I4_TAG != BOOLEAN_TAG;
    WrappedTrip(xml, off, I4_TAG, PrintInt(n), I4_ETAG, Int(n));
  }

  lemma DoubleTrip(t: string, xml: string, off: nat)
    requires |xml| <= INT_MAX && off <= |xml| && At(xml, off, ToXml(Double(t))) && IsDoubleText(t)
    ensures FromXml(xml, off) == Parsed(true, Double(t), off + |ToXml(Double(t))|)
  {
    hide At, FromXml, DoubleEnd;
    WrappedParts(xml, off, DOUBLE_TAG, t, DOUBLE_ETAG);
    var i := off + 15;
    AtChar(xml, i + |t|, DOUBLE_ETAG, 0);
    DoubleEndIs(xml, i, t);
    AtChar(xml, i, t, 0);
    SkipNone(xml, i);
    AtSlice(xml, i, t);
    assert DOUBLE_TAG != BOOLEAN_TAG && DOUBLE_TAG != I4_TAG && DOUBLE_TAG != INT_TAG;
    WrappedTrip(xml, off, DOUBLE_TAG, t, DOUBLE_ETAG, Double(t));
  }

  lemma TypedTime(xml: string, after: nat, off: nat)
    requires after <= off <= |xml|
    ensures TypedFromXml(DATETIME_TAG, xml, after, off) == TimeFromXml(xml, off)
  {
    hide TimeFromXml;
    assert DATETIME_TAG[1] == DOUBLE_TAG[1] == 'd' && DATETIME_TAG[2] == 'a' && DOUBLE_TAG[2] == 'o';
    assert BOOLEAN_TAG[1] == 'b' && I4_TAG[1] == INT_TAG[1] == 'i' && STRING_TAG[1] == 's';
  }

  lemma TimeText(content: string, xml: string, i: nat)
    requires i <= |xml| && At(xml, i, content) && At(xml, i + |content|, DATETIME_ETAG) && NoAngle(content)
    ensures var r := ScanTm(content);
      TimeFromXml(xml, i) == if r.NoTm? then Failed(i) else Parsed(true, DateTime(r.t), i + |content|)
  {
    hide At, ScanTm, FindChar;
    AngleAfter(xml, i, content, DATETIME_ETAG);
    AtSlice(xml, i, content);
  }

  /** Parsing a printed date-time comes down to scanning its text. */
  lemma TimeScanned(t: Tm, xml: string, off: nat)
    requires |xml| <= INT_MAX && off <= |xml| && At(xml, off, ToXml(DateTime(t)))
    ensures var r := ScanTm(PrintTm(t));
      FromXml(xml, off) == if r.NoTm? then Failed(off) else Parsed(true, DateTime(r.t), off + |ToXml(DateTime(t))|)
  {
    hide At, FromXml, PrintTm, ScanTm, TypedFromXml, TimeFromXml, IsTag, IsEndTag, NoAngle, Wrapped, Moves;
    var content := PrintTm(t);
    WrappedParts(xml, off, DATETIME_TAG, content, DATETIME_ETAG);
    var i := off + 25;
    AtSlice(xml, i, content);
    PrintTmNoAngle(t);
    TimeText(content, xml, i);
    TypedTime(xml, off + 7, i);
    TimeTags();
    var r := ScanTm(content);
    if r.NoTm? {
      WrappedFails(xml, off, DATETIME_TAG, content, DATETIME_ETAG);
    } else {
      WrappedTrip(xml, off, DATETIME_TAG, content, DATETIME_ETAG, DateTime(r.t));
    }
  }

  lemma TimeTags()
    ensures IsTag(DATETIME_TAG) && IsEndTag(DATETIME_ETAG)
  {
  }

  /** In any surrounding text a date-time comes back exactly when it is readable. */
  lemma TimeTripIff(t: Tm, xml: string, off: nat)
    requires |xml| <= INT_MAX && off <= |xml| && At(xml, off, ToXml(DateTime(t)))
    ensures FromXml(xml, off) == Parsed(true, DateTime(t), off + |ToXml(DateTime(t))|) <==> ReadableTm(t)
  {
    hide At, FromXml, PrintTm, ScanTm, ToXml, ReadableTm;
    TimeScanned(t, xml, off);
    ScanPrintTmIff(t);
  }

  /** 15 January 2024, counted as `struct tm` counts, comes back as month 1 and day 5 of the year 1240. */
  lemma CommonYearMisread()
    ensures var xml := ToXml(DateTime(Tm(124, 0, 15, 1, 2, 3)));
      FromXml(xml, 0) == Parsed(true, DateTime(Tm(1240, 1, 5, 1, 2, 3)), |xml|)
  {
    hide At, FromXml, PrintTm, ScanTm;
    var t := Tm(124, 0, 15, 1, 2, 3);
    var xml := ToXml(DateTime(t));
    PrintTmParts(t);
    AtAll(xml);
    TimeScanned(t, xml, 0);
    ThreeDigitYear(t);
  }

  lemma TypedBinary(xml: string, after: nat, off: nat)
    requires after <= off <= |xml|
    ensures TypedFromXml(BASE64_TAG, xml, after, off) == BinaryFromXml(xml, off)
  {
    hide BinaryFromXml;
    assert BASE64_TAG[1] == BOOLEAN_TAG[1] == 'b' && BASE64_TAG[2] == 'a' && BOOLEAN_TAG[2] == 'o';
    assert I4_TAG[1] == INT_TAG[1] == 'i' && STRING_TAG[1] == 's' && DOUBLE_TAG[1] == DATETIME_TAG[1] == 'd';
  }

  lemma BinaryTrip(bs: seq<bv8>, xml: string, off: nat)
    requires |xml| <= INT_MAX && off <= |xml| && At(xml, off, ToXml(Binary(bs)))
    ensures FromXml(xml, off) == Parsed(true, Binary(bs), off + |ToXml(Binary(bs))|)
  {
    hide At, FromXml, Base64.EncodeFrom, Base64.Decode, TypedFromXml;
    var content := Base64.Encode(bs);
    WrappedParts(xml, off, BASE64_TAG, content, BASE64_ETAG);
    var i := off + 15;
    Base64.EncodeNoAngle(bs, 0);
    AngleAfter(xml, i, content, BASE64_ETAG);
    AtSlice(xml, i, content);
    Base64.DecodeEncode(bs);
    TypedBinary(xml, off + 7, i);
    WrappedTrip(xml, off, BASE64_TAG, content, BASE64_ETAG, Binary(bs));
  }

  /* ---- strings ---- */

  /** A text without a type tag is a string, blank or not. */
  lemma NoTypeTag(xml: string, i: nat, content: string)
    requires |xml| <= INT_MAX && i <= |xml| && At(xml, i, content) && At(xml, i + |content|, VALUE_ETAG)
    requires forall k :: 0 <= k < |content| ==> content[k] != '<'
    ensures var g := GetNextTag(xml, i); g.off <= |xml| && (g == Tagged("", i) || g.text == VALUE_ETAG)
  {
    var e := i + |content|;
    AtChar(xml, e, VALUE_ETAG, 0);
    var j := SkipSpaces(xml, i);
    assert j <= e;
    if j < e {
      AtChar(xml, i, content, j - i);
    } else {
      TagHere(xml, e, VALUE_ETAG);
      SkipNone(xml, e);
    }
  }

  lemma TypedString(tag: string, xml: string, i: nat, off: nat)
    requires i <= off <= |xml| && ((tag == "" && off == i) || tag == VALUE_ETAG)
    ensures TypedFromXml(tag, xml, i, off) == StringFromXml(xml, i)
  {
    hide StringFromXml;
    if tag == VALUE_ETAG {
      assert tag[1] == '/';
    }
  }

  /**
   The parser moves on by the decoded length only, which leaves it inside the text it has
   read; since encoded text has no '<', the search for the end tag finds the right one.
   */
  lemma StringTrip(s: string, xml: string, off: nat)
    requires |xml| <= INT_MAX && off <= |xml| && At(xml, off, ToXml(Str(s)))
    ensures FromXml(xml, off) == Parsed(true, Str(s), off + |ToXml(Str(s))|)
  {
    hide At, Encode, Decode, NextTagIs, GetNextTag, TypedFromXml, FindTag, FindChar;
    var content := Encode(s);
    var i := off + 7;
    AtSplit(xml, off, VALUE_TAG, content + VALUE_ETAG);
    AtSplit(xml, i, content, VALUE_ETAG);
    AtSlice(xml, i, content);
    AtSlice(xml, i + |content|, VALUE_ETAG);
    NextTagHit(VALUE_TAG, xml, off);
    EncodeClean(s);
    assert forall k :: 0 <= k < |content| ==> content[k] != '<';
    NoTypeTag(xml, i, content);
    var g := GetNextTag(xml, i);
    TypedString(g.text, xml, i, g.off);
    AngleAfter(xml, i, content, VALUE_ETAG);
    DecodeEncode(s);
    var p := TypedFromXml(g.text, xml, i, g.off);
    assert p == Parsed(true, Str(s), i + |s|);
    forall k | i + |s| <= k < i + |content| ensures xml[k] != '<' {
      AtChar(xml, i, content, k - i);
    }
    EtagFound(xml, i + |s|, i + |content|);
  }

  /* ---- structs as ordered maps ---- */

  lemma {:induction false} LessIrreflexive(a: string)
    ensures !Less(a, a)
  {
    if a != "" {
      LessIrreflexive(a[1..]);
    }
  }

  lemma {:induction false} LessTransitive(a: string, b: string, c: string)
    requires Less(a, b) && Less(b, c)
    ensures Less(a, c)
  {
    if a != "" && a[0] == b[0] == c[0] {
      LessTransitive(a[1..], b[1..], c[1..]);
    }
  }

  lemma {:induction false} LessTotal(a: string, b: string)
    ensures a == b || Less(a, b) || Less(b, a)
  {
    if a != "" && b != "" && a[0] == b[0] {
      LessTotal(a[1..], b[1..]);
      assert a == [a[0]] + a[1..] && b == [b[0]] + b[1..];
    }
  }

  /** Strictly increasing names: what a std::map holds. */
  predicate Sorted(ms: seq<Member>) {
    forall i, j :: 0 <= i < j < |ms| ==> Less(ms[i].name, ms[j].name)
  }

  predicate HasName(ms: seq<Member>, name: string) {
    exists i :: 0 <= i < |ms| && ms[i].name == name
  }

  /** The names bound by a struct, and their values. */
  ghost predicate SameMembers(ms: seq<Member>, ns: seq<Member>) {
    forall m :: m in ms <==> m in ns
  }

  lemma {:induction false} InsertSorted(ms: seq<Member>, m: Member)
    requires Sorted(ms)
    ensures Sorted(Insert(ms, m))
    ensures forall n :: n in Insert(ms, m) <==> n in ms || (n == m && !HasName(ms, m.name))
  {
    if ms == [] {
    } else if ms[0].name == m.name {
      assert HasName(ms, m.name);
    } else if Less(m.name, ms[0].name) {
      InsertFirst(ms, m);
    } else {
      LessTotal(m.name, ms[0].name);
      InsertSorted(ms[1..], m);
      InsertLater(ms, m, Insert(ms[1..], m));
    }
  }

  lemma InsertFirst(ms: seq<Member>, m: Member)
    requires Sorted(ms) && ms != [] && Less(m.name, ms[0].name)
    ensures Sorted([m] + ms) && !HasName(ms, m.name)
  {
    hide Less;
    forall j | 0 <= j < |ms| ensures Less(m.name, ms[j].name) && m.name != ms[j].name {
      if j > 0 {
        LessTransitive(m.name, ms[0].name, ms[j].name);
      }
      LessIrreflexive(m.name);
    }
  }

  lemma InsertLater(ms: seq<Member>, m: Member, rest: seq<Member>)
    requires Sorted(ms) && ms != [] && Less(ms[0].name, m.name) && ms[0].name != m.name && Sorted(rest)
    requires forall n :: n in rest <==> n in ms[1..] || (n == m && !HasName(ms[1..], m.name))
    ensures Sorted([ms[0]] + rest)
    ensures forall n :: n in [ms[0]] + rest <==> n in ms || (n == m && !HasName(ms, m.name))
  {
    hide Less;
    forall j | 0 <= j < |rest| ensures Less(ms[0].name, rest[j].name) {
      assert rest[j] in rest;
      if rest[j] != m {
        assert rest[j] in ms[1..];
      }
    }
    assert HasName(ms, m.name) <==> HasName(ms[1..], m.name) by {
      if HasName(ms, m.name) {
        var i :| 0 <= i < |ms| && ms[i].name == m.name;
        assert ms[1..][i - 1].name == m.name;
      }
    }
    assert ms == [ms[0]] + ms[1..];
  }

  function InsertAll(ms: seq<Member>, ns: seq<Member>): seq<Member>
    decreases ns
  {
    if ns == [] then ms else InsertAll(Insert(ms, ns[0]), ns[1..])
  }

  /** The value with every member name replaced by its encoding. */
  function Renamed(v: Value): Value
    decreases v, 0
  {
    match v
    case Array(vs) => Array(RenamedValues(vs))
    case Struct(ms) => Struct(InsertAll([], RenamedMembers(ms)))
    case _ => v
  }

  function RenamedValues(vs: seq<Value>): seq<Value>
    decreases vs, 0
  {
    if vs == [] then [] else [Renamed(vs[0])] + RenamedValues(vs[1..])
  }

  function RenamedMembers(ms: seq<Member>): seq<Member>
    decreases ms, 0
  {
    if ms == [] then [] else [Member(Encode(ms[0].name), Renamed(ms[0].value))] + RenamedMembers(ms[1..])
  }

  /** Values without an invalid node, with numbers in their formats' range and structs that are maps. */
  predicate Formed(v: Value)
    decreases v, 0
  {
    match v
    case Invalid => false
    case Int(i) => INT32_MIN <= i <= INT32_MAX
    case Double(t) => IsDoubleText(t)
    case Array(vs) => forall v :: v in vs ==> Formed(v)
    case Struct(ms) => Sorted(ms) && forall m :: m in ms ==> Formed(m.value)
    case _ => true
  }

  /** Every date-time, at any depth, is readable. */
  predicate ReadableTimes(v: Value)
    decreases v, 0
  {
    match v
    case DateTime(tm) => ReadableTm(tm)
    case Array(vs) => forall v :: v in vs ==> ReadableTimes(v)
    case Struct(ms) => forall m :: m in ms ==> ReadableTimes(m.value)
    case _ => true
  }

  /** The values whose text can be read back. */
  predicate Printable(v: Value) {
    Formed(v) && ReadableTimes(v)
  }

  /* ---- the round trip ---- */

  /**
   In any surrounding text, parsing the printed value succeeds, stops exactly at its end and
   gives the value back with its member names encoded.
   */
  lemma {:induction false} RoundTrip(v: Value, xml: string, off: nat)
    requires Printable(v) && |xml| <= INT_MAX && off <= |xml| && At(xml, off, ToXml(v))
    ensures FromXml(xml, off) == Parsed(true, Renamed(v), off + |ToXml(v)|)
    decreases v, 0
  {
    hide At, FromXml, Encode, PrintInt, PrintTm, Base64.Encode, Wrapped, Sorted;
    match v
    case Boolean(b) => BooleanTrip(b, xml, off);
    case Int(i) => IntTrip(i, xml, off);
    case Double(t) => DoubleTrip(t, xml, off);
    case Str(s) => StringTrip(s, xml, off);
    case DateTime(tm) => TimeTripIff(tm, xml, off);
    case Binary(bs) => BinaryTrip(bs, xml, off);
    case Array(vs) =>
      ArrayParts(vs, xml, off);
      ValuesTrip(vs, xml, off + 20);
      ArrayTrip(vs, xml, off, RenamedValues(vs));
    case Struct(ms) =>
      StructParts(ms, xml, off);
      MembersTrip(ms, [], xml, off + 15);
      StructTrip(ms, xml, off, InsertAll([], RenamedMembers(ms)));
  }

  lemma ArrayParts(vs: seq<Value>, xml: string, off: nat)
    requires At(xml, off, ToXml(Array(vs)))
    ensures At(xml, off + 14, DATA_TAG) && At(xml, off + 20, ValuesToXml(vs))
    ensures At(xml, off + 20 + |ValuesToXml(vs)|, DATA_ETAG)
    ensures off + 20 + |ValuesToXml(vs)| <= |xml|
  {
    hide At, ValuesToXml;
    var content := DATA_TAG + (ValuesToXml(vs) + DATA_ETAG);
    WrappedParts(xml, off, ARRAY_TAG, content, ARRAY_ETAG);
    AtSplit(xml, off + 14, DATA_TAG, ValuesToXml(vs) + DATA_ETAG);
    AtSplit(xml, off + 20, ValuesToXml(vs), DATA_ETAG);
    AtSlice(xml, off + 20, ValuesToXml(vs));
  }

  lemma ArrayTrip(vs: seq<Value>, xml: string, off: nat, rs: seq<Value>)
    requires |xml| <= INT_MAX && At(xml, off, ToXml(Array(vs))) && off + 20 <= |xml|
    requires ValuesFromXml(xml, off + 20) == ValueList(rs, off + 20 + |ValuesToXml(vs)|)
    ensures FromXml(xml, off) == Parsed(true, Array(rs), off + |ToXml(Array(vs))|)
  {
    hide At, ValuesToXml, ValuesFromXml, FromXml, NextTagIs;
    ArrayParts(vs, xml, off);
    var content := DATA_TAG + (ValuesToXml(vs) + DATA_ETAG);
    NextTagHit(DATA_TAG, xml, off + 14);
    NextTagHit(DATA_ETAG, xml, off + 20 + |ValuesToXml(vs)|);
    assert ArrayFromXml(xml, off + 14) == Parsed(true, Array(rs), off + 14 + |content|);
    TypedArray(xml, off + 7, off + 14);
    WrappedTrip(xml, off, ARRAY_TAG, content, ARRAY_ETAG, Array(rs));
  }

  lemma TypedArray(xml: string, after: nat, off: nat)
    requires after <= off <= |xml|
    ensures TypedFromXml(ARRAY_TAG, xml, after, off) == ArrayFromXml(xml, off)
  {
    hide ArrayFromXml;
    assert ARRAY_TAG[1] == 'a';
  }

  lemma {:induction false} ValuesTrip(vs: seq<Value>, xml: string, off: nat)
    requires (forall v :: v in vs ==> Printable(v)) && |xml| <= INT_MAX && off <= |xml|
    requires At(xml, off, ValuesToXml(vs)) && At(xml, off + |ValuesToXml(vs)|, DATA_ETAG)
    ensures ValuesFromXml(xml, off) == ValueList(RenamedValues(vs), off + |ValuesToXml(vs)|)
    decreases vs, 0
  {
    hide At, ToXml, FromXml, Printable, Renamed;
    if vs == [] {
      NotAValue(xml, off, DATA_ETAG);
    } else {
      var first, rest := ToXml(vs[0]), ValuesToXml(vs[1..]);
      AtSplit(xml, off, first, rest);
      AtSlice(xml, off, first);
      assert vs[0] in vs;
      RoundTrip(vs[0], xml, off);
      assert At(xml, off + |first| + |rest|, DATA_ETAG);
      ValuesTrip(vs[1..], xml, off + |first|);
    }
  }

  /** Where another tag stands there is no value. */
  lemma NotAValue(xml: string, off: nat, other: string)
    requires off <= |xml| && |other| >= 2 && other[0] == '<' && other[1] != 'v' && At(xml, off, other)
    ensures FromXml(xml, off) == Failed(off)
  {
    hide At, NextTagIs;
    NextTagMiss(VALUE_TAG, xml, off, other, 1);
  }

  lemma StructParts(ms: seq<Member>, xml: string, off: nat)
    requires At(xml, off, ToXml(Struct(ms)))
    ensures At(xml, off + 15, MembersToXml(ms)) && At(xml, off + 15 + |MembersToXml(ms)|, STRUCT_ETAG)
    ensures off + 15 + |MembersToXml(ms)| <= |xml|
  {
    hide At, MembersToXml;
    WrappedParts(xml, off, STRUCT_TAG, MembersToXml(ms), STRUCT_ETAG);
    AtSlice(xml, off + 15, MembersToXml(ms));
  }

  lemma StructTrip(ms: seq<Member>, xml: string, off: nat, rs: seq<Member>)
    requires |xml| <= INT_MAX && At(xml, off, ToXml(Struct(ms))) && off + 15 <= |xml|
    requires MembersFromXml(xml, off + 15, []) == Parsed(true, Struct(rs), off + 15 + |MembersToXml(ms)|)
    ensures FromXml(xml, off) == Parsed(true, Struct(rs), off + |ToXml(Struct(ms))|)
  {
    hide At, MembersToXml, MembersFromXml, FromXml;
    TypedStruct(xml, off + 7, off + 15);
    WrappedTrip(xml, off, STRUCT_TAG, MembersToXml(ms), STRUCT_ETAG, Struct(rs));
  }

  lemma TypedStruct(xml: string, after: nat, off: nat)
    requires after <= off <= |xml|
    ensures TypedFromXml(STRUCT_TAG, xml, after, off) == MembersFromXml(xml, off, [])
  {
    hide MembersFromXml;
    assert STRUCT_TAG[4] == 'u' && STRUCT_TAG[1] == 's' && STRING_TAG[4] == 'i';
  }

  lemma {:induction false} MembersTrip(ms: seq<Member>, acc: seq<Member>, xml: string, off: nat)
    requires (forall m :: m in ms ==> Printable(m.value)) && |xml| <= INT_MAX && off <= |xml|
    requires At(xml, off, MembersToXml(ms)) && At(xml, off + |MembersToXml(ms)|, STRUCT_ETAG)
    ensures MembersFromXml(xml, off, acc)
         == Parsed(true, Struct(InsertAll(acc, RenamedMembers(ms))), off + |MembersToXml(ms)|)
    decreases ms, 0
  {
    hide At, ToXml, FromXml, Printable, Renamed, MemberToXml, Insert, Encode, MembersFromXml;
    if ms == [] {
      NextTagMiss(MEMBER_TAG, xml, off, STRUCT_ETAG, 1);
      NoMember(xml, off, acc);
    } else {
      var m := ms[0];
      var first, rest := MemberToXml(m), MembersToXml(ms[1..]);
      AtSplit(xml, off, first, rest);
      AtSlice(xml, off, first);
      assert m in ms;
      MemberParts(m, xml, off);
      RoundTrip(m.value, xml, off + 21 + |Encode(m.name)|);
      var r := Member(Encode(m.name), Renamed(m.value));
      MemberTrip(m, acc, xml, off);
      MembersTrip(ms[1..], Insert(acc, r), xml, off + |first|);
      var rs := RenamedMembers(ms);
      assert rs[0] == r && rs[1..] == RenamedMembers(ms[1..]);
    }
  }

  lemma NoMember(xml: string, off: nat, acc: seq<Member>)
    requires off <= |xml| && NextTagIs(MEMBER_TAG, xml, off) == Step(false, off)
    ensures MembersFromXml(xml, off, acc) == Parsed(true, Struct(acc), off)
  {
    hide NextTagIs;
  }

  lemma MemberParts(m: Member, xml: string, off: nat)
    requires At(xml, off, MemberToXml(m))
    ensures var n := |Encode(m.name)|; var t := |ToXml(m.value)|;
      && At(xml, off, MEMBER_TAG) && At(xml, off + 8, NAME_TAG) && At(xml, off + 14, Encode(m.name))
      && At(xml, off + 14 + n, NAME_ETAG) && At(xml, off + 21 + n, ToXml(m.value))
      && At(xml, off + 21 + n + t, MEMBER_ETAG)
      && off + 21 + n + t + 9 <= |xml| && |MemberToXml(m)| == 21 + n + t + 9
  {
    hide At, Encode, ToXml;
    var name, value := Encode(m.name), ToXml(m.value);
    AtSplit(xml, off, MEMBER_TAG, NAME_TAG + (name + (NAME_ETAG + (value + MEMBER_ETAG))));
    AtSplit(xml, off + 8, NAME_TAG, name + (NAME_ETAG + (value + MEMBER_ETAG)));
    AtSplit(xml, off + 14, name, NAME_ETAG + (value + MEMBER_ETAG));
    AtSplit(xml, off + 14 + |name|, NAME_ETAG, value + MEMBER_ETAG);
    AtSplit(xml, off + 21 + |name|, value, MEMBER_ETAG);
    AtSlice(xml, off + 21 + |name| + |value|, MEMBER_ETAG);
  }

  /** parseTag where the tag is, around a text without '<'. */
  lemma ParseTagHere(tag: string, xml: string, off: nat, content: string)
    requires |xml| <= INT_MAX && |tag| >= 1 && At(xml, off, tag) && At(xml, off + |tag|, content)
    requires At(xml, off + |tag| + |content|, "</" + tag[1..])
    requires forall k :: 0 <= k < |content| ==> content[k] != '<'
    ensures ParseTag(tag, xml, off) == Tagged(content, off + |tag| + |content| + |tag| + 1)
  {
    hide At;
    FindIs(xml, tag, off, off);
    var i := off + |tag|;
    AtSlice(xml, off, tag);
    AtSlice(xml, i, content);
    forall k | i <= k < i + |content| ensures xml[k] != '<' {
      AtChar(xml, i, content, k - i);
    }
    FindByFirst(xml, "</" + tag[1..], i, i + |content|);
  }

  lemma MemberTrip(m: Member, acc: seq<Member>, xml: string, off: nat)
    requires |xml| <= INT_MAX && At(xml, off, MemberToXml(m))
    requires off + 21 + |Encode(m.name)| <= |xml|
    requires var i := off + 21 + |Encode(m.name)|;
      FromXml(xml, i) == Parsed(true, Renamed(m.value), i + |ToXml(m.value)|)
    ensures off + |MemberToXml(m)| <= |xml|
    ensures MembersFromXml(xml, off, acc)
         == MembersFromXml(xml, off + |MemberToXml(m)|, Insert(acc, Member(Encode(m.name), Renamed(m.value))))
  {
    hide At, Encode, ToXml, FromXml, Renamed, Insert, NextTagIs, ParseTag, MemberToXml, MembersFromXml;
    MemberParts(m, xml, off);
    NextTagHit(MEMBER_TAG, xml, off);
    EncodeClean(m.name);
    assert "</" + NAME_TAG[1..] == NAME_ETAG;
    var i := off + 21 + |Encode(m.name)|;
    ParseTagHere(NAME_TAG, xml, off + 8, Encode(m.name));
    NextTagHit(MEMBER_ETAG, xml, i + |ToXml(m.value)|);
    OneMember(xml, off, acc, Encode(m.name), i, Renamed(m.value), i + |ToXml(m.value)|);
  }

  lemma OneMember(xml: string, off: nat, acc: seq<Member>, name: string, i: nat, v: Value, j: nat)
    requires off + 8 <= i <= j && j + 9 <= |xml| && NextTagIs(MEMBER_TAG, xml, off) == Step(true, off + 8)
    requires ParseTag(NAME_TAG, xml, off + 8) == Tagged(name, i)
    requires FromXml(xml, i) == Parsed(true, v, j) && NextTagIs(MEMBER_ETAG, xml, j) == Step(true, j + 9)
    ensures MembersFromXml(xml, off, acc) == MembersFromXml(xml, j + 9, Insert(acc, Member(name, v)))
  {
    hide NextTagIs, ParseTag, FromXml, Insert;
  }

  /* ---- what the renaming keeps ---- */

  lemma {:induction false} InsertAllDistinct(ms: seq<Member>, ns: seq<Member>)
    requires Sorted(ms)
    requires forall i, j :: 0 <= i < j < |ns| ==> ns[i].name != ns[j].name
    requires forall i :: 0 <= i < |ns| ==> !HasName(ms, ns[i].name)
    ensures Sorted(InsertAll(ms, ns)) && SameMembers(InsertAll(ms, ns), ms + ns)
    decreases ns
  {
    hide Insert, Less;
    if ns != [] {
      var next, rest := Insert(ms, ns[0]), ns[1..];
      InsertSorted(ms, ns[0]);
      forall i, k | 0 <= i < |rest| && 0 <= k < |next| ensures next[k].name != rest[i].name {
        assert ns[i + 1] == rest[i] && next[k] in next;
        if next[k] != ns[0] {
          var l :| 0 <= l < |ms| && ms[l] == next[k];
          assert !HasName(ms, ns[i + 1].name);
        }
      }
      InsertAllDistinct(next, rest);
      assert ns == [ns[0]] + rest;
      assert !HasName(ms, ns[0].name);
    } else {
      assert ms + ns == ms;
    }
  }

  lemma {:induction false} RenamedMembersAt(ms: seq<Member>, i: nat)
    requires i < |ms|
    ensures |RenamedMembers(ms)| == |ms| && RenamedMembers(ms)[i] == Member(Encode(ms[i].name), Renamed(ms[i].value))
  {
    hide Encode, Renamed;
    if i > 0 {
      RenamedMembersAt(ms[1..], i - 1);
    } else if |ms| > 1 {
      RenamedMembersAt(ms[1..], 0);
    }
  }

  lemma RenamedMembersAll(ms: seq<Member>)
    ensures |RenamedMembers(ms)| == |ms|
    ensures forall i :: 0 <= i < |ms| ==> RenamedMembers(ms)[i] == Member(Encode(ms[i].name), Renamed(ms[i].value))
  {
    hide Encode, Renamed;
    if ms != [] {
      forall i | 0 <= i < |ms|
        ensures |RenamedMembers(ms)| == |ms|
        ensures RenamedMembers(ms)[i] == Member(Encode(ms[i].name), Renamed(ms[i].value))
      {
        RenamedMembersAt(ms, i);
      }
      RenamedMembersAt(ms, 0);
    }
  }

  /** No member is lost or merged: the struct read back is a map with exactly the renamed members. */
  lemma StructKeepsMembers(ms: seq<Member>)
    requires Sorted(ms)
    ensures Renamed(Struct(ms)).Struct? && Sorted(Renamed(Struct(ms)).ms)
    ensures SameMembers(Renamed(Struct(ms)).ms, RenamedMembers(ms))
  {
    hide Encode, Less, RenamedMembers, Renamed, InsertAll;
    var rs := RenamedMembers(ms);
    RenamedMembersAll(ms);
    forall i, j | 0 <= i < j < |rs| ensures rs[i].name != rs[j].name {
      if rs[i].name == rs[j].name {
        EncodeInjective(ms[i].name, ms[j].name);
        LessIrreflexive(ms[i].name);
      }
    }
    InsertAllDistinct([], rs);
    assert [] + rs == rs;
    RenamedStruct(ms);
  }

  lemma RenamedStruct(ms: seq<Member>)
    ensures Renamed(Struct(ms)) == Struct(InsertAll([], RenamedMembers(ms)))
  {
  }

  /** Every member name, at any depth, avoids the five characters. */
  predicate PlainNames(v: Value)
    decreases v, 0
  {
    match v
    case Array(vs) => forall v :: v in vs ==> PlainNames(v)
    case Struct(ms) => forall m :: m in ms ==> PlainText(m.name) && PlainNames(m.value)
    case _ => true
  }

  lemma {:induction false} InsertLast(ms: seq<Member>, m: Member)
    requires forall i :: 0 <= i < |ms| ==> Less(ms[i].name, m.name)
    ensures Insert(ms, m) == ms + [m]
  {
    if ms != [] {
      LessIrreflexive(m.name);
      if Less(m.name, ms[0].name) {
        LessTransitive(m.name, ms[0].name, m.name);
      }
      InsertLast(ms[1..], m);
      assert ms == [ms[0]] + ms[1..];
    }
  }

  lemma {:induction false} InsertAllSorted(ms: seq<Member>, ns: seq<Member>)
    requires Sorted(ms + ns)
    ensures InsertAll(ms, ns) == ms + ns
    decreases ns
  {
    hide Insert, Less;
    if ns != [] {
      forall i | 0 <= i < |ms| ensures Less(ms[i].name, ns[0].name) {
        assert (ms + ns)[i] == ms[i] && (ms + ns)[|ms|] == ns[0];
      }
      InsertLast(ms, ns[0]);
      assert ms + [ns[0]] + ns[1..] == ms + ns;
      InsertAllSorted(ms + [ns[0]], ns[1..]);
    }
  }

  /** With plain names the value itself comes back. */
  lemma {:induction false} RenamedPlain(v: Value)
    requires Formed(v) && PlainNames(v)
    ensures Renamed(v) == v
    decreases v, 0
  {
    hide Sorted, Insert, Encode;
    match v
    case Array(vs) => RenamedValuesPlain(vs);
    case Struct(ms) =>
      RenamedMembersPlain(ms);
      assert [] + ms == ms;
      InsertAllSorted([], ms);
    case _ =>
  }

  lemma {:induction false} RenamedValuesPlain(vs: seq<Value>)
    requires forall v :: v in vs ==> Formed(v) && PlainNames(v)
    ensures RenamedValues(vs) == vs
    decreases vs, 0
  {
    hide Formed, PlainNames, Renamed;
    if vs != [] {
      assert vs[0] in vs;
      RenamedPlain(vs[0]);
      RenamedValuesPlain(vs[1..]);
    }
  }

  lemma {:induction false} RenamedMembersPlain(ms: seq<Member>)
    requires forall m :: m in ms ==> Formed(m.value) && PlainText(m.name) && PlainNames(m.value)
    ensures RenamedMembers(ms) == ms
    decreases ms, 0
  {
    hide Formed, PlainNames, Renamed, Encode, PlainText;
    if ms != [] {
      assert ms[0] in ms;
      RenamedPlain(ms[0].value);
      EncodePlain(ms[0].name);
      RenamedMembersPlain(ms[1..]);
    }
  }

  /* ---- and conversely: only plain names come back ---- */

  lemma {:induction false} EncodeGrows(s: string)
    requires !PlainText(s)
    ensures |Encode(s)| > |s| && !PlainText(Encode(s))
  {
    hide Encode;
    var i :| 0 <= i < |s| && NeedsEntity(s[i]);
    assert s == s[..i] + ([s[i]] + s[i + 1..]);
    EncodeSplit(s[..i], [s[i]] + s[i + 1..]);
    EncodeSplit([s[i]], s[i + 1..]);
    EncodeClean(s[..i]);
    EncodeClean(s[i + 1..]);
    EncodeOne(s[i]);
    assert Encode(s)[|Encode(s[..i])|] == '&';
  }

  lemma EncodeOne(c: char)
    requires NeedsEntity(c)
    ensures |Encode([c])| > 1 && Encode([c])[0] == '&'
  {
    assert Encode([c]) == EncodeChar(c) + Encode("");
  }

  /** The longest of the names that are not plain. */
  lemma {:induction false} LongestOdd(ms: seq<Member>) returns (k: nat)
    requires exists i :: 0 <= i < |ms| && !PlainText(ms[i].name)
    ensures k < |ms| && !PlainText(ms[k].name)
    ensures forall i :: 0 <= i < |ms| && !PlainText(ms[i].name) ==> |ms[i].name| <= |ms[k].name|
  {
    hide PlainText;
    k :| k < |ms| && !PlainText(ms[k].name);
    for i := 0 to |ms|
      invariant k < |ms| && !PlainText(ms[k].name)
      invariant forall j :: 0 <= j < i && !PlainText(ms[j].name) ==> |ms[j].name| <= |ms[k].name|
    {
      if !PlainText(ms[i].name) && |ms[i].name| > |ms[k].name| {
        k := i;
      }
    }
  }

  /** Encoding would make the longest odd name longer, and still odd. */
  lemma NamesPlain(ms: seq<Member>)
    requires Sorted(ms) && Renamed(Struct(ms)) == Struct(ms)
    ensures forall i :: 0 <= i < |ms| ==> PlainText(ms[i].name)
  {
    hide PlainText, Encode, Renamed, RenamedMembers, Sorted;
    StructKeepsMembers(ms);
    RenamedMembersAll(ms);
    forall k | 0 <= k < |ms| ensures exists j :: 0 <= j < |ms| && ms[j].name == Encode(ms[k].name) {
      var m := RenamedMembers(ms)[k];
      assert m in RenamedMembers(ms);
      assert m in ms;
    }
    if i :| 0 <= i < |ms| && !PlainText(ms[i].name) {
      var k := LongestOdd(ms);
      EncodeGrows(ms[k].name);
    }
  }

  /** What comes back is the value itself exactly when its names are plain. */
  lemma {:induction false} RenamedSameIff(v: Value)
    requires Formed(v)
    ensures Renamed(v) == v <==> PlainNames(v)
    decreases v
  {
    hide Encode, Insert, Less, RenamedMembers, RenamedValues, InsertAll;
    if PlainNames(v) {
      RenamedPlain(v);
    }
    if Renamed(v) == v {
      match v
      case Array(vs) =>
        forall x | x in vs ensures PlainNames(x) {
          var i :| 0 <= i < |vs| && vs[i] == x;
          RenamedValuesAt(vs, i);
          RenamedSameIff(x);
        }
      case Struct(ms) =>
        NamesPlain(ms);
        MembersPlain(ms);
        forall m | m in ms ensures PlainText(m.name) && PlainNames(m.value) {
          RenamedSameIff(m.value);
        }
      case _ =>
    }
  }

  lemma {:induction false} RenamedValuesAt(vs: seq<Value>, i: nat)
    requires i < |vs|
    ensures |RenamedValues(vs)| == |vs| && RenamedValues(vs)[i] == Renamed(vs[i])
  {
    hide Renamed;
    if i > 0 {
      RenamedValuesAt(vs[1..], i - 1);
    } else if |vs| > 1 {
      RenamedValuesAt(vs[1..], 0);
    }
  }

  lemma MembersPlain(ms: seq<Member>)
    requires Sorted(ms) && Renamed(Struct(ms)) == Struct(ms) && forall i :: 0 <= i < |ms| ==> PlainText(ms[i].name)
    ensures forall m :: m in ms ==> Renamed(m.value) == m.value
  {
    hide Encode, Less, Renamed, RenamedMembers, PlainText;
    var rs := RenamedMembers(ms);
    RenamedMembersAll(ms);
    forall i | 0 <= i < |ms| ensures rs[i].name == ms[i].name {
      EncodePlain(ms[i].name);
    }
    assert [] + rs == rs;
    InsertAllSorted([], rs);
    RenamedStruct(ms);
    assert rs == ms;
  }

  /** A name with an ampersand comes back changed. */
  lemma AmpersandName()
    ensures var v := Struct([Member("a&b", Int(1))]);
      var xml := ToXml(v);
      FromXml(xml, 0) == Parsed(true, Struct([Member("a&amp;b", Int(1))]), |xml|)
  {
    hide At, FromXml, Encode, PrintInt, Insert;
    var m := Member("a&b", Int(1));
    var v := Struct([m]);
    var xml := ToXml(v);
    EncodedName();
    DigitText();
    assert [m][1..] == [];
    assert RenamedMembers([m]) == [Member("a&amp;b", Int(1))];
    OneInserted(Member("a&amp;b", Int(1)));
    assert Printable(v) by { assert Printable(Int(1)) && Sorted([m]); }
    assert |ToXml(Int(1))| == 25;
    assert |MemberToXml(m)| == 62 && MembersToXml([m]) == MemberToXml(m) + MembersToXml([]);
    AtAll(xml);
    RoundTrip(v, xml, 0);
  }

  lemma EncodedName()
    ensures Encode("a&b") == "a&amp;b"
  {
    assert "a&b"[1..] == "&b" && "&b"[1..] == "b" && "b"[1..] == "";
    assert Encode("b") == "b";
    assert Encode("&b") == "&amp;" + "b";
  }

  lemma OneInserted(m: Member)
    ensures InsertAll([], [m]) == [m]
  {
    assert [m][1..] == [];
    assert InsertAll(Insert([], m), []) == [m];
  }
}
