/** Texts that the parser reads though the printer never writes them, and texts it refuses. */
module XmlForms {
  import opened DecimalText
  import opened TextSearch
  import opened XmlText
  import opened XmlNumbers
  import opened XmlValue
  import opened XmlRoundTrip

  const INT_ETAG := "</int>"
  const STRING_ETAG := "</string>"

  /* ---- white space ---- */

  predicate AllBlank(ws: string) {
    forall i :: 0 <= i < |ws| ==> ws[i] in " \t\n\r\U{000B}\U{000C}"
  }

  lemma BlankIs(c: char)
    ensures IsSpace(c) <==> c in " \t\n\r\U{000B}\U{000C}"
  {
    var s := " \t\n\r\U{000B}\U{000C}";
    assert s[0] == ' ' && s[1] == '\t' && s[2] == '\n' && s[3] == '\r' && s[4] == '\U{000B}' && s[5] == '\U{000C}';
  }

  /** Blanks are skipped, all of them. */
  lemma {:induction false} SkipBlanks(s: string, i: nat, ws: string)
    requires At(s, i, ws) && AllBlank(ws)
    ensures i + |ws| <= |s| && SkipSpaces(s, i) == SkipSpaces(s, i + |ws|)
    decreases ws
  {
    AtSlice(s, i, ws);
    if ws != "" {
      AtChar(s, i, ws, 0);
      BlankIs(ws[0]);
      assert ws == [ws[0]] + ws[1..];
      AtSplit(s, i, [ws[0]], ws[1..]);
      SkipBlanks(s, i + 1, ws[1..]);
    }
  }

  /** A value is found behind blanks. */
  lemma BlanksBefore(xml: string, off: nat, ws: string)
    requires off <= |xml| && At(xml, off, ws) && AllBlank(ws)
    ensures off + |ws| <= |xml|
    ensures FromXml(xml, off + |ws|).ok ==> FromXml(xml, off) == FromXml(xml, off + |ws|)
  {
    hide At, SkipSpaces, AllBlank, GetNextTag, TypedFromXml, FindTag;
    SkipBlanks(xml, off, ws);
  }

  lemma TagBehindBlanks(tag: string, xml: string, off: nat, ws: string)
    requires |xml| <= INT_MAX && IsTag(tag) && AllBlank(ws) && At(xml, off, ws) && At(xml, off + |ws|, tag)
    ensures GetNextTag(xml, off) == Tagged(tag, off + |ws| + |tag|)
    ensures NextTagIs(tag, xml, off) == Step(true, off + |ws| + |tag|)
  {
    hide At, AllBlank, SkipSpaces, TagEnd, IsTag;
    SkipBlanks(xml, off, ws);
    AtSlice(xml, off + |ws|, tag);
    TagHere(xml, off + |ws|, tag);
    TagStarts(tag);
    NextTagHit(tag, xml, off + |ws|);
  }

  lemma TagStarts(tag: string)
    requires IsTag(tag)
    ensures tag != "" && tag[0] == '<'
  {
  }

  /** A tag that is never closed ends before a NUL. */
  lemma {:induction false} NulEnds(s: string, i: nat, j: nat)
    requires i < j < |s| && s[j] == '\0' && forall k :: i <= k < j ==> s[k] != '>' && s[k] != '\0'
    ensures TagEnd(s, i) == j
    decreases j - i
  {
    if i + 1 < j {
      NulEnds(s, i + 1, j);
    }
  }

  lemma OpenTag(xml: string, off: nat, t: string)
    requires |xml| <= INT_MAX && At(xml, off, "<" + t + "\0")
    requires forall k :: 0 <= k < |t| ==> t[k] != '>' && t[k] != '\0'
    ensures GetNextTag(xml, off) == Tagged("<" + t, off + 1 + |t|)
  {
    hide At, TagEnd;
    var text := "<" + t + "\0";
    AtSlice(xml, off, text);
    forall k | 0 <= k < |text| ensures xml[off + k] == text[k] {
      AtChar(xml, off, text, k);
    }
    SkipNone(xml, off);
    forall k | off <= k < off + 1 + |t| ensures xml[k] == text[k - off] {
      assert xml[off + (k - off)] == text[k - off];
    }
    NulEnds(xml, off, off + 1 + |t|);
    assert xml[off..off + 1 + |t|] == "<" + t;
  }

  /** A value in its tags, with blanks before the type tag. */
  function Spaced(ws: string, tag: string, content: string, etag: string): string {
    VALUE_TAG + (ws + (tag + (content + (etag + VALUE_ETAG))))
  }

  lemma SpacedParts(xml: string, off: nat, ws: string, tag: string, content: string, etag: string)
    requires At(xml, off, Spaced(ws, tag, content, etag))
    ensures var i := off + 7; var j := i + |ws| + |tag|; var k := j + |content|;
      && At(xml, off, VALUE_TAG) && At(xml, i, ws) && At(xml, i + |ws|, tag) && At(xml, j, content)
      && At(xml, k, etag) && At(xml, k + |etag|, VALUE_ETAG) && k <= |xml|
  {
    hide At;
    AtSplit(xml, off, VALUE_TAG, ws + (tag + (content + (etag + VALUE_ETAG))));
    AtSplit(xml, off + 7, ws, tag + (content + (etag + VALUE_ETAG)));
    AtSplit(xml, off + 7 + |ws|, tag, content + (etag + VALUE_ETAG));
    AtSplit(xml, off + 7 + |ws| + |tag|, content, etag + VALUE_ETAG);
    AtSplit(xml, off + 7 + |ws| + |tag| + |content|, etag, VALUE_ETAG);
    AtSlice(xml, off + 7 + |ws| + |tag|, content);
  }

  lemma SpacedTrip(xml: string, off: nat, ws: string, tag: string, content: string, etag: string, v: Value)
    requires |xml| <= INT_MAX && off <= |xml| && At(xml, off, Spaced(ws, tag, content, etag))
    requires AllBlank(ws) && IsTag(tag) && IsEndTag(etag)
    requires var i := off + 7 + |ws| + |tag|;
      i <= |xml| && TypedFromXml(tag, xml, off + 7, i) == Parsed(true, v, i + |content|)
    ensures FromXml(xml, off) == Parsed(true, v, off + |Spaced(ws, tag, content, etag)|)
  {
    hide At, IsTag, IsEndTag, NextTagIs, GetNextTag, TypedFromXml, FindTag, AllBlank;
    SpacedParts(xml, off, ws, tag, content, etag);
    NextTagHit(VALUE_TAG, xml, off);
    TagBehindBlanks(tag, xml, off + 7, ws);
    EtagAfter(xml, off + 7 + |ws| + |tag| + |content|, etag);
  }

  /* ---- numbers ---- */

  predicate IsSign(sign: string) {
    sign == "" || sign == "+" || sign == "-"
  }

  /** The number a sign and digits stand for. */
  function Signed(sign: string, d: string): int
    requires AllDigits(d)
  {
    var n: int := Number(d);
    if sign == "-" then -n else n
  }

  /** strtol: blanks, a sign, digits up to the first other character; out of range, the nearest bound. */
  lemma StrtolReads(s: string, i: nat, ws: string, sign: string, d: string)
    requires At(s, i, ws + (sign + d)) && AllBlank(ws) && IsSign(sign) && AllDigits(d) && d != ""
    requires var j := i + |ws| + |sign| + |d|; j < |s| ==> !IsDigit(s[j])
    ensures i <= |s|
    ensures var v := Signed(sign, d);
      Strtol(s, i) == Scanned(
        if v < -0x8000_0000_0000_0000 then -0x8000_0000_0000_0000
        else if v > 0x7FFF_FFFF_FFFF_FFFF then 0x7FFF_FFFF_FFFF_FFFF else v,
        i + |ws| + |sign| + |d|)
  {
    hide At, SkipSpaces, DigitsEnd, Number, AllBlank, AllDigits;
    AtSplit(s, i, ws, sign + d);
    AtSplit(s, i + |ws|, sign, d);
    var k := i + |ws| + |sign|;
    AtSlice(s, k, d);
    SkipBlanks(s, i, ws);
    SignEnds(s, i + |ws|, sign, d);
    DigitsEndIs(s, k, if sign == "" then |s| - i + 1 else |s| - i, d);
  }

  lemma SignEnds(s: string, i: nat, sign: string, d: string)
    requires IsSign(sign) && AllDigits(d) && d != "" && At(s, i, sign) && At(s, i + |sign|, d)
    ensures i < |s| && SkipSpaces(s, i) == i
    ensures (s[i] == '-' || s[i] == '+') <==> sign != ""
    ensures s[i] == '-' <==> sign == "-"
  {
    hide At;
    if sign == "" {
      AtChar(s, i, d, 0);
    } else {
      AtChar(s, i, sign, 0);
    }
    SkipNone(s, i);
  }

  /** The low 32 bits, as a signed number. */
  lemma ToInt32Wraps(n: int)
    ensures -0x8000_0000 <= ToInt32(n) < 0x8000_0000 && (n - ToInt32(n)) % 0x1_0000_0000 == 0
  {
  }

  /** Either integer tag, with blanks and signs where strtol takes them. */
  lemma IntForms(xml: string, off: nat, ws: string, tag: string, etag: string, ws': string, sign: string, d: string)
    requires |xml| <= INT_MAX && off <= |xml| && At(xml, off, Spaced(ws, tag, ws' + (sign + d), etag))
    requires (tag == "<int>" && etag == "</int>") || (tag == "<i4>" && etag == "</i4>")
    requires AllBlank(ws) && AllBlank(ws') && IsSign(sign) && AllDigits(d) && d != ""
    requires -0x8000_0000 <= Signed(sign, d) < 0x8000_0000
    ensures FromXml(xml, off) == Parsed(true, Int(Signed(sign, d)), off + |Spaced(ws, tag, ws' + (sign + d), etag)|)
  {
    hide At, FromXml, Strtol, ToInt32, AllBlank, AllDigits, Signed, Spaced;
    SpacedParts(xml, off, ws, tag, ws' + (sign + d), etag);
    var i := off + 7 + |ws| + |tag|;
    AtChar(xml, i + |ws' + (sign + d)|, etag, 0);
    StrtolReads(xml, i, ws', sign, d);
    ToInt32Same(Signed(sign, d));
    TypedInt(tag, xml, off + 7, i);
    SpacedTrip(xml, off, ws, tag, ws' + (sign + d), etag, Int(Signed(sign, d)));
  }

  lemma TypedInt(tag: string, xml: string, after: nat, off: nat)
    requires after <= off <= |xml| && (tag == "<int>" || tag == "<i4>")
    ensures TypedFromXml(tag, xml, after, off) == IntFromXml(xml, off) && IsTag(tag)
  {
    hide IntFromXml;
    assert tag[1] == 'i';
  }

  /** The other spelling of an integer. */
  lemma IntTagTrip(n: int, xml: string, off: nat)
    requires INT32_MIN <= n <= INT32_MAX && |xml| <= INT_MAX && off <= |xml|
    requires At(xml, off, "<value><int>" + PrintInt(n) + "</int></value>")
    ensures FromXml(xml, off) == Parsed(true, Int(n), off + |"<value><int>" + PrintInt(n) + "</int></value>"|)
  {
    hide At, FromXml, Strtol, PrintInt, ToInt32, IntFromXml;
    var text := Wrapped(INT_TAG, PrintInt(n), INT_ETAG);
    assert "<value><int>" + PrintInt(n) + "</int></value>" == text;
    WrappedParts(xml, off, INT_TAG, PrintInt(n), INT_ETAG);
    var i := off + 12;
    AtChar(xml, i + |PrintInt(n)|, INT_ETAG, 0);
    AtSlice(xml, i, PrintInt(n));
    StrtolPrinted(xml, i, n);
    ToInt32Same(n);
    TypedInt(INT_TAG, xml, off + 7, i);
    IntIs(xml, i, n, i + |PrintInt(n)|);
    WrappedTrip(xml, off, INT_TAG, PrintInt(n), INT_ETAG, Int(n));
  }

  lemma IntIs(xml: string, i: nat, n: int, end: nat)
    requires i <= |xml| && Strtol(xml, i) == Scanned(n, end) && ToInt32(n) == n
    ensures IntFromXml(xml, i) == Parsed(true, Int(n), end)
  {
    hide Strtol, ToInt32;
  }

  lemma TypedDouble(xml: string, after: nat, off: nat)
    requires after <= off <= |xml|
    ensures TypedFromXml(DOUBLE_TAG, xml, after, off) == DoubleFromXml(xml, off) && IsTag(DOUBLE_TAG)
  {
    hide DoubleFromXml;
    assert DOUBLE_TAG[1] == 'd' && BOOLEAN_TAG[1] == 'b' && I4_TAG[1] == INT_TAG[1] == 'i';
  }

  /** Blanks before the number, and before its tag. */
  lemma DoubleForms(xml: string, off: nat, ws: string, ws': string, t: string)
    requires |xml| <= INT_MAX && off <= |xml| && At(xml, off, Spaced(ws, "<double>", ws' + t, "</double>"))
    requires AllBlank(ws) && AllBlank(ws') && IsDoubleText(t)
    ensures FromXml(xml, off) == Parsed(true, Double(t), off + |Spaced(ws, "<double>", ws' + t, "</double>")|)
  {
    hide At, FromXml, DoubleEnd, AllBlank, Spaced, SkipSpaces;
    SpacedParts(xml, off, ws, DOUBLE_TAG, ws' + t, DOUBLE_ETAG);
    var i := off + 7 + |ws| + 8;
    AtSplit(xml, i, ws', t);
    var j := i + |ws'|;
    SkipBlanks(xml, i, ws');
    AtChar(xml, j + |t|, DOUBLE_ETAG, 0);
    AtChar(xml, j, t, 0);
    SkipNone(xml, j);
    DoubleEndIs(xml, j, t);
    AtSlice(xml, j, t);
    TypedDouble(xml, off + 7, i);
    SpacedTrip(xml, off, ws, DOUBLE_TAG, ws' + t, DOUBLE_ETAG, Double(t));
  }

  /* ---- strings ---- */

  lemma TypedStringTag(xml: string, after: nat, off: nat)
    requires after <= off <= |xml|
    ensures TypedFromXml(STRING_TAG, xml, after, off) == StringFromXml(xml, off) && IsTag(STRING_TAG)
  {
    hide StringFromXml;
    assert STRING_TAG[1] == 's';
  }

  /** The string tag, which the printer leaves out. */
  lemma StringTagTrip(s: string, xml: string, off: nat)
    requires |xml| <= INT_MAX && off <= |xml|
    requires At(xml, off, "<value><string>" + Encode(s) + "</string></value>")
    ensures FromXml(xml, off) == Parsed(true, Str(s), off + |"<value><string>" + Encode(s) + "</string></value>"|)
  {
    hide At, Encode, Decode, NextTagIs, GetNextTag, TypedFromXml, FindTag, FindChar, IsTag;
    var content := Encode(s);
    assert "<value><string>" + content + "</string></value>" == Wrapped(STRING_TAG, content, STRING_ETAG);
    WrappedParts(xml, off, STRING_TAG, content, STRING_ETAG);
    var i := off + 15;
    AtSlice(xml, i, content);
    AtSlice(xml, i + |content|, STRING_ETAG);
    AtSlice(xml, i + |content| + 9, VALUE_ETAG);
    EncodeClean(s);
    TypedStringTag(xml, off + 7, i);
    NextTagHit(VALUE_TAG, xml, off);
    TagHere(xml, off + 7, STRING_TAG);
    AngleAfter(xml, i, content, STRING_ETAG);
    DecodeEncode(s);
    PassStringEnd(xml, i, content, |s|);
  }

  /** The parser stands inside the text it has read; the search for the end of the value passes the string's end tag. */
  lemma PassStringEnd(xml: string, i: nat, content: string, n: nat)
    requires |xml| <= INT_MAX && At(xml, i, content) && n <= |content| && At(xml, i + |content|, STRING_ETAG)
    requires At(xml, i + |content| + 9, VALUE_ETAG) && forall k :: 0 <= k < |content| ==> content[k] != '<'
    ensures FindTag(VALUE_ETAG, xml, i + n) == Step(true, i + |content| + 17)
  {
    hide At, FindTag;
    var e := i + |content|;
    AtSlice(xml, e + 9, VALUE_ETAG);
    forall k | i + n <= k < e + 9 ensures xml[k] != '<' || xml[k + 2] != 'v' {
      if k < e {
        AtChar(xml, i, content, k - i);
      } else {
        AtChar(xml, e, STRING_ETAG, k - e);
        AtChar(xml, e, STRING_ETAG, 2);
      }
    }
    EtagFound(xml, i + n, e + 9);
  }

  /* ---- what is refused ---- */

  lemma TypedBoolean(xml: string, after: nat, off: nat)
    requires after <= off <= |xml|
    ensures TypedFromXml(BOOLEAN_TAG, xml, after, off) == BoolFromXml(xml, off) && IsTag(BOOLEAN_TAG)
  {
    hide BoolFromXml;
  }

  lemma BoolIs(xml: string, i: nat, n: int, end: nat)
    requires i <= |xml| && Strtol(xml, i) == Scanned(n, end)
    ensures BoolFromXml(xml, i) == if n == 0 || n == 1 then Parsed(true, Boolean(n == 1), end) else Failed(i)
  {
    hide Strtol;
  }

  lemma BooleanText(t: string)
    ensures "<value><boolean>" + t + "</boolean></value>" == Wrapped(BOOLEAN_TAG, t, BOOLEAN_ETAG)
  {
  }

  lemma BooleanEnd()
    ensures IsEndTag(BOOLEAN_ETAG)
  {
  }

  /** A boolean is 0 or 1, and no other number. */
  lemma BooleanForms(n: int, xml: string, off: nat)
    requires INT32_MIN <= n <= INT32_MAX && |xml| <= INT_MAX && off <= |xml|
    requires At(xml, off, "<value><boolean>" + PrintInt(n) + "</boolean></value>")
    ensures FromXml(xml, off)
         == if n == 0 || n == 1
            then Parsed(true, Boolean(n == 1), off + |"<value><boolean>" + PrintInt(n) + "</boolean></value>"|)
            else Parsed(false, Invalid, off)
  {
    hide At, FromXml, Strtol, PrintInt, TypedFromXml, IsTag, IsEndTag, BoolFromXml, Wrapped;
    BooleanText(PrintInt(n));
    WrappedParts(xml, off, BOOLEAN_TAG, PrintInt(n), BOOLEAN_ETAG);
    var i := off + 16;
    AtChar(xml, i + |PrintInt(n)|, BOOLEAN_ETAG, 0);
    AtSlice(xml, i, PrintInt(n));
    StrtolPrinted(xml, i, n);
    TypedBoolean(xml, off + 7, i);
    BoolIs(xml, i, n, i + |PrintInt(n)|);
    BooleanEnd();
    if n == 0 || n == 1 {
      WrappedTrip(xml, off, BOOLEAN_TAG, PrintInt(n), BOOLEAN_ETAG, Boolean(n == 1));
    } else {
      WrappedFails(xml, off, BOOLEAN_TAG, PrintInt(n), BOOLEAN_ETAG);
    }
  }

  /** The tags a value may start with; no tag, or the end of the value, makes it a string. */
  predicate KnownTag(tag: string) {
    tag in {
      "", "<boolean>", "<i4>", "<int>", "<double>", "<string>", "<dateTime.iso8601>", "<base64>", "<array>", "<struct>",
      "</value>"}
  }

  /** Any other type is refused. */
  lemma UnknownRefused(xml: string, off: nat, tag: string)
    requires |xml| <= INT_MAX && off <= |xml| && IsTag(tag) && !KnownTag(tag) && At(xml, off, "<value>" + tag)
    ensures FromXml(xml, off) == Parsed(false, Invalid, off)
  {
    hide At, IsTag, GetNextTag, NextTagIs;
    AtSplit(xml, off, VALUE_TAG, tag);
    AtSlice(xml, off + 7, tag);
    NextTagHit(VALUE_TAG, xml, off);
    TagHere(xml, off + 7, tag);
  }

  /** So is a number that does not start like one. */
  lemma NoNumberRefused(xml: string, off: nat, tag: string)
    requires |xml| <= INT_MAX && off <= |xml| && tag in {"<boolean>", "<i4>", "<int>"} && At(xml, off, "<value>" + tag)
    requires var i := off + 7 + |tag|;
      i < |xml| ==> !IsSpace(xml[i]) && !IsDigit(xml[i]) && xml[i] != '+' && xml[i] != '-'
    ensures FromXml(xml, off) == Parsed(false, Invalid, off)
  {
    hide At, IsTag, GetNextTag, NextTagIs, TypedFromXml;
    AtSplit(xml, off, VALUE_TAG, tag);
    AtSlice(xml, off + 7, tag);
    NextTagHit(VALUE_TAG, xml, off);
    var i := off + 7 + |tag|;
    SkipNone(xml, i);
    assert Strtol(xml, i).NoNumber?;
    if tag == "<boolean>" {
      TypedBoolean(xml, off + 7, i);
    } else {
      TypedInt(tag, xml, off + 7, i);
    }
    TagHere(xml, off + 7, tag);
  }

  /** Of two members with the same name the first is kept, as std::map::insert does. */
  lemma FirstWins(name: string, x: Value, y: Value, xml: string, off: nat)
    requires Printable(x) && Printable(y) && |xml| <= INT_MAX && off <= |xml|
    requires At(xml, off, ToXml(Struct([Member(name, x), Member(name, y)])))
    ensures FromXml(xml, off) == Parsed(
      true, Struct([Member(Encode(name), Renamed(x))]), off + |ToXml(Struct([Member(name, x), Member(name, y)]))|)
  {
    hide At, FromXml, Encode, Printable, Renamed, ToXml, MembersToXml, MembersFromXml;
    var ms := [Member(name, x), Member(name, y)];
    StructParts(ms, xml, off);
    MembersTrip(ms, [], xml, off + 15);
    assert ms[1..] == [Member(name, y)] && ms[1..][1..] == [];
    var a, b := Member(Encode(name), Renamed(x)), Member(Encode(name), Renamed(y));
    assert RenamedMembers(ms[1..]) == [b];
    assert RenamedMembers(ms) == [a, b];
    assert [a, b][1..] == [b] && [b][1..] == [];
    assert InsertAll([a], [b]) == InsertAll([a], []) == [a];
    assert InsertAll([], [a, b]) == [a];
    StructTrip(ms, xml, off, [a]);
  }

  /* ---- date-times, digit by digit ---- */

  function Digit(n: int): char
    requires 0 <= n < 10
  {
    '0' + n as char
  }

  lemma TwoDigits(n: int)
    requires 0 <= n < 100
    ensures Zero2(n) == [Digit(n / 10), Digit(n % 10)]
  {
    if n >= 10 {
      assert Decimal(n) == Decimal(n / 10) + [DigitChar(n % 10)];
    }
  }

  lemma FourDigits(n: int)
    requires 1000 <= n < 10000
    ensures Wide4(n) == [Digit(n / 1000), Digit(n / 100 % 10), Digit(n / 10 % 10), Digit(n % 10)]
  {
    assert Decimal(n / 1000) == [DigitChar(n / 1000)];
    assert n / 100 / 10 == n / 1000 && n / 10 / 10 == n / 100;
    assert Decimal(n / 100) == Decimal(n / 1000) + [DigitChar(n / 100 % 10)];
    assert Decimal(n / 10) == Decimal(n / 100) + [DigitChar(n / 10 % 10)];
    assert Decimal(n) == Decimal(n / 10) + [DigitChar(n % 10)];
  }

  /** Year, month and day without separators, then the time of day. */
  lemma DateDigits(t: Tm)
    requires 1000 <= t.year < 10000 && 0 <= t.mon < 100 && 0 <= t.mday < 100
    requires 0 <= t.hour < 100 && 0 <= t.min < 100 && 0 <= t.sec < 100
    ensures PrintTm(t) == [
      Digit(t.year / 1000), Digit(t.year / 100 % 10), Digit(t.year / 10 % 10), Digit(t.year % 10),
      Digit(t.mon / 10), Digit(t.mon % 10), Digit(t.mday / 10), Digit(t.mday % 10), 'T',
      Digit(t.hour / 10), Digit(t.hour % 10), ':', Digit(t.min / 10), Digit(t.min % 10), ':',
      Digit(t.sec / 10), Digit(t.sec % 10)]
  {
    hide Zero2, Wide4, Digit;
    FourDigits(t.year);
    TwoDigits(t.mon);
    TwoDigits(t.mday);
    TwoDigits(t.hour);
    TwoDigits(t.min);
    TwoDigits(t.sec);
  }

  /** A date must be followed by a 'T'. */
  lemma DateNeedsT(s: string)
    requires |s| >= 9 && AllDigits(s[..8]) && s[8] != 'T'
    ensures ScanTm(s) == NoTm
  {
    hide ScanInt, AllDigits, Number;
    DigitsOf(s, 0, 4);
    DigitsOf(s, 4, 6);
    DigitsOf(s, 6, 8);
    ScanNat(s, 0, 4, s[0..4]);
    ScanNat(s, 4, 2, s[4..6]);
    ScanNat(s, 6, 2, s[6..8]);
  }

  lemma DigitsOf(s: string, i: nat, j: nat)
    requires i <= j <= 8 <= |s| && AllDigits(s[..8])
    ensures AllDigits(s[i..j]) && At(s, i, s[i..j])
  {
    forall k | 0 <= k < j - i ensures IsDigit(s[i..j][k]) {
      assert s[i..j][k] == s[..8][i + k];
    }
    AtHere(s, i, j);
  }
}
