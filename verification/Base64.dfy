/**
 base64.h: the encoder with its 18-group lines and the decoder that skips foreign characters.
 Alphabet and padding are those of section 4 of RFC 4648.
 */
module Base64 {

  /* ---- the alphabet ---- */

  function CharOf(i: bv8): (c: char)
    requires i < 64
  {
    var n := i as int;
    if n < 26 then ('A' as int + n) as char
    else if n < 52 then ('a' as int + (n - 26)) as char
    else if n < 62 then ('0' as int + (n - 52)) as char
    else if n == 62 then '+' else '/'
  }

  datatype CharType = Sextet(i: int) | Equal | Unknown

  /** _getCharType */
  function TypeOf(c: char): (t: CharType)
    ensures t.Sextet? ==> 0 <= t.i < 64
  {
    if c == '+' then Sextet(62)
    else if c == '/' then Sextet(63)
    else if 'A' <= c <= 'Z' then Sextet(c as int - 'A' as int)
    else if 'a' <= c <= 'z' then Sextet(c as int - 'a' as int + 26)
    else if '0' <= c <= '9' then Sextet(c as int - '0' as int + 52)
    else if c == '=' then Equal
    else Unknown
  }

  lemma TypeOfChar(i: bv8)
    requires i < 64
    ensures TypeOf(CharOf(i)) == Sextet(i as int)
  {
  }

  /* ---- three bytes and four sextets ---- */

  type Six = x: bv8 | x < 64

  function Six0(a: bv8): Six { (a & 0xFC) >> 2 }
  function Six1(a: bv8, b: bv8): Six { ((a & 0x03) << 4) + ((b & 0xF0) >> 4) }
  function Six2(b: bv8, c: bv8): Six { ((b & 0x0F) << 2) + ((c & 0xC0) >> 6) }
  function Six3(c: bv8): Six { c & 0x3F }

  /** The three-byte buffer that the encoder reads sextets from and the decoder writes them to. */
  class ThreeToFour {
    var d0: bv8
    var d1: bv8
    var d2: bv8

    constructor ()
      ensures d0 == 0 && d1 == 0 && d2 == 0
    {
      d0, d1, d2 := 0, 0, 0;
    }

    method Zero()
      modifies this
      ensures d0 == 0 && d1 == 0 && d2 == 0
    {
      d0, d1, d2 := 0, 0, 0;
    }

    method PutSix0(ch: Six)
      modifies this
      ensures d0 == High6(old(d0), ch) && d1 == old(d1) && d2 == old(d2)
    {
      d0 := High6(d0, ch);
    }

    method PutSix1(ch: Six)
      modifies this
      ensures d0 == Low2(old(d0), ch) && d1 == High4(old(d1), ch) && d2 == old(d2)
    {
      d0 := Low2(d0, ch);
      d1 := High4(d1, ch);
    }

    method PutSix2(ch: Six)
      modifies this
      ensures d0 == old(d0) && d1 == Low4(old(d1), ch) && d2 == High2(old(d2), ch)
    {
      d1 := Low4(d1, ch);
      d2 := High2(d2, ch);
    }

    method PutSix3(ch: Six)
      modifies this
      ensures d0 == old(d0) && d1 == old(d1) && d2 == Low6(old(d2), ch)
    {
      d2 := Low6(d2, ch);
    }
  }

  /** Writing part of a sextet into part of a byte. */
  function High6(d: bv8, ch: Six): bv8 { ((ch & 0x3F) << 2) | (0x03 & d) }
  function Low2(d: bv8, ch: Six): bv8 { ((ch & 0x30) >> 4) | (0xFC & d) }
  function High4(d: bv8, ch: Six): bv8 { ((ch & 0x0F) << 4) | (0x0F & d) }
  function Low4(d: bv8, ch: Six): bv8 { ((ch & 0x3C) >> 2) | (0xF0 & d) }
  function High2(d: bv8, ch: Six): bv8 { ((ch & 0x03) << 6) | (0x3F & d) }
  function Low6(d: bv8, ch: Six): bv8 { (ch & 0x3F) | (0xC0 & d) }

  /** The bytes that four sextets, written into a cleared buffer, come to. */
  function Byte0(p: Six, q: Six): bv8 { (p << 2) | (q >> 4) }
  function Byte1(q: Six, r: Six): bv8 { ((q & 0x0F) << 4) | (r >> 2) }
  function Byte2(r: Six, s: Six): bv8 { ((r & 0x03) << 6) | s }

  lemma BytesOfSixes(a: bv8, b: bv8, c: bv8)
    ensures Byte0(Six0(a), Six1(a, b)) == a
    ensures Byte1(Six1(a, b), Six2(b, c)) == b
    ensures Byte2(Six2(b, c), Six3(c)) == c
  {
  }

  /* ---- encoding ---- */

  /** A full group of four characters. */
  function Group(a: bv8, b: bv8, c: bv8): (s: string)
    ensures |s| == 4
  {
    [CharOf(Six0(a)), CharOf(Six1(a, b)), CharOf(Six2(b, c)), CharOf(Six3(c))]
  }

  /** The padded last group. */
  function LastOne(a: bv8): string {
    [CharOf(Six0(a)), CharOf(Six1(a, 0)), '=', '=']
  }

  function LastTwo(a: bv8, b: bv8): string {
    [CharOf(Six0(a)), CharOf(Six1(a, b)), CharOf(Six2(b, 0)), '=']
  }

  const LAST_OCTET: nat := 17

  /** The text for bs when `line` groups stand on the current line. */
  function EncodeFrom(bs: seq<bv8>, line: nat): string {
    if |bs| == 0 then ""
    else if |bs| == 1 then LastOne(bs[0])
    else if |bs| == 2 then LastTwo(bs[0], bs[1])
    else
      Group(bs[0], bs[1], bs[2])
      + (if line == LAST_OCTET then "\n" + EncodeFrom(bs[3..], 0) else EncodeFrom(bs[3..], line + 1))
  }

  function Encode(bs: seq<bv8>): string {
    EncodeFrom(bs, 0)
  }

  /* ---- decoding ---- */

  datatype Decoded = Decoded(data: seq<bv8>, fail: bool, eof: bool)

  /** The position of the first character that is not foreign. */
  function Skip(s: string): (k: nat)
    ensures k <= |s| && (k < |s| ==> !TypeOf(s[k]).Unknown?)
    ensures forall i :: 0 <= i < k ==> TypeOf(s[i]).Unknown?
  {
    if s == "" || !TypeOf(s[0]).Unknown? then 0
    else
      var k := 1 + Skip(s[1..]);
      assert forall i :: 1 <= i < k ==> s[i] == s[1..][i - 1];
      k
  }

  /** The next significant character and what follows it. */
  datatype Next = End | Char(t: CharType, rest: string)

  function NextOf(s: string): (n: Next)
    ensures n.Char? ==> !n.t.Unknown? && |n.rest| < |s| && (n.t.Sextet? ==> 0 <= n.t.i < 64)
  {
    var k := Skip(s);
    if k == |s| then End else Char(TypeOf(s[k]), s[k + 1..])
  }

  function SixOf(t: CharType): Six
    requires t.Sextet? && 0 <= t.i < 64
  {
    t.i as bv8
  }

  /** The decoding loop, one group at a time. */
  function Decode(s: string): Decoded
    decreases |s|
  {
    if s == "" then Decoded([], false, false)
    else
      var n0 := NextOf(s);
      if n0.End? then Decoded([], true, true)
      else if n0.t.Equal? then Decoded([], true, false)
      else
        var n1 := NextOf(n0.rest);
        if n1.End? then Decoded([], true, true)
        else if n1.t.Equal? then Decoded([], true, false)
        else DecodeTail(n0.t, n1.t, n1.rest)
  }

  /** The third and fourth character of a group. */
  function DecodeTail(t0: CharType, t1: CharType, s: string): Decoded
    requires t0.Sextet? && 0 <= t0.i < 64 && t1.Sextet? && 0 <= t1.i < 64
    decreases |s|
  {
    var p, q := SixOf(t0), SixOf(t1);
    var n2 := NextOf(s);
    if n2.End? then Decoded([], true, true)
    else if n2.t.Equal? then Decoded([Byte0(p, q)], false, n2.rest == "")
    else
      var r := SixOf(n2.t);
      var n3 := NextOf(n2.rest);
      if n3.End? then Decoded([], false, true)
      else if n3.t.Equal? then Decoded([Byte0(p, q), Byte1(q, r)], false, false)
      else
        var d := Decode(n3.rest);
        d.(data := [Byte0(p, q), Byte1(q, r), Byte2(r, SixOf(n3.t))] + d.data)
  }

  /* ---- decoding an encoding ---- */

  lemma NextHere(c: char, rest: string)
    requires !TypeOf(c).Unknown?
    ensures NextOf([c] + rest) == Char(TypeOf(c), rest)
  {
    assert Skip([c] + rest) == 0;
    assert ([c] + rest)[1..] == rest;
  }

  lemma SixOfChar(i: Six)
    ensures TypeOf(CharOf(i)).Sextet? && SixOf(TypeOf(CharOf(i))) == i
  {
    TypeOfChar(i);
  }

  /** Two characters of a group, then the rest. */
  lemma DecodeTwo(p: Six, q: Six, rest: string)
    ensures TypeOf(CharOf(p)).Sextet? && TypeOf(CharOf(q)).Sextet?
    ensures Decode([CharOf(p), CharOf(q)] + rest) == DecodeTail(TypeOf(CharOf(p)), TypeOf(CharOf(q)), rest)
  {
    hide Byte0, Byte1, Byte2, TypeOf, CharOf, Decode, DecodeTail, NextOf;
    var s := [CharOf(p), CharOf(q)] + rest;
    SixOfChar(p);
    SixOfChar(q);
    assert s == [CharOf(p)] + ([CharOf(q)] + rest);
    NextHere(CharOf(p), [CharOf(q)] + rest);
    NextHere(CharOf(q), rest);
    DecodeUnfold(s);
  }

  lemma DecodeGroup(a: bv8, b: bv8, c: bv8, rest: string)
    ensures Decode(Group(a, b, c) + rest) == Decode(rest).(data := [a, b, c] + Decode(rest).data)
  {
    hide Byte0, Byte1, Byte2, TypeOf, CharOf, Decode, Six0, Six1, Six2, Six3, DecodeTail, NextOf;
    var p, q, r, s := Six0(a), Six1(a, b), Six2(b, c), Six3(c);
    var tail := [CharOf(r), CharOf(s)] + rest;
    assert Group(a, b, c) + rest == [CharOf(p), CharOf(q)] + tail;
    DecodeTwo(p, q, tail);
    DecodeTailFull(p, q, r, s, rest);
    BytesOfSixes(a, b, c);
  }

  lemma DecodeTailFull(p: Six, q: Six, r: Six, s: Six, rest: string)
    ensures TypeOf(CharOf(p)).Sextet? && TypeOf(CharOf(q)).Sextet?
    ensures DecodeTail(TypeOf(CharOf(p)), TypeOf(CharOf(q)), [CharOf(r), CharOf(s)] + rest)
         == Decode(rest).(data := [Byte0(p, q), Byte1(q, r), Byte2(r, s)] + Decode(rest).data)
  {
    hide Byte0, Byte1, Byte2, TypeOf, CharOf, Decode, NextOf;
    SixOfChar(p); SixOfChar(q); SixOfChar(r); SixOfChar(s);
    var tail := [CharOf(r), CharOf(s)] + rest;
    assert tail == [CharOf(r)] + ([CharOf(s)] + rest);
    NextHere(CharOf(r), [CharOf(s)] + rest);
    NextHere(CharOf(s), rest);
  }

  lemma DecodeOne(a: bv8)
    ensures Decode(LastOne(a)) == Decoded([a], false, false)
  {
    hide Byte0, Byte1, Byte2, CharOf, Decode, Six0, Six1, Six2, Six3;
    var p, q := Six0(a), Six1(a, 0);
    assert LastOne(a) == [CharOf(p), CharOf(q)] + "==";
    DecodeTwo(p, q, "==");
    SixOfChar(p); SixOfChar(q);
    assert "==" == ['='] + "=";
    NextHere('=', "=");
    BytesOfSixes(a, 0, 0);
  }

  lemma DecodePair(a: bv8, b: bv8)
    ensures Decode(LastTwo(a, b)) == Decoded([a, b], false, false)
  {
    hide Byte0, Byte1, Byte2, CharOf, Decode, Six0, Six1, Six2, Six3;
    var p, q, r := Six0(a), Six1(a, b), Six2(b, 0);
    var tail := [CharOf(r)] + "=";
    assert LastTwo(a, b) == [CharOf(p), CharOf(q)] + tail;
    DecodeTwo(p, q, tail);
    SixOfChar(p); SixOfChar(q); SixOfChar(r);
    NextHere(CharOf(r), "=");
    assert "=" == ['='] + "";
    NextHere('=', "");
    BytesOfSixes(a, b, 0);
  }

  /** A line break before more text changes nothing; at the very end it is a failure. */
  lemma DecodeNewline(s: string)
    ensures Decode("\n" + s) == if s == "" then Decoded([], true, true) else Decode(s)
  {
    var t := "\n" + s;
    assert t[1..] == s && TypeOf(t[0]).Unknown?;
    assert Skip(t) == 1 + Skip(s);
    if Skip(s) < |s| {
      assert t[Skip(t)] == s[Skip(s)] && t[Skip(t) + 1..] == s[Skip(s) + 1..];
    }
  }

  /** The text ends with a line break. */
  predicate EndsLine(n: nat, line: nat) {
    n > 0 && n % 3 == 0 && (line + n / 3) % 18 == 0
  }

  lemma {:induction false} DecodeEncodeFrom(bs: seq<bv8>, line: nat)
    requires line <= LAST_OCTET
    ensures Decode(EncodeFrom(bs, line)) == Decoded(bs, EndsLine(|bs|, line), EndsLine(|bs|, line))
    decreases |bs|
  {
    hide Decode, LastOne, LastTwo, Group;
    DecodeNothing();
    if |bs| == 1 {
      assert bs == [bs[0]];
      DecodeOne(bs[0]);
    } else if |bs| == 2 {
      assert bs == [bs[0], bs[1]];
      DecodePair(bs[0], bs[1]);
    } else if |bs| >= 3 {
      var line' := if line == LAST_OCTET then 0 else line + 1;
      DecodeEncodeFrom(bs[3..], line');
      DecodeMore(bs, line);
    }
  }

  lemma DecodeMore(bs: seq<bv8>, line: nat)
    requires line <= LAST_OCTET && |bs| >= 3
    requires var line' := if line == LAST_OCTET then 0 else line + 1;
      Decode(EncodeFrom(bs[3..], line')) == Decoded(bs[3..], EndsLine(|bs| - 3, line'), EndsLine(|bs| - 3, line'))
    ensures Decode(EncodeFrom(bs, line)) == Decoded(bs, EndsLine(|bs|, line), EndsLine(|bs|, line))
  {
    hide Decode, Group, EndsLine;
    var line' := if line == LAST_OCTET then 0 else line + 1;
    var rest := EncodeFrom(bs[3..], line');
    DecodeGroup(bs[0], bs[1], bs[2], if line == LAST_OCTET then "\n" + rest else rest);
    DecodeNewline(rest);
    assert [bs[0], bs[1], bs[2]] + bs[3..] == bs;
    EndsLineStep(|bs|, line);
    EncodeEmpty(bs[3..], line');
  }

  lemma EncodeEmpty(bs: seq<bv8>, line: nat)
    ensures EncodeFrom(bs, line) == "" <==> bs == []
  {
  }

  lemma EndsLineStep(n: nat, line: nat)
    requires n >= 3 && line <= LAST_OCTET
    ensures EndsLine(n, line) == if line == LAST_OCTET then n == 3 || EndsLine(n - 3, 0) else EndsLine(n - 3, line + 1)
  {
  }

  lemma EndsLineFromStart(n: nat)
    ensures EndsLine(n, 0) <==> n > 0 && n % 54 == 0
  {
    var q, r := n / 54, n % 54;
    assert n == 54 * q + r;
    if n % 3 == 0 {
      assert n / 3 == 18 * q + r / 3;
    }
  }

  /** Decoding an encoding returns the bytes; it reports failure exactly at multiples of 54. */
  lemma DecodeEncode(bs: seq<bv8>)
    ensures Decode(Encode(bs)).data == bs
    ensures Decode(Encode(bs)).fail <==> |bs| > 0 && |bs| % 54 == 0
  {
    hide Decode, EncodeFrom;
    DecodeEncodeFrom(bs, 0);
    EndsLineFromStart(|bs|);
  }

  /* ---- length and lines ---- */

  lemma LengthStep(n: nat, line: nat)
    requires n >= 3 && line <= LAST_OCTET
    ensures (n + 2) / 3 == (n - 3 + 2) / 3 + 1
    ensures (line + n / 3) / 18
         == if line == LAST_OCTET then 1 + (n - 3) / 3 / 18 else (line + 1 + (n - 3) / 3) / 18
  {
    assert n / 3 == (n - 3) / 3 + 1;
  }

  lemma {:induction false} EncodeLengthFrom(bs: seq<bv8>, line: nat)
    requires line <= LAST_OCTET
    ensures |EncodeFrom(bs, line)| == 4 * ((|bs| + 2) / 3) + (line + |bs| / 3) / 18
    decreases |bs|
  {
    if |bs| >= 3 {
      hide Group;
      EncodeLengthFrom(bs[3..], if line == LAST_OCTET then 0 else line + 1);
      LengthStep(|bs|, line);
    }
  }

  /** Four characters per started group of three, and one line break per 54 bytes. */
  lemma EncodeLength(bs: seq<bv8>)
    ensures |Encode(bs)| == 4 * ((|bs| + 2) / 3) + |bs| / 54
  {
    EncodeLengthFrom(bs, 0);
  }

  /** No stretch of text without a line break is longer than 72, given `room` on the first line. */
  predicate LinesFit(s: string, room: nat)
    decreases |s|
  {
    if s == "" then true
    else if s[0] == '\n' then LinesFit(s[1..], 72)
    else room > 0 && LinesFit(s[1..], room - 1)
  }

  lemma {:induction false} LinesFitPrefix(a: string, s: string, room: nat)
    requires |a| <= room && (forall i :: 0 <= i < |a| ==> a[i] != '\n') && LinesFit(s, room - |a|)
    ensures LinesFit(a + s, room)
    decreases a
  {
    if a == "" {
      assert a + s == s;
    } else {
      assert (a + s)[1..] == a[1..] + s;
      LinesFitPrefix(a[1..], s, room - 1);
    }
  }

  lemma CharOfIsPrintable(i: Six)
    ensures CharOf(i) != '\n' && CharOf(i) != '<' && CharOf(i) != '='
  {
  }

  lemma {:induction false} EncodeLinesFrom(bs: seq<bv8>, line: nat)
    requires line <= LAST_OCTET
    ensures LinesFit(EncodeFrom(bs, line), 72 - 4 * line)
    decreases |bs|
  {
    hide CharOf, LinesFit;
    var s := EncodeFrom(bs, line);
    LinesFitEmpty();
    if |bs| == 1 {
      CharOfIsPrintable(Six0(bs[0])); CharOfIsPrintable(Six1(bs[0], 0));
      LinesFitPrefix(s, "", 72 - 4 * line);
      assert s + "" == s;
    } else if |bs| == 2 {
      CharOfIsPrintable(Six0(bs[0])); CharOfIsPrintable(Six1(bs[0], bs[1])); CharOfIsPrintable(Six2(bs[1], 0));
      LinesFitPrefix(s, "", 72 - 4 * line);
      assert s + "" == s;
    } else if |bs| >= 3 {
      var line' := if line == LAST_OCTET then 0 else line + 1;
      EncodeLinesFrom(bs[3..], line');
      var rest := EncodeFrom(bs[3..], line');
      LinesFitBreak(rest);
      CharOfIsPrintable(Six0(bs[0])); CharOfIsPrintable(Six1(bs[0], bs[1]));
      CharOfIsPrintable(Six2(bs[1], bs[2])); CharOfIsPrintable(Six3(bs[2]));
      LinesFitPrefix(Group(bs[0], bs[1], bs[2]), if line == LAST_OCTET then "\n" + rest else rest, 72 - 4 * line);
    }
  }

  lemma LinesFitEmpty()
    ensures forall room: nat :: LinesFit("", room)
  {
  }

  lemma LinesFitBreak(s: string)
    ensures LinesFit("\n" + s, 0) <==> LinesFit(s, 72)
  {
    assert ("\n" + s)[1..] == s;
  }

  /** Every line of an encoding has at most 72 characters. */
  lemma EncodeLines(bs: seq<bv8>)
    ensures LinesFit(Encode(bs), 72)
  {
    EncodeLinesFrom(bs, 0);
  }

  /** An encoding never contains '<'. */
  lemma {:induction false} EncodeNoAngle(bs: seq<bv8>, line: nat)
    ensures forall i :: 0 <= i < |EncodeFrom(bs, line)| ==> EncodeFrom(bs, line)[i] != '<'
    decreases |bs|
  {
    hide CharOf;
    if |bs| == 1 {
      CharOfIsPrintable(Six0(bs[0])); CharOfIsPrintable(Six1(bs[0], 0));
    } else if |bs| == 2 {
      CharOfIsPrintable(Six0(bs[0])); CharOfIsPrintable(Six1(bs[0], bs[1])); CharOfIsPrintable(Six2(bs[1], 0));
    } else if |bs| >= 3 {
      EncodeNoAngle(bs[3..], if line == LAST_OCTET then 0 else line + 1);
      CharOfIsPrintable(Six0(bs[0])); CharOfIsPrintable(Six1(bs[0], bs[1]));
      CharOfIsPrintable(Six2(bs[1], bs[2])); CharOfIsPrintable(Six3(bs[2]));
    }
  }

  /* ---- foreign characters do not matter ---- */

  /** The alphabet and '=' characters of s, in order. */
  function Significant(s: string): string {
    if s == "" then ""
    else if TypeOf(s[0]).Unknown? then Significant(s[1..])
    else [s[0]] + Significant(s[1..])
  }

  /** Reading the next character of s and of its significant part gives the same. */
  lemma {:induction false} NextSignificant(s: string)
    ensures var n, m := NextOf(s), NextOf(Significant(s));
      n.End? == m.End? && (n.Char? ==> m == Char(n.t, Significant(n.rest)))
  {
    hide TypeOf;
    if s != "" {
      if TypeOf(s[0]).Unknown? {
        NextSignificant(s[1..]);
        NextAfterForeign(s);
      } else {
        assert s == [s[0]] + s[1..];
        NextHere(s[0], s[1..]);
        NextHere(s[0], Significant(s[1..]));
      }
    }
  }

  lemma NextAfterForeign(s: string)
    requires s != "" && TypeOf(s[0]).Unknown?
    ensures NextOf(s) == NextOf(s[1..])
  {
    hide TypeOf;
    var k := Skip(s[1..]);
    assert Skip(s) == 1 + k;
    if k < |s[1..]| {
      assert s[1 + k] == s[1..][k] && s[1 + k + 1..] == s[1..][k + 1..];
    }
  }

  lemma NoneSignificant(s: string)
    requires NextOf(s).End?
    ensures Decode(s).data == []
  {
  }

  /** The decoded bytes depend only on the significant characters. */
  lemma {:induction false} DecodeSignificant(s: string)
    ensures Decode(s).data == Decode(Significant(s)).data
    decreases |s|
  {
    hide TypeOf, Byte0, Byte1, Byte2, Significant, NextOf, DecodeTail;
    var t := Significant(s);
    NextSignificant(s);
    var n0 := NextOf(s);
    if n0.End? {
      NoneSignificant(s);
      NoneSignificant(t);
    } else {
      NonEmpty(s);
      NonEmpty(t);
      NextSignificant(n0.rest);
      var n1 := NextOf(n0.rest);
      if n0.t.Sextet? && n1.Char? && n1.t.Sextet? {
        TailSignificant(n0.t, n1.t, n1.rest);
      }
    }
  }

  lemma NonEmpty(s: string)
    requires NextOf(s).Char?
    ensures s != ""
  {
  }

  lemma {:induction false} TailSignificant(t0: CharType, t1: CharType, s: string)
    requires t0.Sextet? && 0 <= t0.i < 64 && t1.Sextet? && 0 <= t1.i < 64
    ensures DecodeTail(t0, t1, s).data == DecodeTail(t0, t1, Significant(s)).data
    decreases |s|
  {
    hide TypeOf, Byte0, Byte1, Byte2, Significant, NextOf, Decode;
    NextSignificant(s);
    var n2 := NextOf(s);
    if n2.Char? && n2.t.Sextet? {
      NextSignificant(n2.rest);
      var n3 := NextOf(n2.rest);
      if n3.Char? && n3.t.Sextet? {
        DecodeSignificant(n3.rest);
      }
    }
  }

  /* ---- the loops as they run ---- */

  /** put: three bytes at a time through the buffer, a line break after every eighteenth group. */
  method Put(bs: seq<bv8>) returns (text: string)
    ensures text == Encode(bs)
  {
    hide EncodeFrom, Group, LastOne, LastTwo;
    var buffer := new ThreeToFour();
    var lineOctets := 0;
    var first := 0;
    text := "";
    assert bs[0..] == bs;
    while first != |bs|
      invariant 0 <= first <= |bs| && 0 <= lineOctets <= LAST_OCTET
      invariant text + EncodeFrom(bs[first..], lineOctets) == Encode(bs)
      decreases |bs| - first
    {
      ghost var rest := bs[first..];
      buffer.Zero();
      buffer.d0 := bs[first];
      first := first + 1;
      if first == |bs| {
        PutLast(rest, lineOctets);
        text := text + LastOne(buffer.d0);
        return;
      }
      buffer.d1 := bs[first];
      first := first + 1;
      if first == |bs| {
        PutLast(rest, lineOctets);
        text := text + LastTwo(buffer.d0, buffer.d1);
        return;
      }
      buffer.d2 := bs[first];
      first := first + 1;
      assert rest[..3] == [buffer.d0, buffer.d1, buffer.d2] && rest[3..] == bs[first..];
      ghost var before := text;
      text := text + Group(buffer.d0, buffer.d1, buffer.d2);
      PutStep(before, rest, bs[first..], lineOctets);
      if lineOctets == LAST_OCTET {
        text := text + "\n";
        lineOctets := 0;
      } else {
        lineOctets := lineOctets + 1;
      }
    }
    assert bs[|bs|..] == [];
    PutLast([], lineOctets);
  }

  lemma PutLast(rest: seq<bv8>, line: nat)
    requires |rest| <= 2
    ensures EncodeFrom(rest, line)
         == if |rest| == 0 then "" else if |rest| == 1 then LastOne(rest[0]) else LastTwo(rest[0], rest[1])
  {
  }

  lemma PutStep(before: string, rest: seq<bv8>, tail: seq<bv8>, line: nat)
    requires |rest| >= 3 && tail == rest[3..] && line <= LAST_OCTET
    ensures before + EncodeFrom(rest, line)
         == if line == LAST_OCTET then before + Group(rest[0], rest[1], rest[2]) + "\n" + EncodeFrom(tail, 0)
            else before + Group(rest[0], rest[1], rest[2]) + EncodeFrom(tail, line + 1)
  {
    hide Group;
  }

  /** Moves `first` to the next significant character, or to the end. */
  method Seek(s: string, from: nat) returns (first: nat)
    requires from <= |s|
    ensures first == from + Skip(s[from..]) && from <= first <= |s|
    ensures first == |s| ==> NextOf(s[from..]) == End
    ensures first < |s| ==> NextOf(s[from..]) == Char(TypeOf(s[first]), s[first + 1..])
  {
    hide TypeOf;
    first := from;
    while first < |s| && TypeOf(s[first]).Unknown?
      invariant from <= first <= |s|
      invariant Skip(s[from..]) == first - from + Skip(s[first..])
    {
      assert s[first..][0] == s[first] && s[first..][1..] == s[first + 1..];
      first := first + 1;
    }
    assert Skip(s[first..]) == 0;
    if first < |s| {
      assert s[from..][first - from] == s[first] && s[from..][first - from + 1..] == s[first + 1..];
    }
  }

  /** get: skip foreign characters, assemble groups in the buffer, stop at padding or at the end. */
  method Get(s: string) returns (data: seq<bv8>, fail: bool, eof: bool)
    ensures Decoded(data, fail, eof) == Decode(s)
  {
    hide TypeOf, Decode, DecodeTail, NextOf;
    data, fail, eof := [], false, false;
    var first := 0;
    assert s[0..] == s;
    ghost var whole := Decode(s);
    while first != |s|
      invariant 0 <= first <= |s| && !fail && !eof
      invariant whole == Decode(s[first..]).(data := data + Decode(s[first..]).data)
      decreases |s| - first
    {
      ghost var start := first;
      first := Seek(s, first);
      DecodeUnfold(s[start..]);
      if first == |s| {
        fail, eof := true, true;
        assert data + [] == data;
        return;
      }
      if TypeOf(s[first]).Equal? {
        fail := true;
        assert data + [] == data;
        return;
      }
      var t0 := TypeOf(s[first]);
      first := Seek(s, first + 1);
      if first == |s| {
        fail, eof := true, true;
        assert data + [] == data;
        return;
      }
      if TypeOf(s[first]).Equal? {
        fail := true;
        assert data + [] == data;
        return;
      }
      var t1 := TypeOf(s[first]);
      var more, group, f, e, first' := Tail(s, first + 1, t0, t1);
      if !more {
        data, fail, eof := data + group, f, e;
        return;
      }
      assert data + (group + Decode(s[first'..]).data) == data + group + Decode(s[first'..]).data;
      data := data + group;
      first := first';
    }
    assert s[|s|..] == "";
    DecodeNothing();
    assert data + [] == data;
  }

  lemma DecodeNothing()
    ensures Decode("") == Decoded([], false, false)
  {
  }

  lemma DecodeUnfold(s: string)
    requires s != ""
    ensures Decode(s) == (
      var n0 := NextOf(s);
      if n0.End? then Decoded([], true, true)
      else if n0.t.Equal? then Decoded([], true, false)
      else
        var n1 := NextOf(n0.rest);
        if n1.End? then Decoded([], true, true)
        else if n1.t.Equal? then Decoded([], true, false)
        else DecodeTail(n0.t, n1.t, n1.rest))
  {
  }

  lemma DecodeTailUnfold(t0: CharType, t1: CharType, s: string)
    requires t0.Sextet? && 0 <= t0.i < 64 && t1.Sextet? && 0 <= t1.i < 64
    ensures DecodeTail(t0, t1, s) == (
      var p, q := SixOf(t0), SixOf(t1);
      var n2 := NextOf(s);
      if n2.End? then Decoded([], true, true)
      else if n2.t.Equal? then Decoded([Byte0(p, q)], false, n2.rest == "")
      else
        var r := SixOf(n2.t);
        var n3 := NextOf(n2.rest);
        if n3.End? then Decoded([], false, true)
        else if n3.t.Equal? then Decoded([Byte0(p, q), Byte1(q, r)], false, false)
        else
          var d := Decode(n3.rest);
          d.(data := [Byte0(p, q), Byte1(q, r), Byte2(r, SixOf(n3.t))] + d.data))
  {
  }

  /** The second half of a group, through the buffer. */
  method Tail(s: string, from: nat, t0: CharType, t1: CharType)
    returns (more: bool, group: seq<bv8>, fail: bool, eof: bool, first: nat)
    requires from <= |s| && t0.Sextet? && 0 <= t0.i < 64 && t1.Sextet? && 0 <= t1.i < 64
    ensures !more ==> Decoded(group, fail, eof) == DecodeTail(t0, t1, s[from..])
    ensures more ==> from < first <= |s|
    ensures more ==> DecodeTail(t0, t1, s[from..]) == Decode(s[first..]).(data := group + Decode(s[first..]).data)
  {
    hide TypeOf, Decode, DecodeTail, NextOf, High6, Low2, High4, Low4, High2, Low6, Byte0, Byte1, Byte2, SixOf;
    DecodeTailUnfold(t0, t1, s[from..]);
    var buffer := new ThreeToFour();
    buffer.PutSix0(SixOf(t0));
    buffer.PutSix1(SixOf(t1));
    BufferTwo(SixOf(t0), SixOf(t1));
    more, group, fail, eof := false, [], false, false;
    first := Seek(s, from);
    if first == |s| {
      fail, eof := true, true;
      return;
    }
    var t2 := TypeOf(s[first]);
    if t2.Equal? {
      first := first + 1;
      if first == |s| {
        eof := true;
      }
      group := [buffer.d0];
      return;
    }
    buffer.PutSix2(SixOf(t2));
    BufferThree(SixOf(t1), SixOf(t2));
    first := Seek(s, first + 1);
    if first == |s| {
      eof := true;
      return;
    }
    var t3 := TypeOf(s[first]);
    if t3.Equal? {
      group := [buffer.d0, buffer.d1];
      return;
    }
    buffer.PutSix3(SixOf(t3));
    BufferFour(SixOf(t2), SixOf(t3));
    more, group := true, [buffer.d0, buffer.d1, buffer.d2];
    first := first + 1;
  }

  lemma BufferTwo(p: Six, q: Six)
    ensures Low2(High6(0, p), q) == Byte0(p, q)
  {
  }

  lemma BufferThree(q: Six, r: Six)
    ensures Low4(High4(0, q), r) == Byte1(q, r)
  {
  }

  lemma BufferFour(r: Six, s: Six)
    ensures Low6(High2(0, r), s) == Byte2(r, s)
  {
  }
}
