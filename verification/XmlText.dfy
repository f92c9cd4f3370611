/** RobotRpcUtil: finding tags in a text at a moving offset, and entity escaping. */
module XmlText {
  import opened TextSearch

  const INT_MAX: nat := 0x7FFF_FFFF

  /* ---- tags ---- */

  function SkipSpaces(s: string, i: nat): (j: nat)
    requires i <= |s|
    ensures i <= j <= |s|
    ensures forall k :: i <= k < j ==> IsSpace(s[k])
    ensures j < |s| ==> !IsSpace(s[j])
    decreases |s| - i
  {
    if i < |s| && IsSpace(s[i]) then SkipSpaces(s, i + 1) else i
  }

  lemma SkipNone(s: string, i: nat)
    requires i <= |s| && (i < |s| ==> !IsSpace(s[i]))
    ensures SkipSpaces(s, i) == i
  {
  }

  /** The outcome of a tag function: whether it matched, and the offset afterwards. */
  datatype Step = Step(ok: bool, off: nat)

  function NextTagIs(tag: string, xml: string, off: nat): (r: Step)
    requires tag != ""
    ensures r.ok ==> off + |tag| <= r.off <= |xml|
    ensures !r.ok ==> r.off == off
  {
    if |xml| > INT_MAX || off >= |xml| then Step(false, off)
    else
      var j := SkipSpaces(xml, off);
      if At(xml, j, tag) then Step(true, j + |tag|) else Step(false, off)
  }

  function FindTag(tag: string, xml: string, off: nat): (r: Step)
    ensures r.ok ==> off + |tag| <= r.off <= |xml|
    ensures !r.ok ==> r.off == off
  {
    if |xml| > INT_MAX || off >= |xml| then Step(false, off)
    else
      var p := Find(xml, tag, off);
      if p.Npos? then Step(false, off) else Step(true, p.i + |tag|)
  }

  /** The end of a tag that starts at i: after '>', or where the text or a NUL ends it. */
  function TagEnd(s: string, i: nat): (j: nat)
    requires i < |s|
    ensures i < j <= |s|
    decreases |s| - i
  {
    if s[i] == '>' || i + 1 >= |s| || s[i + 1] == '\0' then i + 1 else TagEnd(s, i + 1)
  }

  datatype Tagged = Tagged(text: string, off: nat)

  function GetNextTag(xml: string, off: nat): (r: Tagged)
    ensures off <= r.off && (off <= |xml| ==> r.off <= |xml|)
    ensures r.text == "" ==> r.off == off
  {
    if |xml| > INT_MAX || off >= |xml| then Tagged("", off)
    else
      var j := SkipSpaces(xml, off);
      if j >= |xml| || xml[j] != '<' then Tagged("", off)
      else Tagged(xml[j..TagEnd(xml, j)], TagEnd(xml, j))
  }

  /** The text between `<tag>` and `</tag>`. */
  function ParseTag(tag: string, xml: string, off: nat): (r: Tagged)
    requires tag != ""
    ensures off <= r.off && (off <= |xml| ==> r.off <= |xml|)
  {
    if |xml| > INT_MAX || off >= |xml| then Tagged("", off)
    else
      var start := Find(xml, tag, off);
      if start.Npos? then Tagged("", off)
      else
        var i := start.i + |tag|;
        var etag := "</" + tag[1..];
        var end := Find(xml, etag, i);
        if end.Npos? then Tagged("", off) else Tagged(xml[i..end.i], end.i + |etag|)
  }

  /** nextTagIs as it runs: a pointer moves over white space. */
  method NextTagIsLoop(tag: string, xml: string, off: nat) returns (ok: bool, off': nat)
    requires tag != ""
    ensures Step(ok, off') == NextTagIs(tag, xml, off)
  {
    ok, off' := false, off;
    if |xml| > INT_MAX || off >= |xml| {
      return;
    }
    var cp, nc := off, 0;
    while cp < |xml| && xml[cp] != '\0' && IsSpace(xml[cp])
      invariant off <= cp <= |xml| && nc == cp - off
      invariant SkipSpaces(xml, cp) == SkipSpaces(xml, off)
    {
      cp := cp + 1;
      nc := nc + 1;
    }
    if cp < |xml| && At(xml, cp, tag) {
      ok, off' := true, off + (nc + |tag|);
    }
  }

  /** getNextTag as it runs: characters are appended up to '>'. */
  method GetNextTagLoop(xml: string, off: nat) returns (tag: string, off': nat)
    ensures Tagged(tag, off') == GetNextTag(xml, off)
  {
    tag, off' := "", off;
    if |xml| > INT_MAX || off >= |xml| {
      return;
    }
    var pos := off;
    while pos < |xml| && xml[pos] != '\0' && IsSpace(xml[pos])
      invariant off <= pos <= |xml|
      invariant SkipSpaces(xml, pos) == SkipSpaces(xml, off)
    {
      pos := pos + 1;
    }
    if pos >= |xml| || xml[pos] != '<' {
      return;
    }
    ghost var start := pos;
    var s := [xml[pos]];
    pos := pos + 1;
    while xml[pos - 1] != '>' && pos < |xml| && xml[pos] != '\0'
      invariant start < pos <= |xml|
      invariant s == xml[start..pos]
      invariant TagEnd(xml, pos - 1) == TagEnd(xml, start)
      decreases |xml| - pos
    {
      s := s + [xml[pos]];
      pos := pos + 1;
    }
    tag, off' := s, pos;
  }

  /* ---- entities (XML 1.0, section 4.6) ---- */

  /** The entity that stands for c, without the ampersand; empty if c needs none. */
  function Entity(c: char): string {
    if c == '<' then "lt;"
    else if c == '>' then "gt;"
    else if c == '&' then "amp;"
    else if c == '\'' then "apos;"
    else if c == '\"' then "quot;"
    else ""
  }

  predicate NeedsEntity(c: char) {
    Entity(c) != ""
  }

  function EncodeChar(c: char): string {
    if NeedsEntity(c) then "&" + Entity(c) else [c]
  }

  function Encode(s: string): string {
    if s == "" then "" else EncodeChar(s[0]) + Encode(s[1..])
  }

  /** The first entity that the text starts with, in table order: its character and length. */
  function EntityAt(s: string): (r: (char, nat))
    ensures r.1 <= |s|
  {
    if "lt;" <= s then ('<', 3)
    else if "gt;" <= s then ('>', 3)
    else if "amp;" <= s then ('&', 4)
    else if "apos;" <= s then ('\'', 5)
    else if "quot;" <= s then ('\"', 5)
    else ('\0', 0)
  }

  function Decode(s: string): (d: string)
    ensures |d| <= |s|
    decreases |s|
  {
    if s == "" then ""
    else if s[0] == '&' && |s| > 1 && EntityAt(s[1..]).1 != 0 then
      [EntityAt(s[1..]).0] + Decode(s[1 + EntityAt(s[1..]).1..])
    else [s[0]] + Decode(s[1..])
  }

  /** A text that starts with an entity. */
  lemma DecodeEntity(s: string, c: char, n: nat)
    requires s != "" && s[0] == '&' && EntityAt(s[1..]) == (c, n) && n != 0
    ensures n <= |s[1..]| && Decode(s) == [c] + Decode(s[1 + n..])
  {
    hide EntityAt;
  }

  lemma DecodeChar(c: char, rest: string)
    ensures Decode(EncodeChar(c) + rest) == [c] + Decode(rest)
  {
    var s := EncodeChar(c) + rest;
    if NeedsEntity(c) {
      var e := Entity(c);
      assert s[0] == '&' && s[1..] == e + rest && s[1 + |e|..] == rest;
      EntityUnique(c, rest);
      DecodeEntity(s, c, |e|);
    } else {
      assert s[0] == c && s[1..] == rest;
      DecodePlain(s);
    }
  }

  lemma DecodePlain(s: string)
    requires s != "" && s[0] != '&'
    ensures Decode(s) == [s[0]] + Decode(s[1..])
  {
    hide EntityAt;
  }

  lemma EntityUnique(c: char, rest: string)
    requires NeedsEntity(c)
    ensures EntityAt(Entity(c) + rest) == (c, |Entity(c)|)
  {
    var s := Entity(c) + rest;
    assert s[0] == Entity(c)[0] && s[1] == Entity(c)[1];
    assert "lt;" <= s ==> s[0] == 'l';
    assert "gt;" <= s ==> s[0] == 'g';
    assert "amp;" <= s ==> s[0] == 'a' && s[1] == 'm';
    assert "apos;" <= s ==> s[0] == 'a' && s[1] == 'p';
    assert "quot;" <= s ==> s[0] == 'q';
    assert Entity(c) <= s;
  }

  /** The five entities, both ways, and everything else as it is. */
  lemma Entities(c: char)
    ensures Encode("<") == "&lt;" && Encode(">") == "&gt;" && Encode("&") == "&amp;"
    ensures Encode("'") == "&apos;" && Encode("\"") == "&quot;"
    ensures c !in {'<', '>', '&', '\'', '\"'} ==> Encode([c]) == [c]
    ensures Decode("&lt;") == "<" && Decode("&gt;") == ">" && Decode("&amp;") == "&"
    ensures Decode("&apos;") == "'" && Decode("&quot;") == "\""
  {
    hide Encode, Decode;
    EncodeOneChar('<');
    EncodeOneChar('>');
    EncodeOneChar('&');
    EncodeOneChar('\'');
    EncodeOneChar('\"');
    EncodeOneChar(c);
    DecodeEncode("<");
    DecodeEncode(">");
    DecodeEncode("&");
    DecodeEncode("'");
    DecodeEncode("\"");
  }

  /** An ampersand before anything else stands for itself. */
  lemma StrayAmpersand(s: string)
    requires !("lt;" <= s) && !("gt;" <= s) && !("amp;" <= s) && !("apos;" <= s) && !("quot;" <= s)
    ensures Decode("&" + s) == "&" + Decode(s)
  {
    assert ("&" + s)[1..] == s;
  }

  lemma EncodeOneChar(c: char)
    ensures Encode([c]) == EncodeChar(c)
  {
    hide EncodeChar;
    assert [c][1..] == "" && Encode("") == "";
    assert EncodeChar(c) + "" == EncodeChar(c);
  }

  /** Decoding undoes encoding, for every text. */
  lemma {:induction false} DecodeEncode(s: string)
    ensures Decode(Encode(s)) == s
  {
    if s != "" {
      DecodeEncode(s[1..]);
      DecodeChar(s[0], Encode(s[1..]));
      assert [s[0]] + s[1..] == s;
    }
  }

  /** Encoding is injective. */
  lemma EncodeInjective(s: string, t: string)
    requires Encode(s) == Encode(t)
    ensures s == t
  {
    DecodeEncode(s);
    DecodeEncode(t);
  }

  /** The characters that never survive encoding. */
  predicate IsMarkup(c: char) {
    c == '<' || c == '>' || c == '\'' || c == '\"'
  }

  predicate NoMarkup(s: string) {
    forall i :: 0 <= i < |s| ==> !IsMarkup(s[i])
  }

  lemma EncodeCharClean(c: char)
    ensures NoMarkup(EncodeChar(c)) && |EncodeChar(c)| >= 1
  {
  }

  /** Encoded text has no markup characters and is never shorter than the original. */
  lemma {:induction false} EncodeClean(s: string)
    ensures |s| <= |Encode(s)| && NoMarkup(Encode(s))
  {
    if s != "" {
      hide EncodeChar;
      EncodeClean(s[1..]);
      EncodeCharClean(s[0]);
    }
  }

  predicate PlainText(s: string) {
    forall i :: 0 <= i < |s| ==> !NeedsEntity(s[i])
  }

  /** Text without the five characters is left alone. */
  lemma {:induction false} EncodePlain(s: string)
    requires PlainText(s)
    ensures Encode(s) == s
  {
    if s != "" {
      EncodePlain(s[1..]);
      assert [s[0]] + s[1..] == s;
    }
  }

  lemma {:induction false} EncodeSplit(a: string, b: string)
    ensures Encode(a + b) == Encode(a) + Encode(b)
  {
    if a == "" {
      assert a + b == b;
    } else {
      assert (a + b)[1..] == a[1..] + b;
      EncodeSplit(a[1..], b);
    }
  }

  lemma {:induction false} DecodeNoAmp(s: string, k: nat)
    requires k <= |s| && forall i :: 0 <= i < k ==> s[i] != '&'
    ensures Decode(s) == s[..k] + Decode(s[k..])
  {
    hide EntityAt, Decode;
    if k == 0 {
      assert s[0..] == s;
    } else {
      DecodePlain(s);
      DecodeNoAmp(s[1..], k - 1);
      assert s[1..][..k - 1] == s[1..k] && s[1..][k - 1..] == s[k..];
      assert [s[0]] + s[1..k] == s[..k];
    }
  }

  /** xmlDecode: copy up to the first ampersand, then move `iAmp` to the end. */
  method XmlDecode(encoded: string) returns (decoded: string)
    ensures decoded == Decode(encoded)
  {
    hide Decode, EntityAt, DecodeStep;
    var found := FindChar(encoded, '&', 0);
    if found.Npos? {
      DecodeNoAmp(encoded, |encoded|);
      DecodeNothing();
      assert encoded[|encoded|..] == "" && encoded[..|encoded|] == encoded;
      return encoded;
    }
    var iAmp, iSize := found.i, |encoded|;
    DecodeNoAmp(encoded, iAmp);
    decoded := encoded[..iAmp];
    while iAmp != iSize
      invariant 0 <= iAmp <= iSize
      invariant decoded + Decode(encoded[iAmp..]) == Decode(encoded)
      decreases iSize - iAmp
    {
      var (c, step) := DecodeStep(encoded[iAmp..]);
      assert encoded[iAmp..][step..] == encoded[iAmp + step..];
      assert decoded + ([c] + Decode(encoded[iAmp + step..])) == decoded + [c] + Decode(encoded[iAmp + step..]);
      decoded := decoded + [c];
      iAmp := iAmp + step;
    }
    assert encoded[iSize..] == "";
    DecodeNothing();
  }

  lemma DecodeNothing()
    ensures Decode("") == ""
  {
  }

  /** One turn of the decoding loop: the character produced and the characters consumed. */
  function DecodeStep(s: string): (r: (char, nat))
    requires s != ""
    ensures 1 <= r.1 <= |s|
    ensures Decode(s) == [r.0] + Decode(s[r.1..])
  {
    hide EntityAt;
    if s[0] == '&' && |s| > 1 && EntityAt(s[1..]).1 != 0 then (EntityAt(s[1..]).0, 1 + EntityAt(s[1..]).1)
    else (s[0], 1)
  }

  /** xmlEncode: copy up to the first special character, then replace one by one. */
  method XmlEncode(raw: string) returns (encoded: string)
    ensures encoded == Encode(raw)
  {
    hide EncodeChar, Entity;
    var iRep, iSize := 0, |raw|;
    while iRep < iSize && !NeedsEntity(raw[iRep])
      invariant 0 <= iRep <= iSize && forall i :: 0 <= i < iRep ==> !NeedsEntity(raw[i])
    {
      iRep := iRep + 1;
    }
    EncodePlain(raw[..iRep]);
    if iRep == iSize {
      assert raw[..iRep] == raw;
      return raw;
    }
    encoded := raw[..iRep];
    assert raw == raw[..iRep] + raw[iRep..];
    EncodeSplit(raw[..iRep], raw[iRep..]);
    while iRep != iSize
      invariant 0 <= iRep <= iSize
      invariant encoded + Encode(raw[iRep..]) == Encode(raw)
      decreases iSize - iRep
    {
      assert raw[iRep..][1..] == raw[iRep + 1..];
      assert encoded + (EncodeChar(raw[iRep]) + Encode(raw[iRep + 1..]))
          == encoded + EncodeChar(raw[iRep]) + Encode(raw[iRep + 1..]);
      encoded := encoded + EncodeChar(raw[iRep]);
      iRep := iRep + 1;
    }
    assert raw[iSize..] == "";
  }
}
