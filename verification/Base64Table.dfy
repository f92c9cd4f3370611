/** The base64 alphabet and grouping as sections 4 and 10 of RFC 4648 write them out. */
module Base64Table {
  import opened Base64

  const UPPER := "ABCDEFGHIJKLMNOPQRSTUVWXYZ"
  const LOWER := "abcdefghijklmnopqrstuvwxyz"
  const DIGITS := "0123456789"
  const ALPHABET := UPPER + (LOWER + (DIGITS + "+/"))

  lemma Letters(n: nat)
    ensures n < 26 ==> UPPER[n] == 'A' + n as char && LOWER[n] == 'a' + n as char
    ensures n < 10 ==> DIGITS[n] == '0' + n as char
  {
  }

  lemma TableAt(n: nat)
    requires n < 64
    ensures |ALPHABET| == 64
    ensures ALPHABET[n] == if n < 26 then UPPER[n] else if n < 52 then LOWER[n - 26]
                           else if n < 62 then DIGITS[n - 52] else if n == 62 then '+' else '/'
  {
  }

  lemma CharOfNumber(n: nat)
    requires n < 64
    ensures CharOf(n as bv8) == if n < 26 then 'A' + n as char else if n < 52 then 'a' + (n - 26) as char
                                else if n < 62 then '0' + (n - 52) as char else if n == 62 then '+' else '/'
  {
  }

  /** Sextet n is written as character n of the table. */
  lemma AlphabetAt(n: nat)
    requires n < 64
    ensures |ALPHABET| == 64 && CharOf(n as bv8) == ALPHABET[n]
  {
    hide CharOf;
    TableAt(n);
    CharOfNumber(n);
    Letters(if n < 26 then n else if n < 52 then n - 26 else if n < 62 then n - 52 else 0);
  }

  /** And read back as its place; every other character but '=' is foreign. */
  lemma TypeByTable(c: char)
    ensures TypeOf(c).Sextet? ==> TypeOf(c).i < |ALPHABET| && ALPHABET[TypeOf(c).i] == c
    ensures TypeOf(c).Equal? <==> c == '='
    ensures TypeOf(c).Unknown? <==> c != '=' && c !in ALPHABET
  {
    var t := TypeOf(c);
    if t.Sextet? {
      AlphabetAt(t.i);
      CharOfType(c);
    } else if c in ALPHABET {
      var n :| 0 <= n < |ALPHABET| && ALPHABET[n] == c;
      AlphabetAt(n);
      TypeOfChar(n as bv8);
    }
  }

  lemma CharOfType(c: char)
    requires TypeOf(c).Sextet?
    ensures CharOf(TypeOf(c).i as bv8) == c
  {
    hide CharOf;
    CharOfNumber(TypeOf(c).i);
  }

  /** Four sextets are the twenty-four bits of three bytes, in order. */
  lemma SameBits(a: bv8, b: bv8, c: bv8)
    ensures ((Six0(a) as bv24) << 18) | ((Six1(a, b) as bv24) << 12) | ((Six2(b, c) as bv24) << 6) | (Six3(c) as bv24)
         == ((a as bv24) << 16) | ((b as bv24) << 8) | (c as bv24)
  {
  }

  /* ---- the test vectors ---- */

  lemma SixesOfFoo()
    ensures Six0(0x66) == 25 && Six1(0x66, 0) == 32 && Six1(0x66, 0x6F) == 38
    ensures Six2(0x6F, 0) == 60 && Six2(0x6F, 0x6F) == 61 && Six3(0x6F) == 47
    ensures Six0(0x62) == 24 && Six1(0x62, 0x61) == 38 && Six2(0x61, 0x72) == 5 && Six3(0x72) == 50
  {
  }

  lemma CharsOfFoo()
    ensures CharOf(25) == 'Z' && CharOf(32) == 'g' && CharOf(38) == 'm' && CharOf(60) == '8' && CharOf(61) == '9'
    ensures CharOf(47) == 'v' && CharOf(24) == 'Y' && CharOf(5) == 'F' && CharOf(50) == 'y'
  {
  }

  /** The bytes of "f", "fo", "foo" and "foobar". */
  lemma Vectors()
    ensures Encode([]) == "" && Encode([0x66]) == "Zg==" && Encode([0x66, 0x6F]) == "Zm8="
    ensures Encode([0x66, 0x6F, 0x6F]) == "Zm9v"
    ensures Encode([0x66, 0x6F, 0x6F, 0x62, 0x61, 0x72]) == "Zm9vYmFy"
  {
    hide CharOf, Six0, Six1, Six2, Six3;
    SixesOfFoo();
    CharsOfFoo();
    var bs: seq<bv8> := [0x66, 0x6F, 0x6F, 0x62, 0x61, 0x72];
    assert bs[3..] == [0x62, 0x61, 0x72] && bs[3..][3..] == [];
    assert EncodeFrom(bs[3..], 1) == "YmFy" + EncodeFrom([], 2);
    var foo: seq<bv8> := [0x66, 0x6F, 0x6F];
    assert foo[3..] == [];
    assert EncodeFrom(foo[3..], 1) == "";
  }

  /* ---- texts that end within a group ---- */

  lemma AtEnd()
    ensures NextOf("") == End && Decode("") == Decoded([], false, false)
  {
  }

  lemma DecodeFirst(p: Six, rest: string)
    ensures Decode([CharOf(p)] + rest) == (
      var n := NextOf(rest);
      if n.End? then Decoded([], true, true)
      else if n.t.Equal? then Decoded([], true, false)
      else DecodeTail(TypeOf(CharOf(p)), n.t, n.rest))
  {
    hide TypeOf, CharOf, NextOf, DecodeTail;
    SixOfChar(p);
    NextHere(CharOf(p), rest);
  }

  /** What is left of a group that is cut short or padded. */
  lemma CutGroups(p: Six, q: Six, r: Six)
    ensures Decode([CharOf(p)]) == Decoded([], true, true)
    ensures Decode([CharOf(p), CharOf(q)]) == Decoded([], true, true)
    ensures Decode([CharOf(p), CharOf(q), CharOf(r)]) == Decoded([], false, true)
    ensures Decode([CharOf(p), CharOf(q), '=']) == Decoded([Byte0(p, q)], false, true)
    ensures Decode([CharOf(p), '=']) == Decoded([], true, false)
  {
    hide TypeOf, CharOf, NextOf, Decode, Byte0, Byte1, Byte2;
    AtEnd();
    PadType();
    SixOfChar(p);
    SixOfChar(q);
    SixOfChar(r);
    DecodeFirst(p, "");
    DecodeFirst(p, [CharOf(q)]);
    DecodeFirst(p, [CharOf(q), CharOf(r)]);
    DecodeFirst(p, [CharOf(q), '=']);
    DecodeFirst(p, "=");
    NextHere(CharOf(q), "");
    NextHere(CharOf(q), [CharOf(r)]);
    NextHere(CharOf(q), "=");
    NextHere(CharOf(r), "");
    NextHere('=', "");
    assert [CharOf(p)] + "" == [CharOf(p)] && [CharOf(q)] + "" == [CharOf(q)] && [CharOf(r)] + "" == [CharOf(r)];
    assert [CharOf(q)] + [CharOf(r)] == [CharOf(q), CharOf(r)] && [CharOf(q)] + "=" == [CharOf(q), '='];
    assert ['='] + "" == "=" && [CharOf(p)] + "=" == [CharOf(p), '='];
    assert [CharOf(p)] + [CharOf(q)] == [CharOf(p), CharOf(q)];
    assert [CharOf(p)] + [CharOf(q), CharOf(r)] == [CharOf(p), CharOf(q), CharOf(r)];
    assert [CharOf(p)] + [CharOf(q), '='] == [CharOf(p), CharOf(q), '='];
  }

  lemma PadType()
    ensures TypeOf('=') == Equal
  {
  }
}
