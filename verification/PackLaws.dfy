/** What the emitted pack and unpack calls do to the values they are given. */
module PackLaws {
  import opened Common
  import opened DecimalText
  import opened StructPattern
  import opened WireTypes
  import opened PyTarget

  /** One number per code. */
  function PackEach(codes: string, ts: seq<Tree>): Option<seq<Byte>> {
    if codes == "" then (if ts == [] then Some([]) else None)
    else if ts == [] || !ts[0].Num? || !Fits(codes[0], ts[0].n) then None
    else
      var rest := PackEach(codes[1..], ts[1..]);
      if rest.None? then None else Some(PackCode(codes[0], ts[0].n) + rest.value)
  }

  lemma {:induction false} PackEachSplit(n: nat, c: char, codes: string, ts: seq<Tree>)
    requires n <= |ts|
    ensures PackEach(Repeat(c, n) + codes, ts)
         == if PackNumbers(c, ts[..n]).None? || PackEach(codes, ts[n..]).None? then None
            else Some(PackNumbers(c, ts[..n]).value + PackEach(codes, ts[n..]).value)
  {
    var all := Repeat(c, n) + codes;
    if n == 0 {
      assert all == codes && ts[..n] == [] && ts[n..] == ts;
      assert PackEach(codes, ts).Some? ==> [] + PackEach(codes, ts).value == PackEach(codes, ts).value;
    } else {
      assert all[0] == c && all[1..] == Repeat(c, n - 1) + codes;
      assert ts[1..][..n - 1] == ts[..n][1..] && ts[1..][n - 1..] == ts[n..];
      PackEachSplit(n - 1, c, codes, ts[1..]);
      var a, b := PackNumbers(c, ts[..n][1..]), PackEach(codes, ts[n..]);
      if ts[0].Num? && Fits(c, ts[0].n) && a.Some? && b.Some? {
        assert PackCode(c, ts[0].n) + (a.value + b.value) == PackCode(c, ts[0].n) + a.value + b.value;
      }
    }
  }

  lemma {:induction false} PackEachShort(codes: string, ts: seq<Tree>)
    requires |ts| < |codes|
    ensures PackEach(codes, ts) == None
  {
    if ts != [] {
      PackEachShort(codes[1..], ts[1..]);
    }
  }

  /** A format without byte strings packs one number per code it stands for. */
  lemma {:induction false} PackByCodes(tokens: seq<Token>, ts: seq<Tree>)
    requires NoZeroCount(tokens) && 's' !in Codes(tokens)
    ensures Pack(tokens, ts) == PackEach(Codes(tokens), ts)
  {
    if tokens != [] {
      var n, c := tokens[0].count, tokens[0].code;
      var codes := Codes(tokens[1..]);
      assert Codes(tokens)[0] == c;
      assert forall i :: 0 <= i < |codes| ==> codes[i] == Codes(tokens)[n + i];
      if n <= |ts| {
        PackByCodes(tokens[1..], ts[n..]);
        PackEachSplit(n, c, codes, ts);
      } else {
        PackEachShort(Codes(tokens), ts);
      }
    }
  }

  /** A single counted code. */
  lemma PackCounted(n: nat, c: char, ts: seq<Tree>)
    requires c != 's'
    ensures Pack([Token(n, c)], ts) == if |ts| == n then PackNumbers(c, ts) else None
  {
    var rest := [Token(n, c)][1..];
    assert rest == [];
    if |ts| >= n {
      assert |ts| == n ==> ts[..n] == ts && ts[n..] == [];
      assert PackNumbers(c, ts).Some? ==> PackNumbers(c, ts).value + [] == PackNumbers(c, ts).value;
    }
  }

  lemma PackBytes(n: nat, bs: seq<Byte>)
    ensures Pack([Token(n, 's')], [Bytes(bs)]) == Some(Padded(bs, n))
  {
    assert [Token(n, 's')][1..] == [] && [Bytes(bs)][1..] == [];
    assert Padded(bs, n) + [] == Padded(bs, n);
  }

  /** A length followed by what one more directive packs. */
  lemma PackAfterLength(len: nat, t: Token, ts: seq<Tree>)
    requires len < MAX_LEN
    ensures Pack([Token(1, 'I'), t], [Num(len)] + ts)
         == if Pack([t], ts).None? then None else Some(WireLength(len) + Pack([t], ts).value)
  {
    var all := [Num(len)] + ts;
    assert [Token(1, 'I'), t][1..] == [t];
    assert all[1..] == ts && all[..1] == [Num(len)];
    assert Limit('I') == MAX_LEN by {
      assert Pow256(4) == 256 * Pow256(3) == 65536 * Pow256(2) == 0x100_0000 * Pow256(1);
    }
    assert PackNumbers('I', [Num(len)]) == Some(PackCode('I', len)) by {
      assert [Num(len)][1..] == [];
      assert PackCode('I', len) + [] == PackCode('I', len);
    }
  }

  /** The format `'<I%s<c>'%n`. */
  lemma LengthFormat(n: nat, c: char)
    requires IsCode(c)
    ensures Tokens("I" + Decimal(n) + [c]) == Some([Token(1, 'I'), Token(n, c)])
  {
    NumberOfDecimal(n);
    TokensOfCounted(Decimal(n), c, "");
    assert Decimal(n) + [c] + "" == Decimal(n) + [c];
    assert [Token(n, c)] + [] == [Token(n, c)];
    TokensOfCounted("", 'I', Decimal(n) + [c]);
    assert "" + ['I'] + (Decimal(n) + [c]) == "I" + Decimal(n) + [c];
    assert [Token(1, 'I')] + [Token(n, c)] == [Token(1, 'I'), Token(n, c)];
  }

  lemma CountedFormat(n: nat, c: char)
    requires IsCode(c)
    ensures Tokens(Counted(n, c)) == Some([Token(n, c)])
  {
    NumberOfDecimal(n);
    TokensOfCounted(Decimal(n), c, "");
    assert Decimal(n) + [c] + "" == Counted(n, c);
    assert [Token(n, c)] + [] == [Token(n, c)];
  }

  /** The elements of an array of simple values. */
  lemma {:induction false} PackElements(p: Simple, es: seq<Tree>)
    requires ElementsValue(Prim(p), es)
    ensures PackNumbers(Code(p), es) == Some(WireElements(Prim(p), es))
  {
    if es != [] {
      assert BaseValue(Prim(p), es[0]);
      ElementsRest(Prim(p), es);
      PackElements(p, es[1..]);
    }
  }

  lemma ElementsRest(b: Base, es: seq<Tree>)
    requires ElementsValue(b, es) && es != []
    ensures BaseValue(b, es[0]) && ElementsValue(b, es[1..])
  {
    forall i | 0 <= i < |es[1..]| ensures BaseValue(b, es[1..][i]) {
      assert es[1..][i] == es[i + 1];
    }
  }

  /* ---- unpacking what was packed ---- */

  lemma {:induction false} NumbersInverse(c: char, ts: seq<Tree>)
    requires PackNumbers(c, ts).Some?
    ensures var bs := PackNumbers(c, ts).value;
      |bs| == |ts| * CodeSize(c) && UnpackNumbers(c, |ts|, bs) == ts
  {
    if ts != [] {
      var bs := PackNumbers(c, ts).value;
      NumbersInverse(c, ts[1..]);
      UnpackPackCode(c, ts[0].n);
      var w := CodeSize(c);
      assert bs[..w] == PackCode(c, ts[0].n) && bs[w..] == PackNumbers(c, ts[1..]).value;
      assert (|ts| - 1) * w + w == |ts| * w;
    }
  }

  /** Unpacking the packed numbers of a format gives them back. */
  lemma {:induction false} UnpackPacked(tokens: seq<Token>, ts: seq<Tree>)
    requires NoZeroCount(tokens) && 's' !in Codes(tokens) && PackEach(Codes(tokens), ts).Some?
    ensures var bs := PackEach(Codes(tokens), ts).value;
      |bs| == CalcSize(tokens) && Unpack(tokens, bs) == ts
  {
    if tokens != [] {
      var n, c := tokens[0].count, tokens[0].code;
      var codes := Codes(tokens[1..]);
      var bs := PackEach(Codes(tokens), ts).value;
      assert Codes(tokens)[0] == c;
      assert forall i :: 0 <= i < |codes| ==> codes[i] == Codes(tokens)[n + i];
      PackEachEnough(Codes(tokens), ts);
      PackEachSplit(n, c, codes, ts);
      NumbersInverse(c, ts[..n]);
      UnpackPacked(tokens[1..], ts[n..]);
      var k := n * CodeSize(c);
      assert bs[..k] == PackNumbers(c, ts[..n]).value && bs[k..] == PackEach(codes, ts[n..]).value;
      assert ts == ts[..n] + ts[n..];
    }
  }

  lemma PackEachEnough(codes: string, ts: seq<Tree>)
    requires PackEach(codes, ts).Some?
    ensures |ts| >= |codes|
  {
    if |ts| < |codes| {
      PackEachShort(codes, ts);
    }
  }

  lemma UnpackCounted(n: nat, c: char, ts: seq<Tree>)
    requires c != 's' && |ts| == n && PackNumbers(c, ts).Some?
    ensures var bs := PackNumbers(c, ts).value;
      |bs| == CalcSize([Token(n, c)]) && Unpack([Token(n, c)], bs) == ts
  {
    var bs := PackNumbers(c, ts).value;
    NumbersInverse(c, ts);
    var tokens := [Token(n, c)];
    assert tokens[1..] == [];
    assert CalcSize(tokens) == n * CodeSize(c) + CalcSize([]);
    assert bs[..n * CodeSize(c)] == bs && bs[n * CodeSize(c)..] == [];
    assert ts + [] == ts;
  }
}
