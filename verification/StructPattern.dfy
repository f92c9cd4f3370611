/**
 The `struct` format strings that the serializer generator emits: how they are built and
 run-length compressed (generate_struct.py), and what the `struct` module makes of them.
 */
module StructPattern {
  import opened Common
  import opened DecimalText

  /** One directive of a format string: a repeat count and a type code. */
  datatype Token = Token(count: nat, code: char)

  predicate IsCode(c: char) {
    || c == 'b' || c == 'B' || c == 'h' || c == 'H' || c == 'i' || c == 'I'
    || c == 'q' || c == 'Q' || c == 'f' || c == 'd' || c == 's'
  }

  predicate AllCodes(s: string) {
    forall i :: 0 <= i < |s| ==> IsCode(s[i])
  }

  /** The number of digits a string starts with. */
  function DigitRun(s: string): (k: nat)
    ensures k <= |s| && AllDigits(s[..k])
    ensures k < |s| ==> !IsDigit(s[k])
  {
    if s == "" || !IsDigit(s[0]) then 0
    else
      var k := 1 + DigitRun(s[1..]);
      assert forall i :: 1 <= i < k ==> s[i] == s[1..][..k - 1][i - 1];
      k
  }

  /** How `struct` reads a format: an optional repeat count before every code. */
  function Tokens(fmt: string): Option<seq<Token>> {
    if fmt == "" then Some([])
    else
      var k := DigitRun(fmt);
      if k == |fmt| || !IsCode(fmt[k]) then None
      else
        var rest := Tokens(fmt[k + 1..]);
        if rest.None? then None
        else Some([Token(if k == 0 then 1 else Number(fmt[..k]), fmt[k])] + rest.value)
  }

  /** The codes a list of directives stands for, every repeat count written out. */
  function Codes(ts: seq<Token>): string {
    if ts == [] then "" else Repeat(ts[0].code, ts[0].count) + Codes(ts[1..])
  }

  /* ---- reduce_pattern ---- */

  /** The membership test `c in nums`; nums holds the digits '0' to '8' only. */
  predicate InNums(c: char) {
    '0' <= c <= '8'
  }

  function Emit(count: nat, c: char): string {
    if count > 1 then Decimal(count) + [c] else [c]
  }

  /** The rest of the compression when `count` copies of `prev` are pending. */
  function ReduceFrom(prev: char, count: nat, rest: string): string
    decreases |rest|
  {
    if rest == "" then Emit(count, prev)
    else if rest[0] == prev && !InNums(prev) then ReduceFrom(prev, count + 1, rest[1..])
    else Emit(count, prev) + ReduceFrom(rest[0], 1, rest[1..])
  }

  function Reduce(pattern: string): string {
    if |pattern| <= 1 || '%' in pattern then pattern
    else ReduceFrom(pattern[0], 1, pattern[1..])
  }

  /** The compression loop, over `prev`, `count` and `newPattern`. */
  method ReducePattern(pattern: string) returns (r: string)
    ensures r == Reduce(pattern)
  {
    if pattern == "" || |pattern| == 1 || '%' in pattern {
      return pattern;
    }
    var prev := pattern[0];
    var count := 1;
    var newPattern := "";
    for i := 1 to |pattern|
      invariant count >= 1 && prev == pattern[i - 1]
      invariant newPattern + ReduceFrom(prev, count, pattern[i..]) == Reduce(pattern)
    {
      var c := pattern[i];
      assert pattern[i..][0] == c && pattern[i..][1..] == pattern[i + 1..];
      if c == prev && !InNums(c) {
        count := count + 1;
      } else {
        assert newPattern + (Emit(count, prev) + ReduceFrom(c, 1, pattern[i + 1..]))
            == newPattern + Emit(count, prev) + ReduceFrom(c, 1, pattern[i + 1..]);
        if count > 1 {
          newPattern := newPattern + (Decimal(count) + [prev]);
        } else {
          newPattern := newPattern + [prev];
        }
        prev := c;
        count := 1;
      }
    }
    assert pattern[|pattern|..] == "";
    if count > 1 {
      r := newPattern + (Decimal(count) + [pattern[|pattern| - 1]]);
    } else {
      r := newPattern + [prev];
    }
  }

  /** A pattern that is yet to be formatted is left alone. */
  lemma UnformattedKept(pattern: string)
    requires '%' in pattern
    ensures Reduce(pattern) == pattern
  {
  }

  /* ---- compression keeps the meaning of letters-only patterns ---- */

  lemma {:induction false} DigitRunOf(digits: string, rest: string)
    requires AllDigits(digits) && (rest == "" || !IsDigit(rest[0]))
    ensures DigitRun(digits + rest) == |digits|
  {
    if digits == "" {
      assert digits + rest == rest;
    } else {
      assert (digits + rest)[1..] == digits[1..] + rest;
      DigitRunOf(digits[1..], rest);
    }
  }

  lemma TokensOfCounted(digits: string, c: char, rest: string)
    requires AllDigits(digits) && IsCode(c)
    requires Tokens(rest).Some?
    ensures Tokens(digits + [c] + rest)
         == Some([Token(if digits == "" then 1 else Number(digits), c)] + Tokens(rest).value)
  {
    hide Number, DigitRun, AllDigits;
    var s := digits + [c] + rest;
    assert s == digits + ([c] + rest);
    DigitRunOf(digits, [c] + rest);
    assert s[..|digits|] == digits && s[|digits|] == c && s[|digits| + 1..] == rest;
    TokensStep(s);
  }

  lemma TokensStep(s: string)
    requires DigitRun(s) < |s| && IsCode(s[DigitRun(s)]) && Tokens(s[DigitRun(s) + 1..]).Some?
    ensures var k := DigitRun(s);
      Tokens(s) == Some([Token(if k == 0 then 1 else Number(s[..k]), s[k])] + Tokens(s[k + 1..]).value)
  {
    hide Number, DigitRun, IsCode;
    var k := DigitRun(s);
    assert s != "" && k != |s|;
    var rest := Tokens(s[k + 1..]);
    assert rest.Some?;
  }

  lemma TokensOfEmit(count: nat, c: char, rest: string)
    requires count >= 1 && IsCode(c) && Tokens(rest).Some?
    ensures Tokens(Emit(count, c) + rest) == Some([Token(count, c)] + Tokens(rest).value)
  {
    if count > 1 {
      NumberOfDecimal(count);
      TokensOfCounted(Decimal(count), c, rest);
    } else {
      TokensOfCounted("", c, rest);
      assert "" + [c] + rest == Emit(count, c) + rest;
    }
  }

  /** `fmt` is a format that stands for exactly these codes. */
  predicate Means(fmt: string, codes: string) {
    Tokens(fmt).Some? && NoZeroCount(Tokens(fmt).value) && Codes(Tokens(fmt).value) == codes
  }

  predicate NoZeroCount(ts: seq<Token>) {
    forall i :: 0 <= i < |ts| ==> ts[i].count >= 1
  }

  lemma MeansEmit(count: nat, c: char, rest: string, codes: string)
    requires count >= 1 && IsCode(c) && Means(rest, codes)
    ensures Means(Emit(count, c) + rest, Repeat(c, count) + codes)
  {
    TokensOfEmit(count, c, rest);
    var ts := [Token(count, c)] + Tokens(rest).value;
    assert ts[1..] == Tokens(rest).value;
  }

  lemma MeansEmitAlone(count: nat, c: char)
    requires count >= 1 && IsCode(c)
    ensures Means(Emit(count, c), Repeat(c, count))
  {
    MeansEmit(count, c, "", "");
    assert Emit(count, c) + "" == Emit(count, c);
    assert Repeat(c, count) + "" == Repeat(c, count);
  }

  lemma {:induction false} ReduceFromExpands(prev: char, count: nat, rest: string)
    requires count >= 1 && IsCode(prev) && AllCodes(rest)
    ensures Means(ReduceFrom(prev, count, rest), Repeat(prev, count) + rest)
    decreases |rest|
  {
    if rest == "" {
      MeansEmitAlone(count, prev);
      assert Repeat(prev, count) + rest == Repeat(prev, count);
    } else if rest[0] == prev {
      ReduceFromExpands(prev, count + 1, rest[1..]);
      assert Repeat(prev, count + 1) + rest[1..] == Repeat(prev, count) + rest;
    } else {
      ReduceFromExpands(rest[0], 1, rest[1..]);
      assert Repeat(rest[0], 1) + rest[1..] == rest;
      MeansEmit(count, prev, ReduceFrom(rest[0], 1, rest[1..]), rest);
    }
  }

  /** Compressing a pattern of type codes does not change what `struct` packs. */
  lemma ReduceKeepsLetters(pattern: string)
    requires AllCodes(pattern)
    ensures Means(Reduce(pattern), pattern)
  {
    if pattern == "" {
    } else if |pattern| == 1 {
      MeansEmitAlone(1, pattern[0]);
      assert Repeat(pattern[0], 1) == pattern;
    } else {
      ReduceFromExpands(pattern[0], 1, pattern[1..]);
      assert Repeat(pattern[0], 1) + pattern[1..] == pattern;
    }
  }

  /* ---- fixed array lengths: exactly when the compression is harmless ---- */

  /** Two adjacent nines: the one digit the membership test forgets. */
  predicate NinePairAt(s: string, i: int) {
    0 <= i < |s| - 1 && s[i] == '9' && s[i + 1] == '9'
  }

  predicate HasDoubleNine(s: string) {
    exists i | 0 <= i < |s| :: NinePairAt(s, i)
  }

  /** What the compression makes of a digit string. */
  function SquashNines(s: string): string {
    if s == "" then "" else ReduceFrom(s[0], 1, s[1..])
  }

  lemma {:induction false} ReduceFromDigits(prev: char, count: nat, rest: string)
    requires count >= 1 && IsDigit(prev) && AllDigits(rest)
    ensures AllDigits(ReduceFrom(prev, count, rest)) && ReduceFrom(prev, count, rest) != ""
    decreases |rest|
  {
    if rest == "" {
    } else if rest[0] == prev && !InNums(prev) {
      ReduceFromDigits(prev, count + 1, rest[1..]);
    } else {
      ReduceFromDigits(rest[0], 1, rest[1..]);
    }
  }

  lemma {:induction false} ReduceFromThenCode(prev: char, count: nat, rest: string, c: char)
    requires count >= 1 && IsDigit(prev) && AllDigits(rest) && IsCode(c)
    ensures ReduceFrom(prev, count, rest + [c]) == ReduceFrom(prev, count, rest) + [c]
    decreases |rest|
  {
    var s := rest + [c];
    if rest == "" {
      assert s[1..] == "";
      assert ReduceFrom(c, 1, "") == [c];
    } else {
      assert s[0] == rest[0] && s[1..] == rest[1..] + [c];
      if rest[0] == prev && !InNums(prev) {
        ReduceFromThenCode(prev, count + 1, rest[1..], c);
      } else {
        ReduceFromThenCode(rest[0], 1, rest[1..], c);
        assert Emit(count, prev) + (ReduceFrom(rest[0], 1, rest[1..]) + [c])
            == Emit(count, prev) + ReduceFrom(rest[0], 1, rest[1..]) + [c];
      }
    }
  }

  /** A run of k nines. */
  lemma {:induction false} NinesNumber(k: nat)
    ensures Number(Repeat('9', k)) == Pow10(k) - 1
  {
    if k > 0 {
      assert Repeat('9', k)[..k - 1] == Repeat('9', k - 1);
      NinesNumber(k - 1);
    }
  }

  lemma {:induction false} CountSmallerThanNines(k: nat)
    requires k >= 2
    ensures 10 * k + 9 < Pow10(k) - 1
  {
    if k == 2 {
      assert Pow10(2) == 10 * Pow10(1) == 100;
    } else {
      CountSmallerThanNines(k - 1);
    }
  }

  lemma {:induction false} DecimalShorter(n: nat, k: nat)
    requires n < Pow10(k) && k >= 1
    ensures |Decimal(n)| <= k
  {
    if n >= 10 {
      DecimalShorter(n / 10, k - 1);
    }
  }

  /** Length and value of what `count` pending copies of a digit turn into. */
  lemma EmitDigits(count: nat, d: char)
    requires count >= 1 && IsDigit(d) && (count > 1 ==> d == '9')
    ensures AllDigits(Emit(count, d)) && AllDigits(Repeat(d, count))
    ensures |Emit(count, d)| <= count
    ensures count == 1 ==> Emit(count, d) == Repeat(d, count)
    ensures count > 1 ==> Number(Emit(count, d)) < Number(Repeat(d, count))
  {
    if count > 1 {
      assert Emit(count, d)[..|Decimal(count)|] == Decimal(count);
      NumberOfDecimal(count);
      NinesNumber(count);
      CountSmallerThanNines(count);
      assert count < Pow10(count - 1);
      DecimalShorter(count, count - 1);
    }
  }

  lemma ProductOrder(a: nat, b: nat, p: nat, q: nat)
    requires a <= b && 1 <= p <= q
    ensures a * p <= b * q
    ensures a < b ==> a * p + q <= b * q
  {
    assert a * p <= a * q;
    assert a * q <= b * q;
    if a < b {
      assert (a + 1) * q <= b * q;
    }
  }

  /** Prepending a pending run to a squashed rest. */
  lemma SquashStep(emitted: string, run: string, squashed: string, rest: string)
    requires AllDigits(emitted) && AllDigits(run) && AllDigits(squashed) && AllDigits(rest)
    requires |emitted| <= |run| && |squashed| <= |rest|
    requires Number(emitted) <= Number(run) && Number(squashed) <= Number(rest)
    ensures AllDigits(emitted + squashed) && AllDigits(run + rest)
    ensures |emitted + squashed| <= |run + rest|
    ensures Number(emitted + squashed) <= Number(run + rest)
    ensures Number(emitted) < Number(run) || Number(squashed) < Number(rest)
        ==> Number(emitted + squashed) < Number(run + rest)
  {
    NumberConcat(run, rest);
    NumberConcat(emitted, squashed);
    NumberBound(squashed);
    Pow10Monotone(|squashed|, |rest|);
    ProductOrder(Number(emitted), Number(run), Pow10(|squashed|), Pow10(|rest|));
  }

  /** Where a pair of nines can lie in a run followed by a different character. */
  lemma DoubleNineSplit(prev: char, count: nat, rest: string)
    requires count >= 1 && rest != "" && !(prev == '9' && rest[0] == '9')
    ensures count == 1 ==> (HasDoubleNine(Repeat(prev, count) + rest) <==> HasDoubleNine(rest))
  {
    var s := Repeat(prev, count) + rest;
    if count == 1 && HasDoubleNine(s) {
      var i :| 0 <= i < |s| && NinePairAt(s, i);
      assert i > 0;
      assert NinePairAt(rest, i - 1);
    }
    if count == 1 && HasDoubleNine(rest) {
      var i :| 0 <= i < |rest| && NinePairAt(rest, i);
      assert NinePairAt(s, i + 1);
    }
  }

  /** The squashed form r of s is never a larger number, and is smaller exactly when `hit`. */
  predicate Squashed(r: string, s: string, hit: bool) {
    && AllDigits(s) && AllDigits(r) && |r| <= |s|
    && (if hit then Number(r) < Number(s) else r == s)
  }

  /** The compression never raises a number, and lowers it exactly when two nines meet. */
  lemma {:induction false} SquashLowers(prev: char, count: nat, rest: string)
    requires count >= 1 && IsDigit(prev) && AllDigits(rest) && (count > 1 ==> prev == '9')
    ensures Squashed(ReduceFrom(prev, count, rest), Repeat(prev, count) + rest,
                     count > 1 || HasDoubleNine(Repeat(prev, count) + rest))
    decreases |rest|
  {
    hide Number, Emit, Decimal;
    var s := Repeat(prev, count) + rest;
    EmitDigits(count, prev);
    if rest == "" {
      assert s == Repeat(prev, count);
      assert count == 1 ==> |s| == 1 && !HasDoubleNine(s);
    } else if rest[0] == prev && !InNums(prev) {
      SquashLowers(prev, count + 1, rest[1..]);
      assert s == Repeat(prev, count + 1) + rest[1..];
      assert NinePairAt(s, count - 1);
    } else {
      SquashLowers(rest[0], 1, rest[1..]);
      assert Repeat(rest[0], 1) + rest[1..] == rest;
      SquashStep(Emit(count, prev), Repeat(prev, count), ReduceFrom(rest[0], 1, rest[1..]), rest);
      DoubleNineSplit(prev, count, rest);
    }
  }

  /** A counted pattern such as "66h" or "99s". */
  function Counted(n: nat, c: char): string {
    Decimal(n) + [c]
  }

  lemma CountedHasNoPercent(n: nat, c: char)
    requires IsCode(c)
    ensures '%' !in Counted(n, c)
  {
    var p := Counted(n, c);
    forall i | 0 <= i < |p|
      ensures p[i] != '%'
    {
      assert i < |Decimal(n)| ==> IsDigit(Decimal(n)[i]);
    }
  }

  /** The count that survives the compression. */
  function KeptCount(n: nat): (k: nat)
    ensures k <= n
    ensures k == n <==> !HasDoubleNine(Decimal(n))
  {
    var d := Decimal(n);
    NumberOfDecimal(n);
    SquashLowers(d[0], 1, d[1..]);
    assert Repeat(d[0], 1) + d[1..] == d;
    Number(SquashNines(d))
  }

  lemma ReduceCounted(n: nat, c: char)
    requires IsCode(c)
    ensures Tokens(Reduce(Counted(n, c))) == Some([Token(KeptCount(n), c)])
  {
    var d := Decimal(n);
    var p := Counted(n, c);
    var q := SquashNines(d);
    assert p[0] == d[0] && p[1..] == d[1..] + [c];
    CountedHasNoPercent(n, c);
    ReduceFromThenCode(d[0], 1, d[1..], c);
    ReduceFromDigits(d[0], 1, d[1..]);
    TokensOfCounted(q, c, "");
    assert q + [c] + "" == Reduce(p);
    assert [Token(KeptCount(n), c)] + [] == [Token(KeptCount(n), c)];
  }

  /**
   The compressed pattern of a fixed-length array still means n elements exactly when the
   decimal text of n has no two adjacent nines; otherwise it means fewer.
   */
  lemma ReduceKeepsCountIff(n: nat, c: char)
    requires IsCode(c)
    ensures Tokens(Reduce(Counted(n, c))) == Some([Token(n, c)]) <==> !HasDoubleNine(Decimal(n))
  {
    ReduceCounted(n, c);
  }

  /** The smallest length that goes wrong: 99 elements become 29. */
  lemma NinetyNineBecomesTwentyNine()
    ensures KeptCount(99) == 29
  {
    assert Decimal(9) == "9" && Decimal(99) == "99" && Decimal(2) == "2";
    assert "99"[1..] == "9" && "9"[1..] == "";
    assert SquashNines("99") == ReduceFrom('9', 2, "") == "29";
    assert "29"[..1] == "2" && "2"[..0] == "";
    assert Number("2") == 2;
  }
}
