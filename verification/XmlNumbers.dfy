/** The number and date formats inside XML-RPC values: printf on one side, strtol and sscanf on the other. */
module XmlNumbers {
  import opened Common
  import opened DecimalText
  import opened TextSearch
  import opened XmlText

  const INT32_MIN: int := -0x8000_0000
  const INT32_MAX: int := 0x7FFF_FFFF
  const LONG_MIN: int := -0x8000_0000_0000_0000
  const LONG_MAX: int := 0x7FFF_FFFF_FFFF_FFFF

  /** `%d` */
  function PrintInt(n: int): string {
    if n < 0 then "-" + Decimal(-n) else Decimal(n)
  }

  /** The end of the run of digits from i, looking at no more than `width` characters. */
  function DigitsEnd(s: string, i: nat, width: nat): (j: nat)
    requires i <= |s|
    ensures i <= j <= |s| && j <= i + width && AllDigits(s[i..j])
    ensures j < |s| && j < i + width ==> !IsDigit(s[j])
    decreases width
  {
    if i < |s| && width > 0 && IsDigit(s[i]) then
      var j := DigitsEnd(s, i + 1, width - 1);
      assert s[i..j] == [s[i]] + s[i + 1..j];
      j
    else i
  }

  /** A number read by the C library: its value, and where it ends. */
  datatype Scan = NoNumber | Scanned(n: int, end: nat)

  /** White space, an optional sign, digits; the sign counts towards the width. */
  function ScanInt(s: string, off: nat, width: nat): (r: Scan)
    requires off <= |s|
    ensures r.Scanned? ==> off < r.end <= |s|
  {
    var i := SkipSpaces(s, off);
    var signed := i < |s| && width > 0 && (s[i] == '-' || s[i] == '+');
    var d := if signed then i + 1 else i;
    var j := DigitsEnd(s, d, if signed then width - 1 else width);
    if j == d then NoNumber
    else
      var n: int := Number(s[d..j]);
      Scanned(if signed && s[i] == '-' then -n else n, j)
  }

  function Saturate(n: int): (r: int)
    ensures LONG_MIN <= r <= LONG_MAX
  {
    if n < LONG_MIN then LONG_MIN else if n > LONG_MAX then LONG_MAX else n
  }

  /** strtol in base 10. */
  function Strtol(s: string, off: nat): (r: Scan)
    requires off <= |s|
    ensures r.Scanned? ==> off < r.end <= |s| && LONG_MIN <= r.n <= LONG_MAX
  {
    var r := ScanInt(s, off, |s| - off + 1);
    if r.NoNumber? then NoNumber else Scanned(Saturate(r.n), r.end)
  }

  /** The conversion from long to int keeps the low 32 bits. */
  function ToInt32(n: int): (r: int)
    ensures INT32_MIN <= r <= INT32_MAX
  {
    (n - INT32_MIN) % 0x1_0000_0000 + INT32_MIN
  }

  /* ---- reading what was printed ---- */

  lemma {:induction false} DigitsEndIs(s: string, i: nat, width: nat, d: string)
    requires At(s, i, d) && AllDigits(d) && |d| <= width
    requires |d| == width || i + |d| == |s| || !IsDigit(s[i + |d|])
    ensures DigitsEnd(s, i, width) == i + |d|
    decreases d
  {
    if d != "" {
      AtChar(s, i, d, 0);
      AtSplit(s, i, [d[0]], d[1..]);
      assert d == [d[0]] + d[1..];
      DigitsEndIs(s, i + 1, width - 1, d[1..]);
    }
  }

  lemma NotSpace(c: char)
    requires IsDigit(c) || c == '-'
    ensures !IsSpace(c)
  {
  }

  /** Scanning an unsigned number that fills its width or is followed by something else. */
  lemma ScanNat(s: string, i: nat, width: nat, d: string)
    requires At(s, i, d) && d != "" && AllDigits(d) && |d| <= width
    requires |d| == width || i + |d| == |s| || !IsDigit(s[i + |d|])
    ensures ScanInt(s, i, width) == Scanned(Number(d), i + |d|)
  {
    hide SkipSpaces, DigitsEnd, Number;
    AtChar(s, i, d, 0);
    NotSpace(s[i]);
    SkipNone(s, i);
    assert s[i] != '-' && s[i] != '+';
    DigitsEndIs(s, i, width, d);
    assert s[i..i + |d|] == d;
  }

  lemma ScanNegative(s: string, i: nat, width: nat, d: string)
    requires i < |s| && s[i] == '-' && At(s, i + 1, d) && d != "" && AllDigits(d) && |d| < width
    requires |d| + 1 == width || i + 1 + |d| == |s| || !IsDigit(s[i + 1 + |d|])
    ensures ScanInt(s, i, width) == Scanned(0 - Number(d), i + 1 + |d|)
  {
    hide SkipSpaces, DigitsEnd, Number, At, AllDigits, IsSpace, ScanInt;
    NotSpace(s[i]);
    SkipNone(s, i);
    AtSlice(s, i + 1, d);
    DigitsEndIs(s, i + 1, width - 1, d);
    ScanSigned(s, i, width, i + 1 + |d|);
  }

  lemma ScanSigned(s: string, i: nat, width: nat, j: nat)
    requires i < |s| && SkipSpaces(s, i) == i && s[i] == '-' && width > 0
    requires i + 1 < j == DigitsEnd(s, i + 1, width - 1)
    ensures ScanInt(s, i, width) == Scanned(0 - Number(s[i + 1..j]), j)
  {
    hide SkipSpaces, DigitsEnd, Number;
  }

  /** strtol reads a printed 32-bit integer that is followed by a tag. */
  lemma StrtolPrinted(s: string, i: nat, n: int)
    requires INT32_MIN <= n <= INT32_MAX && At(s, i, PrintInt(n))
    requires i + |PrintInt(n)| < |s| && s[i + |PrintInt(n)|] == '<'
    ensures Strtol(s, i) == Scanned(n, i + |PrintInt(n)|)
  {
    hide At, ScanInt, Decimal, Number, Saturate;
    AtSlice(s, i, PrintInt(n));
    SaturateSame(n);
    if n < 0 {
      NegativeText(n);
      AtSplit(s, i, "-", Decimal(-n));
      AtChar(s, i, "-", 0);
      ScanNegative(s, i, |s| - i + 1, Decimal(-n));
    } else {
      NumberOfDecimal(n);
      ScanNat(s, i, |s| - i + 1, Decimal(n));
    }
  }

  lemma SaturateSame(n: int)
    requires INT32_MIN <= n <= INT32_MAX
    ensures Saturate(n) == n
  {
  }

  lemma ToInt32Same(n: int)
    requires INT32_MIN <= n <= INT32_MAX
    ensures ToInt32(n) == n
  {
  }

  /* ---- doubles, kept as their text ---- */

  /** Characters that occur in the C-locale text of a double. */
  predicate IsDoubleChar(c: char) {
    IsDigit(c) || c in {'+', '-', '.', 'e', 'E', 'i', 'n', 'f', 'a'}
  }

  function DoubleEnd(s: string, i: nat): (j: nat)
    requires i <= |s|
    ensures i <= j <= |s|
    decreases |s| - i
  {
    if i < |s| && IsDoubleChar(s[i]) then DoubleEnd(s, i + 1) else i
  }

  predicate IsDoubleText(t: string) {
    t != "" && forall i :: 0 <= i < |t| ==> IsDoubleChar(t[i])
  }

  lemma {:induction false} DoubleEndIs(s: string, i: nat, t: string)
    requires At(s, i, t) && (forall k :: 0 <= k < |t| ==> IsDoubleChar(t[k]))
    requires i + |t| < |s| && s[i + |t|] == '<'
    ensures DoubleEnd(s, i) == i + |t|
    decreases t
  {
    if t != "" {
      AtChar(s, i, t, 0);
      AtSplit(s, i, [t[0]], t[1..]);
      assert t == [t[0]] + t[1..];
      DoubleEndIs(s, i + 1, t[1..]);
    }
  }

  /* ---- date-times ---- */

  datatype Tm = Tm(year: int, mon: int, mday: int, hour: int, min: int, sec: int)

  /** `%4d` */
  function Wide4(n: int): string {
    var t := PrintInt(n);
    if |t| == 1 then "   " + t else if |t| == 2 then "  " + t else if |t| == 3 then " " + t else t
  }

  /** `%02d` */
  function Zero2(n: int): string {
    if 0 <= n < 10 then "0" + Decimal(n) else PrintInt(n)
  }

  /** The date-time text, cut to the 18 characters the buffer holds. */
  function PrintTm(t: Tm): string {
    var s := Wide4(t.year) + Zero2(t.mon) + Zero2(t.mday)
      + "T" + Zero2(t.hour) + ":" + Zero2(t.min) + ":" + Zero2(t.sec);
    if |s| > 18 then s[..18] else s
  }

  datatype TmScan = NoTm | ScannedTm(t: Tm)

  /** A literal character followed by a two-digit number. */
  function ScanAfter(s: string, off: nat, lit: char): (r: Scan)
    requires off <= |s|
    ensures r.Scanned? ==> off < r.end <= |s|
  {
    if off < |s| && s[off] == lit then ScanInt(s, off + 1, 2) else NoNumber
  }

  /** sscanf with "%4d%2d%2dT%2d:%2d:%2d", all six numbers or none. */
  function ScanTm(s: string): TmScan {
    var y := ScanInt(s, 0, 4);
    if y.NoNumber? then NoTm else
    var mo := ScanInt(s, y.end, 2);
    if mo.NoNumber? then NoTm else
    var d := ScanInt(s, mo.end, 2);
    if d.NoNumber? then NoTm else
    var h := ScanAfter(s, d.end, 'T');
    if h.NoNumber? then NoTm else
    var mi := ScanAfter(s, h.end, ':');
    if mi.NoNumber? then NoTm else
    var se := ScanAfter(s, mi.end, ':');
    if se.NoNumber? then NoTm else ScannedTm(Tm(y.n, mo.n, d.n, h.n, mi.n, se.n))
  }

  /** A part of a date-time that fills two characters: one or two digits, or a sign and a digit. */
  predicate ShortPart(n: int) {
    -9 <= n <= 99
  }

  /** Every number fills its field of the format: the text has its 17 characters. */
  predicate FieldsFit(t: Tm) {
    && -999 <= t.year <= 9999 && ShortPart(t.mon) && ShortPart(t.mday)
    && ShortPart(t.hour) && ShortPart(t.min) && ShortPart(t.sec)
  }

  /**
   The date-times that are read back. A year of fewer than four characters is padded with
   blanks, which the scan does not count, so it must be stopped by the sign of the month.
   */
  predicate ReadableTm(t: Tm) {
    FieldsFit(t) && (t.year >= 1000 || t.year <= -100 || t.mon < 0)
  }

  lemma Zero2Digits(n: nat)
    requires n < 100
    ensures |Zero2(n)| == 2 && AllDigits(Zero2(n)) && Number(Zero2(n)) == n
  {
    NumberOfDecimal(n);
    if n < 10 {
      NumberConcat("0", Decimal(n));
      assert "0"[..0] == "";
    } else {
      assert n / 10 < 10;
    }
  }

  lemma NegativeText(n: int)
    requires n < 0
    ensures PrintInt(n) == "-" + Decimal(-n) && AllDigits(Decimal(-n)) && Decimal(-n) != "" && Number(Decimal(-n)) == -n
  {
    hide Decimal, Number;
    NumberOfDecimal(-n);
  }

  lemma Zero2Length(n: int)
    requires ShortPart(n)
    ensures |Zero2(n)| == 2 && (Zero2(n)[0] == '-' <==> n < 0)
    ensures (n >= 0 ==> IsDigit(Zero2(n)[0]) && IsDigit(Zero2(n)[1]))
    ensures n < 0 ==> Zero2(n) == "-" + Decimal(-n) && |Decimal(-n)| == 1
  {
    if n >= 0 {
      Zero2Digits(n);
      assert IsDigit(Zero2(n)[0]) && IsDigit(Zero2(n)[1]);
    }
  }

  lemma ShortDecimal(n: nat)
    ensures n < 10 ==> |Decimal(n)| == 1
    ensures 10 <= n < 100 ==> |Decimal(n)| == 2
    ensures 100 <= n < 1000 ==> |Decimal(n)| == 3
    ensures 1000 <= n < 10000 ==> |Decimal(n)| == 4
  {
    if n >= 10 {
      assert Decimal(n) == Decimal(n / 10) + [DigitChar(n % 10)];
      if n < 10000 {
        ShortDecimal(n / 10);
      }
    }
  }

  /** The text of a year that fits: blanks, then the number. */
  lemma Wide4Length(n: int)
    requires -999 <= n <= 9999
    ensures |Wide4(n)| == 4 && |PrintInt(n)| <= 4 && Wide4(n) == Repeat(' ', 4 - |PrintInt(n)|) + PrintInt(n)
    ensures |PrintInt(n)| == 4 <==> n >= 1000 || n <= -100
  {
    hide Decimal;
    ShortDecimal(if n < 0 then -n else n);
    var t := PrintInt(n);
    Blanks();
  }

  lemma Blanks()
    ensures Repeat(' ', 0) == "" && Repeat(' ', 1) == " " && Repeat(' ', 2) == "  " && Repeat(' ', 3) == "   "
  {
  }

  /** The rest of the text after the year and after the month. */
  function AfterMonth(t: Tm): string {
    Zero2(t.mday) + ("T" + (Zero2(t.hour) + (":" + (Zero2(t.min) + (":" + Zero2(t.sec))))))
  }

  lemma PrintTmParts(t: Tm)
    requires FieldsFit(t)
    ensures PrintTm(t) == Wide4(t.year) + (Zero2(t.mon) + AfterMonth(t))
    ensures |PrintTm(t)| == 17 && |Wide4(t.year)| == 4 && |Zero2(t.mon)| == 2
  {
    hide Wide4, Zero2;
    Wide4Length(t.year);
    Zero2Length(t.mon); Zero2Length(t.mday); Zero2Length(t.hour); Zero2Length(t.min); Zero2Length(t.sec);
  }

  lemma Scan2(s: string, i: nat, n: int)
    requires ShortPart(n) && At(s, i, Zero2(n))
    ensures ScanInt(s, i, 2) == Scanned(n, i + 2)
  {
    hide ScanInt, Decimal, Number, Zero2;
    Zero2Length(n);
    if n >= 0 {
      Zero2Digits(n);
      ScanNat(s, i, 2, Zero2(n));
    } else {
      NegativeText(n);
      AtSplit(s, i, "-", Decimal(-n));
      AtChar(s, i, "-", 0);
      ScanNegative(s, i, 2, Decimal(-n));
    }
  }

  lemma ScanAfter2(s: string, i: nat, lit: char, n: int)
    requires ShortPart(n) && At(s, i, [lit] + Zero2(n))
    ensures ScanAfter(s, i, lit) == Scanned(n, i + 3)
  {
    AtSplit(s, i, [lit], Zero2(n));
    AtChar(s, i, [lit], 0);
    Scan2(s, i + 1, n);
  }

  /** Where the parts of a printed date-time stand. */
  lemma TmAt(t: Tm, s: string)
    requires FieldsFit(t) && s == PrintTm(t)
    ensures |s| == 17 && At(s, 0, Wide4(t.year)) && At(s, 4, Zero2(t.mon)) && At(s, 6, Zero2(t.mday))
    ensures At(s, 8, "T" + Zero2(t.hour)) && At(s, 11, ":" + Zero2(t.min)) && At(s, 14, ":" + Zero2(t.sec))
  {
    hide Wide4, Zero2, At, PrintTm;
    PrintTmParts(t);
    var h, mi, se := "T" + Zero2(t.hour), ":" + Zero2(t.min), ":" + Zero2(t.sec);
    Zero2Length(t.mday); Zero2Length(t.hour); Zero2Length(t.min);
    assert AfterMonth(t) == Zero2(t.mday) + (h + (mi + se));
    AtAll(s);
    AtSplit(s, 0, Wide4(t.year), Zero2(t.mon) + AfterMonth(t));
    AtSplit(s, 4, Zero2(t.mon), AfterMonth(t));
    AtSplit(s, 6, Zero2(t.mday), h + (mi + se));
    AtSplit(s, 8, h, mi + se);
    AtSplit(s, 11, mi, se);
  }

  /** From the month's place on, the parts are read back. */
  lemma ScanRest(t: Tm, s: string)
    requires FieldsFit(t) && s == PrintTm(t)
    ensures |s| == 17 && ScanInt(s, 4, 2) == Scanned(t.mon, 6) && ScanInt(s, 6, 2) == Scanned(t.mday, 8)
    ensures ScanAfter(s, 8, 'T') == Scanned(t.hour, 11) && ScanAfter(s, 11, ':') == Scanned(t.min, 14)
    ensures ScanAfter(s, 14, ':') == Scanned(t.sec, 17)
  {
    hide Wide4, Zero2, At, PrintTm, ScanInt, ScanAfter;
    TmAt(t, s);
    Scan2(s, 4, t.mon);
    Scan2(s, 6, t.mday);
    ScanAfter2(s, 8, 'T', t.hour);
    ScanAfter2(s, 11, ':', t.min);
    ScanAfter2(s, 14, ':', t.sec);
  }

  /* ---- the year ---- */

  /** Leading blanks are skipped without counting. */
  lemma ScanBlanks(s: string, k: nat, width: nat)
    requires k <= |s| && forall i :: 0 <= i < k ==> s[i] == ' '
    ensures ScanInt(s, 0, width) == ScanInt(s, k, width)
  {
    hide DigitsEnd, Number;
    SkipBlanks(s, 0, k);
  }

  lemma {:induction false} SkipBlanks(s: string, i: nat, k: nat)
    requires i <= k <= |s| && forall j :: i <= j < k ==> s[j] == ' '
    ensures SkipSpaces(s, i) == SkipSpaces(s, k)
    decreases k - i
  {
    if i < k {
      SkipBlanks(s, i + 1, k);
    }
  }

  /** Where the number of the year starts. */
  lemma YearAt(t: Tm, s: string)
    requires FieldsFit(t) && s == PrintTm(t)
    ensures |PrintInt(t.year)| <= 4 && At(s, 4 - |PrintInt(t.year)|, PrintInt(t.year)) && |s| == 17
    ensures ScanInt(s, 0, 4) == ScanInt(s, 4 - |PrintInt(t.year)|, 4)
  {
    hide At, PrintTm, PrintInt, ScanInt, Wide4;
    TmAt(t, s);
    Wide4Length(t.year);
    var k := 4 - |PrintInt(t.year)|;
    AtSplit(s, 0, Repeat(' ', k), PrintInt(t.year));
    forall i | 0 <= i < k ensures s[i] == ' ' {
      AtChar(s, 0, Repeat(' ', k), i);
    }
    ScanBlanks(s, k, 4);
  }

  /** The character after the year: a digit, or the sign of the month. */
  lemma MonthStarts(t: Tm, s: string)
    requires FieldsFit(t) && s == PrintTm(t)
    ensures |s| == 17 && (IsDigit(s[4]) <==> t.mon >= 0) && (t.mon >= 0 ==> IsDigit(s[5]))
    ensures (IsDigit(s[6]) <==> t.mday >= 0) && s[8] == 'T'
  {
    hide At, PrintTm, Zero2;
    TmAt(t, s);
    Zero2Length(t.mon);
    Zero2Length(t.mday);
    AtChar(s, 4, Zero2(t.mon), 0);
    AtChar(s, 4, Zero2(t.mon), 1);
    AtChar(s, 6, Zero2(t.mday), 0);
    AtChar(s, 8, "T" + Zero2(t.hour), 0);
  }

  lemma YearRead(t: Tm, s: string)
    requires ReadableTm(t) && s == PrintTm(t)
    ensures ScanInt(s, 0, 4) == Scanned(t.year, 4)
  {
    hide At, PrintTm, ScanInt, Decimal, Number;
    YearAt(t, s);
    MonthStarts(t, s);
    Wide4Length(t.year);
    var text := PrintInt(t.year);
    var i := 4 - |text|;
    if t.year < 0 {
      NegativeText(t.year);
      AtSplit(s, i, "-", Decimal(-t.year));
      AtChar(s, i, "-", 0);
      ScanNegative(s, i, 4, Decimal(-t.year));
    } else {
      NumberOfDecimal(t.year);
      ScanNat(s, i, 4, text);
    }
  }

  /** Scanning a printed date-time gives it back. */
  lemma ScanPrintTm(t: Tm)
    requires ReadableTm(t)
    ensures ScanTm(PrintTm(t)) == ScannedTm(t)
  {
    hide PrintTm, ScanInt, ScanAfter;
    YearRead(t, PrintTm(t));
    ScanRest(t, PrintTm(t));
  }

  /* ---- and no other ---- */

  /** A number read under a width is bounded by it; a sign takes one place. */
  lemma ScanBound(s: string, off: nat, width: nat)
    requires off <= |s| && width > 0
    ensures var r := ScanInt(s, off, width); r.Scanned? ==> 0 < r.n + Pow10(width - 1) && r.n < Pow10(width)
  {
    hide SkipSpaces, Number, Pow10;
    var i := SkipSpaces(s, off);
    var signed := i < |s| && (s[i] == '-' || s[i] == '+');
    var d := if signed then i + 1 else i;
    var w := if signed then width - 1 else width;
    var j := DigitsEnd(s, d, w);
    NumberBound(s[d..j]);
    Pow10Monotone(j - d, w);
    Pow10Monotone(width - 1, width);
  }

  lemma Powers()
    ensures Pow10(1) == 10 && Pow10(2) == 100 && Pow10(3) == 1000 && Pow10(4) == 10000
  {
  }

  lemma ScanAfterBound(s: string, off: nat, lit: char)
    requires off <= |s|
    ensures var r := ScanAfter(s, off, lit); r.Scanned? ==> ShortPart(r.n)
  {
    hide ScanInt;
    if off < |s| && s[off] == lit {
      ScanBound(s, off + 1, 2);
      Powers();
    }
  }

  /** Whatever is scanned fits the fields. */
  lemma ScannedFits(s: string)
    ensures ScanTm(s).ScannedTm? ==> FieldsFit(ScanTm(s).t)
  {
    hide ScanInt, ScanAfter;
    Powers();
    var y := ScanInt(s, 0, 4);
    ScanBound(s, 0, 4);
    if y.Scanned? {
      var mo := ScanInt(s, y.end, 2);
      ScanBound(s, y.end, 2);
      if mo.Scanned? {
        var d := ScanInt(s, mo.end, 2);
        ScanBound(s, mo.end, 2);
        if d.Scanned? {
          TailFits(s, d.end);
        }
      }
    }
  }

  lemma TailFits(s: string, i: nat)
    requires i <= |s|
    ensures var h := ScanAfter(s, i, 'T'); h.Scanned? ==>
      ShortPart(h.n) &&
      var mi := ScanAfter(s, h.end, ':'); mi.Scanned? ==>
      ShortPart(mi.n) &&
      var se := ScanAfter(s, mi.end, ':'); se.Scanned? ==> ShortPart(se.n)
  {
    hide ScanInt, ScanAfter, ShortPart;
    ScanAfterBound(s, i, 'T');
    var h := ScanAfter(s, i, 'T');
    if h.Scanned? {
      ScanAfterBound(s, h.end, ':');
      var mi := ScanAfter(s, h.end, ':');
      if mi.Scanned? {
        ScanAfterBound(s, mi.end, ':');
      }
    }
  }

  lemma {:induction false} DigitsEndReaches(s: string, i: nat, width: nat, d: string)
    requires At(s, i, d) && AllDigits(d) && |d| <= width
    ensures DigitsEnd(s, i, width) >= i + |d|
    decreases d
  {
    if d != "" {
      AtChar(s, i, d, 0);
      AtSplit(s, i, [d[0]], d[1..]);
      assert d == [d[0]] + d[1..];
      DigitsEndReaches(s, i + 1, width - 1, d[1..]);
    }
  }

  /** Digits that run on into the next field make another number, unless they are all zero. */
  lemma LongerNumber(s: string, i: nat, width: nat, d: string)
    requires d != "" && AllDigits(d) && Number(d) > 0 && At(s, i, d) && |d| < width
    requires i + |d| < |s| && IsDigit(s[i + |d|])
    ensures var j := DigitsEnd(s, i, width); j > i + |d| && Number(s[i..j]) > Number(d)
  {
    hide DigitsEnd, Number, At, Pow10, AllDigits;
    var k := i + |d|;
    var c := [s[k]];
    assert AllDigits(d + c) by { OneMoreDigit(d, s[k]); }
    assert s[k..k + 1] == c;
    AtHere(s, k, k + 1);
    AtSplit(s, i, d, c);
    DigitsEndReaches(s, i, width, d + c);
    var j := DigitsEnd(s, i, width);
    AtSlice(s, i, d);
    assert s[i..j] == d + s[k..j];
    assert AllDigits(s[k..j]) by { DigitsPart(s, i, k, j); }
    NumberConcat(d, s[k..j]);
    Pow10Monotone(1, j - k);
    Powers();
    Grows(Number(d), Pow10(j - k));
  }

  lemma OneMoreDigit(d: string, c: char)
    requires AllDigits(d) && IsDigit(c)
    ensures AllDigits(d + [c])
  {
  }

  lemma DigitsPart(s: string, i: nat, k: nat, j: nat)
    requires i <= k <= j <= |s| && AllDigits(s[i..j])
    ensures AllDigits(s[k..j])
  {
    assert s[k..j] == s[i..j][k - i..];
  }

  lemma Grows(n: nat, p: nat)
    requires n > 0 && p >= 10
    ensures n * p > n
  {
  }

  /** A short year runs on into a month without a sign. */
  lemma YearSpills(t: Tm, s: string)
    requires FieldsFit(t) && s == PrintTm(t) && -100 < t.year < 1000 && t.year != 0 && t.mon >= 0
    ensures ScanInt(s, 0, 4).NoNumber? || ScanInt(s, 0, 4).n != t.year
  {
    hide At, PrintTm, Decimal, Number, DigitsEnd, ScanInt;
    YearAt(t, s);
    MonthStarts(t, s);
    Wide4Length(t.year);
    var text := PrintInt(t.year);
    var i := 4 - |text|;
    if t.year > 0 {
      NumberOfDecimal(t.year);
      LongerNumber(s, i, 4, text);
      AtChar(s, i, text, 0);
      NotSpace(s[i]);
      ScanPlain(s, i, 4, DigitsEnd(s, i, 4));
    } else {
      NegativeText(t.year);
      var d := Decimal(-t.year);
      AtSplit(s, i, "-", d);
      AtChar(s, i, "-", 0);
      LongerNumber(s, i + 1, 3, d);
      NotSpace(s[i]);
      SkipNone(s, i);
      ScanSigned(s, i, 4, DigitsEnd(s, i + 1, 3));
    }
  }

  lemma ScanPlain(s: string, i: nat, width: nat, j: nat)
    requires i < |s| && IsDigit(s[i]) && i < j == DigitsEnd(s, i, width)
    ensures ScanInt(s, i, width) == Scanned(Number(s[i..j]), j)
  {
    hide DigitsEnd, Number;
    SkipNone(s, i);
  }

  /** No number starts with a 'T'. */
  lemma NoNumberAtT(s: string, i: nat, width: nat)
    requires i < |s| && s[i] == 'T'
    ensures ScanInt(s, i, width).NoNumber?
  {
    hide Number;
    SkipNone(s, i);
  }

  /** The year 0 takes the month with it, and then a number is missing. */
  lemma YearZero(t: Tm, s: string)
    requires FieldsFit(t) && s == PrintTm(t) && t.year == 0 && t.mon >= 0
    ensures ScanTm(s).NoTm?
  {
    hide At, PrintTm, Number, DigitsEnd, ScanInt, ScanAfter;
    YearAt(t, s);
    MonthStarts(t, s);
    DigitText();
    AtChar(s, 3, "0", 0);
    var d := [s[3], s[4], s[5]];
    assert s[3..6] == d;
    AtHere(s, 3, 6);
    DigitsEndReaches(s, 3, 4, d);
    var e := DigitsEnd(s, 3, 4);
    ScanPlain(s, 3, 4, e);
    ScanRest(t, s);
    NoNumberAtT(s, 8, 2);
    if e == 7 {
      DigitsPart(s, 3, 6, 7);
      assert s[6..7][0] == s[6];
      LastDigit(t, s);
    }
  }

  lemma DigitText()
    ensures PrintInt(0) == "0" && PrintInt(1) == "1"
  {
  }

  /** The second digit of the day, read on its own. */
  lemma LastDigit(t: Tm, s: string)
    requires FieldsFit(t) && s == PrintTm(t) && t.mday >= 0
    ensures |s| == 17 && IsDigit(s[7]) && ScanInt(s, 7, 2) == Scanned(Number([s[7]]), 8)
  {
    hide At, PrintTm, Zero2, ScanInt, Number;
    TmAt(t, s);
    MonthStarts(t, s);
    Zero2Length(t.mday);
    AtChar(s, 6, Zero2(t.mday), 1);
    assert s[7..8] == [s[7]];
    AtHere(s, 7, 8);
    ScanNat(s, 7, 2, [s[7]]);
  }

  /** A date-time is read back exactly when it is readable. */
  lemma ScanPrintTmIff(t: Tm)
    ensures ScanTm(PrintTm(t)) == ScannedTm(t) <==> ReadableTm(t)
  {
    hide PrintTm, ScanInt, ScanAfter;
    var s := PrintTm(t);
    if ReadableTm(t) {
      ScanPrintTm(t);
    } else if FieldsFit(t) {
      if t.year == 0 {
        YearZero(t, s);
      } else {
        YearSpills(t, s);
      }
    } else {
      ScannedFits(s);
    }
  }

  /* ---- years since 1900 ---- */

  /** Two digits, each on its own. */
  lemma Zero2Chars(n: nat)
    requires n < 100
    ensures Zero2(n) == [DigitChar(n / 10), DigitChar(n % 10)]
  {
    if n < 10 {
      assert Decimal(n) == [DigitChar(n)];
    } else {
      assert Decimal(n / 10) == [DigitChar(n / 10)];
    }
  }

  lemma TwoDigits(a: nat, b: nat)
    requires a < 10 && b < 10
    ensures AllDigits([DigitChar(a), DigitChar(b)]) && Number([DigitChar(a), DigitChar(b)]) == 10 * a + b
    ensures AllDigits([DigitChar(a)]) && Number([DigitChar(a)]) == a
  {
    var q, p := [DigitChar(a)], [DigitChar(a), DigitChar(b)];
    assert q[..0] == "" && p[..1] == q;
    assert Number(q) == 10 * Number(q[..0]) + DigitValue(q[0]) == a;
  }

  /**
   What becomes of a date-time whose year has three digits, as every year has that counts from
   1900: each field takes a digit from the next.
   */
  lemma ThreeDigitYear(t: Tm)
    requires FieldsFit(t) && 100 <= t.year && t.year < 1000 && t.mon >= 0 && t.mday >= 0
    ensures ScanTm(PrintTm(t)) == ScannedTm(
      t.(year := 10 * t.year + t.mon / 10, mon := 10 * (t.mon % 10) + t.mday / 10, mday := t.mday % 10))
  {
    hide PrintTm, ScanInt, ScanAfter, Decimal, Number, Zero2;
    var s := PrintTm(t);
    ScanRest(t, s);
    ThreeDigitYearAt(t, s);
    ThreeDigitMonth(t, s);
    LastDigit(t, s);
    Zero2Chars(t.mday);
    TwoDigits(t.mday % 10, 0);
    TmAt(t, s);
    AtChar(s, 6, Zero2(t.mday), 1);
  }

  lemma ThreeDigitYearAt(t: Tm, s: string)
    requires FieldsFit(t) && s == PrintTm(t) && 100 <= t.year && t.year < 1000 && t.mon >= 0
    ensures ScanInt(s, 0, 4) == Scanned(10 * t.year + t.mon / 10, 5)
  {
    hide PrintTm, ScanInt, Decimal, Number, Zero2, At;
    YearAt(t, s);
    TmAt(t, s);
    ShortDecimal(t.year);
    NumberOfDecimal(t.year);
    Zero2Chars(t.mon);
    AtChar(s, 4, Zero2(t.mon), 0);
    var a := t.mon / 10;
    var c := [DigitChar(a)];
    assert s[4..5] == c;
    AtHere(s, 4, 5);
    AtSplit(s, 1, Decimal(t.year), c);
    TwoDigits(a, 0);
    NumberConcat(Decimal(t.year), c);
    Powers();
    ScanNat(s, 1, 4, Decimal(t.year) + c);
  }

  lemma ThreeDigitMonth(t: Tm, s: string)
    requires FieldsFit(t) && s == PrintTm(t) && t.mon >= 0 && t.mday >= 0
    ensures |s| == 17 && ScanInt(s, 5, 2) == Scanned(10 * (t.mon % 10) + t.mday / 10, 7)
  {
    hide PrintTm, ScanInt, Decimal, Number, Zero2, At;
    TmAt(t, s);
    Zero2Chars(t.mon);
    Zero2Chars(t.mday);
    AtChar(s, 4, Zero2(t.mon), 1);
    AtChar(s, 6, Zero2(t.mday), 0);
    var d := [DigitChar(t.mon % 10), DigitChar(t.mday / 10)];
    assert s[5..7] == d;
    AtHere(s, 5, 7);
    TwoDigits(t.mon % 10, t.mday / 10);
    ScanNat(s, 5, 2, d);
  }

  /* ---- no markup in the text ---- */

  predicate NoAngle(s: string) {
    forall i :: 0 <= i < |s| ==> s[i] != '<'
  }

  lemma IntNoAngle(n: int)
    ensures NoAngle(PrintInt(n))
  {
    hide Decimal;
    var d := Decimal(if n < 0 then -n else n);
    assert forall i :: 0 <= i < |d| ==> IsDigit(d[i]);
    assert PrintInt(n) == if n < 0 then "-" + d else d;
  }

  lemma PrintTmNoAngle(t: Tm)
    ensures NoAngle(PrintTm(t))
  {
    hide PrintInt, Decimal;
    IntNoAngle(t.year);
    IntNoAngle(t.mon); IntNoAngle(t.mday); IntNoAngle(t.hour); IntNoAngle(t.min); IntNoAngle(t.sec);
    Zero2NoAngle(t.mon); Zero2NoAngle(t.mday); Zero2NoAngle(t.hour); Zero2NoAngle(t.min); Zero2NoAngle(t.sec);
    assert NoAngle(Wide4(t.year));
    hide Wide4, Zero2;
  }

  lemma Zero2NoAngle(n: int)
    ensures NoAngle(Zero2(n))
  {
    hide Decimal;
    IntNoAngle(n);
    if 0 <= n < 10 {
      assert AllDigits(Decimal(n));
    }
  }
}
