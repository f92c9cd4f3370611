/** HTTP framing by Content-length: the header scan, and why it does not depend on how the bytes arrive. */
module HttpFrame {
  import opened DecimalText
  import opened TextSearch
  import opened XmlText
  import opened XmlNumbers

  const VERSION := "RobotRpc++ 0.7"
  const LENGTH_FIELD := "Content-length: "
  const CONNECTION_FIELD := "Connection: "
  const HEADER_END := "\r\n\r\n"

  /* ---- the scan ---- */

  function Lower(c: char): char {
    if 'A' <= c <= 'Z' then c - 'A' + 'a' else c
  }

  /** strncasecmp finds pat at i. */
  predicate AtNoCase(s: string, i: nat, pat: string) {
    i + |pat| <= |s| && forall k :: 0 <= k < |pat| ==> Lower(s[i + k]) == Lower(pat[k])
  }

  /** The same letter, in the same case or the other one. */
  predicate SameLetter(a: char, b: char) {
    a == b || ('A' <= a <= 'Z' && b == a - 'A' + 'a') || ('a' <= a <= 'z' && b == a - 'a' + 'A')
  }

  predicate SameText(s: string, t: string) {
    |s| == |t| && forall k :: 0 <= k < |s| ==> SameLetter(s[k], t[k])
  }

  lemma SameLetterIff(a: char, b: char)
    ensures Lower(a) == Lower(b) <==> SameLetter(a, b)
  {
  }

  /** A text is found where it stands in any mixture of cases. */
  lemma NoCaseIff(s: string, i: nat, pat: string)
    ensures AtNoCase(s, i, pat) <==> i + |pat| <= |s| && SameText(s[i..i + |pat|], pat)
  {
    hide Lower, SameLetter;
    if i + |pat| <= |s| {
      forall k | 0 <= k < |pat| ensures Lower(s[i + k]) == Lower(pat[k]) <==> SameLetter(s[i..i + |pat|][k], pat[k]) {
        SameLetterIff(s[i + k], pat[k]);
      }
      if SameText(s[i..i + |pat|], pat) {
        forall k | 0 <= k < |pat| ensures Lower(s[i + k]) == Lower(pat[k]) {
          assert SameLetter(s[i..i + |pat|][k], pat[k]);
        }
      }
    }
  }

  /** Each test of the loop wants at least one character beyond what it matches. */
  predicate LengthAt(h: string, i: nat) {
    i + 16 < |h| && AtNoCase(h, i, LENGTH_FIELD)
  }

  predicate ConnectionAt(h: string, i: nat) {
    i + 12 < |h| && AtNoCase(h, i, CONNECTION_FIELD)
  }

  predicate LongEndAt(h: string, i: nat) {
    i + 4 < |h| && At(h, i, HEADER_END)
  }

  predicate ShortEndAt(h: string, i: nat) {
    i + 2 < |h| && At(h, i, "\n\n")
  }

  /** Where the body, the length and the connection option start. */
  datatype Marks = Marks(bp: Index, lp: Index, kp: Index)

  function ScanFrom(h: string, cp: nat, lp: Index, kp: Index): (m: Marks)
    ensures m.bp.Pos? ==> cp < m.bp.i < |h|
    decreases |h| - cp
  {
    if cp >= |h| then Marks(Npos, lp, kp)
    else if LengthAt(h, cp) then ScanFrom(h, cp + 1, Pos(cp + 16), kp)
    else if ConnectionAt(h, cp) then ScanFrom(h, cp + 1, lp, Pos(cp + 12))
    else if LongEndAt(h, cp) then Marks(Pos(cp + 4), lp, kp)
    else if ShortEndAt(h, cp) then Marks(Pos(cp + 2), lp, kp)
    else ScanFrom(h, cp + 1, lp, kp)
  }

  function MarksOf(h: string): (m: Marks)
    ensures m.bp.Pos? ==> 0 < m.bp.i < |h|
  {
    ScanFrom(h, 0, Npos, Npos)
  }

  lemma {:induction false} ScanInside(h: string, cp: nat, lp: Index, kp: Index)
    requires (lp.Pos? ==> lp.i < |h|) && (kp.Pos? ==> kp.i < |h|)
    ensures var m := ScanFrom(h, cp, lp, kp); (m.lp.Pos? ==> m.lp.i < |h|) && (m.kp.Pos? ==> m.kp.i < |h|)
    decreases |h| - cp
  {
    hide AtNoCase, LongEndAt, ShortEndAt;
    if cp < |h| {
      if LengthAt(h, cp) {
        ScanInside(h, cp + 1, Pos(cp + 16), kp);
      } else if ConnectionAt(h, cp) {
        ScanInside(h, cp + 1, lp, Pos(cp + 12));
      } else {
        ScanInside(h, cp + 1, lp, kp);
      }
    }
  }

  /** The server's pointer loop. */
  method ScanHeader(h: string) returns (bp: Index, lp: Index, kp: Index)
    ensures Marks(bp, lp, kp) == MarksOf(h)
  {
    hide LengthAt, ConnectionAt, LongEndAt, ShortEndAt;
    bp, lp, kp := Npos, Npos, Npos;
    var cp := 0;
    while bp.Npos? && cp < |h|
      invariant bp.Npos? ==> ScanFrom(h, cp, lp, kp) == MarksOf(h)
      invariant bp.Pos? ==> Marks(bp, lp, kp) == MarksOf(h)
      decreases |h| - cp
    {
      if LengthAt(h, cp) {
        lp := Pos(cp + 16);
      } else if ConnectionAt(h, cp) {
        kp := Pos(cp + 12);
      } else if LongEndAt(h, cp) {
        bp := Pos(cp + 4);
      } else if ShortEndAt(h, cp) {
        bp := Pos(cp + 2);
      }
      cp := cp + 1;
    }
  }

  /** The client's loop does not look for the connection option. */
  method ScanClientHeader(h: string) returns (bp: Index, lp: Index)
    ensures bp == MarksOf(h).bp && lp == MarksOf(h).lp
  {
    hide LengthAt, ConnectionAt, LongEndAt, ShortEndAt;
    bp, lp := Npos, Npos;
    ghost var kp := Npos;
    var cp := 0;
    while bp.Npos? && cp < |h|
      invariant bp.Npos? ==> ScanFrom(h, cp, lp, kp) == MarksOf(h)
      invariant bp.Pos? ==> Marks(bp, lp, kp) == MarksOf(h)
      decreases |h| - cp
    {
      ConnectionIsNoEnd(h, cp);
      if LengthAt(h, cp) {
        lp := Pos(cp + 16);
      } else if LongEndAt(h, cp) {
        bp := Pos(cp + 4);
      } else if ShortEndAt(h, cp) {
        bp := Pos(cp + 2);
      } else if ConnectionAt(h, cp) {
        kp := Pos(cp + 12);
      }
      cp := cp + 1;
    }
  }

  /* ---- no field name contains a line end ---- */

  predicate IsLineEnd(c: char) {
    c == '\r' || c == '\n'
  }

  lemma LowerLineEnd(c: char)
    ensures IsLineEnd(c) <==> IsLineEnd(Lower(c))
  {
  }

  lemma FieldHasNoLineEnd(h: string, i: nat, field: string)
    requires AtNoCase(h, i, field) && forall k :: 0 <= k < |field| ==> !IsLineEnd(Lower(field[k]))
    ensures forall k :: i <= k < i + |field| ==> !IsLineEnd(h[k])
  {
    hide IsLineEnd, Lower;
    forall k | i <= k < i + |field| ensures !IsLineEnd(h[k]) {
      assert Lower(h[i + (k - i)]) == Lower(field[k - i]);
      LowerLineEnd(h[k]);
    }
  }

  lemma LengthHasNoLineEnd(h: string, i: nat)
    requires LengthAt(h, i)
    ensures forall k :: i <= k < i + 16 ==> !IsLineEnd(h[k])
  {
    FieldHasNoLineEnd(h, i, LENGTH_FIELD);
  }

  lemma ConnectionHasNoLineEnd(h: string, i: nat)
    requires ConnectionAt(h, i)
    ensures forall k :: i <= k < i + 12 ==> !IsLineEnd(h[k])
  {
    FieldHasNoLineEnd(h, i, CONNECTION_FIELD);
  }

  lemma EndIsLineEnd(h: string, i: nat)
    requires LongEndAt(h, i) || ShortEndAt(h, i)
    ensures IsLineEnd(h[i])
  {
    if LongEndAt(h, i) {
      AtChar(h, i, HEADER_END, 0);
    } else {
      AtChar(h, i, "\n\n", 0);
    }
  }

  lemma ConnectionIsNoEnd(h: string, i: nat)
    ensures ConnectionAt(h, i) ==> !LongEndAt(h, i) && !ShortEndAt(h, i)
    ensures LengthAt(h, i) ==> !LongEndAt(h, i) && !ShortEndAt(h, i)
  {
    hide ConnectionAt, LengthAt, LongEndAt, ShortEndAt, IsLineEnd;
    if LongEndAt(h, i) || ShortEndAt(h, i) {
      EndIsLineEnd(h, i);
      if ConnectionAt(h, i) {
        ConnectionHasNoLineEnd(h, i);
      } else if LengthAt(h, i) {
        LengthHasNoLineEnd(h, i);
      }
    }
  }

  /** The body starts after a line end, so beyond any stretch without one. */
  lemma {:induction false} BodyBeyond(h: string, cp: nat, lp: Index, kp: Index, q: nat)
    requires ScanFrom(h, cp, lp, kp).bp.Pos? && q <= |h| && forall k :: cp <= k < q ==> !IsLineEnd(h[k])
    ensures ScanFrom(h, cp, lp, kp).bp.i > q
    decreases |h| - cp
  {
    hide LengthAt, ConnectionAt, LongEndAt, ShortEndAt, IsLineEnd;
    if LengthAt(h, cp) {
      BodyBeyond(h, cp + 1, Pos(cp + 16), kp, q);
    } else if ConnectionAt(h, cp) {
      BodyBeyond(h, cp + 1, lp, Pos(cp + 12), q);
    } else if LongEndAt(h, cp) || ShortEndAt(h, cp) {
      EndIsLineEnd(h, cp);
    } else {
      BodyBeyond(h, cp + 1, lp, kp, q);
    }
  }

  /** What stands just before the body. */
  lemma {:induction false} BeforeBody(h: string, cp: nat, lp: Index, kp: Index)
    requires ScanFrom(h, cp, lp, kp).bp.Pos?
    ensures h[ScanFrom(h, cp, lp, kp).bp.i - 1] == '\n'
    decreases |h| - cp
  {
    hide LengthAt, ConnectionAt;
    if LengthAt(h, cp) {
      BeforeBody(h, cp + 1, Pos(cp + 16), kp);
    } else if ConnectionAt(h, cp) {
      BeforeBody(h, cp + 1, lp, Pos(cp + 12));
    } else if LongEndAt(h, cp) {
      AtChar(h, cp, HEADER_END, 3);
    } else if ShortEndAt(h, cp) {
      AtChar(h, cp, "\n\n", 1);
    } else {
      BeforeBody(h, cp + 1, lp, kp);
    }
  }

  /* ---- prefixes ---- */

  lemma AtPrefix(m: string, n: nat, i: nat, pat: string)
    requires n <= |m|
    ensures At(m[..n], i, pat) <==> i + |pat| <= n && At(m, i, pat)
  {
    if i + |pat| <= n {
      assert m[..n][i..i + |pat|] == m[i..i + |pat|];
    }
  }

  lemma EndPrefix(m: string, n: nat, i: nat)
    requires n <= |m|
    ensures LongEndAt(m[..n], i) <==> i + 4 < n && LongEndAt(m, i)
    ensures ShortEndAt(m[..n], i) <==> i + 2 < n && ShortEndAt(m, i)
  {
    hide At;
    AtPrefix(m, n, i, HEADER_END);
    AtPrefix(m, n, i, "\n\n");
  }

  lemma FieldPrefix(m: string, n: nat, i: nat)
    requires n <= |m|
    ensures LengthAt(m[..n], i) <==> i + 16 < n && LengthAt(m, i)
    ensures ConnectionAt(m[..n], i) <==> i + 12 < n && ConnectionAt(m, i)
  {
    hide Lower;
    AtNoCasePrefix(m, n, i, LENGTH_FIELD);
    AtNoCasePrefix(m, n, i, CONNECTION_FIELD);
  }

  lemma AtNoCasePrefix(m: string, n: nat, i: nat, pat: string)
    requires n <= |m|
    ensures AtNoCase(m[..n], i, pat) <==> i + |pat| <= n && AtNoCase(m, i, pat)
  {
    hide Lower;
    if i + |pat| <= n {
      var p := m[..n];
      assert forall j :: 0 <= j < n ==> p[j] == m[j];
    }
  }

  /** As long as no body byte has come, the scan of what has come finds no end of the header. */
  lemma {:induction false} ScanShort(m: string, n: nat, cp: nat, lp: Index, kp: Index, lp': Index, kp': Index)
    requires n <= |m| && ScanFrom(m, cp, lp, kp).bp.Pos? && n <= ScanFrom(m, cp, lp, kp).bp.i
    ensures ScanFrom(m[..n], cp, lp', kp').bp.Npos?
    decreases |m| - cp
  {
    hide LengthAt, ConnectionAt, LongEndAt, ShortEndAt;
    EndPrefix(m, n, cp);
    FieldPrefix(m, n, cp);
    ConnectionIsNoEnd(m, cp);
    if LengthAt(m, cp) {
      ScanShort(m, n, cp + 1, Pos(cp + 16), kp, lp', kp');
      ScanShort(m, n, cp + 1, Pos(cp + 16), kp, Pos(cp + 16), kp');
      ScanShort(m, n, cp + 1, Pos(cp + 16), kp, lp', Pos(cp + 12));
    } else if ConnectionAt(m, cp) {
      ScanShort(m, n, cp + 1, lp, Pos(cp + 12), lp', kp');
      ScanShort(m, n, cp + 1, lp, Pos(cp + 12), lp', Pos(cp + 12));
    } else if LongEndAt(m, cp) || ShortEndAt(m, cp) {
      NoEndInRest(m, n, cp, lp', kp');
    } else {
      ScanShort(m, n, cp + 1, lp, kp, lp', kp');
    }
  }

  /** The last few characters of a header hold no shorter header end. */
  lemma NoEndInRest(m: string, n: nat, e: nat, lp: Index, kp: Index)
    requires n <= |m| && e < |m|
    requires (LongEndAt(m, e) && n <= e + 4) || (ShortEndAt(m, e) && n <= e + 2)
    ensures ScanFrom(m[..n], e, lp, kp).bp.Npos?
  {
    hide LengthAt, ConnectionAt, LongEndAt, ShortEndAt;
    forall k | e <= k < n ensures !LongEndAt(m[..n], k) && !ShortEndAt(m[..n], k) {
      EndPrefix(m, n, k);
      NoShorterEnd(m, n, e, k);
    }
    NoEndFound(m[..n], e, lp, kp);
  }

  lemma NoShorterEnd(m: string, n: nat, e: nat, k: nat)
    requires n <= |m| && e <= k < n
    requires (LongEndAt(m, e) && n <= e + 4) || (ShortEndAt(m, e) && n <= e + 2)
    ensures !(k + 4 < n && LongEndAt(m, k)) && !(k + 2 < n && ShortEndAt(m, k))
  {
    if LongEndAt(m, e) && k <= e + 1 {
      AtChar(m, e, HEADER_END, 0);
      AtChar(m, e, HEADER_END, 2);
      AtMismatch(m, k, "\n\n", if k == e then 0 else 1);
    }
  }

  lemma {:induction false} NoEndFound(h: string, cp: nat, lp: Index, kp: Index)
    requires forall k :: cp <= k < |h| ==> !LongEndAt(h, k) && !ShortEndAt(h, k)
    ensures ScanFrom(h, cp, lp, kp).bp.Npos?
    decreases |h| - cp
  {
    hide LengthAt, ConnectionAt, LongEndAt, ShortEndAt;
    if cp < |h| {
      NoEndFound(h, cp + 1, lp, kp);
      NoEndFound(h, cp + 1, Pos(cp + 16), kp);
      NoEndFound(h, cp + 1, lp, Pos(cp + 12));
    }
  }

  /** As soon as one body byte has come, the scan finds what it would find in the whole message. */
  lemma {:induction false} ScanLong(m: string, n: nat, cp: nat, lp: Index, kp: Index)
    requires n <= |m| && ScanFrom(m, cp, lp, kp).bp.Pos? && ScanFrom(m, cp, lp, kp).bp.i < n
    ensures ScanFrom(m[..n], cp, lp, kp) == ScanFrom(m, cp, lp, kp)
    decreases |m| - cp
  {
    hide LengthAt, ConnectionAt, LongEndAt, ShortEndAt;
    EndPrefix(m, n, cp);
    FieldPrefix(m, n, cp);
    if LengthAt(m, cp) {
      LengthHasNoLineEnd(m, cp);
      InText(m, cp);
      BodyBeyond(m, cp + 1, Pos(cp + 16), kp, cp + 16);
      ScanLong(m, n, cp + 1, Pos(cp + 16), kp);
    } else if ConnectionAt(m, cp) {
      ConnectionHasNoLineEnd(m, cp);
      InText(m, cp);
      BodyBeyond(m, cp + 1, lp, Pos(cp + 12), cp + 12);
      ScanLong(m, n, cp + 1, lp, Pos(cp + 12));
    } else if LongEndAt(m, cp) || ShortEndAt(m, cp) {
    } else {
      ScanLong(m, n, cp + 1, lp, kp);
    }
  }

  lemma InText(m: string, i: nat)
    ensures LengthAt(m, i) ==> i + 16 < |m|
    ensures ConnectionAt(m, i) ==> i + 12 < |m|
  {
  }

  /* ---- the content length ---- */

  /** strtol without an end pointer: no number reads as 0. */
  function LongAt(h: string, i: nat): (n: int)
    requires i <= |h|
    ensures LONG_MIN <= n <= LONG_MAX
  {
    var r := Strtol(h, i);
    if r.NoNumber? then 0 else r.n
  }

  /** A message with its body at b and a content length of len, written with digits right after the field name. */
  predicate Framed(m: string, b: nat, len: nat) {
    var s := MarksOf(m);
    s.bp == Pos(b) && s.lp.Pos? && s.lp.i < b <= |m| && IsDigit(m[s.lp.i]) && LongAt(m, s.lp.i) == len && len <= INT_MAX
  }

  lemma NumberPrefix(m: string, n: nat, l: nat, b: nat)
    requires l < b <= n <= |m| && IsDigit(m[l]) && m[b - 1] == '\n'
    ensures LongAt(m[..n], l) == LongAt(m, l)
  {
    hide DigitsEnd, Number, ScanInt, AllDigits, At;
    var j := DigitsEnd(m, l, |m| - l + 1);
    var d := m[l..j];
    DigitsStop(m, l, j, b);
    AtHere(m, l, j);
    AtPrefix(m, n, l, d);
    ScanNat(m, l, |m| - l + 1, d);
    ScanNat(m[..n], l, n - l + 1, d);
  }

  lemma DigitsStop(m: string, l: nat, j: nat, b: nat)
    requires l < b <= |m| && IsDigit(m[l]) && m[b - 1] == '\n' && j == DigitsEnd(m, l, |m| - l + 1)
    ensures l < j < b && AllDigits(m[l..j]) && !IsDigit(m[j])
  {
    forall q | l <= q < j ensures IsDigit(m[q]) {
      assert m[l..j][q - l] == m[q];
    }
  }

  /** Framing is independent of chunking: every prefix is either still a header or framed the same way. */
  lemma FramedPrefix(m: string, b: nat, len: nat, n: nat)
    requires Framed(m, b, len) && n <= |m|
    ensures n <= b ==> MarksOf(m[..n]).bp.Npos?
    ensures b < n ==> Framed(m[..n], b, len) && MarksOf(m[..n]) == MarksOf(m)
  {
    hide ScanFrom, LongAt, IsDigit;
    if n <= b {
      ScanShort(m, n, 0, Npos, Npos, Npos, Npos);
    } else {
      ScanLong(m, n, 0, Npos, Npos);
      BeforeBody(m, 0, Npos, Npos);
      NumberPrefix(m, n, MarksOf(m).lp.i, b);
    }
  }

  /* ---- the body as a C string ---- */

  /** A C string stops at its first NUL. */
  function CString(s: string): string {
    var end := FindChar(s, '\0', 0);
    if end.Npos? then s else s[..end.i]
  }

  lemma CStringSame(s: string)
    requires forall i :: 0 <= i < |s| ==> s[i] != '\0'
    ensures CString(s) == s
  {
    var end := FindChar(s, '\0', 0);
  }

  /** A framed message whose length field is the length of its body, which is a non-empty C string. */
  predicate Message(m: string, b: nat) {
    Stream(m, b, |m|)
  }

  /** A text that starts with such a message, ending at e, and may go on. */
  predicate Stream(w: string, b: nat, e: nat) {
    b < e <= |w| <= INT_MAX && Framed(w, b, e - b) && forall i :: b <= i < |w| ==> w[i] != '\0'
  }

  /** Two consecutive pieces of a message. */
  lemma Slices(m: string, n: nat, x: string, y: string)
    requires n + |x + y| <= |m| && x + y == m[n..n + |x + y|]
    ensures n + |x| <= |m| && x == m[n..n + |x|] && n + |x| + |y| <= |m| && y == m[n + |x|..n + |x| + |y|]
  {
    var w := m[n..n + |x + y|];
    assert w[..|x|] == m[n..n + |x|] && w[|x|..] == m[n + |x|..n + |x| + |y|];
    assert (x + y)[..|x|] == x && (x + y)[|x|..] == y;
  }

  /* ---- the headers the two sides write ---- */

  /** The client's header up to the length. */
  function PostLines(host: string, port: int, uri: string): string {
    var address := host + (":" + (PrintInt(port) + "\r\nContent-Type: text/xml\r\n"));
    "POST " + (uri + (" HTTP/1.1\r\nUser-Agent: " + (VERSION + ("\r\nHost: " + address))))
  }

  function PostMessage(host: string, port: int, uri: string, body: string): string {
    WithLength(PostLines(host, port, uri), Decimal(|body|)) + body
  }

  /** The server's header up to the length. */
  const OK_LINES := "HTTP/1.1 200 OK\r\nServer: " + (VERSION + "\r\nContent-Type: text/xml\r\n")

  function OkMessage(body: string): string {
    WithLength(OK_LINES, PrintInt(ToInt32(|body|))) + body
  }

  function WithLength(lines: string, length: string): string {
    lines + LENGTH_FIELD + length + HEADER_END
  }

  /** Every line feed is followed by the start of another, non-empty line. */
  predicate Calm(t: string) {
    forall k :: 0 <= k < |t| && t[k] == '\n' ==> k + 1 < |t| && !IsLineEnd(t[k + 1])
  }

  lemma CalmMore(a: string, b: string)
    requires Calm(a) && Calm(b)
    ensures Calm(a + b)
  {
    hide IsLineEnd;
    var t := a + b;
    forall k | 0 <= k < |t| && t[k] == '\n' ensures k + 1 < |t| && !IsLineEnd(t[k + 1]) {
      if k >= |a| {
        assert t[k] == b[k - |a|];
      }
    }
  }

  predicate NoLineFeed(t: string) {
    forall k :: 0 <= k < |t| ==> t[k] != '\n'
  }

  /** A line end before another calm line. */
  lemma CalmLine(b: string)
    requires b != "" && !IsLineEnd(b[0]) && Calm(b)
    ensures Calm("\r\n" + b)
  {
    hide IsLineEnd;
    var t := "\r\n" + b;
    assert t[2..] == b && t[2] == b[0];
    forall k | 0 <= k < |t| && t[k] == '\n' ensures k + 1 < |t| && !IsLineEnd(t[k + 1]) {
      if k >= 2 {
        assert t[k] == b[k - 2];
      }
    }
  }

  predicate EndsAt(h: string, e: nat) {
    LongEndAt(h, e) || ShortEndAt(h, e)
  }

  function BodyAfter(h: string, e: nat): nat {
    if LongEndAt(h, e) then e + 4 else e + 2
  }

  /** The scan reaches the end of the header and remembers the last length field. */
  lemma {:induction false} ScanTo(m: string, cp: nat, lp: Index, kp: Index, p: nat, e: nat)
    requires (cp <= p || lp == Pos(p + 16)) && p < e && cp <= e && LengthAt(m, p) && EndsAt(m, e)
    requires forall k :: cp <= k < e ==> !LongEndAt(m, k) && !ShortEndAt(m, k)
    requires forall k :: p < k < e ==> !LengthAt(m, k)
    ensures ScanFrom(m, cp, lp, kp).bp == Pos(BodyAfter(m, e)) && ScanFrom(m, cp, lp, kp).lp == Pos(p + 16)
    decreases e - cp
  {
    hide LengthAt, ConnectionAt, LongEndAt, ShortEndAt;
    EndInText(m, e);
    ConnectionIsNoEnd(m, e);
    if cp < e {
      if LengthAt(m, cp) {
        ScanTo(m, cp + 1, Pos(cp + 16), kp, p, e);
      } else if ConnectionAt(m, cp) {
        ScanTo(m, cp + 1, lp, Pos(cp + 12), p, e);
      } else {
        ScanTo(m, cp + 1, lp, kp, p, e);
      }
    }
  }

  lemma EndInText(m: string, e: nat)
    requires EndsAt(m, e)
    ensures BodyAfter(m, e) < |m|
  {
  }

  /** In a header made of calm lines the only end is the last one. */
  lemma CalmHasNoEnd(t: string, end: string, m: string, k: nat)
    requires Calm(t) && IsEnd(end) && At(m, 0, t + end) && k < |t|
    ensures !LongEndAt(m, k) && !ShortEndAt(m, k)
  {
    hide IsLineEnd, At;
    var h := t + end;
    AtChar(m, 0, h, k);
    AtChar(m, 0, h, k + 1);
    AtChar(m, 0, h, k + 2);
    LineEnds();
    if h[k] != '\n' {
      AtMismatch(m, k, "\n\n", 0);
    } else {
      AtMismatch(m, k, "\n\n", 1);
    }
    AtMismatch(m, k, HEADER_END, if h[k + 1] != '\n' then 1 else 2);
  }

  lemma LineEnds()
    ensures IsLineEnd('\r') && IsLineEnd('\n')
  {
  }

  lemma NotLengthAt(m: string, k: nat)
    requires k < |m| && Lower(m[k]) != 'c'
    ensures !LengthAt(m, k)
  {
    assert AtNoCase(m, k, LENGTH_FIELD) ==> Lower(m[k + 0]) == Lower(LENGTH_FIELD[0]);
  }

  lemma AnyCaseLength(m: string, p: nat, field: string)
    requires At(m, p, field) && p + 16 < |m| && SameText(field, LENGTH_FIELD)
    ensures LengthAt(m, p)
  {
    hide AtNoCase, SameText;
    AtSlice(m, p, field);
    FieldSize(field);
    NoCaseIff(m, p, LENGTH_FIELD);
  }

  lemma FieldSize(field: string)
    requires SameText(field, LENGTH_FIELD)
    ensures |field| == 16
  {
  }

  /** What ends a header. */
  predicate IsEnd(end: string) {
    end == "\r\n\r\n" || end == "\n\n"
  }

  function Headed(lines: string, field: string, length: string, end: string): string {
    lines + field + length + end
  }

  /**
   Any calm lines, the length field in any case, a length in digits, either end of a header and a
   body make a framed message.
   */
  lemma FramedForms(lines: string, field: string, end: string, body: string)
    requires |lines| > 0 && Calm(lines + field) && SameText(field, LENGTH_FIELD) && IsEnd(end)
    requires body != "" && |body| <= INT_MAX
    ensures var h := Headed(lines, field, Decimal(|body|), end); Framed(h + body, |h|, |body|)
  {
    hide At, Calm, LengthAt, LongEndAt, ShortEndAt, ScanFrom, Decimal, LongAt, AllDigits, Number, IsEnd, SameText;
    var d := Decimal(|body|);
    NumberOfDecimal(|body|);
    FieldSize(field);
    var p := |lines|;
    var t := lines + field + d;
    var m := t + end + body;
    var e := |t|;
    MessageParts(lines, field, d, end, body);
    DigitsCalm(d);
    CalmMore(lines + field, d);
    forall k | 0 <= k < e ensures !LongEndAt(m, k) && !ShortEndAt(m, k) {
      CalmHasNoEnd(t, end, m, k);
    }
    AnyCaseLength(m, p, field);
    EndHere(m, e, end);
    forall k | p < k < e ensures !LengthAt(m, k) {
      LengthLetters(lines, field, d, end, body, k);
      NotLengthAt(m, k);
    }
    ScanTo(m, 0, Npos, Npos, p, e);
    LengthReads(m, p + 16, |body|);
  }

  /** The field as the two sides write it. */
  lemma FramedLines(lines: string, body: string)
    requires |lines| > 0 && Calm(lines + LENGTH_FIELD) && body != "" && |body| <= INT_MAX
    ensures var h := WithLength(lines, Decimal(|body|)); Framed(h + body, |h|, |body|)
  {
    hide Calm, Framed, Decimal, SameLetter;
    ItselfSame(LENGTH_FIELD);
    FramedForms(lines, LENGTH_FIELD, HEADER_END, body);
  }

  /** Two spellings that are often met. */
  lemma CommonSpellings()
    ensures SameText("Content-Length: ", LENGTH_FIELD) && SameText("content-length: ", LENGTH_FIELD)
  {
  }

  lemma ItselfSame(s: string)
    ensures SameText(s, s)
  {
  }

  lemma EndHere(m: string, e: nat, end: string)
    requires At(m, e, end) && IsEnd(end) && e + |end| < |m|
    ensures EndsAt(m, e) && BodyAfter(m, e) == e + |end| && !IsDigit(m[e])
  {
    AtChar(m, e, end, 0);
    if end == "\n\n" {
      AtMismatch(m, e, HEADER_END, 0);
    }
  }

  lemma MessageParts(lines: string, field: string, d: string, end: string, body: string)
    ensures var t := lines + field + d; var m := t + end + body;
      && At(m, 0, t + end) && At(m, |lines|, field)
      && At(m, |lines| + |field|, d) && At(m, |t|, end)
  {
    hide At;
    var t := lines + field + d;
    var m := t + end + body;
    assert m[0..|m|] == m;
    AtHere(m, 0, |m|);
    AtSplit(m, 0, t + end, body);
    AtSplit(m, 0, t, end);
    AtSplit(m, 0, lines + field, d);
    AtSplit(m, 0, lines, field);
  }

  lemma DigitsCalm(d: string)
    requires AllDigits(d)
    ensures Calm(d)
  {
  }

  lemma LengthLetters(lines: string, field: string, d: string, end: string, body: string, k: nat)
    requires AllDigits(d) && SameText(field, LENGTH_FIELD) && |lines| < k < |lines| + 16 + |d|
    ensures Lower((lines + field + d + end + body)[k]) != 'c'
  {
    var m := lines + field + d + end + body;
    FieldSize(field);
    if k < |lines| + 16 {
      assert m[k] == field[k - |lines|];
      FieldLetters(k - |lines|);
      SameLetterIff(m[k], LENGTH_FIELD[k - |lines|]);
    } else {
      assert m[k] == d[k - |lines| - 16];
    }
  }

  lemma FieldLetters(k: nat)
    requires 0 < k < 16
    ensures Lower(LENGTH_FIELD[k]) != 'c'
  {
  }

  lemma LengthReads(m: string, i: nat, n: nat)
    requires At(m, i, Decimal(n)) && n <= INT_MAX
    requires i + |Decimal(n)| < |m| && !IsDigit(m[i + |Decimal(n)|])
    ensures LongAt(m, i) == n && IsDigit(m[i])
  {
    hide At, ScanInt, Decimal, Number;
    NumberOfDecimal(n);
    AtChar(m, i, Decimal(n), 0);
    ScanNat(m, i, |m| - i + 1, Decimal(n));
  }

  /** A generated response is framed with exactly its body. */
  lemma OkFramed(body: string)
    requires body != "" && |body| <= INT_MAX
    ensures |OkMessage(body)| >= |body| && OkMessage(body)[|OkMessage(body)| - |body|..] == body
    ensures Framed(OkMessage(body), |OkMessage(body)| - |body|, |body|)
  {
    hide Framed, Decimal;
    ToInt32Same(|body|);
    OkCalm();
    FramedLines(OK_LINES, body);
  }

  lemma OkCalm()
    ensures |OK_LINES| > 0 && Calm(OK_LINES + LENGTH_FIELD)
  {
    hide Calm, NoLineFeed;
    var a, b, z := "HTTP/1.1 200 OK", "Server: ", "\r\nContent-Type: text/xml\r\n" + LENGTH_FIELD;
    assert NoLineFeed(a) && NoLineFeed(b) && NoLineFeed(VERSION) by { OkLiterals(); }
    PlainCalm(a);
    PlainCalm(b);
    PlainCalm(VERSION);
    LengthCalm();
    CalmMore(VERSION, z);
    CalmMore(b, VERSION + z);
    CalmLine(b + (VERSION + z));
    CalmMore(a, "\r\n" + (b + (VERSION + z)));
    OkJoined();
  }

  lemma OkLiterals()
    ensures NoLineFeed("HTTP/1.1 200 OK") && NoLineFeed("Server: ") && NoLineFeed(VERSION)
    ensures NoLineFeed("POST ") && NoLineFeed(" HTTP/1.1") && NoLineFeed("User-Agent: ") && NoLineFeed("Host: ")
    ensures NoLineFeed(":")
  {
  }

  lemma OkJoined()
    ensures OK_LINES + LENGTH_FIELD
         == "HTTP/1.1 200 OK" + ("\r\n" + ("Server: " + (VERSION + ("\r\nContent-Type: text/xml\r\n" + LENGTH_FIELD))))
  {
    assert "HTTP/1.1 200 OK\r\nServer: " == "HTTP/1.1 200 OK" + ("\r\n" + "Server: ");
  }

  lemma LengthCalm()
    ensures Calm("\r\nContent-Type: text/xml\r\n" + LENGTH_FIELD)
  {
    hide Calm;
    var a := "Content-Type: text/xml";
    FieldCalm();
    CalmLine(LENGTH_FIELD);
    CalmMore(a, "\r\n" + LENGTH_FIELD);
    CalmLine(a + ("\r\n" + LENGTH_FIELD));
    assert "\r\nContent-Type: text/xml\r\n" == "\r\n" + (a + "\r\n");
    assert "\r\nContent-Type: text/xml\r\n" + LENGTH_FIELD == "\r\n" + (a + ("\r\n" + LENGTH_FIELD));
  }

  lemma FieldCalm()
    ensures Calm("Content-Type: text/xml") && Calm(LENGTH_FIELD)
  {
    PlainCalm("Content-Type: text/xml");
    PlainCalm(LENGTH_FIELD);
  }

  lemma PlainCalm(t: string)
    requires NoLineFeed(t)
    ensures Calm(t)
  {
  }

  lemma IntNoLineFeed(n: int)
    ensures NoLineFeed(PrintInt(n))
  {
    hide Decimal, Number;
    if n < 0 {
      NumberOfDecimal(-n);
    } else {
      NumberOfDecimal(n);
    }
  }

  lemma PostCalm(host: string, port: int, uri: string)
    requires NoLineFeed(host) && NoLineFeed(uri)
    ensures |PostLines(host, port, uri)| > 0 && Calm(PostLines(host, port, uri) + LENGTH_FIELD)
  {
    hide Calm, PrintInt, NoLineFeed;
    var a, b, c, d := "POST ", " HTTP/1.1\r\nUser-Agent: ", "\r\nHost: ", ":";
    var z := "\r\nContent-Type: text/xml\r\n" + LENGTH_FIELD;
    var p := PrintInt(port);
    PostLiterals();
    PlainCalm(host);
    PlainCalm(uri);
    IntNoLineFeed(port);
    PlainCalm(p);
    CalmMore(p, z);
    CalmMore(d, p + z);
    CalmMore(host, d + (p + z));
    CalmMore(c, host + (d + (p + z)));
    CalmMore(VERSION, c + (host + (d + (p + z))));
    CalmMore(b, VERSION + (c + (host + (d + (p + z)))));
    CalmMore(uri, b + (VERSION + (c + (host + (d + (p + z))))));
    CalmMore(a, uri + (b + (VERSION + (c + (host + (d + (p + z)))))));
    assert PostLines(host, port, uri) + LENGTH_FIELD == a + (uri + (b + (VERSION + (c + (host + (d + (p + z)))))));
  }

  lemma PostLiterals()
    ensures Calm("POST ") && Calm(" HTTP/1.1\r\nUser-Agent: ") && Calm("\r\nHost: ") && Calm(":") && Calm(VERSION)
    ensures Calm("\r\nContent-Type: text/xml\r\n" + LENGTH_FIELD)
  {
    hide Calm, NoLineFeed;
    OkLiterals();
    LengthCalm();
    PlainCalm("POST ");
    PlainCalm(" HTTP/1.1");
    PlainCalm("User-Agent: ");
    PlainCalm("Host: ");
    PlainCalm(":");
    PlainCalm(VERSION);
    CalmLine("Host: ");
    CalmLine("User-Agent: ");
    CalmMore(" HTTP/1.1", "\r\n" + "User-Agent: ");
    assert " HTTP/1.1\r\nUser-Agent: " == " HTTP/1.1" + ("\r\n" + "User-Agent: ");
    assert "\r\nHost: " == "\r\n" + "Host: ";
  }

  /** A generated request is framed with exactly its body. */
  lemma PostFramed(host: string, port: int, uri: string, body: string)
    requires NoLineFeed(host) && NoLineFeed(uri) && body != "" && |body| <= INT_MAX
    ensures var m := PostMessage(host, port, uri, body); |m| >= |body| && m[|m| - |body|..] == body
    ensures var m := PostMessage(host, port, uri, body); Framed(m, |m| - |body|, |body|)
  {
    hide Framed, Decimal, PostLines;
    PostCalm(host, port, uri);
    FramedLines(PostLines(host, port, uri), body);
  }
}
