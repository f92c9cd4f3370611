/** Which connections are kept alive, from the text of the message alone. */
module KeptOption {
  import opened DecimalText
  import opened TextSearch
  import opened XmlText
  import opened XmlNumbers
  import opened RpcCall
  import opened HttpFrame
  import opened HeaderMarks
  import opened ServerConnection
  import opened ServerRuns
  import opened KeptAlive

  predicate Mentions(s: string, w: string) {
    exists i | 0 <= i <= |s| :: At(s, i, w)
  }

  /** The last connection option before the body starts with this word, in any case. */
  predicate OptionStarts(m: string, b: nat, word: string) {
    exists k | 0 <= k < b :: LastConnection(m, 0, b, k) && AtNoCase(m, k + 12, word)
  }

  lemma MentionsIff(s: string, w: string)
    ensures Mentions(s, w) <==> Find(s, w, 0).Pos?
  {
    hide At;
    var f := Find(s, w, 0);
    if f.Pos? {
      AtSlice(s, f.i, w);
    }
  }

  /** No option is named in the end of the header itself. */
  lemma NotInEnd(m: string, e: nat, k: nat)
    requires EndsAt(m, e) && e <= k < BodyAfter(m, e)
    ensures !ConnectionAt(m, k)
  {
    hide Lower, IsLineEnd;
    LineEnds();
    if LongEndAt(m, e) {
      AtChar(m, e, HEADER_END, k - e);
    } else {
      AtChar(m, e, "\n\n", k - e);
    }
    if ConnectionAt(m, k) {
      ConnectionHasNoLineEnd(m, k);
    }
  }

  /** The option that the scan remembers is the last one before the body. */
  lemma OptionFound(m: string, b: nat)
    requires MarksOf(m).bp == Pos(b)
    ensures var kp := MarksOf(m).kp;
      if kp.Npos? then forall k :: 0 <= k < b ==> !ConnectionAt(m, k)
      else 12 <= kp.i && LastConnection(m, 0, b, kp.i - 12)
  {
    hide MarksOf, ConnectionAt, EndsAt, BodyAfter, FoundLength;
    var e := MarksFound(m);
    forall k | e <= k < b ensures !ConnectionAt(m, k) {
      NotInEnd(m, e, k);
    }
    EndBefore(m, e);
  }

  lemma EndBefore(m: string, e: nat)
    ensures e < BodyAfter(m, e)
  {
  }

  lemma OptionIff(m: string, b: nat, word: string)
    requires MarksOf(m).bp == Pos(b)
    ensures var kp := MarksOf(m).kp; OptionStarts(m, b, word) <==> kp.Pos? && AtNoCase(m, kp.i, word)
  {
    hide MarksOf, ConnectionAt, AtNoCase;
    OptionFound(m, b);
    var kp := MarksOf(m).kp;
    if kp.Pos? {
      assert LastConnection(m, 0, b, kp.i - 12);
    }
  }

  /** The decision, read off the text. */
  lemma DecidedByText(m: string, b: nat)
    requires Message(m, b) && b <= |m|
    ensures var kp := MarksOf(m).kp;
      && (!Mentions(m, "HTTP/1.0") ==> (KeepAlive(m[..b], kp) <==> !OptionStarts(m, b, "close")))
      && (Mentions(m[..b], "HTTP/1.0") ==> (KeepAlive(m[..b], kp) <==> OptionStarts(m, b, "keep-alive")))
  {
    hide ScanFrom, LongAt, Find, AtNoCase, OptionStarts, Mentions, At;
    var kp := MarksOf(m).kp;
    OptionIff(m, b, "close");
    OptionIff(m, b, "keep-alive");
    MentionsIff(m, "HTTP/1.0");
    MentionsIff(m[..b], "HTTP/1.0");
    assert m[..|m|] == m;
    if !Mentions(m, "HTTP/1.0") {
      OldVersionPrefix(m, b, |m|);
    }
    BeforeBody(m, 0, Npos, Npos);
    OptionBeforeBody(m, 0, Npos, Npos);
    OptionLetters();
    if kp.Pos? {
      OptionPrefix(m, b, |m|, kp.i, "close");
      OptionPrefix(m, b, |m|, kp.i, "keep-alive");
    }
  }

  /**
   Over any smooth events that bring a whole message, the connection lives on exactly if
   - its last connection option, if any, does not start with "close", when HTTP/1.0 is nowhere mentioned;
   - it has an option and the last one starts with "keep-alive", when its header mentions HTTP/1.0.
   */
  lemma LivesByOption(c: Conn, evs: seq<Event>, methods: Methods, m: string, b: nat)
    requires Message(m, b) && b <= |m| && Live(c) && Waiting(c) && AllSmooth(evs)
    requires Run(c, evs, methods).got == m && Deliverable(Respond(methods, m[b..]))
    ensures !Mentions(m, "HTTP/1.0") ==> (Run(c, evs, methods).alive <==> !OptionStarts(m, b, "close"))
    ensures Mentions(m[..b], "HTTP/1.0") ==> (Run(c, evs, methods).alive <==> OptionStarts(m, b, "keep-alive"))
  {
    hide Stream, Run, Respond, Decides, Reading, AllSmooth, Find, Mentions, OptionStarts, KeepAlive, MarksOf;
    hide Deliverable;
    DecidedByText(m, b);
    MentionsIff(m, "HTTP/1.0");
    MentionsIff(m[..b], "HTTP/1.0");
    if !Mentions(m, "HTTP/1.0") || Mentions(m[..b], "HTTP/1.0") {
      DecidedByHeader(m, b);
      WaitingReads(c, m, b, |m|);
      assert m[0..0 + |m|] == m;
      LivesIffKept(c, evs, methods, m, b, 0, KeepAlive(m[..b], MarksOf(m).kp));
    }
  }

  /** And exactly then no byte of the response is ever lost. */
  lemma DeliveredByOption(c: Conn, methods: Methods, m: string, b: nat)
    requires Message(m, b) && b <= |m| && Live(c) && Waiting(c) && Deliverable(Respond(methods, m[b..]))
    ensures !Mentions(m, "HTTP/1.0") ==> (NeverLoses(c, methods, m, b) <==> !OptionStarts(m, b, "close"))
    ensures Mentions(m[..b], "HTTP/1.0") ==> (NeverLoses(c, methods, m, b) <==> OptionStarts(m, b, "keep-alive"))
  {
    hide Stream, Run, Respond, Decides, AllSmooth, Find, Mentions, OptionStarts, KeepAlive, MarksOf, Deliverable;
    hide NeverLoses;
    DecidedByText(m, b);
    MentionsIff(m, "HTTP/1.0");
    MentionsIff(m[..b], "HTTP/1.0");
    if !Mentions(m, "HTTP/1.0") || Mentions(m[..b], "HTTP/1.0") {
      DecidedByHeader(m, b);
      DeliveredIffKept(c, methods, m, b, KeepAlive(m[..b], MarksOf(m).kp));
    }
  }

  /* ---- the requests of the client ---- */

  /** Every blank of the text is seen, from the text alone, not to be the one in "Connection: close". */
  predicate Guarded(t: string) {
    forall s :: 0 <= s < |t| && t[s] == ' ' ==> GuardedAt(t, s)
  }

  predicate GuardedAt(t: string, s: nat)
    requires s < |t|
  {
    || (s >= 1 && t[s - 1] != ':') || (s >= 2 && Lower(t[s - 2]) != 'n')
    || (s + 1 < |t| && Lower(t[s + 1]) != 'c')
  }

  lemma GuardedMore(a: string, b: string)
    requires Guarded(a) && Guarded(b)
    ensures Guarded(a + b)
  {
    hide Lower;
    var t := a + b;
    forall s | 0 <= s < |t| && t[s] == ' ' ensures GuardedAt(t, s) {
      if s < |a| {
        assert a[s] == ' ' && GuardedAt(a, s);
      } else {
        assert b[s - |a|] == ' ' && GuardedAt(b, s - |a|);
      }
    }
  }

  predicate NoBlank(t: string) {
    forall k :: 0 <= k < |t| ==> t[k] != ' '
  }

  lemma NoBlankGuarded(t: string)
    requires NoBlank(t)
    ensures Guarded(t)
  {
  }

  /** A text whose only blank is its last character. */
  lemma LastBlankGuarded(t: string)
    requires |t| >= 3 && NoBlank(t[..|t| - 1]) && (t[|t| - 2] != ':' || Lower(t[|t| - 3]) != 'n')
    ensures Guarded(t)
  {
    hide Lower;
    assert forall s :: 0 <= s < |t| - 1 ==> t[..|t| - 1][s] == t[s];
  }

  lemma GuardedStart()
    ensures Guarded("POST ") && Guarded(" HTTP/1.1\r\nUser-Agent: ")
  {
    hide Guarded;
    var a, b := "POST ", "\r\nUser-Agent: ";
    assert a[..4] == "POST" && b[..|b| - 1] == "\r\nUser-Agent:";
    LastBlankGuarded(a);
    LastBlankGuarded(b);
    GuardedVersion();
    GuardedMore(" HTTP/1.1", b);
    assert " HTTP/1.1\r\nUser-Agent: " == " HTTP/1.1" + b;
  }

  lemma GuardedVersion()
    ensures Guarded(" HTTP/1.1") && Guarded(VERSION)
  {
  }

  lemma GuardedFields()
    ensures Guarded("\r\nHost: ") && Guarded("\r\nContent-Type: text/xml\r\n") && Guarded(LENGTH_FIELD)
  {
    hide Guarded;
    var a, b, c := "\r\nHost: ", "\r\nContent-Type: ", "text/xml\r\n";
    assert a[..|a| - 1] == "\r\nHost:" && b[..|b| - 1] == "\r\nContent-Type:";
    assert LENGTH_FIELD[..15] == "Content-length:";
    LastBlankGuarded(a);
    LastBlankGuarded(b);
    LastBlankGuarded(LENGTH_FIELD);
    NoBlankGuarded(c);
    GuardedMore(b, c);
    assert "\r\nContent-Type: text/xml\r\n" == b + c;
  }

  /** The header of a request without blanks in host and uri. */
  lemma PostGuarded(host: string, port: int, uri: string, n: nat)
    requires NoBlank(host) && NoBlank(uri)
    ensures Guarded(WithLength(PostLines(host, port, uri), Decimal(n)))
  {
    hide Guarded, PrintInt, Decimal, NoBlank;
    GuardedStart();
    GuardedVersion();
    GuardedFields();
    NumberNoBlank(port, n);
    NoBlankGuarded(host);
    NoBlankGuarded(uri);
    NoBlankGuarded(PrintInt(port));
    NoBlankGuarded(Decimal(n));
    var p, z := PrintInt(port), "\r\nContent-Type: text/xml\r\n";
    var a, b, c := "POST ", " HTTP/1.1\r\nUser-Agent: ", "\r\nHost: ";
    GuardedMore(p, z);
    GuardedMore(":", p + z);
    GuardedMore(host, ":" + (p + z));
    var address := host + (":" + (p + z));
    GuardedMore(c, address);
    GuardedMore(VERSION, c + address);
    GuardedMore(b, VERSION + (c + address));
    GuardedMore(uri, b + (VERSION + (c + address)));
    GuardedMore(a, uri + (b + (VERSION + (c + address))));
    var lines := PostLines(host, port, uri);
    GuardedMore(lines, LENGTH_FIELD);
    GuardedMore(lines + LENGTH_FIELD, Decimal(n));
    GuardedMore(lines + LENGTH_FIELD + Decimal(n), HEADER_END);
  }

  lemma NumberNoBlank(port: int, n: nat)
    ensures NoBlank(PrintInt(port)) && NoBlank(Decimal(n)) && Guarded(":") && Guarded(HEADER_END)
  {
    hide Decimal, Number;
    NumberOfDecimal(n);
    if port < 0 {
      NumberOfDecimal(-port);
    } else {
      NumberOfDecimal(port);
    }
  }

  lemma CloseWindow(m: string, k: nat)
    requires ConnectionAt(m, k) && AtNoCase(m, k + 12, "close")
    ensures k + 12 < |m| && m[k + 11] == ' ' && m[k + 10] == ':' && Lower(m[k + 9]) == 'n' && Lower(m[k + 12]) == 'c'
  {
    assert Lower(m[k + 11]) == Lower(CONNECTION_FIELD[11]) && Lower(m[k + 10]) == Lower(CONNECTION_FIELD[10]);
    assert Lower(m[k + 9]) == Lower(CONNECTION_FIELD[9]);
    var close := "close";
    assert Lower(m[k + 12 + 0]) == Lower(close[0]);
  }

  lemma Refutes(h: string, s: nat)
    requires Guarded(h) && 2 <= s < |h| - 1 && h[s] == ' '
    ensures h[s - 1] != ':' || Lower(h[s - 2]) != 'n' || Lower(h[s + 1]) != 'c'
  {
    hide Lower;
    assert GuardedAt(h, s);
  }

  /** With every blank of the header guarded, no option starts with "close". */
  lemma GuardedNotClosed(m: string, b: nat)
    requires b <= |m| && Guarded(m[..b]) && MarksOf(m).bp == Pos(b)
    ensures !OptionStarts(m, b, "close")
  {
    hide ScanFrom, ConnectionAt, AtNoCase, Lower, Guarded;
    OptionIff(m, b, "close");
    OptionFound(m, b);
    OptionBeforeBody(m, 0, Npos, Npos);
    var kp := MarksOf(m).kp;
    if kp.Pos? && AtNoCase(m, kp.i, "close") {
      CloseWindow(m, kp.i - 12);
      Refutes(m[..b], kp.i - 1);
    }
  }

  /* ---- a request that closes its own connection ---- */

  /** No connection option starts in the text, as the text alone shows. */
  predicate Free(t: string) {
    forall j :: 0 <= j < |t| ==> FreeAt(t, j)
  }

  predicate FreeAt(t: string, j: nat)
    requires j < |t|
  {
    || Lower(t[j]) != 'c' || (j + 1 < |t| && Lower(t[j + 1]) != 'o') || (j + 3 < |t| && Lower(t[j + 3]) != 'n')
  }

  lemma FreeMore(a: string, b: string)
    requires Free(a) && Free(b)
    ensures Free(a + b)
  {
    hide Lower;
    var t := a + b;
    forall j | 0 <= j < |t| ensures FreeAt(t, j) {
      if j < |a| {
        assert FreeAt(a, j);
      } else {
        assert FreeAt(b, j - |a|);
      }
    }
  }

  lemma FreeOfOption(m: string, p: nat, t: string, j: nat)
    requires At(m, p, t) && Free(t) && p <= j < p + |t|
    ensures !ConnectionAt(m, j)
  {
    hide At, Lower;
    assert FreeAt(t, j - p);
    AtChar(m, p, t, j - p);
    if j + 1 < p + |t| {
      AtChar(m, p, t, j + 1 - p);
    }
    if j + 3 < p + |t| {
      AtChar(m, p, t, j + 3 - p);
    }
    OptionLetter(m, j);
  }

  lemma OptionLetter(m: string, j: nat)
    ensures ConnectionAt(m, j) ==>
      j + 12 < |m| && Lower(m[j]) == 'c' && Lower(m[j + 1]) == 'o' && Lower(m[j + 3]) == 'n'
  {
    assert Lower(CONNECTION_FIELD[0]) == 'c' && Lower(CONNECTION_FIELD[1]) == 'o' && Lower(CONNECTION_FIELD[3]) == 'n';
    assert ConnectionAt(m, j) ==> Lower(m[j + 0]) == 'c';
  }

  /** The uri that does it. */
  const CLOSING_URI := "/ Connection: close"

  lemma FreePieces()
    ensures Free("onnection: close") && Free(" HTTP/1.1\r\n") && Free("User-Agent: ") && Free(VERSION)
    ensures Free("\r\nHost: ") && Free(":")
  {
    hide Free;
    FreeTail();
    FreeAgent();
    FreeHost();
  }

  lemma FreeTail()
    ensures Free("onnection: close")
  {
  }

  lemma FreeAgent()
    ensures Free(" HTTP/1.1\r\n") && Free("User-Agent: ") && Free(VERSION)
  {
  }

  lemma FreeHost()
    ensures Free("\r\nHost: ") && Free(":")
  {
  }

  lemma FreeFields()
    ensures Free("\r\nContent-Type: ") && Free("text/xml\r\n") && Free(LENGTH_FIELD)
  {
  }

  lemma DigitsFree(d: string)
    requires forall k :: 0 <= k < |d| ==> d[k] == '-' || '0' <= d[k] <= '9'
    ensures Free(d)
  {
  }

  /** What follows the first letter of the option in the header. */
  function AfterLetter(host: string, port: string, length: string): string {
    "onnection: close" + (" HTTP/1.1\r\n" + ("User-Agent: " + (VERSION + ("\r\nHost: " + (host + (":" + (port
    + ("\r\nContent-Type: " + ("text/xml\r\n" + (LENGTH_FIELD + (length + HEADER_END)))))))))))
  }

  lemma AfterLetterFree(host: string, port: string, length: string)
    requires Free(host) && Free(port) && Free(length)
    ensures Free(AfterLetter(host, port, length))
  {
    hide Free;
    FreePieces();
    FreeFields();
    assert Free(HEADER_END) by { EndFree(); }
    var e := LENGTH_FIELD + (length + HEADER_END);
    FreeMore(length, HEADER_END);
    FreeMore(LENGTH_FIELD, length + HEADER_END);
    FreeMore("text/xml\r\n", e);
    var d := "\r\nContent-Type: " + ("text/xml\r\n" + e);
    FreeMore("\r\nContent-Type: ", "text/xml\r\n" + e);
    FreeMore(port, d);
    FreeMore(":", port + d);
    FreeMore(host, ":" + (port + d));
    var c := "\r\nHost: " + (host + (":" + (port + d)));
    FreeMore("\r\nHost: ", host + (":" + (port + d)));
    FreeMore(VERSION, c);
    FreeMore("User-Agent: ", VERSION + c);
    FreeMore(" HTTP/1.1\r\n", "User-Agent: " + (VERSION + c));
    FreeMore("onnection: close", " HTTP/1.1\r\n" + ("User-Agent: " + (VERSION + c)));
  }

  lemma EndFree()
    ensures Free(HEADER_END)
  {
  }

  lemma ClosingTexts()
    ensures "POST " + CLOSING_URI == "POST / C" + "onnection: close"
    ensures " HTTP/1.1\r\nUser-Agent: " == " HTTP/1.1\r\n" + "User-Agent: "
    ensures "\r\nContent-Type: text/xml\r\n" == "\r\nContent-Type: " + "text/xml\r\n"
  {
  }

  /** Taking the header apart anew: pieces that are joined from the right. */
  lemma HeaderIs(host: string, port: int, length: string)
    ensures WithLength(PostLines(host, port, CLOSING_URI), length)
         == "POST / C" + AfterLetter(host, PrintInt(port), length)
  {
    hide PrintInt;
    ClosingTexts();
    var p, y := PrintInt(port), "\r\nContent-Type: text/xml\r\n";
    var a, b, c := "POST ", " HTTP/1.1\r\nUser-Agent: ", "\r\nHost: ";
    var t := LENGTH_FIELD + (length + HEADER_END);
    Tail(PostLines(host, port, CLOSING_URI), LENGTH_FIELD, length, HEADER_END);
    var x5 := host + (":" + (p + y));
    var x4 := c + x5;
    var x3 := VERSION + x4;
    var x2 := b + x3;
    PushFour(host, ":", p, y, t);
    Rejoin(c, x5, t);
    Rejoin(VERSION, x4, t);
    Rejoin(b, x3, t);
    Rejoin(CLOSING_URI, x2, t);
    Rejoin(a, CLOSING_URI + x2, t);
    Rejoin("\r\nContent-Type: ", "text/xml\r\n", t);
    Rejoin(" HTTP/1.1\r\n", "User-Agent: ", x3 + t);
    Rejoin(a, CLOSING_URI, x2 + t);
    Rejoin("POST / C", "onnection: close", x2 + t);
  }

  lemma Tail(w: string, l: string, n: string, e: string)
    ensures w + l + n + e == w + (l + (n + e))
  {
  }

  lemma PushFour(a: string, b: string, c: string, d: string, t: string)
    ensures (a + (b + (c + d))) + t == a + (b + (c + (d + t)))
  {
  }

  /** Named in the uri, the option is the last one, and closes. */
  lemma UriCloses(host: string, port: int, body: string)
    requires Free(host) && body != ""
    ensures var m := PostMessage(host, port, CLOSING_URI, body);
      |m| > |body| && OptionStarts(m, |m| - |body|, "close")
  {
    hide At, Free, PrintInt, Decimal, PostLines, ConnectionAt, AtNoCase;
    var p, d := PrintInt(port), Decimal(|body|);
    NumbersFree(port, |body|);
    HeaderIs(host, port, d);
    AfterLetterFree(host, p, d);
    var rest := AfterLetter(host, p, d);
    var m := PostMessage(host, port, CLOSING_URI, body);
    var b := |m| - |body|;
    assert m == "POST / C" + rest + body;
    AtAll(m);
    AtSplit(m, 0, "POST / C" + rest, body);
    AtSplit(m, 0, "POST / C", rest);
    forall j | 7 < j < b ensures !ConnectionAt(m, j) {
      FreeOfOption(m, 8, rest, j);
    }
    NamedAt(m, rest);
    assert LastConnection(m, 0, b, 7);
  }

  lemma NumbersFree(port: int, n: nat)
    ensures Free(PrintInt(port)) && Free(Decimal(n))
  {
    hide Decimal, Number, Free;
    NumberOfDecimal(n);
    DigitsFree(Decimal(n));
    if port < 0 {
      NumberOfDecimal(-port);
    } else {
      NumberOfDecimal(port);
    }
    DigitsFree(PrintInt(port));
  }

  lemma NamedAt(m: string, rest: string)
    requires "onnection: close" <= rest && At(m, 0, "POST / C") && At(m, 8, rest)
    ensures ConnectionAt(m, 7) && AtNoCase(m, 19, "close") && |rest| >= 16
  {
    hide Lower, SameLetter, At, AtNoCase;
    var tail := "onnection: close";
    AtSlice(m, 8, rest);
    assert rest == tail + rest[16..];
    AtSplit(m, 8, tail, rest[16..]);
    AtChar(m, 0, "POST / C", 7);
    AtSlice(m, 8, tail);
    NamedTexts();
    assert m[7..19] == [m[7]] + m[8..24][..11] == CONNECTION_FIELD;
    assert m[19..24] == m[8..24][11..] == "close";
    ItselfSame(CONNECTION_FIELD);
    ItselfSame("close");
    NoCaseIff(m, 7, CONNECTION_FIELD);
    NoCaseIff(m, 19, "close");
  }

  lemma NamedTexts()
    ensures "onnection: close"[..11] == "onnection: " && "onnection: close"[11..] == "close"
    ensures "C" + "onnection: " == CONNECTION_FIELD && "POST / C"[7] == 'C'
  {
  }
}
