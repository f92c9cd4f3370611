/** What becomes of a response, depending on whether the connection is kept alive. */
module KeptAlive {
  import opened DecimalText
  import opened TextSearch
  import opened XmlText
  import opened RpcCall
  import opened HttpFrame
  import opened SocketIo
  import opened ServerConnection
  import opened ServerRuns

  /* ---- what the header decides ---- */

  /** The decision is `keep`, however much of the body has come with the header. */
  predicate Decides(m: string, b: nat, keep: bool) {
    forall n :: b < n <= |m| ==> KeepAlive(m[..n], MarksOf(m).kp) == keep
  }

  const OLD_VERSION := "HTTP/1.0"

  lemma {:induction false} OptionBeforeBody(h: string, cp: nat, lp: Index, kp: Index)
    requires ScanFrom(h, cp, lp, kp).bp.Pos? && (kp.Pos? ==> kp.i < ScanFrom(h, cp, lp, kp).bp.i)
    ensures var s := ScanFrom(h, cp, lp, kp); s.kp.Pos? ==> s.kp.i < s.bp.i
    decreases |h| - cp
  {
    hide LengthAt, ConnectionAt, LongEndAt, ShortEndAt, IsLineEnd;
    if LengthAt(h, cp) {
      OptionBeforeBody(h, cp + 1, Pos(cp + 16), kp);
    } else if ConnectionAt(h, cp) {
      ConnectionHasNoLineEnd(h, cp);
      InText(h, cp);
      BodyBeyond(h, cp + 1, lp, Pos(cp + 12), cp + 12);
      OptionBeforeBody(h, cp + 1, lp, Pos(cp + 12));
    } else if !LongEndAt(h, cp) && !ShortEndAt(h, cp) {
      OptionBeforeBody(h, cp + 1, lp, kp);
    }
  }

  /** The value of the option is on a line of the header. */
  lemma OptionPrefix(m: string, b: nat, n: nat, i: nat, option: string)
    requires i < b <= n <= |m| && m[b - 1] == '\n'
    requires forall k :: 0 <= k < |option| ==> !IsLineEnd(Lower(option[k]))
    ensures AtNoCase(m[..n], i, option) <==> AtNoCase(m[..b], i, option)
  {
    hide AtNoCase, IsLineEnd, Lower;
    AtNoCasePrefix(m, n, i, option);
    AtNoCasePrefix(m, b, i, option);
    if AtNoCase(m, i, option) {
      FieldHasNoLineEnd(m, i, option);
      LineEnds();
    }
  }

  lemma OldVersionPrefix(m: string, b: nat, n: nat)
    requires b <= n <= |m| && (Find(m[..b], OLD_VERSION, 0).Pos? || Find(m, OLD_VERSION, 0).Npos?)
    ensures Find(m[..n], OLD_VERSION, 0).Pos? <==> Find(m[..b], OLD_VERSION, 0).Pos?
  {
    hide At, Find;
    var p, q := Find(m[..b], OLD_VERSION, 0), Find(m[..n], OLD_VERSION, 0);
    if p.Pos? {
      AtPrefix(m, b, p.i, OLD_VERSION);
      AtPrefix(m, n, p.i, OLD_VERSION);
    } else if q.Pos? {
      AtPrefix(m, n, q.i, OLD_VERSION);
    }
  }

  /** The header decides, unless the old version is named in the body alone. */
  lemma DecidedByHeader(m: string, b: nat)
    requires Message(m, b) && (Find(m[..b], OLD_VERSION, 0).Pos? || Find(m, OLD_VERSION, 0).Npos?)
    ensures Decides(m, b, KeepAlive(m[..b], MarksOf(m).kp))
  {
    hide ScanFrom, LongAt, Find, AtNoCase;
    var kp := MarksOf(m).kp;
    BeforeBody(m, 0, Npos, Npos);
    OptionBeforeBody(m, 0, Npos, Npos);
    OptionLetters();
    forall n | b < n <= |m| ensures KeepAlive(m[..n], kp) == KeepAlive(m[..b], kp) {
      OldVersionPrefix(m, b, n);
      if kp.Pos? {
        OptionPrefix(m, b, n, kp.i, "keep-alive");
        OptionPrefix(m, b, n, kp.i, "close");
      }
    }
  }

  lemma OptionLetters()
    ensures forall k :: 0 <= k < |"keep-alive"| ==> !IsLineEnd(Lower("keep-alive"[k]))
    ensures forall k :: 0 <= k < |"close"| ==> !IsLineEnd(Lower("close"[k]))
  {
  }

  /* ---- runs ---- */

  /** Nothing goes wrong in the event; the socket may still take as little as it likes. */
  predicate Smooth(ev: Event) {
    Quiet(ev) && ev.drain.end.Blocked?
  }

  predicate AllSmooth(evs: seq<Event>) {
    forall ev :: ev in evs ==> Smooth(ev)
  }

  /** Reading, with the decision made as soon as the header is complete. */
  predicate KeptReading(c: Conn, m: string, b: nat, n: nat, keep: bool) {
    Reading(c, m, b, |m|, n) && (b < n ==> c.keepAlive == keep)
  }

  /** A response that is being written will be written to its end. */
  predicate KeptWriting(c: Conn) {
    c.state.WriteResponse? ==> c.keepAlive && |c.response| <= INT_MAX
  }

  /** A response that can be sent. */
  predicate Deliverable(r: string) {
    0 < |r| <= INT_MAX
  }

  lemma ResponseKept(c: Conn, d: Drain, methods: Methods)
    requires c.state.WriteResponse? && Writable(c) && d.end.Blocked?
    requires Deliverable(if c.response == "" then Respond(methods, c.request) else c.response)
    ensures var s := ResponseStep(c, d, methods);
      s.alive == c.keepAlive && (s.alive ==> KeptWriting(s.conn))
  {
    hide Respond, Taken;
  }

  /** The rest of an event once the header is complete. */
  lemma FromHeader(c: Conn, s1: Stepped, ev: Event, methods: Methods, m: string, b: nat, n: nat, keep: bool)
    requires Message(m, b) && Smooth(ev) && s1.alive && HasHeader(s1.conn, m, b, |m|, n) && s1.conn.keepAlive == keep
    requires Live(c) && s1 == if c.state.ReadHeader? then HeaderStep(c, ev.header) else Stepped(true, c, "", "", [])
    requires var t := RequestStep(s1.conn, ev.body); n + |t.got| <= |m| && t.got == m[n..n + |t.got|]
    requires b <= |m| && Deliverable(Respond(methods, m[b..]))
    ensures var s := Handle(c, ev, methods); var n' := n + |RequestStep(s1.conn, ev.body).got|;
      && (n' < |m| ==> s.alive && KeptReading(s.conn, m, b, n', keep))
      && (n' == |m| ==> (s.alive <==> keep) && (s.alive ==> KeptWriting(s.conn)))
  {
    hide Stream, HeaderStep, RequestStep, ResponseStep, Handle, Then, Respond;
    BodyStep(s1.conn, ev.body, m, b, |m|, n);
    HandleIs(c, ev, methods);
    var t := RequestStep(s1.conn, ev.body);
    ThenParts(s1, t);
    var s2 := Then(s1, t);
    if n + |t.got| == |m| {
      assert m[b..|m|] == m[b..];
      ResponseKept(s2.conn, ev.drain, methods);
      ThenParts(s2, ResponseStep(s2.conn, ev.drain, methods));
    }
  }

  lemma KeptStep(c: Conn, ev: Event, methods: Methods, m: string, b: nat, n: nat, keep: bool)
    requires Message(m, b) && Decides(m, b, keep) && Live(c) && KeptReading(c, m, b, n, keep) && Smooth(ev)
    requires var s := Handle(c, ev, methods); n + |s.got| <= |m| && s.got == m[n..n + |s.got|]
    requires b <= |m| && Deliverable(Respond(methods, m[b..]))
    ensures var s := Handle(c, ev, methods); var n' := n + |s.got|;
      && (n' < |m| ==> s.alive && KeptReading(s.conn, m, b, n', keep))
      && (n' == |m| ==> (s.alive <==> keep) && (s.alive ==> KeptWriting(s.conn)))
  {
    hide Stream, RequestStep, Handle, Respond, Decides, Smooth, Deliverable;
    HandleGot(c, ev, methods);
    if n <= b {
      KeptHeader(c, ev, methods, m, b, n, keep);
    } else {
      FromHeader(c, Stepped(true, c, "", "", []), ev, methods, m, b, n, keep);
    }
  }

  lemma Decided(m: string, b: nat, keep: bool, n: nat)
    requires Decides(m, b, keep) && b < n <= |m|
    ensures KeepAlive(m[..n], MarksOf(m).kp) == keep
  {
  }

  lemma KeptHeader(c: Conn, ev: Event, methods: Methods, m: string, b: nat, n: nat, keep: bool)
    requires Message(m, b) && Decides(m, b, keep) && Live(c) && KeptReading(c, m, b, n, keep) && Smooth(ev) && n <= b
    requires var s := Handle(c, ev, methods); n + |s.got| <= |m| && s.got == m[n..n + |s.got|]
    requires b <= |m| && Deliverable(Respond(methods, m[b..]))
    ensures var s := Handle(c, ev, methods); var n' := n + |s.got|;
      && (n' < |m| ==> s.alive && KeptReading(s.conn, m, b, n', keep))
      && (n' == |m| ==> (s.alive <==> keep) && (s.alive ==> KeptWriting(s.conn)))
  {
    hide Stream, HeaderStep, RequestStep, ResponseStep, Handle, Then, Respond, KeepAlive, MarksOf, Decides;
    hide Deliverable, KeptWriting;
    HandleGot(c, ev, methods);
    HeaderQuiet(c, ev.header);
    var s1 := HeaderStep(c, ev.header);
    var x := Bytes(ev.header);
    var y := if s1.alive && s1.conn.state.ReadRequest? then RequestStep(s1.conn, ev.body).got else "";
    Slices(m, n, x, y);
    var n1 := n + |x|;
    HeaderArrives(c, ev.header, m, b, |m|, n, n1);
    if b < n1 {
      Decided(m, b, keep, n1);
      FromHeader(c, s1, ev, methods, m, b, n1, keep);
    } else {
      HandleIs(c, ev, methods);
    }
  }

  lemma RestingKept(c: Conn, ev: Event, methods: Methods)
    requires Live(c) && Resting(c) && KeptWriting(c) && Smooth(ev) && Handle(c, ev, methods).got == ""
    ensures var s := Handle(c, ev, methods); s.alive && Resting(s.conn) && KeptWriting(s.conn)
  {
    hide HeaderStep, RequestStep, ResponseStep, Handle;
    RestingStep(c, ev, methods);
    HandleIs(c, ev, methods);
    if c.state.WriteResponse? {
      ResponseKept(c, ev.drain, methods);
    } else {
      HandleGot(c, ev, methods);
      HeaderQuiet(c, ev.header);
      NothingArrives(c, ev.header);
    }
  }

  lemma {:induction false} RestingRunKept(c: Conn, evs: seq<Event>, methods: Methods)
    requires Live(c) && Resting(c) && KeptWriting(c) && AllSmooth(evs) && Run(c, evs, methods).got == ""
    ensures Run(c, evs, methods).alive
    decreases evs
  {
    hide Handle, Smooth, Resting, KeptWriting;
    if evs != [] {
      RunGot(c, evs, methods);
      RestingKept(c, evs[0], methods);
      RestingRunKept(Handle(c, evs[0], methods).conn, evs[1..], methods);
    }
  }

  /**
   Over any smooth events the connection lives until the message is complete; from then on it
   lives exactly if it is kept alive, and else it dies at the first event that writes.
   */
  lemma {:induction false} LivesIffKept(c: Conn, evs: seq<Event>, methods: Methods,
                                       m: string, b: nat, n: nat, keep: bool)
    requires Message(m, b) && Decides(m, b, keep) && Live(c) && KeptReading(c, m, b, n, keep) && AllSmooth(evs)
    requires var t := Run(c, evs, methods); n + |t.got| <= |m| && t.got == m[n..n + |t.got|]
    requires b <= |m| && Deliverable(Respond(methods, m[b..]))
    ensures var t := Run(c, evs, methods);
      && (n + |t.got| < |m| ==> t.alive)
      && (n + |t.got| == |m| ==> (t.alive <==> keep))
    decreases evs
  {
    hide Handle, Smooth, Resting, Stream, Reading, Run, Then, Decides, KeptWriting, Respond, KeptReading, Deliverable;
    hide Advances, Framed, Live;
    KeptReads(c, m, b, n, keep);
    RunIs(c, evs, methods);
    NotAll(c, m, b, |m|, n);
    if evs != [] {
      var s := Handle(c, evs[0], methods);
      var rest := if s.alive then Run(s.conn, evs[1..], methods).got else "";
      RunGot(c, evs, methods);
      Slices(m, n, s.got, rest);
      var n' := n + |s.got|;
      KeptStep(c, evs[0], methods, m, b, n, keep);
      if n' < |m| {
        LivesIffKept(s.conn, evs[1..], methods, m, b, n', keep);
      } else if s.alive {
        ReadingStep(c, evs[0], methods, m, b, |m|, n);
        AdvancesIs(s, m, b, |m|, n', Quiet(evs[0]));
        assert rest == "";
        RestingRunKept(s.conn, evs[1..], methods);
      }
      if s.alive {
        ThenAlive(s, Run(s.conn, evs[1..], methods));
      }
    }
  }

  lemma KeptReads(c: Conn, m: string, b: nat, n: nat, keep: bool)
    requires KeptReading(c, m, b, n, keep)
    ensures Reading(c, m, b, |m|, n)
  {
  }

  lemma ThenAlive(s: Stepped, t: Stepped)
    ensures Then(s, t).alive == t.alive
  {
  }

  /* ---- the response ---- */

  /** The connection is gone, and part of the response with it. */
  predicate Loses(t: Stepped, response: string) {
    !t.alive && t.sent != response
  }

  /** Whatever smooth events bring the message, no byte of the response is lost. */
  ghost predicate NeverLoses(c: Conn, methods: Methods, m: string, b: nat)
    requires Live(c) && b <= |m|
  {
    forall evs :: AllSmooth(evs) && Run(c, evs, methods).got == m ==>
      !Loses(Run(c, evs, methods), Respond(methods, m[b..]))
  }

  function Singles(s: string): seq<Chunk> {
    if s == "" then [] else [[s[0]]] + Singles(s[1..])
  }

  lemma {:induction false} SinglesJoined(s: string)
    ensures Joined(Singles(s)) == s
  {
    if s != "" {
      SinglesJoined(s[1..]);
      assert Singles(s)[1..] == Singles(s[1..]);
    }
  }

  /** The message comes in one event, at whose end the socket takes nothing. */
  function AllAtOnce(m: string): Event {
    Event(Arrival(Singles(m), WouldBlock), Arrival([], WouldBlock), Drain([], Blocked))
  }

  lemma NothingTaken(c: Conn, methods: Methods)
    requires Writable(c)
    ensures ResponseStep(c, Drain([], Blocked), methods).sent == ""
  {
    hide Respond;
  }

  /** All of it is read, and none of the response is sent. */
  lemma AllAtOnceRuns(c: Conn, methods: Methods, m: string, b: nat)
    requires Message(m, b) && Live(c) && Waiting(c)
    ensures var t := Run(c, [AllAtOnce(m)], methods); t.got == m && t.sent == ""
  {
    hide Framed, HeaderStep, RequestStep, ResponseStep, Handle, Then, KeepAlive, MarksOf;
    var ev := AllAtOnce(m);
    SinglesJoined(m);
    RunOne(c, ev, methods);
    HandleGot(c, ev, methods);
    HandleIs(c, ev, methods);
    HeaderQuiet(c, ev.header);
    assert m[0..|m|] == m && m[..0] == "";
    HeaderArrives(c, ev.header, m, b, |m|, 0, |m|);
    var s1 := HeaderStep(c, ev.header);
    RequestArrives(s1.conn, ev.body, m, b, |m|, |m|);
    var t := RequestStep(s1.conn, ev.body);
    ThenParts(s1, t);
    var s2 := Then(s1, t);
    NothingTaken(s2.conn, methods);
    ThenParts(s2, ResponseStep(s2.conn, ev.drain, methods));
  }

  /**
   A connection that waits for a message whose header decides whether it is kept alive delivers
   the response, whatever the socket takes at a time, exactly if it is kept alive. If not, it
   dies with the first event that writes, having sent a prefix.
   */
  lemma DeliveredIffKept(c: Conn, methods: Methods, m: string, b: nat, keep: bool)
    requires Message(m, b) && Decides(m, b, keep) && Live(c) && Waiting(c)
    requires b <= |m| && Deliverable(Respond(methods, m[b..]))
    ensures NeverLoses(c, methods, m, b) <==> keep
    ensures forall evs :: AllSmooth(evs) && Run(c, evs, methods).got == m ==>
      var t := Run(c, evs, methods); var r := Respond(methods, m[b..]);
      t.executed == [m[b..]] && (t.alive <==> keep) && t.sent <= r && (t.alive ==> t.sent + Pending(t.conn) == r)
  {
    hide Stream, Run, Respond, Decides, Reading, Conserves, AllSmooth, Responses, Pending;
    WaitingReads(c, m, b, |m|);
    forall evs | AllSmooth(evs) && Run(c, evs, methods).got == m
      ensures var t := Run(c, evs, methods); var r := Respond(methods, m[b..]);
        t.executed == [m[b..]] && (t.alive <==> keep) && t.sent <= r && (t.alive ==> t.sent + Pending(t.conn) == r)
    {
      assert m[0..0 + |m|] == m;
      SmoothIsQuiet(evs);
      MessageRun(c, evs, methods, m, b, 0);
      LivesIffKept(c, evs, methods, m, b, 0, keep);
      RunConserves(c, evs, methods);
      SentPart(c, Run(c, evs, methods), methods, m[b..]);
    }
    if !keep {
      var evs := [AllAtOnce(m)];
      AllAtOnceRuns(c, methods, m, b);
      OneSmooth(m);
      assert Loses(Run(c, evs, methods), Respond(methods, m[b..]));
    }
  }

  /* ---- a message that is not kept alive ---- */

  /** The smallest request in the old version of the protocol, without a connection option. */
  const OLD_LINES := "POST / " + OLD_VERSION + "\r\n"
  const OLD_MESSAGE := WithLength(OLD_LINES, Decimal(1)) + "x"

  lemma OldCalm()
    ensures Calm(OLD_LINES + LENGTH_FIELD) && |OLD_LINES| == 17
  {
    hide Calm;
    var a := "POST / HTTP/1.0";
    assert NoLineFeed(a);
    PlainCalm(a);
    FieldCalm();
    CalmLine(LENGTH_FIELD);
    CalmMore(a, "\r\n" + LENGTH_FIELD);
    assert OLD_LINES + LENGTH_FIELD == a + ("\r\n" + LENGTH_FIELD);
  }

  lemma OldText()
    ensures Decimal(1) == "1" && |OLD_MESSAGE| == 39 && OLD_MESSAGE[38..] == "x" && At(OLD_MESSAGE, 7, OLD_VERSION)
  {
    assert Decimal(1) == "1";
    assert OLD_MESSAGE[7..15] == OLD_VERSION;
  }

  predicate Without(c: char, t: string) {
    forall k :: 0 <= k < |t| ==> Lower(t[k]) != c
  }

  lemma WithoutPieces()
    ensures Without('k', "POST / ") && Without('k', OLD_VERSION) && Without('k', LENGTH_FIELD)
    ensures Without('k', "\r\n") && Without('k', "1") && Without('k', HEADER_END) && Without('k', "x")
  {
  }

  lemma WithoutMore(a: string, b: string)
    requires Without('k', a) && Without('k', b)
    ensures Without('k', a + b)
  {
    hide Lower;
  }

  /** There is no k in it, so no keep-alive. */
  lemma OldWithout()
    ensures Without('k', OLD_MESSAGE)
  {
    hide Without, Decimal;
    OldText();
    WithoutPieces();
    WithoutMore("POST / ", OLD_VERSION);
    WithoutMore("POST / " + OLD_VERSION, "\r\n");
    WithoutMore(OLD_LINES, LENGTH_FIELD);
    WithoutMore(OLD_LINES + LENGTH_FIELD, "1");
    WithoutMore(OLD_LINES + LENGTH_FIELD + "1", HEADER_END);
    WithoutMore(WithLength(OLD_LINES, "1"), "x");
  }

  lemma NoSuchOption(h: string, i: nat)
    requires Without('k', h)
    ensures !AtNoCase(h, i, "keep-alive")
  {
    var pat := "keep-alive";
    assert Lower(pat[0]) == 'k';
    assert i < |h| ==> Lower(h[i + 0]) != 'k';
  }

  /** It is framed, and the connection is not kept alive. */
  lemma OldNotKept()
    ensures Message(OLD_MESSAGE, 38) && Decides(OLD_MESSAGE, 38, false)
  {
    hide Framed, Calm, At, Decimal, Without, MarksOf, AtNoCase;
    OldCalm();
    OldText();
    OldWithout();
    FramedLines(OLD_LINES, "x");
    var m := OLD_MESSAGE;
    assert m[38] == m[38..][0];
    var kp := MarksOf(m).kp;
    assert m[..39] == m;
    assert Find(m[..39], OLD_VERSION, 0).Pos?;
    if kp.Pos? {
      NoSuchOption(m, kp.i);
    }
  }

  /** So its response can be lost, whatever the methods and wherever the connection comes from. */
  lemma OldVersionLoses(c: Conn, methods: Methods)
    requires Live(c) && Waiting(c) && Deliverable(Respond(methods, "x"))
    ensures |OLD_MESSAGE| == 39 && !NeverLoses(c, methods, OLD_MESSAGE, 38)
  {
    hide Message, Decides, NeverLoses, Respond, AllSmooth, Run;
    OldText();
    OldNotKept();
    DeliveredIffKept(c, methods, OLD_MESSAGE, 38, false);
  }

  lemma SmoothIsQuiet(evs: seq<Event>)
    requires AllSmooth(evs)
    ensures AllQuiet(evs)
  {
    hide Quiet;
    forall ev | ev in evs ensures Quiet(ev) {
      assert Smooth(ev);
    }
  }

  lemma OneSmooth(m: string)
    ensures AllSmooth([AllAtOnce(m)])
  {
  }

  lemma SentPart(c: Conn, t: Stepped, methods: Methods, request: string)
    requires Waiting(c) && t.executed == [request] && Conserves(c, t, methods)
    ensures t.sent <= Respond(methods, request)
    ensures t.alive ==> t.sent + Pending(t.conn) == Respond(methods, request)
  {
    hide Respond;
    OneResponse(request, methods);
    assert "" + Responses([request], methods) == Responses([request], methods);
  }

  /* ---- one event of writing ---- */

  /**
   An event in the writing state sends what the socket takes of what is pending, and leaves the
   connection alive exactly if it is kept alive and either everything went out or the socket only
   blocked. When everything has gone out it waits for the next message.
   */
  lemma WritingStep(c: Conn, ev: Event, methods: Methods)
    requires Live(c) && c.state.WriteResponse? && |c.response| <= INT_MAX
    ensures var s := Handle(c, ev, methods); var k := Sum(ev.drain.accepts); var p := Pending(c);
      && s.got == "" && s.executed == [] && s.sent == (if k < |p| then p[..k] else p)
      && (s.alive <==> c.keepAlive && (k >= |p| || ev.drain.end.Blocked?))
      && (k >= |p| ==> Waiting(s.conn)) && (k < |p| ==> s.conn.state.WriteResponse? && Pending(s.conn) == p[k..])
  {
    hide HeaderStep, RequestStep, Handle, Respond, Taken, Sum;
    HandleIs(c, ev, methods);
    TakenIs(ev.drain.accepts, |Pending(c)|);
  }

  /** A result too long to be sent is executed, and nothing is sent of it. */
  lemma OversizedDropped(c: Conn, ev: Event, methods: Methods)
    requires Live(c) && c.state.ReadRequest? && |c.request| >= c.contentLength
    requires var q := ParseRequest(c.request); var outcome := methods(q.name, q.params);
      && outcome.Result? && !outcome.v.Invalid? && |OkMessage(ResponseBody(outcome.v))| > INT_MAX
    ensures var s := Handle(c, ev, methods); !s.alive && s.sent == "" && s.executed == [c.request]
  {
    hide HeaderStep, ParseRequest, ResponseBody, OkMessage;
  }

  /* ---- sessions on one connection ---- */

  datatype Exchange = Exchange(message: string, b: nat, events: seq<Event>)

  function Events(xs: seq<Exchange>): seq<Event> {
    if xs == [] then [] else xs[0].events + Events(xs[1..])
  }

  function Bodies(xs: seq<Exchange>): seq<string>
    requires forall x :: x in xs ==> x.b <= |x.message|
  {
    if xs == [] then [] else [xs[0].message[xs[0].b..]] + Bodies(xs[1..])
  }

  /** A message that asks for the connection to be kept alive and whose response can be sent. */
  predicate Asks(x: Exchange, methods: Methods) {
    && Message(x.message, x.b) && x.b <= |x.message| && Decides(x.message, x.b, true)
    && Deliverable(Respond(methods, x.message[x.b..]))
  }

  /** What the client sees of an exchange: it sends the message, and receives the response. */
  predicate Seen(t: Stepped, x: Exchange, methods: Methods) {
    x.b <= |x.message| && t.got == x.message && t.sent == Respond(methods, x.message[x.b..])
  }

  /** The client waits for each response before it sends the next message. */
  predicate Polite(c: Conn, xs: seq<Exchange>, methods: Methods)
    requires Live(c)
    decreases xs
  {
    xs == [] || (
      var t := Run(c, xs[0].events, methods);
      && Asks(xs[0], methods) && AllSmooth(xs[0].events) && Seen(t, xs[0], methods)
      && (t.alive ==> Polite(t.conn, xs[1..], methods)))
  }

  /** After an exchange the connection is alive, and waits for the next message. */
  lemma OneExchange(c: Conn, x: Exchange, methods: Methods)
    requires Live(c) && Waiting(c) && Asks(x, methods) && AllSmooth(x.events)
    requires Seen(Run(c, x.events, methods), x, methods)
    ensures var t := Run(c, x.events, methods);
      t.alive && Waiting(t.conn) && t.executed == [x.message[x.b..]]
  {
    hide Stream, Run, Respond, Decides, Reading, Conserves, AllSmooth, Responses, Deliverable;
    var m, b := x.message, x.b;
    var t := Run(c, x.events, methods);
    WaitingReads(c, m, b, |m|);
    assert m[0..0 + |m|] == m;
    SmoothIsQuiet(x.events);
    MessageRun(c, x.events, methods, m, b, 0);
    LivesIffKept(c, x.events, methods, m, b, 0, true);
    RunConserves(c, x.events, methods);
    SentPart(c, t, methods, m[b..]);
    assert |t.sent + Pending(t.conn)| == |t.sent| + |Pending(t.conn)|;
    AllWritten(t.conn);
  }

  lemma AllWritten(c: Conn)
    requires Live(c) && Resting(c) && |Pending(c)| == 0
    ensures Waiting(c)
  {
  }

  /**
   On a connection whose messages ask for it to be kept alive, with a client that waits for each
   response, every message is executed once, in order, and answered in full, and the connection
   lives on.
   */
  lemma {:induction false} Session(c: Conn, xs: seq<Exchange>, methods: Methods)
    requires Live(c) && Waiting(c) && Polite(c, xs, methods) && forall x :: x in xs ==> x.b <= |x.message|
    ensures var t := Run(c, Events(xs), methods);
      t.alive && Waiting(t.conn) && t.executed == Bodies(xs) && t.sent == Responses(Bodies(xs), methods)
    decreases xs
  {
    hide Asks, AllSmooth, Run, Respond, Waiting;
    if xs == [] {
      RunIs(c, [], methods);
    } else {
      var m, b := xs[0].message, xs[0].b;
      var t := Run(c, xs[0].events, methods);
      OneExchange(c, xs[0], methods);
      OneResponse(m[b..], methods);
      Session(t.conn, xs[1..], methods);
      RunAppend(c, xs[0].events, Events(xs[1..]), methods);
      ResponsesSplit([m[b..]], Bodies(xs[1..]), methods);
    }
  }
}
