/** What holds of every run of a server connection. */
module ServerRuns {
  import opened TextSearch
  import opened RpcCall
  import opened HttpFrame
  import opened SocketIo
  import opened ServerConnection

  /** Events are handled until the connection is dropped. */
  function Run(c: Conn, evs: seq<Event>, methods: Methods): (t: Stepped)
    requires Live(c)
    ensures t.alive ==> Live(t.conn)
    decreases evs
  {
    if evs == [] then Stepped(true, c, "", "", [])
    else
      var s := Handle(c, evs[0], methods);
      if !s.alive then s else Then(s, Run(s.conn, evs[1..], methods))
  }

  lemma {:induction false} RunAppend(c: Conn, a: seq<Event>, b: seq<Event>, methods: Methods)
    requires Live(c) && Run(c, a, methods).alive
    ensures Run(c, a + b, methods) == Then(Run(c, a, methods), Run(Run(c, a, methods).conn, b, methods))
    decreases a
  {
    hide Handle, Then;
    if a == [] {
      assert a + b == b;
      ThenNothing(c, Run(c, b, methods));
    } else {
      RunAlive(c, a, methods);
      var s := Handle(c, a[0], methods);
      assert (a + b)[0] == a[0] && (a + b)[1..] == a[1..] + b;
      RunAppend(s.conn, a[1..], b, methods);
      var t := Run(s.conn, a[1..], methods);
      ThenAssociates(s, t, Run(t.conn, b, methods));
    }
  }

  lemma RunAlive(c: Conn, evs: seq<Event>, methods: Methods)
    requires Live(c) && Run(c, evs, methods).alive && evs != []
    ensures Handle(c, evs[0], methods).alive
    ensures Run(Handle(c, evs[0], methods).conn, evs[1..], methods).alive
    ensures Run(Handle(c, evs[0], methods).conn, evs[1..], methods).conn == Run(c, evs, methods).conn
  {
    hide Handle;
  }

  lemma ThenNothing(c: Conn, t: Stepped)
    ensures Then(Stepped(true, c, "", "", []), t) == t
  {
  }

  lemma ThenAssociates(s: Stepped, t: Stepped, u: Stepped)
    ensures Then(Then(s, t), u) == Then(s, Then(t, u)) && Then(s, t).conn == t.conn && Then(s, t).alive == t.alive
  {
  }

  /* ---- conservation of response bytes ---- */

  function Pending(c: Conn): string {
    if c.bytesWritten <= |c.response| then c.response[c.bytesWritten..] else ""
  }

  function Responses(requests: seq<string>, methods: Methods): string {
    if requests == [] then "" else Respond(methods, requests[0]) + Responses(requests[1..], methods)
  }

  lemma {:induction false} ResponsesSplit(a: seq<string>, b: seq<string>, methods: Methods)
    ensures Responses(a + b, methods) == Responses(a, methods) + Responses(b, methods)
  {
    hide Respond;
    if a == [] {
      assert a + b == b;
    } else {
      assert (a + b)[1..] == a[1..] + b;
      ResponsesSplit(a[1..], b, methods);
    }
  }

  /** What was owed is what was sent and what is still owed, be the connection alive or dropped. */
  predicate Conserves(c: Conn, s: Stepped, methods: Methods) {
    Pending(c) + Responses(s.executed, methods) == s.sent + Pending(s.conn)
  }

  lemma ResponseConserves(c: Conn, d: Drain, methods: Methods)
    requires Writable(c)
    ensures Conserves(c, ResponseStep(c, d, methods), methods)
  {
    hide Respond;
    var s := ResponseStep(c, d, methods);
    if c.response == "" {
      OneResponse(c.request, methods);
      var r := Respond(methods, c.request);
      if r != "" {
        SentPrefix(r, 0, d);
      }
    } else {
      SentPrefix(c.response, c.bytesWritten, d);
    }
  }

  lemma SentPrefix(r: string, n: nat, d: Drain)
    requires n <= |r|
    ensures var w := NbWrite(r, n, d); w.sent <= r[n..] && r[n..] == w.sent + r[w.bytesSoFar..]
  {
  }

  lemma OneResponse(request: string, methods: Methods)
    ensures Responses([request], methods) == Respond(methods, request)
  {
    hide Respond;
  }

  lemma HandleConserves(c: Conn, ev: Event, methods: Methods)
    requires Live(c)
    ensures Conserves(c, Handle(c, ev, methods), methods)
  {
    hide HeaderStep, RequestStep, ResponseStep, Respond, Conserves;
    HeaderQuiet(c, ev.header);
    var s1 := if c.state.ReadHeader? then HeaderStep(c, ev.header) else Stepped(true, c, "", "", []);
    RequestQuiet(s1.conn, ev.body);
    var s2 := if s1.conn.state.ReadRequest? then Then(s1, RequestStep(s1.conn, ev.body)) else s1;
    if s1.alive && s2.alive && s2.conn.state.WriteResponse? {
      ResponseConserves(s2.conn, ev.drain, methods);
      ConservesAfter(c, s2, ResponseStep(s2.conn, ev.drain, methods), methods);
    } else {
      NothingOwed(c, Handle(c, ev, methods), methods);
    }
  }

  lemma ConservesAfter(c: Conn, s: Stepped, t: Stepped, methods: Methods)
    requires s.sent == "" && s.executed == [] && s.conn.response == c.response && s.conn.bytesWritten == c.bytesWritten
    requires Conserves(s.conn, t, methods)
    ensures Conserves(c, Then(s, t), methods)
  {
    hide Responses;
    assert [] + t.executed == t.executed && "" + t.sent == t.sent;
  }

  lemma NothingOwed(c: Conn, s: Stepped, methods: Methods)
    requires s.sent == "" && s.executed == [] && s.conn.response == c.response && s.conn.bytesWritten == c.bytesWritten
    ensures Conserves(c, s, methods)
  {
  }

  lemma ConservesBoth(c: Conn, s: Stepped, t: Stepped, methods: Methods)
    requires s.alive && Conserves(c, s, methods) && Conserves(s.conn, t, methods)
    ensures Conserves(c, Then(s, t), methods)
  {
    hide Responses, Pending;
    ResponsesSplit(s.executed, t.executed, methods);
    var a, b := Responses(s.executed, methods), Responses(t.executed, methods);
    var owed := Pending(c) + a;
    assert Pending(c) + (a + b) == owed + b == s.sent + Pending(s.conn) + b == s.sent + (Pending(s.conn) + b);
    assert s.sent + (t.sent + Pending(t.conn)) == (s.sent + t.sent) + Pending(t.conn);
  }

  /** In every run, the bytes sent followed by the unsent part are the responses to the executed requests. */
  lemma {:induction false} RunConserves(c: Conn, evs: seq<Event>, methods: Methods)
    requires Live(c)
    ensures Conserves(c, Run(c, evs, methods), methods)
    decreases evs
  {
    hide Handle, Conserves;
    if evs == [] {
      NothingOwed(c, Run(c, evs, methods), methods);
    } else {
      var s := Handle(c, evs[0], methods);
      HandleConserves(c, evs[0], methods);
      if s.alive {
        RunConserves(s.conn, evs[1..], methods);
        ConservesBoth(c, s, Run(s.conn, evs[1..], methods), methods);
      }
    }
  }

  /* ---- framing ---- */

  /** No error and no end of file. */
  predicate Quiet(ev: Event) {
    ev.header.end.WouldBlock? && ev.body.end.WouldBlock?
  }

  predicate AllQuiet(evs: seq<Event>) {
    forall ev :: ev in evs ==> Quiet(ev)
  }

  /** The connection as a function of the n bytes it has received of w, whose first message ends at e. */
  predicate Reading(c: Conn, w: string, b: nat, e: nat, n: nat) {
    && b < e <= |w| && n < e && c.response == ""
    && (n <= b ==> c.state.ReadHeader? && c.header == w[..n])
    && (b < n ==> c.state.ReadRequest? && c.request == w[b..n] && c.contentLength == e - b)
  }

  /** Writing, or waiting for the first byte of a message. */
  predicate Resting(c: Conn) {
    c.state.WriteResponse? || (c.state.ReadHeader? && c.header == "" && c.response == "")
  }

  lemma LengthFramed(h: string, b: nat, len: nat)
    requires Framed(h, b, len)
    ensures LengthOf(h) == len && MarksOf(h).bp == Pos(b)
  {
    hide LongAt, ScanFrom;
  }

  lemma HeaderArrives(c: Conn, a: Arrival, w: string, b: nat, e: nat, n: nat, n': nat)
    requires Stream(w, b, e) && n <= b && c.header == w[..n]
    requires n' == n + |Bytes(a)| <= |w| && Bytes(a) == w[n..n']
    ensures var s := HeaderStep(c, a);
      && (s.alive <==> !a.end.Error? && (b < n' || a.end.WouldBlock?)) && s.conn.response == c.response
      && (s.alive && n' <= b ==> s.conn.header == w[..n'] && s.conn.state == c.state)
      && (s.alive && b < n' ==>
            s.conn.state.ReadRequest? && s.conn.request == w[b..n'] && s.conn.contentLength == e - b)
      && (s.alive && b < n' ==> s.conn.keepAlive == KeepAlive(w[..n'], MarksOf(w).kp))
  {
    hide Framed, MarksOf, LengthOf, KeepAlive, CString, Bytes;
    var h := w[..n'];
    assert w[..n] + w[n..n'] == h;
    FramedPrefix(w, b, e - b, n');
    if b < n' {
      LengthFramed(h, b, e - b);
      assert h[b..] == w[b..n'];
      CStringSame(w[b..n']);
    }
  }

  lemma RequestArrives(c: Conn, a: Arrival, w: string, b: nat, e: nat, n: nat)
    requires Stream(w, b, e) && b < n <= |w| && c.request == w[b..n] && c.contentLength == e - b && c.state.ReadRequest?
    ensures n >= e ==> RequestStep(c, a) == Stepped(true, c.(state := WriteResponse), "", "", [])
    ensures n < e ==> RequestStep(c, a).got == Bytes(a) && (a.end.Error? ==> !RequestStep(c, a).alive)
    ensures var n' := n + |Bytes(a)|; n < e && n' <= |w| && Bytes(a) == w[n..n'] && !a.end.Error? ==>
      RequestStep(c, a) == Stepped(
        n' >= e || a.end.WouldBlock?, c.(request := w[b..n'], state := if n' < e then ReadRequest else WriteResponse),
        Bytes(a), "", [])
  {
    hide Framed, Bytes;
    var n' := n + |Bytes(a)|;
    if n < e && n' <= |w| && Bytes(a) == w[n..n'] {
      assert w[b..n] + w[n..n'] == w[b..n'];
    }
  }

  lemma ResponseExecutes(c: Conn, d: Drain, methods: Methods)
    requires c.state.WriteResponse? && c.response == "" && Writable(c)
    ensures var s := ResponseStep(c, d, methods);
      s.executed == [c.request] && s.got == "" && (s.alive ==> Resting(s.conn))
  {
    hide Respond, NbWrite;
  }

  lemma ResponseContinues(c: Conn, d: Drain, methods: Methods)
    requires c.state.WriteResponse? && c.response != "" && Writable(c)
    ensures var s := ResponseStep(c, d, methods); s.executed == [] && s.got == "" && (s.alive ==> Resting(s.conn))
  {
    hide Respond, NbWrite;
  }

  /** The connection holds the n bytes it has received, and its header is complete. */
  predicate HasHeader(c: Conn, w: string, b: nat, e: nat, n: nat) {
    && b < n <= |w| && b < e <= |w| && c.response == ""
    && c.state.ReadRequest? && c.request == w[b..n] && c.contentLength == e - b
  }

  /** What reading the request makes of it. */
  lemma BodyStep(c: Conn, a: Arrival, w: string, b: nat, e: nat, n: nat)
    requires Stream(w, b, e) && HasHeader(c, w, b, e, n)
    requires var t := RequestStep(c, a); n + |t.got| <= |w| && t.got == w[n..n + |t.got|]
    ensures var t := RequestStep(c, a); var n' := n + |t.got|;
      && t.executed == [] && t.sent == "" && t.conn.response == ""
      && (n' < e ==> (t.alive <==> a.end.WouldBlock?) && (t.alive ==> Reading(t.conn, w, b, e, n')))
      && (n' >= e && t.alive ==> t.conn.state.WriteResponse? && t.conn.request == w[b..n'])
      && (n' >= e && !t.alive ==> a.end.Error?)
      && t.conn.keepAlive == c.keepAlive
  {
    hide Framed, Bytes, RequestStep;
    RequestArrives(c, a, w, b, e, n);
    RequestQuiet(c, a);
  }

  /** The three parts of an event, named. */
  lemma HandleIs(c: Conn, ev: Event, methods: Methods)
    requires Live(c)
    ensures var s1 := if c.state.ReadHeader? then HeaderStep(c, ev.header) else Stepped(true, c, "", "", []);
      var s2 := if s1.conn.state.ReadRequest? then Then(s1, RequestStep(s1.conn, ev.body)) else s1;
      && (!s1.alive ==> Handle(c, ev, methods) == s1)
      && (s1.alive && !s2.alive ==> Handle(c, ev, methods) == s2)
      && (s1.alive && s2.alive && !s2.conn.state.WriteResponse? ==> Handle(c, ev, methods) == s2)
      && (s1.alive && s2.alive && s2.conn.state.WriteResponse? ==>
            Writable(s2.conn) && Handle(c, ev, methods) == Then(s2, ResponseStep(s2.conn, ev.drain, methods)))
  {
    hide HeaderStep, RequestStep, ResponseStep;
    HeaderQuiet(c, ev.header);
    var s1 := if c.state.ReadHeader? then HeaderStep(c, ev.header) else Stepped(true, c, "", "", []);
    RequestQuiet(s1.conn, ev.body);
  }

  lemma ThenParts(s: Stepped, t: Stepped)
    ensures var u := Then(s, t);
      u.alive == t.alive && u.conn == t.conn && u.got == s.got + t.got && |u.got| == |s.got| + |t.got|
    ensures s.executed == [] ==> Then(s, t).executed == t.executed
    ensures t.executed == [] ==> Then(s, t).executed == s.executed
    ensures s.sent == "" ==> Then(s, t).sent == t.sent
  {
  }

  /**
   What events make of the bytes received, of which there are now n. Until the message is
   complete nothing is executed or sent; when it is, everything received after the header is
   executed at once, unless reading has failed.
   */
  predicate Advances(s: Stepped, w: string, b: nat, e: nat, n: nat, quiet: bool) {
    && b < e <= |w| && n <= |w|
    && (n < e ==> s.executed == [] && s.sent == "" && (s.alive ==> Reading(s.conn, w, b, e, n)) && (quiet ==> s.alive))
    && (n >= e ==> s.executed == [w[b..n]] || (!quiet && !s.alive && s.executed == []))
    && (n >= e ==> (s.alive ==> Resting(s.conn)))
  }

  /** From the request state to the end of the event. */
  lemma FromRequest(c: Conn, s1: Stepped, ev: Event, methods: Methods, w: string, b: nat, e: nat, n: nat)
    requires Stream(w, b, e) && s1.alive && s1.sent == "" && s1.executed == [] && HasHeader(s1.conn, w, b, e, n)
    requires Live(c) && s1 == if c.state.ReadHeader? then HeaderStep(c, ev.header) else Stepped(true, c, "", "", [])
    requires var t := RequestStep(s1.conn, ev.body); n + |t.got| <= |w| && t.got == w[n..n + |t.got|]
    ensures var n' := n + |RequestStep(s1.conn, ev.body).got|; var s := Handle(c, ev, methods);
      && Advances(s, w, b, e, n', Quiet(ev)) && (n' < e ==> (s.alive <==> ev.body.end.WouldBlock?))
    ensures Handle(c, ev, methods).got == s1.got + RequestStep(s1.conn, ev.body).got
  {
    hide Stream, HeaderStep, RequestStep, ResponseStep, Handle, Then;
    BodyStep(s1.conn, ev.body, w, b, e, n);
    HandleIs(c, ev, methods);
    var t := RequestStep(s1.conn, ev.body);
    ThenParts(s1, t);
    var s2 := Then(s1, t);
    if n + |t.got| >= e && s2.alive {
      ResponseExecutes(s2.conn, ev.drain, methods);
      ThenParts(s2, ResponseStep(s2.conn, ev.drain, methods));
    }
  }

  /** The last of the reads that an event makes. */
  function LastRead(ev: Event, b: nat, n: nat): Arrival {
    if n <= b then ev.header else ev.body
  }

  /**
   Every event, whatever it delivers, leaves the state that the received bytes determine. Before
   the message is complete, an error or an end of file drops the connection.
   */
  lemma ReadingStep(c: Conn, ev: Event, methods: Methods, w: string, b: nat, e: nat, n: nat)
    requires Stream(w, b, e) && Live(c) && Reading(c, w, b, e, n)
    requires var s := Handle(c, ev, methods); n + |s.got| <= |w| && s.got == w[n..n + |s.got|]
    ensures var s := Handle(c, ev, methods); var n' := n + |s.got|;
      && Advances(s, w, b, e, n', Quiet(ev))
      && (n' < e ==> (s.alive <==> LastRead(ev, b, n').end.WouldBlock? && (n <= b ==> !ev.header.end.Error?)))
  {
    hide Stream, HeaderStep, RequestStep, ResponseStep, Handle, Then, Advances;
    HandleIs(c, ev, methods);
    HeaderQuiet(c, ev.header);
    var s1 := if c.state.ReadHeader? then HeaderStep(c, ev.header) else Stepped(true, c, "", "", []);
    HandleGot(c, ev, methods);
    if n <= b {
      HeaderFirst(c, ev, methods, w, b, e, n);
    } else {
      FromRequest(c, s1, ev, methods, w, b, e, n);
    }
  }

  /** An event reads what its header part and then its body part deliver. */
  lemma HandleGot(c: Conn, ev: Event, methods: Methods)
    requires Live(c)
    ensures var s1 := if c.state.ReadHeader? then HeaderStep(c, ev.header) else Stepped(true, c, "", "", []);
      Handle(c, ev, methods).got
      == s1.got + if s1.alive && s1.conn.state.ReadRequest? then RequestStep(s1.conn, ev.body).got else ""
  {
    hide HeaderStep, RequestStep, ResponseStep, Handle;
    HandleIs(c, ev, methods);
    HeaderQuiet(c, ev.header);
    var s1 := if c.state.ReadHeader? then HeaderStep(c, ev.header) else Stepped(true, c, "", "", []);
    var s2 := if s1.conn.state.ReadRequest? then Then(s1, RequestStep(s1.conn, ev.body)) else s1;
    if s1.alive && s2.alive && s2.conn.state.WriteResponse? {
      ResponseLive(s2.conn, ev.drain, methods);
    }
  }

  lemma HeaderFirst(c: Conn, ev: Event, methods: Methods, w: string, b: nat, e: nat, n: nat)
    requires Stream(w, b, e) && Live(c) && Reading(c, w, b, e, n) && n <= b
    requires var s := Handle(c, ev, methods); n + |s.got| <= |w| && s.got == w[n..n + |s.got|]
    ensures var s := Handle(c, ev, methods); var n' := n + |s.got|;
      && Advances(s, w, b, e, n', Quiet(ev))
      && (n' < e ==> (s.alive <==> LastRead(ev, b, n').end.WouldBlock? && !ev.header.end.Error?))
  {
    hide HeaderStep, RequestStep, ResponseStep, Handle, Then, Framed, Advances;
    HandleGot(c, ev, methods);
    HandleIs(c, ev, methods);
    HeaderQuiet(c, ev.header);
    var s1 := HeaderStep(c, ev.header);
    var x := Bytes(ev.header);
    var y := if s1.alive && s1.conn.state.ReadRequest? then RequestStep(s1.conn, ev.body).got else "";
    Slices(w, n, x, y);
    var n' := n + |x|;
    HeaderArrives(c, ev.header, w, b, e, n, n');
    if !s1.alive {
      AdvancesDead(s1, w, b, e, n', Quiet(ev));
    } else if n' <= b {
      AdvancesReading(s1, w, b, e, n', Quiet(ev));
    } else {
      FromRequest(c, s1, ev, methods, w, b, e, n');
    }
  }

  lemma AdvancesReading(s: Stepped, w: string, b: nat, e: nat, n: nat, quiet: bool)
    requires s.alive && s.executed == [] && s.sent == "" && Reading(s.conn, w, b, e, n)
    ensures Advances(s, w, b, e, n, quiet)
  {
  }

  lemma AdvancesDead(s: Stepped, w: string, b: nat, e: nat, n: nat, quiet: bool)
    requires !s.alive && s.executed == [] && s.sent == "" && b < e <= |w| && n <= |w| && !quiet
    ensures Advances(s, w, b, e, n, quiet)
  {
  }

  /** While nothing arrives, nothing is executed, however many events the writing takes. */
  lemma RestingStep(c: Conn, ev: Event, methods: Methods)
    requires Live(c) && Resting(c) && Handle(c, ev, methods).got == ""
    ensures var s := Handle(c, ev, methods); s.executed == [] && (s.alive ==> Resting(s.conn))
  {
    hide HeaderStep, RequestStep, ResponseStep, Handle;
    HandleIs(c, ev, methods);
    if c.state.WriteResponse? {
      ResponseContinues(c, ev.drain, methods);
    } else {
      HandleGot(c, ev, methods);
      HeaderQuiet(c, ev.header);
      assert Bytes(ev.header) == "";
      NothingArrives(c, ev.header);
    }
  }

  lemma NothingArrives(c: Conn, a: Arrival)
    requires c.header == "" && Bytes(a) == ""
    ensures HeaderStep(c, a) == Stepped(a.end.WouldBlock?, c, "", "", [])
  {
    assert "" + Bytes(a) == "";
    assert MarksOf("").bp.Npos?;
  }

  lemma {:induction false} RestingRun(c: Conn, evs: seq<Event>, methods: Methods)
    requires Live(c) && Resting(c) && Run(c, evs, methods).got == ""
    ensures Run(c, evs, methods).executed == [] && (Run(c, evs, methods).alive ==> Resting(Run(c, evs, methods).conn))
    decreases evs
  {
    hide Handle, Resting;
    if evs != [] {
      var s := Handle(c, evs[0], methods);
      RunGot(c, evs, methods);
      RestingStep(c, evs[0], methods);
      if s.alive {
        RestingRun(s.conn, evs[1..], methods);
      }
    }
  }

  lemma RunGot(c: Conn, evs: seq<Event>, methods: Methods)
    requires Live(c) && evs != []
    ensures var s := Handle(c, evs[0], methods);
      Run(c, evs, methods).got == s.got + if s.alive then Run(s.conn, evs[1..], methods).got else ""
  {
    hide Handle;
  }

  /**
   Framing is independent of chunking. However the bytes of a message are split over reads and
   events, a connection that has received part of it is in the state that this part determines
   and has executed nothing, whatever errors and ends of file there were; and one that has
   received all of it without these has executed its body, exactly once.
   */
  lemma {:induction false} StreamRun(c: Conn, evs: seq<Event>, methods: Methods, w: string, b: nat, e: nat, n: nat)
    requires Stream(w, b, e) && Live(c) && Reading(c, w, b, e, n)
    requires var t := Run(c, evs, methods); n + |t.got| <= e && t.got == w[n..n + |t.got|]
    ensures Advances(Run(c, evs, methods), w, b, e, n + |Run(c, evs, methods).got|, AllQuiet(evs))
    decreases evs
  {
    hide Handle, Quiet, Resting, Stream, Reading, Run, Then, Advances, AllQuiet;
    RunIs(c, evs, methods);
    NotAll(c, w, b, e, n);
    if evs == [] {
      AdvancesReading(Run(c, evs, methods), w, b, e, n, AllQuiet(evs));
    } else {
      var s := Handle(c, evs[0], methods);
      var rest := if s.alive then Run(s.conn, evs[1..], methods).got else "";
      RunGot(c, evs, methods);
      Slices(w, n, s.got, rest);
      var n' := n + |s.got|;
      ReadingStep(c, evs[0], methods, w, b, e, n);
      AdvancesIs(s, w, b, e, n', Quiet(evs[0]));
      QuietRest(evs);
      if !s.alive {
        AdvancesWeaker(s, w, b, e, n', Quiet(evs[0]), AllQuiet(evs));
      } else if n' < e {
        StreamRun(s.conn, evs[1..], methods, w, b, e, n');
        AdvancesThen(s, Run(s.conn, evs[1..], methods), w, b, e, n' + |rest|, AllQuiet(evs[1..]), AllQuiet(evs));
      } else {
        assert rest == "";
        RestingRun(s.conn, evs[1..], methods);
        AdvancesRests(s, Run(s.conn, evs[1..], methods), w, b, e, n', Quiet(evs[0]), AllQuiet(evs));
      }
    }
  }

  lemma QuietRest(evs: seq<Event>)
    requires evs != []
    ensures AllQuiet(evs) <==> Quiet(evs[0]) && AllQuiet(evs[1..])
  {
    hide Quiet;
    assert evs == [evs[0]] + evs[1..];
  }

  lemma RunIs(c: Conn, evs: seq<Event>, methods: Methods)
    requires Live(c)
    ensures evs == [] ==> Run(c, evs, methods) == Stepped(true, c, "", "", [])
    ensures evs != [] ==> var s := Handle(c, evs[0], methods);
      Run(c, evs, methods) == if s.alive then Then(s, Run(s.conn, evs[1..], methods)) else s
  {
    hide Handle, Then;
  }

  lemma AdvancesIs(s: Stepped, w: string, b: nat, e: nat, n: nat, quiet: bool)
    requires Advances(s, w, b, e, n, quiet)
    ensures b < e <= |w| && n <= |w|
    ensures n < e ==> s.executed == [] && s.sent == "" && (s.alive ==> Reading(s.conn, w, b, e, n))
    ensures n >= e && s.alive ==> Resting(s.conn)
    ensures quiet && n < e ==> s.alive
    ensures quiet && n >= e ==> s.executed == [w[b..n]]
  {
  }

  lemma AdvancesWeaker(s: Stepped, w: string, b: nat, e: nat, n: nat, quiet: bool, quiet': bool)
    requires Advances(s, w, b, e, n, quiet) && (quiet' ==> quiet)
    ensures Advances(s, w, b, e, n, quiet')
  {
    hide Reading, Resting;
  }

  lemma AdvancesThen(s: Stepped, t: Stepped, w: string, b: nat, e: nat, n: nat, quiet: bool, quiet': bool)
    requires s.executed == [] && s.sent == "" && Advances(t, w, b, e, n, quiet) && (quiet' ==> quiet)
    ensures Advances(Then(s, t), w, b, e, n, quiet')
  {
    hide Reading, Resting;
    ThenParts(s, t);
  }

  lemma AdvancesRests(s: Stepped, t: Stepped, w: string, b: nat, e: nat, n: nat, quiet: bool, quiet': bool)
    requires Advances(s, w, b, e, n, quiet) && n >= e && s.alive && (quiet' ==> quiet)
    requires t.executed == [] && (t.alive ==> Resting(t.conn))
    ensures Advances(Then(s, t), w, b, e, n, quiet')
  {
    hide Reading, Resting;
    ThenParts(s, t);
  }

  lemma NotAll(c: Conn, w: string, b: nat, e: nat, n: nat)
    requires Reading(c, w, b, e, n)
    ensures n < e <= |w| && b < e
  {
  }

  /** The same for a message alone, over quiet events. */
  lemma MessageRun(c: Conn, evs: seq<Event>, methods: Methods, m: string, b: nat, n: nat)
    requires Message(m, b) && Live(c) && Reading(c, m, b, |m|, n) && AllQuiet(evs)
    requires var t := Run(c, evs, methods); n + |t.got| <= |m| && t.got == m[n..n + |t.got|]
    ensures b <= |m|
    ensures var t := Run(c, evs, methods); var n' := n + |t.got|;
      && (n' < |m| ==> t.alive && t.executed == [] && t.sent == "" && Reading(t.conn, m, b, |m|, n'))
      && (n' == |m| ==> t.executed == [m[b..]] && (t.alive ==> Resting(t.conn)))
  {
    hide Stream, Reading, Resting, Run, Advances, AllQuiet;
    StreamRun(c, evs, methods, m, b, |m|, n);
    var t := Run(c, evs, methods);
    AdvancesIs(t, m, b, |m|, n + |t.got|, true);
    assert m[b..|m|] == m[b..];
  }

  /** An error or an end of file in mid-message: nothing is executed, and nothing sent. */
  lemma MidMessageEnds(c: Conn, evs: seq<Event>, methods: Methods, m: string, b: nat, n: nat)
    requires Message(m, b) && Live(c) && Reading(c, m, b, |m|, n)
    requires var t := Run(c, evs, methods); n + |t.got| < |m| && t.got == m[n..n + |t.got|]
    ensures var t := Run(c, evs, methods); t.executed == [] && t.sent == ""
    ensures AllQuiet(evs) ==> Run(c, evs, methods).alive
  {
    hide Stream, Reading, Resting, Run, Advances, AllQuiet;
    StreamRun(c, evs, methods, m, b, |m|, n);
    var t := Run(c, evs, methods);
    AdvancesIs(t, m, b, |m|, n + |t.got|, AllQuiet(evs));
  }

  /**
   Bytes of a next message that come in the event that completes the first one are executed
   with it, as the end of its body, and are gone when its response has been written.
   */
  lemma NextMessageLost(c: Conn, evs: seq<Event>, ev: Event, methods: Methods, w: string, b: nat, e: nat)
    requires Stream(w, b, e) && Live(c) && Waiting(c) && AllQuiet(evs) && Quiet(ev)
    requires var t := Run(c, evs, methods); |t.got| < e && t.got == w[..|t.got|]
    requires var u := Run(c, evs + [ev], methods); e <= |u.got| <= |w| && u.got == w[..|u.got|]
    ensures b <= |w|
    ensures var u := Run(c, evs + [ev], methods);
      u.executed == [w[b..|u.got|]] && (u.alive && u.conn.state.ReadHeader? ==> Waiting(u.conn))
  {
    hide Stream, Reading, Run, Advances, AllQuiet, Quiet, Then, Handle, Resting;
    var t := Run(c, evs, methods);
    WaitingReads(c, w, b, e);
    assert w[0..0 + |t.got|] == w[..|t.got|];
    StreamRun(c, evs, methods, w, b, e, 0);
    AdvancesIs(t, w, b, e, |t.got|, true);
    RunAppend(c, evs, [ev], methods);
    RunOne(t.conn, ev, methods);
    var s := Handle(t.conn, ev, methods);
    ThenParts(t, s);
    var u := Run(c, evs + [ev], methods);
    assert u.got == w[0..0 + |t.got + s.got|];
    Slices(w, 0, t.got, s.got);
    ReadingStep(t.conn, ev, methods, w, b, e, |t.got|);
    AdvancesIs(s, w, b, e, |u.got|, true);
  }

  lemma RunOne(c: Conn, ev: Event, methods: Methods)
    requires Live(c)
    ensures Run(c, [ev], methods) == Handle(c, ev, methods)
  {
    hide Handle;
    var s := Handle(c, ev, methods);
    assert [ev][1..] == [];
    if s.alive {
      assert Run(s.conn, [], methods) == Stepped(true, s.conn, "", "", []);
      assert s.got + "" == s.got && s.sent + "" == s.sent && s.executed + [] == s.executed;
    }
  }

  predicate Waiting(c: Conn) {
    c.state.ReadHeader? && c.header == "" && c.response == ""
  }

  lemma WaitingReads(c: Conn, w: string, b: nat, e: nat)
    requires Waiting(c) && Stream(w, b, e)
    ensures Reading(c, w, b, e, 0)
  {
    hide Framed;
    assert w[..0] == "";
  }
}
