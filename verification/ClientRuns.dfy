/** What holds of every run of a client, over any socket behaviour. */
module ClientRuns {
  import opened TextSearch
  import opened XmlText
  import opened XmlNumbers
  import opened RpcCall
  import opened HttpFrame
  import opened SocketIo
  import opened ClientConnection

  /** The parts of an event, named. */
  lemma HandleIs(c: Client, env: Env)
    requires Live(c)
    ensures var s1 := if c.state.WriteRequest? then WriteStep(c, env.drain) else Stepped(true, c, "");
      var s2 := if s1.client.state.ReadHeader? then HeaderStep(s1.client, env.header, env.connect) else s1;
      && (!s1.alive ==> Handle(c, env) == s1)
      && (s1.alive && (!s2.alive || !s2.client.state.ReadResponse?) ==> Handle(c, env) == s2)
      && (s1.alive && s2.alive && s2.client.state.ReadResponse? ==>
            var s3 := ResponseStep(s2.client, env.body);
            Handle(c, env) == Stepped(s3.alive, s3.client, s2.got + s3.got))
  {
    hide WriteStep, HeaderStep, ResponseStep;
  }

  /* ---- what each step can change ---- */

  /** Nothing was sent; a connection given up is closed. */
  predicate SameCall(c: Client, c': Client) {
    && c'.wire == c.wire && c'.request == c.request && c'.keepOpen == c.keepOpen
    && (c'.state.NoConnection? || (c'.sendAttempts == c.sendAttempts && c'.registered == c.registered))
  }

  /** A new connection was made for a second attempt. */
  predicate Retried(c: Client, c': Client) {
    && c'.wire == c.wire + [""] && c'.request == c.request && c'.keepOpen == c.keepOpen
    && c.sendAttempts == 0 && c'.sendAttempts == 1
    && c'.state.WriteRequest? && c'.bytesWritten == 0 && c'.registered
  }

  lemma RetryEffect(c: Client, r: Connect)
    ensures var s := RetryStep(c, r); (SameCall(c, s.1) && s.1.state.NoConnection?) || Retried(c, s.1)
  {
  }

  lemma FrameEffect(c: Client)
    requires c.state.ReadHeader?
    ensures var s := FrameStep(c); SameCall(c, s.1)
    ensures var c' := FrameStep(c).1;
      c'.state.NoConnection? || c'.state.ReadHeader? || (c'.state.ReadResponse? && c'.contentLength > 0)
  {
    hide MarksOf, CString, ClientLength;
  }

  lemma HeaderEffect(c: Client, a: Arrival, r: Connect)
    requires c.state.ReadHeader?
    ensures var c' := HeaderStep(c, a, r).client;
      || (SameCall(c, c')
          && (c'.state.NoConnection? || c'.state.ReadHeader? || (c'.state.ReadResponse? && c'.contentLength > 0)))
      || Retried(c, c')
  {
    hide NbRead, RetryStep, FrameStep, Bytes;
    var n := NbRead(c.header, a);
    var c1 := c.(header := n.text, eof := n.eof);
    RetryEffect(c1, r);
    FrameEffect(c1);
  }

  lemma ResponseEffect(c: Client, a: Arrival)
    requires c.state.ReadResponse?
    ensures var s := ResponseStep(c, a);
      && SameCall(c, s.client)
      && (s.client.state.Idle? ==> !s.alive)
      && (s.client.state.NoConnection? || s.client.state.Idle? || s.client.state.ReadResponse?)
  {
    hide NbRead, Bytes, ToInt32;
  }

  /** Some of the request went out; if not all of it, the rest is kept. */
  lemma WriteEffect(c: Client, d: Drain)
    requires c.state.WriteRequest? && c.bytesWritten == 0
    ensures var c' := WriteStep(c, d).client; var w := NbWrite(c.request, 0, d);
      && c'.wire == Wrote(c.wire, w.sent) && c'.sendAttempts == c.sendAttempts && c'.keepOpen == c.keepOpen
      && (c'.state.NoConnection? || c'.registered == c.registered)
      && ((c'.state.NoConnection? && c'.request == c.request)
          || (c'.state.ReadHeader? && c'.request == c.request && w.bytesSoFar == |c.request|)
          || (c'.state.WriteRequest? && c'.request == c.request[w.bytesSoFar..]))
  {
    hide NbWrite;
  }

  /* ---- where a call starts ---- */

  /** A call starts on a new connection, or on one that is idle and not at end of file. */
  lemma StartsFreshOrIdle(c: Client, r: Connect)
    requires Live(c) && SetupConnection(c, r).0
    ensures var c' := SetupConnection(c, r).1;
      && c'.open && c'.state.WriteRequest? && !c'.eof && c'.bytesWritten == 0 && c'.registered
      && c'.wire == (if c.state.Idle? && !c.eof then c.wire else c.wire + [""])
  {
  }

  datatype Call = Call(message: string, connect: Connect, rounds: seq<Round>)

  /** The client before each of a sequence of calls. */
  function Before(c: Client, calls: seq<Call>): (cs: seq<Client>)
    requires Live(c)
    ensures |cs| == |calls| && forall i :: 0 <= i < |cs| ==> Live(cs[i])
    decreases calls
  {
    if calls == [] then []
    else [c] + Before(Execute(c, calls[0].message, calls[0].connect, calls[0].rounds).1, calls[1..])
  }

  /** Over any sequence of calls and failures. */
  lemma EveryCallStartsFreshOrIdle(c: Client, calls: seq<Call>, i: nat)
    requires Live(c) && i < |calls| && Begin(Before(c, calls)[i], calls[i].message, calls[i].connect).0
    ensures var b := Before(c, calls)[i]; var s := Begin(b, calls[i].message, calls[i].connect).1;
      && s.open && s.state.WriteRequest? && s.request == calls[i].message
      && (s.wire == b.wire + [""] || (s.wire == b.wire && b.state.Idle? && !b.eof))
  {
    hide SetupConnection;
    var b := Before(c, calls)[i];
    StartsFreshOrIdle(b.(sendAttempts := 0, isFault := false), calls[i].connect);
  }

  /* ---- the answer is complete when a call succeeds ---- */

  predicate Measured(c: Client) {
    && (c.state.ReadResponse? ==> c.contentLength > 0)
    && (c.state.Idle? ==> 0 < c.contentLength <= |c.response|)
  }

  lemma HeaderMeasured(c: Client, a: Arrival, r: Connect)
    requires c.state.ReadHeader?
    ensures Measured(HeaderStep(c, a, r).client) && !HeaderStep(c, a, r).client.state.Idle?
  {
    hide HeaderStep;
    HeaderEffect(c, a, r);
  }

  lemma ResponseMeasured(c: Client, a: Arrival)
    requires c.state.ReadResponse? && c.contentLength > 0
    ensures Measured(ResponseStep(c, a).client)
  {
    hide NbRead, Bytes;
  }

  lemma WriteMeasured(c: Client, d: Drain)
    requires c.state.WriteRequest? && c.bytesWritten <= |c.request|
    ensures var s := WriteStep(c, d).client.state; s.WriteRequest? || s.ReadHeader? || s.NoConnection?
  {
    hide NbWrite;
  }

  lemma HandleMeasured(c: Client, env: Env)
    requires Live(c) && Measured(c)
    ensures Measured(Handle(c, env).client)
  {
    hide WriteStep, HeaderStep, ResponseStep, Handle;
    HandleIs(c, env);
    if c.state.WriteRequest? {
      WriteMeasured(c, env.drain);
    }
    var s1 := if c.state.WriteRequest? then WriteStep(c, env.drain) else Stepped(true, c, "");
    if s1.client.state.ReadHeader? {
      HeaderMeasured(s1.client, env.header, env.connect);
    }
    var s2 := if s1.client.state.ReadHeader? then HeaderStep(s1.client, env.header, env.connect) else s1;
    if s2.client.state.ReadResponse? {
      ResponseMeasured(s2.client, env.body);
    }
  }

  lemma {:induction false} WorkMeasured(c: Client, rounds: seq<Round>)
    requires Live(c) && Measured(c)
    ensures Measured(Work(c, rounds).0)
    decreases rounds
  {
    hide Handle;
    if rounds != [] && c.registered {
      HandleMeasured(c, rounds[0].env);
      WorkMeasured(RoundStep(c, rounds[0]).client, rounds[1..]);
    }
  }

  /** A call succeeds only from rest, with all of the announced response, and with what it parses to. */
  lemma SuccessMeansComplete(c: Client, call: Call)
    requires Live(c) && Execute(c, call.message, call.connect, call.rounds).0
    ensures Begin(c, call.message, call.connect).0
    ensures var w := Work(Begin(c, call.message, call.connect).1, call.rounds).0;
      && w.state.Idle? && 0 < w.contentLength <= |w.response| && ParseResponse(w.response).ok
      && Execute(c, call.message, call.connect, call.rounds).2 == ParseResponse(w.response).value
  {
    hide Work, ParseResponse, SetupConnection;
    StartsFreshOrIdle(c.(sendAttempts := 0, isFault := false), call.connect);
    WorkMeasured(Begin(c, call.message, call.connect).1, call.rounds);
  }

  /* ---- a client that is not kept open ---- */

  lemma HandleKeeps(c: Client, env: Env)
    requires Live(c)
    ensures Handle(c, env).client.keepOpen == c.keepOpen
    ensures Handle(c, env).client.state.Idle? && !c.state.Idle? && c.registered ==>
      !Handle(c, env).alive && Handle(c, env).client.registered
  {
    hide WriteStep, HeaderStep, ResponseStep, Handle, NbWrite;
    HandleIs(c, env);
    if c.state.WriteRequest? {
      WriteEffect(c, env.drain);
    }
    var s1 := if c.state.WriteRequest? then WriteStep(c, env.drain) else Stepped(true, c, "");
    if s1.client.state.ReadHeader? {
      HeaderEffect(s1.client, env.header, env.connect);
    }
    var s2 := if s1.client.state.ReadHeader? then HeaderStep(s1.client, env.header, env.connect) else s1;
    if s2.client.state.ReadResponse? {
      ResponseEffect(s2.client, env.body);
    }
  }

  lemma {:induction false} NeverIdle(c: Client, rounds: seq<Round>)
    requires Live(c) && !c.keepOpen && !c.state.Idle?
    ensures !Work(c, rounds).0.state.Idle?
    decreases rounds
  {
    hide Handle;
    if rounds != [] && c.registered {
      HandleKeeps(c, rounds[0].env);
      NeverIdle(RoundStep(c, rounds[0]).client, rounds[1..]);
    }
  }

  /** The dispatcher closes such a client before the call can look at its answer. */
  lemma NotKeptOpenFails(c: Client, call: Call)
    requires Live(c) && !c.keepOpen
    ensures !Execute(c, call.message, call.connect, call.rounds).0
  {
    hide Work;
    var s := Begin(c, call.message, call.connect);
    if s.0 {
      NeverIdle(s.1, call.rounds);
    }
  }

  /* ---- what goes out on the wire ---- */

  predicate IsSuffix(s: string, t: string) {
    |s| <= |t| && t[|t| - |s|..] == s
  }

  /** x is what has been sent of `full`. */
  predicate Progress(c: Client, x: string, full: string) {
    && IsSuffix(c.request, full)
    && (c.state.WriteRequest? ==> x + c.request == full)
    && (c.state.NoConnection? ==> x <= full)
    && (c.state.ReadHeader? || c.state.ReadResponse? || c.state.Idle? ==> x == full)
  }

  /** On the n-th connection, after the bytes of earlier calls, some of `full` has gone out. */
  predicate Attempt(c: Client, n: nat, prior: string, full: string) {
    && |c.wire| == n > 0 && prior <= c.wire[n - 1] && Progress(c, c.wire[n - 1][|prior|..], full)
  }

  /** The attempt goes on, on the same connection. */
  predicate Continues(c: Client, c': Client, n: nat, prior: string, full: string) {
    && n > 0 && |c.wire| == n && Attempt(c', n, prior, full) && c'.wire[..n - 1] == c.wire[..n - 1]
    && (c'.sendAttempts == c.sendAttempts || c'.state.NoConnection?)
  }

  /** The retry: the message had gone out in full, and what is still in the request buffer is to be sent again. */
  predicate Retries(c: Client, c': Client, n: nat, prior: string, full: string) {
    && n > 0 && |c.wire| == n && c.sendAttempts == 0 && c'.sendAttempts == 1
    && c'.state.WriteRequest? && c'.bytesWritten == 0 && c'.request == c.request
    && c'.wire == c.wire[..n - 1] + [prior + full, ""]
  }

  lemma WriteProgress(c: Client, d: Drain, n: nat, prior: string, full: string)
    requires Live(c) && c.state.WriteRequest? && Attempt(c, n, prior, full)
    ensures var c' := WriteStep(c, d).client;
      && Continues(c, c', n, prior, full) && c'.sendAttempts == c.sendAttempts && |c'.request| <= |c.request|
      && (c'.state.ReadHeader? ==> c'.request == c.request)
      && !c'.state.ReadResponse? && !c'.state.Idle?
  {
    hide NbWrite, WriteStep, IsSuffix;
    var w := NbWrite(c.request, 0, d);
    assert c.request[0..] == c.request;
    var last := c.wire[n - 1];
    assert (last + w.sent)[|prior|..] == last[|prior|..] + w.sent;
    SentSoFar(last[|prior|..], w.sent, c.request, w.bytesSoFar, full);
    WriteEffect(c, d);
  }

  lemma SentSoFar(x: string, sent: string, request: string, k: nat, full: string)
    requires k <= |request| && sent + request[k..] == request && x + request == full
    ensures x + sent + request[k..] == full && x + sent <= full && IsSuffix(request[k..], full)
    ensures IsSuffix(request, full)
    ensures k == |request| ==> x + sent == full
  {
    assert x + sent + request[k..] == x + (sent + request[k..]);
  }

  /** Reading keeps the account of what was sent. */
  lemma SameCallProgress(c: Client, c': Client, n: nat, prior: string, full: string)
    requires c.state.ReadHeader? || c.state.ReadResponse?
    requires Attempt(c, n, prior, full) && SameCall(c, c') && !c'.state.WriteRequest?
    ensures Continues(c, c', n, prior, full)
  {
  }

  lemma RetriedProgress(c: Client, c': Client, n: nat, prior: string, full: string)
    requires c.state.ReadHeader? && Attempt(c, n, prior, full) && Retried(c, c')
    ensures Retries(c, c', n, prior, full)
  {
    hide IsSuffix;
    assert prior + c.wire[n - 1][|prior|..] == c.wire[n - 1];
    assert c.wire == c.wire[..n - 1] + [prior + full];
    assert c.wire[..n - 1] + [prior + full] + [""] == c.wire[..n - 1] + [prior + full, ""];
  }

  lemma HandleProgress(c: Client, env: Env, n: nat, prior: string, full: string)
    requires Live(c) && Attempt(c, n, prior, full)
    ensures var c' := Handle(c, env).client; Continues(c, c', n, prior, full) || Retries(c, c', n, prior, full)
    ensures |Handle(c, env).client.request| <= |c.request|
  {
    hide WriteStep, HeaderStep, ResponseStep, Handle, Attempt;
    HandleIs(c, env);
    AttemptCounts(c, n, prior, full);
    if c.state.WriteRequest? {
      WriteProgress(c, env.drain, n, prior, full);
    }
    var s1 := if c.state.WriteRequest? then WriteStep(c, env.drain) else Stepped(true, c, "");
    assert Continues(c, s1.client, n, prior, full) && s1.client.sendAttempts == c.sendAttempts;
    AttemptCounts(s1.client, n, prior, full);
    if s1.client.state.ReadHeader? {
      HeaderProgress(s1.client, env.header, env.connect, n, prior, full);
    }
    var s2 := if s1.client.state.ReadHeader? then HeaderStep(s1.client, env.header, env.connect) else s1;
    if s2.client.state.ReadResponse? {
      ResponseEffect(s2.client, env.body);
      SameCallProgress(s2.client, ResponseStep(s2.client, env.body).client, n, prior, full);
    }
  }

  lemma HeaderProgress(c: Client, a: Arrival, r: Connect, n: nat, prior: string, full: string)
    requires c.state.ReadHeader? && Attempt(c, n, prior, full)
    ensures var c' := HeaderStep(c, a, r).client;
      && c'.request == c.request && (Continues(c, c', n, prior, full) || Retries(c, c', n, prior, full))
  {
    hide HeaderStep, Attempt, Continues, Retries;
    var c' := HeaderStep(c, a, r).client;
    HeaderEffect(c, a, r);
    if SameCall(c, c') && !c'.state.WriteRequest? {
      SameCallProgress(c, c', n, prior, full);
    } else {
      RetriedProgress(c, c', n, prior, full);
    }
  }

  lemma AttemptCounts(c: Client, n: nat, prior: string, full: string)
    requires Attempt(c, n, prior, full)
    ensures n > 0 && |c.wire| == n
  {
  }

  lemma RoundProgress(c: Client, r: Round, n: nat, prior: string, full: string)
    requires Live(c) && Attempt(c, n, prior, full)
    ensures var c' := RoundStep(c, r).client;
      Continues(c, c', n, prior, full) || Retries(c, c', n, prior, full) || Abandons(c, c', n, prior, full)
    ensures |RoundStep(c, r).client.request| <= |c.request|
  {
    hide Handle, Attempt, IsSuffix;
    AttemptCounts(c, n, prior, full);
    HandleProgress(c, r.env, n, prior, full);
    var s := if r.signalled then Handle(c, r.env) else Stepped(true, c, "");
    if Continues(c, s.client, n, prior, full) {
      AttemptStops(s.client, n, prior, full);
    }
  }

  /** The retry was made and the connection closed in the same round, with nothing sent on it. */
  predicate Abandons(c: Client, c': Client, n: nat, prior: string, full: string) {
    && n > 0 && |c.wire| == n && c.sendAttempts == 0 && c'.sendAttempts == 1
    && (c'.state.WriteRequest? || c'.state.NoConnection?) && !c'.registered && c'.request == c.request
    && c'.wire == c.wire[..n - 1] + [prior + full, ""]
  }

  lemma AttemptStops(c: Client, n: nat, prior: string, full: string)
    requires Attempt(c, n, prior, full)
    ensures Attempt(c.(registered := false), n, prior, full) && Attempt(Close(c), n, prior, full)
  {
  }

  /** What is in the request buffer when the first attempt ends. */
  function LastPiece(c: Client, rounds: seq<Round>): string
    requires Live(c)
    decreases rounds
  {
    if rounds == [] || !c.registered then c.request
    else
      var c' := RoundStep(c, rounds[0]).client;
      if |c'.wire| > |c.wire| then c.request else LastPiece(c', rounds[1..])
  }

  /** The socket takes some of the request, but not all of it, and is not broken. */
  predicate TakesPart(c: Client, r: Round) {
    && r.signalled && c.state.WriteRequest? && |c.request| <= INT_MAX && r.env.drain.end.Blocked?
    && 0 < Taken(r.env.drain.accepts, |c.request|) < |c.request|
  }

  /** Until the first attempt ends, every write takes all of the request or nothing, or fails. */
  predicate NoPartialWrite(c: Client, rounds: seq<Round>)
    requires Live(c)
    decreases rounds
  {
    rounds == [] || !c.registered || (
      && !TakesPart(c, rounds[0])
      && var c' := RoundStep(c, rounds[0]).client; |c'.wire| > |c.wire| || NoPartialWrite(c', rounds[1..]))
  }

  /** What a write leaves in the buffer. */
  lemma WriteLeaves(c: Client, d: Drain)
    requires c.state.WriteRequest? && c.bytesWritten == 0
    ensures var c' := WriteStep(c, d).client; var k := Taken(d.accepts, |c.request|);
      if |c.request| <= INT_MAX && d.end.Blocked? && 0 < k < |c.request| then
        c'.state.WriteRequest? && c'.request == c.request[k..]
      else c'.request == c.request
  {
    hide Taken;
    assert c.request[0..] == c.request;
  }

  lemma HandleLeaves(c: Client, r: Round)
    requires Live(c) && r.signalled
    ensures var c' := Handle(c, r.env).client;
      if TakesPart(c, r) then |c'.request| < |c.request| && |c'.wire| == |c.wire| else c'.request == c.request
  {
    hide WriteStep, HeaderStep, ResponseStep, Handle, Taken, NbWrite;
    HandleIs(c, r.env);
    if c.state.WriteRequest? {
      WriteLeaves(c, r.env.drain);
      WriteEffect(c, r.env.drain);
    }
    var s1 := if c.state.WriteRequest? then WriteStep(c, r.env.drain) else Stepped(true, c, "");
    if s1.client.state.ReadHeader? {
      HeaderEffect(s1.client, r.env.header, r.env.connect);
    }
    var s2 := if s1.client.state.ReadHeader? then HeaderStep(s1.client, r.env.header, r.env.connect) else s1;
    if s2.client.state.ReadResponse? {
      ResponseEffect(s2.client, r.env.body);
    }
  }

  /** The buffer changes in a round exactly if the socket takes part of it. */
  lemma RoundLeaves(c: Client, r: Round)
    requires Live(c)
    ensures var c' := RoundStep(c, r).client;
      if TakesPart(c, r) then |c'.request| < |c.request| && |c'.wire| == |c.wire| else c'.request == c.request
  {
    hide Handle, Taken;
    if r.signalled {
      HandleLeaves(c, r);
    }
  }

  lemma {:induction false} PieceShrinks(c: Client, rounds: seq<Round>, n: nat, prior: string, full: string)
    requires Live(c) && Attempt(c, n, prior, full)
    ensures |LastPiece(c, rounds)| <= |c.request|
    ensures LastPiece(c, rounds) == c.request <==> NoPartialWrite(c, rounds)
    ensures IsSuffix(LastPiece(c, rounds), full)
    decreases rounds
  {
    hide RoundStep, Progress, IsSuffix, TakesPart;
    AttemptSuffix(c, n, prior, full);
    if rounds != [] && c.registered {
      var c' := RoundStep(c, rounds[0]).client;
      RoundProgress(c, rounds[0], n, prior, full);
      RoundLeaves(c, rounds[0]);
      if |c'.wire| <= |c.wire| {
        PieceShrinks(c', rounds[1..], n, prior, full);
      }
    }
  }

  lemma AttemptSuffix(c: Client, n: nat, prior: string, full: string)
    requires Attempt(c, n, prior, full)
    ensures IsSuffix(c.request, full)
  {
    hide IsSuffix;
  }

  /** The second attempt: the first had sent everything, and the last piece is sent again. */
  predicate Second(c: Client, n: nat, prior: string, full: string, piece: string) {
    && n > 0 && Attempt(c, n + 1, "", piece) && c.wire[n - 1] == prior + full
    && (c.sendAttempts >= 1 || c.state.NoConnection?)
  }

  lemma SecondBegins(c: Client, c': Client, n: nat, prior: string, full: string)
    requires Retries(c, c', n, prior, full) || Abandons(c, c', n, prior, full)
    ensures Second(c', n, prior, full, c.request)
  {
    assert c'.wire[n][0..] == "";
    assert "" + c.request == c.request && c.request[|c.request| - |c.request|..] == c.request;
  }

  lemma {:induction false} SecondWorks(c: Client, rounds: seq<Round>, n: nat,
                                      prior: string, full: string, piece: string)
    requires Live(c) && Second(c, n, prior, full, piece) && (c.registered ==> c.sendAttempts >= 1)
    ensures Second(Work(c, rounds).0, n, prior, full, piece)
    decreases rounds
  {
    hide RoundStep, Attempt;
    if rounds != [] && c.registered {
      var c' := RoundStep(c, rounds[0]).client;
      RoundProgress(c, rounds[0], n + 1, "", piece);
      AttemptCounts(c', n + 1, "", piece);
      assert c'.wire[n - 1] == c'.wire[..n][n - 1] == c.wire[..n][n - 1] == c.wire[n - 1];
      RegisteredTried(c, rounds[0], n + 1, "", piece);
      SecondWorks(c', rounds[1..], n, prior, full, piece);
    }
  }

  lemma RegisteredTried(c: Client, r: Round, n: nat, prior: string, full: string)
    requires Live(c) && Attempt(c, n, prior, full) && c.registered
    ensures var c' := RoundStep(c, r).client; c'.registered ==> c'.sendAttempts >= c.sendAttempts
  {
    hide Handle, Attempt;
    HandleTried(c, r.env);
  }

  lemma HandleTried(c: Client, env: Env)
    requires Live(c)
    ensures Handle(c, env).client.sendAttempts >= c.sendAttempts
  {
    hide WriteStep, HeaderStep, ResponseStep, Handle, NbWrite;
    HandleIs(c, env);
    if c.state.WriteRequest? {
      WriteEffect(c, env.drain);
    }
    var s1 := if c.state.WriteRequest? then WriteStep(c, env.drain) else Stepped(true, c, "");
    if s1.client.state.ReadHeader? {
      HeaderTried(s1.client, env.header, env.connect);
    }
    var s2 := if s1.client.state.ReadHeader? then HeaderStep(s1.client, env.header, env.connect) else s1;
    if s2.client.state.ReadResponse? {
      ResponseTried(s2.client, env.body);
    }
  }

  lemma HeaderTried(c: Client, a: Arrival, r: Connect)
    ensures HeaderStep(c, a, r).client.sendAttempts >= c.sendAttempts
  {
    hide NbRead, Bytes, MarksOf, CString, ClientLength;
  }

  lemma ResponseTried(c: Client, a: Arrival)
    ensures ResponseStep(c, a).client.sendAttempts == c.sendAttempts
  {
    hide NbRead, Bytes, ToInt32;
  }

  /**
   Byte conservation. On the first connection, what went out and what is still in the buffer
   make up the message. If there was a second one, the first had carried the whole message and
   the second carries the last piece of it, from its start.
   */
  lemma {:induction false} WorkConserves(c: Client, rounds: seq<Round>, n: nat, prior: string, full: string)
    requires Live(c) && Attempt(c, n, prior, full)
    ensures var c' := Work(c, rounds).0;
      Attempt(c', n, prior, full) || Second(c', n, prior, full, LastPiece(c, rounds))
    decreases rounds
  {
    hide RoundStep, Attempt, Second;
    AttemptCounts(c, n, prior, full);
    if rounds != [] && c.registered {
      var c' := RoundStep(c, rounds[0]).client;
      RoundProgress(c, rounds[0], n, prior, full);
      if Continues(c, c', n, prior, full) {
        AttemptCounts(c', n, prior, full);
        WorkConserves(c', rounds[1..], n, prior, full);
      } else {
        SecondBegins(c, c', n, prior, full);
        SecondWorks(c', rounds[1..], n, prior, full, c.request);
      }
    }
  }

  /** The account of a call on the connection it starts with. */
  lemma CallConserves(c: Client, call: Call)
    requires Live(c) && Begin(c, call.message, call.connect).0
    ensures var s := Begin(c, call.message, call.connect).1; var w := Work(s, call.rounds).0;
      var n := |s.wire|; var prior := if c.state.Idle? && !c.eof then c.wire[n - 1] else "";
      && (Attempt(w, n, prior, call.message) || Second(w, n, prior, call.message, LastPiece(s, call.rounds)))
      && (LastPiece(s, call.rounds) == call.message <==> NoPartialWrite(s, call.rounds))
  {
    hide Work, LastPiece, NoPartialWrite, Second, SetupConnection;
    StartsFreshOrIdle(c.(sendAttempts := 0, isFault := false), call.connect);
    var s := Begin(c, call.message, call.connect).1;
    var n := |s.wire|;
    var prior := s.wire[n - 1];
    assert prior[|prior|..] == "" && "" + call.message == call.message && call.message[0..] == call.message;
    WorkConserves(s, call.rounds, n, prior, call.message);
    PieceShrinks(s, call.rounds, n, prior, call.message);
  }

  /** What a call has written on the connection it started with. */
  function WrittenBy(c: Client, s: Client): string {
    var n := |s.wire|;
    if 0 < n <= |c.wire| && |s.wire[n - 1]| <= |c.wire[n - 1]| then c.wire[n - 1][|s.wire[n - 1]|..] else ""
  }

  /** It is always a prefix of the message. */
  lemma WrittenIsPrefix(c: Client, call: Call)
    requires Live(c) && Begin(c, call.message, call.connect).0
    ensures var s := Begin(c, call.message, call.connect).1; WrittenBy(Work(s, call.rounds).0, s) <= call.message
  {
    hide Work, LastPiece, SetupConnection;
    StartsFreshOrIdle(c.(sendAttempts := 0, isFault := false), call.connect);
    var s := Begin(c, call.message, call.connect).1;
    var n := |s.wire|;
    var prior := s.wire[n - 1];
    assert prior[|prior|..] == "" && "" + call.message == call.message && call.message[0..] == call.message;
    WorkConserves(s, call.rounds, n, prior, call.message);
    var w := Work(s, call.rounds).0;
    if Attempt(w, n, prior, call.message) {
      SoFarPrefix(w, n, prior, call.message);
    } else {
      assert (prior + call.message)[|prior|..] == call.message;
    }
  }

  lemma SoFarPrefix(c: Client, n: nat, prior: string, full: string)
    requires Attempt(c, n, prior, full)
    ensures c.wire[n - 1][|prior|..] <= full
  {
    hide IsSuffix;
  }

  /* ---- a retry that sends only a tail ---- */

  const NO_DATA := Arrival([], WouldBlock)

  /** The first byte is taken, then the rest; the server closes without an answer; the retry is taken whole. */
  function TailRounds(m: string): seq<Round>
    requires m != ""
  {
    var all := Drain([|m|], Blocked);
    [Round(true, false, Env(Connected, NO_DATA, NO_DATA, Drain([1], Blocked))),
     Round(true, false, Env(Connected, Arrival([], Eof), NO_DATA, all)),
     Round(true, false, Env(Connected, NO_DATA, NO_DATA, all))]
  }

  /** A client as it is constructed. */
  const NEW_CLIENT := Client(NoConnection, "", "", "", 0, 0, false, false, 0, true, false, false, [])

  lemma OneTaken(n: nat)
    ensures n >= 2 ==> Taken([1], n) == 1
    ensures forall k: Count :: k >= n ==> Taken([k], n) == n
  {
    assert [1][1..] == [];
  }

  /** A round in which the client only writes, and not to the end. */
  lemma PartRound(c: Client, r: Round)
    requires Live(c) && c.state.WriteRequest? && c.registered && c.wire != [] && 2 <= |c.request| <= INT_MAX
    requires r == Round(true, false, Env(Connected, NO_DATA, NO_DATA, Drain([1], Blocked)))
    ensures RoundStep(c, r).client == c.(request := c.request[1..], wire := Wrote(c.wire, c.request[..1]))
  {
    hide HeaderStep, ResponseStep;
    OneTaken(|c.request|);
    assert c.request[0..1] == c.request[..1];
  }

  lemma WholeWritten(c: Client, d: Drain)
    requires c.state.WriteRequest? && c.bytesWritten == 0 && |c.request| <= INT_MAX
    requires Taken(d.accepts, |c.request|) == |c.request|
    ensures WriteStep(c, d) == Stepped(true,
      c.(bytesWritten := |c.request|, wire := Wrote(c.wire, c.request),
         header := "", response := "", state := ReadHeader), "")
  {
    hide Taken;
    assert c.request[0..|c.request|] == c.request;
  }

  /** The rest is written, and the connection is found closed. */
  lemma ClosedRound(c: Client, r: Round)
    requires Live(c) && c.state.WriteRequest? && c.registered && c.keepOpen && c.sendAttempts == 0
    requires |c.request| <= INT_MAX
    requires r.signalled && !r.exception && r.env.connect.Connected? && r.env.header == Arrival([], Eof)
    requires Taken(r.env.drain.accepts, |c.request|) == |c.request|
    ensures RoundStep(c, r).client == c.(
      wire := Wrote(c.wire, c.request) + [""], header := "", response := "",
      sendAttempts := 1, eof := false, open := true)
  {
    hide WriteStep, ResponseStep, MarksOf, Taken;
    WholeWritten(c, r.env.drain);
    var c1 := WriteStep(c, r.env.drain).client;
    HandleIs(c, r.env);
    assert HeaderStep(c1, r.env.header, r.env.connect).alive;
  }

  lemma LastRound(c: Client, r: Round)
    requires Live(c) && c.state.WriteRequest? && c.registered && |c.request| <= INT_MAX
    requires r.signalled && !r.exception && r.env.header == NO_DATA
    requires Taken(r.env.drain.accepts, |c.request|) == |c.request|
    ensures RoundStep(c, r).client.wire == Wrote(c.wire, c.request)
  {
    hide WriteStep, ResponseStep, Taken;
    WholeWritten(c, r.env.drain);
    assert MarksOf("").bp.Npos?;
    HandleIs(c, r.env);
  }

  lemma ThreeRounds(c0: Client, rs: seq<Round>)
    requires Live(c0) && |rs| == 3 && c0.registered && RoundStep(c0, rs[0]).client.registered
    requires RoundStep(RoundStep(c0, rs[0]).client, rs[1]).client.registered
    ensures Work(c0, rs).0 == RoundStep(RoundStep(RoundStep(c0, rs[0]).client, rs[1]).client, rs[2]).client
  {
    hide RoundStep, Work, Live;
    var c1 := RoundStep(c0, rs[0]).client;
    var c2 := RoundStep(c1, rs[1]).client;
    WorkIs(c0, rs);
    WorkIs(c1, rs[1..]);
    WorkIs(c2, rs[1..][1..]);
    WorkIs(RoundStep(c2, rs[2]).client, rs[1..][1..][1..]);
  }

  lemma TwoWires(m: string)
    requires |m| >= 2
    ensures Wrote([""], m[..1]) == [m[..1]] && Wrote([m[..1]], m[1..]) == [m] && Wrote([m, ""], m[1..]) == [m, m[1..]]
    ensures [m] + [""] == [m, ""]
  {
    assert m[..1] + m[1..] == m && "" + m[..1] == m[..1] && "" + m[1..] == m[1..];
    assert [m, ""][..1] == [m];
  }

  /** For every message of two bytes or more: the second connection carries all but its first byte. */
  lemma TailOnly(m: string)
    requires 2 <= |m| <= INT_MAX
    ensures Begin(NEW_CLIENT, m, Connected).0
    ensures Work(Begin(NEW_CLIENT, m, Connected).1, TailRounds(m)).0.wire == [m, m[1..]]
  {
    hide RoundStep, Work, Taken, Wrote;
    var c0 := Begin(NEW_CLIENT, m, Connected).1;
    var rs := TailRounds(m);
    OneTaken(|m|);
    OneTaken(|m| - 1);
    TwoWires(m);
    assert c0.wire == [""] && c0.request == m;
    PartRound(c0, rs[0]);
    var c1 := RoundStep(c0, rs[0]).client;
    assert c1.wire == [m[..1]] && c1.request == m[1..];
    ClosedRound(c1, rs[1]);
    var c2 := RoundStep(c1, rs[1]).client;
    assert c2.wire == [m, ""] && c2.request == m[1..];
    LastRound(c2, rs[2]);
    ThreeRounds(c0, rs);
  }

  /** A call makes at most one connection more than the one it starts with, and none after a first failure to retry. */
  lemma AtMostOneRetry(c: Client, call: Call)
    requires Live(c)
    ensures var e := Execute(c, call.message, call.connect, call.rounds).1;
      && |e.wire| <= |Begin(c, call.message, call.connect).1.wire| + 1
      && |Begin(c, call.message, call.connect).1.wire| <= |c.wire| + 1
  {
    hide Work, LastPiece, SetupConnection, ParseResponse, NoPartialWrite;
    BeginWire(c, call);
    var s := Begin(c, call.message, call.connect);
    if s.0 {
      CallConserves(c, call);
      FinishWire(Work(s.1, call.rounds).0);
    }
  }

  lemma BeginWire(c: Client, call: Call)
    requires Live(c)
    ensures |Begin(c, call.message, call.connect).1.wire| <= |c.wire| + 1
  {
  }

  lemma FinishWire(c: Client)
    ensures Finish(c).1.wire == c.wire
  {
    hide ParseResponse, FindTag;
  }

  /* ---- framing of the response ---- */

  /** No error, no end of file, no exception, and the socket is never broken. */
  predicate Quiet(r: Round) {
    && !r.exception && r.env.header.end.WouldBlock? && r.env.body.end.WouldBlock? && r.env.drain.end.Blocked?
  }

  /** The client as a function of the n bytes it has received of m. */
  predicate Reading(c: Client, m: string, b: nat, n: nat) {
    && b < |m| && n < |m| && c.registered && c.keepOpen
    && ((n == 0 && c.state.WriteRequest? && |c.request| <= INT_MAX)
        || (n <= b && c.state.ReadHeader? && c.header == m[..n])
        || (b < n && c.state.ReadResponse? && c.response == m[b..n] && c.contentLength == |m| - b && !c.eof))
  }

  predicate Done(c: Client, m: string, b: nat) {
    b < |m| && c.state.Idle? && !c.eof && c.response == m[b..]
  }

  predicate Advances(c: Client, m: string, b: nat, n: nat) {
    (n < |m| ==> Reading(c, m, b, n)) && (n == |m| ==> Done(c, m, b))
  }

  lemma LengthFramed(h: string, b: nat, len: nat)
    requires Framed(h, b, len)
    ensures ClientLength(h) == len && MarksOf(h).bp == Pos(b) && MarksOf(h).lp.Pos?
  {
    hide LongAt, ScanFrom;
    ToInt32Same(len);
  }

  lemma HeaderArrives(c: Client, a: Arrival, r: Connect, m: string, b: nat, n: nat, n': nat)
    requires Message(m, b) && n <= b && c.state.ReadHeader? && c.header == m[..n] && a.end.WouldBlock?
    requires n' == n + |Bytes(a)| <= |m| && Bytes(a) == m[n..n']
    ensures n' <= b ==> HeaderStep(c, a, r) == Stepped(true, c.(header := m[..n'], eof := false), Bytes(a))
    ensures b < n' ==>
      HeaderStep(c, a, r) ==
      Stepped(
        true, c.(state := ReadResponse, contentLength := |m| - b, header := "", eof := false, response := m[b..n']),
        Bytes(a))
  {
    hide Framed, MarksOf, ClientLength, CString, Bytes, RetryStep;
    var h := m[..n'];
    assert m[..n] + m[n..n'] == h;
    FramedPrefix(m, b, |m| - b, n');
    if b < n' {
      LengthFramed(h, b, |m| - b);
      assert h[b..] == m[b..n'];
      CStringSame(m[b..n']);
    }
  }

  /** The response as far as it has come; when it is complete the client is idle. */
  lemma ResponseArrives(c: Client, a: Arrival, m: string, b: nat, n: nat)
    requires Message(m, b) && b < n <= |m| && a.end.WouldBlock? && !c.eof
    requires c.state.ReadResponse? && c.response == m[b..n] && c.contentLength == |m| - b
    ensures n == |m| ==> ResponseStep(c, a) == Stepped(false, c.(state := Idle), "")
    ensures var n' := n + |Bytes(a)|; n < |m| && n' <= |m| && Bytes(a) == m[n..n'] ==>
      ResponseStep(c, a) ==
      Stepped(n' < |m|, c.(response := m[b..n'], state := if n' < |m| then ReadResponse else Idle), Bytes(a))
  {
    hide Framed, Bytes, ToInt32;
    ToInt32Same(n - b);
    var n' := n + |Bytes(a)|;
    if n < |m| && n' <= |m| && Bytes(a) == m[n..n'] {
      assert m[b..n] + m[n..n'] == m[b..n'];
      assert "" + Bytes(a) == Bytes(a);
      ToInt32Same(n' - b);
    }
  }

  lemma ResponseGot(c: Client, a: Arrival)
    requires ToInt32(|c.response|) < c.contentLength
    ensures ResponseStep(c, a).got == Bytes(a)
  {
    hide Bytes, ToInt32;
  }

  /** From the response state to the end of the event. */
  lemma BodyStep(c: Client, a: Arrival, m: string, b: nat, n: nat)
    requires Message(m, b) && b < n <= |m| && a.end.WouldBlock? && !c.eof && c.registered && c.keepOpen
    requires c.state.ReadResponse? && c.response == m[b..n] && c.contentLength == |m| - b
    requires var t := ResponseStep(c, a); n + |t.got| <= |m| && t.got == m[n..n + |t.got|]
    ensures var t := ResponseStep(c, a); var n' := n + |t.got|;
      && (t.alive <==> n' < |m|) && t.client.registered && t.client.keepOpen && t.client.wire == c.wire
      && Advances(t.client, m, b, n')
  {
    hide Framed, Bytes, ResponseStep, ToInt32;
    ToInt32Same(n - b);
    if n < |m| {
      ResponseGot(c, a);
    }
    ResponseArrives(c, a, m, b, n);
    assert m[b..|m|] == m[b..];
  }

  /** An event in which the client is past writing. */
  lemma HeaderFirst(c: Client, env: Env, m: string, b: nat, n: nat, got: string, s2: Stepped)
    requires Message(m, b) && n <= b && c.registered && c.keepOpen && c.state.ReadHeader? && c.header == m[..n]
    requires env.header.end.WouldBlock? && env.body.end.WouldBlock? && s2 == HeaderStep(c, env.header, env.connect)
    requires got == s2.got + if s2.client.state.ReadResponse? then ResponseStep(s2.client, env.body).got else ""
    requires n + |got| <= |m| && got == m[n..n + |got|]
    ensures s2.alive
    ensures var t := ResponseStep(s2.client, env.body);
      s2.client.state.ReadResponse? ==> (
        && (t.alive <==> n + |got| < |m|) && t.client.registered && t.client.keepOpen && t.client.wire == c.wire
        && Advances(t.client, m, b, n + |got|))
    ensures s2.client.wire == c.wire
    ensures !s2.client.state.ReadResponse? ==> n + |got| < |m| && Reading(s2.client, m, b, n + |got|)
  {
    hide Framed, HeaderStep, ResponseStep, Bytes, Advances;
    var y := if s2.client.state.ReadResponse? then ResponseStep(s2.client, env.body).got else "";
    Slices(m, n, s2.got, y);
    HeaderGot(c, env.header, env.connect);
    var n' := n + |s2.got|;
    HeaderArrives(c, env.header, env.connect, m, b, n, n');
    if b < n' {
      BodyStep(s2.client, env.body, m, b, n');
    }
  }

  lemma HeaderGot(c: Client, a: Arrival, r: Connect)
    ensures HeaderStep(c, a, r).got == Bytes(a)
  {
    hide NbRead, Bytes, RetryStep, FrameStep;
  }

  lemma WriteQuiet(c: Client, d: Drain)
    requires c.state.WriteRequest? && c.bytesWritten == 0 && |c.request| <= INT_MAX && d.end.Blocked?
    ensures var s := WriteStep(c, d);
      && s.alive && s.got == "" && s.client.registered == c.registered && s.client.keepOpen == c.keepOpen
      && |s.client.wire| == |c.wire|
      && ((s.client.state.ReadHeader? && s.client.header == "")
          || (s.client.state.WriteRequest? && |s.client.request| <= INT_MAX))
  {
    hide Taken;
  }

  lemma HandleGot(c: Client, env: Env)
    requires Live(c) && (c.state.WriteRequest? ==> WriteStep(c, env.drain).alive && WriteStep(c, env.drain).got == "")
    ensures var s1 := if c.state.WriteRequest? then WriteStep(c, env.drain) else Stepped(true, c, "");
      var s2 := if s1.client.state.ReadHeader? then HeaderStep(s1.client, env.header, env.connect) else s1;
      Handle(c, env).got ==
      s2.got + if s2.alive && s2.client.state.ReadResponse? then ResponseStep(s2.client, env.body).got else ""
  {
    hide WriteStep, HeaderStep, ResponseStep, Handle;
    HandleIs(c, env);
  }

  lemma FrameAlive(c: Client, a: Arrival, r: Connect)
    requires c.state.ReadHeader? && HeaderStep(c, a, r).client.state.ReadResponse?
    ensures HeaderStep(c, a, r).alive
  {
    hide NbRead, Bytes, MarksOf, CString, ClientLength;
  }

  /** Every quiet event leaves the state that the received prefix determines. */
  lemma ReadingHandle(c: Client, env: Env, m: string, b: nat, n: nat)
    requires Message(m, b) && Live(c) && Reading(c, m, b, n)
    requires env.header.end.WouldBlock? && env.body.end.WouldBlock? && env.drain.end.Blocked?
    requires var s := Handle(c, env); n + |s.got| <= |m| && s.got == m[n..n + |s.got|]
    ensures var s := Handle(c, env); var n' := n + |s.got|;
      && (s.alive <==> n' < |m|) && s.client.registered && s.client.keepOpen && |s.client.wire| == |c.wire|
      && Advances(s.client, m, b, n')
  {
    hide Message, HeaderStep, ResponseStep, WriteStep, Handle, Advances, Bytes;
    HandleIs(c, env);
    if c.state.WriteRequest? {
      WriteQuiet(c, env.drain);
    }
    HandleGot(c, env);
    var s1 := if c.state.WriteRequest? then WriteStep(c, env.drain) else Stepped(true, c, "");
    if s1.client.state.ReadHeader? {
      var s2 := HeaderStep(s1.client, env.header, env.connect);
      if s2.client.state.ReadResponse? {
        FrameAlive(s1.client, env.header, env.connect);
      }
      HeaderFirst(s1.client, env, m, b, n, Handle(c, env).got, s2);
      if !s2.client.state.ReadResponse? {
        AdvancesReading(s2.client, m, b, n + |s2.got|);
      }
    } else if c.state.ReadResponse? {
      BodyStep(c, env.body, m, b, n);
    } else {
      AdvancesReading(s1.client, m, b, n);
    }
  }

  lemma AdvancesReading(c: Client, m: string, b: nat, n: nat)
    requires Reading(c, m, b, n)
    ensures Advances(c, m, b, n)
  {
  }

  lemma ReadingRound(c: Client, r: Round, m: string, b: nat, n: nat)
    requires Message(m, b) && Live(c) && Reading(c, m, b, n) && Quiet(r)
    requires var s := RoundStep(c, r); n + |s.got| <= |m| && s.got == m[n..n + |s.got|]
    ensures var c' := RoundStep(c, r).client; var n' := n + |RoundStep(c, r).got|;
      Advances(c', m, b, n') && (n' == |m| ==> !c'.registered) && |c'.wire| == |c.wire|
  {
    hide Message, Handle;
    if r.signalled {
      ReadingHandle(c, r.env, m, b, n);
    }
  }

  /** However the response is split over reads and events, the client comes to rest holding exactly its body. */
  lemma {:induction false} ResponseRun(c: Client, rounds: seq<Round>, m: string, b: nat, n: nat)
    requires Message(m, b) && Live(c) && Reading(c, m, b, n) && forall r :: r in rounds ==> Quiet(r)
    requires var t := Work(c, rounds); n + |t.1| <= |m| && t.1 == m[n..n + |t.1|]
    ensures Advances(Work(c, rounds).0, m, b, n + |Work(c, rounds).1|) && |Work(c, rounds).0.wire| == |c.wire|
    decreases rounds
  {
    hide RoundStep, Quiet, Message, Advances, Work;
    WorkIs(c, rounds);
    if rounds == [] || !c.registered {
      AdvancesReading(c, m, b, n);
    } else {
      var s := RoundStep(c, rounds[0]);
      var rest := Work(s.client, rounds[1..]).1;
      Slices(m, n, s.got, rest);
      var n' := n + |s.got|;
      ReadingRound(c, rounds[0], m, b, n);
      WorkIs(s.client, rounds[1..]);
      if n' < |m| {
        AdvancesIs(s.client, m, b, n');
        ResponseRun(s.client, rounds[1..], m, b, n');
      }
    }
  }

  lemma AdvancesIs(c: Client, m: string, b: nat, n: nat)
    requires Advances(c, m, b, n) && n < |m|
    ensures Reading(c, m, b, n)
  {
  }

  /** A call over quiet rounds that receives a whole response succeeds exactly when its body parses. */
  lemma CallReads(c: Client, call: Call, m: string, b: nat)
    requires Live(c) && c.keepOpen && Message(m, b) && |call.message| <= INT_MAX
    requires forall r :: r in call.rounds ==> Quiet(r)
    requires Begin(c, call.message, call.connect).0 && Work(Begin(c, call.message, call.connect).1, call.rounds).1 == m
    ensures b < |m|
    ensures var e := Execute(c, call.message, call.connect, call.rounds); var reply := ParseResponse(m[b..]);
      e.0 == reply.ok && e.2 == reply.value && e.1.isFault == reply.isFault && e.1.state.Idle?
    ensures var s := Begin(c, call.message, call.connect).1; var w := Work(s, call.rounds).0;
      |s.wire| == |w.wire| > 0 && w.wire[|s.wire| - 1] == s.wire[|s.wire| - 1] + call.message
  {
    hide Framed, Work, ParseResponse, SetupConnection, Quiet, FindTag;
    var s := Begin(c, call.message, call.connect).1;
    StartsFreshOrIdle(c.(sendAttempts := 0, isFault := false), call.connect);
    SetupKeepsOpen(c.(sendAttempts := 0, isFault := false), call.connect);
    assert m[0..0 + |m|] == m;
    ResponseRun(s, call.rounds, m, b, 0);
    var n, prior := |s.wire|, s.wire[|s.wire| - 1];
    assert prior[|prior|..] == "" && "" + call.message == call.message && call.message[0..] == call.message;
    WorkConserves(s, call.rounds, n, prior, call.message);
    var w := Work(s, call.rounds).0;
    SentWhole(w, n, prior, call.message);
  }

  lemma SetupKeepsOpen(c: Client, r: Connect)
    ensures SetupConnection(c, r).1.keepOpen == c.keepOpen
  {
  }

  lemma SentWhole(c: Client, n: nat, prior: string, full: string)
    requires Attempt(c, n, prior, full) && c.state.Idle?
    ensures c.wire[n - 1] == prior + full
  {
    hide IsSuffix;
    assert prior + c.wire[n - 1][|prior|..] == c.wire[n - 1];
  }
}
