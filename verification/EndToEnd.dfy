/** A call from the client's parameters to the client's result, through both state machines. */
module EndToEnd {
  import opened DecimalText
  import opened TextSearch
  import opened XmlText
  import opened XmlValue
  import opened XmlRoundTrip
  import opened RpcCall
  import opened HttpFrame
  import S = ServerConnection
  import SR = ServerRuns
  import K = KeptAlive
  import O = KeptOption
  import C = ClientConnection
  import CR = ClientRuns

  predicate NulFree(s: string) {
    forall i :: 0 <= i < |s| ==> s[i] != '\0'
  }

  /** Where a method is called, and with what. */
  datatype Target = Target(host: string, port: int, uri: string, name: string, params: Value)

  function Body(t: Target): string {
    RequestBody(t.name, t.params)
  }

  function Sent(t: Target): string {
    PostMessage(t.host, t.port, t.uri, Body(t))
  }

  /**
   A call that XML-RPC can carry: no line feed in host and uri, a name without its own end tag,
   sendable parameters.
   */
  predicate Callable(t: Target) {
    && NoLineFeed(t.host) && NoLineFeed(t.uri) && t.name != "" && Find(t.name, METHODNAME_ETAG, 0).Npos?
    && (t.params.Invalid? || forall v :: v in ArgumentList(t.params) ==> Sendable(v))
    && |Sent(t)| <= INT_MAX && NulFree(Body(t))
  }

  /** What the named method comes to on the parameters the server receives. */
  function OutcomeOf(t: Target, methods: Methods): Outcome {
    methods(t.name, Received(t.params))
  }

  /** The server's answer to the call. */
  function Answered(t: Target, methods: Methods): (Value, bool) {
    Answer(t.name, OutcomeOf(t, methods))
  }

  /** What the call returned: whether it succeeded, the value, and the fault flag. */
  function Returned(e: (bool, C.Client, Value)): Reply {
    Reply(e.0, e.2, e.1.isFault)
  }

  predicate Answerable(t: Target, methods: Methods) {
    var body := AnswerBody(Answered(t, methods));
    OutcomePrintable(OutcomeOf(t, methods)) && |OkMessage(body)| <= INT_MAX && NulFree(body)
  }

  lemma SentIsMessage(t: Target)
    requires Callable(t)
    ensures |Body(t)| < |Sent(t)| && Sent(t)[|Sent(t)| - |Body(t)|..] == Body(t)
    ensures Message(Sent(t), |Sent(t)| - |Body(t)|)
  {
    hide Framed, RequestBody, Sendable, Find;
    BodyNotEmpty(t);
    PostFramed(t.host, t.port, t.uri, Body(t));
    MessageBody(Sent(t), Body(t));
  }

  lemma BodyNotEmpty(t: Target)
    ensures Body(t) != "" && |Sent(t)| > |Body(t)|
  {
    hide ArgumentsToXml, PostLines;
    assert |PROLOG| > 0 && |HEADER_END| > 0;
  }

  lemma MessageBody(m: string, body: string)
    requires |m| >= |body| && m[|m| - |body|..] == body && NulFree(body) && body != "" && |m| <= INT_MAX
    requires Framed(m, |m| - |body|, |body|)
    ensures Message(m, |m| - |body|)
  {
    hide Framed;
    var b := |m| - |body|;
    forall i | b <= i < |m| ensures m[i] != '\0' {
      assert m[i] == body[i - b];
    }
  }

  lemma AnswerIsMessage(t: Target, methods: Methods)
    requires Answerable(t, methods)
    ensures var body := AnswerBody(Answered(t, methods)); var m := OkMessage(body);
      |body| < |m| && m[|m| - |body|..] == body && Message(m, |m| - |body|)
  {
    hide Framed, OutcomePrintable;
    var a := Answered(t, methods);
    AnswerNotEmpty(a);
    var body := AnswerBody(a);
    OkLonger(body);
    hide AnswerBody, OkMessage;
    OkFramed(body);
    MessageBody(OkMessage(body), body);
  }

  lemma OkLonger(body: string)
    ensures |OkMessage(body)| > |body|
  {
    assert |HEADER_END| > 0;
  }

  lemma AnswerNotEmpty(a: (Value, bool))
    ensures AnswerBody(a) != ""
  {
    hide ToXml;
    assert |PROLOG| > 0;
  }

  /** What the server writes for the request it has read. */
  lemma ServerAnswers(t: Target, methods: Methods)
    requires Callable(t) && Answerable(t, methods)
    ensures S.Respond(methods, Body(t)) == OkMessage(AnswerBody(Answered(t, methods)))
  {
    hide RequestBody, ParseRequest, Find, Sendable, OutcomePrintable, AnswerBody, OkMessage;
    BodyNotEmpty(t);
    RequestTrip(t.name, t.params);
  }

  /**
   The server's side. However the request arrives in quiet events, it is executed exactly once,
   with the client's method name and parameters, and the bytes sent and still pending are the
   response to it.
   */
  lemma ServerServes(t: Target, methods: Methods, c: S.Conn, evs: seq<S.Event>)
    requires Callable(t) && Answerable(t, methods) && S.Live(c) && SR.Waiting(c) && SR.AllQuiet(evs)
    requires SR.Run(c, evs, methods).got == Sent(t)
    ensures SR.Run(c, evs, methods).executed == [Body(t)]
    ensures ParseRequest(Body(t)) == Request(t.name, Received(t.params))
    ensures var r := SR.Run(c, evs, methods); var response := OkMessage(AnswerBody(Answered(t, methods)));
      r.sent + SR.Pending(r.conn) == response
  {
    hide Callable, Answerable, SR.Run, SR.AllQuiet, ParseRequest, AnswerBody, OkMessage, S.Respond, Body, Sent, Stream;
    SentIsMessage(t);
    var m := Sent(t);
    var b := |m| - |Body(t)|;
    SR.WaitingReads(c, m, b, |m|);
    assert m[0..0 + |m|] == m;
    SR.MessageRun(c, evs, methods, m, b, 0);
    RequestRead(t);
    ServerAnswers(t, methods);
    SR.RunConserves(c, evs, methods);
    SR.OneResponse(Body(t), methods);
    NothingPending(c);
  }

  lemma NothingPending(c: S.Conn)
    requires SR.Waiting(c)
    ensures SR.Pending(c) == "" && forall s: string :: "" + s == s
  {
    forall s: string ensures "" + s == s {
    }
  }

  lemma RequestRead(t: Target)
    requires Callable(t)
    ensures ParseRequest(Body(t)) == Request(t.name, Received(t.params))
  {
    hide RequestBody, ParseRequest, Find, Sendable;
    BodyNotEmpty(t);
    RequestTrip(t.name, t.params);
  }

  /**
   The client's side. Over any quiet rounds in which it receives the server's response, the call
   sends its request once and in full and tells the caller the method's outcome.
   */
  lemma ClientReturns(t: Target, methods: Methods, c: C.Client, connect: C.Connect, rounds: seq<C.Round>)
    requires Callable(t) && Answerable(t, methods) && C.Live(c) && c.keepOpen && forall r :: r in rounds ==> CR.Quiet(r)
    requires C.Begin(c, Sent(t), connect).0
    requires C.Work(C.Begin(c, Sent(t), connect).1, rounds).1 == OkMessage(AnswerBody(Answered(t, methods)))
    ensures Tells(Returned(C.Execute(c, Sent(t), connect, rounds)), t.name, OutcomeOf(t, methods))
    ensures var s := C.Begin(c, Sent(t), connect).1; var w := C.Work(s, rounds).0;
      |s.wire| == |w.wire| > 0 && w.wire[|s.wire| - 1] == s.wire[|s.wire| - 1] + Sent(t)
  {
    hide C.Work, C.Begin, C.Execute, CR.Quiet, AnswerBody, OkMessage, Body, Stream, Renamed, RequestBody;
    hide ParseResponse, PostMessage, Tells;
    var body := AnswerBody(Answered(t, methods));
    var m := OkMessage(body);
    AnswerIsMessage(t, methods);
    CR.CallReads(c, CR.Call(Sent(t), connect, rounds), m, |m| - |body|);
    AnswerTrip(t.name, OutcomeOf(t, methods));
  }

  /** The server's response to the call can be sent. */
  lemma ResponseDeliverable(t: Target, methods: Methods)
    requires Callable(t) && Answerable(t, methods)
    ensures K.Deliverable(S.Respond(methods, Body(t)))
  {
    hide Callable, OutcomePrintable, AnswerBody, OkMessage, S.Respond, Body;
    ServerAnswers(t, methods);
    OkNotEmpty(AnswerBody(Answered(t, methods)));
  }

  lemma OkNotEmpty(body: string)
    ensures OkMessage(body) != ""
  {
    OkLonger(body);
  }

  /**
   A server that receives a generated request that nowhere mentions HTTP/1.0, in any smooth events,
   stays alive, and never loses a byte of the response, exactly if no connection option in its
   header, which only host and uri could put there, closes it. Without blanks in these, none does.
   */
  lemma RequestKeptIff(t: Target, methods: Methods, c: S.Conn, evs: seq<S.Event>)
    requires Callable(t) && Answerable(t, methods) && !O.Mentions(Sent(t), "HTTP/1.0")
    requires S.Live(c) && SR.Waiting(c) && K.AllSmooth(evs) && SR.Run(c, evs, methods).got == Sent(t)
    ensures var b := |Sent(t)| - |Body(t)|;
      && b >= 0 && (SR.Run(c, evs, methods).alive <==> !O.OptionStarts(Sent(t), b, "close"))
      && (K.NeverLoses(c, methods, Sent(t), b) <==> !O.OptionStarts(Sent(t), b, "close"))
      && (O.NoBlank(t.host) && O.NoBlank(t.uri) ==> !O.OptionStarts(Sent(t), b, "close"))
  {
    hide Callable, Answerable, SR.Run, K.AllSmooth, K.NeverLoses, S.Respond, Body, Sent, Stream, O.Mentions;
    hide O.OptionStarts, O.NoBlank, K.Deliverable;
    SentIsMessage(t);
    ResponseDeliverable(t, methods);
    var m := Sent(t);
    var b := |m| - |Body(t)|;
    O.LivesByOption(c, evs, methods, m, b);
    O.DeliveredByOption(c, methods, m, b);
    if O.NoBlank(t.host) && O.NoBlank(t.uri) {
      NoBlankNotClosed(t);
    }
  }

  lemma NoBlankNotClosed(t: Target)
    requires Callable(t) && O.NoBlank(t.host) && O.NoBlank(t.uri)
    ensures |Body(t)| < |Sent(t)| && !O.OptionStarts(Sent(t), |Sent(t)| - |Body(t)|, "close")
  {
    hide Callable, RequestBody, O.OptionStarts, O.NoBlank, PostLines, O.Guarded, WithLength, Body;
    SentIsMessage(t);
    var m, b := Sent(t), |Sent(t)| - |Body(t)|;
    O.PostGuarded(t.host, t.port, t.uri, |Body(t)|);
    assert m[..b] == WithLength(PostLines(t.host, t.port, t.uri), Decimal(|Body(t)|));
    MessageBodyAt(m, b);
    O.GuardedNotClosed(m, b);
  }

  lemma MessageBodyAt(m: string, b: nat)
    requires Message(m, b)
    ensures MarksOf(m).bp == Pos(b)
  {
    hide MarksOf;
  }

  /** A uri that closes the connection of its own request. */
  lemma ClosingUri(name: string, params: Value)
    ensures var t := Target("localhost", 80, O.CLOSING_URI, name, params);
      |Body(t)| < |Sent(t)| && O.OptionStarts(Sent(t), |Sent(t)| - |Body(t)|, "close")
  {
    hide RequestBody, O.OptionStarts, PostMessage, O.Free;
    var t := Target("localhost", 80, O.CLOSING_URI, name, params);
    BodyNotEmpty(t);
    HostFree();
    O.UriCloses("localhost", 80, Body(t));
  }

  lemma HostFree()
    ensures O.Free("localhost")
  {
  }

  /** A server that has received only part of the request has executed nothing. */
  lemma PartExecutesNothing(t: Target, methods: Methods, c: S.Conn, evs: seq<S.Event>)
    requires Callable(t) && S.Live(c) && SR.Waiting(c) && SR.AllQuiet(evs)
    requires SR.Run(c, evs, methods).got <= Sent(t) && SR.Run(c, evs, methods).executed != []
    ensures SR.Run(c, evs, methods).got == Sent(t)
  {
    hide Callable, SR.Run, SR.AllQuiet, Body, Sent, Stream;
    SentIsMessage(t);
    var m := Sent(t);
    var b := |m| - |Body(t)|;
    var got := SR.Run(c, evs, methods).got;
    SR.WaitingReads(c, m, b, |m|);
    assert got == m[..|got|] == m[0..0 + |got|];
    SR.MessageRun(c, evs, methods, m, b, 0);
  }

  /**
   The two machines together. The server receives what the client writes, the client receives
   what the server sends, both in any pieces; the server has executed something and has nothing
   more to send. Then it has executed this call, once, and the client's call tells the caller the
   method's outcome.
   */
  lemma CallThrough(t: Target, methods: Methods, server: S.Conn, evs: seq<S.Event>,
                    client: C.Client, connect: C.Connect, rounds: seq<C.Round>)
    requires Callable(t) && Answerable(t, methods)
    requires S.Live(server) && SR.Waiting(server) && SR.AllQuiet(evs)
    requires C.Live(client) && client.keepOpen && forall r :: r in rounds ==> CR.Quiet(r)
    requires C.Begin(client, Sent(t), connect).0
    requires var run := SR.Run(server, evs, methods);
      var start := C.Begin(client, Sent(t), connect).1;
      var work := C.Work(start, rounds);
      && run.got == CR.WrittenBy(work.0, start) && work.1 == run.sent
      && run.executed != [] && SR.Pending(run.conn) == ""
    ensures SR.Run(server, evs, methods).executed == [Body(t)]
    ensures Tells(Returned(C.Execute(client, Sent(t), connect, rounds)), t.name, OutcomeOf(t, methods))
  {
    hide Callable, Answerable, SR.Run, SR.AllQuiet, CR.Quiet, C.Begin, C.Work, C.Execute;
    hide CR.WrittenBy, AnswerBody, OkMessage, Body, Sent, Answered, Tells, OutcomeOf, SR.Pending;
    CR.WrittenIsPrefix(client, CR.Call(Sent(t), connect, rounds));
    PartExecutesNothing(t, methods, server, evs);
    ServerServes(t, methods, server, evs);
    var run := SR.Run(server, evs, methods);
    assert run.sent + "" == run.sent;
    ClientReturns(t, methods, client, connect, rounds);
  }
}
