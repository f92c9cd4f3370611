/** RobotRpcClient: one call at a time over a connection that may be reused and is retried once. */
module ClientConnection {
  import opened TextSearch
  import opened XmlText
  import opened XmlNumbers
  import opened XmlValue
  import opened RpcCall
  import opened HttpFrame
  import opened SocketIo

  datatype State = NoConnection | WriteRequest | ReadHeader | ReadResponse | Idle

  /** What doConnect meets: success, no socket to be had, or a refusal after the socket was made. */
  datatype Connect = Connected | NoSocket | Refused

  /**
   The client's fields. `wire` records what went out on each connection made so far, newest last;
   `registered` says whether the dispatcher watches the client.
   */
  datatype Client = Client(
    state: State, request: string, header: string, response: string, bytesWritten: nat, sendAttempts: nat,
    eof: bool, isFault: bool, contentLength: int, keepOpen: bool, open: bool, registered: bool, wire: seq<string>)

  /** What the socket does during one event. */
  datatype Env = Env(connect: Connect, header: Arrival, body: Arrival, drain: Drain)

  /** Whether the handler asks to go on, the new fields, and what was read. */
  datatype Stepped = Stepped(alive: bool, client: Client, got: string)

  function Close(c: Client): Client {
    c.(state := NoConnection, registered := false, open := false)
  }

  /** More bytes on the newest connection. */
  function Wrote(wire: seq<string>, sent: string): seq<string> {
    if wire == [] then wire else wire[..|wire| - 1] + [wire[|wire| - 1] + sent]
  }

  /* ---- connecting ---- */

  function NewConnection(c: Client, r: Connect): (bool, Client) {
    match r
    case NoSocket => (false, c)
    case Refused => (false, Close(c))
    case Connected => (true, c.(open := true, wire := c.wire + [""]))
  }

  /** A connection that failed, or that the server closed, is not used again. */
  function Reset(c: Client): Client {
    (if (!c.state.NoConnection? && !c.state.Idle?) || c.eof then Close(c) else c).(eof := false)
  }

  function SetupConnection(c: Client, r: Connect): (s: (bool, Client)) {
    var c1 := Reset(c);
    var s := if c1.state.NoConnection? then NewConnection(c1, r) else (true, c1);
    (s.0, if s.0 then s.1.(state := WriteRequest, bytesWritten := 0, registered := true) else s.1)
  }

  /* ---- the event handler ---- */

  /** What was written is dropped from the request when it was not all of it. */
  function WriteStep(c: Client, d: Drain): Stepped
    requires c.bytesWritten <= |c.request|
  {
    var w := NbWrite(c.request, c.bytesWritten, d);
    var c1 := c.(bytesWritten := w.bytesSoFar, wire := Wrote(c.wire, w.sent));
    if !w.ok then Stepped(false, Close(c1), "")
    else if w.bytesSoFar == |c.request| then Stepped(true, c1.(header := "", response := "", state := ReadHeader), "")
    else Stepped(true, c1.(request := c.request[w.bytesSoFar..], bytesWritten := 0), "")
  }

  /** Nothing was read: try once more on a new connection, or give up. */
  function RetryStep(c: Client, r: Connect): (bool, Client) {
    if c.keepOpen && c.header == "" then
      if c.sendAttempts == 0 then
        SetupConnection(c.(sendAttempts := 1, open := false, state := NoConnection, eof := false), r)
      else (false, Close(c.(sendAttempts := c.sendAttempts + 1)))
    else (false, Close(c))
  }

  /** atoi on the length field of a complete header; 0 if there is none. */
  function ClientLength(h: string): (n: int)
    ensures INT32_MIN <= n <= INT32_MAX
  {
    ScanInside(h, 0, Npos, Npos);
    var lp := MarksOf(h).lp;
    if lp.Npos? then 0 else ToInt32(LongAt(h, lp.i))
  }

  /** Looking for the end of the header in what has been read. */
  function FrameStep(c: Client): (bool, Client) {
    var marks := MarksOf(c.header);
    if marks.bp.Npos? then (if c.eof then (false, Close(c)) else (true, c))
    else if marks.lp.Npos? then (false, Close(c))
    else
      var c1 := c.(contentLength := ClientLength(c.header));
      if c1.contentLength <= 0 then (false, Close(c1))
      else (true, c1.(response := CString(c.header[marks.bp.i..]), header := "", state := ReadResponse))
  }

  function HeaderStep(c: Client, a: Arrival, retry: Connect): Stepped {
    var r := NbRead(c.header, a);
    var c1 := c.(header := r.text, eof := r.eof);
    var s := if !r.ok || (r.eof && r.text == "") then RetryStep(c1, retry) else FrameStep(c1);
    Stepped(s.0, s.1, Bytes(a))
  }

  function ResponseStep(c: Client, a: Arrival): Stepped {
    if ToInt32(|c.response|) >= c.contentLength then Stepped(false, c.(state := Idle), "")
    else
      var r := NbRead("", a);
      if !r.ok then Stepped(false, Close(c.(eof := r.eof)), Bytes(a))
      else
        var c1 := c.(eof := r.eof, response := c.response + r.text);
        if ToInt32(|c1.response|) < c.contentLength then
          if r.eof then Stepped(false, Close(c1), Bytes(a)) else Stepped(true, c1, Bytes(a))
        else Stepped(false, c1.(state := Idle), Bytes(a))
  }

  /** While a request is being written, none of the current buffer has been. */
  predicate Live(c: Client) {
    && (c.state.WriteRequest? ==> c.bytesWritten == 0)
    && (!c.state.NoConnection? ==> c.open && c.wire != [])
  }

  function Handle(c: Client, env: Env): (s: Stepped)
    requires Live(c)
    ensures Live(s.client)
  {
    hide WriteStep, HeaderStep, ResponseStep;
    var s1 := if c.state.WriteRequest? then WriteLive(c, env.drain); WriteStep(c, env.drain) else Stepped(true, c, "");
    if !s1.alive then s1 else
    var s2 := if s1.client.state.ReadHeader? then
        HeaderLive(s1.client, env.header, env.connect);
        HeaderStep(s1.client, env.header, env.connect)
      else s1;
    if !s2.alive then s2 else
    if s2.client.state.ReadResponse? then
      ResponseLive(s2.client, env.body);
      var s3 := ResponseStep(s2.client, env.body);
      Stepped(s3.alive, s3.client, s2.got + s3.got)
    else s2
  }

  /** One round of the dispatcher: the client may be signalled, and an exception may be reported. */
  datatype Round = Round(signalled: bool, exception: bool, env: Env)

  /** A zero result removes the client from the dispatcher, which closes it unless it is kept open. */
  function RoundStep(c: Client, r: Round): (s: Stepped)
    requires Live(c)
    ensures Live(s.client)
  {
    var s := if r.signalled then Handle(c, r.env) else Stepped(true, c, "");
    if !s.client.registered || (s.alive && !r.exception) then s
    else if s.client.keepOpen then Stepped(false, s.client.(registered := false), s.got)
    else Stepped(false, Close(s.client), s.got)
  }

  /** The dispatcher works while it has the client to watch, or until polling fails. */
  function Work(c: Client, rounds: seq<Round>): (s: (Client, string))
    requires Live(c)
    ensures Live(s.0)
    decreases rounds
  {
    if rounds == [] || !c.registered then (c, "")
    else
      var s := RoundStep(c, rounds[0]);
      var t := Work(s.client, rounds[1..]);
      (t.0, s.got + t.1)
  }

  /** A call, with the message it sends. */
  function Execute(c: Client, message: string, r: Connect, rounds: seq<Round>): (e: (bool, Client, Value))
    requires Live(c)
    ensures Live(e.1)
  {
    var s := Begin(c, message, r);
    if !s.0 then (false, s.1, Invalid) else Finish(Work(s.1, rounds).0)
  }

  /** The start of a call. */
  function Begin(c: Client, message: string, r: Connect): (s: (bool, Client))
    requires Live(c)
    ensures Live(s.1)
  {
    var s := SetupConnection(c.(sendAttempts := 0, isFault := false), r);
    (s.0, if s.0 then s.1.(request := message) else s.1)
  }

  /** parseResponse, if the client came to rest. */
  function Finish(c: Client): (e: (bool, Client, Value))
    ensures Live(c) ==> Live(e.1)
  {
    if !c.state.Idle? then (false, c, Invalid)
    else
      var reply := ParseResponse(c.response);
      var left := if FindTag(METHODRESPONSE_TAG, c.response, 0).ok then "" else c.response;
      (reply.ok, c.(response := left, isFault := reply.isFault), reply.value)
  }

  /* ---- what the steps keep ---- */

  lemma SetupLive(c: Client, r: Connect)
    requires Live(c) || c.state.NoConnection?
    ensures Live(SetupConnection(c, r).1)
  {
  }

  lemma WriteLive(c: Client, d: Drain)
    requires Live(c) && c.state.WriteRequest?
    ensures Live(WriteStep(c, d).client)
  {
    hide NbWrite;
  }

  lemma HeaderLive(c: Client, a: Arrival, retry: Connect)
    requires Live(c) && c.state.ReadHeader?
    ensures Live(HeaderStep(c, a, retry).client)
  {
    hide NbRead, MarksOf, ClientLength, CString, Bytes, SetupConnection;
    var r := NbRead(c.header, a);
    var c1 := c.(header := r.text, eof := r.eof);
    SetupLive(c1.(sendAttempts := 1, open := false, state := NoConnection, eof := false), retry);
  }

  lemma ResponseLive(c: Client, a: Arrival)
    requires Live(c) && c.state.ReadResponse?
    ensures Live(ResponseStep(c, a).client)
  {
    hide NbRead, Bytes, ToInt32;
  }

  /* ---- the object ---- */

  class RpcClient {
    const host: string
    const port: int
    const uri: string
    var state: State
    var request: string
    var header: string
    var response: string
    var bytesWritten: nat
    var sendAttempts: nat
    var eof: bool
    var isFault: bool
    var contentLength: int
    var keepOpen: bool
    var open: bool
    var registered: bool
    ghost var wire: seq<string>

    ghost function View(): Client
      reads this
    {
      Client(
        state, request, header, response, bytesWritten, sendAttempts,
        eof, isFault, contentLength, keepOpen, open, registered, wire)
    }

    constructor (host: string, port: int, uri: string)
      ensures View() == Client(NoConnection, "", "", "", 0, 0, false, false, 0, true, false, false, []) && Live(View())
      ensures this.host == host && this.port == port && this.uri == uri
    {
      this.host, this.port, this.uri := host, port, uri;
      state, request, header, response, bytesWritten, sendAttempts := NoConnection, "", "", "", 0, 0;
      eof, isFault, contentLength, keepOpen, open, registered, wire := false, false, 0, true, false, false, [];
    }

    method DoClose()
      modifies this
      ensures View() == Close(old(View()))
    {
      state, registered, open := NoConnection, false, false;
    }

    method DoSetupConnection(r: Connect) returns (ok: bool)
      modifies this
      ensures (ok, View()) == SetupConnection(old(View()), r)
    {
      hide NewConnection;
      if (state != NoConnection && state != Idle) || eof {
        DoClose();
      }
      eof := false;
      assert View() == Reset(old(View()));
      ok := true;
      if state == NoConnection {
        ok := DoConnect(r);
      }
      if ok {
        state, bytesWritten, registered := WriteRequest, 0, true;
      }
    }

    method DoConnect(r: Connect) returns (ok: bool)
      modifies this
      ensures (ok, View()) == NewConnection(old(View()), r)
    {
      match r
      case NoSocket => ok := false;
      case Refused =>
        DoClose();
        ok := false;
      case Connected =>
        open, wire, ok := true, wire + [""], true;
    }

    method DoWriteRequest(d: Drain) returns (alive: bool)
      requires bytesWritten <= |request|
      modifies this
      ensures Stepped(alive, View(), "") == WriteStep(old(View()), d)
    {
      hide NbWrite;
      var ok, n, sent := NbWriteLoop(request, bytesWritten, d);
      bytesWritten := n;
      wire := Wrote(wire, sent);
      if !ok {
        DoClose();
        return false;
      }
      if bytesWritten == |request| {
        header, response, state := "", "", ReadHeader;
      } else {
        request := request[bytesWritten..];
        bytesWritten := 0;
      }
      alive := true;
    }

    method DoRetry(retry: Connect) returns (alive: bool)
      modifies this
      ensures (alive, View()) == RetryStep(old(View()), retry)
    {
      hide SetupConnection;
      if keepOpen && |header| == 0 {
        sendAttempts := sendAttempts + 1;
        if sendAttempts == 1 {
          open, state, eof := false, NoConnection, false;
          alive := DoSetupConnection(retry);
          return;
        }
      }
      DoClose();
      alive := false;
    }

    method DoReadHeader(a: Arrival, retry: Connect) returns (alive: bool, got: string)
      modifies this
      ensures Stepped(alive, View(), got) == HeaderStep(old(View()), a, retry)
    {
      hide NbRead, Bytes, RetryStep, FrameStep;
      got := Bytes(a);
      var ok;
      ok, header, eof := NbReadLoop(header, a);
      if !ok || (eof && |header| == 0) {
        alive := DoRetry(retry);
        return;
      }
      alive := DoFrame();
    }

    method DoFrame() returns (alive: bool)
      modifies this
      ensures (alive, View()) == FrameStep(old(View()))
    {
      hide MarksOf, CString, ClientLength;
      var bp, lp := ScanClientHeader(header);
      if bp.Npos? {
        if eof {
          DoClose();
          return false;
        }
        return true;
      }
      if lp.Npos? {
        DoClose();
        return false;
      }
      contentLength := ClientLength(header);
      if contentLength <= 0 {
        DoClose();
        return false;
      }
      response := CString(header[bp.i..]);
      header := "";
      state := ReadResponse;
      alive := true;
    }

    method DoReadResponse(a: Arrival) returns (alive: bool, got: string)
      modifies this
      ensures Stepped(alive, View(), got) == ResponseStep(old(View()), a)
    {
      hide NbRead, Bytes, ToInt32;
      got := "";
      if ToInt32(|response|) < contentLength {
        got := Bytes(a);
        var ok, buff;
        ok, buff, eof := NbReadLoop("", a);
        if !ok {
          DoClose();
          return false, got;
        }
        response := response + buff;
        if ToInt32(|response|) < contentLength {
          if eof {
            DoClose();
            return false, got;
          }
          return true, got;
        }
      }
      state := Idle;
      alive := false;
    }

    method HandleEvent(env: Env) returns (alive: bool, got: string)
      requires Live(View())
      modifies this
      ensures Stepped(alive, View(), got) == Handle(old(View()), env)
      ensures Live(View())
    {
      hide WriteStep, HeaderStep, ResponseStep;
      alive, got := true, "";
      if state == WriteRequest {
        alive := DoWriteRequest(env.drain);
        if !alive {
          return;
        }
      }
      if state == ReadHeader {
        alive, got := DoReadHeader(env.header, env.connect);
        if !alive {
          return;
        }
      }
      if state == ReadResponse {
        var more;
        alive, more := DoReadResponse(env.body);
        got := got + more;
      }
    }

    /** A blocking call: connect, send, and let the dispatcher run. */
    method Call(name: string, params: Value, r: Connect, rounds: seq<Round>) returns (ok: bool, result: Value)
      requires Live(View())
      modifies this
      ensures var message := PostMessage(host, port, uri, RequestBody(name, params));
        (ok, View(), result) == Execute(old(View()), message, r, rounds)
      ensures Live(View())
    {
      hide Begin, Work, PostMessage, RequestBody, Finish, Live;
      var body := GenerateBody(name, params);
      ok := DoBegin(PostMessage(host, port, uri, body), r);
      if !ok {
        return false, Invalid;
      }
      DoWork(rounds);
      ok, result := DoFinish();
    }

    /** The request is generated only once the connection is set up. */
    method DoBegin(message: string, r: Connect) returns (ok: bool)
      requires Live(View())
      modifies this
      ensures (ok, View()) == Begin(old(View()), message, r)
    {
      hide SetupConnection;
      sendAttempts, isFault := 0, false;
      ok := DoSetupConnection(r);
      if ok {
        request := message;
      }
    }

    method DoFinish() returns (ok: bool, result: Value)
      modifies this
      ensures (ok, View(), result) == Finish(old(View()))
    {
      hide ParseResponse, FindTag;
      if state != Idle {
        return false, Invalid;
      }
      var reply := ParseResponse(response);
      isFault := reply.isFault;
      if FindTag(METHODRESPONSE_TAG, response, 0).ok {
        response := "";
      }
      ok, result := reply.ok, reply.value;
    }

    method DoWork(rounds: seq<Round>)
      requires Live(View())
      modifies this
      ensures View() == Work(old(View()), rounds).0 && Live(View())
    {
      hide RoundStep, Live, Work;
      var i := 0;
      assert rounds[0..] == rounds;
      while i < |rounds| && registered
        invariant i <= |rounds| && Live(View())
        invariant Work(View(), rounds[i..]).0 == Work(old(View()), rounds).0
      {
        WorkIs(View(), rounds[i..]);
        assert rounds[i..][0] == rounds[i] && rounds[i..][1..] == rounds[i + 1..];
        DoRound(rounds[i]);
        i := i + 1;
      }
      WorkIs(View(), rounds[i..]);
    }

    method DoRound(round: Round)
      requires Live(View())
      modifies this
      ensures View() == RoundStep(old(View()), round).client && Live(View())
    {
      hide Handle;
      var alive := true;
      if round.signalled {
        var got;
        alive, got := HandleEvent(round.env);
      }
      if round.exception {
        alive := false;
      }
      if registered && !alive {
        registered := false;
        if !keepOpen {
          DoClose();
        }
      }
    }
  }

  lemma WorkIs(c: Client, rounds: seq<Round>)
    requires Live(c)
    ensures Work(c, rounds) == if rounds == [] || !c.registered then (c, "")
      else var s := RoundStep(c, rounds[0]); (Work(s.client, rounds[1..]).0, s.got + Work(s.client, rounds[1..]).1)
  {
    hide RoundStep;
  }
}
