/** RobotRpcServerConnection: read a header, read a request, write the response, over any socket behaviour. */
module ServerConnection {
  import opened TextSearch
  import opened XmlText
  import opened RpcCall
  import opened HttpFrame
  import opened SocketIo

  datatype State = ReadHeader | ReadRequest | WriteResponse

  datatype Conn = Conn(
    state: State, contentLength: int, header: string, request: string,
    response: string, bytesWritten: nat, keepAlive: bool)

  /** What the socket does during one event. */
  datatype Event = Event(header: Arrival, body: Arrival, drain: Drain)

  /** One step: whether the connection lives on, its new state, and what it read, sent and executed. */
  datatype Stepped = Stepped(alive: bool, conn: Conn, got: string, sent: string, executed: seq<string>)

  function Then(s: Stepped, t: Stepped): Stepped {
    Stepped(t.alive, t.conn, s.got + t.got, s.sent + t.sent, s.executed + t.executed)
  }

  /* ---- the steps ---- */

  /** The connection option; without one, HTTP/1.0 closes and later versions stay. */
  function KeepAlive(h: string, kp: Index): bool {
    if Find(h, "HTTP/1.0", 0).Pos? then kp.Pos? && AtNoCase(h, kp.i, "keep-alive")
    else !(kp.Pos? && AtNoCase(h, kp.i, "close"))
  }

  /** The content length in a complete header; -1 if there is none or it is out of range. */
  function LengthOf(h: string): (n: int)
    ensures -1 <= n <= INT_MAX
  {
    ScanInside(h, 0, Npos, Npos);
    var lp := MarksOf(h).lp;
    if lp.Npos? then -1
    else
      var n := LongAt(h, lp.i);
      if n < 0 || n > INT_MAX then -1 else n
  }

  function HeaderStep(c: Conn, a: Arrival): Stepped {
    var r := NbRead(c.header, a);
    var marks := MarksOf(r.text);
    if !r.ok then Stepped(false, c.(header := r.text), Bytes(a), "", [])
    else if marks.bp.Npos? then Stepped(!r.eof, c.(header := r.text), Bytes(a), "", [])
    else if LengthOf(r.text) < 0 then Stepped(false, c.(header := r.text), Bytes(a), "", [])
    else
      Stepped(true,
        c.(state := ReadRequest, contentLength := LengthOf(r.text), header := "",
           request := CString(r.text[marks.bp.i..]), keepAlive := KeepAlive(r.text, marks.kp)),
        Bytes(a), "", [])
  }

  function RequestStep(c: Conn, a: Arrival): Stepped {
    if |c.request| >= c.contentLength then Stepped(true, c.(state := WriteResponse), "", "", [])
    else
      var r := NbRead(c.request, a);
      var c' := c.(request := r.text);
      if !r.ok then Stepped(false, c', Bytes(a), "", [])
      else if |r.text| < c.contentLength then Stepped(!r.eof, c', Bytes(a), "", [])
      else Stepped(true, c'.(state := WriteResponse), Bytes(a), "", [])
  }

  /** The response to a request; a result that would make it too long gives none. */
  function Respond(methods: Methods, request: string): string {
    var q := ParseRequest(request);
    var a := Answer(q.name, methods(q.name, q.params));
    var m := OkMessage(AnswerBody(a));
    if !a.1 && |m| > INT_MAX then "" else m
  }

  predicate Writable(c: Conn) {
    c.response != "" ==> c.bytesWritten < |c.response|
  }

  /** A request is executed only while there is no response. */
  function ResponseStep(c: Conn, d: Drain, methods: Methods): Stepped
    requires Writable(c)
  {
    var executed := if c.response == "" then [c.request] else [];
    var c1 := if c.response == "" then c.(response := Respond(methods, c.request), bytesWritten := 0) else c;
    if c1.response == "" then Stepped(false, c1, "", "", executed)
    else
      var w := NbWrite(c1.response, c1.bytesWritten, d);
      var c2 := c1.(bytesWritten := w.bytesSoFar);
      if !w.ok then Stepped(false, c2, "", w.sent, executed)
      else if w.bytesSoFar == |c1.response| then
        Stepped(
          c.keepAlive, c2.(header := "", request := "", response := "", state := ReadHeader), "", w.sent, executed)
      else Stepped(c.keepAlive, c2, "", w.sent, executed)
  }

  /** At an event boundary a response is pending exactly in the writing state, and not all of it is written. */
  predicate Live(c: Conn) {
    (c.response != "" <==> c.state.WriteResponse?) && Writable(c)
  }

  function Handle(c: Conn, ev: Event, methods: Methods): (s: Stepped)
    requires Live(c)
    ensures s.alive ==> Live(s.conn)
  {
    hide HeaderStep, RequestStep, ResponseStep;
    HeaderQuiet(c, ev.header);
    var s1 := if c.state.ReadHeader? then HeaderStep(c, ev.header) else Stepped(true, c, "", "", []);
    if !s1.alive then s1 else
    RequestQuiet(s1.conn, ev.body);
    var s2 := if s1.conn.state.ReadRequest? then Then(s1, RequestStep(s1.conn, ev.body)) else s1;
    if !s2.alive then s2 else
    if s2.conn.state.WriteResponse? then
      ResponseLive(s2.conn, ev.drain, methods);
      Then(s2, ResponseStep(s2.conn, ev.drain, methods))
    else s2
  }

  /* ---- the object ---- */

  class Connection {
    var state: State
    var contentLength: int
    var header: string
    var request: string
    var response: string
    var bytesWritten: nat
    var keepAlive: bool

    function View(): Conn
      reads this
    {
      Conn(state, contentLength, header, request, response, bytesWritten, keepAlive)
    }

    constructor ()
      ensures View() == Conn(ReadHeader, 0, "", "", "", 0, true) && Live(View())
    {
      state, contentLength, header, request, response, bytesWritten, keepAlive := ReadHeader, 0, "", "", "", 0, true;
    }

    method HandleEvent(ev: Event, methods: Methods)
      returns (alive: bool, got: string, sent: string, executed: seq<string>)
      requires Live(View())
      modifies this
      ensures Stepped(alive, View(), got, sent, executed) == Handle(old(View()), ev, methods)
      ensures alive ==> Live(View())
    {
      hide HeaderStep, RequestStep, ResponseStep;
      alive, got, sent, executed := true, "", "", [];
      if state == ReadHeader {
        alive, got := DoReadHeader(ev.header);
        HeaderQuiet(old(View()), ev.header);
        if !alive {
          return;
        }
      }
      ghost var c1 := View();
      if state == ReadRequest {
        var more: string;
        alive, more := DoReadRequest(ev.body);
        RequestQuiet(c1, ev.body);
        got := got + more;
        if !alive {
          return;
        }
      }
      if state == WriteResponse {
        alive, sent, executed := DoWriteResponse(ev.drain, methods);
        assert got + "" == got && "" + sent == sent;
      }
    }

    method DoReadHeader(a: Arrival) returns (alive: bool, got: string)
      modifies this
      ensures Stepped(alive, View(), got, "", []) == HeaderStep(old(View()), a)
    {
      hide MarksOf, KeepAlive, CString, NbRead, Bytes;
      got := Bytes(a);
      var ok, text, eof := NbReadLoop(header, a);
      header := text;
      if !ok {
        return false, got;
      }
      var bp, lp, kp := ScanHeader(header);
      if bp.Npos? {
        return !eof, got;
      }
      if LengthOf(header) < 0 {
        return false, got;
      }
      contentLength := LengthOf(header);
      request := CString(header[bp.i..]);
      keepAlive := KeepAlive(header, kp);
      header := "";
      state := ReadRequest;
      alive := true;
    }

    method DoReadRequest(a: Arrival) returns (alive: bool, got: string)
      modifies this
      ensures Stepped(alive, View(), got, "", []) == RequestStep(old(View()), a)
    {
      hide NbRead, Bytes;
      got := "";
      if |request| < contentLength {
        got := Bytes(a);
        var ok, text, eof := NbReadLoop(request, a);
        request := text;
        if !ok {
          return false, got;
        }
        if |request| < contentLength {
          return !eof, got;
        }
      }
      state := WriteResponse;
      alive := true;
    }

    method DoWriteResponse(d: Drain, methods: Methods) returns (alive: bool, sent: string, executed: seq<string>)
      requires Writable(View())
      modifies this
      ensures Stepped(alive, View(), "", sent, executed) == ResponseStep(old(View()), d, methods)
    {
      hide NbWrite, Respond;
      sent, executed := "", [];
      if |response| == 0 {
        executed := [request];
        response := Respond(methods, request);
        bytesWritten := 0;
        if |response| == 0 {
          return false, sent, executed;
        }
      }
      var ok;
      ok, bytesWritten, sent := NbWriteLoop(response, bytesWritten, d);
      if !ok {
        return false, sent, executed;
      }
      if bytesWritten == |response| {
        header, request, response, state := "", "", "", ReadHeader;
      }
      alive := keepAlive;
    }
  }

  /** Reading sends and executes nothing. */
  lemma HeaderQuiet(c: Conn, a: Arrival)
    ensures var s := HeaderStep(c, a);
      && s.executed == [] && s.sent == "" && s.got == Bytes(a)
      && s.conn.response == c.response && s.conn.bytesWritten == c.bytesWritten
      && (c.state.ReadHeader? ==> !s.conn.state.WriteResponse?)
  {
    hide MarksOf, NbRead, Bytes, CString, KeepAlive, LengthOf;
  }

  lemma ResponseLive(c: Conn, d: Drain, methods: Methods)
    requires Writable(c) && c.state.WriteResponse?
    ensures var s := ResponseStep(c, d, methods); s.got == "" && (s.alive ==> Live(s.conn))
  {
    hide NbWrite, Respond;
  }

  lemma RequestQuiet(c: Conn, a: Arrival)
    ensures var s := RequestStep(c, a);
      && s.executed == [] && s.sent == "" && s.conn.response == c.response && s.conn.bytesWritten == c.bytesWritten
      && s.conn.keepAlive == c.keepAlive
  {
    hide NbRead, Bytes;
  }
}
