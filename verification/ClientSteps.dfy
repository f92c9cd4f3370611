/** When the client connects anew, and what ends a call early. */
module ClientSteps {
  import opened XmlText
  import opened XmlNumbers
  import opened XmlValue
  import opened HttpFrame
  import opened SocketIo
  import opened ClientConnection

  /**
   Reading the header opens another connection exactly if not a byte of it has come before the
   reading failed or ended (or so much that it was dropped), the client is kept open, this is the
   first attempt, and connecting succeeds.
   */
  lemma RetriesIff(c: Client, a: Arrival, r: Connect)
    requires Live(c) && c.state.ReadHeader?
    ensures var s := HeaderStep(c, a, r); var text := c.header + Bytes(a);
      (s.client.wire == c.wire + [""] <==>
         && (((a.end.Error? || a.end.Eof?) && text == "") || (!a.end.Error? && |text| > INT_MAX))
         && c.keepOpen && c.sendAttempts == 0 && r.Connected?)
  {
    hide MarksOf, CString, Bytes, ClientLength;
    assert |c.wire + [""]| == |c.wire| + 1;
  }

  /** An exception, or a handler that is done, takes the client off the dispatcher; unless kept open it is closed. */
  lemma ExceptionEnds(c: Client, r: Round)
    requires Live(c) && c.registered && r.exception && !r.signalled
    ensures var s := RoundStep(c, r);
      && !s.alive && !s.client.registered && s.got == ""
      && (if c.keepOpen then s.client == c.(registered := false) else s.client.state.NoConnection? && !s.client.open)
  {
  }

  /** A round without a signal or an exception changes nothing. */
  lemma NothingHappens(c: Client, r: Round)
    requires Live(c) && !r.signalled && !r.exception
    ensures RoundStep(c, r) == Stepped(true, c, "")
  {
  }

  /** A call that cannot connect fails, and sends nothing. */
  lemma UnconnectedFails(c: Client, message: string, r: Connect, rounds: seq<Round>)
    requires Live(c) && (!c.state.Idle? || c.eof) && !r.Connected?
    ensures var e := Execute(c, message, r, rounds);
      !e.0 && e.2 == Invalid && e.1.wire == c.wire && e.1.state.NoConnection?
  {
    hide Work;
  }

  /** One that finds its connection idle and whole makes no new one to begin with. */
  lemma IdleReused(c: Client, message: string, r: Connect)
    requires Live(c) && c.state.Idle? && !c.eof
    ensures var s := Begin(c, message, r);
      s.0 && s.1.wire == c.wire && s.1.request == message && s.1.state.WriteRequest? && s.1.registered
  {
  }

  /** The response is complete as soon as it has its length; before that an error or an end of file closes. */
  lemma ResponseVerdict(c: Client, a: Arrival)
    requires c.state.ReadResponse? && |c.response| < c.contentLength && |c.response + Bytes(a)| <= INT_MAX
    ensures var s := ResponseStep(c, a); var complete := |c.response + Bytes(a)| >= c.contentLength;
      && (s.client.state.Idle? <==> !a.end.Error? && complete)
      && (s.alive <==> a.end.WouldBlock? && !complete)
      && (s.alive || s.client.state.Idle? ==> s.client.response == c.response + Bytes(a) && s.client.open == c.open)
      && (!s.alive && !s.client.state.Idle? ==> s.client.state.NoConnection? && !s.client.open)
      && (s.client.state.Idle? ==> s.client.eof == a.end.Eof?)
  {
    hide Bytes, ToInt32;
    ToInt32Same(|c.response|);
    ToInt32Same(|c.response + Bytes(a)|);
    assert "" + Bytes(a) == Bytes(a);
  }
}
