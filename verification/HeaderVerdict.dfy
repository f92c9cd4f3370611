/** What the two sides make of any header, well formed or not. */
module HeaderVerdict {
  import opened TextSearch
  import opened XmlText
  import opened XmlNumbers
  import opened HttpFrame
  import opened HeaderMarks
  import opened SocketIo
  import S = ServerConnection
  import C = ClientConnection

  /** Where the scan puts the end of the header and the length, against where they are. */
  lemma ScanAgrees(h: string, e: nat)
    requires FirstEnd(h, 0, e)
    ensures MarksOf(h).bp.Npos? <==> e == |h|
    ensures (forall k :: 0 <= k < e ==> !LengthAt(h, k)) ==> MarksOf(h).lp.Npos?
    ensures forall k: nat :: LastLength(h, 0, e, k) ==> MarksOf(h).lp == Pos(k + 16)
  {
    hide LengthAt, MarksOf, FirstEnd, FoundConnection, BodyAfter;
    var e' := MarksFound(h);
    OneFirstEnd(h, e, e');
    EndInside(h, e);
  }

  /** r is the text up to its first NUL. */
  predicate UpToNul(r: string, t: string) {
    r <= t && '\0' !in r && (|r| < |t| ==> t[|r|] == '\0')
  }

  lemma CStringCuts(t: string)
    ensures UpToNul(CString(t), t)
  {
    var end := FindChar(t, '\0', 0);
    assert end.Npos? ==> forall k :: 0 <= k < |t| ==> t[k] != '\0';
  }

  lemma BodyStarts(h: string, e: nat)
    requires FirstEnd(h, 0, e) && e < |h|
    ensures BodyAfter(h, e) < |h| && MarksOf(h).bp == Pos(BodyAfter(h, e))
  {
    hide MarksOf, FirstEnd, FoundConnection, FoundLength, BodyAfter;
    var e' := MarksFound(h);
    OneFirstEnd(h, e, e');
  }

  lemma EndInside(h: string, e: nat)
    requires FirstEnd(h, 0, e)
    ensures e <= |h|
  {
    hide EndsAt;
  }

  lemma OneFirstEnd(h: string, e: nat, e': nat)
    requires FirstEnd(h, 0, e) && FirstEnd(h, 0, e')
    ensures e == e'
  {
    hide EndsAt;
  }

  /**
   The server, on any text it has read so far without an error. Before the end of the header it
   reads on, or gives up at an end of file; at the end it goes on to the request exactly if the
   header names a length and the last one is a number that an int can hold, which it remembers
   together with what has come of the body, up to a NUL.
   */
  lemma ServerVerdict(c: S.Conn, a: Arrival, h: string, e: nat)
    requires h == c.header + Bytes(a) && |h| <= INT_MAX && !a.end.Error? && FirstEnd(h, 0, e)
    ensures var s := S.HeaderStep(c, a);
      && (e == |h| ==> s.alive == !a.end.Eof? && s.conn == c.(header := h))
      && (e < |h| && (forall k :: 0 <= k < e ==> !LengthAt(h, k)) ==> !s.alive)
      && (forall k: nat :: e < |h| && LastLength(h, 0, e, k) ==>
            && (s.alive <==> 0 <= LongAt(h, k + 16) <= INT_MAX)
            && (s.alive ==> s.conn.state.ReadRequest? && s.conn.contentLength == LongAt(h, k + 16)))
      && (e < |h| && s.alive ==> BodyAfter(h, e) < |h| && UpToNul(s.conn.request, h[BodyAfter(h, e)..]))
  {
    hide Bytes, MarksOf, FirstEnd, LongAt, S.KeepAlive, CString, BodyAfter, UpToNul;
    ScanAgrees(h, e);
    EndInside(h, e);
    if e < |h| {
      BodyStarts(h, e);
      CStringCuts(h[BodyAfter(h, e)..]);
    }
  }

  /** The client closes the connection unless the last length named, cut to an int, is positive. */
  lemma ClientVerdict(c: C.Client, e: nat)
    requires FirstEnd(c.header, 0, e)
    ensures var s := C.FrameStep(c); var h := c.header;
      && (e == |h| ==> s.0 == !c.eof && s.1 == if c.eof then C.Close(c) else c)
      && (e < |h| && (forall k :: 0 <= k < e ==> !LengthAt(h, k)) ==> !s.0 && s.1 == C.Close(c))
      && (forall k: nat :: e < |h| && LastLength(h, 0, e, k) ==>
            && (s.0 <==> ToInt32(LongAt(h, k + 16)) > 0) && s.1.contentLength == ToInt32(LongAt(h, k + 16))
            && (if s.0 then s.1.state.ReadResponse? else s.1.state.NoConnection? && !s.1.open))
      && (e < |h| && s.0 ==> BodyAfter(h, e) < |h| && UpToNul(s.1.response, h[BodyAfter(h, e)..]))
  {
    hide MarksOf, FirstEnd, LongAt, CString, ToInt32, BodyAfter, UpToNul;
    ScanAgrees(c.header, e);
    EndInside(c.header, e);
    if e < |c.header| {
      BodyStarts(c.header, e);
      CStringCuts(c.header[BodyAfter(c.header, e)..]);
    }
  }
}
