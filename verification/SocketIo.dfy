/** Non-blocking reads and writes over a socket whose behaviour is arbitrary. */
module SocketIo {
  import opened XmlText

  const READ_SIZE := 4096

  /** What one successful read call delivers. */
  type Chunk = c: string | 0 < |c| < READ_SIZE witness "x"

  datatype ReadEnd = WouldBlock | Eof | Error

  /** The outcomes of the read calls of one nbRead: some data, then the reason to stop. */
  datatype Arrival = Arrival(chunks: seq<Chunk>, end: ReadEnd)

  function Joined(chunks: seq<string>): string {
    if chunks == [] then "" else chunks[0] + Joined(chunks[1..])
  }

  lemma {:induction false} JoinedMore(chunks: seq<string>, i: nat)
    requires i < |chunks|
    ensures Joined(chunks[..i + 1]) == Joined(chunks[..i]) + chunks[i]
    decreases i
  {
    if i == 0 {
      assert chunks[..1] == [chunks[0]] && chunks[..1][1..] == [] && chunks[..0] == [];
    } else {
      JoinedMore(chunks[1..], i - 1);
      assert chunks[..i + 1][1..] == chunks[1..][..i] && chunks[..i][1..] == chunks[1..][..i - 1];
    }
  }

  lemma {:induction false} JoinedSplit(a: seq<string>, b: seq<string>)
    ensures Joined(a + b) == Joined(a) + Joined(b)
  {
    if a == [] {
      assert a + b == b;
    } else {
      assert (a + b)[1..] == a[1..] + b;
      JoinedSplit(a[1..], b);
    }
  }

  function Bytes(a: Arrival): string {
    Joined(a.chunks)
  }

  datatype ReadResult = ReadResult(ok: bool, text: string, eof: bool)

  /** All the data is appended; an error or an overlong text is a failure. */
  function NbRead(s: string, a: Arrival): ReadResult {
    var t := s + Bytes(a);
    if a.end.Error? then ReadResult(false, t, false)
    else if |t| > INT_MAX then ReadResult(false, "", a.end.Eof?)
    else ReadResult(true, t, a.end.Eof?)
  }

  method NbReadLoop(s: string, a: Arrival) returns (ok: bool, s': string, eof: bool)
    ensures ReadResult(ok, s', eof) == NbRead(s, a)
  {
    hide Joined;
    var wouldBlock := false;
    var i := 0;
    ok, s', eof := false, s, false;
    assert Joined(a.chunks[..0]) == "" by { NoChunks(); }
    while !wouldBlock && !eof
      invariant i <= |a.chunks| && s' == s + Joined(a.chunks[..i])
      invariant wouldBlock || eof ==> i == |a.chunks| && !a.end.Error? && eof == a.end.Eof?
      decreases |a.chunks| - i, !wouldBlock, !eof
    {
      if i < |a.chunks| {
        JoinedMore(a.chunks, i);
        s' := s' + a.chunks[i];
        i := i + 1;
      } else {
        assert a.chunks[..i] == a.chunks;
        match a.end
        case Eof => eof := true;
        case WouldBlock => wouldBlock := true;
        case Error => return;
      }
    }
    assert a.chunks[..i] == a.chunks;
    if |s'| > INT_MAX {
      s' := "";
      return;
    }
    ok := true;
  }

  lemma NoChunks()
    ensures forall cs: seq<string> :: Joined(cs[..0]) == ""
  {
  }

  /** What one successful write call offers to take. */
  type Count = n: int | n >= 1 witness 1

  datatype WriteEnd = Blocked | Broken

  /** The outcomes of the write calls of one nbWrite. */
  datatype Drain = Drain(accepts: seq<Count>, end: WriteEnd)

  /** How much of n bytes the write calls take. */
  function Taken(accepts: seq<Count>, n: nat): (k: nat)
    ensures k <= n
  {
    if n == 0 || accepts == [] then 0
    else
      var k: nat := if accepts[0] < n then accepts[0] else n;
      k + Taken(accepts[1..], n - k)
  }

  function Sum(accepts: seq<Count>): nat {
    if accepts == [] then 0 else accepts[0] + Sum(accepts[1..])
  }

  /** All that the calls offer to take, or everything. */
  lemma {:induction false} TakenIs(accepts: seq<Count>, n: nat)
    ensures Taken(accepts, n) == if Sum(accepts) < n then Sum(accepts) else n
  {
    if n != 0 && accepts != [] {
      TakenIs(accepts[1..], if accepts[0] < n then n - accepts[0] else 0);
    }
  }

  datatype WriteResult = WriteResult(ok: bool, bytesSoFar: nat, sent: string)

  /** The unsent part goes out from its front, in order, each byte once. */
  function NbWrite(s: string, bytesSoFar: nat, d: Drain): (r: WriteResult)
    requires bytesSoFar <= |s|
    ensures bytesSoFar <= r.bytesSoFar <= |s|
    ensures r.sent + s[r.bytesSoFar..] == s[bytesSoFar..]
  {
    if |s| > INT_MAX then WriteResult(false, bytesSoFar, "")
    else
      var k := Taken(d.accepts, |s| - bytesSoFar);
      WriteResult(k == |s| - bytesSoFar || d.end.Blocked?, bytesSoFar + k, s[bytesSoFar..bytesSoFar + k])
  }

  method NbWriteLoop(s: string, soFar: nat, d: Drain) returns (ok: bool, bytesSoFar: nat, sent: string)
    requires soFar <= |s|
    ensures WriteResult(ok, bytesSoFar, sent) == NbWrite(s, soFar, d)
  {
    ok, bytesSoFar, sent := false, soFar, "";
    if |s| > INT_MAX {
      return;
    }
    var nToWrite := |s| - bytesSoFar;
    var wouldBlock := false;
    var i := 0;
    ghost var all := nToWrite;
    while nToWrite > 0 && !wouldBlock
      invariant i <= |d.accepts| && soFar <= bytesSoFar <= |s| && nToWrite == |s| - bytesSoFar
      invariant sent == s[soFar..bytesSoFar]
      invariant bytesSoFar - soFar + Taken(d.accepts[i..], nToWrite) == Taken(d.accepts, all)
      invariant wouldBlock ==> i == |d.accepts| && d.end.Blocked?
      decreases |d.accepts| - i, !wouldBlock
    {
      if i < |d.accepts| {
        var n := if d.accepts[i] < nToWrite then d.accepts[i] else nToWrite;
        assert d.accepts[i..][1..] == d.accepts[i + 1..];
        sent := sent + s[bytesSoFar..bytesSoFar + n];
        bytesSoFar := bytesSoFar + n;
        nToWrite := nToWrite - n;
        i := i + 1;
      } else if d.end.Blocked? {
        wouldBlock := true;
      } else {
        return;
      }
    }
    ok := true;
  }
}
