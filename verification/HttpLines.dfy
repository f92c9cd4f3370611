/** The headers as lines: what a request and a response look like on the wire. */
module HttpLines {
  import opened DecimalText
  import opened TextSearch
  import opened XmlText
  import opened XmlNumbers
  import opened HttpFrame

  /** Every line with its end. */
  function Lines(ls: seq<string>): string {
    if ls == [] then "" else ls[0] + ("\r\n" + Lines(ls[1..]))
  }

  lemma LinesMore(l: string, ls: seq<string>)
    ensures Lines([l] + ls) == l + ("\r\n" + Lines(ls))
  {
    assert ([l] + ls)[1..] == ls;
  }

  lemma FourLines(a: string, b: string, c: string, d: string)
    ensures Lines([a, b, c, d]) == a + ("\r\n" + (b + ("\r\n" + (c + ("\r\n" + (d + ("\r\n" + "")))))))
  {
    hide Lines;
    LinesMore(a, [b, c, d]);
    LinesMore(b, [c, d]);
    LinesMore(c, [d]);
    LinesMore(d, []);
    assert [a] + [b, c, d] == [a, b, c, d] && [b] + [c, d] == [b, c, d] && [c] + [d] == [c, d] && [d] + [] == [d];
    assert Lines([]) == "" by { NoLines(); }
  }

  lemma NoLines()
    ensures Lines([]) == ""
  {
  }

  lemma FixedTexts()
    ensures " HTTP/1.1\r\nUser-Agent: " == " HTTP/1.1" + ("\r\n" + "User-Agent: ")
    ensures "\r\nHost: " == "\r\n" + "Host: "
    ensures "\r\nContent-Type: text/xml\r\n" == "\r\n" + ("Content-Type: text/xml" + "\r\n")
    ensures "HTTP/1.1 200 OK\r\nServer: " == "HTTP/1.1 200 OK" + ("\r\n" + "Server: ")
    ensures "\r\n\r\n" == "\r\n" + ("" + ("\r\n" + ""))
  {
  }

  /** A request, line by line. */
  lemma PostLinesAre(host: string, port: int, uri: string)
    ensures PostLines(host, port, uri) == Lines([
      "POST " + (uri + " HTTP/1.1"), "User-Agent: " + VERSION, "Host: " + (host + (":" + PrintInt(port))),
      "Content-Type: text/xml"])
  {
    hide PrintInt, Lines;
    FixedTexts();
    var a, b := "POST " + (uri + " HTTP/1.1"), "User-Agent: " + VERSION;
    var c, d, n := "Host: " + (host + (":" + PrintInt(port))), "Content-Type: text/xml", "\r\n";
    FourLines(a, b, c, d);
    var z := n + (d + n);
    var y := n + ("Host: " + (host + (":" + (PrintInt(port) + z))));
    Regroup(host, ":", PrintInt(port), z);
    Rejoin("Host: ", host + (":" + PrintInt(port)), z);
    Rejoin("User-Agent: ", VERSION, y);
    Regroup("POST ", uri, " HTTP/1.1", n + ("User-Agent: " + (VERSION + y)));
    Rejoin(" HTTP/1.1", n + "User-Agent: ", VERSION + y);
    Rejoin(n, "User-Agent: ", VERSION + y);
    Rejoin(n, "Host: ", host + (":" + (PrintInt(port) + z)));
    assert n + "" == n;
  }

  lemma Regroup(a: string, b: string, c: string, d: string)
    ensures (a + (b + c)) + d == a + (b + (c + d))
  {
  }

  /** The length is on the last line, and an empty one follows. */
  lemma WithLengthLines(ls: seq<string>, length: string)
    ensures WithLength(Lines(ls), length) == Lines(ls + ["Content-length: " + length, ""])
  {
    hide Lines;
    FixedTexts();
    LinesMore("Content-length: " + length, [""]);
    LinesMore("", []);
    NoLines();
    assert ["Content-length: " + length] + [""] == ["Content-length: " + length, ""] && [""] + [] == [""];
    LinesJoin(ls, ["Content-length: " + length, ""]);
    Rejoin(LENGTH_FIELD, length, HEADER_END);
    Rejoin(Lines(ls), LENGTH_FIELD, length);
    Rejoin(Lines(ls), LENGTH_FIELD + length, HEADER_END);
  }

  lemma {:induction false} LinesJoin(a: seq<string>, b: seq<string>)
    ensures Lines(a + b) == Lines(a) + Lines(b)
  {
    if a == [] {
      assert a + b == b;
    } else {
      LinesJoin(a[1..], b);
      assert (a + b)[1..] == a[1..] + b && (a + b)[0] == a[0];
    }
  }

  lemma FourAndLength(lines: string, a: string, b: string, c: string, d: string, length: string)
    requires lines == Lines([a, b, c, d])
    ensures WithLength(lines, length) == Lines([a, b, c, d, "Content-length: " + length, ""])
  {
    hide Lines, WithLength;
    WithLengthLines([a, b, c, d], length);
    var e := "Content-length: " + length;
    assert [a, b, c, d] + [e, ""] == [a, b, c, d, e, ""];
  }

  lemma ThreeAndLength(lines: string, a: string, b: string, c: string, length: string)
    requires lines == Lines([a, b, c])
    ensures WithLength(lines, length) == Lines([a, b, c, "Content-length: " + length, ""])
  {
    hide Lines, WithLength;
    WithLengthLines([a, b, c], length);
    var e := "Content-length: " + length;
    assert [a, b, c] + [e, ""] == [a, b, c, e, ""];
  }

  /** What the client sends: request line, agent, host, type, length, an empty line and the body. */
  lemma RequestLines(host: string, port: int, uri: string, body: string)
    ensures PostMessage(host, port, uri, body)
         == Lines([
              "POST " + (uri + " HTTP/1.1"), "User-Agent: " + VERSION, "Host: " + (host + (":" + PrintInt(port))),
              "Content-Type: text/xml", "Content-length: " + Decimal(|body|), ""]) + body
  {
    hide Lines, PrintInt, Decimal, PostLines, WithLength;
    PostLinesAre(host, port, uri);
    FourAndLength(
      PostLines(host, port, uri), "POST " + (uri + " HTTP/1.1"), "User-Agent: " + VERSION,
      "Host: " + (host + (":" + PrintInt(port))), "Content-Type: text/xml", Decimal(|body|));
  }

  lemma OkLinesAre()
    ensures OK_LINES == Lines(["HTTP/1.1 200 OK", "Server: " + VERSION, "Content-Type: text/xml"])
  {
    hide Lines;
    FixedTexts();
    var a, b, c, n := "HTTP/1.1 200 OK", "Server: " + VERSION, "Content-Type: text/xml", "\r\n";
    ThreeLines(a, b, c);
    Rejoin("Server: ", VERSION, n + (c + n));
    Rejoin(a, n + "Server: ", VERSION + (n + (c + n)));
    Rejoin(n, "Server: ", VERSION + (n + (c + n)));
  }

  lemma ThreeLines(a: string, b: string, c: string)
    ensures Lines([a, b, c]) == a + ("\r\n" + (b + ("\r\n" + (c + "\r\n"))))
  {
    hide Lines;
    LinesMore(a, [b, c]);
    LinesMore(b, [c]);
    LinesMore(c, []);
    NoLines();
    assert [a] + [b, c] == [a, b, c] && [b] + [c] == [b, c] && [c] + [] == [c] && "\r\n" + "" == "\r\n";
  }

  lemma OkParts(body: string) returns (lines: string)
    requires |body| <= INT_MAX
    ensures lines == Lines(["HTTP/1.1 200 OK", "Server: " + VERSION, "Content-Type: text/xml"])
    ensures OkMessage(body) == WithLength(lines, Decimal(|body|)) + body
  {
    hide Decimal, WithLength, Lines;
    ToInt32Same(|body|);
    OkLinesAre();
    lines := OK_LINES;
  }

  /** What the server sends: status, server, type, length, an empty line and the body. */
  lemma ResponseLines(body: string)
    requires |body| <= INT_MAX
    ensures OkMessage(body)
         == Lines([
              "HTTP/1.1 200 OK", "Server: " + VERSION, "Content-Type: text/xml",
              "Content-length: " + Decimal(|body|), ""]) + body
  {
    hide Lines, Decimal, WithLength, OkMessage;
    var lines := OkParts(body);
    ThreeAndLength(lines, "HTTP/1.1 200 OK", "Server: " + VERSION, "Content-Type: text/xml", Decimal(|body|));
  }
}
