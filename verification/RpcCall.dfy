/** The bodies of a call: what the client writes, the server reads, answers, and the client reads back. */
module RpcCall {
  import opened TextSearch
  import opened XmlText
  import opened XmlNumbers
  import opened XmlValue
  import opened XmlRoundTrip

  const PROLOG := "<?xml version=\"1.0\"?>\r\n"
  const METHODCALL_TAG := "<methodCall>"
  const METHODNAME_TAG := "<methodName>"
  const METHODNAME_ETAG := "</methodName>"
  const PARAMS_TAG := "<params>"
  const PARAMS_ETAG := "</params>"
  const PARAM_TAG := "<param>"
  const PARAM_ETAG := "</param>"
  const METHODCALL_ETAG := "</methodCall>\r\n"
  const METHODRESPONSE_TAG := "<methodResponse>"
  const FAULT_TAG := "<fault>"
  const INDENT := "\r\n\t"
  const RESPONSE_END := "\r\n</param></params></methodResponse>\r\n"
  const FAULT_END := "\r\n</fault></methodResponse>\r\n"

  /* ---- the client's request ---- */

  function ParamToXml(v: Value): string {
    PARAM_TAG + (ToXml(v) + PARAM_ETAG)
  }

  function ParamsToXml(vs: seq<Value>): string {
    if vs == [] then "" else ParamToXml(vs[0]) + ParamsToXml(vs[1..])
  }

  /** Each element of an array is a parameter of its own. */
  function ArgumentList(params: Value): seq<Value> {
    if params.Array? then params.vs else [params]
  }

  function ArgumentsToXml(params: Value): string {
    if params.Invalid? then "" else PARAMS_TAG + (ParamsToXml(ArgumentList(params)) + PARAMS_ETAG)
  }

  function RequestBody(name: string, params: Value): string {
    PROLOG + (METHODCALL_TAG + (METHODNAME_TAG + (name + (METHODNAME_ETAG
    + ("\r\n" + (ArgumentsToXml(params) + METHODCALL_ETAG))))))
  }

  lemma {:induction false} ParamsToXmlMore(vs: seq<Value>, i: nat)
    requires i < |vs|
    ensures ParamsToXml(vs[..i + 1]) == ParamsToXml(vs[..i]) + ParamToXml(vs[i])
    decreases i
  {
    hide ParamToXml;
    if i == 0 {
      assert vs[..1] == [vs[0]] && vs[..1][1..] == [] && vs[..0] == [];
    } else {
      ParamsToXmlMore(vs[1..], i - 1);
      assert vs[..i + 1][1..] == vs[1..][..i] && vs[..i][1..] == vs[1..][..i - 1];
    }
  }

  /** The client builds the body by appending. */
  method GenerateBody(name: string, params: Value) returns (body: string)
    ensures body == RequestBody(name, params)
  {
    hide ToXml, ParamsToXml, ParamToXml, ArgumentsToXml, RequestBody;
    body := PROLOG + METHODCALL_TAG + METHODNAME_TAG;
    body := body + name;
    body := body + (METHODNAME_ETAG + "\r\n");
    ghost var start := body;
    if !params.Invalid? {
      body := body + PARAMS_TAG;
      if params.Array? {
        body := AppendParams(body, params.vs);
      } else {
        OneParam(params);
        body := body + (PARAM_TAG + ToXml(params) + PARAM_ETAG);
      }
      body := body + PARAMS_ETAG;
      ArgumentsAre(params);
    } else {
      NoArguments();
    }
    assert body == start + ArgumentsToXml(params);
    body := body + METHODCALL_ETAG;
    JoinedParts(PROLOG, METHODCALL_TAG, METHODNAME_TAG, name,
                METHODNAME_ETAG, "\r\n", ArgumentsToXml(params), METHODCALL_ETAG);
    RequestIs(name, params);
  }

  lemma RequestIs(name: string, params: Value)
    ensures RequestBody(name, params) == PROLOG + (METHODCALL_TAG + (METHODNAME_TAG + (name + (METHODNAME_ETAG
         + ("\r\n" + (ArgumentsToXml(params) + METHODCALL_ETAG))))))
  {
    hide ArgumentsToXml;
  }

  lemma JoinedParts(a: string, b: string, c: string, d: string, e: string, f: string, g: string, h: string)
    ensures ((a + b + c) + d) + (e + f) + g + h == a + (b + (c + (d + (e + (f + (g + h))))))
  {
  }

  lemma ArgumentsAre(params: Value)
    requires !params.Invalid?
    ensures ArgumentsToXml(params) == PARAMS_TAG + (ParamsToXml(ArgumentList(params)) + PARAMS_ETAG)
  {
  }

  method AppendParams(head: string, vs: seq<Value>) returns (body: string)
    ensures body == head + ParamsToXml(vs)
  {
    hide ToXml, ParamsToXml;
    body := head;
    NoParams();
    for i := 0 to |vs|
      invariant body == head + ParamsToXml(vs[..i])
    {
      ParamsToXmlMore(vs, i);
      body := body + PARAM_TAG + ToXml(vs[i]) + PARAM_ETAG;
    }
    assert vs[..|vs|] == vs;
  }

  lemma NoParams()
    ensures forall vs: seq<Value> :: ParamsToXml(vs[..0]) == ""
  {
  }

  lemma OneParam(v: Value)
    ensures ParamsToXml([v]) == PARAM_TAG + ToXml(v) + PARAM_ETAG
  {
    hide ToXml;
  }

  /* ---- the server's reading of it ---- */

  datatype Request = Request(name: string, params: Value)

  /** Values inside param tags; one that cannot be read is an invalid value. */
  function ParamsFromXml(xml: string, off: nat): (vs: seq<Value>)
    requires off <= |xml|
    decreases |xml| - off
  {
    var tag := NextTagIs(PARAM_TAG, xml, off);
    if !tag.ok then []
    else
      var p := FromXml(xml, tag.off);
      [p.value] + ParamsFromXml(xml, NextTagIs(PARAM_ETAG, xml, p.off).off)
  }

  function ParseRequest(xml: string): Request {
    var name := ParseTag(METHODNAME_TAG, xml, 0);
    var found := FindTag(PARAMS_TAG, xml, name.off);
    if name.text == "" || !found.ok then Request(name.text, Invalid)
    else
      var vs := ParamsFromXml(xml, found.off);
      Request(name.text, if vs == [] then Invalid else Array(vs))
  }

  lemma ParamsUnfold(xml: string, off: nat)
    requires off <= |xml|
    ensures var tag := NextTagIs(PARAM_TAG, xml, off);
      if !tag.ok then ParamsFromXml(xml, off) == []
      else var p := FromXml(xml, tag.off);
        ParamsFromXml(xml, off) == [p.value] + ParamsFromXml(xml, NextTagIs(PARAM_ETAG, xml, p.off).off)
  {
    hide NextTagIs, FromXml;
  }

  /** parseRequest as it runs; every turn of the loop moves the offset on. */
  method ParseRequestLoop(xml: string) returns (name: string, params: Value)
    ensures Request(name, params) == ParseRequest(xml)
  {
    hide FromXml, NextTagIs, FindTag, ParseTag, At, ParamsFromXml;
    var tag := ParseTag(METHODNAME_TAG, xml, 0);
    name, params := tag.text, Invalid;
    var offset := tag.off;
    if |name| > 0 {
      var found := FindTag(PARAMS_TAG, xml, offset);
      if found.ok {
        offset := found.off;
        var nArgs := 0;
        ghost var vs: seq<Value> := [];
        while true
          invariant found.off <= offset <= |xml| && nArgs == |vs|
          invariant params == if vs == [] then Invalid else Array(vs)
          invariant ParamsFromXml(xml, found.off) == vs + ParamsFromXml(xml, offset)
          decreases |xml| - offset
        {
          var next := NextTagIs(PARAM_TAG, xml, offset);
          ParamsUnfold(xml, offset);
          if !next.ok {
            assert vs + [] == vs;
            break;
          }
          var _, v, after := ParseValue(xml, next.off);
          params := if params.Invalid? then Array([v]) else Array(params.vs + [v]);
          nArgs := nArgs + 1;
          offset := NextTagIs(PARAM_ETAG, xml, after).off;
          assert vs + ([v] + ParamsFromXml(xml, offset)) == vs + [v] + ParamsFromXml(xml, offset);
          vs := vs + [v];
        }
        offset := NextTagIs(PARAMS_ETAG, xml, offset).off;
      }
    }
  }

  /* ---- the server's answer ---- */

  /** What running the named method comes to. */
  datatype Outcome = Unknown | Result(v: Value) | Fault(message: string, code: int)

  type Methods = (string, Value) -> Outcome

  function FaultValue(message: string, code: int): Value {
    Struct([Member("faultCode", Int(code)), Member("faultString", Str(message))])
  }

  function ResponseBody(v: Value): string {
    PROLOG + (METHODRESPONSE_TAG + (PARAMS_TAG + (PARAM_TAG + (INDENT + (ToXml(v) + RESPONSE_END)))))
  }

  function FaultBody(v: Value): string {
    PROLOG + (METHODRESPONSE_TAG + (FAULT_TAG + (INDENT + (ToXml(v) + FAULT_END))))
  }

  /** The value the server sends, and whether it is a fault; no result becomes the empty string. */
  function Answer(name: string, outcome: Outcome): (a: (Value, bool)) {
    match outcome
    case Unknown => (FaultValue(name + ": unknown method name", -1), true)
    case Result(v) => (if v.Invalid? then Str("") else v, false)
    case Fault(message, code) => (FaultValue(message, code), true)
  }

  function AnswerBody(answer: (Value, bool)): string {
    if answer.1 then FaultBody(answer.0) else ResponseBody(answer.0)
  }

  /* ---- the client's reading of the answer ---- */

  datatype Reply = Reply(ok: bool, value: Value, isFault: bool)

  function ParseResponse(xml: string): (r: Reply)
    ensures r.ok ==> !r.value.Invalid?
  {
    var head := FindTag(METHODRESPONSE_TAG, xml, 0);
    if !head.ok then Reply(false, Invalid, false)
    else
      var params := NextTagIs(PARAMS_TAG, xml, head.off);
      var param := if params.ok then NextTagIs(PARAM_TAG, xml, params.off) else params;
      var fault := NextTagIs(FAULT_TAG, xml, param.off);
      if param.ok then
        var p := FromXml(xml, param.off);
        Reply(p.ok, p.value, false)
      else if fault.ok then
        var p := FromXml(xml, fault.off);
        Reply(p.ok, p.value, true)
      else Reply(false, Invalid, false)
  }

  /* ---- finding the method name ---- */

  /** Where a text has a '<', a given other text cannot start there. */
  predicate NoneStarts(s: string, i: nat, j: nat, pat: string) {
    forall k :: i <= k < j ==> !At(s, k, pat)
  }

  lemma NoneStartsIn(s: string, i: nat, part: string, pat: string)
    requires At(s, i, part) && pat != "" && forall k :: 0 <= k < |part| ==> part[k] != pat[0]
    ensures NoneStarts(s, i, i + |part|, pat)
  {
    forall k | i <= k < i + |part| ensures !At(s, k, pat) {
      AtChar(s, i, part, k - i);
      AtMismatch(s, k, pat, 0);
    }
  }

  lemma TagDiffers(s: string, i: nat, tag: string, pat: string, d: nat)
    requires At(s, i, tag) && IsTag(tag) && pat != "" && pat[0] == '<' && d < |tag| && d < |pat| && tag[d] != pat[d]
    ensures NoneStarts(s, i, i + |tag|, pat)
  {
    forall k | i <= k < i + |tag| ensures !At(s, k, pat) {
      var e := if k == i then d else 0;
      AtChar(s, i, tag, k - i + e);
      AtMismatch(s, k, pat, e);
    }
  }

  lemma PrologNone(s: string, i: nat, pat: string)
    requires At(s, i, PROLOG) && |pat| >= 2 && pat[0] == '<' && pat[1] != '?'
    ensures NoneStarts(s, i, i + |PROLOG|, pat)
  {
    hide At;
    var a, b := "<?xml version=\"1.0\"?>", "\r\n";
    assert PROLOG == a + b;
    AtSplit(s, i, a, b);
    TagDiffers(s, i, a, pat, 1);
    NoneStartsIn(s, i + |a|, b, pat);
  }

  /** The name as far as the first end tag in it. */
  function NameRead(name: string): (r: string)
    ensures r == name <==> Find(name, METHODNAME_ETAG, 0).Npos?
  {
    var end := Find(name, METHODNAME_ETAG, 0);
    if end.Npos? then name else name[..end.i]
  }

  lemma RequestParts(name: string, params: Value, xml: string)
    requires xml == RequestBody(name, params)
    ensures At(xml, 0, PROLOG) && At(xml, 23, METHODCALL_TAG) && At(xml, 35, METHODNAME_TAG) && At(xml, 47, name)
    ensures At(xml, 47 + |name|, METHODNAME_ETAG) && At(xml, 47 + |name| + 13, "\r\n")
    ensures At(xml, 47 + |name| + 15, ArgumentsToXml(params))
    ensures At(xml, 47 + |name| + 15 + |ArgumentsToXml(params)|, METHODCALL_ETAG)
    ensures |xml| == 47 + |name| + 15 + |ArgumentsToXml(params)| + 15
  {
    hide At, ArgumentsToXml;
    var args := ArgumentsToXml(params);
    AtAll(xml);
    var e := 47 + |name|;
    AtSplit(xml, 0, PROLOG,
            METHODCALL_TAG + (METHODNAME_TAG + (name + (METHODNAME_ETAG + ("\r\n" + (args + METHODCALL_ETAG))))));
    AtSplit(xml, 23, METHODCALL_TAG, METHODNAME_TAG + (name + (METHODNAME_ETAG + ("\r\n" + (args + METHODCALL_ETAG)))));
    AtSplit(xml, 35, METHODNAME_TAG, name + (METHODNAME_ETAG + ("\r\n" + (args + METHODCALL_ETAG))));
    AtSplit(xml, 47, name, METHODNAME_ETAG + ("\r\n" + (args + METHODCALL_ETAG)));
    AtSplit(xml, e, METHODNAME_ETAG, "\r\n" + (args + METHODCALL_ETAG));
    AtSplit(xml, e + 13, "\r\n", args + METHODCALL_ETAG);
    AtSplit(xml, e + 15, args, METHODCALL_ETAG);
  }

  lemma SliceOfSlice(s: string, i: nat, part: string, k: nat, n: nat)
    requires At(s, i, part) && k + n <= |part|
    ensures s[i + k..i + k + n] == part[k..k + n]
  {
    AtSplit(s, i, part[..k], part[k..]);
    AtSplit(s, i + k, part[k..k + n], part[k + n..]);
    assert part == part[..k] + part[k..] && part[k..] == part[k..k + n] + part[k + n..];
  }

  /** An end tag cannot start inside a name and end beyond it. */
  lemma NoneStraddles(xml: string, i: nat, name: string, etag: string, k: nat)
    requires At(xml, i, name) && At(xml, i + |name|, etag) && IsTag(etag) && k < |name|
    ensures At(xml, i + k, etag) <==> At(name, k, etag)
  {
    if k + |etag| <= |name| {
      SliceOfSlice(xml, i, name, k, |etag|);
    } else if At(xml, i + k, etag) {
      var d := |name| - k;
      AtChar(xml, i + k, etag, d);
      AtChar(xml, i + |name|, etag, 0);
    }
  }

  /** Searching the name and its end tag. */
  lemma EndTagFound(xml: string, i: nat, name: string)
    requires At(xml, i, name) && At(xml, i + |name|, METHODNAME_ETAG)
    ensures Find(xml, METHODNAME_ETAG, i) == Pos(i + |NameRead(name)|)
  {
    hide At;
    var end := Find(name, METHODNAME_ETAG, 0);
    var j := if end.Npos? then |name| else end.i;
    AtSlice(xml, i, name);
    if end.Pos? {
      AtSlice(name, end.i, METHODNAME_ETAG);
      NoneStraddles(xml, i, name, METHODNAME_ETAG, j);
    }
    forall k | i <= k < i + j ensures !At(xml, k, METHODNAME_ETAG) {
      NoneStraddles(xml, i, name, METHODNAME_ETAG, k - i);
    }
    FindIs(xml, METHODNAME_ETAG, i, i + j);
  }

  lemma NameTrip(name: string, params: Value, xml: string)
    requires xml == RequestBody(name, params) && |xml| <= INT_MAX
    ensures ParseTag(METHODNAME_TAG, xml, 0) == Tagged(NameRead(name), 47 + |NameRead(name)| + 13)
  {
    hide At, Find, NameRead, RequestBody, ParseTag;
    RequestParts(name, params, xml);
    PrologNone(xml, 0, METHODNAME_TAG);
    TagDiffers(xml, 23, METHODCALL_TAG, METHODNAME_TAG, 7);
    FindIs(xml, METHODNAME_TAG, 0, 35);
    EndTagFound(xml, 47, name);
    AtSlice(xml, 47, name);
    NamePrefix(name);
    SliceOfSlice(xml, 47, name, 0, |NameRead(name)|);
    TaggedAt(xml, 35, |NameRead(name)|);
  }

  lemma TaggedAt(xml: string, i: nat, n: nat)
    requires i + 12 + n <= |xml| <= INT_MAX && Find(xml, METHODNAME_TAG, 0) == Pos(i)
    requires Find(xml, METHODNAME_ETAG, i + 12) == Pos(i + 12 + n)
    ensures ParseTag(METHODNAME_TAG, xml, 0) == Tagged(xml[i + 12..i + 12 + n], i + 12 + n + 13)
  {
    hide Find, At;
    assert "</" + METHODNAME_TAG[1..] == METHODNAME_ETAG;
  }

  lemma NamePrefix(name: string)
    ensures |NameRead(name)| <= |name| && name[..|NameRead(name)|] == NameRead(name)
  {
  }

  /* ---- the parameters ---- */

  predicate Sendable(v: Value) {
    v.Invalid? || Printable(v)
  }

  /** What the server holds for the client's parameters. */
  function Received(params: Value): Value {
    if params.Invalid? || ArgumentList(params) == [] then Invalid else Array(RenamedValues(ArgumentList(params)))
  }

  /** No parameters leave nothing; a value that is not an array is one; an array is one each, in order. */
  lemma ReceivedIs(params: Value)
    ensures params.Invalid? || params == Array([]) ==> Received(params) == Invalid
    ensures !params.Invalid? && !params.Array? ==> Received(params) == Array([Renamed(params)])
    ensures params.Array? && params.vs != [] ==>
      && Received(params).Array? && |Received(params).vs| == |params.vs|
      && forall i :: 0 <= i < |params.vs| ==> Received(params).vs[i] == Renamed(params.vs[i])
  {
    hide Renamed, RenamedValues;
    if params.Array? && params.vs != [] {
      forall i | 0 <= i < |params.vs|
        ensures |RenamedValues(params.vs)| == |params.vs| && RenamedValues(params.vs)[i] == Renamed(params.vs[i])
      {
        RenamedValuesAt(params.vs, i);
      }
      RenamedValuesAt(params.vs, 0);
    } else {
      RenamedValuesAt([params], 0);
    }
  }

  /** A value, or where nothing was printed an invalid value, before an end tag. */
  lemma SentValue(v: Value, xml: string, off: nat, etag: string)
    requires Sendable(v) && |xml| <= INT_MAX && off <= |xml| && At(xml, off, ToXml(v))
    requires At(xml, off + |ToXml(v)|, etag)
    requires |etag| >= 2 && etag[0] == '<' && etag[1] == '/'
    ensures var p := FromXml(xml, off); p.value == Renamed(v) && p.off == off + |ToXml(v)|
  {
    hide At, FromXml, Printable;
    if v.Invalid? {
      NotAValue(xml, off, etag);
    } else {
      RoundTrip(v, xml, off);
    }
  }

  lemma {:induction false} ParamsTrip(vs: seq<Value>, xml: string, off: nat)
    requires (forall v :: v in vs ==> Sendable(v)) && |xml| <= INT_MAX && off <= |xml|
    requires At(xml, off, ParamsToXml(vs)) && At(xml, off + |ParamsToXml(vs)|, PARAMS_ETAG)
    ensures ParamsFromXml(xml, off) == RenamedValues(vs)
    decreases vs
  {
    hide At, ParamToXml, Sendable, Renamed, ParamsFromXml;
    if vs == [] {
      NextTagMiss(PARAM_TAG, xml, off, PARAMS_ETAG, 1);
      ParamsEnd(xml, off);
    } else {
      var first, rest := ParamToXml(vs[0]), ParamsToXml(vs[1..]);
      AtSplit(xml, off, first, rest);
      AtSlice(xml, off, first);
      assert vs[0] in vs;
      ParamTrip(vs[0], xml, off);
      assert At(xml, off + |first| + |rest|, PARAMS_ETAG);
      ParamsTrip(vs[1..], xml, off + |first|);
    }
  }

  lemma ParamsEnd(xml: string, off: nat)
    requires off <= |xml| && !NextTagIs(PARAM_TAG, xml, off).ok
    ensures ParamsFromXml(xml, off) == []
  {
    hide NextTagIs;
  }

  lemma ParamTrip(v: Value, xml: string, off: nat)
    requires Sendable(v) && |xml| <= INT_MAX && At(xml, off, ParamToXml(v))
    ensures off + |ParamToXml(v)| <= |xml|
    ensures ParamsFromXml(xml, off) == [Renamed(v)] + ParamsFromXml(xml, off + |ParamToXml(v)|)
  {
    hide At, ToXml, Sendable, Renamed, FromXml, NextTagIs, ParamsFromXml;
    var text := ToXml(v);
    AtSplit(xml, off, PARAM_TAG, text + PARAM_ETAG);
    AtSplit(xml, off + 7, text, PARAM_ETAG);
    AtSlice(xml, off + 7, text);
    AtSlice(xml, off + 7 + |text|, PARAM_ETAG);
    NextTagHit(PARAM_TAG, xml, off);
    NextTagHit(PARAM_ETAG, xml, off + 7 + |text|);
    SentValue(v, xml, off + 7, PARAM_ETAG);
    OneParamRead(xml, off, off + 7, FromXml(xml, off + 7), off + 7 + |text| + 8);
  }

  lemma OneParamRead(xml: string, off: nat, i: nat, p: Parsed, j: nat)
    requires off < i <= |xml| && NextTagIs(PARAM_TAG, xml, off) == Step(true, i) && FromXml(xml, i) == p
    requires i <= p.off <= |xml| && NextTagIs(PARAM_ETAG, xml, p.off) == Step(true, j)
    ensures j <= |xml| && ParamsFromXml(xml, off) == [p.value] + ParamsFromXml(xml, j)
  {
    hide NextTagIs, FromXml;
  }

  /* ---- the request read back ---- */

  lemma ArgumentParts(params: Value, xml: string, i: nat)
    requires !params.Invalid? && At(xml, i, ArgumentsToXml(params))
    ensures var vs := ArgumentList(params);
      At(xml, i, PARAMS_TAG) && At(xml, i + 8, ParamsToXml(vs)) && At(xml, i + 8 + |ParamsToXml(vs)|, PARAMS_ETAG)
    ensures i + 8 <= |xml|
  {
    hide At, ParamsToXml;
    var vs := ArgumentList(params);
    AtSplit(xml, i, PARAMS_TAG, ParamsToXml(vs) + PARAMS_ETAG);
    AtSplit(xml, i + 8, ParamsToXml(vs), PARAMS_ETAG);
    AtSlice(xml, i, PARAMS_TAG);
  }

  lemma ParamsFound(params: Value, xml: string, i: nat)
    requires |xml| <= INT_MAX && At(xml, i, "\r\n") && At(xml, i + 2, ArgumentsToXml(params))
    requires At(xml, i + 2 + |ArgumentsToXml(params)|, METHODCALL_ETAG)
    requires i + 2 + |ArgumentsToXml(params)| + 15 == |xml|
    ensures FindTag(PARAMS_TAG, xml, i) == if params.Invalid? then Step(false, i) else Step(true, i + 10)
  {
    hide At, ArgumentsToXml, Find;
    NoneStartsIn(xml, i, "\r\n", PARAMS_TAG);
    if params.Invalid? {
      assert ArgumentsToXml(params) == "" by { NoArguments(); }
      var tag := "</methodCall>";
      assert METHODCALL_ETAG == tag + "\r\n";
      AtSplit(xml, i + 2, tag, "\r\n");
      TagDiffers(xml, i + 2, tag, PARAMS_TAG, 1);
      NoneStartsIn(xml, i + 15, "\r\n", PARAMS_TAG);
      NothingFound(xml, i);
    } else {
      ArgumentParts(params, xml, i + 2);
      FindIs(xml, PARAMS_TAG, i, i + 2);
    }
  }

  lemma NoArguments()
    ensures ArgumentsToXml(Invalid) == ""
  {
  }

  lemma NothingFound(xml: string, i: nat)
    requires i <= |xml| && NoneStarts(xml, i, |xml|, PARAMS_TAG)
    ensures Find(xml, PARAMS_TAG, i).Npos?
  {
    var r := Find(xml, PARAMS_TAG, i);
    if r.Pos? {
      AtSlice(xml, r.i, PARAMS_TAG);
    }
  }

  /**
   The server reads the client's method name and, in order, its parameters: a value that is
   not an array is one parameter, and without parameters there is no array.
   */
  lemma RequestTrip(name: string, params: Value)
    requires name != "" && Find(name, METHODNAME_ETAG, 0).Npos?
    requires params.Invalid? || forall v :: v in ArgumentList(params) ==> Sendable(v)
    requires |RequestBody(name, params)| <= INT_MAX
    ensures ParseRequest(RequestBody(name, params)) == Request(name, Received(params))
  {
    hide At, RequestBody, Find, NameRead, ParseTag, FindTag, ParamsFromXml, ArgumentsToXml, ArgumentList;
    hide RenamedValues, Sendable;
    var xml := RequestBody(name, params);
    NameKept(name);
    NameTrip(name, params, xml);
    RequestParts(name, params, xml);
    var i := 47 + |name| + 13;
    ParamsFound(params, xml, i);
    if !params.Invalid? {
      ArgumentParts(params, xml, i + 2);
      ParamsTrip(ArgumentList(params), xml, i + 10);
      SameEmpty(ArgumentList(params));
    }
  }

  lemma NameKept(name: string)
    requires Find(name, METHODNAME_ETAG, 0).Npos?
    ensures NameRead(name) == name
  {
  }

  lemma SameEmpty(vs: seq<Value>)
    ensures RenamedValues(vs) == [] <==> vs == []
  {
  }

  /** The name is read right exactly when it does not contain its own end tag. */
  lemma NameReadIff(name: string, params: Value)
    requires |RequestBody(name, params)| <= INT_MAX
    ensures ParseRequest(RequestBody(name, params)).name == name <==> Find(name, METHODNAME_ETAG, 0).Npos?
  {
    hide RequestBody, ParamsFromXml, FindTag;
    NameTrip(name, params, RequestBody(name, params));
  }

  /* ---- the answer read back ---- */

  /** White space before a value is skipped. */
  lemma FromXmlSkips(xml: string, off: nat, i: nat)
    requires off <= i <= |xml| && (forall k :: off <= k < i ==> IsSpace(xml[k])) && FromXml(xml, i).ok
    ensures FromXml(xml, off) == FromXml(xml, i)
  {
    hide At, TypedFromXml, GetNextTag, FindTag;
    SkipTo(xml, off, i);
    assert NextTagIs(VALUE_TAG, xml, off) == NextTagIs(VALUE_TAG, xml, i);
  }

  lemma {:induction false} SkipTo(s: string, off: nat, i: nat)
    requires off <= i <= |s| && forall k :: off <= k < i ==> IsSpace(s[k])
    ensures SkipSpaces(s, off) == SkipSpaces(s, i)
    decreases i - off
  {
    if off < i {
      SkipTo(s, off + 1, i);
    }
  }

  lemma IndentedTrip(v: Value, xml: string, off: nat)
    requires Printable(v) && |xml| <= INT_MAX && At(xml, off, INDENT) && At(xml, off + 3, ToXml(v))
    ensures off <= |xml| && FromXml(xml, off) == Parsed(true, Renamed(v), off + 3 + |ToXml(v)|)
  {
    hide At, FromXml, ToXml, Printable;
    AtSlice(xml, off + 3, ToXml(v));
    RoundTrip(v, xml, off + 3);
    forall k | off <= k < off + 3 ensures IsSpace(xml[k]) {
      AtChar(xml, off, INDENT, k - off);
    }
    FromXmlSkips(xml, off, off + 3);
  }

  lemma HeadFound(xml: string)
    requires |xml| <= INT_MAX && At(xml, 0, PROLOG) && At(xml, 23, METHODRESPONSE_TAG)
    ensures FindTag(METHODRESPONSE_TAG, xml, 0) == Step(true, 39)
  {
    hide At, Find;
    AtSlice(xml, 0, PROLOG);
    PrologNone(xml, 0, METHODRESPONSE_TAG);
    FindIs(xml, METHODRESPONSE_TAG, 0, 23);
  }

  lemma ResponseTrip(v: Value)
    requires Printable(v) && |ResponseBody(v)| <= INT_MAX
    ensures ParseResponse(ResponseBody(v)) == Reply(true, Renamed(v), false)
  {
    hide At, ToXml, FromXml, NextTagIs, FindTag, Printable;
    var xml, text := ResponseBody(v), ToXml(v);
    AtAll(xml);
    AtSplit(xml, 0, PROLOG, METHODRESPONSE_TAG + (PARAMS_TAG + (PARAM_TAG + (INDENT + (text + RESPONSE_END)))));
    AtSplit(xml, 23, METHODRESPONSE_TAG, PARAMS_TAG + (PARAM_TAG + (INDENT + (text + RESPONSE_END))));
    AtSplit(xml, 39, PARAMS_TAG, PARAM_TAG + (INDENT + (text + RESPONSE_END)));
    AtSplit(xml, 47, PARAM_TAG, INDENT + (text + RESPONSE_END));
    AtSplit(xml, 54, INDENT, text + RESPONSE_END);
    AtSplit(xml, 57, text, RESPONSE_END);
    HeadFound(xml);
    NextTagHit(PARAMS_TAG, xml, 39);
    NextTagHit(PARAM_TAG, xml, 47);
    IndentedTrip(v, xml, 54);
  }

  lemma FaultTrip(v: Value)
    requires Printable(v) && |FaultBody(v)| <= INT_MAX
    ensures ParseResponse(FaultBody(v)) == Reply(true, Renamed(v), true)
  {
    hide At, ToXml, FromXml, NextTagIs, FindTag, Printable;
    var xml, text := FaultBody(v), ToXml(v);
    AtAll(xml);
    AtSplit(xml, 0, PROLOG, METHODRESPONSE_TAG + (FAULT_TAG + (INDENT + (text + FAULT_END))));
    AtSplit(xml, 23, METHODRESPONSE_TAG, FAULT_TAG + (INDENT + (text + FAULT_END)));
    AtSplit(xml, 39, FAULT_TAG, INDENT + (text + FAULT_END));
    AtSplit(xml, 46, INDENT, text + FAULT_END);
    AtSplit(xml, 49, text, FAULT_END);
    HeadFound(xml);
    NextTagMiss(PARAMS_TAG, xml, 39, FAULT_TAG, 1);
    NextTagHit(FAULT_TAG, xml, 39);
    IndentedTrip(v, xml, 46);
  }

  lemma FaultPrintable(message: string, code: int)
    requires INT32_MIN <= code <= INT32_MAX
    ensures Printable(FaultValue(message, code)) && Renamed(FaultValue(message, code)) == FaultValue(message, code)
  {
    hide Less, Renamed, PlainText;
    var v := FaultValue(message, code);
    FaultNames();
    assert ReadableTimes(Int(code)) && ReadableTimes(Str(message));
    RenamedPlain(v);
  }

  lemma FaultNames()
    ensures Less("faultCode", "faultString") && PlainText("faultCode") && PlainText("faultString")
  {
    hide Less;
    var a, b := "faultCode", "faultString";
    assert Less(a, b) by {
      hide PlainText;
      assert a[..5] == "fault" && b[..5] == "fault";
      LessAt(a, b, 5);
    }
  }

  lemma {:induction false} LessAt(a: string, b: string, k: nat)
    requires k < |a| && k < |b| && a[..k] == b[..k] && a[k] < b[k]
    ensures Less(a, b)
  {
    if k > 0 {
      assert a[0] == a[..k][0] == b[..k][0] == b[0];
      assert a[1..][..k - 1] == a[..k][1..] && b[1..][..k - 1] == b[..k][1..];
      LessAt(a[1..], b[1..], k - 1);
    }
  }

  predicate OutcomePrintable(outcome: Outcome) {
    match outcome
    case Unknown => true
    case Result(v) => Sendable(v)
    case Fault(_, code) => INT32_MIN <= code <= INT32_MAX
  }

  /**
   What a caller is told of an outcome: a thrown fault or an unknown name as a fault struct, a
   result as a value with its member names encoded, no result as the empty string.
   */
  predicate Tells(r: Reply, name: string, outcome: Outcome) {
    r.ok && match outcome
      case Unknown =>
        && r.isFault && r.value == Struct([
             Member("faultCode", Int(-1)), Member("faultString", Str(name + ": unknown method name"))])
      case Fault(message, code) =>
        && r.isFault && r.value == Struct([Member("faultCode", Int(code)), Member("faultString", Str(message))])
      case Result(v) => !r.isFault && r.value == if v.Invalid? then Str("") else Renamed(v)
  }

  /** The client reads the server's result or fault, with the right flag. */
  lemma AnswerTrip(name: string, outcome: Outcome)
    requires OutcomePrintable(outcome) && |AnswerBody(Answer(name, outcome))| <= INT_MAX
    ensures Tells(ParseResponse(AnswerBody(Answer(name, outcome))), name, outcome)
  {
    hide ParseResponse, ResponseBody, FaultBody, Printable;
    var a := Answer(name, outcome);
    match outcome
    case Unknown =>
      FaultPrintable(name + ": unknown method name", -1);
      FaultTrip(a.0);
    case Result(v) =>
      EmptyPrintable();
      ResponseTrip(a.0);
    case Fault(message, code) =>
      FaultPrintable(message, code);
      FaultTrip(a.0);
  }

  lemma EmptyPrintable()
    ensures Printable(Str("")) && Renamed(Str("")) == Str("")
  {
  }
}
