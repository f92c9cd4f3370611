/** Bodies that neither side writes, and what is made of them. */
module RpcForms {
  import opened TextSearch
  import opened XmlText
  import opened XmlValue
  import opened XmlRoundTrip
  import opened RpcCall

  /** Without a method name the parameters are not looked at. */
  lemma NoName(params: Value)
    requires |RequestBody("", params)| <= INT_MAX
    ensures ParseRequest(RequestBody("", params)) == Request("", Invalid)
  {
    hide RequestBody, ParamsFromXml, FindTag, Find;
    var f := Find("", METHODNAME_ETAG, 0);
    if f.Pos? {
      AtSlice("", f.i, METHODNAME_ETAG);
    }
    NameKept("");
    NameTrip("", params, RequestBody("", params));
  }

  /** A body without the response tag, or with neither parameters nor a fault after it, is no answer. */
  lemma NoAnswer(xml: string, i: nat, other: string)
    requires |xml| <= INT_MAX
    requires Find(xml, "<methodResponse>", 0).Npos?
          || (Find(xml, "<methodResponse>", 0) == Pos(i) && At(xml, i + 16, other))
    requires |other| >= 2 && other[0] == '<' && other[1] != 'p' && other[1] != 'f'
    ensures ParseResponse(xml) == Reply(false, Invalid, false)
  {
    hide At, Find, NextTagIs, FromXml;
    if Find(xml, METHODRESPONSE_TAG, 0).Pos? {
      AtSlice(xml, i + 16, other);
      NextTagMiss(PARAMS_TAG, xml, i + 16, other, 1);
      NextTagMiss(FAULT_TAG, xml, i + 16, other, 1);
    }
  }

  /** A fault is found even behind an opening tag for parameters. */
  lemma FaultAfterParams(xml: string, i: nat, v: Value)
    requires |xml| <= INT_MAX && Find(xml, "<methodResponse>", 0) == Pos(i) && Printable(v)
    requires At(xml, i + 16, "<params>" + ("<fault>" + ToXml(v)))
    ensures ParseResponse(xml) == Reply(true, Renamed(v), true)
  {
    hide At, Find, NextTagIs, FromXml, ToXml, Printable;
    AtSplit(xml, i + 16, PARAMS_TAG, FAULT_TAG + ToXml(v));
    AtSplit(xml, i + 24, FAULT_TAG, ToXml(v));
    AtSlice(xml, i + 31, ToXml(v));
    NextTagHit(PARAMS_TAG, xml, i + 16);
    NextTagMiss(PARAM_TAG, xml, i + 24, FAULT_TAG, 1);
    NextTagHit(FAULT_TAG, xml, i + 24);
    RoundTrip(v, xml, i + 31);
  }
}
