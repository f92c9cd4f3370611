/** What the header scan finds, said without it: the first end of the header, the last fields before it. */
module HeaderMarks {
  import opened TextSearch
  import opened XmlText
  import opened HttpFrame

  /** The last length field among the positions from `lo` up to `e`. */
  predicate LastLength(h: string, lo: nat, e: nat, k: nat) {
    lo <= k < e && LengthAt(h, k) && forall j :: k < j < e ==> !LengthAt(h, j)
  }

  predicate LastConnection(h: string, lo: nat, e: nat, k: nat) {
    lo <= k < e && ConnectionAt(h, k) && forall j :: k < j < e ==> !ConnectionAt(h, j)
  }

  /** Where the header ends: at its first end, or nowhere. */
  predicate FirstEnd(h: string, lo: nat, e: nat) {
    lo <= e <= |h| && (e < |h| ==> EndsAt(h, e)) && forall k :: lo <= k < e ==> !EndsAt(h, k)
  }

  /** The two fields start differently enough. */
  lemma NotBoth(h: string, i: nat)
    ensures !(LengthAt(h, i) && ConnectionAt(h, i))
  {
    assert LengthAt(h, i) ==> Lower(h[i + 3]) == Lower(LENGTH_FIELD[3]) == 't';
    assert ConnectionAt(h, i) ==> Lower(h[i + 3]) == Lower(CONNECTION_FIELD[3]) == 'n';
  }

  predicate FoundLength(h: string, lo: nat, e: nat, before: Index, after: Index) {
    if after == before then forall k :: lo <= k < e ==> !LengthAt(h, k)
    else after.Pos? && after.i >= 16 && LastLength(h, lo, e, after.i - 16)
  }

  predicate FoundConnection(h: string, lo: nat, e: nat, before: Index, after: Index) {
    if after == before then forall k :: lo <= k < e ==> !ConnectionAt(h, k)
    else after.Pos? && after.i >= 12 && LastConnection(h, lo, e, after.i - 12)
  }

  /** One position further back. */
  lemma LengthStep(h: string, cp: nat, e: nat, lp: Index, after: Index)
    requires cp < e && (lp.Pos? ==> lp.i < cp + 16)
    requires FoundLength(h, cp + 1, e, if LengthAt(h, cp) then Pos(cp + 16) else lp, after)
    ensures FoundLength(h, cp, e, lp, after)
  {
    hide LengthAt;
  }

  lemma ConnectionStep(h: string, cp: nat, e: nat, kp: Index, after: Index)
    requires cp < e && (kp.Pos? ==> kp.i < cp + 12)
    requires FoundConnection(h, cp + 1, e, if ConnectionAt(h, cp) then Pos(cp + 12) else kp, after)
    ensures FoundConnection(h, cp, e, kp, after)
  {
    hide ConnectionAt;
  }

  lemma NothingFound(h: string, cp: nat, lp: Index, kp: Index)
    ensures FoundLength(h, cp, cp, lp, lp) && FoundConnection(h, cp, cp, kp, kp)
  {
  }

  lemma EndStep(h: string, cp: nat, e: nat)
    requires cp < |h| && !EndsAt(h, cp) && FirstEnd(h, cp + 1, e)
    ensures cp < e && FirstEnd(h, cp, e)
  {
    hide EndsAt;
  }

  lemma {:induction false} ScanFinds(h: string, cp: nat, lp: Index, kp: Index) returns (e: nat)
    requires cp <= |h| && (lp.Pos? ==> lp.i < cp + 16) && (kp.Pos? ==> kp.i < cp + 12)
    ensures FirstEnd(h, cp, e)
    ensures var m := ScanFrom(h, cp, lp, kp);
      && m.bp == (if e < |h| then Pos(BodyAfter(h, e)) else Npos)
      && FoundLength(h, cp, e, lp, m.lp) && FoundConnection(h, cp, e, kp, m.kp)
    decreases |h| - cp
  {
    hide LengthAt, ConnectionAt, LongEndAt, ShortEndAt, FirstEnd, FoundLength, FoundConnection;
    NothingFound(h, cp, lp, kp);
    if cp == |h| {
      EndIs(h, cp);
      e := cp;
    } else {
      ConnectionIsNoEnd(h, cp);
      NotBoth(h, cp);
      if EndsAt(h, cp) {
        EndIs(h, cp);
        e := cp;
      } else {
        var lp' := if LengthAt(h, cp) then Pos(cp + 16) else lp;
        var kp' := if ConnectionAt(h, cp) then Pos(cp + 12) else kp;
        e := ScanFinds(h, cp + 1, lp', kp');
        EndStep(h, cp, e);
        LengthStep(h, cp, e, lp, ScanFrom(h, cp + 1, lp', kp').lp);
        ConnectionStep(h, cp, e, kp, ScanFrom(h, cp + 1, lp', kp').kp);
      }
    }
  }

  lemma EndIs(h: string, e: nat)
    requires e <= |h| && (e < |h| ==> EndsAt(h, e))
    ensures FirstEnd(h, e, e)
  {
    hide EndsAt;
  }

  /**
   The scan of any text: the body starts after the first end of the header that has a character
   behind it, the length and the option are the last ones named before that end, in any case.
   */
  lemma MarksFound(h: string) returns (e: nat)
    ensures FirstEnd(h, 0, e)
    ensures MarksOf(h).bp == if e < |h| then Pos(BodyAfter(h, e)) else Npos
    ensures FoundLength(h, 0, e, Npos, MarksOf(h).lp) && FoundConnection(h, 0, e, Npos, MarksOf(h).kp)
  {
    hide ScanFrom, FoundLength, FoundConnection;
    e := ScanFinds(h, 0, Npos, Npos);
  }
}
