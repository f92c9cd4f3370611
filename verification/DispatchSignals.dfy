/** A dispatcher round from the masks and the signals alone. */
module DispatchSignals {
  import opened Common
  import opened Dispatcher

  /* ---- which handlers run, and what they come to ---- */

  predicate Reads(e: Entry, s: Signal) {
    e.mask & 1 != 0 && s.readable
  }

  predicate Writes(e: Entry, s: Signal) {
    e.mask & 2 != 0 && s.writable
  }

  predicate Fails(e: Entry, s: Signal) {
    e.mask & 4 != 0 && s.oob
  }

  /** The list after the handlers of the requested and signalled events: reading, then writing, then exceptions. */
  function Handled(ss: seq<Entry>, e: Entry, s: Signal): seq<Entry> {
    var a := if Reads(e, s) then ApplyAll(ss, s.onRead.actions) else ss;
    var b := if Writes(e, s) then ApplyAll(a, s.onWrite.actions) else a;
    if Fails(e, s) then ApplyAll(b, s.onError.actions) else b
  }

  /** The AND of their results. */
  function Combined(e: Entry, s: Signal): Mask {
    (if Reads(e, s) then s.onRead.result else 0xFFFF_FFFF)
    & (if Writes(e, s) then s.onWrite.result else 0xFFFF_FFFF)
    & (if Fails(e, s) then s.onError.result else 0xFFFF_FFFF)
  }

  lemma CallsAre(e: Entry, s: Signal)
    ensures Calls(e.mask, s)
         == (if Reads(e, s) then [s.onRead] else []) + (if Writes(e, s) then [s.onWrite] else [])
            + (if Fails(e, s) then [s.onError] else [])
  {
  }

  lemma ManyAre(ss: seq<Entry>, r: seq<Behaviour>, w: seq<Behaviour>, x: seq<Behaviour>)
    requires |r| <= 1 && |w| <= 1 && |x| <= 1
    ensures ApplyAll(ss, ActionsOf(r + w + x))
         == ApplyAll(ApplyAll(ApplyAll(ss, ActionsOf(r)), ActionsOf(w)), ActionsOf(x))
    ensures AndOf(r + w + x) == And(And(AndOf(r), AndOf(w)), AndOf(x))
  {
    hide ApplyAll, ActionsOf, AndOf, And;
    JoinedCalls(r, w);
    JoinedCalls(r + w, x);
    ApplyMore(ss, ActionsOf(r), ActionsOf(w));
    ApplyMore(ss, ActionsOf(r + w), ActionsOf(x));
  }

  lemma JoinedCalls(a: seq<Behaviour>, b: seq<Behaviour>)
    requires |b| <= 1
    ensures ActionsOf(a + b) == ActionsOf(a) + ActionsOf(b) && AndOf(a + b) == And(AndOf(a), AndOf(b))
  {
    hide And;
    if b == [] {
      assert a + b == a && ActionsOf(a) + [] == ActionsOf(a);
      AndAll(AndOf(a));
    } else {
      assert b == [b[0]] && b[1..] == [];
      ActionsMore(a, b[0]);
      AndAll(b[0].result);
      assert b[0].actions + [] == b[0].actions;
    }
  }

  lemma OneCall(ss: seq<Entry>, called: bool, b: Behaviour)
    ensures var calls := if called then [b] else [];
      && ApplyAll(ss, ActionsOf(calls)) == (if called then ApplyAll(ss, b.actions) else ss)
      && AndOf(calls) == if called then b.result else 0xFFFF_FFFF
  {
    hide And;
    assert [b][1..] == [] && b.actions + [] == b.actions;
    AndAll(b.result);
  }

  lemma HandlersAre(ss: seq<Entry>, e: Entry, s: Signal)
    ensures ApplyAll(ss, ActionsOf(Calls(e.mask, s))) == Handled(ss, e, s)
    ensures AndOf(Calls(e.mask, s)) == Combined(e, s)
  {
    hide ApplyAll, ActionsOf, AndOf, Calls, Reads, Writes, Fails;
    CallsAre(e, s);
    var r := if Reads(e, s) then [s.onRead] else [];
    var w := if Writes(e, s) then [s.onWrite] else [];
    var x := if Fails(e, s) then [s.onError] else [];
    ManyAre(ss, r, w, x);
    OneCall(ss, Reads(e, s), s.onRead);
    var a := ApplyAll(ss, ActionsOf(r));
    OneCall(a, Writes(e, s), s.onWrite);
    OneCall(ApplyAll(a, ActionsOf(w)), Fails(e, s), s.onError);
  }

  /* ---- the round ---- */

  /**
   A source that its handlers leave registered gets the AND of the results of exactly the handlers
   whose events are requested and signalled: zero removes it, and closes it once unless it is kept
   open, all ones leave it as it is.
   */
  lemma RoundBySignals(ss: seq<Entry>, signals: seq<Signal>, i: nat)
    requires |signals| == |ss| && NoDuplicates(ss) && Behaved(ss, signals) && i < |ss|
    ensures var handled := Handled(After(ss, signals, i).sources, ss[i], signals[i]);
      var m := Combined(ss[i], signals[i]);
      var r := After(ss, signals, |ss|);
      && Lookup(r.sources, ss[i].id)
         == (if Lookup(handled, ss[i].id).None? || m == 0 then None
             else if m == 0xFFFF_FFFF then Lookup(handled, ss[i].id) else Some(m))
      && Count(r.closed, ss[i].id)
         == if Lookup(handled, ss[i].id).Some? && m == 0 && !signals[i].keepOpen then 1 else 0
  {
    hide Lookup, Calls, ActionsOf, ApplyAll, AndOf, NoDuplicates, MayActAll, Handled, Combined, Turn, Count;
    RoundDecides(ss, signals, i);
    ClosedOnce(ss, signals, i);
    HandlersAre(After(ss, signals, i).sources, ss[i], signals[i]);
  }

  /** The handlers that run act on no source. */
  predicate Idle(e: Entry, s: Signal) {
    && (Reads(e, s) ==> s.onRead.actions == []) && (Writes(e, s) ==> s.onWrite.actions == [])
    && (Fails(e, s) ==> s.onError.actions == [])
  }

  lemma IdleLeaves(ss: seq<Entry>, e: Entry, s: Signal)
    requires Idle(e, s)
    ensures Handled(ss, e, s) == ss
  {
    hide Reads, Writes, Fails;
  }

  /** Until its turn a source of the round has the mask it started with. */
  lemma BeforeTurn(ss: seq<Entry>, signals: seq<Signal>, i: nat)
    requires |signals| == |ss| && NoDuplicates(ss) && Behaved(ss, signals) && i < |ss|
    ensures Lookup(After(ss, signals, i).sources, ss[i].id) == Some(ss[i].mask)
  {
    hide Lookup, Calls, NoDuplicates, MayActAll, Turn;
    OthersLeave(ss, signals, i, 0, i);
    LookupAt(ss, i);
  }

  /** With handlers that act on nothing only their results count. */
  lemma IdleHandlers(ss: seq<Entry>, signals: seq<Signal>, i: nat)
    requires |signals| == |ss| && NoDuplicates(ss) && Behaved(ss, signals) && i < |ss| && Idle(ss[i], signals[i])
    ensures var m := Combined(ss[i], signals[i]);
      var r := After(ss, signals, |ss|);
      && Lookup(r.sources, ss[i].id)
         == (if m == 0 then None else if m == 0xFFFF_FFFF then Some(ss[i].mask) else Some(m))
      && Count(r.closed, ss[i].id) == if m == 0 && !signals[i].keepOpen then 1 else 0
  {
    hide Lookup, NoDuplicates, Behaved, Handled, Combined, Idle, Count;
    RoundBySignals(ss, signals, i);
    BeforeTurn(ss, signals, i);
    IdleLeaves(After(ss, signals, i).sources, ss[i], signals[i]);
  }

  /** A source keeps its mask, and is not closed, if no event that it asks for is signalled. */
  lemma UnsignalledKeepsMask(ss: seq<Entry>, signals: seq<Signal>, i: nat)
    requires |signals| == |ss| && NoDuplicates(ss) && Behaved(ss, signals) && i < |ss|
    requires ss[i].mask & 1 == 0 || !signals[i].readable
    requires ss[i].mask & 2 == 0 || !signals[i].writable
    requires ss[i].mask & 4 == 0 || !signals[i].oob
    ensures Lookup(After(ss, signals, |ss|).sources, ss[i].id) == Some(ss[i].mask)
    ensures Count(After(ss, signals, |ss|).closed, ss[i].id) == 0
  {
    hide Lookup, NoDuplicates, Behaved, Count, After;
    IdleHandlers(ss, signals, i);
  }

  /** With one requested event signalled, its handler alone decides. */
  lemma OneEvent(ss: seq<Entry>, signals: seq<Signal>, i: nat, b: Behaviour)
    requires |signals| == |ss| && NoDuplicates(ss) && Behaved(ss, signals) && i < |ss| && b.actions == []
    requires var (mask, s) := (ss[i].mask, signals[i]);
      || (b == s.onRead && mask & 1 != 0 && s.readable && !(mask & 2 != 0 && s.writable) && !(mask & 4 != 0 && s.oob))
      || (b == s.onWrite && mask & 2 != 0 && s.writable && !(mask & 1 != 0 && s.readable) && !(mask & 4 != 0 && s.oob))
      || (b == s.onError && mask & 4 != 0 && s.oob && !(mask & 1 != 0 && s.readable) && !(mask & 2 != 0 && s.writable))
    ensures var r := After(ss, signals, |ss|);
      && Lookup(r.sources, ss[i].id)
         == (if b.result == 0 then None else if b.result == 0xFFFF_FFFF then Some(ss[i].mask) else Some(b.result))
      && Count(r.closed, ss[i].id) == if b.result == 0 && !signals[i].keepOpen then 1 else 0
  {
    hide Lookup, NoDuplicates, Behaved, Count, After;
    IdleHandlers(ss, signals, i);
    AllOnes(b.result);
  }

  lemma AllOnes(m: Mask)
    ensures m & 0xFFFF_FFFF == m && 0xFFFF_FFFF & m == m
  {
  }

  /* ---- the list itself ---- */

  /** Only the first entry of a source is removed, or given a mask, and the others stay in order. */
  lemma {:induction false} FirstOnly(a: seq<Entry>, e: Entry, b: seq<Entry>, mask: Mask)
    requires Lookup(a, e.id).None?
    ensures Remove(a + [e] + b, e.id) == a + b
    ensures SetMask(a + [e] + b, e.id, mask) == a + [Entry(e.id, mask)] + b
    decreases a
  {
    hide SetMask, Remove;
    var ss, x := a + [e] + b, Entry(e.id, mask);
    SetMaskIs(ss, e.id, mask);
    RemoveIs(ss, e.id);
    if a == [] {
      assert ss[1..] == b;
    } else {
      OneOff(a, e, b);
      OneOff(a, x, b);
      FirstOnly(a[1..], e, b, mask);
      assert a + b == [a[0]] + (a[1..] + b);
    }
  }

  lemma OneOff<T>(a: seq<T>, e: T, b: seq<T>)
    requires a != []
    ensures var ss := a + [e] + b; ss[0] == a[0] && ss[1..] == a[1..] + [e] + b && ss == [a[0]] + (a[1..] + [e] + b)
  {
  }

  lemma RemoveIs(ss: seq<Entry>, id: nat)
    ensures Remove(ss, id) ==
      if ss == [] then [] else if ss[0].id == id then ss[1..] else [ss[0]] + Remove(ss[1..], id)
  {
  }
}
