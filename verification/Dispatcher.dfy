/** RobotRpcDispatch: the list of monitored sources and one round of event handling. */
module Dispatcher {
  import opened Common

  type Mask = bv32

  const READABLE: Mask := 1
  const WRITABLE: Mask := 2
  const EXCEPTION: Mask := 4
  const ALL: Mask := 0xFFFF_FFFF

  datatype Entry = Entry(id: nat, mask: Mask)

  /* ---- the list ---- */

  function Lookup(ss: seq<Entry>, id: nat): Option<Mask> {
    if ss == [] then None else if ss[0].id == id then Some(ss[0].mask) else Lookup(ss[1..], id)
  }

  function Remove(ss: seq<Entry>, id: nat): seq<Entry> {
    if ss == [] then [] else if ss[0].id == id then ss[1..] else [ss[0]] + Remove(ss[1..], id)
  }

  function SetMask(ss: seq<Entry>, id: nat, mask: Mask): seq<Entry> {
    if ss == [] then []
    else if ss[0].id == id then [Entry(id, mask)] + ss[1..]
    else [ss[0]] + SetMask(ss[1..], id, mask)
  }

  predicate NoDuplicates(ss: seq<Entry>) {
    forall i, j :: 0 <= i < j < |ss| ==> ss[i].id != ss[j].id
  }

  lemma {:induction false} LookupNone(ss: seq<Entry>, id: nat)
    ensures Lookup(ss, id).None? <==> forall i :: 0 <= i < |ss| ==> ss[i].id != id
  {
    if ss != [] {
      LookupNone(ss[1..], id);
      if ss[0].id != id && Lookup(ss[1..], id).None? {
        forall i | 0 <= i < |ss| ensures ss[i].id != id {
          if i > 0 {
            assert ss[i] == ss[1..][i - 1];
          }
        }
      }
    }
  }

  lemma {:induction false} LookupAt(ss: seq<Entry>, i: nat)
    requires i < |ss| && NoDuplicates(ss)
    ensures Lookup(ss, ss[i].id) == Some(ss[i].mask)
  {
    if i > 0 {
      assert ss[i] == ss[1..][i - 1];
      LookupAt(ss[1..], i - 1);
    }
  }

  lemma {:induction false} LookupAdded(ss: seq<Entry>, e: Entry, id: nat)
    ensures Lookup(ss + [e], id)
         == if Lookup(ss, id).Some? then Lookup(ss, id) else if e.id == id then Some(e.mask) else None
  {
    if ss == [] {
      assert (ss + [e])[1..] == [];
    } else {
      assert (ss + [e])[1..] == ss[1..] + [e];
      LookupAdded(ss[1..], e, id);
    }
  }

  lemma AddedNoDuplicates(ss: seq<Entry>, e: Entry)
    requires NoDuplicates(ss) && Lookup(ss, e.id).None?
    ensures NoDuplicates(ss + [e])
  {
    LookupNone(ss, e.id);
  }

  lemma {:induction false} Removed(ss: seq<Entry>, id: nat, other: nat)
    requires NoDuplicates(ss)
    ensures NoDuplicates(Remove(ss, id))
    ensures Lookup(Remove(ss, id), other) == if other == id then None else Lookup(ss, other)
    ensures forall e :: e in Remove(ss, id) ==> e in ss
  {
    if ss != [] {
      if ss[0].id == id {
        LookupNone(ss[1..], id);
      } else {
        Removed(ss[1..], id, other);
        var r := Remove(ss[1..], id);
        assert ss == [ss[0]] + ss[1..];
        forall k | 0 <= k < |r| ensures r[k].id != ss[0].id {
          assert r[k] in ss[1..];
        }
      }
    }
  }

  lemma {:induction false} MaskSet(ss: seq<Entry>, id: nat, mask: Mask, other: nat)
    ensures |SetMask(ss, id, mask)| == |ss| && forall i :: 0 <= i < |ss| ==> SetMask(ss, id, mask)[i].id == ss[i].id
    ensures Lookup(SetMask(ss, id, mask), other)
         == if other == id && Lookup(ss, id).Some? then Some(mask) else Lookup(ss, other)
  {
    if ss != [] && ss[0].id != id {
      MaskSet(ss[1..], id, mask, other);
      var r := SetMask(ss[1..], id, mask);
      assert SetMask(ss, id, mask)[1..] == r;
      forall i | 0 <= i < |ss| ensures SetMask(ss, id, mask)[i].id == ss[i].id {
        if i > 0 {
          assert SetMask(ss, id, mask)[i] == r[i - 1] && ss[i] == ss[1..][i - 1];
        }
      }
    }
  }

  /* ---- handlers ---- */

  datatype Action = Add(id: nat, mask: Mask) | Drop(id: nat)

  /** What a call of a handler does to the dispatcher, and the mask it returns. */
  datatype Behaviour = Behaviour(actions: seq<Action>, result: Mask)

  /** What polling reports for a source, and how its handlers behave. */
  datatype Signal = Signal(
    readable: bool, writable: bool, oob: bool,
    onRead: Behaviour, onWrite: Behaviour, onError: Behaviour, keepOpen: bool)

  predicate Wants(mask: Mask, event: Mask) {
    mask & event != 0
  }

  function And(a: Mask, b: Mask): Mask {
    a & b
  }

  /** Only requested events are handled. */
  function Calls(mask: Mask, s: Signal): seq<Behaviour> {
    (if Wants(mask, READABLE) && s.readable then [s.onRead] else [])
    + (if Wants(mask, WRITABLE) && s.writable then [s.onWrite] else [])
    + (if Wants(mask, EXCEPTION) && s.oob then [s.onError] else [])
  }

  function Apply(ss: seq<Entry>, a: Action): seq<Entry> {
    match a
    case Add(id, mask) => ss + [Entry(id, mask)]
    case Drop(id) => Remove(ss, id)
  }

  function ApplyAll(ss: seq<Entry>, actions: seq<Action>): seq<Entry>
    decreases actions
  {
    if actions == [] then ss else ApplyAll(Apply(ss, actions[0]), actions[1..])
  }

  function ActionsOf(calls: seq<Behaviour>): seq<Action> {
    if calls == [] then [] else calls[0].actions + ActionsOf(calls[1..])
  }

  function AndOf(calls: seq<Behaviour>): Mask {
    if calls == [] then ALL else And(calls[0].result, AndOf(calls[1..]))
  }

  /** A handler may drop and add its own source and add sources that are new to the round. */
  predicate MayAct(ss: seq<Entry>, snapshot: seq<Entry>, id: nat, a: Action) {
    match a
    case Add(x, _) => Lookup(ss, x).None? && (x == id || Lookup(snapshot, x).None?)
    case Drop(x) => x == id
  }

  predicate MayActAll(ss: seq<Entry>, snapshot: seq<Entry>, id: nat, actions: seq<Action>)
    decreases actions
  {
    actions == [] || (
      && MayAct(ss, snapshot, id, actions[0])
      && MayActAll(Apply(ss, actions[0]), snapshot, id, actions[1..]))
  }

  lemma {:induction false} ApplyMore(ss: seq<Entry>, a: seq<Action>, b: seq<Action>)
    ensures ApplyAll(ss, a + b) == ApplyAll(ApplyAll(ss, a), b)
    decreases a
  {
    if a == [] {
      assert a + b == b;
    } else {
      assert (a + b)[1..] == a[1..] + b;
      ApplyMore(Apply(ss, a[0]), a[1..], b);
    }
  }

  /* ---- one source's turn, and the round ---- */

  datatype Result = Result(sources: seq<Entry>, closed: seq<nat>)

  /** After its handlers: a zero mask removes the source, a changed one is stored, a missing source is left alone. */
  function Settle(ss: seq<Entry>, id: nat, newMask: Mask, keepOpen: bool): Result {
    if Lookup(ss, id).None? then Result(ss, [])
    else if newMask == 0 then Result(Remove(ss, id), if keepOpen then [] else [id])
    else if newMask != ALL then Result(SetMask(ss, id, newMask), [])
    else Result(ss, [])
  }

  function Turn(ss: seq<Entry>, e: Entry, s: Signal): Result {
    var calls := Calls(e.mask, s);
    Settle(ApplyAll(ss, ActionsOf(calls)), e.id, AndOf(calls), s.keepOpen)
  }

  /** The state after the first n sources of the snapshot have had their turns. */
  function After(ss: seq<Entry>, signals: seq<Signal>, n: nat): Result
    requires |signals| == |ss| && n <= |ss|
    decreases n
  {
    if n == 0 then Result(ss, [])
    else
      var before := After(ss, signals, n - 1);
      var turn := Turn(before.sources, ss[n - 1], signals[n - 1]);
      Result(turn.sources, before.closed + turn.closed)
  }

  ghost predicate Behaved(ss: seq<Entry>, signals: seq<Signal>)
    requires |signals| == |ss|
  {
    forall n {:trigger After(ss, signals, n)} :: 0 <= n < |ss| ==>
      MayActAll(After(ss, signals, n).sources, ss, ss[n].id, ActionsOf(Calls(ss[n].mask, signals[n])))
  }

  /** One turn of the search for a source. */
  lemma RemoveFrom(ss: seq<Entry>, i: nat, id: nat)
    requires i <= |ss|
    ensures i == 0 ==> ss[..i] + Remove(ss[i..], id) == Remove(ss, id)
    ensures i == |ss| ==> ss[..i] + Remove(ss[i..], id) == ss
    ensures i < |ss| && ss[i].id == id ==> Remove(ss[i..], id) == ss[i + 1..]
    ensures i < |ss| && ss[i].id != id ==> ss[..i] + Remove(ss[i..], id) == ss[..i + 1] + Remove(ss[i + 1..], id)
  {
    assert i == 0 ==> ss[i..] == ss;
    if i < |ss| {
      assert ss[i..][1..] == ss[i + 1..] && ss[..i + 1] == ss[..i] + [ss[i]];
    } else {
      assert ss[i..] == [] && ss[..i] == ss;
    }
  }

  lemma SetMaskFrom(ss: seq<Entry>, i: nat, id: nat, mask: Mask)
    requires i <= |ss|
    ensures i == 0 ==> ss[..i] + SetMask(ss[i..], id, mask) == SetMask(ss, id, mask)
    ensures i == |ss| ==> ss[..i] + SetMask(ss[i..], id, mask) == ss
    ensures i < |ss| && ss[i].id == id ==> ss[..i] + SetMask(ss[i..], id, mask) == ss[i := Entry(id, mask)]
    ensures i < |ss| && ss[i].id != id ==>
      ss[..i] + SetMask(ss[i..], id, mask) == ss[..i + 1] + SetMask(ss[i + 1..], id, mask)
  {
    hide SetMask;
    SetMaskIs(ss[i..], id, mask);
    assert i == 0 ==> ss[i..] == ss;
    if i < |ss| {
      assert ss[i..][0] == ss[i] && ss[i..][1..] == ss[i + 1..];
      Updated(ss, i, Entry(id, mask));
      OneFurther(ss, i, SetMask(ss[i + 1..], id, mask));
    } else {
      assert ss[i..] == [] && ss[..i] == ss;
    }
  }

  lemma Updated<T>(ss: seq<T>, i: nat, x: T)
    requires i < |ss|
    ensures ss[i := x] == ss[..i] + ([x] + ss[i + 1..])
  {
  }

  lemma OneFurther<T>(ss: seq<T>, i: nat, rest: seq<T>)
    requires i < |ss|
    ensures ss[..i] + ([ss[i]] + rest) == ss[..i + 1] + rest
  {
  }

  lemma SetMaskIs(ss: seq<Entry>, id: nat, mask: Mask)
    ensures SetMask(ss, id, mask) ==
      if ss == [] then []
      else if ss[0].id == id then [Entry(id, mask)] + ss[1..]
      else [ss[0]] + SetMask(ss[1..], id, mask)
  {
  }

  /* ---- the dispatcher as an object ---- */

  class Dispatch {
    var sources: seq<Entry>
    var closed: seq<nat>

    constructor ()
      ensures sources == [] && closed == []
    {
      sources, closed := [], [];
    }

    method AddSource(id: nat, mask: Mask)
      modifies this
      ensures sources == old(sources) + [Entry(id, mask)] && closed == old(closed)
    {
      sources := sources + [Entry(id, mask)];
    }

    method RemoveSource(id: nat)
      modifies this
      ensures sources == Remove(old(sources), id) && closed == old(closed)
    {
      hide Remove;
      var i := 0;
      RemoveFrom(sources, 0, id);
      while i < |sources|
        invariant i <= |sources| && sources == old(sources) && closed == old(closed)
        invariant sources[..i] + Remove(sources[i..], id) == Remove(sources, id)
      {
        RemoveFrom(sources, i, id);
        if sources[i].id == id {
          sources := sources[..i] + sources[i + 1..];
          return;
        }
        i := i + 1;
      }
      RemoveFrom(sources, i, id);
    }

    method SetSourceEvents(id: nat, mask: Mask)
      modifies this
      ensures sources == SetMask(old(sources), id, mask) && closed == old(closed)
    {
      hide SetMask;
      var i := 0;
      SetMaskFrom(sources, 0, id, mask);
      while i < |sources|
        invariant i <= |sources| && sources == old(sources) && closed == old(closed)
        invariant sources[..i] + SetMask(sources[i..], id, mask) == SetMask(sources, id, mask)
      {
        SetMaskFrom(sources, i, id, mask);
        if sources[i].id == id {
          sources := sources[i := Entry(id, mask)];
          return;
        }
        i := i + 1;
      }
      SetMaskFrom(sources, i, id, mask);
    }

    /** Running a handler: it acts on this dispatcher and returns a mask. */
    method HandleEvent(b: Behaviour) returns (mask: Mask)
      modifies this
      ensures sources == ApplyAll(old(sources), b.actions) && closed == old(closed) && mask == b.result
    {
      var i := 0;
      assert b.actions[0..] == b.actions;
      while i < |b.actions|
        invariant i <= |b.actions| && closed == old(closed)
        invariant ApplyAll(sources, b.actions[i..]) == ApplyAll(old(sources), b.actions)
      {
        assert b.actions[i..][0] == b.actions[i] && b.actions[i..][1..] == b.actions[i + 1..];
        match b.actions[i] {
          case Add(id, m) => AddSource(id, m);
          case Drop(id) => RemoveSource(id);
        }
        i := i + 1;
      }
      mask := b.result;
    }

    /** The handlers of the requested events that were signalled. */
    method RunHandlers(e: Entry, s: Signal) returns (newMask: Mask)
      modifies this
      ensures var calls := Calls(e.mask, s);
        sources == ApplyAll(old(sources), ActionsOf(calls)) && newMask == AndOf(calls) && closed == old(closed)
    {
      hide ApplyAll, ActionsOf, AndOf, And, Wants;
      newMask := ALL;
      ghost var done: seq<Behaviour> := [];
      NothingDone(sources);
      if Wants(e.mask, READABLE) && s.readable {
        var r := HandleEvent(s.onRead);
        OneMore(old(sources), done, s.onRead);
        newMask, done := And(newMask, r), done + [s.onRead];
      }
      if Wants(e.mask, WRITABLE) && s.writable {
        var r := HandleEvent(s.onWrite);
        OneMore(old(sources), done, s.onWrite);
        newMask, done := And(newMask, r), done + [s.onWrite];
      }
      if Wants(e.mask, EXCEPTION) && s.oob {
        var r := HandleEvent(s.onError);
        OneMore(old(sources), done, s.onError);
        newMask, done := And(newMask, r), done + [s.onError];
      }
      assert done == Calls(e.mask, s);
    }

    method DoTurn(e: Entry, s: Signal)
      modifies this
      ensures Result(sources, closed) == var t := Turn(old(sources), e, s); Result(t.sources, old(closed) + t.closed)
    {
      hide ApplyAll, ActionsOf, AndOf, Calls, Remove, SetMask, Lookup;
      var newMask := RunHandlers(e, s);
      if Lookup(sources, e.id).None? {
        return;
      }
      if newMask == 0 {
        RemoveSource(e.id);
        if !s.keepOpen {
          closed := closed + [e.id];
        }
      } else if newMask != ALL {
        SetSourceEvents(e.id, newMask);
      }
    }

    /** One round: every source of the snapshot has its turn. */
    method Round(signals: seq<Signal>)
      requires |signals| == |sources|
      modifies this
      ensures var r := After(old(sources), signals, |signals|);
        Result(sources, closed) == Result(r.sources, old(closed) + r.closed)
    {
      hide Turn;
      var snapshot := sources;
      var i := 0;
      while i < |snapshot|
        invariant i <= |snapshot|
        invariant var r := After(snapshot, signals, i);
          Result(sources, closed) == Result(r.sources, old(closed) + r.closed)
      {
        DoTurn(snapshot[i], signals[i]);
        i := i + 1;
      }
    }
  }

  lemma NothingDone(ss: seq<Entry>)
    ensures ApplyAll(ss, ActionsOf([])) == ss && AndOf([]) == ALL
  {
  }

  lemma OneMore(ss: seq<Entry>, done: seq<Behaviour>, b: Behaviour)
    ensures ApplyAll(ss, ActionsOf(done + [b])) == ApplyAll(ApplyAll(ss, ActionsOf(done)), b.actions)
    ensures AndOf(done + [b]) == And(AndOf(done), b.result)
  {
    ActionsMore(done, b);
    ApplyMore(ss, ActionsOf(done), b.actions);
  }

  lemma {:induction false} ActionsMore(done: seq<Behaviour>, b: Behaviour)
    ensures ActionsOf(done + [b]) == ActionsOf(done) + b.actions && AndOf(done + [b]) == And(AndOf(done), b.result)
  {
    hide And;
    AndAll(b.result);
    if done == [] {
      assert (done + [b])[1..] == [];
      assert b.actions + [] == b.actions;
    } else {
      assert (done + [b])[1..] == done[1..] + [b];
      ActionsMore(done[1..], b);
      assert done[0].actions + (ActionsOf(done[1..]) + b.actions) == done[0].actions + ActionsOf(done[1..]) + b.actions;
      AndAssociates(done[0].result, AndOf(done[1..]), b.result);
    }
  }

  lemma AndAll(m: Mask)
    ensures And(m, ALL) == m && And(ALL, m) == m
  {
  }

  lemma AndAssociates(a: Mask, b: Mask, c: Mask)
    ensures And(And(a, b), c) == And(a, And(b, c))
  {
  }

  /* ---- what a round keeps ---- */

  /** Handlers keep the list free of duplicates and leave the other sources of the round alone. */
  lemma {:induction false} ActionsKeep(ss: seq<Entry>, snapshot: seq<Entry>, id: nat, actions: seq<Action>, other: nat)
    requires NoDuplicates(ss) && MayActAll(ss, snapshot, id, actions)
    ensures NoDuplicates(ApplyAll(ss, actions))
    ensures other != id && Lookup(snapshot, other).Some? ==> Lookup(ApplyAll(ss, actions), other) == Lookup(ss, other)
    decreases actions
  {
    hide Lookup, Remove, NoDuplicates;
    if actions != [] {
      var next := Apply(ss, actions[0]);
      match actions[0] {
        case Add(x, m) =>
          AddedNoDuplicates(ss, Entry(x, m));
          LookupAdded(ss, Entry(x, m), other);
        case Drop(x) => Removed(ss, x, other);
      }
      ActionsKeep(next, snapshot, id, actions[1..], other);
    }
  }

  lemma SettleKeeps(ss: seq<Entry>, id: nat, newMask: Mask, keepOpen: bool, other: nat)
    requires NoDuplicates(ss)
    ensures NoDuplicates(Settle(ss, id, newMask, keepOpen).sources)
    ensures other != id ==> Lookup(Settle(ss, id, newMask, keepOpen).sources, other) == Lookup(ss, other)
  {
    hide Lookup, Remove, SetMask;
    Removed(ss, id, other);
    MaskSet(ss, id, newMask, other);
  }

  lemma TurnKeeps(ss: seq<Entry>, snapshot: seq<Entry>, e: Entry, s: Signal, other: nat)
    requires NoDuplicates(ss) && MayActAll(ss, snapshot, e.id, ActionsOf(Calls(e.mask, s)))
    ensures NoDuplicates(Turn(ss, e, s).sources)
    ensures other != e.id && Lookup(snapshot, other).Some? ==>
      Lookup(Turn(ss, e, s).sources, other) == Lookup(ss, other)
  {
    hide Lookup, NoDuplicates, Settle, Calls, ActionsOf, MayActAll, ApplyAll;
    var calls := Calls(e.mask, s);
    ActionsKeep(ss, snapshot, e.id, ActionsOf(calls), other);
    SettleKeeps(ApplyAll(ss, ActionsOf(calls)), e.id, AndOf(calls), s.keepOpen, other);
  }

  /** The list stays free of duplicates through the round. */
  lemma {:induction false} RoundNoDuplicates(ss: seq<Entry>, signals: seq<Signal>, n: nat)
    requires |signals| == |ss| && n <= |ss| && NoDuplicates(ss) && Behaved(ss, signals)
    ensures NoDuplicates(After(ss, signals, n).sources)
    decreases n
  {
    hide Turn, NoDuplicates, MayActAll, Calls, ActionsOf;
    if n > 0 {
      RoundNoDuplicates(ss, signals, n - 1);
      TurnKeeps(After(ss, signals, n - 1).sources, ss, ss[n - 1], signals[n - 1], 0);
    }
  }

  /** Turns of other sources leave a source of the round as it is. */
  lemma {:induction false} OthersLeave(ss: seq<Entry>, signals: seq<Signal>, i: nat, from: nat, end: nat)
    requires |signals| == |ss| && NoDuplicates(ss) && Behaved(ss, signals) && i < |ss|
    requires from <= end <= |ss| && (end <= i || i < from)
    ensures Lookup(After(ss, signals, end).sources, ss[i].id) == Lookup(After(ss, signals, from).sources, ss[i].id)
    decreases end
  {
    hide Turn, MayActAll, Calls, ActionsOf, Lookup;
    if end != from {
      OthersLeave(ss, signals, i, from, end - 1);
      RoundNoDuplicates(ss, signals, end - 1);
      LookupAt(ss, i);
      TurnKeeps(After(ss, signals, end - 1).sources, ss, ss[end - 1], signals[end - 1], ss[i].id);
    }
  }

  /** What becomes of a source in its own turn. */
  function Fate(ss: seq<Entry>, id: nat, newMask: Mask): Option<Mask> {
    if Lookup(ss, id).None? || newMask == 0 then None
    else if newMask != ALL then Some(newMask)
    else Lookup(ss, id)
  }

  lemma SettleDecides(ss: seq<Entry>, id: nat, newMask: Mask, keepOpen: bool)
    requires NoDuplicates(ss)
    ensures var r := Settle(ss, id, newMask, keepOpen);
      && Lookup(r.sources, id) == Fate(ss, id, newMask)
      && r.closed == if Lookup(ss, id).Some? && newMask == 0 && !keepOpen then [id] else []
  {
    hide Lookup, Remove, SetMask;
    Removed(ss, id, id);
    MaskSet(ss, id, newMask, id);
  }

  /**
   The round decides each source's entry by its own handlers: one that is still registered gets
   the AND of their results, and a zero removes it.
   */
  lemma RoundDecides(ss: seq<Entry>, signals: seq<Signal>, i: nat)
    requires |signals| == |ss| && NoDuplicates(ss) && Behaved(ss, signals) && i < |ss|
    ensures var calls := Calls(ss[i].mask, signals[i]);
      var handled := ApplyAll(After(ss, signals, i).sources, ActionsOf(calls));
      Lookup(After(ss, signals, |ss|).sources, ss[i].id) == Fate(handled, ss[i].id, AndOf(calls))
  {
    hide Lookup, Calls, ActionsOf, ApplyAll, AndOf, Fate, Settle, NoDuplicates, MayActAll;
    var before := After(ss, signals, i);
    var calls := Calls(ss[i].mask, signals[i]);
    RoundNoDuplicates(ss, signals, i);
    ActionsKeep(before.sources, ss, ss[i].id, ActionsOf(calls), ss[i].id);
    SettleDecides(ApplyAll(before.sources, ActionsOf(calls)), ss[i].id, AndOf(calls), signals[i].keepOpen);
    OthersLeave(ss, signals, i, i + 1, |ss|);
  }

  function Count(ids: seq<nat>, id: nat): nat {
    if ids == [] then 0 else (if ids[0] == id then 1 else 0) + Count(ids[1..], id)
  }

  lemma {:induction false} CountMore(a: seq<nat>, b: seq<nat>, id: nat)
    ensures Count(a + b, id) == Count(a, id) + Count(b, id)
  {
    if a == [] {
      assert a + b == b;
    } else {
      assert (a + b)[1..] == a[1..] + b;
      CountMore(a[1..], b, id);
    }
  }

  lemma OtherTurnCloses(ss: seq<Entry>, e: Entry, s: Signal, id: nat)
    requires id != e.id
    ensures Count(Turn(ss, e, s).closed, id) == 0
  {
    hide ApplyAll, Lookup, Remove, SetMask, Calls, ActionsOf, AndOf;
  }

  /** What a source's own turn closes. */
  lemma TurnCloses(ss: seq<Entry>, e: Entry, s: Signal, snapshot: seq<Entry>, id: nat)
    requires NoDuplicates(ss) && id == e.id && MayActAll(ss, snapshot, id, ActionsOf(Calls(e.mask, s)))
    ensures var calls := Calls(e.mask, s);
      var handled := ApplyAll(ss, ActionsOf(calls));
      Turn(ss, e, s).closed == if Lookup(handled, id).Some? && AndOf(calls) == 0 && !s.keepOpen then [id] else []
  {
    hide Lookup, Calls, ActionsOf, ApplyAll, AndOf, Settle, NoDuplicates, MayActAll;
    var calls := Calls(e.mask, s);
    ActionsKeep(ss, snapshot, id, ActionsOf(calls), id);
    SettleDecides(ApplyAll(ss, ActionsOf(calls)), id, AndOf(calls), s.keepOpen);
  }

  lemma {:induction false} OthersDoNotClose(ss: seq<Entry>, signals: seq<Signal>, i: nat, from: nat, end: nat)
    requires |signals| == |ss| && NoDuplicates(ss) && i < |ss| && from <= end <= |ss| && (end <= i || i < from)
    ensures Count(After(ss, signals, end).closed, ss[i].id) == Count(After(ss, signals, from).closed, ss[i].id)
    decreases end
  {
    hide Turn, Count;
    if end != from {
      OthersDoNotClose(ss, signals, i, from, end - 1);
      var before := After(ss, signals, end - 1);
      OtherTurnCloses(before.sources, ss[end - 1], signals[end - 1], ss[i].id);
      CountMore(before.closed, Turn(before.sources, ss[end - 1], signals[end - 1]).closed, ss[i].id);
    }
  }

  /**
   It is closed exactly once if its handlers leave it registered with a zero mask and not kept
   open, and never otherwise.
   */
  lemma ClosedOnce(ss: seq<Entry>, signals: seq<Signal>, i: nat)
    requires |signals| == |ss| && NoDuplicates(ss) && Behaved(ss, signals) && i < |ss|
    ensures var calls := Calls(ss[i].mask, signals[i]);
      var handled := ApplyAll(After(ss, signals, i).sources, ActionsOf(calls));
      Count(After(ss, signals, |ss|).closed, ss[i].id)
      == if Lookup(handled, ss[i].id).Some? && AndOf(calls) == 0 && !signals[i].keepOpen then 1 else 0
  {
    hide Lookup, Calls, ActionsOf, ApplyAll, AndOf, Settle, NoDuplicates, MayActAll, Count, Turn;
    var before := After(ss, signals, i);
    var calls := Calls(ss[i].mask, signals[i]);
    var turn := Turn(before.sources, ss[i], signals[i]);
    RoundNoDuplicates(ss, signals, i);
    TurnCloses(before.sources, ss[i], signals[i], ss, ss[i].id);
    CountMore(before.closed, turn.closed, ss[i].id);
    OthersDoNotClose(ss, signals, i, 0, i);
    OthersDoNotClose(ss, signals, i, i + 1, |ss|);
    CountOne(ss[i].id);
  }

  lemma CountOne(id: nat)
    ensures Count([id], id) == 1 && Count([], id) == 0
  {
  }
}
