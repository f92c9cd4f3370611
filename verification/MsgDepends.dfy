/** Message dependencies: the memoising loader, the list of all dependencies and its unique form. */
module MsgDepends {
  import opened Common
  import opened Graphs

  /** The type of a field, with array brackets removed and its package filled in. */
  datatype TypeRef = Builtin(name: string) | Message(name: string)

  datatype Spec = Spec(name: string, types: seq<TypeRef>, text: string)

  /** The message types among the field types, in order and with repetitions. */
  function MessageTypes(types: seq<TypeRef>): seq<string> {
    if types == [] then []
    else (if types[0].Message? then [types[0].name] else []) + MessageTypes(types[1..])
  }

  /** Types can be ranked so that every dependency has a smaller rank: there is no cycle. */
  type Rank = string -> nat

  ghost predicate Ranked(g: Graph, rank: Rank) {
    forall t, d :: t in g && d in g[t] ==> rank(d) < rank(t)
  }

  /** Every listed dependency has its own entry. */
  ghost predicate Closed(g: Graph) {
    forall t, d :: t in g && d in g[t] ==> d in g
  }

  /* ---- get_all_depends ---- */

  /** Each dependency followed by all of its own; None stands for KeyError. */
  ghost function AllDepends(g: Graph, rank: Rank, t: string): (r: Option<seq<string>>)
    requires Ranked(g, rank)
    decreases rank(t), 1, 0
  {
    if t in g then AllOf(g, rank, t, g[t]) else None
  }

  ghost function AllOf(g: Graph, rank: Rank, t: string, ds: seq<string>): (r: Option<seq<string>>)
    requires Ranked(g, rank) && forall d :: d in ds ==> rank(d) < rank(t)
    decreases rank(t), 0, |ds|
  {
    if ds == [] then Some([])
    else
      var own := AllDepends(g, rank, ds[0]);
      var rest := AllOf(g, rank, t, ds[1..]);
      if own.None? || rest.None? then None else Some([ds[0]] + own.value + rest.value)
  }

  /** On a closed table it never raises. */
  lemma {:induction false} ClosedNeverRaises(g: Graph, rank: Rank, t: string)
    requires Ranked(g, rank) && Closed(g) && t in g
    ensures AllDepends(g, rank, t).Some?
    decreases rank(t), 1, 0
  {
    AllOfDefined(g, rank, t, g[t]);
  }

  lemma {:induction false} AllOfDefined(g: Graph, rank: Rank, t: string, ds: seq<string>)
    requires Ranked(g, rank) && Closed(g) && forall d :: d in ds ==> d in g && rank(d) < rank(t)
    ensures AllOf(g, rank, t, ds).Some?
    decreases rank(t), 0, |ds|
  {
    if ds != [] {
      assert ds[0] in ds;
      ClosedNeverRaises(g, rank, ds[0]);
      AllOfDefined(g, rank, t, ds[1..]);
    }
  }

  /** The list in full: defined where the table is closed. */
  ghost function Listed(g: Graph, rank: Rank, t: string): seq<string>
    requires Ranked(g, rank) && Closed(g) && t in g
  {
    ClosedNeverRaises(g, rank, t);
    AllDepends(g, rank, t).value
  }

  ghost function ListedOf(g: Graph, rank: Rank, ds: seq<string>): seq<string>
    requires Ranked(g, rank) && Closed(g) && forall d :: d in ds ==> d in g
  {
    if ds == [] then [] else [ds[0]] + Listed(g, rank, ds[0]) + ListedOf(g, rank, ds[1..])
  }

  lemma {:induction false} AllOfListed(g: Graph, rank: Rank, t: string, ds: seq<string>)
    requires Ranked(g, rank) && Closed(g) && forall d :: d in ds ==> d in g && rank(d) < rank(t)
    ensures AllOf(g, rank, t, ds) == Some(ListedOf(g, rank, ds))
    decreases |ds|
  {
    if ds != [] {
      assert ds[0] in ds;
      ClosedNeverRaises(g, rank, ds[0]);
      AllOfListed(g, rank, t, ds[1..]);
    }
  }

  lemma ListedIs(g: Graph, rank: Rank, t: string)
    requires Ranked(g, rank) && Closed(g) && t in g
    ensures Listed(g, rank, t) == ListedOf(g, rank, g[t])
  {
    hide ListedOf;
    AllOfListed(g, rank, t, g[t]);
  }

  /* ---- reachability ---- */

  ghost predicate Reaches(g: Graph, t: string, x: string) {
    exists p :: Walk(g, p) && |p| >= 2 && p[0] == t && p[|p| - 1] == x
  }

  /** The list holds exactly the types reached by following dependencies. */
  lemma {:induction false} ListedReaches(g: Graph, rank: Rank, t: string, x: string)
    requires Ranked(g, rank) && Closed(g) && t in g
    ensures x in Listed(g, rank, t) <==> Reaches(g, t, x)
    decreases rank(t)
  {
    hide Walk;
    ListedIs(g, rank, t);
    if x in ListedOf(g, rank, g[t]) {
      var d := InListedOf(g, rank, g[t], x);
      StepReaches(g, t, d);
      if x != d {
        ListedReaches(g, rank, d, x);
        ReachesMore(g, t, d, x);
      }
    }
    if Reaches(g, t, x) {
      var d := FirstStep(g, t, x);
      if d != x {
        ListedReaches(g, rank, d, x);
      }
      ListedOfHas(g, rank, g[t], d, x);
    }
  }

  lemma {:induction false} InListedOf(g: Graph, rank: Rank, ds: seq<string>, x: string) returns (d: string)
    requires Ranked(g, rank) && Closed(g) && (forall d :: d in ds ==> d in g) && x in ListedOf(g, rank, ds)
    ensures d in ds && (x == d || x in Listed(g, rank, d))
  {
    hide Listed;
    if x == ds[0] || x in Listed(g, rank, ds[0]) {
      d := ds[0];
    } else {
      d := InListedOf(g, rank, ds[1..], x);
    }
  }

  lemma {:induction false} ListedOfHas(g: Graph, rank: Rank, ds: seq<string>, d: string, x: string)
    requires Ranked(g, rank) && Closed(g) && (forall d :: d in ds ==> d in g) && d in ds
    requires (x == d || x in Listed(g, rank, d))
    ensures x in ListedOf(g, rank, ds)
    decreases ds
  {
    hide Listed;
    if d != ds[0] {
      ListedOfHas(g, rank, ds[1..], d, x);
    }
  }

  lemma StepReaches(g: Graph, t: string, d: string)
    requires t in g && d in g[t]
    ensures Reaches(g, t, d)
  {
    var p := [t, d];
    assert Walk(g, p) && p[0] == t && p[|p| - 1] == d;
  }

  lemma ReachesMore(g: Graph, t: string, d: string, x: string)
    requires t in g && d in g[t] && Reaches(g, d, x)
    ensures Reaches(g, t, x)
  {
    hide Walk;
    var p :| Walk(g, p) && |p| >= 2 && p[0] == d && p[|p| - 1] == x;
    var q := [t] + p;
    WalkFrom(g, t, p);
    assert Walk(g, q) && q[0] == t && q[|q| - 1] == x;
  }

  lemma FirstStep(g: Graph, t: string, x: string) returns (d: string)
    requires Reaches(g, t, x) && t in g
    ensures d in g[t] && (x == d || Reaches(g, d, x))
  {
    var p :| Walk(g, p) && |p| >= 2 && p[0] == t && p[|p| - 1] == x;
    d := p[1];
    assert p[0 + 1] in g[p[0]];
    if |p| > 2 {
      var q := p[1..|p|];
      WalkPart(g, p, 1, |p|);
      assert Walk(g, q) && q[0] == d && q[|q| - 1] == x;
    }
  }

  /* ---- _unique_deps ---- */

  function AddNew(seen: seq<string>, xs: seq<string>): seq<string>
    decreases xs
  {
    if xs == [] then seen
    else if xs[0] in seen then AddNew(seen, xs[1..])
    else AddNew(seen + [xs[0]], xs[1..])
  }

  /** The first occurrences, in order. */
  function Unique(xs: seq<string>): seq<string> {
    AddNew([], xs)
  }

  method UniqueDeps(depList: seq<string>) returns (uniques: seq<string>)
    ensures uniques == Unique(depList)
  {
    uniques := [];
    assert depList[0..] == depList;
    for i := 0 to |depList|
      invariant AddNew(uniques, depList[i..]) == Unique(depList)
    {
      assert depList[i..][1..] == depList[i + 1..];
      if depList[i] !in uniques {
        uniques := uniques + [depList[i]];
      }
    }
  }

  predicate Distinct(xs: seq<string>) {
    forall i, j :: 0 <= i < j < |xs| ==> xs[i] != xs[j]
  }

  lemma {:induction false} AddNewHolds(seen: seq<string>, xs: seq<string>)
    requires Distinct(seen)
    ensures Distinct(AddNew(seen, xs)) && forall x :: x in AddNew(seen, xs) <==> x in seen || x in xs
    decreases xs
  {
    if xs != [] {
      assert xs == [xs[0]] + xs[1..];
      if xs[0] in seen {
        AddNewHolds(seen, xs[1..]);
      } else {
        AddNewHolds(seen + [xs[0]], xs[1..]);
      }
    }
  }

  lemma {:induction false} AddNewSplit(seen: seq<string>, a: seq<string>, b: seq<string>)
    ensures AddNew(seen, a + b) == AddNew(AddNew(seen, a), b)
    decreases a
  {
    if a == [] {
      assert a + b == b;
    } else {
      assert (a + b)[1..] == a[1..] + b;
      AddNewSplit(if a[0] in seen then seen else seen + [a[0]], a[1..], b);
    }
  }

  lemma {:induction false} AddNewNothing(seen: seq<string>, xs: seq<string>)
    requires forall x :: x in xs ==> x in seen
    ensures AddNew(seen, xs) == seen
    decreases xs
  {
    if xs != [] {
      AddNewNothing(seen, xs[1..]);
    }
  }

  /* ---- first-visit preorder ---- */

  /** Depth-first search from a list of types below a rank, skipping what has been seen. */
  ghost function Visit(g: Graph, rank: Rank, bound: nat, ts: seq<string>, seen: seq<string>): seq<string>
    requires Ranked(g, rank) && Closed(g) && forall t :: t in ts ==> t in g && rank(t) < bound
    decreases bound, |ts|
  {
    if ts == [] then seen
    else if ts[0] in seen then Visit(g, rank, bound, ts[1..], seen)
    else Visit(g, rank, bound, ts[1..], Visit(g, rank, rank(ts[0]), g[ts[0]], seen + [ts[0]]))
  }

  /** Everything seen below the bound has been followed to its end. */
  ghost predicate Followed(g: Graph, rank: Rank, bound: nat, seen: seq<string>)
    requires Ranked(g, rank) && Closed(g)
  {
    forall s, x :: s in seen && s in g && rank(s) < bound && x in Listed(g, rank, s) ==> x in seen
  }

  /** The search adds, below its bound, exactly what is listed, and follows it to its end. */
  lemma {:induction false} VisitIsUnique(g: Graph, rank: Rank, bound: nat, ts: seq<string>, seen: seq<string>)
    requires Ranked(g, rank) && Closed(g) && (forall t :: t in ts ==> t in g && rank(t) < bound) && Distinct(seen)
    requires Followed(g, rank, bound, seen)
    ensures Visit(g, rank, bound, ts, seen) == AddNew(seen, ListedOf(g, rank, ts))
    ensures Followed(g, rank, bound, Visit(g, rank, bound, ts, seen))
    decreases bound, |ts|
  {
    hide Listed, Followed, Ranked, Closed, Distinct;
    if ts != [] {
      var t, rest := ts[0], ts[1..];
      var own := Listed(g, rank, t);
      AddNewSplit(seen, [t] + own, ListedOf(g, rank, rest));
      AddNewSplit(seen, [t], own);
      if t in seen {
        SeenIsFollowed(g, rank, bound, seen, t);
        AddNewNothing(seen, [t] + own);
        VisitIsUnique(g, rank, bound, rest, seen);
      } else {
        DependsBelow(g, rank, t);
        FollowedInside(g, rank, bound, seen, t);
        DistinctMore(seen, t);
        VisitIsUnique(g, rank, rank(t), g[t], seen + [t]);
        ListedIs(g, rank, t);
        var after := Visit(g, rank, rank(t), g[t], seen + [t]);
        assert AddNew(seen, [t]) == seen + [t];
        FollowedAfter(g, rank, bound, seen, t);
        AddNewHolds(seen + [t], own);
        VisitIsUnique(g, rank, bound, rest, after);
      }
    }
  }

  lemma DistinctMore(seen: seq<string>, t: string)
    requires Distinct(seen) && t !in seen
    ensures Distinct(seen + [t])
  {
  }

  lemma SeenIsFollowed(g: Graph, rank: Rank, bound: nat, seen: seq<string>, t: string)
    requires Ranked(g, rank) && Closed(g) && Followed(g, rank, bound, seen) && t in seen && t in g && rank(t) < bound
    ensures forall x :: x in Listed(g, rank, t) ==> x in seen
  {
    hide Listed, Ranked, Closed;
  }

  lemma DependsBelow(g: Graph, rank: Rank, t: string)
    requires Ranked(g, rank) && Closed(g) && t in g
    ensures forall d :: d in g[t] ==> d in g && rank(d) < rank(t)
  {
  }

  /** On the way down, the type being visited is above the bound. */
  lemma FollowedInside(g: Graph, rank: Rank, bound: nat, seen: seq<string>, t: string)
    requires Ranked(g, rank) && Closed(g) && Followed(g, rank, bound, seen) && t in g && rank(t) < bound
    ensures Followed(g, rank, rank(t), seen + [t])
  {
    hide Listed, Ranked, Closed;
  }

  lemma FollowedAfter(g: Graph, rank: Rank, bound: nat, seen: seq<string>, t: string)
    requires Ranked(g, rank) && Closed(g) && Followed(g, rank, bound, seen) && t in g && rank(t) < bound
    requires Distinct(seen + [t])
    requires var after := AddNew(seen + [t], Listed(g, rank, t)); Followed(g, rank, rank(t), after)
    ensures Followed(g, rank, bound, AddNew(seen + [t], Listed(g, rank, t)))
  {
    hide Listed, Ranked, Closed, Distinct;
    var after := AddNew(seen + [t], Listed(g, rank, t));
    AddNewHolds(seen + [t], Listed(g, rank, t));
    forall s, x | s in after && s in g && rank(s) < bound && x in Listed(g, rank, s) ensures x in after {
      if s !in seen && s != t {
        ListedBelow(g, rank, t, s);
      }
    }
  }

  lemma {:induction false} ListedBelow(g: Graph, rank: Rank, t: string, s: string)
    requires Ranked(g, rank) && Closed(g) && t in g && s in Listed(g, rank, t)
    ensures s in g && rank(s) < rank(t)
    decreases rank(t)
  {
    hide Listed;
    ListedIs(g, rank, t);
    var d := InListedOf(g, rank, g[t], s);
    if s != d {
      ListedBelow(g, rank, d, s);
    }
  }

  /**
   The unique list of all dependencies is the first-visit preorder of the depth-first search; it
   holds exactly the reachable types, each once.
   */
  lemma UniqueIsPreorder(g: Graph, rank: Rank, t: string)
    requires Ranked(g, rank) && Closed(g) && t in g
    ensures forall d :: d in g[t] ==> d in g && rank(d) < rank(t)
    ensures Unique(Listed(g, rank, t)) == Visit(g, rank, rank(t), g[t], [])
    ensures Distinct(Unique(Listed(g, rank, t)))
    ensures forall x :: x in Unique(Listed(g, rank, t)) <==> Reaches(g, t, x)
  {
    hide Listed, Ranked, Closed, Reaches;
    DependsBelow(g, rank, t);
    ListedIs(g, rank, t);
    NothingFollowed(g, rank, rank(t));
    VisitIsUnique(g, rank, rank(t), g[t], []);
    AddNewHolds([], Listed(g, rank, t));
    forall x ensures x in Unique(Listed(g, rank, t)) <==> Reaches(g, t, x) {
      ListedReaches(g, rank, t, x);
    }
  }

  lemma NothingFollowed(g: Graph, rank: Rank, bound: nat)
    requires Ranked(g, rank) && Closed(g)
    ensures Followed(g, rank, bound, [])
  {
  }
}
