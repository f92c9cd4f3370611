/** MsgContext: loading message dependencies on demand and keeping their table closed. */
module MsgLoader {
  import opened Common
  import opened Graphs
  import opened MsgDepends

  type Specs = map<string, Spec>

  /** Specs are stored under their own names. */
  ghost predicate Named(known: Specs) {
    forall n :: n in known ==> known[n].name == n
  }

  function DependsOf(s: Spec): seq<string> {
    MessageTypes(s.types)
  }

  /** No type contains itself, however deep. */
  ghost predicate Acyclic(known: Specs, rank: Rank) {
    forall n, d :: n in known && d in DependsOf(known[n]) ==> rank(d) < rank(n)
  }

  /** A type and everything below it can be found. */
  ghost predicate Resolvable(known: Specs, rank: Rank, n: string)
    requires Acyclic(known, rank)
    decreases rank(n)
  {
    n in known && forall d :: d in DependsOf(known[n]) ==> Resolvable(known, rank, d)
  }

  /** The table agrees with the specs it was computed from. */
  ghost predicate Accurate(registered: Specs, g: Graph) {
    forall t :: t in g ==> t in registered && g[t] == DependsOf(registered[t])
  }

  lemma {:induction false} MessageTypesMore(types: seq<TypeRef>, i: nat)
    requires i < |types|
    ensures MessageTypes(types[..i + 1]) == MessageTypes(types[..i]) + if types[i].Message? then [types[i].name] else []
    decreases i
  {
    if i == 0 {
      assert types[..1] == [types[0]] && types[..1][1..] == [] && types[..0] == [];
    } else {
      MessageTypesMore(types[1..], i - 1);
      assert types[..i + 1][1..] == types[1..][..i] && types[..i][1..] == types[1..][..i - 1];
    }
  }

  lemma {:induction false} MessageTypesHas(types: seq<TypeRef>, i: nat)
    requires i < |types| && types[i].Message?
    ensures types[i].name in MessageTypes(types)
  {
    if i > 0 {
      MessageTypesHas(types[1..], i - 1);
    }
  }

  /** What has an entry has been resolved to the bottom. */
  lemma {:induction false} EntryResolvable(registered: Specs, known: Specs, g: Graph, rank: Rank, t: string)
    requires Acyclic(known, rank) && Accurate(registered, g) && Closed(g) && t in g
    requires forall n :: n in registered ==> n in known && known[n] == registered[n]
    ensures Resolvable(known, rank, t)
    decreases rank(t)
  {
    hide DependsOf;
    forall d | d in DependsOf(known[t]) ensures Resolvable(known, rank, d) {
      EntryResolvable(registered, known, g, rank, d);
    }
  }

  /** An accurate table of acyclic specs has no cycles. */
  lemma AccurateRanked(registered: Specs, g: Graph, rank: Rank)
    requires Acyclic(registered, rank) && Accurate(registered, g)
    ensures Ranked(g, rank)
  {
    hide DependsOf;
  }

  class MsgContext {
    var registered: Specs
    var dependencies: Graph

    ghost predicate Valid()
      reads this
    {
      Named(registered) && Accurate(registered, dependencies) && Closed(dependencies)
    }

    constructor ()
      ensures Valid() && registered == map[] && dependencies == map[]
    {
      registered, dependencies := map[], map[];
    }

    method Register(spec: Spec)
      modifies this
      ensures registered == old(registered)[spec.name := spec] && dependencies == old(dependencies)
    {
      registered := registered[spec.name := spec];
    }

    /**
     The dependencies of a registered spec, loading what is not registered yet from `disk`. It
     fails exactly when some type below the spec cannot be found, and even then leaves the table
     closed.
     */
    method LoadMsgDepends(spec: Spec, disk: Specs, ghost rank: Rank) returns (r: Option<seq<string>>)
      requires Valid() && spec.name in registered && registered[spec.name] == spec
      requires Named(disk) && Acyclic(disk + registered, rank)
      modifies this
      ensures Valid() && disk + registered == old(disk + registered)
      ensures forall n :: n in old(registered) ==> n in registered
      ensures forall t :: t in old(dependencies) ==> t in dependencies && dependencies[t] == old(dependencies[t])
      ensures r.Some? <==> Resolvable(disk + registered, rank, spec.name)
      ensures r.Some? ==> r.value == DependsOf(spec) && spec.name in dependencies
      decreases rank(spec.name)
    {
      hide Resolvable, Acyclic, Accurate, Closed, MessageTypes;
      ghost var known := disk + registered;
      var depends: seq<string> := [];
      assert MessageTypes(spec.types[..0]) == [] by { NoTypes(); }
      for i := 0 to |spec.types|
        invariant Valid() && disk + registered == known
        invariant forall n :: n in old(registered) ==> n in registered
        invariant forall t :: t in old(dependencies) ==> t in dependencies && dependencies[t] == old(dependencies[t])
        invariant depends == MessageTypes(spec.types[..i])
        invariant forall d :: d in depends ==> d in dependencies && Resolvable(known, rank, d)
      {
        MessageTypesMore(spec.types, i);
        if spec.types[i].Message? {
          var d := spec.types[i].name;
          MessageTypesHas(spec.types, i);
          DependsRanked(known, rank, spec, d);
          if d !in registered && d !in disk {
            Unresolvable(known, rank, spec, d);
            return None;
          }
          if d !in registered {
            StillValid(registered, dependencies, disk[d]);
            Register(disk[d]);
            assert disk + registered == known;
          }
          depends := depends + [d];
          if d in dependencies {
            EntryResolvable(registered, known, dependencies, rank, d);
          } else {
            var own := LoadMsgDepends(registered[d], disk, rank);
            if own.None? {
              Unresolvable(known, rank, spec, d);
              return None;
            }
          }
        }
      }
      assert spec.types[..|spec.types|] == spec.types;
      ResolvedAll(known, rank, spec);
      TableGrows(registered, dependencies, spec);
      dependencies := dependencies[spec.name := depends];
      r := Some(depends);
    }

    /** All dependencies, each followed by its own. */
    method GetAllDepends(t: string, ghost rank: Rank) returns (r: Option<seq<string>>)
      requires Ranked(dependencies, rank)
      ensures r == AllDepends(dependencies, rank, t)
      decreases rank(t)
    {
      hide Ranked, AllDepends, AllOf;
      AllDependsIs(dependencies, rank, t);
      if t !in dependencies {
        return None;
      }
      var all: seq<string> := [];
      var ds := dependencies[t];
      assert ds[0..] == ds;
      EntriesBelow(dependencies, rank, t);
      NothingBefore(AllOf(dependencies, rank, t, ds));
      for i := 0 to |ds|
        invariant Ranked(dependencies, rank) && (forall d :: d in ds[i..] ==> rank(d) < rank(t))
        invariant AllOf(dependencies, rank, t, ds) == Prefixed(all, AllOf(dependencies, rank, t, ds[i..]))
      {
        assert ds[i..][0] == ds[i] && ds[i..][1..] == ds[i + 1..];
        var own := GetAllDepends(ds[i], rank);
        OneMoreListed(dependencies, rank, t, ds[i..], all);
        if own.None? {
          return None;
        }
        all := all + [ds[i]] + own.value;
      }
      AllOfNothing(dependencies, rank, t);
      assert ds[|ds|..] == [] && all + [] == all;
      r := Some(all);
    }
  }

  lemma AllOfNothing(g: Graph, rank: Rank, t: string)
    requires Ranked(g, rank)
    ensures AllOf(g, rank, t, []) == Some([])
  {
  }

  ghost function Prefixed(a: seq<string>, r: Option<seq<string>>): Option<seq<string>> {
    if r.None? then None else Some(a + r.value)
  }

  lemma NothingBefore(r: Option<seq<string>>)
    ensures Prefixed([], r) == r
  {
    if r.Some? {
      assert [] + r.value == r.value;
    }
  }

  lemma OneMoreListed(g: Graph, rank: Rank, t: string, ds: seq<string>, all: seq<string>)
    requires Ranked(g, rank) && ds != [] && forall d :: d in ds ==> rank(d) < rank(t)
    ensures var own := AllDepends(g, rank, ds[0]);
      Prefixed(all, AllOf(g, rank, t, ds))
      == if own.None? then None else Prefixed(all + [ds[0]] + own.value, AllOf(g, rank, t, ds[1..]))
  {
    hide AllDepends;
    var own, rest := AllDepends(g, rank, ds[0]), AllOf(g, rank, t, ds[1..]);
    if own.Some? && rest.Some? {
      assert all + ([ds[0]] + own.value + rest.value) == all + [ds[0]] + own.value + rest.value;
    }
  }

  lemma AllDependsIs(g: Graph, rank: Rank, t: string)
    requires Ranked(g, rank)
    ensures forall d :: t in g && d in g[t] ==> rank(d) < rank(t)
    ensures AllDepends(g, rank, t) == if t in g then AllOf(g, rank, t, g[t]) else None
  {
  }

  lemma EntriesBelow(g: Graph, rank: Rank, t: string)
    requires Ranked(g, rank) && t in g
    ensures forall d :: d in g[t] ==> rank(d) < rank(t)
  {
  }

  lemma NoTypes()
    ensures forall ts: seq<TypeRef> :: MessageTypes(ts[..0]) == []
  {
  }

  lemma DependsRanked(known: Specs, rank: Rank, spec: Spec, d: string)
    requires Acyclic(known, rank) && spec.name in known && known[spec.name] == spec && d in MessageTypes(spec.types)
    ensures rank(d) < rank(spec.name)
  {
    assert d in DependsOf(known[spec.name]);
  }

  lemma Unresolvable(known: Specs, rank: Rank, spec: Spec, d: string)
    requires Acyclic(known, rank) && spec.name in known && known[spec.name] == spec && d in MessageTypes(spec.types)
    requires d !in known || !Resolvable(known, rank, d)
    ensures !Resolvable(known, rank, spec.name)
  {
    assert d in DependsOf(known[spec.name]);
  }

  lemma ResolvedAll(known: Specs, rank: Rank, spec: Spec)
    requires Acyclic(known, rank) && spec.name in known && known[spec.name] == spec
    requires forall d :: d in MessageTypes(spec.types) ==> Resolvable(known, rank, d)
    ensures Resolvable(known, rank, spec.name)
  {
  }

  /** Registering a new type does not disturb the table. */
  lemma StillValid(registered: Specs, g: Graph, spec: Spec)
    requires Named(registered) && Accurate(registered, g) && spec.name !in registered
    ensures Named(registered[spec.name := spec]) && Accurate(registered[spec.name := spec], g)
  {
    hide DependsOf;
  }

  /** An entry whose dependencies all have entries keeps the table closed. */
  lemma TableGrows(registered: Specs, g: Graph, spec: Spec)
    requires Accurate(registered, g) && Closed(g) && spec.name in registered && registered[spec.name] == spec
    requires forall d :: d in DependsOf(spec) ==> d in g
    ensures Accurate(registered, g[spec.name := DependsOf(spec)]) && Closed(g[spec.name := DependsOf(spec)])
    ensures forall t :: t in g ==> g[spec.name := DependsOf(spec)][t] == g[t]
  {
    hide DependsOf;
  }

  /**
   After a successful load nothing is missing: the list of all dependencies is defined, and its
   unique form is the preorder of the types reachable in the table.
   */
  lemma LoadedListsReachable(registered: Specs, g: Graph, rank: Rank, t: string)
    requires Acyclic(registered, rank) && Accurate(registered, g) && Closed(g) && t in g
    ensures Ranked(g, rank) && AllDepends(g, rank, t).Some?
    ensures forall x :: x in Unique(AllDepends(g, rank, t).value) <==> Reaches(g, t, x)
    ensures Distinct(Unique(AllDepends(g, rank, t).value))
  {
    hide Accurate, Acyclic, Reaches, AllDepends, Distinct, Unique;
    AccurateRanked(registered, g, rank);
    ClosedNeverRaises(g, rank, t);
    UniqueIsPreorder(g, rank, t);
  }
}
