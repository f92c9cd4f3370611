/** Packages with their recursive dependencies, over any dependency graph. */
module PackageClosure {
  import opened Graphs

  datatype Package = Package(
    name: string, format: nat, buildDepends: seq<string>, buildtoolDepends: seq<string>,
    runDepends: seq<string>, testDepends: seq<string>)

  /** Test dependencies count from package format 2 on. */
  function DependsOf(p: Package): seq<string> {
    p.buildDepends + p.buildtoolDepends + p.runDepends + if p.format > 1 then p.testDepends else []
  }

  lemma DependsIff(p: Package, x: string)
    ensures x in DependsOf(p) <==>
      x in p.buildDepends || x in p.buildtoolDepends || x in p.runDepends || (p.format >= 2 && x in p.testDepends)
  {
  }

  type Known = map<string, Package>

  /** Packages by name; of two with the same name the later one counts. */
  function ByName(packages: seq<Package>): Known {
    if packages == [] then map[]
    else ByName(packages[..|packages| - 1])[packages[|packages| - 1].name := packages[|packages| - 1]]
  }

  /** The last package of each name, and no other. */
  lemma {:induction false} ByNameIs(packages: seq<Package>, i: nat)
    requires i < |packages| && forall j :: i < j < |packages| ==> packages[j].name != packages[i].name
    ensures packages[i].name in ByName(packages) && ByName(packages)[packages[i].name] == packages[i]
    decreases |packages|
  {
    if i < |packages| - 1 {
      ByNameIs(packages[..|packages| - 1], i);
    }
  }

  lemma {:induction false} ByNameOnly(packages: seq<Package>, n: string)
    requires n in ByName(packages)
    ensures exists i :: 0 <= i < |packages| && packages[i].name == n
    decreases |packages|
  {
    var last := |packages| - 1;
    if packages[last].name != n {
      ByNameOnly(packages[..last], n);
      var i :| 0 <= i < last && packages[..last][i].name == n;
      assert packages[i].name == n;
    }
  }

  function NamesIn(names: seq<string>): set<string> {
    set n | n in names
  }

  /** The dependencies of the known packages. */
  function GraphOf(known: Known): Graph {
    map n | n in known :: DependsOf(known[n])
  }

  /** A known package at the end of a walk that starts at a requested name. */
  ghost predicate Reachable(known: Known, requested: set<string>, x: string) {
    x in known && exists p :: Walk(GraphOf(known), p) && p[0] in requested && p[|p| - 1] == x
  }

  lemma ReachableStart(known: Known, requested: set<string>, x: string)
    requires x in requested && x in known
    ensures Reachable(known, requested, x)
  {
    var p := [x];
    assert Walk(GraphOf(known), p) && p[0] in requested && p[|p| - 1] == x;
  }

  lemma ReachableStep(known: Known, requested: set<string>, x: string, y: string)
    requires Reachable(known, requested, x) && x in known && y in known && y in DependsOf(known[x])
    ensures Reachable(known, requested, y)
  {
    hide DependsOf;
    var p :| Walk(GraphOf(known), p) && p[0] in requested && p[|p| - 1] == x;
    var q := p + [y];
    WalkOn(GraphOf(known), p, y);
    assert Walk(GraphOf(known), q) && q[0] in requested && q[|q| - 1] == y;
  }

  /** Holds the requested known packages and, with each package, its known dependencies. */
  ghost predicate ClosedUnder(known: Known, requested: set<string>, s: set<string>) {
    && (forall x :: x in requested && x in known ==> x in s)
    && forall x, y :: x in s && x in known && y in known && y in DependsOf(known[x]) ==> y in s
  }

  /** A closed set holds everything reachable. */
  lemma {:induction false} WalkStays(known: Known, requested: set<string>, s: set<string>, p: seq<string>)
    requires Walk(GraphOf(known), p) && p[0] in requested && p[|p| - 1] in known && ClosedUnder(known, requested, s)
    ensures p[|p| - 1] in s
    decreases |p|
  {
    hide DependsOf;
    if |p| > 1 {
      var q := p[0..|p| - 1];
      var i := |p| - 2;
      assert p[i] in GraphOf(known) && p[i + 1] in GraphOf(known)[p[i]];
      WalkPart(GraphOf(known), p, 0, |p| - 1);
      WalkStays(known, requested, s, q);
    }
  }

  /** The names still to be looked at are the other half of the closure. */
  ghost predicate Progress(known: Known, requested: set<string>, dependencies: set<string>, check: set<string>) {
    && dependencies !! check
    && (forall x :: x in dependencies ==> x in known && Reachable(known, requested, x))
    && (forall x :: x in check && x in known ==> Reachable(known, requested, x))
    && (forall x :: x in requested && x in known ==> x in dependencies || x in check)
    && forall x, y :: x in dependencies && x in known && y in known && y in DependsOf(known[x]) ==>
         y in dependencies || y in check
  }

  lemma FinalSet(known: Known, requested: set<string>, dependencies: set<string>)
    requires Progress(known, requested, dependencies, {})
    ensures forall x :: x in dependencies <==> Reachable(known, requested, x)
  {
    hide DependsOf;
    assert ClosedUnder(known, requested, dependencies);
    forall x | Reachable(known, requested, x) ensures x in dependencies {
      var p :| Walk(GraphOf(known), p) && p[0] in requested && p[|p| - 1] == x;
      WalkStays(known, requested, dependencies, p);
    }
  }

  /** The known ones among the dependencies, once the package itself has been taken. */
  function NewNames(known: Known, depends: seq<string>, dependencies: set<string>): set<string> {
    set d | d in depends && d in known && d !in dependencies
  }

  lemma ProgressTaken(known: Known, requested: set<string>, dependencies: set<string>, check: set<string>, name: string)
    requires Progress(known, requested, dependencies, check) && name in check && name in known
    ensures var taken := dependencies + {name};
      Progress(known, requested, taken, check - {name} + NewNames(known, DependsOf(known[name]), taken))
  {
    hide DependsOf, Reachable;
    var taken := dependencies + {name};
    var check' := check - {name} + NewNames(known, DependsOf(known[name]), taken);
    forall x | x in check' && x in known ensures Reachable(known, requested, x) {
      if x !in check {
        ReachableStep(known, requested, name, x);
      }
    }
  }

  lemma ProgressSkipped(known: Known, requested: set<string>,
                        dependencies: set<string>, check: set<string>, name: string)
    requires Progress(known, requested, dependencies, check) && name in check && name !in known
    ensures Progress(known, requested, dependencies, check - {name})
  {
    hide DependsOf, Reachable;
  }

  /**
   For any graph, cycles included, the loop ends with exactly the known packages reachable from
   the requested names.
   */
  method WithRecursiveDependencies(packages: seq<Package>, names: seq<string>) returns (dependencies: set<string>)
    ensures forall x :: x in dependencies <==> Reachable(ByName(packages), NamesIn(names), x)
  {
    hide Progress, Reachable, DependsOf, NewNames, ByName;
    dependencies := {};
    var checkNames := NamesIn(names);
    ghost var requested := checkNames;
    var known := ByName(packages);
    Begin(known, requested);
    while checkNames != {}
      invariant Progress(known, requested, dependencies, checkNames)
      decreases known.Keys - dependencies, checkNames
    {
      var name :| name in checkNames;
      ghost var before := checkNames;
      checkNames := checkNames - {name};
      if name in known {
        ProgressTaken(known, requested, dependencies, before, name);
        NotTaken(known, requested, dependencies, before, name);
        dependencies := dependencies + {name};
        checkNames := AddDependencies(known, DependsOf(known[name]), dependencies, checkNames);
      } else {
        ProgressSkipped(known, requested, dependencies, before, name);
      }
    }
    FinalSet(known, requested, dependencies);
  }

  lemma Begin(known: Known, requested: set<string>)
    ensures Progress(known, requested, {}, requested)
  {
    hide DependsOf, Reachable;
    forall x | x in requested && x in known ensures Reachable(known, requested, x) {
      ReachableStart(known, requested, x);
    }
  }

  lemma NotTaken(known: Known, requested: set<string>, dependencies: set<string>, check: set<string>, name: string)
    requires Progress(known, requested, dependencies, check) && name in check && name in known
    ensures name in known.Keys - dependencies && known.Keys - (dependencies + {name}) < known.Keys - dependencies
  {
    hide DependsOf, Reachable;
    assert name !in known.Keys - (dependencies + {name});
  }

  /** The inner loop: one dependency after the other. */
  method AddDependencies(known: Known, depends: seq<string>, dependencies: set<string>, check: set<string>)
      returns (more: set<string>)
    ensures more == check + NewNames(known, depends, dependencies)
  {
    more := check;
    for i := 0 to |depends|
      invariant more == check + NewNames(known, depends[..i], dependencies)
    {
      assert depends[..i + 1] == depends[..i] + [depends[i]];
      if depends[i] in known && depends[i] !in more && depends[i] !in dependencies {
        more := more + {depends[i]};
      }
    }
    assert depends[..|depends|] == depends;
  }
}
