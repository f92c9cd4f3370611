/** Walks in a graph that is given by its lists of successors. */
module Graphs {
  type Graph = map<string, seq<string>>

  predicate Walk(g: Graph, p: seq<string>) {
    |p| >= 1 && forall i :: 0 <= i < |p| - 1 ==> p[i] in g && p[i + 1] in g[p[i]]
  }

  /** A walk with one more step at its end, and at its start. */
  lemma WalkOn(g: Graph, p: seq<string>, x: string)
    requires Walk(g, p) && p[|p| - 1] in g && x in g[p[|p| - 1]]
    ensures Walk(g, p + [x])
  {
    var q := p + [x];
    forall i | 0 <= i < |q| - 1 ensures q[i] in g && q[i + 1] in g[q[i]] {
      if i < |p| - 1 {
        assert q[i] == p[i] && q[i + 1] == p[i + 1];
      }
    }
  }

  lemma WalkFrom(g: Graph, x: string, p: seq<string>)
    requires Walk(g, p) && x in g && p[0] in g[x]
    ensures Walk(g, [x] + p)
  {
    var q := [x] + p;
    forall i | 0 <= i < |q| - 1 ensures q[i] in g && q[i + 1] in g[q[i]] {
      if i > 0 {
        assert q[i] == p[i - 1] && q[i + 1] == p[i - 1 + 1];
      }
    }
  }

  /** A part of a walk is a walk. */
  lemma WalkPart(g: Graph, p: seq<string>, lo: nat, hi: nat)
    requires Walk(g, p) && lo < hi <= |p|
    ensures Walk(g, p[lo..hi])
  {
    var q := p[lo..hi];
    forall i | 0 <= i < |q| - 1 ensures q[i] in g && q[i + 1] in g[q[i]] {
      assert q[i] == p[lo + i] && q[i + 1] == p[lo + i + 1];
    }
  }
}
