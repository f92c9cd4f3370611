/** Occurrences of one sequence in another, and white space. */
module TextSearch {
  /** White space in the C locale, which is also what str.strip takes off ASCII text. */
  predicate IsSpace(c: char) {
    c == ' ' || c == '\t' || c == '\n' || c == '\r' || c == '\U{000B}' || c == '\U{000C}'
  }

  /** pat occurs in s at position i. */
  predicate At<T(==)>(s: seq<T>, i: nat, pat: seq<T>) {
    i + |pat| <= |s| && s[i..i + |pat|] == pat
  }

  lemma Rejoin<T>(a: seq<T>, b: seq<T>, c: seq<T>)
    ensures (a + b) + c == a + (b + c)
  {
  }

  lemma AtSplit<T>(s: seq<T>, i: nat, a: seq<T>, b: seq<T>)
    ensures At(s, i, a + b) <==> At(s, i, a) && At(s, i + |a|, b)
  {
    if i + |a| + |b| <= |s| {
      var w := s[i..i + |a + b|];
      assert w[..|a|] == s[i..i + |a|] && w[|a|..] == s[i + |a|..i + |a| + |b|];
      assert w == w[..|a|] + w[|a|..];
      assert (a + b)[..|a|] == a && (a + b)[|a|..] == b;
    }
  }

  lemma AtSlice<T>(s: seq<T>, i: nat, pat: seq<T>)
    requires At(s, i, pat)
    ensures i + |pat| <= |s| && s[i..i + |pat|] == pat
  {
  }

  lemma AtHere<T>(s: seq<T>, i: nat, j: nat)
    requires i <= j <= |s|
    ensures At(s, i, s[i..j])
  {
  }

  lemma AtAll<T>(s: seq<T>)
    ensures At(s, 0, s)
  {
    assert s[0..|s|] == s;
  }

  lemma AtChar<T>(s: seq<T>, i: nat, pat: seq<T>, k: nat)
    requires At(s, i, pat) && k < |pat|
    ensures i + k < |s| && s[i + k] == pat[k]
  {
    assert s[i..i + |pat|][k] == s[i + k];
  }

  /** One different character is enough. */
  lemma AtMismatch<T>(s: seq<T>, i: nat, pat: seq<T>, k: nat)
    requires k < |pat| && (i + k < |s| ==> s[i + k] != pat[k])
    ensures !At(s, i, pat)
  {
    if At(s, i, pat) {
      AtChar(s, i, pat, k);
    }
  }

  /* ---- finding, as std::string::find and str.find do ---- */

  datatype Index = Npos | Pos(i: nat)

  function Find(s: string, pat: string, from: nat): (r: Index)
    ensures r.Pos? ==> from <= r.i && At(s, r.i, pat)
    ensures forall k :: from <= k && (r.Npos? || k < r.i) ==> !At(s, k, pat)
    decreases |s| - from
  {
    if from + |pat| > |s| then Npos
    else if At(s, from, pat) then Pos(from)
    else Find(s, pat, from + 1)
  }

  /** The first occurrence is where nothing before it can start one. */
  lemma FindIs(s: string, pat: string, from: nat, j: nat)
    requires from <= j && At(s, j, pat) && forall k :: from <= k < j ==> !At(s, k, pat)
    ensures Find(s, pat, from) == Pos(j)
  {
    var r := Find(s, pat, from);
    assert r.Pos?;
  }

  lemma FindByFirst(s: string, pat: string, from: nat, j: nat)
    requires pat != "" && from <= j && At(s, j, pat) && forall k :: from <= k < j ==> s[k] != pat[0]
    ensures Find(s, pat, from) == Pos(j)
  {
    forall k | from <= k < j ensures !At(s, k, pat) {
      AtMismatch(s, k, pat, 0);
    }
    FindIs(s, pat, from, j);
  }

  /** find with a single character. */
  function FindChar(s: string, c: char, from: nat): (r: Index)
    ensures r.Pos? ==> from <= r.i < |s| && s[r.i] == c
    ensures forall k :: from <= k < |s| && (r.Npos? || k < r.i) ==> s[k] != c
    decreases |s| - from
  {
    if from >= |s| then Npos
    else if s[from] == c then Pos(from)
    else FindChar(s, c, from + 1)
  }
}
