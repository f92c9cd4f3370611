/** The concatenated text of a message and its dependencies, and how it is taken apart again. */
module FullText {
  import opened Common
  import opened TextSearch
  import opened Graphs
  import opened MsgDepends
  import opened MsgLoader

  const RULE: string := Repeat('=', 80)
  const BREAK: string := "\n" + RULE + "\n"
  const TYPE_LINE := "MSG: "
  const OLD_HEADER := "roslib/Header"
  const NEW_HEADER := "std_msgs/Header"

  /** A dependency: its type and its text. */
  datatype Dep = Dep(name: string, text: string)

  /* ---- writing ---- */

  function Part(d: Dep): string {
    TYPE_LINE + d.name + "\n" + d.text
  }

  function Section(d: Dep): string {
    RULE + "\n" + Part(d) + "\n"
  }

  function Written(deps: seq<Dep>): string {
    if deps == [] then "" else Section(deps[0]) + Written(deps[1..])
  }

  /** Everything is written with a newline after it, and the last one is taken off. */
  function FullText(core: string, deps: seq<Dep>): string {
    var s := core + "\n" + Written(deps);
    s[..|s| - 1]
  }

  function DepsOf(registered: Specs, names: seq<string>): seq<Dep>
    requires forall n :: n in names ==> n in registered
  {
    if names == [] then [] else [Dep(names[0], registered[names[0]].text)] + DepsOf(registered, names[1..])
  }

  lemma {:induction false} DepsOfMore(registered: Specs, names: seq<string>, i: nat)
    requires (forall n :: n in names ==> n in registered) && i < |names|
    ensures DepsOf(registered, names[..i + 1])
         == DepsOf(registered, names[..i]) + [Dep(names[i], registered[names[i]].text)]
    decreases i
  {
    if i == 0 {
      assert names[..1] == [names[0]] && names[..1][1..] == [] && names[..0] == [];
    } else {
      DepsOfMore(registered, names[1..], i - 1);
      assert names[..i + 1][1..] == names[1..][..i] && names[..i][1..] == names[1..][..i - 1];
    }
  }

  /** Names and texts go together, in the order of the names. */
  lemma {:induction false} DepsOfAt(registered: Specs, names: seq<string>, i: nat)
    requires (forall n :: n in names ==> n in registered) && i < |names|
    ensures |DepsOf(registered, names)| == |names|
    ensures DepsOf(registered, names)[i] == Dep(names[i], registered[names[i]].text)
    decreases names
  {
    if i > 0 {
      DepsOfAt(registered, names[1..], i - 1);
    } else if |names| > 1 {
      DepsOfAt(registered, names[1..], 0);
    }
  }

  lemma {:induction false} WrittenMore(deps: seq<Dep>, d: Dep)
    ensures Written(deps + [d]) == Written(deps) + Section(d)
  {
    hide Section;
    if deps == [] {
      assert (deps + [d])[1..] == [];
    } else {
      WrittenMore(deps[1..], d);
      assert (deps + [d])[1..] == deps[1..] + [d];
    }
  }

  /** compute_full_text: after loading, all the texts are there to be written. */
  method ComputeFullText(ctx: MsgContext, spec: Spec, ghost rank: Rank) returns (text: string)
    requires ctx.Valid() && Ranked(ctx.dependencies, rank) && spec.name in ctx.dependencies
    ensures AllDepends(ctx.dependencies, rank, spec.name).Some?
    ensures forall n :: n in Unique(AllDepends(ctx.dependencies, rank, spec.name).value) ==> n in ctx.registered
    ensures var names := Unique(AllDepends(ctx.dependencies, rank, spec.name).value);
      text == FullText(spec.text, DepsOf(ctx.registered, names))
  {
    hide AllDepends, Written, DepsOf, Unique, Ranked, Accurate, Closed, Named;
    var all := ctx.GetAllDepends(spec.name, rank);
    ClosedNeverRaises(ctx.dependencies, rank, spec.name);
    ListedRegistered(ctx.registered, ctx.dependencies, rank, spec.name);
    var names := UniqueDeps(all.value);
    var buff := spec.text;
    buff := buff + "\n";
    buff := WriteSections(buff, ctx.registered, names);
    text := buff[..|buff| - 1];
  }

  method WriteSections(head: string, registered: Specs, names: seq<string>) returns (buff: string)
    requires forall n :: n in names ==> n in registered
    ensures buff == head + Written(DepsOf(registered, names))
  {
    hide Written, DepsOf, Section;
    buff := head;
    NothingWritten(registered, names);
    for i := 0 to |names|
      invariant buff == head + Written(DepsOf(registered, names[..i]))
    {
      assert names[i] in names;
      var d := Dep(names[i], registered[names[i]].text);
      DepsOfMore(registered, names, i);
      WrittenMore(DepsOf(registered, names[..i]), d);
      ghost var w := Written(DepsOf(registered, names[..i]));
      assert head + w + Section(d) == head + (w + Section(d));
      var section := RULE + "\n" + (TYPE_LINE + names[i] + "\n" + registered[names[i]].text) + "\n";
      SectionIs(names[i], registered[names[i]].text);
      buff := buff + section;
    }
    assert names[..|names|] == names;
  }

  lemma SectionIs(name: string, text: string)
    ensures Section(Dep(name, text)) == RULE + "\n" + (TYPE_LINE + name + "\n" + text) + "\n"
  {
  }

  lemma NothingWritten(registered: Specs, names: seq<string>)
    ensures Written(DepsOf(registered, names[..0])) == ""
  {
  }

  lemma ListedRegistered(registered: Specs, g: Graph, rank: Rank, t: string)
    requires Accurate(registered, g) && Closed(g) && Ranked(g, rank) && t in g
    ensures AllDepends(g, rank, t).Some?
    ensures forall n :: n in Unique(AllDepends(g, rank, t).value) ==> n in registered
  {
    hide AllDepends, Ranked, Closed;
    ClosedNeverRaises(g, rank, t);
    AddNewHolds([], AllDepends(g, rank, t).value);
    forall n | n in Unique(AllDepends(g, rank, t).value) ensures n in registered {
      ListedBelow(g, rank, t, n);
    }
  }

  /* ---- as parts between breaks ---- */

  function Join(parts: seq<string>): string
    requires parts != []
  {
    if |parts| == 1 then parts[0] else parts[0] + BREAK + Join(parts[1..])
  }

  function Parts(deps: seq<Dep>): seq<string> {
    if deps == [] then [] else [Part(deps[0])] + Parts(deps[1..])
  }

  /** The parts, each followed by a newline, with a rule before each but the first. */
  lemma {:induction false} WrittenIsJoin(core: string, deps: seq<Dep>)
    ensures core + "\n" + Written(deps) == Join([core] + Parts(deps)) + "\n"
    decreases deps
  {
    hide Part;
    if deps == [] {
      assert core + "\n" + "" == core + "\n";
    } else {
      WrittenIsJoin(Part(deps[0]), deps[1..]);
      var rest := Join([Part(deps[0])] + Parts(deps[1..]));
      assert ([core] + Parts(deps))[1..] == [Part(deps[0])] + Parts(deps[1..]);
      Around(core, RULE, Part(deps[0]), Written(deps[1..]), rest);
    }
  }

  lemma Around(core: string, rule: string, part: string, w: string, rest: string)
    requires part + "\n" + w == rest + "\n"
    ensures core + "\n" + ((rule + "\n" + part + "\n") + w) == core + ("\n" + rule + "\n") + rest + "\n"
  {
    assert (rule + "\n" + part + "\n") + w == rule + "\n" + (part + "\n" + w);
  }

  lemma FullTextIsJoin(core: string, deps: seq<Dep>)
    ensures FullText(core, deps) == Join([core] + Parts(deps))
  {
    hide Join, Written;
    WrittenIsJoin(core, deps);
    var j := Join([core] + Parts(deps));
    assert (j + "\n")[..|j + "\n"| - 1] == j;
  }

  /* ---- splitting ---- */

  /** str.split with the break as separator. */
  function Split(s: string): (parts: seq<string>)
    ensures |parts| >= 1
    decreases |s|
  {
    var p := Find(s, BREAK, 0);
    if p.Npos? then [s] else [s[..p.i]] + Split(s[p.i + |BREAK|..])
  }

  /** A line of exactly eighty '=' that is not the first line. */
  ghost predicate HasRule(p: string) {
    exists k :: 0 <= k < |p| && At(p + "\n", k, BREAK)
  }

  lemma BreakText()
    ensures |BREAK| == 82 && BREAK[0] == '\n' && BREAK[81] == '\n' && forall k :: 1 <= k <= 80 ==> BREAK[k] == '='
  {
    assert |RULE| == 80;
  }

  lemma BreakInside(p: string, r: string, k: nat)
    requires k < |p|
    ensures At(p + BREAK + r, k, BREAK) <==> At(p + "\n", k, BREAK)
  {
    var s, t := p + BREAK + r, p + "\n";
    BreakText();
    if k + 82 <= |t| {
      assert s[..|t|] == t;
      assert s[k..k + 82] == s[..|t|][k..k + 82];
    } else {
      AtMismatch(s, k, BREAK, |p| - k);
    }
  }

  /** The first break found is the one after the part exactly when the part has no rule. */
  lemma FirstBreak(p: string, r: string)
    ensures var f := Find(p + BREAK + r, BREAK, 0); f.Pos? && f.i <= |p| && (f.i == |p| <==> !HasRule(p))
  {
    hide At;
    var s := p + BREAK + r;
    AtJoin(p, r);
    forall k | 0 <= k < |p| ensures At(s, k, BREAK) <==> At(p + "\n", k, BREAK) {
      BreakInside(p, r, k);
    }
    if !HasRule(p) {
      FindIs(s, BREAK, 0, |p|);
    } else {
      var k :| 0 <= k < |p| && At(p + "\n", k, BREAK);
      assert At(s, k, BREAK);
    }
  }

  lemma AtJoin(p: string, r: string)
    ensures At(p + BREAK + r, |p|, BREAK)
  {
    var s := p + BREAK + r;
    assert s[|p|..|p| + |BREAK|] == BREAK;
  }

  ghost predicate Splittable(parts: seq<string>)
    requires parts != []
  {
    (forall i :: 0 <= i < |parts| - 1 ==> !HasRule(parts[i])) && Find(parts[|parts| - 1], BREAK, 0).Npos?
  }

  /** Splitting undoes joining exactly when no part but the last has a rule and the last has no break. */
  lemma {:induction false} SplitJoinIff(parts: seq<string>)
    requires parts != []
    ensures Split(Join(parts)) == parts <==> Splittable(parts)
  {
    hide Find, HasRule;
    if |parts| > 1 {
      var p, r := parts[0], Join(parts[1..]);
      SplitJoinIff(parts[1..]);
      SplittableStep(parts);
      FirstBreak(p, r);
      BreakText();
      var s := p + BREAK + r;
      var i := Find(s, BREAK, 0).i;
      if i == |p| {
        assert s[..|p|] == p && s[|p| + |BREAK|..] == r;
        assert parts == [p] + parts[1..];
      } else {
        assert |Split(s)[0]| == i < |p|;
      }
    } else {
      var f := Find(parts[0], BREAK, 0);
      if f.Pos? {
        OneBreak(parts[0]);
      }
    }
  }

  lemma OneBreak(s: string)
    requires Find(s, BREAK, 0).Pos?
    ensures |Split(s)| >= 2
  {
  }

  lemma SplittableStep(parts: seq<string>)
    requires |parts| > 1
    ensures Splittable(parts) <==> !HasRule(parts[0]) && Splittable(parts[1..])
  {
    hide Find, HasRule;
    var t := parts[1..];
    assert t[|t| - 1] == parts[|parts| - 1];
    if !HasRule(parts[0]) && Splittable(t) {
      forall i | 0 <= i < |parts| - 1 ensures !HasRule(parts[i]) {
        if i > 0 {
          assert parts[i] == t[i - 1];
        }
      }
    }
    if Splittable(parts) {
      forall i | 0 <= i < |t| - 1 ensures !HasRule(t[i]) {
        assert t[i] == parts[i + 1];
      }
    }
  }

  /* ---- the old header name ---- */

  /** str.replace of the old header name by the new one. */
  function Replace(s: string): string
    decreases |s|
  {
    var p := Find(s, OLD_HEADER, 0);
    if p.Npos? then s else s[..p.i] + NEW_HEADER + Replace(s[p.i + |OLD_HEADER|..])
  }

  lemma OldHeaderText()
    ensures |OLD_HEADER| == 13 && OLD_HEADER[0] == 'r' && OneLine(OLD_HEADER)
  {
  }

  predicate OneLine(s: string) {
    forall k :: 0 <= k < |s| ==> s[k] != '\n'
  }

  /** An occurrence of a text without newlines does not reach over a newline. */
  lemma AtBeforeLine(a: string, b: string, pat: string, k: nat)
    requires OneLine(pat) && pat != "" && k <= |a|
    ensures At(a + "\n" + b, k, pat) <==> At(a, k, pat)
  {
    var s := a + "\n" + b;
    if k + |pat| <= |a| {
      assert s[..|a|] == a;
      assert s[k..k + |pat|] == s[..|a|][k..k + |pat|];
    } else {
      assert s[|a|] == '\n';
      AtMismatch(s, k, pat, |a| - k);
    }
  }

  lemma AtAfterLine(a: string, b: string, pat: string, k: nat, i: nat)
    requires i == |a| + 1 + k
    ensures At(a + "\n" + b, i, pat) <==> At(b, k, pat)
  {
    var s := a + "\n" + b;
    assert s[|a| + 1..] == b;
    if k + |pat| <= |b| {
      assert s[i..i + |pat|] == b[k..k + |pat|];
    }
  }

  lemma NotAfterLine(a: string, b: string, pat: string, i: nat)
    requires i > |a| && var q := Find(b, pat, 0); q.Npos? || i < |a| + 1 + q.i
    ensures !At(a + "\n" + b, i, pat)
  {
    hide At, Find;
    AtAfterLine(a, b, pat, i - |a| - 1, i);
  }

  /** What is found first is found in the first line, or else in the rest. */
  lemma FindInLines(a: string, b: string, pat: string)
    requires OneLine(pat) && pat != ""
    ensures var p := Find(a, pat, 0); var q := Find(b, pat, 0);
      Find(a + "\n" + b, pat, 0) == if p.Pos? then p else if q.Pos? then Pos(|a| + 1 + q.i) else Npos
  {
    hide At, Find, OneLine;
    var s := a + "\n" + b;
    var p, q := Find(a, pat, 0), Find(b, pat, 0);
    if p.Pos? {
      AtSlice(a, p.i, pat);
      forall k | 0 <= k <= p.i ensures At(s, k, pat) <==> At(a, k, pat) {
        AtBeforeLine(a, b, pat, k);
      }
      FindIs(s, pat, 0, p.i);
    } else {
      forall k: nat | q.Npos? || k < |a| + 1 + q.i ensures !At(s, k, pat) {
        NotInLines(a, b, pat, k);
      }
      if q.Pos? {
        var i := |a| + 1 + q.i;
        AtAfterLine(a, b, pat, q.i, i);
        FindIs(s, pat, 0, i);
      }
    }
  }

  lemma NotInLines(a: string, b: string, pat: string, k: nat)
    requires OneLine(pat) && pat != "" && Find(a, pat, 0).Npos?
    requires var q := Find(b, pat, 0); q.Npos? || k < |a| + 1 + q.i
    ensures !At(a + "\n" + b, k, pat)
  {
    hide At, Find, OneLine;
    if k <= |a| {
      AtBeforeLine(a, b, pat, k);
    } else {
      NotAfterLine(a, b, pat, k);
    }
  }

  /** Replacing works line by line. */
  lemma {:induction false} ReplaceLines(a: string, b: string)
    ensures Replace(a + "\n" + b) == Replace(a) + "\n" + Replace(b)
    decreases |a|
  {
    hide At, Find;
    var s := a + "\n" + b;
    OldHeaderText();
    FindInLines(a, b, OLD_HEADER);
    var p := Find(a, OLD_HEADER, 0);
    if p.Pos? {
      AtSlice(a, p.i, OLD_HEADER);
      var rest := a[p.i + 13..];
      assert s[..p.i] == a[..p.i] && s[p.i + 13..] == rest + "\n" + b;
      ReplaceLines(rest, b);
    } else {
      ReplaceLater(a, b);
    }
  }

  lemma ReplaceLater(a: string, b: string)
    requires Find(a, OLD_HEADER, 0).Npos?
    ensures Replace(a + "\n" + b) == Replace(a) + "\n" + Replace(b)
  {
    hide At, Find;
    var s := a + "\n" + b;
    OldHeaderText();
    FindInLines(a, b, OLD_HEADER);
    var q := Find(b, OLD_HEADER, 0);
    if q.Pos? {
      var j := |a| + 1 + q.i;
      AtSlice(b, q.i, OLD_HEADER);
      assert s[..j] == a + "\n" + b[..q.i] && s[j + 13..] == b[q.i + 13..];
    }
  }

  lemma ReplaceNone(s: string)
    requires Find(s, OLD_HEADER, 0).Npos?
    ensures Replace(s) == s
  {
  }

  lemma RuleHasNoHeader()
    ensures Find(RULE, OLD_HEADER, 0).Npos?
  {
    var p := Find(RULE, OLD_HEADER, 0);
    if p.Pos? {
      AtChar(RULE, p.i, OLD_HEADER, 0);
    }
  }

  function ReplaceAll(parts: seq<string>): (r: seq<string>)
    ensures |r| == |parts|
  {
    if parts == [] then [] else [Replace(parts[0])] + ReplaceAll(parts[1..])
  }

  lemma ReplaceBreak(p: string, r: string)
    ensures Replace(p + BREAK + r) == Replace(p) + BREAK + Replace(r)
  {
    hide Replace, Find;
    RuleHasNoHeader();
    ReplaceNone(RULE);
    ReplaceLines(RULE, r);
    ReplaceLines(p, RULE + "\n" + r);
    assert p + BREAK + r == p + "\n" + (RULE + "\n" + r);
    assert Replace(p) + BREAK + Replace(r) == Replace(p) + "\n" + (RULE + "\n" + Replace(r));
  }

  /** Replacing in the whole text is replacing in each part. */
  lemma {:induction false} ReplaceJoin(parts: seq<string>)
    requires parts != []
    ensures Replace(Join(parts)) == Join(ReplaceAll(parts))
  {
    hide Replace;
    if |parts| > 1 {
      ReplaceJoin(parts[1..]);
      ReplaceBreak(parts[0], Join(parts[1..]));
      assert ReplaceAll(parts)[1..] == ReplaceAll(parts[1..]);
    } else {
      assert parts[1..] == [];
    }
  }

  /* ---- reading ---- */

  /** str.strip */
  function Strip(s: string): (r: string)
    ensures |r| <= |s|
    decreases |s|
  {
    if s == "" then "" else if IsSpace(s[0]) then Strip(s[1..])
    else if IsSpace(s[|s| - 1]) then Strip(s[..|s| - 1]) else s
  }

  /** _generate_dynamic_specs: the type line, without which it raises, and the text after it. */
  function ReadDep(part: string): Option<Dep> {
    var line1 := FindChar(part, '\n', 0);
    var line := if line1.Pos? then part[..line1.i] else if part == "" then "" else part[..|part| - 1];
    var text := if line1.Pos? then part[line1.i + 1..] else part;
    if TYPE_LINE <= line then Some(Dep(Strip(line[|TYPE_LINE|..]), text)) else None
  }

  function ReadDeps(parts: seq<string>): Option<seq<Dep>> {
    if parts == [] then Some([])
    else
      var d := ReadDep(parts[0]);
      var rest := ReadDeps(parts[1..]);
      if d.None? || rest.None? then None else Some([d.value] + rest.value)
  }

  datatype Loaded = Malformed | Loaded(core: string, deps: seq<Dep>)

  function Dynamic(cat: string): Loaded {
    var splits := Split(Replace(cat));
    var deps := ReadDeps(splits[1..]);
    if deps.None? then Malformed else Loaded(splits[0], deps.value)
  }

  /** generate_dynamic up to the loaded specs: one dependency after the other. */
  method GenerateDynamic(cat: string) returns (r: Loaded)
    ensures r == Dynamic(cat)
  {
    hide ReadDep, Split, Replace;
    var splits := Split(Replace(cat));
    var parts := splits[1..];
    var deps: seq<Dep> := [];
    assert parts[0..] == parts;
    NothingRead(ReadDeps(parts));
    for i := 0 to |parts|
      invariant ReadDeps(parts) == After(deps, ReadDeps(parts[i..]))
    {
      assert parts[i..][0] == parts[i] && parts[i..][1..] == parts[i + 1..];
      var d := ReadDep(parts[i]);
      if d.None? {
        return Malformed;
      }
      ReadMore(deps, d.value, ReadDeps(parts[i + 1..]));
      deps := deps + [d.value];
    }
    assert parts[|parts|..] == [] && deps + [] == deps;
    r := Loaded(splits[0], deps);
  }

  function After(deps: seq<Dep>, r: Option<seq<Dep>>): Option<seq<Dep>> {
    if r.None? then None else Some(deps + r.value)
  }

  lemma NothingRead(r: Option<seq<Dep>>)
    ensures After([], r) == r
  {
    if r.Some? {
      assert [] + r.value == r.value;
    }
  }

  lemma ReadMore(deps: seq<Dep>, d: Dep, r: Option<seq<Dep>>)
    ensures After(deps, if r.None? then None else Some([d] + r.value)) == After(deps + [d], r)
  {
    if r.Some? {
      assert deps + ([d] + r.value) == deps + [d] + r.value;
    }
  }

  /* ---- the round trip ---- */

  /** A type name: on one line, without blanks at its ends. */
  predicate PlainName(n: string) {
    OneLine(n) && Strip(n) == n
  }

  /** Replacing keeps the last character, and makes of the first one that is not blank another such. */
  lemma {:induction false} ReplaceEnds(s: string)
    requires s != ""
    ensures var r := Replace(s); r != "" && r[|r| - 1] == s[|s| - 1] && (r[0] == s[0] || r[0] == 's')
    decreases |s|
  {
    hide Find;
    var p := Find(s, OLD_HEADER, 0);
    if p.Pos? {
      AtSlice(s, p.i, OLD_HEADER);
      var rest := s[p.i + |OLD_HEADER|..];
      if rest == "" {
        AtChar(s, p.i, OLD_HEADER, 12);
        assert Replace("") == "" && NEW_HEADER[14] == OLD_HEADER[12] == 'r';
      } else {
        ReplaceEnds(rest);
      }
    }
  }

  lemma {:induction false} ReplaceOneLine(s: string)
    requires OneLine(s)
    ensures OneLine(Replace(s))
    decreases |s|
  {
    hide Find;
    var p := Find(s, OLD_HEADER, 0);
    if p.Pos? {
      AtSlice(s, p.i, OLD_HEADER);
      ReplaceOneLine(s[p.i + |OLD_HEADER|..]);
    }
  }

  lemma StripIff(s: string)
    ensures Strip(s) == s <==> s == "" || (!IsSpace(s[0]) && !IsSpace(s[|s| - 1]))
    ensures s == "" || !IsSpace(s[0]) ==> Strip(s) <= s
  {
    hide IsSpace;
    if s != "" && !IsSpace(s[0]) {
      StripPrefix(s);
    }
  }

  lemma {:induction false} StripPrefix(s: string)
    requires s != "" && !IsSpace(s[0])
    ensures Strip(s) <= s
  {
    hide IsSpace;
    if IsSpace(s[|s| - 1]) {
      StripPrefix(s[..|s| - 1]);
    }
  }

  lemma ReplacePlain(n: string)
    requires PlainName(n)
    ensures PlainName(Replace(n))
  {
    hide Replace, Strip;
    ReplaceOneLine(n);
    StripIff(n);
    StripIff(Replace(n));
    if n != "" {
      ReplaceEnds(n);
    } else {
      ReplaceNothing();
    }
  }

  lemma ReplaceNothing()
    ensures Replace("") == ""
  {
  }

  lemma ReplacePart(d: Dep)
    ensures Replace(Part(d)) == Part(Dep(Replace(d.name), Replace(d.text)))
  {
    hide Replace;
    ReplaceTypeLine(d.name);
    ReplaceLines(TYPE_LINE + d.name, d.text);
  }

  lemma ReplaceTypeLine(n: string)
    ensures Replace(TYPE_LINE + n) == TYPE_LINE + Replace(n)
  {
    hide At, Find, Replace;
    var line, p := TYPE_LINE + n, Find(n, OLD_HEADER, 0);
    FindAfterTypeLine(n);
    if p.Pos? {
      OldHeaderText();
      AtSlice(n, p.i, OLD_HEADER);
      ReplaceFirst(n, p.i);
      ReplaceFirst(line, p.i + 5);
      assert line[..p.i + 5] == TYPE_LINE + n[..p.i] && line[p.i + 5 + 13..] == n[p.i + 13..];
    } else {
      ReplaceNone(n);
      ReplaceNone(line);
    }
  }

  lemma ReplaceFirst(s: string, i: nat)
    requires Find(s, OLD_HEADER, 0) == Pos(i) && i + 13 <= |s|
    ensures Replace(s) == s[..i] + NEW_HEADER + Replace(s[i + 13..])
  {
    hide Find, Replace;
    OldHeaderText();
    ReplaceIs(s);
  }

  lemma ReplaceIs(s: string)
    ensures var p := Find(s, OLD_HEADER, 0); p.Pos? ==>
      && p.i + |OLD_HEADER| <= |s|
      && Replace(s) == s[..p.i] + NEW_HEADER + Replace(s[p.i + |OLD_HEADER|..])
  {
    hide Find;
    var p := Find(s, OLD_HEADER, 0);
    if p.Pos? {
      AtSlice(s, p.i, OLD_HEADER);
    }
  }

  /** The header name is not found in the marker of the type line. */
  lemma FindAfterTypeLine(n: string)
    ensures var p := Find(n, OLD_HEADER, 0);
      Find(TYPE_LINE + n, OLD_HEADER, 0) == if p.Npos? then Npos else Pos(p.i + 5)
  {
    hide At, Find;
    var line, p := TYPE_LINE + n, Find(n, OLD_HEADER, 0);
    forall k: nat | p.Npos? || k < p.i + 5 ensures !At(line, k, OLD_HEADER) {
      if k < 5 {
        OldHeaderText();
        assert line[k] == TYPE_LINE[k];
        AtMismatch(line, k, OLD_HEADER, 0);
      } else {
        ShiftedAt(n, k - 5);
      }
    }
    if p.Pos? {
      ShiftedAt(n, p.i);
      FindIs(line, OLD_HEADER, 0, p.i + 5);
    }
  }

  lemma ShiftedAt(n: string, k: nat)
    ensures At(TYPE_LINE + n, k + 5, OLD_HEADER) <==> At(n, k, OLD_HEADER)
  {
    var line := TYPE_LINE + n;
    assert line[5..] == n;
    if k + 13 <= |n| {
      assert line[k + 5..k + 5 + 13] == n[k..k + 13];
    }
  }

  lemma ReadPart(d: Dep)
    requires PlainName(d.name)
    ensures ReadDep(Part(d)) == Some(d)
  {
    hide Strip;
    var line := TYPE_LINE + d.name;
    var part := Part(d);
    assert part == line + "\n" + d.text;
    var f := FindChar(part, '\n', 0);
    assert part[|line|] == '\n';
    forall k | 0 <= k < |line| ensures part[k] != '\n' {
      assert part[k] == line[k];
      if k >= 5 {
        assert line[k] == d.name[k - 5];
      }
    }
    assert f == Pos(|line|);
    assert part[..|line|] == line && part[|line| + 1..] == d.text && line[5..] == d.name;
  }

  /** The dependencies with the old header name replaced in their names and texts. */
  function Renewed(deps: seq<Dep>): seq<Dep> {
    if deps == [] then [] else [Dep(Replace(deps[0].name), Replace(deps[0].text))] + Renewed(deps[1..])
  }

  lemma {:induction false} PartsRead(deps: seq<Dep>)
    requires forall d :: d in deps ==> PlainName(d.name)
    ensures ReadDeps(Parts(deps)) == Some(deps)
  {
    hide ReadDep, Part, PlainName;
    if deps != [] {
      assert deps[0] in deps;
      ReadPart(deps[0]);
      PartsRead(deps[1..]);
      assert Parts(deps)[1..] == Parts(deps[1..]) && [deps[0]] + deps[1..] == deps;
    }
  }

  lemma {:induction false} PartsRenewed(deps: seq<Dep>)
    requires forall d :: d in deps ==> PlainName(d.name)
    ensures ReplaceAll(Parts(deps)) == Parts(Renewed(deps)) && forall d :: d in Renewed(deps) ==> PlainName(d.name)
  {
    hide Replace, Part, PlainName;
    if deps != [] {
      assert deps[0] in deps;
      ReplacePart(deps[0]);
      ReplacePlain(deps[0].name);
      PartsRenewed(deps[1..]);
      assert Parts(deps)[1..] == Parts(deps[1..]);
    }
  }

  /* ---- and only then ---- */

  /** What may be taken for d: neither its name nor its text is cut short. */
  predicate Like(e: Dep, d: Dep) {
    && PlainName(d.name) && (e.name <= d.name ==> e.name == d.name)
    && (e.text <= d.text ==> e.text == d.text)
  }

  predicate AllLike(es: seq<Dep>, ds: seq<Dep>) {
    |es| == |ds| && forall i :: 0 <= i < |ds| ==> Like(es[i], ds[i])
  }

  lemma TypeLineOnly(name: string, e: Dep)
    requires PlainName(name) && (e.name <= name ==> e.name == name)
    ensures ReadDep(TYPE_LINE + name) != Some(e)
  {
    hide Strip, Find;
    var q := TYPE_LINE + name;
    forall k | 0 <= k < |q| ensures q[k] != '\n' {
      if k >= 5 {
        assert q[k] == name[k - 5];
      }
    }
    assert FindChar(q, '\n', 0).Npos?;
    var line := q[..|q| - 1];
    if TYPE_LINE <= line {
      var cut := name[..|name| - 1];
      assert line[5..] == cut;
      StripIff(name);
      StripIff(cut);
      assert cut <= name && |Strip(cut)| < |name|;
    }
  }

  lemma CutPart(d: Dep, f: nat)
    requires PlainName(d.name) && |TYPE_LINE + d.name| < f <= |Part(d)|
    ensures ReadDep(Part(d)[..f]) == Some(Dep(d.name, d.text[..f - |TYPE_LINE + d.name| - 1]))
  {
    hide Strip, Find, ReadDep;
    var h := |TYPE_LINE + d.name|;
    var cut := Dep(d.name, d.text[..f - h - 1]);
    assert Part(d)[..f] == Part(cut);
    ReadPart(cut);
  }

  /** A piece of a part, from its start, is read as something like the part only if it is all of it. */
  lemma PieceIff(e: Dep, d: Dep, f: nat)
    requires Like(e, d) && |TYPE_LINE + d.name| <= f <= |Part(d)| && ReadDep(Part(d)[..f]) == Some(e)
    ensures f == |Part(d)| && e == d
  {
    hide ReadDep, PlainName;
    var h := |TYPE_LINE + d.name|;
    if f == h {
      assert Part(d)[..f] == TYPE_LINE + d.name;
      TypeLineOnly(d.name, e);
    } else {
      CutPart(d, f);
      assert d.text[..f - h - 1] <= d.text;
    }
  }

  lemma {:induction false} ReadDepsLength(parts: seq<string>)
    ensures ReadDeps(parts).Some? ==> |ReadDeps(parts).value| == |parts|
  {
    hide ReadDep;
    if parts != [] {
      ReadDepsLength(parts[1..]);
    }
  }

  /** The first break is not in the type line. */
  lemma BreakAfterTypeLine(d: Dep, r: string, f: nat)
    requires PlainName(d.name) && At(Part(d) + r, f, BREAK)
    ensures f >= |TYPE_LINE + d.name|
  {
    hide Strip, Find;
    var line, x := TYPE_LINE + d.name, Part(d) + r;
    forall k | 0 <= k < |line| ensures x[k] != '\n' {
      assert x[k] == line[k];
      if k >= 5 {
        assert line[k] == d.name[k - 5];
      }
    }
    BreakText();
    AtChar(x, f, BREAK, 0);
  }

  lemma {:induction false} PartsReadOnly(es: seq<Dep>, ds: seq<Dep>)
    requires ds != [] && AllLike(es, ds) && ReadDeps(Split(Join(Parts(ds)))) == Some(es)
    ensures es == ds && Splittable(Parts(ds))
    decreases ds
  {
    hide ReadDep, Part, Find, Like, HasRule, Splittable;
    var d := ds[0];
    var x := Join(Parts(ds));
    var f := Find(x, BREAK, 0);
    ReadDepsLength(Split(x));
    assert Like(es[0], d);
    LikeNames(es[0], d);
    assert Parts(ds)[0] == Part(d) && Parts(ds)[1..] == Parts(ds[1..]);
    if |ds| == 1 {
      assert Parts(ds) == [Part(d)];
      LastPartOnly(es, d);
      assert es == [es[0]] && ds == [d];
    } else {
      PartsLength(ds[1..]);
      var r := Join(Parts(ds[1..]));
      assert x == Part(d) + BREAK + r;
      FirstBreak(Part(d), r);
      assert x == Part(d) + (BREAK + r);
      BreakAfterTypeLine(d, BREAK + r, f.i);
      SplitStep(x, f.i);
      assert x[..f.i] == Part(d)[..f.i];
      PieceIff(es[0], d, f.i);
      BreakText();
      assert x[f.i + |BREAK|..] == r;
      LikeRest(es, ds);
      PartsReadOnly(es[1..], ds[1..]);
      SplittableStep(Parts(ds));
      assert es == [es[0]] + es[1..] && ds == [d] + ds[1..];
    }
  }

  lemma LikeNames(e: Dep, d: Dep)
    requires Like(e, d)
    ensures PlainName(d.name) && (e.name <= d.name ==> e.name == d.name)
  {
    hide PlainName;
  }

  lemma LikeRest(es: seq<Dep>, ds: seq<Dep>)
    requires AllLike(es, ds) && ds != []
    ensures AllLike(es[1..], ds[1..])
  {
    hide Like;
    forall i | 0 <= i < |ds[1..]| ensures Like(es[1..][i], ds[1..][i]) {
      assert es[1..][i] == es[i + 1] && ds[1..][i] == ds[i + 1];
    }
  }

  lemma {:induction false} PartsLength(ds: seq<Dep>)
    ensures |Parts(ds)| == |ds|
  {
    hide Part;
    if ds != [] {
      PartsLength(ds[1..]);
    }
  }

  lemma SplitStep(x: string, f: nat)
    requires Find(x, BREAK, 0) == Pos(f)
    ensures f + |BREAK| <= |x| && Split(x) == [x[..f]] + Split(x[f + |BREAK|..])
    ensures Split(x)[0] == x[..f] && Split(x)[1..] == Split(x[f + |BREAK|..])
  {
    hide Find;
    AtSlice(x, f, BREAK);
  }

  lemma LastPartOnly(es: seq<Dep>, d: Dep)
    requires |es| == 1 && Like(es[0], d) && ReadDeps(Split(Part(d))) == Some(es)
    ensures es[0] == d && Splittable([Part(d)])
  {
    hide ReadDep, Part, Find, Like;
    var f := Find(Part(d), BREAK, 0);
    ReadDepsLength(Split(Part(d)));
    LikeNames(es[0], d);
    if f.Pos? {
      OneBreak(Part(d));
    }
    assert Split(Part(d)) == [Part(d)] && [Part(d)][1..] == [];
    ReadPart(d);
  }

  /** Splitting a text that starts with a core, which `core` stands for. */
  lemma CoreReadOnly(core: string, core': string, es: seq<Dep>, ds: seq<Dep>)
    requires (core <= core' ==> core == core') && AllLike(es, ds)
    requires var x := Join([core'] + Parts(ds)); Split(x)[0] == core && ReadDeps(Split(x)[1..]) == Some(es)
    ensures core == core' && es == ds && Splittable([core'] + Parts(ds))
  {
    hide ReadDep, Part, Find, Like, HasRule, Splittable, Split, Join;
    var parts := [core'] + Parts(ds);
    var x := Join(parts);
    var f := Find(x, BREAK, 0);
    PartsLength(ds);
    JoinIs(parts);
    assert parts[1..] == Parts(ds);
    if ds == [] {
      assert parts == [core'];
      LastCoreOnly(core, core');
      assert es == ds;
    } else {
      var r := Join(Parts(ds));
      FirstBreak(core', r);
      SplitStep(x, f.i);
      assert x[..f.i] == core'[..f.i] && core'[..f.i] <= core';
      BreakText();
      assert x[f.i + |BREAK|..] == r;
      PartsReadOnly(es, ds);
      SplittableStep(parts);
    }
  }

  lemma JoinIs(parts: seq<string>)
    requires parts != []
    ensures Join(parts) == if |parts| == 1 then parts[0] else parts[0] + BREAK + Join(parts[1..])
  {
  }

  lemma LastCoreOnly(core: string, core': string)
    requires (core <= core' ==> core == core') && Split(core')[0] == core
    ensures core == core' && Splittable([core'])
  {
    hide Find, Split;
    FirstPiece(core');
  }

  lemma FirstPiece(x: string)
    ensures Find(x, BREAK, 0).Pos? ==> Split(x)[0] <= x && |Split(x)[0]| < |x|
    ensures Find(x, BREAK, 0).Npos? ==> Split(x) == [x]
  {
    hide Find;
    var f := Find(x, BREAK, 0);
    BreakText();
    if f.Pos? {
      SplitStep(x, f.i);
    }
  }

  /* ---- the round trip, exactly ---- */

  lemma {:induction false} RenewedLike(deps: seq<Dep>)
    requires forall d :: d in deps ==> PlainName(d.name)
    ensures AllLike(Renewed(deps), Renewed(deps)) && AllLike(deps, Renewed(deps))
  {
    hide Replace, PlainName;
    if deps != [] {
      assert deps[0] in deps;
      RenewedLike(deps[1..]);
      ReplacePrefix(deps[0].name);
      ReplacePrefix(deps[0].text);
      ReplacePlain(deps[0].name);
      var r := Renewed(deps);
      assert r[1..] == Renewed(deps[1..]);
      forall i | 0 <= i < |r| ensures Like(r[i], r[i]) && Like(deps[i], r[i]) {
        if i > 0 {
          assert r[i] == r[1..][i - 1] && deps[i] == deps[1..][i - 1];
        }
      }
    }
  }

  /** A text is a prefix of its replacement only if nothing is replaced. */
  lemma ReplacePrefix(s: string)
    ensures s <= Replace(s) ==> s == Replace(s)
    ensures s == Replace(s) <==> Find(s, OLD_HEADER, 0).Npos?
  {
    var p := Find(s, OLD_HEADER, 0);
    if p.Pos? {
      OldHeaderText();
      AtChar(s, p.i, OLD_HEADER, 0);
      assert Replace(s)[p.i] == NEW_HEADER[0] == 's';
    }
  }

  lemma DynamicIs(core: string, deps: seq<Dep>)
    requires forall d :: d in deps ==> PlainName(d.name)
    ensures var x := Join([Replace(core)] + Parts(Renewed(deps)));
      Dynamic(FullText(core, deps))
      == var r := ReadDeps(Split(x)[1..]); if r.None? then Malformed else Loaded(Split(x)[0], r.value)
  {
    hide FullText, Replace, Join, Split, Parts, PlainName, ReadDeps;
    FullTextIsJoin(core, deps);
    ReplaceJoin([core] + Parts(deps));
    PartsRenewed(deps);
    assert ([core] + Parts(deps))[1..] == Parts(deps);
  }

  /**
   Taking the full text apart gives back the core text and every type and text in order, with
   the old header name replaced, exactly when the parts can be split.
   */
  lemma FullTextRoundTripIff(core: string, deps: seq<Dep>)
    requires forall d :: d in deps ==> PlainName(d.name)
    ensures Dynamic(FullText(core, deps)) == Loaded(Replace(core), Renewed(deps))
      <==> Splittable([Replace(core)] + Parts(Renewed(deps)))
  {
    hide FullText, Replace, Join, Split, Splittable, Parts, PlainName, ReadDeps, Dynamic, AllLike;
    DynamicIs(core, deps);
    PartsRenewed(deps);
    RenewedLike(deps);
    var ds := Renewed(deps);
    var parts := [Replace(core)] + Parts(ds);
    if Splittable(parts) {
      SplitJoinIff(parts);
      assert parts[1..] == Parts(ds);
      PartsRead(ds);
    } else if Dynamic(FullText(core, deps)) == Loaded(Replace(core), ds) {
      CoreReadOnly(Replace(core), Replace(core), ds, ds);
    }
  }

  /** They come back unchanged exactly when none of them has the old header name and they can be split. */
  lemma FullTextExactIff(core: string, deps: seq<Dep>)
    requires forall d :: d in deps ==> PlainName(d.name)
    ensures Dynamic(FullText(core, deps)) == Loaded(core, deps) <==>
      && Splittable([core] + Parts(deps)) && Find(core, OLD_HEADER, 0).Npos?
      && forall d :: d in deps ==> Find(d.name, OLD_HEADER, 0).Npos? && Find(d.text, OLD_HEADER, 0).Npos?
  {
    hide FullText, Replace, Join, Split, Splittable, Parts, PlainName, ReadDeps, Dynamic, AllLike, Find, Renewed;
    DynamicIs(core, deps);
    RenewedLike(deps);
    ReplacePrefix(core);
    RenewedSameIff(deps);
    if Dynamic(FullText(core, deps)) == Loaded(core, deps) {
      CoreReadOnly(core, Replace(core), deps, Renewed(deps));
    }
    if Replace(core) == core && Renewed(deps) == deps {
      FullTextRoundTripIff(core, deps);
    }
  }

  lemma {:induction false} RenewedSameIff(deps: seq<Dep>)
    ensures Renewed(deps) == deps <==>
      forall d :: d in deps ==> Find(d.name, OLD_HEADER, 0).Npos? && Find(d.text, OLD_HEADER, 0).Npos?
  {
    hide Replace, Find;
    if deps != [] {
      ReplacePrefix(deps[0].name);
      ReplacePrefix(deps[0].text);
      RenewedSameIff(deps[1..]);
      var r := Renewed(deps);
      assert r[0] == Dep(Replace(deps[0].name), Replace(deps[0].text)) && r[1..] == Renewed(deps[1..]);
      assert deps == [deps[0]] + deps[1..];
      assert r == deps <==> r[0] == deps[0] && r[1..] == deps[1..];
    }
  }

  /** Without the old header name and without a line of eighty '=', nothing is changed at all. */
  lemma FullTextExact(core: string, deps: seq<Dep>)
    requires forall d :: d in deps ==> PlainName(d.name) && !HasRule(Part(d))
    requires forall d :: d in deps ==> Find(d.name, OLD_HEADER, 0).Npos? && Find(d.text, OLD_HEADER, 0).Npos?
    requires Find(core, OLD_HEADER, 0).Npos? && !HasRule(core)
    ensures Dynamic(FullText(core, deps)) == Loaded(core, deps)
  {
    hide FullText, Dynamic, Splittable, Part, HasRule, Find, PlainName;
    var parts := [core] + Parts(deps);
    forall i | 0 <= i < |parts| ensures !HasRule(parts[i]) {
      if i > 0 {
        var d := PartAt(deps, i - 1);
      }
    }
    CleanSplittable(parts);
    FullTextExactIff(core, deps);
  }

  /** A line of eighty '=' in the core text is taken for a break, and what follows it is no dependency. */
  lemma RuleRejected()
    ensures Dynamic(FullText("int32 a" + BREAK + "int32 b", [])) == Malformed
  {
    hide Find, FullText, Replace, Split, Join, ReadDep;
    var a, b := "int32 a", "int32 b";
    var x := a + BREAK + b;
    FullTextIsJoin(x, []);
    assert [x] + [] == [x];
    JoinIs([x]);
    assert Replace(x) == x by {
      NoHeaderIn(a);
      NoHeaderIn(b);
      ReplaceBreak(a, b);
      ReplaceNone(a);
      ReplaceNone(b);
    }
    ShortPieces(a, b);
    assert [a, b][1..] == [b];
    NoDependency();
  }

  /** A message of the old package, and what comes of it: the header is renamed in the text and in the type. */
  lemma OldHeaderRenewed()
    ensures Dynamic(FullText("roslib/Header h", [Dep("roslib/Header", "uint32 seq")]))
         == Loaded("std_msgs/Header h", [Dep("std_msgs/Header", "uint32 seq")])
  {
    hide FullText, Replace, Splittable, Parts, PlainName, Dynamic, Find, Part;
    var d, e := Dep("roslib/Header", "uint32 seq"), Dep("std_msgs/Header", "uint32 seq");
    OldTexts();
    assert [d][1..] == [];
    assert Renewed([d]) == [e] + Renewed([]) == [e];
    FullTextRoundTripIff("roslib/Header h", [d]);
    OnePart(e);
    NoRuleIn("std_msgs/Header h");
    NoRuleIn(Part(e));
    var parts := ["std_msgs/Header h"] + Parts([e]);
    CleanSplittable(parts);
  }

  lemma OnePart(d: Dep)
    ensures Parts([d]) == [Part(d)] && |Part(d)| == 6 + |d.name| + |d.text|
  {
  }

  lemma OldTexts()
    ensures Replace("roslib/Header h") == "std_msgs/Header h" && Replace("roslib/Header") == "std_msgs/Header"
    ensures Replace("uint32 seq") == "uint32 seq" && PlainName("roslib/Header")
  {
    hide Find, Replace;
    var a, b := "roslib/Header h", "roslib/Header";
    assert At(a, 0, OLD_HEADER) && At(b, 0, OLD_HEADER);
    FindIs(a, OLD_HEADER, 0, 0);
    FindIs(b, OLD_HEADER, 0, 0);
    ReplaceFirst(a, 0);
    ReplaceFirst(b, 0);
    assert a[13..] == " h" && b[13..] == "";
    NoHeaderIn(" h");
    NoHeaderIn("");
    NoHeaderIn("uint32 seq");
    ReplaceNone(" h");
    ReplaceNone("");
    ReplaceNone("uint32 seq");
    StripIff(b);
  }

  /** A part without a newline loses the last character of its type line, and keeps the line as its text. */
  lemma NoNewline(n: string)
    requires OneLine(n) && n != ""
    ensures ReadDep("MSG: " + n) == Some(Dep(Strip(n[..|n| - 1]), "MSG: " + n))
  {
    hide Strip;
    var part := TYPE_LINE + n;
    forall k | 0 <= k < |part| ensures part[k] != '\n' {
      if k >= 5 {
        assert part[k] == n[k - 5];
      }
    }
    assert FindChar(part, '\n', 0).Npos?;
    var line := part[..|part| - 1];
    assert line == TYPE_LINE + n[..|n| - 1] && line[5..] == n[..|n| - 1];
  }

  lemma NoDependency()
    ensures ReadDep("int32 b").None?
  {
  }

  lemma ShortPieces(a: string, b: string)
    requires |a| < 80 && |b| < 80
    ensures Split(a + BREAK + b) == [a, b]
  {
    hide Find, Split;
    var x := a + BREAK + b;
    FirstBreak(a, b);
    NoRuleIn(a);
    SplitStep(x, |a|);
    BreakText();
    assert x[..|a|] == a && x[|a| + |BREAK|..] == b;
    NoBreakIn(b);
    FirstPiece(b);
  }

  lemma NoHeaderIn(s: string)
    requires |s| < 13
    ensures Find(s, OLD_HEADER, 0).Npos?
  {
    OldHeaderText();
  }

  lemma NoRuleIn(s: string)
    requires |s| < 80
    ensures !HasRule(s)
  {
    BreakText();
  }

  lemma NoBreakIn(s: string)
    requires |s| < 80
    ensures Find(s, BREAK, 0).Npos?
  {
    BreakText();
  }

  lemma {:induction false} PartAt(deps: seq<Dep>, i: nat) returns (d: Dep)
    requires i < |Parts(deps)|
    ensures d in deps && Parts(deps)[i] == Part(d)
  {
    hide Part;
    if i == 0 {
      d := deps[0];
    } else {
      d := PartAt(deps[1..], i - 1);
    }
  }

  lemma CleanSplittable(parts: seq<string>)
    requires parts != [] && forall i :: 0 <= i < |parts| ==> !HasRule(parts[i])
    ensures Splittable(parts)
  {
    hide HasRule;
    var p := parts[|parts| - 1];
    assert !HasRule(p);
    var f := Find(p, BREAK, 0);
    if f.Pos? {
      BreakText();
      RuleIn(p, f.i);
    }
  }

  lemma RuleIn(p: string, k: nat)
    requires At(p, k, BREAK)
    ensures HasRule(p)
  {
    BreakText();
    assert (p + "\n")[k..k + 82] == p[k..k + 82];
    assert At(p + "\n", k, BREAK);
  }
}
