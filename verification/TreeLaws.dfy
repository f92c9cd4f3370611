/** Laws of attribute paths, and how field lists and their wire images split and flatten. */
module TreeLaws {
  import opened Common
  import opened WireTypes
  import opened PyTarget
  import opened Generator

  /* ---- paths ---- */

  lemma {:induction false} GetConcat(t: Tree, p: seq<string>, q: seq<string>)
    ensures Get(t, p + q) == if Get(t, p).None? then None else Get(Get(t, p).value, q)
    decreases p
  {
    if p == [] {
      assert p + q == q;
    } else {
      assert (p + q)[1..] == p[1..] + q;
      if t.Obj? && p[0] in t.fs {
        GetConcat(t.fs[p[0]], p[1..], q);
      }
    }
  }

  lemma {:induction false} GetPut(t: Tree, p: seq<string>, x: Tree)
    requires Get(t, p).Some?
    ensures Get(Put(t, p, x), p) == Some(x)
    decreases p
  {
    if p != [] {
      GetPut(t.fs[p[0]], p[1..], x);
    }
  }

  lemma {:induction false} PutPut(t: Tree, p: seq<string>, x: Tree, y: Tree)
    requires Get(t, p).Some?
    ensures Put(Put(t, p, x), p, y) == Put(t, p, y)
    decreases p
  {
    if p != [] {
      PutPut(t.fs[p[0]], p[1..], x, y);
      assert t.fs[p[0] := Put(t.fs[p[0]], p[1..], x)][p[0] := Put(t.fs[p[0]], p[1..], y)]
          == t.fs[p[0] := Put(t.fs[p[0]], p[1..], y)];
    }
  }

  lemma {:induction false} PutGet(t: Tree, p: seq<string>)
    requires Get(t, p).Some?
    ensures Put(t, p, Get(t, p).value) == t
    decreases p
  {
    if p != [] {
      PutGet(t.fs[p[0]], p[1..]);
      assert t.fs[p[0] := t.fs[p[0]]] == t.fs;
    }
  }

  lemma {:induction false} PutConcat(t: Tree, p: seq<string>, q: seq<string>, x: Tree)
    requires Get(t, p).Some?
    ensures Put(t, p + q, x) == Put(t, p, Put(Get(t, p).value, q, x))
    decreases p
  {
    if p == [] {
      assert p + q == q;
    } else {
      assert (p + q)[1..] == p[1..] + q;
      PutConcat(t.fs[p[0]], p[1..], q, x);
    }
  }

  /* ---- field lists ---- */

  lemma FieldsValueSplit(a: seq<Field>, b: seq<Field>, t: Tree)
    ensures FieldsValue(a + b, t) <==> FieldsValue(a, t) && FieldsValue(b, t)
  {
    if FieldsValue(a + b, t) {
      forall i | 0 <= i < |a| ensures FieldAt(a[i], t) { assert (a + b)[i] == a[i]; }
      forall i | 0 <= i < |b| ensures FieldAt(b[i], t) { assert (a + b)[|a| + i] == b[i]; }
    }
  }

  lemma {:induction false} WireFieldsSplit(a: seq<Field>, b: seq<Field>, t: Tree)
    requires FieldsValue(a, t) && FieldsValue(b, t)
    ensures FieldsValue(a + b, t)
    ensures WireFields(a + b, t) == WireFields(a, t) + WireFields(b, t)
  {
    FieldsValueSplit(a, b, t);
    if a == [] {
      assert a + b == b;
    } else {
      assert (a + b)[1..] == a[1..] + b;
      FieldsValueSplit([a[0]], a[1..], t);
      assert a == [a[0]] + a[1..];
      WireFieldsSplit(a[1..], b, t);
    }
  }

  lemma WireFieldsOne(f: Field, t: Tree)
    requires FieldAt(f, t)
    ensures FieldsValue([f], t) && WireFields([f], t) == WireField(f.ty, Get(t, f.path).value)
  {
    assert [f][1..] == [];
    assert WireFields([f], t) == WireField(f.ty, Get(t, f.path).value) + WireFields([], t);
  }

  /** A prefixed field list read from t is the plain list read from the object at the prefix. */
  lemma {:induction false} WirePrefixed(p: seq<string>, fs: seq<Field>, t: Tree, o: Tree)
    requires Get(t, p) == Some(o) && FieldsValue(fs, o)
    ensures FieldsValue(Prefixed(p, fs), t)
    ensures WireFields(Prefixed(p, fs), t) == WireFields(fs, o)
  {
    var r := Prefixed(p, fs);
    forall i | 0 <= i < |r| ensures FieldAt(r[i], t) {
      GetConcat(t, p, fs[i].path);
      assert FieldAt(fs[i], o);
    }
    if fs != [] {
      GetConcat(t, p, fs[0].path);
      assert r[1..] == Prefixed(p, fs[1..]);
      FieldsValueSplit([fs[0]], fs[1..], o);
      assert fs == [fs[0]] + fs[1..];
      WirePrefixed(p, fs[1..], t, o);
    }
  }

  /* ---- flattening ---- */

  lemma {:induction false} FlattenWireOne(f: Field, t: Tree)
    requires FieldAt(f, t)
    ensures FieldsValue(FlattenOne(f), t)
    ensures WireFields(FlattenOne(f), t) == WireField(f.ty, Get(t, f.path).value)
    decreases f, 0
  {
    if IsEmbedded(f.ty) {
      var o := Get(t, f.path).value;
      assert BaseValue(f.ty.base, o);
      FlattenWire(f.ty.base.fields, o);
      WirePrefixed(f.path, Flatten(f.ty.base.fields), t, o);
    } else {
      WireFieldsOne(f, t);
    }
  }

  /** Flattening changes neither which values are well typed nor the bytes they stand for. */
  lemma {:induction false} FlattenWire(fs: seq<Field>, t: Tree)
    requires FieldsValue(fs, t)
    ensures FieldsValue(Flatten(fs), t)
    ensures WireFields(Flatten(fs), t) == WireFields(fs, t)
    decreases fs, 0
  {
    if fs != [] {
      assert fs == [fs[0]] + fs[1..];
      FieldsValueSplit([fs[0]], fs[1..], t);
      FlattenWireOne(fs[0], t);
      FlattenWire(fs[1..], t);
      WireFieldsSplit(FlattenOne(fs[0]), Flatten(fs[1..]), t);
    }
  }

  /** Flattened fields: no embedded message left, and every path starts with a declared name. */
  predicate FlatFrom(r: seq<Field>, fs: seq<Field>) {
    forall i :: 0 <= i < |r| ==>
      && !IsEmbedded(r[i].ty) && r[i].path != []
      && (exists j :: 0 <= j < |fs| && fs[j].path == [r[i].path[0]])
  }

  lemma {:induction false} FlattenFlat(fs: seq<Field>)
    requires Declared(fs)
    ensures FlatFrom(Flatten(fs), fs)
    decreases fs, 1
  {
    if fs != [] {
      DeclaredRest(fs);
      FlattenFlat(fs[1..]);
      FlattenOneFlat(fs[0]);
      var r := Flatten(fs);
      forall i | 0 <= i < |r|
        ensures !IsEmbedded(r[i].ty) && r[i].path != [] && exists j :: 0 <= j < |fs| && fs[j].path == [r[i].path[0]]
      {
        var k := |FlattenOne(fs[0])|;
        if i < k {
          assert fs[0].path == [r[i].path[0]];
        } else {
          assert r[i] == Flatten(fs[1..])[i - k];
          var j :| 0 <= j < |fs[1..]| && fs[1..][j].path == [r[i].path[0]];
          assert fs[j + 1].path == [r[i].path[0]];
        }
      }
    }
  }

  lemma {:induction false} FlattenOneFlat(f: Field)
    requires |f.path| == 1 && DeclaredBase(f.ty.base)
    ensures FlatFrom(FlattenOne(f), [f])
    decreases f, 2
  {
    var r := FlattenOne(f);
    if IsEmbedded(f.ty) {
      var sub := Flatten(f.ty.base.fields);
      FlattenFlat(f.ty.base.fields);
      forall i | 0 <= i < |r|
        ensures !IsEmbedded(r[i].ty) && r[i].path != [] && [f][0].path == [r[i].path[0]]
      {
        assert r[i].path == f.path + sub[i].path;
      }
    } else {
      assert [f][0].path == [r[0].path[0]];
    }
  }

  lemma DeclaredRest(fs: seq<Field>)
    requires fs != [] && Declared(fs)
    ensures Declared(fs[1..]) && DeclaredBase(fs[0].ty.base) && |fs[0].path| == 1
    ensures forall j :: 0 <= j < |fs[1..]| ==> fs[1..][j].path != fs[0].path
  {
    forall i, j | 0 <= i < j < |fs[1..]| ensures fs[1..][i].path != fs[1..][j].path {
      assert fs[1..][i] == fs[i + 1] && fs[1..][j] == fs[j + 1];
    }
  }

  lemma {:induction false} FlattenOneDistinct(f: Field)
    requires |f.path| == 1 && DeclaredBase(f.ty.base)
    ensures DistinctPaths(FlattenOne(f))
    decreases f, 2
  {
    if IsEmbedded(f.ty) {
      var sub := Flatten(f.ty.base.fields);
      FlattenDistinct(f.ty.base.fields);
      var r := FlattenOne(f);
      forall i, j | 0 <= i < j < |r| ensures r[i].path != r[j].path {
        assert r[i].path[1..] == sub[i].path && r[j].path[1..] == sub[j].path;
      }
    }
  }

  /** Flattening a duplicate-free specification never makes two fields share a path. */
  lemma {:induction false} FlattenDistinct(fs: seq<Field>)
    requires Declared(fs)
    ensures DistinctPaths(Flatten(fs))
    decreases fs, 1
  {
    if fs != [] {
      DeclaredRest(fs);
      FlattenDistinct(fs[1..]);
      FlattenOneDistinct(fs[0]);
      FlattenOneFlat(fs[0]);
      FlattenFlat(fs[1..]);
      var a, b := FlattenOne(fs[0]), Flatten(fs[1..]);
      forall i, j | 0 <= i < |a| && 0 <= j < |b| ensures a[i].path != b[j].path {
        assert [fs[0]][0].path == [a[i].path[0]];
      }
      DistinctConcat(a, b);
    }
  }

  lemma DistinctConcat(a: seq<Field>, b: seq<Field>)
    requires DistinctPaths(a) && DistinctPaths(b)
    requires forall i, j :: 0 <= i < |a| && 0 <= j < |b| ==> a[i].path != b[j].path
    ensures DistinctPaths(a + b)
  {
  }

  /* ---- dotted names ---- */

  /** The name the flattened specification carries: components joined by dots. */
  function Dotted(p: seq<string>): string {
    if p == [] then "" else if |p| == 1 then p[0] else p[0] + "." + Dotted(p[1..])
  }

  predicate LegalPath(p: seq<string>) {
    p != [] && forall i :: 0 <= i < |p| ==> LegalName(p[i])
  }

  lemma FirstNotLonger(p: seq<string>, q: seq<string>)
    requires LegalPath(p) && LegalPath(q) && Dotted(p) == Dotted(q)
    ensures |q[0]| <= |p[0]|
  {
    var s := Dotted(p);
    assert |p| > 1 ==> s[|p[0]|] == '.';
    assert forall i :: 0 <= i < |q[0]| ==> s[i] == q[0][i] && q[0][i] in q[0];
  }

  /** A dotted name determines its components. */
  lemma {:induction false} DottedInjective(p: seq<string>, q: seq<string>)
    requires LegalPath(p) && LegalPath(q) && Dotted(p) == Dotted(q)
    ensures p == q
    decreases p
  {
    var s := Dotted(p);
    FirstNotLonger(p, q);
    FirstNotLonger(q, p);
    assert s[..|p[0]|] == p[0] && s[..|q[0]|] == q[0];
    if |p| > 1 && |q| > 1 {
      assert s[|p[0]| + 1..] == Dotted(p[1..]) == Dotted(q[1..]);
      DottedInjective(p[1..], q[1..]);
      assert p == [p[0]] + p[1..] && q == [q[0]] + q[1..];
    } else {
      assert |s| == |p[0]| ==> |p| == 1 && |q| == 1;
      assert p == [p[0]] && q == [q[0]];
    }
  }

  lemma {:induction false} FlattenLegal(fs: seq<Field>)
    requires Declared(fs)
    ensures forall i :: 0 <= i < |Flatten(fs)| ==> LegalPath(Flatten(fs)[i].path)
    decreases fs, 1
  {
    hide LegalName;
    if fs != [] {
      DeclaredRest(fs);
      FlattenLegal(fs[1..]);
      FlattenOneLegal(fs[0]);
    }
  }

  lemma {:induction false} FlattenOneLegal(f: Field)
    requires |f.path| == 1 && LegalName(f.path[0]) && DeclaredBase(f.ty.base)
    ensures forall i :: 0 <= i < |FlattenOne(f)| ==> LegalPath(FlattenOne(f)[i].path)
    decreases f, 2
  {
    hide LegalName;
    if IsEmbedded(f.ty) {
      FlattenLegal(f.ty.base.fields);
      var sub, r := Flatten(f.ty.base.fields), FlattenOne(f);
      forall i | 0 <= i < |r| ensures LegalPath(r[i].path) {
        assert r[i].path == f.path + sub[i].path && LegalPath(sub[i].path);
      }
    }
  }

  /** So no two fields of the flattened specification have the same dotted name. */
  lemma FlattenNamesDistinct(fs: seq<Field>, i: nat, j: nat)
    requires Declared(fs) && i < j < |Flatten(fs)|
    ensures Dotted(Flatten(fs)[i].path) != Dotted(Flatten(fs)[j].path)
  {
    hide Flatten, Dotted, LegalPath;
    FlattenDistinct(fs);
    FlattenLegal(fs);
    var p, q := Flatten(fs)[i].path, Flatten(fs)[j].path;
    if Dotted(p) == Dotted(q) {
      DottedInjective(p, q);
    }
  }

  /* ---- batches of simple fields ---- */

  function Batches(fs: seq<Field>): seq<seq<Field>> {
    if |fs| == 0 then [] else if |fs| <= MAX_CHUNK then [fs] else [fs[..MAX_CHUNK]] + Batches(fs[MAX_CHUNK..])
  }

  function Together(bs: seq<seq<Field>>): seq<Field> {
    if bs == [] then [] else bs[0] + Together(bs[1..])
  }

  function BatchCode(ser: bool, c: Var, bs: seq<seq<Field>>): seq<Stmt>
    requires forall b :: b in bs ==> AllSimple(b)
  {
    if bs == [] then [] else Chunk(ser, c, bs[0]) + BatchCode(ser, c, bs[1..])
  }

  /** The batches are the fields in order, one to 255 at a time, and the code is one call for each. */
  lemma {:induction false} ChunksPartition(ser: bool, c: Var, fs: seq<Field>)
    requires AllSimple(fs)
    ensures Together(Batches(fs)) == fs
    ensures forall b :: b in Batches(fs) ==> 1 <= |b| <= 255 && AllSimple(b)
    ensures Chunks(ser, c, fs) == BatchCode(ser, c, Batches(fs))
    decreases |fs|
  {
    hide Chunk, IsSimple;
    if 0 < |fs| <= MAX_CHUNK {
      assert fs + [] == fs && [fs][1..] == [];
      assert Chunk(ser, c, fs) + [] == Chunk(ser, c, fs);
    } else if |fs| > MAX_CHUNK {
      var a, b := fs[..MAX_CHUNK], fs[MAX_CHUNK..];
      assert AllSimple(a) && AllSimple(b) && a + b == fs;
      ChunksPartition(ser, c, b);
      assert Batches(fs)[1..] == Batches(b);
    }
  }

  /** No more calls than it takes. */
  lemma {:induction false} BatchCount(fs: seq<Field>)
    requires AllSimple(fs)
    ensures |Batches(fs)| == (|fs| + 254) / 255
    decreases |fs|
  {
    hide IsSimple;
    if |fs| > MAX_CHUNK {
      var b := fs[MAX_CHUNK..];
      assert AllSimple(b);
      BatchCount(b);
    }
  }
}
