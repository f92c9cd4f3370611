/** Filling the attributes of an object one by one, and what the filled object is. */
module FillLaws {
  import opened Common
  import opened WireTypes
  import opened PyTarget
  import opened Generator
  import opened TreeLaws

  /** No field lies inside another one. */
  predicate PrefixFree(fs: seq<Field>) {
    forall i, j :: 0 <= i < |fs| && 0 <= j < |fs| && i != j ==> !(fs[i].path <= fs[j].path)
  }

  /** o with every field of fs set to what it has in the message v. */
  function Fill(o: Tree, fs: seq<Field>, v: Tree): Tree
    requires FieldsValue(fs, v)
    decreases fs
  {
    if fs == [] then o
    else
      assert FieldAt(fs[0], v);
      assert forall i :: 0 <= i < |fs| - 1 ==> fs[1..][i] == fs[i + 1];
      Fill(Put(o, fs[0].path, NormField(fs[0].ty, Get(v, fs[0].path).value)), fs[1..], v)
  }

  /** An object of a message class whose embedded messages are objects of theirs. */
  predicate Shaped(fs: seq<Field>, o: Tree)
    decreases fs, 0
  {
    HasSlots(fs, o) && forall i :: 0 <= i < |fs| ==> Ready(fs[i], o)
  }

  /** The field can be assigned; an embedded message can be filled in place. */
  predicate Ready(f: Field, o: Tree)
    decreases f, 0
  {
    && Get(o, f.path).Some?
    && (IsEmbedded(f.ty) ==> Shaped(f.ty.base.fields, Get(o, f.path).value))
  }

  predicate AllReady(fs: seq<Field>, o: Tree) {
    forall i :: 0 <= i < |fs| ==> Ready(fs[i], o)
  }

  /* ---- independent paths ---- */

  lemma {:induction false} GetPutOther(t: Tree, p: seq<string>, q: seq<string>, x: Tree)
    requires Get(t, p).Some? && !(p <= q) && !(q <= p)
    ensures Get(Put(t, p, x), q) == Get(t, q)
    decreases p
  {
    if p[0] == q[0] {
      assert p == [p[0]] + p[1..] && q == [q[0]] + q[1..];
      GetPutOther(t.fs[p[0]], p[1..], q[1..], x);
    }
  }

  lemma ReadyAfterPut(fs: seq<Field>, o: Tree, x: Tree)
    requires fs != [] && PrefixFree(fs) && AllReady(fs, o)
    ensures PrefixFree(fs[1..]) && AllReady(fs[1..], Put(o, fs[0].path, x))
  {
    forall i | 0 <= i < |fs[1..]| ensures Ready(fs[1..][i], Put(o, fs[0].path, x)) {
      assert fs[1..][i] == fs[i + 1];
      GetPutOther(o, fs[0].path, fs[i + 1].path, x);
    }
  }

  lemma FieldsValueRest(fs: seq<Field>, v: Tree)
    requires fs != [] && FieldsValue(fs, v)
    ensures FieldAt(fs[0], v) && FieldsValue(fs[1..], v)
  {
    FieldsValueSplit([fs[0]], fs[1..], v);
    assert fs == [fs[0]] + fs[1..];
  }

  lemma {:induction false} FillSplit(o: Tree, a: seq<Field>, b: seq<Field>, v: Tree)
    requires FieldsValue(a, v) && FieldsValue(b, v)
    ensures FieldsValue(a + b, v)
    ensures Fill(o, a + b, v) == Fill(Fill(o, a, v), b, v)
    decreases a
  {
    FieldsValueSplit(a, b, v);
    if a == [] {
      assert a + b == b;
    } else {
      FieldsValueRest(a, v);
      assert (a + b)[1..] == a[1..] + b;
      FillSplit(Put(o, a[0].path, NormField(a[0].ty, Get(v, a[0].path).value)), a[1..], b, v);
    }
  }

  lemma FillOne(o: Tree, f: Field, v: Tree)
    requires FieldAt(f, v)
    ensures FieldsValue([f], v)
    ensures Fill(o, [f], v) == Put(o, f.path, NormField(f.ty, Get(v, f.path).value))
  {
    assert [f][1..] == [];
  }

  /** Fields apart from the filled ones are still ready. */
  lemma {:induction false} FillReady(o: Tree, a: seq<Field>, b: seq<Field>, v: Tree)
    requires FieldsValue(a, v) && PrefixFree(a + b) && AllReady(a + b, o)
    ensures PrefixFree(b) && AllReady(b, Fill(o, a, v))
    decreases a
  {
    if a == [] {
      assert a + b == b;
    } else {
      FieldsValueRest(a, v);
      assert (a + b)[1..] == a[1..] + b;
      var x := NormField(a[0].ty, Get(v, a[0].path).value);
      ReadyAfterPut(a + b, o, x);
      FillReady(Put(o, a[0].path, x), a[1..], b, v);
    }
  }

  /** A path independent of all filled fields is not touched. */
  lemma {:induction false} FillOther(o: Tree, fs: seq<Field>, v: Tree, q: seq<string>)
    requires FieldsValue(fs, v) && PrefixFree(fs) && AllReady(fs, o)
    requires forall i :: 0 <= i < |fs| ==> !(fs[i].path <= q) && !(q <= fs[i].path)
    ensures Get(Fill(o, fs, v), q) == Get(o, q)
    decreases fs
  {
    if fs != [] {
      FieldsValueRest(fs, v);
      var x := NormField(fs[0].ty, Get(v, fs[0].path).value);
      ReadyAfterPut(fs, o, x);
      GetPutOther(o, fs[0].path, q, x);
      assert forall i :: 0 <= i < |fs[1..]| ==> fs[1..][i] == fs[i + 1];
      FillOther(Put(o, fs[0].path, x), fs[1..], v, q);
    }
  }

  /** A filled field holds its value. */
  lemma {:induction false} FillGet(o: Tree, fs: seq<Field>, v: Tree, i: nat)
    requires FieldsValue(fs, v) && PrefixFree(fs) && AllReady(fs, o) && i < |fs|
    ensures FieldAt(fs[i], v)
    ensures Get(Fill(o, fs, v), fs[i].path) == Some(NormField(fs[i].ty, Get(v, fs[i].path).value))
    decreases fs
  {
    FieldsValueRest(fs, v);
    var x := NormField(fs[0].ty, Get(v, fs[0].path).value);
    ReadyAfterPut(fs, o, x);
    if i == 0 {
      GetPut(o, fs[0].path, x);
      assert forall k :: 0 <= k < |fs[1..]| ==> fs[1..][k] == fs[k + 1];
      FillOther(Put(o, fs[0].path, x), fs[1..], v, fs[0].path);
    } else {
      FillGet(Put(o, fs[0].path, x), fs[1..], v, i - 1);
    }
  }

  /* ---- a filled object is the message ---- */

  lemma {:induction false} SlotNameOf(fs: seq<Field>, i: nat)
    requires i < |fs| && fs[i].path != []
    ensures fs[i].path[0] in SlotNames(fs)
  {
    if i > 0 {
      SlotNameOf(fs[1..], i - 1);
    }
  }

  lemma {:induction false} SlotNameOnly(fs: seq<Field>, k: string)
    requires OneComponent(fs) && forall i :: 0 <= i < |fs| ==> fs[i].path != [k]
    ensures k !in SlotNames(fs)
  {
    if fs != [] {
      assert fs[0].path == [fs[0].path[0]];
      assert forall i :: 0 <= i < |fs[1..]| ==> fs[1..][i] == fs[i + 1];
      SlotNameOnly(fs[1..], k);
    }
  }

  lemma UpdateCommutes(m: map<string, Tree>, r: map<string, Tree>, n: string, x: Tree)
    requires n !in r
    ensures m[n := x] + r == m + r[n := x]
  {
  }

  lemma {:induction false} FillSlots(m: map<string, Tree>, fs: seq<Field>, v: Tree)
    requires FieldsValue(fs, v) && OneComponent(fs) && DistinctPaths(fs) && SlotNames(fs) <= m.Keys
    ensures Fill(Obj(m), fs, v) == Obj(m + NormSlots(fs, v))
    decreases fs
  {
    hide NormField, Get, FieldValue;
    if fs == [] {
      assert m + map[] == m;
    } else {
      FieldsValueRest(fs, v);
      var n := fs[0].path[0];
      assert fs[0].path == [n] && fs[0].path[1..] == [];
      var x := NormField(fs[0].ty, Get(v, fs[0].path).value);
      assert forall i :: 0 <= i < |fs[1..]| ==> fs[1..][i] == fs[i + 1];
      SlotNameOnly(fs[1..], n);
      SlotNameOf(fs, 0);
      assert Put(Obj(m), fs[0].path, x) == Obj(m[n := x]);
      FillSlots(m[n := x], fs[1..], v);
      UpdateCommutes(m, NormSlots(fs[1..], v), n, x);
    }
  }

  /** An object with the declared attributes, all filled, is the normalized message. */
  lemma FillIsNorm(fs: seq<Field>, o: Tree, v: Tree)
    requires FieldsValue(fs, v) && Declared(fs) && HasSlots(fs, o)
    ensures Fill(o, fs, v) == Obj(NormSlots(fs, v))
  {
    FillSlots(o.fs, fs, v);
    assert o.fs + NormSlots(fs, v) == NormSlots(fs, v);
  }

  /* ---- flattening ---- */

  lemma {:induction false} FillPrefixed(o: Tree, p: seq<string>, fs: seq<Field>, v: Tree, w: Tree)
    requires Get(v, p) == Some(w) && FieldsValue(fs, w) && Get(o, p).Some?
    ensures FieldsValue(Prefixed(p, fs), v)
    ensures Fill(o, Prefixed(p, fs), v) == Put(o, p, Fill(Get(o, p).value, fs, w))
    decreases fs
  {
    WirePrefixed(p, fs, v, w);
    var r := Prefixed(p, fs);
    var s := Get(o, p).value;
    if fs == [] {
      PutGet(o, p);
    } else {
      FieldsValueRest(fs, w);
      FieldsValueRest(r, v);
      GetConcat(v, p, fs[0].path);
      assert r[1..] == Prefixed(p, fs[1..]);
      var x := NormField(fs[0].ty, Get(w, fs[0].path).value);
      PutConcat(o, p, fs[0].path, x);
      var s' := Put(s, fs[0].path, x);
      GetPut(o, p, s');
      FillPrefixed(Put(o, p, s'), p, fs[1..], v, w);
      PutPut(o, p, s', Fill(s', fs[1..], w));
    }
  }

  lemma {:induction false} FillFlattenOne(o: Tree, f: Field, v: Tree)
    requires FieldAt(f, v) && |f.path| == 1 && DeclaredBase(f.ty.base) && Ready(f, o)
    ensures FieldsValue(FlattenOne(f), v)
    ensures Fill(o, FlattenOne(f), v) == Put(o, f.path, NormField(f.ty, Get(v, f.path).value))
    decreases f, 0
  {
    FlattenWireOne(f, v);
    if IsEmbedded(f.ty) {
      var sub, w, s := f.ty.base.fields, Get(v, f.path).value, Get(o, f.path).value;
      assert BaseValue(f.ty.base, w);
      FlattenWire(sub, w);
      FillPrefixed(o, f.path, Flatten(sub), v, w);
      FillFlatten(s, sub, w);
      FillIsNorm(sub, s, w);
    } else {
      FillOne(o, f, v);
    }
  }

  lemma DeclaredPrefixFree(fs: seq<Field>)
    requires Declared(fs)
    ensures PrefixFree(fs)
  {
  }

  /** Filling the flattened fields gives the same object as filling the declared ones. */
  lemma {:induction false} FillFlatten(o: Tree, fs: seq<Field>, v: Tree)
    requires FieldsValue(fs, v) && Declared(fs) && AllReady(fs, o)
    ensures FieldsValue(Flatten(fs), v)
    ensures Fill(o, Flatten(fs), v) == Fill(o, fs, v)
    decreases fs, 0
  {
    FlattenWire(fs, v);
    if fs != [] {
      FieldsValueRest(fs, v);
      DeclaredRest(fs);
      DeclaredPrefixFree(fs);
      var x := NormField(fs[0].ty, Get(v, fs[0].path).value);
      FillFlattenOne(o, fs[0], v);
      ReadyAfterPut(fs, o, x);
      FlattenWire(fs[1..], v);
      FillSplit(o, FlattenOne(fs[0]), Flatten(fs[1..]), v);
      FillFlatten(Put(o, fs[0].path, x), fs[1..], v);
    }
  }

  /** The flattened fields of a shaped object can all be assigned, and none lies inside another. */
  lemma {:induction false} FlattenReady(fs: seq<Field>, o: Tree)
    requires Declared(fs) && AllReady(fs, o)
    ensures AllReady(Flatten(fs), o) && PrefixFree(Flatten(fs))
    decreases fs, 0
  {
    if fs != [] {
      DeclaredRest(fs);
      forall i | 0 <= i < |fs[1..]| ensures Ready(fs[1..][i], o) { assert fs[1..][i] == fs[i + 1]; }
      FlattenReady(fs[1..], o);
      assert Ready(fs[0], o);
      FlattenOneReady(fs[0], o);
      FlattenOneFlat(fs[0]);
      FlattenFlat(fs[1..]);
      var a, b := FlattenOne(fs[0]), Flatten(fs[1..]);
      forall i, j | 0 <= i < |a| && 0 <= j < |b|
        ensures !(a[i].path <= b[j].path) && !(b[j].path <= a[i].path)
      {
        assert [fs[0]][0].path == [a[i].path[0]];
      }
      PrefixFreeConcat(a, b);
    }
  }

  lemma PrefixFreeConcat(a: seq<Field>, b: seq<Field>)
    requires PrefixFree(a) && PrefixFree(b)
    requires forall i, j :: 0 <= i < |a| && 0 <= j < |b| ==> !(a[i].path <= b[j].path) && !(b[j].path <= a[i].path)
    ensures PrefixFree(a + b)
  {
  }

  lemma {:induction false} FlattenOneReady(f: Field, o: Tree)
    requires |f.path| == 1 && DeclaredBase(f.ty.base) && Ready(f, o)
    ensures AllReady(FlattenOne(f), o) && PrefixFree(FlattenOne(f))
    decreases f, 0
  {
    if IsEmbedded(f.ty) {
      var sub, s := Flatten(f.ty.base.fields), Get(o, f.path).value;
      FlattenReady(f.ty.base.fields, s);
      FlattenFlat(f.ty.base.fields);
      var r := FlattenOne(f);
      forall i | 0 <= i < |r| ensures Ready(r[i], o) {
        assert Ready(sub[i], s);
        GetConcat(o, f.path, sub[i].path);
      }
      forall i, j | 0 <= i < |r| && 0 <= j < |r| && i != j ensures !(r[i].path <= r[j].path) {
        assert r[i].path[1..] == sub[i].path && r[j].path[1..] == sub[j].path;
        assert !(sub[i].path <= sub[j].path);
      }
    }
  }

  /* ---- new objects ---- */

  lemma {:induction false} NewSlotsAt(fs: seq<Field>, i: nat)
    requires i < |fs| && OneComponent(fs) && DistinctPaths(fs)
    ensures fs[i].path[0] in NewSlots(fs) && NewSlots(fs)[fs[i].path[0]] == DefaultField(fs[i].ty)
  {
    if i > 0 {
      assert forall k :: 0 <= k < |fs[1..]| ==> fs[1..][k] == fs[k + 1];
      NewSlotsAt(fs[1..], i - 1);
      assert fs[0].path != fs[i].path;
      assert fs[0].path == [fs[0].path[0]] && fs[i].path == [fs[i].path[0]];
    }
  }

  /** A constructed object can be filled. */
  lemma {:induction false} NewObjectShaped(fs: seq<Field>)
    requires Declared(fs)
    ensures Shaped(fs, NewObject(fs))
    decreases fs
  {
    var o := NewObject(fs);
    forall i | 0 <= i < |fs| ensures Ready(fs[i], o) {
      NewSlotsAt(fs, i);
      assert fs[i].path == [fs[i].path[0]] && fs[i].path[1..] == [];
      if IsEmbedded(fs[i].ty) {
        assert DeclaredBase(fs[i].ty.base);
        NewObjectShaped(fs[i].ty.base.fields);
      }
    }
  }
}
