/**
 The serializer generator (generator.py): from a list of fields to straight-line and loop
 code. The functions say which code comes out; the class below produces it the way the
 original does, with a context stack, a variable counter and chunking loops.
 */
module Generator {
  import opened Common
  import opened StructPattern
  import opened WireTypes
  import opened PyTarget

  const MAX_CHUNK: nat := 255

  /** The code emitted and the number of `_v` variables used so far. */
  datatype Gen = Gen(code: seq<Stmt>, cnt: nat)

  /* ---- flatten ---- */

  function Prefixed(name: seq<string>, fs: seq<Field>): (r: seq<Field>)
    ensures |r| == |fs|
    ensures forall i :: 0 <= i < |fs| ==> r[i] == Field(name + fs[i].path, fs[i].ty)
  {
    seq(|fs|, i requires 0 <= i < |fs| => Field(name + fs[i].path, fs[i].ty))
  }

  /** Embedded messages become dotted fields; arrays of messages stay. */
  function Flatten(fs: seq<Field>): seq<Field>
    decreases fs, 0
  {
    if fs == [] then []
    else FlattenOne(fs[0]) + Flatten(fs[1..])
  }

  function FlattenOne(f: Field): seq<Field>
    decreases f, 0
  {
    if IsEmbedded(f.ty) then Prefixed(f.path, Flatten(f.ty.base.fields)) else [f]
  }

  /* ---- simple fields ---- */

  predicate AllSimple(fs: seq<Field>) {
    forall i :: 0 <= i < |fs| ==> IsSimple(fs[i].ty)
  }

  /** How many simple fields a list starts with. */
  function SimpleRun(fs: seq<Field>): (k: nat)
    ensures k <= |fs| && AllSimple(fs[..k])
    ensures k < |fs| ==> !IsSimple(fs[k].ty)
  {
    if fs == [] || !IsSimple(fs[0].ty) then 0
    else
      var k := 1 + SimpleRun(fs[1..]);
      assert forall i :: 1 <= i < k ==> fs[i] == fs[1..][..k - 1][i - 1];
      k
  }

  /** compute_struct_pattern */
  function PatternOf(fs: seq<Field>): (p: string)
    requires AllSimple(fs)
    ensures |p| == |fs| && AllCodes(p) && forall i :: 0 <= i < |fs| ==> p[i] == Code(fs[i].ty.base.p)
  {
    seq(|fs|, i requires 0 <= i < |fs| => Code(fs[i].ty.base.p))
  }

  function Refs(v: Var, fs: seq<Field>): (r: seq<Ref>)
    ensures |r| == |fs| && forall i :: 0 <= i < |fs| ==> r[i] == Ref(v, fs[i].path)
  {
    seq(|fs|, i requires 0 <= i < |fs| => Ref(v, fs[i].path))
  }

  function PlainArgs(rs: seq<Ref>): (a: seq<Arg>)
    ensures |a| == |rs| && forall i :: 0 <= i < |rs| ==> a[i] == Plain(rs[i])
  {
    seq(|rs|, i requires 0 <= i < |rs| => Plain(rs[i]))
  }

  function SizeOf(fs: seq<Field>): nat
    requires AllSimple(fs)
  {
    if fs == [] then 0 else CodeSize(Code(fs[0].ty.base.p)) + SizeOf(fs[1..])
  }

  /** `f = bool(f)` for the bool fields. */
  function BoolFixes(c: Var, fs: seq<Field>): seq<Stmt>
    requires AllSimple(fs)
  {
    if fs == [] then []
    else (if fs[0].ty.base.p == Bool then [ToBool(Ref(c, fs[0].path))] else []) + BoolFixes(c, fs[1..])
  }

  /** simple_serializer_generator: one `struct` call for a batch of fields. */
  function Chunk(ser: bool, c: Var, fs: seq<Field>): seq<Stmt>
    requires AllSimple(fs)
  {
    var v := if |fs| > 1 then X else c;
    var alias := if |fs| > 1 then [Alias(X, Ref(c, []))] else [];
    var fmt := Lit(Reduce(PatternOf(fs)));
    if ser then alias + [Write(fmt, PlainArgs(Refs(v, fs)))]
    else alias + [Advance(Const(SizeOf(fs))), UnpackTuple(Refs(v, fs), fmt)] + BoolFixes(c, fs)
  }

  /** A run of simple fields in batches of at most MAX_CHUNK. */
  function Chunks(ser: bool, c: Var, fs: seq<Field>): seq<Stmt>
    requires AllSimple(fs)
  {
    if |fs| == 0 then []
    else if |fs| <= MAX_CHUNK then Chunk(ser, c, fs)
    else Chunk(ser, c, fs[..MAX_CHUNK]) + Chunks(ser, c, fs[MAX_CHUNK..])
  }

  /* ---- strings and byte arrays ---- */

  /** string_serializer_generator on the expression r. */
  function StringCode(ser: bool, r: Ref, ty: FieldType): seq<Stmt> {
    if ser then
      if ty.One? then [SetLength(r), Write(WithLength("I", "s"), [LengthArg, Plain(r)])]
      else if ty.Varying? then
        [SetLength(r),
         IfList(r, [Write(WithLength("I", "B"), [LengthArg, Star(r)])],
                   [Write(WithLength("I", "s"), [LengthArg, Plain(r)])])]
      else
        [IfList(r, [Write(Lit(Reduce(Counted(ty.len, 'B'))), [Star(r)])],
                   [Write(Lit(Reduce(Counted(ty.len, 's'))), [Plain(r)])])]
    else if ty.Fixed? then [Advance(Const(ty.len)), TakeBytes(r)]
    else LengthCode(false, r) + [Advance(LengthVar), TakeBytes(r)]
  }

  function StringField(ser: bool, r: Ref, ty: FieldType): seq<Stmt> {
    if ser then [Alias(X, r)] + StringCode(true, Ref(X, []), ty) else StringCode(false, r, ty)
  }

  /** len_serializer_generator */
  function LengthCode(ser: bool, r: Ref): seq<Stmt> {
    if ser then [SetLength(r), Write(Lit("I"), [LengthArg])]
    else [Advance(Const(4)), UnpackLength]
  }

  /* ---- arrays and embedded messages ---- */

  /** An array of simple values, after its length. */
  function SimpleArrayCode(ser: bool, r: Ref, ty: FieldType): seq<Stmt>
    requires !ty.One? && ty.base.Prim?
  {
    var code := Code(ty.base.p);
    if ser then
      if ty.Varying? then [SetPattern(code), Write(FromPattern, [Star(r)])]
      else [Write(Lit(Reduce(Counted(ty.len, code))), [Star(r)])]
    else
      (if ty.Varying? then [SetPattern(code), Advance(PatternSize), UnpackList(r, FromPattern)]
       else [Advance(Const(ty.len * CodeSize(code))), UnpackList(r, Lit(Reduce(Counted(ty.len, code))))])
      + (if ty.base.p == Bool then [MapBool(r)] else [])
  }

  /** The loop around the code of one element. */
  function LoopCode(ser: bool, r: Ref, ty: FieldType, v: Var, element: seq<Stmt>): seq<Stmt>
    requires !ty.One?
  {
    if ser then [ForEach(v, r, element)]
    else
      var make := if ty.base.Msg? then [Construct(v, ty.base.fields)] else [];
      [EmptyList(r),
       ForRange(if ty.Varying? then LengthVar else Const(ty.len), make + element + [Append(r, v)])]
  }

  /** complex_serializer_generator and array_serializer_generator. */
  function GenComplex(ser: bool, c: Var, f: Field, depth: nat, cnt: nat): Gen
    requires !IsSimple(f.ty)
    decreases f, 0
  {
    var r := Ref(c, f.path);
    var ty := f.ty;
    if ty.One? then
      if ty.base.Str? then Gen(StringField(ser, r, ty), cnt)
      else
        var v := Sub(cnt + 1);
        var g := GenBody(ser, v, ty.base.fields, depth + 1, cnt + 1);
        Gen([Alias(v, r)] + g.code, g.cnt)
    else if IsByteArray(ty) then Gen(StringField(ser, r, ty), cnt)
    else
      var len := if ty.Varying? then LengthCode(ser, r) else [];
      if ty.base.Prim? then Gen(len + SimpleArrayCode(ser, r, ty), cnt)
      else
        var v := Loop(depth);
        var g := if ty.base.Str? then Gen(StringCode(ser, Ref(v, []), One(Str)), cnt)
                 else GenBody(ser, v, ty.base.fields, depth + 1, cnt);
        Gen(len + LoopCode(ser, r, ty, v, g.code), g.cnt)
  }

  /** serializer_generator: runs of simple fields in chunks, other fields one by one. */
  function GenFields(ser: bool, c: Var, fs: seq<Field>, depth: nat, cnt: nat): Gen
    decreases fs, 0
  {
    var k := SimpleRun(fs);
    if k == |fs| then
      assert fs[..k] == fs;
      Gen(Chunks(ser, c, fs), cnt)
    else
      var g := GenComplex(ser, c, fs[k], depth, cnt);
      var h := GenFields(ser, c, fs[k + 1..], depth, g.cnt);
      Gen(Chunks(ser, c, fs[..k]) + g.code + h.code, h.cnt)
  }

  function GenBody(ser: bool, c: Var, fs: seq<Field>, depth: nat, cnt: nat): Gen
    decreases fs, 1
  {
    if ser && fs == [] then Gen([Pass], cnt) else GenFields(ser, c, fs, depth, cnt)
  }

  /* ---- whole methods ---- */

  /** The body of `serialize`. */
  function SerializeCode(fs: seq<Field>, cnt: nat): seq<Stmt> {
    GenBody(true, Self, Flatten(fs), 1, cnt).code
  }

  function EnsureObjects(fs: seq<Field>): seq<Stmt> {
    if fs == [] then []
    else (if IsEmbedded(fs[0].ty) then [EnsureObject(Ref(Self, fs[0].path), fs[0].ty.base.fields)] else [])
         + EnsureObjects(fs[1..])
  }

  predicate IsClock(ty: FieldType) {
    IsEmbedded(ty) && ty.base.kind != Regular
  }

  /** Post-deserialization code: `canon()` on the top-level time and duration fields. */
  function CanonCalls(fs: seq<Field>): seq<Stmt> {
    if fs == [] then []
    else (if IsClock(fs[0].ty) then [Canon(Ref(Self, fs[0].path))] else []) + CanonCalls(fs[1..])
  }

  /** The body of `deserialize`. */
  function DeserializeCode(fs: seq<Field>, cnt: nat): seq<Stmt> {
    EnsureObjects(fs) + [StartOver] + GenBody(false, Self, Flatten(fs), 1, cnt).code + CanonCalls(fs)
  }

  /* ---- the generator as it runs ---- */

  /** The module's globals `_serial_context`, `_context_stack` and `_counter`. */
  class SerializerGenerator {
    var serialContext: Option<Var>
    var contextStack: seq<Option<Var>>
    var counter: nat

    constructor ()
      ensures serialContext == None && contextStack == [] && counter == 0
    {
      serialContext, contextStack, counter := None, [], 0;
    }

    method PushContext(context: Option<Var>)
      modifies this`serialContext, this`contextStack
      ensures serialContext == context && contextStack == old(contextStack) + [old(serialContext)]
    {
      contextStack := contextStack + [serialContext];
      serialContext := context;
    }

    method PopContext()
      requires contextStack != []
      modifies this`serialContext, this`contextStack
      ensures serialContext == old(contextStack)[|old(contextStack)| - 1]
      ensures contextStack == old(contextStack)[..|old(contextStack)| - 1]
    {
      serialContext := contextStack[|contextStack| - 1];
      contextStack := contextStack[..|contextStack| - 1];
    }

    method NextVar() returns (v: Var)
      modifies this`counter
      ensures counter == old(counter) + 1 && v == Sub(counter)
    {
      counter := counter + 1;
      v := Sub(counter);
    }

    /** The inner `range(lo, hi, _max_chunk)` loop. */
    method ChunkRun(fs: seq<Field>, lo: nat, hi: nat, ser: bool) returns (code: seq<Stmt>)
      requires serialContext.Some? && lo <= hi <= |fs| && AllSimple(fs[lo..hi])
      ensures AllSimple(fs[lo..hi]) && code == Chunks(ser, serialContext.value, fs[lo..hi])
    {
      code := [];
      var start := lo;
      while start < hi
        invariant lo <= start <= hi
        invariant AllSimple(fs[start..hi])
        invariant code + Chunks(ser, serialContext.value, fs[start..hi])
               == Chunks(ser, serialContext.value, fs[lo..hi])
      {
        var end := if start + MAX_CHUNK < hi then start + MAX_CHUNK else hi;
        ChunksStep(ser, serialContext.value, fs, start, end, hi);
        var chunk := Chunk(ser, serialContext.value, fs[start..end]);
        ConcatAssociates(code, chunk, Chunks(ser, serialContext.value, fs[end..hi]));
        code := code + chunk;
        start := end;
      }
      assert fs[hi..hi] == [];
    }

    /** The array branch: loop variable from the stack depth, element code under a pushed context. */
    method ArrayElement(ty: FieldType, ser: bool) returns (v: Var, code: seq<Stmt>)
      requires !ty.One? && !ty.base.Prim?
      modifies this
      ensures serialContext == old(serialContext) && contextStack == old(contextStack)
      ensures v == Loop(|contextStack|)
      ensures var g := if ty.base.Str? then Gen(StringCode(ser, Ref(v, []), One(Str)), old(counter))
                       else GenBody(ser, v, ty.base.fields, |contextStack| + 1, old(counter));
              code == g.code && counter == g.cnt
      decreases ty, 0
    {
      v := Loop(|contextStack|);
      if ty.base.Str? {
        PushContext(None);
        code := StringCode(ser, Ref(v, []), One(Str));
      } else {
        PushContext(Some(v));
        code := Serializer(ty.base.fields, ser);
      }
      PopContext();
    }

    method Complex(f: Field, ser: bool) returns (code: seq<Stmt>)
      requires serialContext.Some? && !IsSimple(f.ty)
      modifies this
      ensures serialContext == old(serialContext) && contextStack == old(contextStack)
      ensures var g := GenComplex(ser, serialContext.value, f, |contextStack|, old(counter));
              code == g.code && counter == g.cnt
      decreases f, 0
    {
      var r := Ref(serialContext.value, f.path);
      var ty := f.ty;
      if ty.One? {
        if ty.base.Str? {
          code := StringField(ser, r, ty);
        } else {
          var v := NextVar();
          PushContext(Some(v));
          var inner := Serializer(ty.base.fields, ser);
          code := [Alias(v, r)] + inner;
          PopContext();
        }
      } else if IsByteArray(ty) {
        code := StringField(ser, r, ty);
      } else {
        var len := if ty.Varying? then LengthCode(ser, r) else [];
        if ty.base.Prim? {
          code := len + SimpleArrayCode(ser, r, ty);
        } else {
          var v, element := ArrayElement(ty, ser);
          code := len + LoopCode(ser, r, ty, v, element);
        }
      }
    }

    method Serializer(fs: seq<Field>, ser: bool) returns (code: seq<Stmt>)
      requires serialContext.Some?
      modifies this
      ensures serialContext == old(serialContext) && contextStack == old(contextStack)
      ensures var g := GenBody(ser, serialContext.value, fs, |contextStack|, old(counter));
              code == g.code && counter == g.cnt
      decreases fs, 2
    {
      if ser && fs == [] {
        code := [Pass];
      } else {
        code := Fields(fs, ser);
      }
    }

    /** The main loop: `curr` is the first field not yet emitted. */
    method Fields(fs: seq<Field>, ser: bool) returns (code: seq<Stmt>)
      requires serialContext.Some?
      modifies this
      ensures serialContext == old(serialContext) && contextStack == old(contextStack)
      ensures Gen(code, counter) == GenFields(ser, serialContext.value, fs, |contextStack|, old(counter))
      decreases fs, 1
    {
      hide GenFields, GenComplex, Chunk;
      code := [];
      var curr := 0;
      var i := 0;
      ghost var c, d := serialContext.value, |contextStack|;
      ghost var whole := GenFields(ser, c, fs, d, counter);
      assert fs[0..] == fs;
      while i < |fs|
        invariant 0 <= curr <= i <= |fs|
        invariant serialContext == old(serialContext) && contextStack == old(contextStack)
        invariant AllSimple(fs[curr..i])
        invariant Emitted(ser, c, fs, curr, d, code, counter, whole)
      {
        if !IsSimple(fs[i].ty) {
          EmittedStep(ser, c, fs, curr, i, d, code, counter, whole);
          var piece := Flush(fs, curr, i, ser);
          code := code + piece;
          curr := i + 1;
          assert fs[curr..i + 1] == [];
        } else {
          AllSimpleExtend(fs, curr, i);
        }
        i := i + 1;
      }
      GenFieldsLast(ser, c, fs, curr, d, counter);
      if curr < |fs| {
        var run := ChunkRun(fs, curr, |fs|, ser);
        code := code + run;
      }
    }

    /** The simple fields before field i, then field i. */
    method Flush(fs: seq<Field>, curr: nat, i: nat, ser: bool) returns (code: seq<Stmt>)
      requires serialContext.Some? && curr <= i < |fs| && AllSimple(fs[curr..i]) && !IsSimple(fs[i].ty)
      modifies this
      ensures serialContext == old(serialContext) && contextStack == old(contextStack)
      ensures var g := GenComplex(ser, serialContext.value, fs[i], |contextStack|, old(counter));
              code == Chunks(ser, serialContext.value, fs[curr..i]) + g.code && counter == g.cnt
      decreases fs, 0
    {
      code := [];
      if i != curr {
        code := ChunkRun(fs, curr, i, ser);
      }
      var piece := Complex(fs[i], ser);
      code := code + piece;
    }

    /** `serialize_fn_generator`: the counter is never reset, so it starts anywhere. */
    method SerializeFn(fs: seq<Field>) returns (code: seq<Stmt>)
      requires contextStack == []
      modifies this
      ensures code == SerializeCode(fs, old(counter))
      ensures serialContext == old(serialContext) && contextStack == []
    {
      PushContext(Some(Self));
      code := Serializer(Flatten(fs), true);
      PopContext();
    }

    method DeserializeFn(fs: seq<Field>) returns (code: seq<Stmt>)
      requires contextStack == []
      modifies this
      ensures code == DeserializeCode(fs, old(counter))
      ensures serialContext == old(serialContext) && contextStack == []
    {
      PushContext(Some(Self));
      var body := Serializer(Flatten(fs), false);
      code := EnsureObjects(fs) + [StartOver] + body + CanonCalls(fs);
      PopContext();
    }
  }

  lemma ConcatAssociates<T>(a: seq<T>, b: seq<T>, c: seq<T>)
    ensures a + (b + c) == a + b + c
  {
  }

  lemma AllSimpleExtend(fs: seq<Field>, lo: nat, i: nat)
    requires lo <= i < |fs| && AllSimple(fs[lo..i]) && IsSimple(fs[i].ty)
    ensures AllSimple(fs[lo..i + 1])
  {
    assert fs[lo..i + 1] == fs[lo..i] + [fs[i]];
  }

  lemma AllSimpleSplit(fs: seq<Field>, k: nat)
    requires k <= |fs| && AllSimple(fs)
    ensures AllSimple(fs[..k]) && AllSimple(fs[k..])
  {
  }

  /** One pass of the chunk loop. */
  lemma ChunksStep(ser: bool, c: Var, fs: seq<Field>, start: nat, end: nat, hi: nat)
    requires start < hi <= |fs| && AllSimple(fs[start..hi])
    requires end == if start + MAX_CHUNK < hi then start + MAX_CHUNK else hi
    ensures AllSimple(fs[start..end]) && AllSimple(fs[end..hi])
    ensures Chunks(ser, c, fs[start..hi]) == Chunk(ser, c, fs[start..end]) + Chunks(ser, c, fs[end..hi])
  {
    var rest := fs[start..hi];
    AllSimpleSplit(rest, end - start);
    assert rest[..end - start] == fs[start..end] && rest[end - start..] == fs[end..hi];
    if end == hi {
      assert fs[end..hi] == [];
      assert Chunk(ser, c, rest) + [] == Chunk(ser, c, rest);
    }
  }

  /** The code for the fields from `curr` on, when field i is the next one that is not simple. */
  lemma GenFieldsStep(ser: bool, c: Var, fs: seq<Field>, curr: nat, i: nat, depth: nat, cnt: nat)
    requires curr <= i < |fs| && AllSimple(fs[curr..i]) && !IsSimple(fs[i].ty)
    ensures var g := GenComplex(ser, c, fs[i], depth, cnt);
            var h := GenFields(ser, c, fs[i + 1..], depth, g.cnt);
            GenFields(ser, c, fs[curr..], depth, cnt)
            == Gen(Chunks(ser, c, fs[curr..i]) + g.code + h.code, h.cnt)
  {
    var rest := fs[curr..];
    assert rest[..i - curr] == fs[curr..i] && rest[i - curr] == fs[i] && rest[i - curr + 1..] == fs[i + 1..];
    SimpleRunIs(rest, i - curr);
  }

  /** What the loop has emitted, followed by the code for the fields from `curr` on, is the whole. */
  ghost predicate Emitted(ser: bool, c: Var, fs: seq<Field>, curr: nat, depth: nat,
                          code: seq<Stmt>, cnt: nat, whole: Gen)
    requires curr <= |fs|
  {
    var rest := GenFields(ser, c, fs[curr..], depth, cnt);
    code + rest.code == whole.code && rest.cnt == whole.cnt
  }

  lemma EmittedStep(ser: bool, c: Var, fs: seq<Field>, curr: nat, i: nat, depth: nat,
                    code: seq<Stmt>, cnt: nat, whole: Gen)
    requires curr <= i < |fs| && AllSimple(fs[curr..i]) && !IsSimple(fs[i].ty)
    requires Emitted(ser, c, fs, curr, depth, code, cnt, whole)
    ensures var g := GenComplex(ser, c, fs[i], depth, cnt);
            Emitted(ser, c, fs, i + 1, depth, code + (Chunks(ser, c, fs[curr..i]) + g.code), g.cnt, whole)
  {
    GenFieldsStep(ser, c, fs, curr, i, depth, cnt);
    var g := GenComplex(ser, c, fs[i], depth, cnt);
    var h := GenFields(ser, c, fs[i + 1..], depth, g.cnt);
    ConcatAssociates(code, Chunks(ser, c, fs[curr..i]) + g.code, h.code);
  }

  lemma GenFieldsLast(ser: bool, c: Var, fs: seq<Field>, curr: nat, depth: nat, cnt: nat)
    requires curr <= |fs| && AllSimple(fs[curr..|fs|])
    ensures GenFields(ser, c, fs[curr..], depth, cnt) == Gen(Chunks(ser, c, fs[curr..|fs|]), cnt)
  {
    var rest := fs[curr..];
    assert rest == fs[curr..|fs|] == rest[..|rest|];
    SimpleRunIs(rest, |rest|);
  }

  lemma {:induction false} SimpleRunIs(fs: seq<Field>, k: nat)
    requires k <= |fs| && AllSimple(fs[..k]) && (k < |fs| ==> !IsSimple(fs[k].ty))
    ensures SimpleRun(fs) == k
  {
    if k > 0 {
      assert fs[..k][0] == fs[0];
      AllSimpleSplit(fs[..k], 1);
      assert fs[..k][1..] == fs[1..][..k - 1];
      SimpleRunIs(fs[1..], k - 1);
    }
  }
}
