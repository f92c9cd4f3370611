/**
 The fragment of Python that the generator emits, and its meaning.

 Message objects live in the variable that owns them. Other variables refer to them by
 owner and attribute path, the way an alias such as `_x = self.header` does. The store is
 stricter than Python: an alias disappears as soon as the object it stands for is replaced,
 moved into a list or may have changed underneath a snapshot, and using a vanished alias is
 an error. A run that does not fail therefore does what Python's references do.
 */
module PyTarget {
  import opened Common
  import opened DecimalText
  import opened StructPattern
  import opened WireTypes

  /** self, _x, start, end, length, i, pattern, val<k>, _v<n> */
  datatype Var = Self | X | Start | End | Length | I | Pattern | Loop(k: nat) | Sub(n: nat)

  /** A dotted expression such as `self.header.seq`. */
  datatype Ref = Ref(v: Var, path: seq<string>)

  /** A format: literal, `'..%s..'%length`, or the variable `pattern`. */
  datatype Fmt = Lit(s: string) | WithLength(before: string, after: string) | FromPattern

  datatype Count = Const(n: nat) | LengthVar | PatternSize

  /** An argument of a pack call: `x`, `*x` or `length`. */
  datatype Arg = Plain(r: Ref) | Star(r: Ref) | LengthArg

  datatype Stmt =
    | Pass
    | Alias(v: Var, r: Ref)                              // v = r
    | SetLength(r: Ref)                                  // length = len(r)
    | SetPattern(code: char)                             // pattern = '<%s<code>'%length
    | Write(fmt: Fmt, args: seq<Arg>)                    // buff.write(struct.pack(fmt, args))
    | IfList(r: Ref, thn: seq<Stmt>, els: seq<Stmt>)     // if type(r) in [list, tuple]: thn else: els
    | ForEach(v: Var, r: Ref, body: seq<Stmt>)           // for v in r: body
    | StartOver                                          // end = 0
    | Advance(c: Count)                                  // start = end; end += c
    | UnpackLength                                       // (length,) = _struct_I.unpack(str[start:end])
    | UnpackTuple(targets: seq<Ref>, fmt: Fmt)           // (targets,) = struct.unpack(fmt, str[start:end])
    | UnpackList(target: Ref, fmt: Fmt)                  // target = struct.unpack(fmt, str[start:end])
    | TakeBytes(target: Ref)                             // target = str[start:end]
    | ToBool(target: Ref)                                // target = bool(target)
    | MapBool(target: Ref)                               // target = map(bool, target)
    | EmptyList(target: Ref)                             // target = []
    | ForRange(c: Count, body: seq<Stmt>)                // for i in range(0, c): body
    | Construct(v: Var, fields: seq<Field>)              // v = <message class>()
    | EnsureObject(target: Ref, fields: seq<Field>)      // if target is None: target = <message class>()
    | Append(target: Ref, v: Var)                        // target.append(v)
    | Canon(target: Ref)                                 // target.canon()

  datatype Slot =
    | Int(n: int)
    | Text(s: string)
    | Own(t: Tree)                              // owner of a message object
    | Ptr(root: Var, path: seq<string>)         // alias into an owner
    | Val(t: Tree)                              // immutable value, or read-only snapshot

  type Store = map<Var, Slot>

  /** Local variables, the output buffer and the input string `str`. */
  datatype State = State(vars: Store, buff: seq<Byte>, input: seq<Byte>)

  /* ---- variables ---- */

  function Value(vars: Store, v: Var): Option<Tree> {
    if v !in vars then None
    else match vars[v]
      case Own(t) => Some(t)
      case Val(t) => Some(t)
      case Ptr(r, p) => if r in vars && vars[r].Own? then Get(vars[r].t, p) else None
      case _ => None
  }

  function Eval(vars: Store, r: Ref): Option<Tree> {
    var t := Value(vars, r.v);
    if t.None? then None else Get(t.value, r.path)
  }

  function IntOf(vars: Store, v: Var): Option<nat> {
    if v in vars && vars[v].Int? && vars[v].n >= 0 then Some(vars[v].n) else None
  }

  /** Where an expression lives: its owner and the path from there. */
  function Place(vars: Store, r: Ref): Option<(Var, seq<string>)> {
    if r.v !in vars then None
    else match vars[r.v]
      case Own(_) => Some((r.v, r.path))
      case Ptr(root, p) => Some((root, p + r.path))
      case _ => None
  }

  /** Rebinding v ends every alias into the object v owned. */
  function Bind(vars: Store, v: Var, s: Slot): Store {
    (map w | w in vars && !(vars[w].Ptr? && vars[w].root == v) :: vars[w])[v := s]
  }

  /** What an assignment at `path` of `root` leaves of a slot. */
  predicate Survives(s: Slot, root: Var, path: seq<string>) {
    && !(s.Ptr? && s.root == root && path <= s.path)
    && !(s.Val? && Mutable(s.t))
  }

  function StoreAt(vars: Store, root: Var, path: seq<string>, t: Tree): Option<Store> {
    if root in vars && vars[root].Own? && Get(vars[root].t, path).Some? then
      Some((map w | w in vars && Survives(vars[w], root, path) :: vars[w])
           [root := Own(Put(vars[root].t, path, t))])
    else None
  }

  function Assign(vars: Store, r: Ref, t: Tree): Option<Store> {
    if r.path == [] then
      if Mutable(t) then None else Some(Bind(vars, r.v, Val(t)))
    else
      var p := Place(vars, r);
      if p.None? then None else StoreAt(vars, p.value.0, p.value.1, t)
  }

  function AssignAll(vars: Store, rs: seq<Ref>, ts: seq<Tree>): Option<Store>
    requires |rs| == |ts|
    decreases rs
  {
    if rs == [] then Some(vars)
    else
      var vars' := Assign(vars, rs[0], ts[0]);
      if vars'.None? then None else AssignAll(vars'.value, rs[1..], ts[1..])
  }

  /** Binding a name to an expression: an alias for objects, a copy for immutable values. */
  function BindTo(vars: Store, v: Var, r: Ref): Option<Store> {
    var t := Eval(vars, r);
    if t.None? then None
    else if !Mutable(t.value) then Some(Bind(vars, v, Val(t.value)))
    else
      var p := Place(vars, r);
      Some(Bind(vars, v, if p.Some? then Ptr(p.value.0, p.value.1) else Val(t.value)))
  }

  /* ---- struct.pack and struct.unpack ---- */

  function FormatOf(vars: Store, f: Fmt): Option<string> {
    match f
    case Lit(s) => Some(s)
    case WithLength(before, after) =>
      var n := IntOf(vars, Length);
      if n.None? then None else Some(before + Decimal(n.value) + after)
    case FromPattern =>
      if Pattern in vars && vars[Pattern].Text? then Some(vars[Pattern].s) else None
  }

  /** A byte string cut or zero-filled to n bytes, as the 's' code does. */
  function Padded(bs: seq<Byte>, n: nat): (r: seq<Byte>)
    ensures |r| == n && forall i :: 0 <= i < n ==> r[i] == if i < |bs| then bs[i] else 0
  {
    if |bs| >= n then bs[..n] else bs + Repeat(0, n - |bs|)
  }

  /** n numbers under one code. */
  function PackNumbers(c: char, ts: seq<Tree>): Option<seq<Byte>> {
    if ts == [] then Some([])
    else if !ts[0].Num? || !Fits(c, ts[0].n) then None
    else
      var rest := PackNumbers(c, ts[1..]);
      if rest.None? then None else Some(PackCode(c, ts[0].n) + rest.value)
  }

  function Pack(tokens: seq<Token>, args: seq<Tree>): Option<seq<Byte>> {
    if tokens == [] then (if args == [] then Some([]) else None)
    else
      var k := if tokens[0].code == 's' then 1 else tokens[0].count;
      if |args| < k then None
      else
        var first :=
          if tokens[0].code != 's' then PackNumbers(tokens[0].code, args[..k])
          else if args[0].Bytes? then Some(Padded(args[0].bs, tokens[0].count))
          else None;
        var rest := Pack(tokens[1..], args[k..]);
        if first.None? || rest.None? then None else Some(first.value + rest.value)
  }

  function CalcSize(tokens: seq<Token>): nat {
    if tokens == [] then 0 else tokens[0].count * CodeSize(tokens[0].code) + CalcSize(tokens[1..])
  }

  function UnpackNumbers(c: char, n: nat, bs: seq<Byte>): seq<Tree> {
    if n == 0 || |bs| < CodeSize(c) then []
    else [Num(UnpackCode(c, bs[..CodeSize(c)]))] + UnpackNumbers(c, n - 1, bs[CodeSize(c)..])
  }

  function Unpack(tokens: seq<Token>, bs: seq<Byte>): seq<Tree>
    requires |bs| == CalcSize(tokens)
  {
    if tokens == [] then []
    else
      var k := tokens[0].count * CodeSize(tokens[0].code);
      (if tokens[0].code == 's' then [Bytes(bs[..k])] else UnpackNumbers(tokens[0].code, tokens[0].count, bs[..k]))
      + Unpack(tokens[1..], bs[k..])
  }

  function ArgValues(vars: Store, a: Arg): Option<seq<Tree>> {
    match a
    case Plain(r) => var t := Eval(vars, r); if t.None? then None else Some([t.value])
    case Star(r) => var t := Eval(vars, r); if t.Some? && t.value.List? then Some(t.value.es) else None
    case LengthArg => var n := IntOf(vars, Length); if n.None? then None else Some([Num(n.value)])
  }

  function ArgsValues(vars: Store, args: seq<Arg>): Option<seq<Tree>> {
    if args == [] then Some([])
    else
      var a := ArgValues(vars, args[0]);
      var rest := ArgsValues(vars, args[1..]);
      if a.None? || rest.None? then None else Some(a.value + rest.value)
  }

  function PackCall(vars: Store, fmt: Fmt, args: seq<Arg>): Option<seq<Byte>> {
    var f := FormatOf(vars, fmt);
    var ts := if f.None? then None else Tokens(f.value);
    var vs := ArgsValues(vars, args);
    if ts.None? || vs.None? then None else Pack(ts.value, vs.value)
  }

  /** `str[start:end]`; a Python slice never fails, it is cut at the end of the string. */
  function Slice(st: State): Option<seq<Byte>> {
    var s, e := IntOf(st.vars, Start), IntOf(st.vars, End);
    if s.None? || e.None? then None
    else
      var hi := if e.value < |st.input| then e.value else |st.input|;
      Some(if s.value <= hi then st.input[s.value..hi] else [])
  }

  function UnpackCall(st: State, fmt: Fmt): Option<seq<Tree>> {
    var f := FormatOf(st.vars, fmt);
    var ts := if f.None? then None else Tokens(f.value);
    var bs := Slice(st);
    if ts.None? || bs.None? || |bs.value| != CalcSize(ts.value) then None
    else Some(Unpack(ts.value, bs.value))
  }

  function CountOf(vars: Store, c: Count): Option<nat> {
    match c
    case Const(n) => Some(n)
    case LengthVar => IntOf(vars, Length)
    case PatternSize =>
      var f := FormatOf(vars, FromPattern);
      var ts := if f.None? then None else Tokens(f.value);
      if ts.None? then None else Some(CalcSize(ts.value))
  }

  /* ---- objects ---- */

  /** Default attribute values of a new message object (default_value). */
  function DefaultBase(b: Base): Tree
    decreases b
  {
    match b
    case Prim(_) => Num(0)
    case Str => Bytes([])
    case Msg(_, fields) => NewObject(fields)
  }

  function DefaultField(ty: FieldType): Tree
    decreases ty
  {
    match ty
    case One(b) => DefaultBase(b)
    case Varying(_) => if IsByteArray(ty) then Bytes([]) else List([])
    case Fixed(b, n) => if IsByteArray(ty) then Bytes(Repeat(0, n)) else List(Repeat(DefaultBase(b), n))
  }

  function NewSlots(fields: seq<Field>): (m: map<string, Tree>)
    ensures m.Keys == SlotNames(fields)
    decreases fields, 0
  {
    if fields == [] then map[]
    else if fields[0].path == [] then NewSlots(fields[1..])
    else NewSlots(fields[1..])[fields[0].path[0] := DefaultField(fields[0].ty)]
  }

  function NewObject(fields: seq<Field>): Tree
    decreases fields, 1
  {
    Obj(NewSlots(fields))
  }

  function Truth(t: Tree): Tree {
    if t.Num? && t.n != 0 then Num(1) else Num(0)
  }

  const BILLION := 1000000000

  /** rostime's _canon; Python's // floors, as Dafny's / does for a positive divisor. */
  function CanonTime(t: Tree): Option<Tree> {
    if t.Obj? && "secs" in t.fs && "nsecs" in t.fs && t.fs["secs"].Num? && t.fs["nsecs"].Num? then
      var over := t.fs["nsecs"].n / BILLION;
      Some(Obj(t.fs["secs" := Num(t.fs["secs"].n + over)]["nsecs" := Num(t.fs["nsecs"].n - over * BILLION)]))
    else None
  }

  /* ---- statements ---- */

  function WithVars(st: State, vars: Option<Store>): Option<State> {
    if vars.None? then None else Some(st.(vars := vars.value))
  }

  /** The store after the object owned by v has moved elsewhere. */
  function MovedFrom(vars: Store, v: Var): Store {
    map w | w in vars && w != v && !(vars[w].Ptr? && vars[w].root == v) :: vars[w]
  }

  function AppendTo(vars: Store, target: Ref, v: Var): Option<Store> {
    var list := Eval(vars, target);
    if list.None? || !list.value.List? || v !in vars then None
    else match vars[v]
      case Val(t) => if Mutable(t) then None else Assign(vars, target, List(list.value.es + [t]))
      case Own(t) =>
        if target.path == [] then None else Assign(MovedFrom(vars, v), target, List(list.value.es + [t]))
      case _ => None
  }

  function ExecStmt(s: Stmt, st: State): Option<State>
    decreases s, 2, 0
  {
    match s
    case Pass => Some(st)
    case Alias(v, r) => WithVars(st, BindTo(st.vars, v, r))
    case SetLength(r) =>
      var t := Eval(st.vars, r);
      if t.Some? && t.value.List? then Some(st.(vars := Bind(st.vars, Length, Int(|t.value.es|))))
      else if t.Some? && t.value.Bytes? then Some(st.(vars := Bind(st.vars, Length, Int(|t.value.bs|))))
      else None
    case SetPattern(c) =>
      var n := IntOf(st.vars, Length);
      if n.None? then None else Some(st.(vars := Bind(st.vars, Pattern, Text(Counted(n.value, c)))))
    case Write(fmt, args) =>
      var bs := PackCall(st.vars, fmt, args);
      if bs.None? then None else Some(st.(buff := st.buff + bs.value))
    case IfList(r, thn, els) =>
      var t := Eval(st.vars, r);
      if t.None? then None else if t.value.List? then Exec(thn, st) else Exec(els, st)
    case ForEach(v, r, body) =>
      var t := Eval(st.vars, r);
      if t.None? || !t.value.List? then None else RunEach(v, t.value.es, body, st)
    case StartOver => Some(st.(vars := Bind(st.vars, End, Int(0))))
    case Advance(c) =>
      var k, e := CountOf(st.vars, c), IntOf(st.vars, End);
      if k.None? || e.None? then None
      else Some(st.(vars := Bind(Bind(st.vars, Start, Int(e.value)), End, Int(e.value + k.value))))
    case UnpackLength =>
      var ts := UnpackCall(st, Lit("I"));
      if ts.None? || |ts.value| != 1 || !ts.value[0].Num? then None
      else Some(st.(vars := Bind(st.vars, Length, Int(ts.value[0].n))))
    case UnpackTuple(targets, fmt) =>
      var ts := UnpackCall(st, fmt);
      if ts.None? || |ts.value| != |targets| then None
      else WithVars(st, AssignAll(st.vars, targets, ts.value))
    case UnpackList(target, fmt) =>
      var ts := UnpackCall(st, fmt);
      if ts.None? then None else WithVars(st, Assign(st.vars, target, List(ts.value)))
    case TakeBytes(target) =>
      var bs := Slice(st);
      if bs.None? then None else WithVars(st, Assign(st.vars, target, Bytes(bs.value)))
    case ToBool(target) =>
      var t := Eval(st.vars, target);
      if t.None? then None else WithVars(st, Assign(st.vars, target, Truth(t.value)))
    case MapBool(target) =>
      var t := Eval(st.vars, target);
      if t.None? || !t.value.List? then None
      else WithVars(st, Assign(st.vars, target,
             List(seq(|t.value.es|, i requires 0 <= i < |t.value.es| => Truth(t.value.es[i])))))
    case EmptyList(target) => WithVars(st, Assign(st.vars, target, List([])))
    case ForRange(c, body) =>
      var n := CountOf(st.vars, c);
      if n.None? then None else RunRange(0, n.value, body, st)
    case Construct(v, fields) => Some(st.(vars := Bind(st.vars, v, Own(NewObject(fields)))))
    case EnsureObject(target, fields) =>
      var t := Eval(st.vars, target);
      if t.None? then None
      else if t.value.NoneVal? then WithVars(st, Assign(st.vars, target, NewObject(fields)))
      else Some(st)
    case Append(target, v) => WithVars(st, AppendTo(st.vars, target, v))
    case Canon(target) =>
      var t := Eval(st.vars, target);
      var c := if t.None? then None else CanonTime(t.value);
      if c.None? then None else WithVars(st, Assign(st.vars, target, c.value))
  }

  function Exec(code: seq<Stmt>, st: State): Option<State>
    decreases code, 0, 0
  {
    if code == [] then Some(st)
    else
      var st' := ExecStmt(code[0], st);
      if st'.None? then None else Exec(code[1..], st'.value)
  }

  /** `for v in es: body`; the element is a copy or a snapshot. */
  function RunEach(v: Var, es: seq<Tree>, body: seq<Stmt>, st: State): Option<State>
    decreases body, 1, |es|
  {
    if es == [] then Some(st)
    else
      var st' := Exec(body, st.(vars := Bind(st.vars, v, Val(es[0]))));
      if st'.None? then None else RunEach(v, es[1..], body, st'.value)
  }

  /** `for i in range(lo, hi): body`; the bounds are evaluated once. */
  function RunRange(lo: nat, hi: nat, body: seq<Stmt>, st: State): Option<State>
    decreases body, 1, hi - lo
  {
    if lo >= hi then Some(st)
    else
      var st' := Exec(body, st.(vars := Bind(st.vars, I, Int(lo))));
      if st'.None? then None else RunRange(lo + 1, hi, body, st'.value)
  }

  lemma {:induction false} ExecAppend(a: seq<Stmt>, b: seq<Stmt>, st: State)
    ensures Exec(a + b, st) == if Exec(a, st).None? then None else Exec(b, Exec(a, st).value)
  {
    if a == [] {
      assert a + b == b;
    } else {
      var st' := ExecStmt(a[0], st);
      assert (a + b)[1..] == a[1..] + b;
      if st'.Some? {
        ExecAppend(a[1..], b, st'.value);
      }
    }
  }

  /* ---- single statements ---- */

  lemma ExecOne(s: Stmt, st: State)
    ensures Exec([s], st) == ExecStmt(s, st)
  {
    assert [s][1..] == [];
  }

  lemma StepAlias(v: Var, r: Ref, st: State)
    ensures Exec([Alias(v, r)], st) == WithVars(st, BindTo(st.vars, v, r))
  {
    hide UnpackCall, Slice, Assign, AssignAll, Eval, BindTo, AppendTo, CountOf, RunRange;
    ExecOne(Alias(v, r), st);
  }

  lemma StepTakeBytes(target: Ref, st: State, bs: seq<Byte>)
    requires Slice(st) == Some(bs)
    ensures Exec([TakeBytes(target)], st) == WithVars(st, Assign(st.vars, target, Bytes(bs)))
  {
    hide UnpackCall, Slice, Assign, AssignAll, Eval, BindTo, AppendTo, CountOf, RunRange;
    ExecOne(TakeBytes(target), st);
  }

  lemma StepUnpackList(target: Ref, fmt: Fmt, st: State, ts: seq<Tree>)
    requires UnpackCall(st, fmt) == Some(ts)
    ensures Exec([UnpackList(target, fmt)], st) == WithVars(st, Assign(st.vars, target, List(ts)))
  {
    hide UnpackCall, Slice, Assign, AssignAll, Eval, BindTo, AppendTo, CountOf, RunRange;
    ExecOne(UnpackList(target, fmt), st);
  }

  lemma StepUnpackTuple(targets: seq<Ref>, fmt: Fmt, st: State, ts: seq<Tree>)
    requires UnpackCall(st, fmt) == Some(ts) && |ts| == |targets|
    ensures Exec([UnpackTuple(targets, fmt)], st) == WithVars(st, AssignAll(st.vars, targets, ts))
  {
    hide UnpackCall, Slice, Assign, AssignAll, Eval, BindTo, AppendTo, CountOf, RunRange;
    ExecOne(UnpackTuple(targets, fmt), st);
  }

  lemma StepToBool(target: Ref, st: State, t: Tree)
    requires Eval(st.vars, target) == Some(t)
    ensures Exec([ToBool(target)], st) == WithVars(st, Assign(st.vars, target, Truth(t)))
  {
    hide UnpackCall, Slice, Assign, AssignAll, Eval, BindTo, AppendTo, CountOf, RunRange;
    ExecOne(ToBool(target), st);
  }

  lemma StepMapBool(target: Ref, st: State, es: seq<Tree>)
    requires Eval(st.vars, target) == Some(List(es))
    ensures Exec([MapBool(target)], st)
         == WithVars(st, Assign(st.vars, target, List(seq(|es|, i requires 0 <= i < |es| => Truth(es[i])))))
  {
    hide UnpackCall, Slice, Assign, AssignAll, Eval, BindTo, AppendTo, CountOf, RunRange;
    ExecOne(MapBool(target), st);
  }

  lemma StepSetPattern(c: char, st: State, n: nat)
    requires IntOf(st.vars, Length) == Some(n)
    ensures Exec([SetPattern(c)], st) == Some(st.(vars := Bind(st.vars, Pattern, Text(Counted(n, c)))))
  {
    ExecOne(SetPattern(c), st);
  }

  lemma StepEmptyList(target: Ref, st: State)
    ensures Exec([EmptyList(target)], st) == WithVars(st, Assign(st.vars, target, List([])))
  {
    hide UnpackCall, Slice, Assign, AssignAll, Eval, BindTo, AppendTo, CountOf, RunRange;
    ExecOne(EmptyList(target), st);
  }

  lemma StepForRange(c: Count, body: seq<Stmt>, st: State, n: nat)
    requires CountOf(st.vars, c) == Some(n)
    ensures Exec([ForRange(c, body)], st) == RunRange(0, n, body, st)
  {
    hide UnpackCall, Slice, Assign, AssignAll, Eval, BindTo, AppendTo, CountOf, RunRange;
    ExecOne(ForRange(c, body), st);
  }

  lemma StepConstruct(v: Var, fields: seq<Field>, st: State)
    ensures Exec([Construct(v, fields)], st) == Some(st.(vars := Bind(st.vars, v, Own(NewObject(fields)))))
  {
    ExecOne(Construct(v, fields), st);
  }

  lemma StepAppend(target: Ref, v: Var, st: State)
    ensures Exec([Append(target, v)], st) == WithVars(st, AppendTo(st.vars, target, v))
  {
    hide UnpackCall, Slice, Assign, AssignAll, Eval, BindTo, AppendTo, CountOf, RunRange;
    ExecOne(Append(target, v), st);
  }

  /** A statement and the code after it. */
  lemma ExecCons(s: Stmt, rest: seq<Stmt>, st: State)
    requires Exec([s], st).Some?
    ensures Exec([s] + rest, st) == Exec(rest, Exec([s], st).value)
  {
    ExecAppend([s], rest, st);
  }
}
