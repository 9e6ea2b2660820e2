/** Execution of a function, one basic block a step, and what it means for two functions to behave alike. */
module Semantics {
  import Bits
  import opened Ir

  /** A call is observable; loads and stores act on byte-addressed memory. */
  datatype Event = Event(callee: nat, args: seq<int>)

  datatype World = World(mem: map<int, int>, hist: seq<Event>)

  datatype Reply = Reply(val: int, mem: map<int, int>)

  /** Everything a run depends on; the callees are an arbitrary function of the world they are called in. */
  datatype Input = Input(arg: nat -> int, global: nat -> int, mem: map<int, int>,
                         call: (nat, seq<int>, World) -> Reply)

  type Env = map<Id, int>

  datatype FaultKind = Undefined | MissingEdge | DivByZero | Malformed | Dead

  /** Ok and Bad are the two ways a piece of straight-line code can end. */
  datatype Step = Ok(env: Env, w: World) | Bad(kind: FaultKind, w: World)

  datatype Outcome = Value(v: int, w: World) | Fault(kind: FaultKind)

  datatype Jump = Goto(dest: Label) | Return(val: int) | Halt(kind: FaultKind)

  datatype Config =
    | At(lbl: Label, prev: Option<Label>, env: Env, w: World)
    | Done(val: int, w: World)
    | Stuck(kind: FaultKind, w: World)

  // Operands

  predicate Defined(x: Operand, env: Env) {
    x.Local? ==> x.id in env
  }

  function Val(x: Operand, inp: Input, env: Env): int {
    match x
    case Lit(v) => v
    case Arg(k) => inp.arg(k)
    case Global(k) => inp.global(k)
    case Local(i) => if i in env then env[i] else 0
  }

  predicate AllDefined(xs: seq<Operand>, env: Env) {
    forall k :: 0 <= k < |xs| ==> Defined(xs[k], env)
  }

  function Vals(xs: seq<Operand>, inp: Input, env: Env): (vs: seq<int>)
    ensures |vs| == |xs|
  {
    if xs == [] then [] else [Val(xs[0], inp, env)] + Vals(xs[1..], inp, env)
  }

  // Memory

  function ReadBytes(mem: map<int, int>, addr: int, n: nat): int
    decreases n
  {
    if n == 0 then 0
    else (if addr in mem then mem[addr] else 0) + 256 * ReadBytes(mem, addr + 1, n - 1)
  }

  function WriteBytes(mem: map<int, int>, addr: int, n: nat, v: int): map<int, int>
    decreases n
  {
    if n == 0 then mem
    else WriteBytes(mem[addr := v % 256], addr + 1, n - 1, v / 256)
  }

  // Instructions

  function Arity(op: Op): Option<nat> {
    match op
    case Load(_) => Some(1)
    case Cast => Some(1)
    case Call(_) => None
    case Dbg => Some(0)
    case _ => Some(2)
  }

  /** Division by zero is the only fault of a well-formed instruction. */
  function Pure(op: Op, w: nat, a: int, b: int): Option<int> {
    var x, y := Bits.Wrap(a, w), Bits.Wrap(b, w);
    match op
    case Add => Some(Bits.Wrap(x + y, w))
    case Sub => Some(Bits.Wrap(x - y, w))
    case Mul => Some(Bits.Wrap(x * y, w))
    case UDiv => if y == 0 then None else Some(x / y)
    case And => Some(Bits.And(x, y))
    case Or => Some(Bits.Or(x, y))
    case Xor => Some(Bits.Xor(x, y))
    case CmpEq => Some(if a == b then 1 else 0)
    case _ => Some(if a < b then 1 else 0)
  }

  function Width(ty: Ty): nat {
    if ty.Int? then ty.width else 64
  }

  function Eval(inp: Input, op: Op, ty: Ty, a: seq<int>, w: World): Outcome {
    if Arity(op).Some? && Arity(op).value != |a| then Fault(Malformed)
    else
      match op
      case Load(n) => Value(ReadBytes(w.mem, a[0], n), w)
      case Store(n) => Value(0, w.(mem := WriteBytes(w.mem, a[1], n, a[0])))
      case Cast => Value(Bits.Wrap(a[0], Width(ty)), w)
      case Call(c) =>
        var r := inp.call(c, a, w);
        Value(r.val, World(r.mem, w.hist + [Event(c, a)]))
      case Dbg => Value(0, w)
      case _ =>
        var r := Pure(op, Width(ty), a[0], a[1]);
        if r.Some? then Value(r.value, w) else Fault(DivByZero)
  }

  function ExecInstr(i: Instr, inp: Input, env: Env, w: World): Step {
    if !AllDefined(i.args, env) then Bad(Undefined, w)
    else
      match Eval(inp, i.op, i.ty, Vals(i.args, inp, env), w)
      case Fault(k) => Bad(k, w)
      case Value(v, w') => Ok(if i.ty.Void? then env else env[i.id := v], w')
  }

  function ExecBody(body: seq<Instr>, inp: Input, env: Env, w: World): Step {
    if body == [] then Ok(env, w)
    else
      match ExecInstr(body[0], inp, env, w)
      case Bad(k, w') => Bad(k, w')
      case Ok(env', w') => ExecBody(body[1..], inp, env', w')
  }

  /** PHIs read the environment the edge was taken with, all at once, and write into `env`. */
  function ExecPhis(phis: seq<Phi>, prev: Option<Label>, inp: Input, edgeEnv: Env, env: Env, w: World): Step {
    if phis == [] then Ok(env, w)
    else
      var x := if prev.Some? then Incoming(phis[0].edges, prev.value) else None;
      if x.None? then Bad(MissingEdge, w)
      else if !Defined(x.value, edgeEnv) then Bad(Undefined, w)
      else ExecPhis(phis[1..], prev, inp, edgeEnv, env[phis[0].id := Val(x.value, inp, edgeEnv)], w)
  }

  function CaseDest(cases: seq<Case>, v: int, default: Label): Label {
    if cases == [] then default
    else if cases[0].key == v then cases[0].dest
    else CaseDest(cases[1..], v, default)
  }

  function Transfer(t: Term, inp: Input, env: Env): Jump {
    if !AllDefined(TermArgs(t), env) then Halt(Undefined)
    else
      match t
      case Br(d) => Goto(d)
      case CondBr(c, a, b) => Goto(if Val(c, inp, env) != 0 then a else b)
      case Switch(v, d, cases) => Goto(CaseDest(cases, Val(v, inp, env), d))
      case IndirectBr(a, dests) =>
        var l := Val(a, inp, env);
        if exists k | 0 <= k < |dests| :: dests[k] == l then Goto(l) else Halt(Malformed)
      case Ret(v) => Return(Val(v, inp, env))
      case Unreachable => Halt(Dead)
  }

  // Runs

  function Leave(t: Term, from: Label, inp: Input, env: Env, w: World): Config {
    match Transfer(t, inp, env)
    case Goto(l) => At(l, Some(from), env, w)
    case Return(v) => Done(v, w)
    case Halt(k) => Stuck(k, w)
  }

  function ExecBlock(b: Block, l: Label, prev: Option<Label>, inp: Input, env: Env, w: World): Config {
    match ExecPhis(b.phis, prev, inp, env, env, w)
    case Bad(k, w') => Stuck(k, w')
    case Ok(env1, w1) =>
      match ExecBody(b.body, inp, env1, w1)
      case Bad(k, w') => Stuck(k, w')
      case Ok(env2, w2) => Leave(b.term, l, inp, env2, w2)
  }

  function StepBlock(f: Fn, inp: Input, c: Config): Config {
    if !c.At? then c
    else if c.lbl !in f.blocks then Stuck(Malformed, c.w)
    else ExecBlock(f.blocks[c.lbl], c.lbl, c.prev, inp, c.env, c.w)
  }

  function Steps(f: Fn, inp: Input, c: Config, n: nat): Config {
    if n == 0 then c else StepBlock(f, inp, Steps(f, inp, c, n - 1))
  }

  function Init(f: Fn, inp: Input): Config {
    At(f.entry, None, map[], World(inp.mem, []))
  }

  function Run(f: Fn, inp: Input, n: nat): Config {
    Steps(f, inp, Init(f, inp), n)
  }

  lemma RunNext(f: Fn, inp: Input, k: nat)
    ensures Run(f, inp, k + 1) == StepBlock(f, inp, Run(f, inp, k))
  {
  }

  // Observations

  /** What an observer sees of a configuration: how it ended, if it did, and the calls made so far. */
  datatype Obs = Obs(end: Option<Config>, hist: seq<Event>)

  function Observe(c: Config): Obs {
    Obs(if c.At? then None else Some(c), c.w.hist)
  }

  /** f ends in the terminal configuration c. */
  ghost predicate Ends(f: Fn, inp: Input, c: Config) {
    !c.At? && exists n: nat :: Run(f, inp, n) == c
  }

  /** h is a prefix of the calls f makes. */
  ghost predicate Emits(f: Fn, inp: Input, h: seq<Event>) {
    exists n: nat :: h <= Run(f, inp, n).w.hist
  }

  /** On every input both functions end alike (result, memory, fault) or not at all, and make the same calls. */
  ghost predicate SameBehaviour(f: Fn, g: Fn) {
    forall inp: Input :: SameOn(f, g, inp)
  }

  ghost predicate SameOn(f: Fn, g: Fn, inp: Input) {
    && (forall c: Config :: Ends(f, inp, c) <==> Ends(g, inp, c))
    && (forall h: seq<Event> :: Emits(f, inp, h) <==> Emits(g, inp, h))
  }

  /** The inputs something is claimed for. */
  type Inputs = Input -> bool

  ghost predicate SameFor(ok: Inputs, f: Fn, g: Fn) {
    forall inp: Input :: ok(inp) ==> SameOn(f, g, inp)
  }

  function AllInputs(): Inputs {
    (inp: Input) => true
  }

  lemma SameForReflexive(ok: Inputs, f: Fn)
    ensures SameFor(ok, f, f)
  {
    SameBehaviourReflexive(f);
  }

  lemma SameForTransitive(ok: Inputs, f: Fn, g: Fn, h: Fn)
    requires SameFor(ok, f, g) && SameFor(ok, g, h)
    ensures SameFor(ok, f, h)
  {
    forall inp: Input | ok(inp)
      ensures SameOn(f, h, inp)
    {
      assert SameOn(f, g, inp) && SameOn(g, h, inp);
    }
  }

  lemma SameBehaviourReflexive(f: Fn)
    ensures SameBehaviour(f, f)
  {
    forall inp: Input
      ensures SameOn(f, f, inp)
    {
    }
  }

  lemma SameBehaviourTransitive(f: Fn, g: Fn, h: Fn)
    requires SameBehaviour(f, g) && SameBehaviour(g, h)
    ensures SameBehaviour(f, h)
  {
    forall inp: Input
      ensures SameOn(f, h, inp)
    {
      assert SameOn(f, g, inp) && SameOn(g, h, inp);
    }
  }

  /** Every point of f's run is matched, no earlier, by a point of g's run that looks the same. */
  ghost predicate Tracks(f: Fn, g: Fn, inp: Input) {
    forall n: nat :: Matched(f, g, inp, n)
  }

  ghost predicate Matched(f: Fn, g: Fn, inp: Input, n: nat) {
    exists m: nat :: n <= m && Observe(Run(f, inp, n)) == Observe(Run(g, inp, m))
  }

  lemma {:induction false} StepExtends(f: Fn, inp: Input, c: Config)
    ensures c.w.hist <= StepBlock(f, inp, c).w.hist
  {
    if c.At? && c.lbl in f.blocks {
      var b := f.blocks[c.lbl];
      PhisKeepWorld(b.phis, c.prev, inp, c.env, c.env, c.w);
      var s := ExecPhis(b.phis, c.prev, inp, c.env, c.env, c.w);
      if s.Ok? {
        BodyExtends(b.body, inp, s.env, s.w);
      }
    }
  }

  lemma {:induction false} PhisKeepWorld(phis: seq<Phi>, prev: Option<Label>, inp: Input, edgeEnv: Env, env: Env, w: World)
    ensures ExecPhis(phis, prev, inp, edgeEnv, env, w).w == w
  {
    if phis != [] {
      var x := if prev.Some? then Incoming(phis[0].edges, prev.value) else None;
      if x.Some? && Defined(x.value, edgeEnv) {
        PhisKeepWorld(phis[1..], prev, inp, edgeEnv, env[phis[0].id := Val(x.value, inp, edgeEnv)], w);
      }
    }
  }

  lemma {:induction false} BodyExtends(body: seq<Instr>, inp: Input, env: Env, w: World)
    ensures w.hist <= ExecBody(body, inp, env, w).w.hist
  {
    if body != [] {
      var s := ExecInstr(body[0], inp, env, w);
      if s.Ok? {
        BodyExtends(body[1..], inp, s.env, s.w);
      }
    }
  }

  lemma BodyCons(i: Instr, rest: seq<Instr>, inp: Input, env: Env, w: World)
    ensures ExecBody([i] + rest, inp, env, w) ==
              (var s := ExecInstr(i, inp, env, w); if s.Ok? then ExecBody(rest, inp, s.env, s.w) else s)
  {
    assert ([i] + rest)[1..] == rest;
  }

  lemma {:induction false} BodyAppend(a: seq<Instr>, b: seq<Instr>, inp: Input, env: Env, w: World)
    ensures var s := ExecBody(a, inp, env, w);
            ExecBody(a + b, inp, env, w) == if s.Ok? then ExecBody(b, inp, s.env, s.w) else s
    decreases |a|
  {
    if a == [] {
      assert a + b == b;
    } else {
      assert (a + b)[1..] == a[1..] + b;
      var s := ExecInstr(a[0], inp, env, w);
      if s.Ok? {
        BodyAppend(a[1..], b, inp, s.env, s.w);
      }
    }
  }

  lemma {:induction false} BodyKeepsValue(body: seq<Instr>, i: Id, inp: Input, env: Env, w: World)
    requires forall k :: 0 <= k < |body| ==> body[k].id != i
    ensures var s := ExecBody(body, inp, env, w);
            s.Ok? ==> (i in s.env <==> i in env) && (i in env ==> s.env[i] == env[i])
  {
    if body != [] {
      var s := ExecInstr(body[0], inp, env, w);
      if s.Ok? {
        BodyKeepsValue(body[1..], i, inp, s.env, s.w);
      }
    }
  }

  lemma {:induction false} PhisKeepValue(phis: seq<Phi>, i: Id, prev: Option<Label>, inp: Input, edgeEnv: Env, env: Env, w: World)
    requires forall k :: 0 <= k < |phis| ==> phis[k].id != i
    ensures var s := ExecPhis(phis, prev, inp, edgeEnv, env, w);
            s.Ok? ==> (i in s.env <==> i in env) && (i in env ==> s.env[i] == env[i])
  {
    var s := ExecPhis(phis, prev, inp, edgeEnv, env, w);
    if phis != [] && s.Ok? {
      var x := Incoming(phis[0].edges, prev.value).value;
      PhisKeepValue(phis[1..], i, prev, inp, edgeEnv, env[phis[0].id := Val(x, inp, edgeEnv)], w);
    }
  }

  lemma {:induction false} RunExtends(f: Fn, inp: Input, n: nat, m: nat)
    requires n <= m
    ensures Run(f, inp, n).w.hist <= Run(f, inp, m).w.hist
    ensures !Run(f, inp, n).At? ==> Run(f, inp, m) == Run(f, inp, n)
    decreases m
  {
    if n < m {
      RunExtends(f, inp, n, m - 1);
      StepExtends(f, inp, Run(f, inp, m - 1));
    }
  }

  /** Because runs are deterministic, matching f's run inside g's run settles both directions. */
  lemma TracksGivesSameOn(f: Fn, g: Fn, inp: Input)
    requires Tracks(f, g, inp)
    ensures SameOn(f, g, inp)
  {
    forall c: Config
      ensures Ends(f, inp, c) <==> Ends(g, inp, c)
    {
      EndsBoth(f, g, inp, c);
    }
    forall h: seq<Event>
      ensures Emits(f, inp, h) <==> Emits(g, inp, h)
    {
      EmitsBoth(f, g, inp, h);
    }
  }

  lemma TracksGivesSameBehaviour(f: Fn, g: Fn)
    requires forall inp: Input :: Tracks(f, g, inp)
    ensures SameBehaviour(f, g)
  {
    forall inp: Input
      ensures SameOn(f, g, inp)
    {
      TracksGivesSameOn(f, g, inp);
    }
  }

  lemma EndsBoth(f: Fn, g: Fn, inp: Input, c: Config)
    requires Tracks(f, g, inp)
    ensures Ends(f, inp, c) <==> Ends(g, inp, c)
  {
    if Ends(f, inp, c) {
      var n: nat :| Run(f, inp, n) == c;
      assert Matched(f, g, inp, n);
      var m: nat :| n <= m && Observe(Run(f, inp, n)) == Observe(Run(g, inp, m));
      assert Run(g, inp, m) == c;
    }
    if Ends(g, inp, c) {
      var n: nat :| Run(g, inp, n) == c;
      assert Matched(f, g, inp, n);
      var m: nat :| n <= m && Observe(Run(f, inp, n)) == Observe(Run(g, inp, m));
      RunExtends(g, inp, n, m);
      assert Run(f, inp, n) == c;
    }
  }

  lemma EmitsBoth(f: Fn, g: Fn, inp: Input, h: seq<Event>)
    requires Tracks(f, g, inp)
    ensures Emits(f, inp, h) <==> Emits(g, inp, h)
  {
    if Emits(f, inp, h) {
      var n: nat :| h <= Run(f, inp, n).w.hist;
      assert Matched(f, g, inp, n);
      var m: nat :| n <= m && Observe(Run(f, inp, n)) == Observe(Run(g, inp, m));
      assert h <= Run(g, inp, m).w.hist;
    }
    if Emits(g, inp, h) {
      var n: nat :| h <= Run(g, inp, n).w.hist;
      assert Matched(f, g, inp, n);
      var m: nat :| n <= m && Observe(Run(f, inp, n)) == Observe(Run(g, inp, m));
      RunExtends(g, inp, n, m);
      assert h <= Run(f, inp, n).w.hist;
    }
  }

  /** Runs on one input that end differently tell two functions apart. */
  lemma EndsElsewhere(f: Fn, g: Fn, inp: Input, n: nat, c: Config)
    requires Run(f, inp, n) == c && !c.At? && Run(g, inp, n) != c && !Run(g, inp, n).At?
    ensures !SameOn(f, g, inp)
  {
    assert Ends(f, inp, c);
    forall m: nat
      ensures Run(g, inp, m) != c
    {
      if m >= n {
        RunExtends(g, inp, n, m);
      } else {
        RunExtends(g, inp, m, n);
      }
    }
  }

  lemma DifferentEnds(f: Fn, g: Fn, inp: Input, n: nat, c: Config)
    requires Run(f, inp, n) == c && !c.At? && Run(g, inp, n) != c && !Run(g, inp, n).At?
    ensures !SameBehaviour(f, g)
  {
    EndsElsewhere(f, g, inp, n, c);
  }
}
