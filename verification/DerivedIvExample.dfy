/**
 Derived induction variables the pass gets wrong: one starts at one, the other at the value of a parameter, and then the
 pass is right exactly on the inputs where that is zero.
 */
module DerivedIvExample {
  import Bits
  import opened Ir
  import opened Semantics
  import opened Ssa
  import opened Rename
  import opened DerivedIv
  import opened DerivedIvSim
  import opened DerivedIvPass

  /** The loop's increments and its exit test, for a second variable that goes by id x. */
  function Increments(x: Id): seq<Instr> {
    [ Instr(2, Add, Int(8), [Local(0), Lit(1)]),
      Instr(3, Add, Int(8), [Local(x), Lit(1)]),
      Instr(4, CmpEq, Int(1), [Local(0), Lit(0)]) ]
  }

  function Counter(): Phi {
    Phi(0, Int(8), [Edge(0, Lit(0)), Edge(1, Local(2))])
  }

  function Second(start: Operand): Phi {
    Phi(1, Int(8), [Edge(0, start), Edge(1, Local(3))])
  }

  /** i counts from zero and d from the given start; after two trips d is returned. */
  function Counting(start: Operand): Fn {
    Fn([Int(8)], [], 0,
       map[0 := Block([], [], Br(1)),
           1 := Block([Counter(), Second(start)], Increments(1), CondBr(Local(4), 1, 2)),
           2 := Block([], [], Ret(Local(1)))],
       5, 3)
  }

  function Nest(): LoopNest {
    LoopNest(1, {1}, 8, Some(0), [])
  }

  function Answers(start: Operand): ScalarEvolution {
    map[0 := AddRec(1, true, Lit(0), Some(1)), 1 := AddRec(1, true, start, Some(1))]
  }

  /** The pass makes d the product of one and i, whatever the start. */
  function Replaced(): Fn {
    Fn([Int(8)], [], 0,
       map[0 := Block([], [], Br(1)),
           1 := Block([Counter()], [Scale(5, 8, 1, 0)] + Increments(5), CondBr(Local(4), 1, 2)),
           2 := Block([], [], Ret(Local(5)))],
       6, 3)
  }

  lemma WhatThePassDoes(start: Operand)
    requires !start.Local?
    ensures Eliminate(Counting(start), Nest(), Answers(start)) == Replaced()
  {
    var f := Counting(start);
    var phis := f.blocks[1].phis;
    assert phis[..1][..0] == [] && phis[..2][..1] == phis[..1] && phis[..2] == phis;
    assert Collect(phis[..1], Nest(), Answers(start)) == [];
    var ds := Collect(phis, Nest(), Answers(start));
    assert ds == [Derived(1, 8)];
    assert ds[1..] == [];
    var g := Replace(f, 1, 1, 0, 8, 1, 0);
    ReplacedBlocks(start);
    assert g.blocks == Replaced().blocks;
    var none: seq<Derived> := [];
    assert EliminateDerived(g, 1, Answers(start), 0, none, 1) == g;
    assert EliminateDerived(f, 1, Answers(start), 0, ds, 0) == EliminateDerived(g, 1, Answers(start), 0, ds[1..], 1);
  }

  lemma ReplacedBlocks(start: Operand)
    ensures var g := Replace(Counting(start), 1, 1, 0, 8, 1, 0);
            g.blocks.Keys == {0, 1, 2} && forall l :: l in g.blocks ==> g.blocks[l] == Replaced().blocks[l]
  {
    var f := Counting(start);
    var phis := f.blocks[1].phis;
    var r: Sub := map[1 := 5];
    assert phis[1..] == [Second(start)] && phis[1..][1..] == [];
    assert DropPhi(phis[1..], 1) == [];
    assert DropPhi(phis, 1) == [Counter()];
    assert RenPhis(r, map[], [Counter()]) == [Counter()] by {
      assert RenEdges(r, map[], Counter().edges) == Counter().edges;
    }
    assert f.blocks[1].body[0..] == Increments(1) && f.blocks[1].body[..0] == [];
    RenIncrements();
    assert RenBody(r, []) == [];
  }

  lemma RenIncrements()
    ensures RenBody(map[1 := 5], Increments(1)) == Increments(5)
  {
    var xs, ys := Increments(1), Increments(5);
    forall k | 0 <= k < 3
      ensures RenInstr(map[1 := 5], xs[k]) == ys[k]
    {
      assert RenArgs(map[1 := 5], xs[k].args) == ys[k].args;
    }
  }

  // Runs

  /** One more, on 8 bits. */
  function Next(v: int): int {
    Bits.Wrap(v + 1, 8)
  }

  function After(env: Env, i: int, v: int): Env {
    env[2 := i + 1][3 := Next(v)][4 := if i == 0 then 1 else 0]
  }

  lemma IncrementsRun(x: Id, i: int, v: int, inp: Input, env: Env, w: World)
    requires 0 in env && env[0] == i && x in env && env[x] == v && (x == 1 || x == 5)
    requires 0 <= i < 10 && 0 <= v < 256
    ensures ExecBody(Increments(x), inp, env, w) == Ok(After(env, i, v), w)
  {
    hide Bits.Wrap, Bits.Pow2;
    var xs := Increments(x);
    var env1 := env[2 := i + 1];
    var env2 := env1[3 := Next(v)];
    Small(i + 1);
    AddOne(xs[0], i, inp, env, w);
    AddOne(xs[1], v, inp, env1, w);
    assert xs == [xs[0]] + ([xs[1]] + ([xs[2]] + []));
    assert Vals(xs[2].args, inp, env2) == [i, 0];
    BodyCons(xs[0], [xs[1]] + ([xs[2]] + []), inp, env, w);
    BodyCons(xs[1], [xs[2]] + [], inp, env1, w);
    BodyCons(xs[2], [], inp, env2, w);
  }

  lemma Small(v: nat)
    requires v < 256
    ensures Bits.Wrap(v, 8) == v
  {
    hide Bits.Wrap, Bits.Pow2;
    Bits.Pow2Of8();
    Bits.WrapSmall(v, 8);
  }

  lemma AddOne(i: Instr, v: int, inp: Input, env: Env, w: World)
    requires i.op.Add? && i.ty == Int(8) && |i.args| == 2 && i.args[0].Local? && i.args[1] == Lit(1)
    requires i.args[0].id in env && env[i.args[0].id] == v && 0 <= v < 256
    ensures ExecInstr(i, inp, env, w) == Ok(env[i.id := Next(v)], w)
  {
    hide Bits.Wrap, Bits.Pow2;
    assert Vals(i.args, inp, env) == [v, 1];
    Small(v);
    Small(1);
  }

  lemma CounterValue(from: Label, i: int, inp: Input, edgeEnv: Env)
    requires from == 0 ==> i == 0
    requires from == 1 ==> 2 in edgeEnv && edgeEnv[2] == i
    requires from == 0 || from == 1
    ensures var x := Incoming(Counter().edges, from);
            x.Some? && Defined(x.value, edgeEnv) && Val(x.value, inp, edgeEnv) == i
  {
    assert Counter().edges[1..] == [Edge(1, Local(2))];
  }

  lemma SecondValue(start: Operand, from: Label, v: int, inp: Input, edgeEnv: Env)
    requires !start.Local? && (from == 0 ==> Val(start, inp, map[]) == v)
    requires from == 1 ==> 3 in edgeEnv && edgeEnv[3] == v
    requires from == 0 || from == 1
    ensures var x := Incoming(Second(start).edges, from);
            x.Some? && Defined(x.value, edgeEnv) && Val(x.value, inp, edgeEnv) == v
  {
    assert Second(start).edges[1..] == [Edge(1, Local(3))];
  }

  lemma BothPhis(start: Operand, from: Label, i: int, v: int, inp: Input, env: Env, w: World)
    requires !start.Local? && (from == 0 ==> i == 0 && Val(start, inp, map[]) == v)
    requires from == 1 ==> 2 in env && env[2] == i && 3 in env && env[3] == v
    requires from == 0 || from == 1
    ensures ExecPhis([Counter(), Second(start)], Some(from), inp, env, env, w) == Ok(env[0 := i][1 := v], w)
  {
    CounterValue(from, i, inp, env);
    SecondValue(start, from, v, inp, env);
    assert [Counter(), Second(start)][1..] == [Second(start)] && [Second(start)][1..] == [];
    assert ExecPhis([Second(start)], Some(from), inp, env, env[0 := i], w) == Ok(env[0 := i][1 := v], w);
  }

  /** One trip of the original loop. */
  lemma Trip(start: Operand, from: Label, i: int, v: int, inp: Input, env: Env, w: World)
    requires !start.Local? && (from == 0 ==> i == 0 && Val(start, inp, map[]) == v)
    requires from == 1 ==> 2 in env && env[2] == i && 3 in env && env[3] == v
    requires (from == 0 || from == 1) && 0 <= i < 10 && 0 <= v < 256
    ensures StepBlock(Counting(start), inp, At(1, Some(from), env, w))
              == At(if i == 0 then 1 else 2, Some(1), After(env[0 := i][1 := v], i, v), w)
  {
    BothPhis(start, from, i, v, inp, env, w);
    IncrementsRun(1, i, v, inp, env[0 := i][1 := v], w);
  }

  /** One trip of the rewritten loop. */
  lemma ReplacedTrip(from: Label, i: int, inp: Input, env: Env, w: World)
    requires from == 0 ==> i == 0
    requires from == 1 ==> 2 in env && env[2] == i
    requires (from == 0 || from == 1) && 0 <= i < 10
    ensures StepBlock(Replaced(), inp, At(1, Some(from), env, w))
              == At(if i == 0 then 1 else 2, Some(1), After(env[0 := i][5 := i], i, i), w)
  {
    hide Bits.Wrap, Bits.Pow2;
    CounterValue(from, i, inp, env);
    assert [Counter()][1..] == [];
    var env1 := env[0 := i];
    assert ExecPhis([Counter()], Some(from), inp, env, env, w) == Ok(env1, w);
    ScaleRuns(5, 8, 1, 0, inp, env1, w);
    Small(1 * i);
    BodyAppend([Scale(5, 8, 1, 0)], Increments(5), inp, env1, w);
    IncrementsRun(5, i, i, inp, env1[5 := i], w);
  }

  function FirstEnv(a: int): Env {
    After(map[0 := 0, 1 := a], 0, a)
  }

  function SecondHeader(a: int): Env {
    FirstEnv(a)[0 := 1][1 := Next(a)]
  }

  lemma NextFits(v: int)
    ensures 0 <= Next(v) < 256
  {
    hide Bits.Pow2;
    Bits.Pow2Of8();
  }

  /** A start that fits, whatever the input. */
  ghost predicate StartFits(start: Operand, inp: Input) {
    !start.Local? && 0 <= Val(start, inp, map[]) < 256
  }

  lemma CountingRuns(start: Operand, inp: Input)
    requires StartFits(start, inp)
    ensures var f, w, a := Counting(start), World(inp.mem, []), Val(start, inp, map[]);
            && Run(f, inp, 0) == At(0, None, map[], w)
            && Run(f, inp, 1) == At(1, Some(0), map[], w)
            && Run(f, inp, 2) == At(1, Some(1), FirstEnv(a), w)
            && Run(f, inp, 3) == At(2, Some(1), After(SecondHeader(a), 1, Next(a)), w)
            && Run(f, inp, 4) == Done(Next(a), w)
  {
    hide Next;
    var f, w, a := Counting(start), World(inp.mem, []), Val(start, inp, map[]);
    assert Run(f, inp, 0) == At(0, None, map[], w);
    assert Run(f, inp, 1) == At(1, Some(0), map[], w);
    Trip(start, 0, 0, a, inp, map[], w);
    var none: Env := map[];
    assert none[0 := 0][1 := a] == map[0 := 0, 1 := a];
    assert Run(f, inp, 2) == At(1, Some(1), FirstEnv(a), w);
    NextFits(a);
    Trip(start, 1, 1, Next(a), inp, FirstEnv(a), w);
    assert Run(f, inp, 3) == At(2, Some(1), After(SecondHeader(a), 1, Next(a)), w);
    ReturnRuns(f, 1, Next(a), inp, After(SecondHeader(a), 1, Next(a)), w);
  }

  lemma ReturnRuns(f: Fn, x: Id, v: int, inp: Input, env: Env, w: World)
    requires 2 in f.blocks && f.blocks[2] == Block([], [], Ret(Local(x))) && x in env && env[x] == v
    ensures StepBlock(f, inp, At(2, Some(1), env, w)) == Done(v, w)
  {
  }

  lemma ReplacedRuns(inp: Input)
    ensures Run(Replaced(), inp, 4) == Done(1, World(inp.mem, []))
  {
    var g, w := Replaced(), World(inp.mem, []);
    var env0: Env := map[];
    assert Run(g, inp, 0) == At(0, None, env0, w);
    assert Run(g, inp, 1) == At(1, Some(0), env0, w);
    ReplacedTrip(0, 0, inp, env0, w);
    var env2 := After(env0[0 := 0][5 := 0], 0, 0);
    assert Run(g, inp, 2) == At(1, Some(1), env2, w);
    ReplacedTrip(1, 1, inp, env2, w);
    var env3 := After(env2[0 := 1][5 := 1], 1, 1);
    assert Run(g, inp, 3) == At(2, Some(1), env3, w);
    ReturnRuns(g, 5, 1, inp, env3, w);
  }

  // Everything the pass is told is right

  /** On these inputs the start fits its type. */
  ghost predicate Fits(ok: Inputs, start: Operand) {
    forall inp: Input :: ok(inp) ==> StartFits(start, inp)
  }

  /** The header is executed twice. */
  lemma HeaderTwice(start: Operand, inp: Input, n: nat)
    requires StartFits(start, inp)
    ensures var f, a := Counting(start), Val(start, inp, map[]);
            && (HeaderEnv(f, 1, inp, n).Some? ==> n == 1 || n == 2)
            && HeaderEnv(f, 1, inp, 1) == Some(map[0 := 0, 1 := a]) && HeaderEnv(f, 1, inp, 2) == Some(SecondHeader(a))
            && !Again(f, {1}, inp, 1) && Again(f, {1}, inp, 2)
  {
    hide Bits.Wrap, Bits.Pow2, Next;
    var f, a := Counting(start), Val(start, inp, map[]);
    CountingRuns(start, inp);
    var none: Env := map[];
    BothPhis(start, 0, 0, a, inp, none, World(inp.mem, []));
    assert none[0 := 0][1 := a] == map[0 := 0, 1 := a];
    BothPhis(start, 1, 1, Next(a), inp, FirstEnv(a), World(inp.mem, []));
    if n > 4 {
      RunExtends(f, inp, 4, n);
    }
  }

  lemma CountingPhiOnly(start: Operand, i: Id)
    requires i == 0 || i == 1
    ensures PhiOnly(Counting(start), 1, i)
  {
    assert Counting(start).blocks[1].phis[i].id == i;
  }

  lemma CountingRecursAt(start: Operand, i: Id, inp: Input, n: nat)
    requires StartFits(start, inp) && (i == 0 || i == 1)
    ensures RecursAt(Counting(start), 1, {1}, i, 8, 1, inp, n)
  {
    hide Bits.Wrap, Bits.Pow2;
    HeaderTwice(start, inp, n);
    CountingRuns(start, inp);
    Bits.Pow2Of8();
    Small(1);
    NextFits(Val(start, inp, map[]));
  }

  lemma CountingRecurs(ok: Inputs, start: Operand, i: Id)
    requires Fits(ok, start) && (i == 0 || i == 1)
    ensures Recurs(ok, Counting(start), 1, {1}, i, 8, 1)
  {
    CountingPhiOnly(start, i);
    hide Counting, RecursAt, PhiOnly;
    forall inp: Input, n: nat | ok(inp)
      ensures RecursAt(Counting(start), 1, {1}, i, 8, 1, inp, n)
    {
      assert StartFits(start, inp);
      CountingRecursAt(start, i, inp, n);
    }
  }

  lemma CountingCanonical(ok: Inputs, start: Operand)
    requires Fits(ok, start)
    ensures Canonical(ok, Counting(start), 1, {1}, 0, 8)
  {
    CountingRecurs(ok, start, 0);
    forall inp: Input, n: nat | ok(inp) && HeaderEnv(Counting(start), 1, inp, n).Some? && !Again(Counting(start), {1}, inp, n)
      ensures StartIs(Counting(start), 1, 0, inp, n, 0)
    {
      assert StartFits(start, inp);
      HeaderTwice(start, inp, n);
    }
  }

  /** Scalar evolution's start is the operand on the edge from outside. */
  lemma CountingStart(ok: Inputs, start: Operand)
    requires Fits(ok, start)
    ensures StartsWith(ok, Counting(start), 1, {1}, 1, 8, start)
  {
    forall inp: Input, n: nat | ok(inp) && HeaderEnv(Counting(start), 1, inp, n).Some? && !Again(Counting(start), {1}, inp, n)
      ensures StartIs(Counting(start), 1, 1, inp, n, Bits.Wrap(Val(start, inp, Run(Counting(start), inp, n).env), 8))
    {
      assert StartFits(start, inp);
      HeaderTwice(start, inp, n);
      Small(Val(start, inp, map[]));
    }
  }

  lemma CountingSafe(ok: Inputs, start: Operand)
    requires Fits(ok, start) && !start.Local?
    ensures SafeFor(ok, Counting(start)) && NamesBelow(Counting(start))
  {
    forall inp: Input, n: nat | ok(inp)
      ensures Run(Counting(start), inp, n).Stuck? ==> Sound(Run(Counting(start), inp, n).kind)
    {
      assert StartFits(start, inp);
      CountingRuns(start, inp);
      if n > 4 {
        RunExtends(Counting(start), inp, 4, n);
      } else {
        RunExtends(Counting(start), inp, n, 4);
      }
    }
  }

  lemma CountingOk(ok: Inputs, start: Operand)
    requires Fits(ok, start) && !start.Local?
    ensures AnalysedOk(ok, Counting(start), [Nest()], Answers(start))
  {
    CountingSafe(ok, start);
    CountingCanonical(ok, start);
    CountingRecurs(ok, start, 1);
    CountingStart(ok, start);
    hide SafeFor, NamesBelow, Recurs, StartsWith, StartsAtZero;
    var f, se := Counting(start), Answers(start);
    assert LoopStarts(ok, f, Nest(), se);
    assert LoopOk(ok, f, Nest(), se);
    assert ListOk(ok, f, [], se);
    assert NestOk(ok, f, Nest(), se);
    assert [Nest()][1..] == [];
    assert HeadersOf([]) == {};
    assert Distinct(Nest());
  }

  // What becomes of it

  lemma PassResult(start: Operand)
    requires !start.Local?
    ensures EliminateList(Counting(start), [Nest()], Answers(start)) == Replaced()
  {
    WhatThePassDoes(start);
    hide Eliminate, Counting, Replaced;
    assert [Nest()][1..] == [];
    assert EliminateList(Replaced(), [], Answers(start)) == Replaced();
    assert EliminateList(Counting(start), [Nest()], Answers(start))
        == EliminateList(Eliminate(Counting(start), Nest(), Answers(start)), [], Answers(start));
  }

  /** The value with which the loop was last entered is the start. */
  lemma LastStartIs(start: Operand, inp: Input, n: nat)
    requires StartFits(start, inp) && HeaderEnv(Counting(start), 1, inp, n).Some?
    ensures LastStart(Counting(start), 1, {1}, 1, inp, n) == Val(start, inp, map[])
  {
    HeaderTwice(start, inp, n);
    assert LastStart(Counting(start), 1, {1}, 1, inp, 1) == Val(start, inp, map[]);
  }

  /** At every visit on every such input, the replacement is right if and only if the start is zero. */
  lemma VisitRight(ok: Inputs, start: Operand, inp: Input, n: nat)
    requires Fits(ok, start) && ok(inp) && HeaderEnv(Counting(start), 1, inp, n).Some?
    ensures MultipleIn(HeaderEnv(Counting(start), 1, inp, n).value, 1, 0, 8, 1) <==> Val(start, inp, map[]) == 0
  {
    CountingCanonical(ok, start);
    CountingRecurs(ok, start, 1);
    assert StartFits(start, inp);
    LastStartIs(start, inp, n);
    Small(Val(start, inp, map[]));
    VisitMultipleIff(ok, Counting(start), 1, {1}, 1, 0, 8, 1, inp, n);
  }

  lemma NextIsOne(a: int)
    requires 0 <= a < 256
    ensures Next(a) == 1 <==> a == 0
  {
    hide Bits.Wrap, Bits.Pow2;
    Bits.Pow2Of8();
    if a < 255 {
      Small(a + 1);
    } else {
      assert a + 1 == 0 + 1 * 256;
      Bits.WrapShift(0, 1, 8);
      Small(0);
    }
  }

  lemma StartsZero(ok: Inputs, start: Operand)
    requires Fits(ok, start) && forall inp :: ok(inp) ==> Val(start, inp, map[]) == 0
    ensures ListZero(ok, Counting(start), [Nest()], Answers(start))
  {
    var f, se := Counting(start), Answers(start);
    forall inp: Input, n: nat | ok(inp) && HeaderEnv(f, 1, inp, n).Some? && !Again(f, {1}, inp, n)
      ensures StartIs(f, 1, 1, inp, n, 0)
    {
      assert StartFits(start, inp);
      HeaderTwice(start, inp, n);
    }
    assert StartsAtZero(ok, f, 1, {1}, 1);
    assert LoopZero(ok, f, Nest(), se);
    assert ListZero(ok, f, [], se);
    assert NestZero(ok, f, Nest(), se);
  }

  /** Where the start is zero, the theorem about the pass applies. */
  lemma ZeroStartKept(ok: Inputs, start: Operand)
    requires !start.Local? && Fits(ok, start) && forall inp :: ok(inp) ==> Val(start, inp, map[]) == 0
    ensures SameFor(ok, Counting(start), Replaced())
  {
    CountingOk(ok, start);
    StartsZero(ok, start);
    PassResult(start);
    hide AnalysedOk, SameFor, Counting, Replaced, Eliminate;
    ListGood(ok, Counting(start), [Nest()], Answers(start));
  }

  lemma OtherStartDiffers(start: Operand, inp: Input)
    requires StartFits(start, inp) && Val(start, inp, map[]) != 0
    ensures !SameOn(Counting(start), Replaced(), inp)
  {
    var f, g, a := Counting(start), Replaced(), Val(start, inp, map[]);
    CountingRuns(start, inp);
    ReplacedRuns(inp);
    NextIsOne(a);
    hide Counting, Replaced, Next, Run;
    EndsElsewhere(f, g, inp, 4, Done(Next(a), World(inp.mem, [])));
  }

  /** The inputs on which the first argument fits 8 bits. */
  function ByteArgument(): Inputs {
    (inp: Input) => 0 <= inp.arg(0) < 256
  }

  function ZeroArgument(): Inputs {
    (inp: Input) => inp.arg(0) == 0
  }

  /**
   A start given by a parameter: every analysis is right on the inputs on which the argument fits its type. On each of
   them the replacement is right at every visit, and the pass leaves the run as it was, if and only if the argument is zero.
   */
  lemma ParameterStart(inp: Input)
    requires ByteArgument()(inp)
    ensures AnalysedOk(ByteArgument(), Counting(Arg(0)), [Nest()], Answers(Arg(0)))
    ensures forall n: nat :: HeaderEnv(Counting(Arg(0)), 1, inp, n).Some? ==>
              (MultipleIn(HeaderEnv(Counting(Arg(0)), 1, inp, n).value, 1, 0, 8, 1) <==> inp.arg(0) == 0)
    ensures SameOn(Counting(Arg(0)), EliminateList(Counting(Arg(0)), [Nest()], Answers(Arg(0))), inp) <==> inp.arg(0) == 0
  {
    assert Fits(ByteArgument(), Arg(0)) && Fits(ZeroArgument(), Arg(0));
    CountingOk(ByteArgument(), Arg(0));
    PassResult(Arg(0));
    assert StartFits(Arg(0), inp);
    hide AnalysedOk, MultipleIn, HeaderEnv, Counting, Replaced, EliminateList, SameOn;
    forall n: nat | HeaderEnv(Counting(Arg(0)), 1, inp, n).Some?
      ensures MultipleIn(HeaderEnv(Counting(Arg(0)), 1, inp, n).value, 1, 0, 8, 1) <==> inp.arg(0) == 0
    {
      VisitRight(ByteArgument(), Arg(0), inp, n);
    }
    if inp.arg(0) == 0 {
      ZeroStartKept(ZeroArgument(), Arg(0));
      assert ZeroArgument()(inp);
    } else {
      OtherStartDiffers(Arg(0), inp);
    }
  }

  /** The pass drops the start value: with every analysis right on all inputs, a start of one changes what the function returns on all. */
  lemma NonzeroStartBreaks(inp: Input)
    ensures AnalysedOk(AllInputs(), Counting(Lit(1)), [Nest()], Answers(Lit(1)))
    ensures !StartsAtZero(AllInputs(), Counting(Lit(1)), 1, {1}, 1)
    ensures !SameOn(Counting(Lit(1)), EliminateList(Counting(Lit(1)), [Nest()], Answers(Lit(1))), inp)
  {
    CountingOk(AllInputs(), Lit(1));
    PassResult(Lit(1));
    OtherStartDiffers(Lit(1), inp);
    HeaderTwice(Lit(1), inp, 1);
    assert AllInputs()(inp) && !StartIs(Counting(Lit(1)), 1, 1, inp, 1, 0);
  }
}
