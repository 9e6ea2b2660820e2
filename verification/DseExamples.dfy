/**
 The deletion rule by itself is not enough: functions in which both analyses answer correctly on every input and the
 rule proposes a store, but erasing it shows. Each leaves out one of the conditions the code does not check. And one in
 which all conditions are met although another pointer is read between the two stores.
 */
module DseExamples {
  import opened Ir
  import opened Semantics
  import opened Ssa
  import opened Removal
  import opened Memory
  import opened Dse
  import opened DseStatic
  import opened DseKept
  import opened DsePass

  /** Stores v into n bytes at an address. */
  function St(id: Id, v: int, n: nat, addr: Operand): Instr {
    Instr(id, Store(n), Void, [Lit(v), addr])
  }

  /** Where every access is through x: x must alias itself; of all others nothing is known. */
  function Aliases(x: Operand): AAResults {
    (i: Id, b: Location) => if b.addr == x then MustAlias else MayAlias
  }

  /** Instruction 2 post-dominates instruction 0. */
  function Pdt(): (Id, Id) -> bool {
    (s, p) => s == 2 && p == 0
  }

  /** The store 2 is clobbered by the store 0, and that by the state on entry. */
  function Mssa(): MemorySSA {
    MemorySSA(map[0 := 1, 2 := 2], map[0 := None, 1 := Some(0), 2 := Some(2)], Some(map[1 := 0, 2 := 1]))
  }

  lemma AliasesSound(f: Fn, x: Operand)
    requires forall q :: HasPlace(f, q) && AccessLocation(InstrAt(f, q)).Some? ==> AccessLocation(InstrAt(f, q)).value.addr == x
    ensures AliasAlways(AllInputs(), f, Aliases(x)) && AliasSound(AllInputs(), f, Aliases(x))
  {
    forall inp: Input, n: nat, k: nat, b: Location | EnvAt(f, inp, n, k).Some? && Next(f, inp, n, k).Some?
      ensures AliasHolds(Aliases(x), Next(f, inp, n, k).value, b, inp, EnvAt(f, inp, n, k).value)
    {
      assert InstrAt(f, Place(Run(f, inp, n).lbl, k)) == Next(f, inp, n, k).value;
    }
    AlwaysSound(AllInputs(), f, Aliases(x));
  }

  /** What the pass would do to f is justified by its own checks, with every answer right everywhere, and wrong. */
  ghost predicate RuleIsWrong(f: Fn, x: Operand) {
    && AliasAlways(AllInputs(), f, Aliases(x))
    && AnalysesOk(AllInputs(), f, Aliases(x), Pdt()) && DistinctIds(f) && MssaOk(Mssa())
    && (exists s: Instr, p: Instr :: p.id == 0 && Rule(f, Mssa(), Aliases(x), Pdt(), s, p))
    && !SameBehaviour(f, Erase(f, 0))
  }

  function Empty(): Input {
    Input(k => 0, k => 0, map[], (c, a, w) => Reply(0, map[]))
  }

  lemma StoreRuns(id: Id, v: int, n: nat, addr: Operand, inp: Input, env: Env, w: World)
    requires Defined(addr, env)
    ensures ExecInstr(St(id, v, n, addr), inp, env, w) == Ok(env, w.(mem := WriteBytes(w.mem, Val(addr, inp, env), n, v)))
  {
    var i := St(id, v, n, addr);
    assert Vals(i.args, inp, env) == [v, Val(addr, inp, env)];
  }

  // One block: a store of n bytes, perhaps a load, a store of n2 bytes

  function Ld(): Instr {
    Instr(1, Load(1), Int(8), [Lit(100)])
  }

  function Between(load: bool): seq<Instr> {
    if load then [Ld()] else []
  }

  function Straight(load: bool, n: nat, n2: nat): Fn {
    Fn([], [], 0,
       map[0 := Block([], [St(0, 1, n, Lit(100))] + Between(load) + [St(2, 2, n2, Lit(100))], Ret(if load then Local(1) else Lit(0)))],
       3, 1)
  }

  function Byte100(mem: map<int, int>): int {
    if 100 in mem then mem[100] else 0
  }

  /** The end of the block, once the first store has or has not run. */
  lemma TailRuns(load: bool, n2: nat, inp: Input, w: World) returns (env: Env)
    ensures ExecBody(Between(load) + [St(2, 2, n2, Lit(100))], inp, map[], w) == Ok(env, w.(mem := WriteBytes(w.mem, 100, n2, 2)))
    ensures load ==> 1 in env && env[1] == Byte100(w.mem)
  {
    var s := St(2, 2, n2, Lit(100));
    assert [s] == [s] + [];
    if load {
      assert Vals([Lit(100)], inp, map[]) == [100];
      assert ReadBytes(w.mem, 101, 0) == 0;
      BodyCons(Ld(), [s], inp, map[], w);
      env := map[1 := Byte100(w.mem)];
    } else {
      assert Between(load) + [s] == [s];
      env := map[];
    }
    BodyCons(s, [], inp, env, w);
    StoreRuns(2, 2, n2, Lit(100), inp, env, w);
  }

  function Result(load: bool, mem: map<int, int>): int {
    if load then Byte100(mem) else 0
  }

  lemma StraightRuns(load: bool, n: nat, n2: nat, inp: Input)
    ensures var m := WriteBytes(inp.mem, 100, n, 1);
            Run(Straight(load, n, n2), inp, 1) == Done(Result(load, m), World(WriteBytes(m, 100, n2, 2), []))
  {
    var f, w := Straight(load, n, n2), World(inp.mem, []);
    var rest := Between(load) + [St(2, 2, n2, Lit(100))];
    assert f.blocks[0].body == [St(0, 1, n, Lit(100))] + rest;
    BodyCons(St(0, 1, n, Lit(100)), rest, inp, map[], w);
    StoreRuns(0, 1, n, Lit(100), inp, map[], w);
    var env := TailRuns(load, n2, inp, w.(mem := WriteBytes(w.mem, 100, n, 1)));
    assert Run(f, inp, 0) == At(0, None, map[], w);
  }

  lemma ErasedRuns(load: bool, n: nat, n2: nat, inp: Input)
    ensures Run(Erase(Straight(load, n, n2), 0), inp, 1) == Done(Result(load, inp.mem), World(WriteBytes(inp.mem, 100, n2, 2), []))
  {
    var f, w := Straight(load, n, n2), World(inp.mem, []);
    var g := Erase(f, 0);
    StraightErased(load, n, n2);
    hide Erase, WriteBytes, Between;
    var env := TailRuns(load, n2, inp, w);
    assert Run(g, inp, 0) == At(0, None, map[], w);
  }

  lemma StraightErased(load: bool, n: nat, n2: nat)
    ensures var g := Erase(Straight(load, n, n2), 0);
            && g.entry == 0 && 0 in g.blocks
            && g.blocks[0] == Block([], Between(load) + [St(2, 2, n2, Lit(100))], Ret(if load then Local(1) else Lit(0)))
  {
    var body := Straight(load, n, n2).blocks[0].body;
    var rest := Between(load) + [St(2, 2, n2, Lit(100))];
    assert body == [St(0, 1, n, Lit(100))] + rest;
    assert body[1..] == rest;
    KeptWhole(rest);
  }

  lemma {:induction false} KeptWhole(body: seq<Instr>)
    requires forall k :: 0 <= k < |body| ==> body[k].id != 0
    ensures Without(body, {0}) == body
  {
    if body != [] {
      KeptWhole(body[1..]);
    }
  }

  lemma StraightOk(load: bool, n: nat, n2: nat)
    ensures AliasAlways(AllInputs(), Straight(load, n, n2), Aliases(Lit(100)))
    ensures AnalysesOk(AllInputs(), Straight(load, n, n2), Aliases(Lit(100)), Pdt()) && DistinctIds(Straight(load, n, n2)) && MssaOk(Mssa())
    ensures exists s: Instr, p: Instr :: p.id == 0 && Rule(Straight(load, n, n2), Mssa(), Aliases(Lit(100)), Pdt(), s, p)
  {
    hide AliasAlways, AllInputs, AliasSound, AliasRight, AliasHolds, Covers;
    var f := Straight(load, n, n2);
    forall inp: Input, k: nat
      ensures Run(f, inp, k).Stuck? ==> Sound(Run(f, inp, k).kind)
    {
      StraightRuns(load, n, n2, inp);
      if k > 0 {
        RunExtends(f, inp, 1, k);
      }
    }
    AliasesSound(f, Lit(100));
    var body := f.blocks[0].body;
    var s, p := body[|body| - 1], body[0];
    assert InFn(f, s) && InFn(f, p);
    assert Rule(f, Mssa(), Aliases(Lit(100)), Pdt(), s, p);
  }

  /** A load between the two stores: the walk does not see it, and the value it loads changes. */
  lemma LoadBetweenBreaks()
    ensures RuleIsWrong(Straight(true, 1, 1), Lit(100))
  {
    var f, inp := Straight(true, 1, 1), Empty();
    hide AnalysesOk, DistinctIds, Rule, Erase, Straight, Run, MssaOk;
    StraightOk(true, 1, 1);
    StraightRuns(true, 1, 1, inp);
    ErasedRuns(true, 1, 1, inp);
    OneByte(map[], 100, 1);
    DifferentEnds(f, Erase(f, 0), inp, 1, Run(f, inp, 1));
  }

  /** A later store that is narrower: must-alias compares addresses, and the bytes beyond it stay unwritten. */
  lemma NarrowerStoreBreaks()
    ensures RuleIsWrong(Straight(false, 2, 1), Lit(100))
  {
    var f, inp := Straight(false, 2, 1), Empty();
    StraightOk(false, 2, 1);
    StraightRuns(false, 2, 1, inp);
    ErasedRuns(false, 2, 1, inp);
    var m := WriteBytes(map[], 100, 2, 1);
    WriteKeys(map[], 100, 2, 1);
    WriteKeys(m, 100, 1, 2);
    WriteKeys(map[], 100, 1, 2);
    assert 101 in WriteBytes(m, 100, 1, 2) && 101 !in WriteBytes(map[], 100, 1, 2);
    DifferentEnds(f, Erase(f, 0), inp, 1, Run(f, inp, 1));
  }

  // A loop that moves the pointer

  function LoopBody(stores: bool): seq<Instr> {
    if stores then [St(0, 1, 1, Local(5))] else []
  }

  /** The store in block 1 runs twice, to 100 and to 200; the one in block 2 overwrites 200 only. */
  function Moving(stores: bool): Fn {
    Fn([], [], 0,
       map[0 := Block([], [], Br(1)),
           1 := Block([ Phi(4, Int(1), [Edge(0, Lit(1)), Edge(1, Lit(0))]),
                        Phi(5, Ptr, [Edge(0, Lit(100)), Edge(1, Lit(200))]) ],
                      LoopBody(stores), CondBr(Local(4), 1, 2)),
           2 := Block([], [St(2, 2, 1, Local(5))], Ret(Lit(0)))],
       6, 3)
  }

  function Stored(stores: bool, mem: map<int, int>, addr: int): map<int, int> {
    if stores then mem[addr := 1] else mem
  }

  lemma OneByte(mem: map<int, int>, addr: int, v: int)
    requires 0 <= v < 256
    ensures WriteBytes(mem, addr, 1, v) == mem[addr := v]
  {
    assert WriteBytes(mem[addr := v], addr + 1, 0, 0) == mem[addr := v];
  }

  /** One trip through the loop's block. */
  lemma Trip(stores: bool, from: Label, inp: Input, env: Env, w: World)
    requires from == 0 || from == 1
    ensures var c, addr := if from == 0 then 1 else 0, if from == 0 then 100 else 200;
            StepBlock(Moving(stores), inp, At(1, Some(from), env, w))
              == At(if from == 0 then 1 else 2, Some(1), env[4 := c][5 := addr], w.(mem := Stored(stores, w.mem, addr)))
  {
    var b := Moving(stores).blocks[1];
    var c, addr := if from == 0 then 1 else 0, if from == 0 then 100 else 200;
    assert b.phis[0].edges[1..] == [Edge(1, Lit(0))] && b.phis[1].edges[1..] == [Edge(1, Lit(200))];
    assert b.phis[1..] == [b.phis[1]] && b.phis[1..][1..] == [];
    var env1 := env[4 := c][5 := addr];
    assert ExecPhis(b.phis, Some(from), inp, env, env, w) == Ok(env1, w) by {
      assert Incoming(b.phis[0].edges, from) == Some(Lit(c));
      assert Incoming(b.phis[1].edges, from) == Some(Lit(addr));
      assert ExecPhis([b.phis[1]], Some(from), inp, env, env[4 := c], w) == Ok(env1, w);
    }
    if stores {
      assert b.body == [St(0, 1, 1, Local(5))] + [];
      BodyCons(St(0, 1, 1, Local(5)), [], inp, env1, w);
      StoreRuns(0, 1, 1, Local(5), inp, env1, w);
      OneByte(w.mem, addr, 1);
    }
  }

  lemma MovingRuns(stores: bool, inp: Input)
    ensures Run(Moving(stores), inp, 4) == Done(0, World(Stored(stores, Stored(stores, inp.mem, 100), 200)[200 := 2], []))
  {
    var f, w := Moving(stores), World(inp.mem, []);
    var m1 := Stored(stores, inp.mem, 100);
    var m2 := Stored(stores, m1, 200);
    var env2: Env := map[4 := 1, 5 := 100];
    var env3: Env := map[4 := 0, 5 := 200];
    assert Run(f, inp, 0) == At(0, None, map[], w);
    assert Run(f, inp, 1) == At(1, Some(0), map[], w);
    Trip(stores, 0, inp, map[], w);
    assert Run(f, inp, 2) == At(1, Some(1), env2, World(m1, []));
    Trip(stores, 1, inp, env2, World(m1, []));
    assert env2[4 := 0][5 := 200] == env3;
    assert Run(f, inp, 3) == At(2, Some(1), env3, World(m2, []));
    var s := St(2, 2, 1, Local(5));
    assert [s] == [s] + [];
    BodyCons(s, [], inp, env3, World(m2, []));
    StoreRuns(2, 2, 1, Local(5), inp, env3, World(m2, []));
    OneByte(m2, 200, 2);
  }

  lemma MovingErased()
    ensures Erase(Moving(true), 0) == Moving(false)
  {
    var f, g := Moving(true), Moving(false);
    assert f.blocks[1].body[1..] == [];
    KeptWhole(f.blocks[2].body);
    forall l | l in f.blocks
      ensures Erase(f, 0).blocks[l] == g.blocks[l]
    {
      assert l == 0 || l == 1 || l == 2;
    }
    assert Erase(f, 0).blocks == g.blocks;
  }

  lemma MovingEdges(a: Label, b: Label)
    ensures IsEdge(Moving(true), a, b) <==> (a == 0 && b == 1) || (a == 1 && (b == 1 || b == 2))
  {
  }

  lemma MovingOk()
    ensures AliasAlways(AllInputs(), Moving(true), Aliases(Local(5)))
    ensures AnalysesOk(AllInputs(), Moving(true), Aliases(Local(5)), Pdt()) && DistinctIds(Moving(true)) && MssaOk(Mssa())
    ensures exists s: Instr, p: Instr :: p.id == 0 && Rule(Moving(true), Mssa(), Aliases(Local(5)), Pdt(), s, p)
  {
    var f := Moving(true);
    forall inp: Input, k: nat
      ensures Run(f, inp, k).Stuck? ==> Sound(Run(f, inp, k).kind)
    {
      MovingRuns(true, inp);
      if k > 4 {
        RunExtends(f, inp, 4, k);
      } else {
        RunExtends(f, inp, k, 4);
      }
    }
    assert Closed(f) by {
      forall a, b | IsEdge(f, a, b)
        ensures b in f.blocks && b != f.entry
      {
        MovingEdges(a, b);
      }
    }
    AliasesSound(f, Local(5));
    forall q | HasPlace(f, q)
      ensures q == Place(1, 0) || q == Place(2, 0)
    {
    }
    assert PostDominates(f, Place(2, 0), Place(1, 0));
    var s, p := InstrAt(f, Place(2, 0)), InstrAt(f, Place(1, 0));
    assert InFn(f, s) && InFn(f, p);
    assert Rule(f, Mssa(), Aliases(Local(5)), Pdt(), s, p);
  }

  /** A pointer that takes a new value before the later store: both stores use the same pointer, but not the same address. */
  lemma MovedPointerBreaks()
    ensures RuleIsWrong(Moving(true), Local(5))
  {
    var f, inp := Moving(true), Empty();
    MovingOk();
    MovingErased();
    MovingRuns(true, inp);
    MovingRuns(false, inp);
    assert 100 in map[100 := 1][200 := 1][200 := 2] && 100 !in map[200 := 2];
    DifferentEnds(f, Erase(f, 0), inp, 4, Run(f, inp, 4));
  }

  // A load through another pointer

  function Alloc(): Instr {
    Instr(1, Call(0), Ptr, [])
  }

  function LdHeap(): Instr {
    Instr(3, Load(1), Int(8), [Local(1)])
  }

  function HeapBody(first: bool): seq<Instr> {
    [Alloc()] + (if first then [St(0, 1, 1, Arg(0))] else []) + [LdHeap(), St(2, 2, 1, Arg(0))]
  }

  /** Between two stores through a parameter, a byte is loaded through a pointer that a call returned. */
  function Heap(first: bool): Fn {
    Fn([Ptr], [], 0, map[0 := Block([], HeapBody(first), Ret(Local(3)))], 4, 1)
  }

  /** Instruction 3 goes through the call's result, the others through the parameter; single bytes behind the two are distinct. */
  function HeapAliases(): AAResults {
    (i: Id, b: Location) =>
      if b.addr == (if i == 3 then Local(1) else Arg(0)) then MustAlias
      else if b.size <= 1 && (b.addr == Local(1) || b.addr == Arg(0)) then NoAlias
      else MayAlias
  }

  function NewPointer(inp: Input): int {
    inp.call(0, [], World(inp.mem, [])).val
  }

  /** The inputs on which the call does not return the parameter. */
  function Fresh(): Inputs {
    (inp: Input) => NewPointer(inp) != inp.arg(0)
  }

  lemma HeapEnds(first: bool, inp: Input, n: nat)
    requires n > 0
    ensures !Run(Heap(first), inp, n).At?
  {
    var f := Heap(first);
    var c := Init(f, inp);
    BlockDefines(f.blocks[0], 0, None, inp, c.env, c.w);
    assert Run(f, inp, 0) == c;
    assert Run(f, inp, 1) == StepBlock(f, inp, c);
    RunExtends(f, inp, 1, n);
  }

  /** Once the call has returned, instruction 1 holds its result. */
  lemma HeapEnv(inp: Input, k: nat)
    requires 0 < k <= 4 && EnvAt(Heap(true), inp, 0, k).Some?
    ensures 1 in EnvAt(Heap(true), inp, 0, k).value && EnvAt(Heap(true), inp, 0, k).value[1] == NewPointer(inp)
  {
    var body, w := HeapBody(true), World(inp.mem, []);
    assert body[..k] == [Alloc()] + body[1..k];
    BodyCons(Alloc(), body[1..k], inp, map[], w);
    var s := ExecInstr(Alloc(), inp, map[], w);
    assert s.Ok? && s.env == map[1 := NewPointer(inp)];
    BodyKeepsValue(body[1..k], 1, inp, s.env, s.w);
    assert Run(Heap(true), inp, 0) == At(0, None, map[], w);
  }

  lemma HeapAliasesSound()
    ensures AliasAlways(Fresh(), Heap(true), HeapAliases())
  {
    var f := Heap(true);
    forall inp: Input, n: nat, k: nat, b: Location | Fresh()(inp) && EnvAt(f, inp, n, k).Some? && Next(f, inp, n, k).Some?
      ensures AliasHolds(HeapAliases(), Next(f, inp, n, k).value, b, inp, EnvAt(f, inp, n, k).value)
    {
      if n > 0 {
        HeapEnds(true, inp, n);
      } else if k > 0 {
        HeapEnv(inp, k);
      }
    }
  }

  lemma HeapUsesOk()
    ensures BodyUsesOk(Heap(true), 0) && TermUsesOk(Heap(true), 0)
  {
    var f := Heap(true);
    var body := f.blocks[0].body;
    assert body == [Alloc(), St(0, 1, 1, Arg(0)), LdHeap(), St(2, 2, 1, Arg(0))];
    assert body[0].id == 1 && body[2].id == 3;
    assert 1 in DefsUpTo(f.blocks[0], 2) && 3 in DefsUpTo(f.blocks[0], 4);
  }

  lemma HeapWellFormed()
    ensures WellFormed(Heap(true))
  {
    var f := Heap(true);
    HeapUsesOk();
    assert f.blocks[0].body == [Alloc(), St(0, 1, 1, Arg(0)), LdHeap(), St(2, 2, 1, Arg(0))];
    hide BodyUsesOk, TermUsesOk;
    forall a, b
      ensures !IsEdge(f, a, b)
    {
    }
  }

  /** The load stands where the first store is exposed, and is no obstacle. */
  lemma HeapBetween()
    ensures var f, p, s := Heap(true), Place(0, 1), Place(0, 3);
            && Overwrites(f, HeapAliases(), p, s) && OnlyAt(f, p) && PostDominates(f, s, p) && NoneBetween(f, HeapAliases(), p, s)
            && HasPlace(f, Place(0, 2)) && InstrAt(f, Place(0, 2)) == LdHeap() && OpenAt(p, s, Region(f, p, s), 0, 2)
            && InstrAt(f, p).id == 0
  {
    var f, p, s := Heap(true), Place(0, 1), Place(0, 3);
    var body := f.blocks[0].body;
    assert body == [Alloc(), St(0, 1, 1, Arg(0)), LdHeap(), St(2, 2, 1, Arg(0))];
    var r := Region(f, p, s);
    assert r == {};
    assert !OpenAt(p, s, r, 0, 0) && !OpenAt(p, s, r, 0, 1) && OpenAt(p, s, r, 0, 2) && OpenAt(p, s, r, 0, 3) && !OpenAt(p, s, r, 0, 4);
  }

  /** On the inputs the alias analysis is right about, the first store goes unnoticed although memory is read in between. */
  lemma OtherPointerRead()
    ensures WellFormed(Heap(true)) && AliasAlways(Fresh(), Heap(true), HeapAliases())
    ensures exists inp: Input :: Fresh()(inp)
    ensures var f, p, s := Heap(true), Place(0, 1), Place(0, 3);
            && Overwrites(f, HeapAliases(), p, s) && OnlyAt(f, p) && PostDominates(f, s, p) && NoneBetween(f, HeapAliases(), p, s)
            && HasPlace(f, Place(0, 2)) && InstrAt(f, Place(0, 2)) == LdHeap() && OpenAt(p, s, Region(f, p, s), 0, 2)
    ensures SameFor(Fresh(), Heap(true), Erase(Heap(true), 0))
  {
    HeapWellFormed();
    HeapAliasesSound();
    HeapBetween();
    var inp := Input(k => 1, k => 0, map[], (c, a, w) => Reply(0, map[]));
    assert Fresh()(inp);
    AlwaysRight(Fresh(), Heap(true), HeapAliases(), Place(0, 1), Place(0, 3));
    hide Heap, WellFormed, AliasAlways, AliasRight, Overwrites, OnlyAt, PostDominates, NoneBetween, SameFor, Fresh;
    DeadStoreSameBehaviour(Fresh(), Heap(true), HeapAliases(), Place(0, 1), Place(0, 3));
  }

  /** A call that returns the parameter itself. */
  function Echo(): Input {
    Input(k => 100, k => 0, map[], (c: nat, a: seq<int>, w: World) => Reply(100, w.mem))
  }

  function EchoEnv(first: bool): Env {
    map[1 := 100, 3 := if first then 1 else 0]
  }

  /** The two stores and the load, the call done. */
  lemma EchoRest(first: bool)
    ensures ExecBody((if first then [St(0, 1, 1, Arg(0))] else []) + [LdHeap(), St(2, 2, 1, Arg(0))],
                     Echo(), map[1 := 100], World(map[], [Event(0, [])]))
         == Ok(EchoEnv(first), World(map[100 := 2], [Event(0, [])]))
  {
    var tail := [LdHeap(), St(2, 2, 1, Arg(0))];
    var env: Env := map[1 := 100];
    var w1 := World(map[], [Event(0, [])]);
    if first {
      BodyCons(St(0, 1, 1, Arg(0)), tail, Echo(), env, w1);
      StoreRuns(0, 1, 1, Arg(0), Echo(), env, w1);
      OneByte(map[], 100, 1);
      EchoTail(true, World(map[100 := 1], [Event(0, [])]));
    } else {
      assert [] + tail == tail;
      EchoTail(false, w1);
    }
  }

  lemma EchoAlloc(w: World)
    requires w == World(map[], [])
    ensures ExecInstr(Alloc(), Echo(), map[], w) == Ok(map[1 := 100], World(map[], [Event(0, [])]))
  {
    assert w.hist + [Event(0, [])] == [Event(0, [])];
  }

  lemma EchoBody(first: bool, w: World)
    requires w == World(map[], [])
    ensures ExecBody(HeapBody(first), Echo(), map[], w) == Ok(EchoEnv(first), World(map[100 := 2], [Event(0, [])]))
  {
    var rest := (if first then [St(0, 1, 1, Arg(0))] else []) + [LdHeap(), St(2, 2, 1, Arg(0))];
    assert HeapBody(first) == [Alloc()] + rest;
    EchoAlloc(w);
    EchoRest(first);
    hide ExecInstr, ExecBody, Alloc, LdHeap, St, Echo;
    BodyCons(Alloc(), rest, Echo(), map[], w);
  }

  lemma EchoRuns(first: bool)
    ensures Run(Heap(first), Echo(), 1) == Done(if first then 1 else 0, World(map[100 := 2], [Event(0, [])]))
  {
    var f, inp, w := Heap(first), Echo(), World(map[], []);
    EchoBody(first, w);
    assert Run(f, inp, 0) == At(0, None, map[], w);
    assert f.blocks[0] == Block([], HeapBody(first), Ret(Local(3)));
    var env, w' := EchoEnv(first), World(map[100 := 2], [Event(0, [])]);
    assert Leave(Ret(Local(3)), 0, inp, env, w') == Done(if first then 1 else 0, w') by {
      hide ExecBody, HeapBody;
    }
    hide WriteBytes, ReadBytes, ExecInstr, ExecBody, HeapBody, EchoEnv, Leave;
    assert Run(f, inp, 1) == StepBlock(f, inp, Run(f, inp, 0));
  }

  lemma EchoTail(first: bool, w: World)
    requires w == World(if first then map[100 := 1] else map[], [Event(0, [])])
    ensures ExecBody([LdHeap(), St(2, 2, 1, Arg(0))], Echo(), map[1 := 100], w)
         == Ok(EchoEnv(first), World(map[100 := 2], [Event(0, [])]))
  {
    var inp := Echo();
    var env1: Env := map[1 := 100];
    var env2 := EchoEnv(first);
    var st := St(2, 2, 1, Arg(0));
    assert Vals([Local(1)], inp, env1) == [100];
    assert ReadBytes(w.mem, 101, 0) == 0;
    assert env1[3 := if first then 1 else 0] == env2;
    assert ExecInstr(LdHeap(), inp, env1, w) == Ok(env2, w);
    assert [LdHeap(), st] == [LdHeap()] + [st] && [st] == [st] + [];
    BodyCons(LdHeap(), [st], inp, env1, w);
    BodyCons(st, [], inp, env2, w);
    StoreRuns(2, 2, 1, Arg(0), inp, env2, w);
    OneByte(w.mem, 100, 2);
    assert w.mem[100 := 2] == map[100 := 2];
  }

  lemma EchoIsNotFresh()
    ensures !Fresh()(Echo())
  {
    assert Echo().arg(0) == 100;
    assert Echo().call(0, [], World(Echo().mem, [])).val == 100;
    assert NewPointer(Echo()) == 100;
  }

  lemma HeapErased()
    ensures Erase(Heap(true), 0) == Heap(false)
  {
    var body := HeapBody(true);
    var rest := [LdHeap(), St(2, 2, 1, Arg(0))];
    assert body == [Alloc()] + ([St(0, 1, 1, Arg(0))] + rest);
    KeptWhole([Alloc()]);
    KeptWhole(rest);
    assert ([St(0, 1, 1, Arg(0))] + rest)[1..] == rest;
    WithoutAppend([Alloc()], [St(0, 1, 1, Arg(0))] + rest, {0});
    assert Without(body, {0}) == HeapBody(false);
    assert Erase(Heap(true), 0).blocks == Heap(false).blocks;
  }

  /** On another input the pointers meet, and the erasure shows: the inputs an analysis is right about matter. */
  lemma OtherPointerMatters()
    ensures !Fresh()(Echo()) && !SameOn(Heap(true), Erase(Heap(true), 0), Echo())
  {
    EchoIsNotFresh();
    HeapErased();
    hide Heap, Erase, Run, SameOn;
    EchoRuns(true);
    EchoRuns(false);
    EndsElsewhere(Heap(true), Heap(false), Echo(), 1, Run(Heap(true), Echo(), 1));
  }
}
