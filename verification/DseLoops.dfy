/**
 Loops whose pointers move on every trip and in which the rule is right: one where a byte next to the stored one is read
 between the two stores, and one where the two addresses are equal only on the trips on which the first store is reached.
 */
module DseLoops {
  import Bits
  import opened Ir
  import opened Semantics
  import opened Ssa
  import opened Memory
  import opened Dse
  import opened DseStatic
  import opened DsePass
  import opened DseExamples

  /** Instruction 4 is the pointer of the trip. */
  function Ld4(id: Id): Instr {
    Instr(id, Load(1), Int(8), [Local(4)])
  }

  function NextByte(id: Id): Instr {
    Instr(id, Add, Ptr, [Local(4), Lit(1)])
  }

  /** The address one byte on, in 64 bits. */
  function After(x: int): int {
    Bits.Wrap(Bits.Wrap(x, 64) + Bits.Wrap(1, 64), 64)
  }

  lemma AfterMoves(x: int)
    ensures After(x) != x
  {
    hide Bits.Wrap;
    Bits.WrapParity(x, 64);
    Bits.WrapParity(1, 64);
    Bits.WrapParity(Bits.Wrap(x, 64) + Bits.Wrap(1, 64), 64);
  }

  lemma NextRuns(id: Id, inp: Input, env: Env, w: World)
    requires 4 in env
    ensures ExecInstr(NextByte(id), inp, env, w) == Ok(env[id := After(env[4])], w)
  {
    hide Bits.Wrap;
    assert Vals(NextByte(id).args, inp, env) == [env[4], 1];
  }

  lemma LoadRuns(id: Id, inp: Input, env: Env, w: World)
    requires 4 in env
    ensures var s := ExecInstr(Ld4(id), inp, env, w); s.Ok? && s.w == w && s.env.Keys == env.Keys + {id}
    ensures var s := ExecInstr(Ld4(id), inp, env, w); forall i :: i in env && i != id ==> s.env[i] == env[i]
  {
  }

  // A byte read next to the one stored

  function AdvancingBody(): seq<Instr> {
    [Ld4(5), NextByte(6), St(0, 1, 1, Local(6)), Ld4(7), St(2, 2, 1, Local(6))]
  }

  /** Each trip reads the byte at the pointer, stores to the next one twice, reads in between, and moves on. */
  function Advancing(): Fn {
    Fn([Int(1)], [], 0,
       map[0 := Block([], [], Br(1)),
           1 := Block([Phi(4, Ptr, [Edge(0, Lit(100)), Edge(1, Local(6))])], AdvancingBody(), CondBr(Arg(0), 1, 2)),
           2 := Block([], [], Ret(Lit(0)))],
       8, 3)
  }

  /** The read between the stores does not meet them; of the read before them nothing is known. */
  function AdvancingAliases(): AAResults {
    (i: Id, b: Location) =>
      if b.addr == Local(6) && (i == 0 || i == 2) then MustAlias
      else if b == Location(Local(6), 1) && i == 7 then NoAlias
      else MayAlias
  }

  lemma AdvancingEdges(a: Label, b: Label)
    ensures IsEdge(Advancing(), a, b) <==> (a == 0 && b == 1) || (a == 1 && (b == 1 || b == 2))
  {
  }

  lemma AdvancingUsesOk(l: Label)
    requires l in Advancing().blocks
    ensures BodyUsesOk(Advancing(), l) && TermUsesOk(Advancing(), l)
  {
    var b := Advancing().blocks[l];
    if l == 1 {
      assert b.phis[0].id == 4;
      assert b.body[1].id == 6;
      assert 6 in DefsUpTo(b, 2) && 6 in DefsUpTo(b, 4);
    }
  }

  lemma AdvancingPhisOk(l: Label)
    requires l in Advancing().blocks
    ensures PhiUsesOk(Advancing(), l)
  {
    var f := Advancing();
    assert f.blocks[1].body[1].id == 6;
    assert DefinesIn(f, 1, 6) && Dominates(f, 1, 1);
    assert AvailOut(f, 1, 6);
  }

  lemma AdvancingFrame()
    ensures Closed(Advancing()) && PhisComplete(Advancing())
  {
    var f := Advancing();
    forall a, b
      ensures IsEdge(f, a, b) <==> (a == 0 && b == 1) || (a == 1 && (b == 1 || b == 2))
    {
      AdvancingEdges(a, b);
    }
    var edges := f.blocks[1].phis[0].edges;
    assert edges[0].from == 0 && edges[1].from == 1;
  }

  /** The place of the definition, or void instruction, with an id. */
  function AdvancingSite(i: Id): Site {
    if i == 4 then PhiSite(1, 0)
    else InstrSite(1, if i == 5 then 0 else if i == 6 then 1 else if i == 0 then 2 else if i == 7 then 3 else 4)
  }

  lemma AdvancingNames()
    ensures FreshNames(Advancing()) && Unique(Advancing())
  {
    var f := Advancing();
    forall s | HasSite(f, s)
      ensures s == AdvancingSite(SiteId(f, s)) && SiteId(f, s) < 8
    {
    }
  }

  lemma AdvancingWellFormed()
    ensures WellFormed(Advancing())
  {
    var f := Advancing();
    AdvancingFrame();
    AdvancingNames();
    hide BodyUsesOk, TermUsesOk, PhiUsesOk, Closed, PhisComplete, FreshNames, Unique, Advancing;
    forall l | l in f.blocks
      ensures BodyUsesOk(f, l) && TermUsesOk(f, l) && PhiUsesOk(f, l)
    {
      AdvancingUsesOk(l);
      AdvancingPhisOk(l);
    }
  }

  /** At the read between the stores the two pointers are those of the trip. */
  lemma BetweenStores(inp: Input, n: nat)
    requires Run(Advancing(), inp, n).At? && Run(Advancing(), inp, n).lbl == 1 && EnvAt(Advancing(), inp, n, 3).Some?
    ensures var env := EnvAt(Advancing(), inp, n, 3).value; 4 in env && 6 in env && env[6] == After(env[4])
  {
    var f := Advancing();
    var c, b := Run(f, inp, n), f.blocks[1];
    PhisDefine(b.phis, c.prev, inp, c.env, c.env, c.w);
    assert b.phis[0].id == 4;
    var s := ExecPhis(b.phis, c.prev, inp, c.env, c.env, c.w);
    var st := St(0, 1, 1, Local(6));
    assert b.body[..3] == [Ld4(5)] + ([NextByte(6)] + ([st] + []));
    hide ExecPhis, ExecBody, ExecInstr, After, WriteBytes;
    LoadRuns(5, inp, s.env, s.w);
    BodyCons(Ld4(5), [NextByte(6)] + ([st] + []), inp, s.env, s.w);
    var t := ExecInstr(Ld4(5), inp, s.env, s.w);
    NextRuns(6, inp, t.env, t.w);
    BodyCons(NextByte(6), [st] + [], inp, t.env, t.w);
    var u := ExecInstr(NextByte(6), inp, t.env, t.w);
    StoreRuns(0, 1, 1, Local(6), inp, u.env, u.w);
    BodyCons(st, [], inp, u.env, u.w);
    EmptyRuns(inp, u.env, ExecInstr(st, inp, u.env, u.w).w);
  }

  lemma EmptyRuns(inp: Input, env: Env, w: World)
    ensures ExecBody([], inp, env, w) == Ok(env, w)
  {
  }

  lemma AdvancingHolds(i: Instr, b: Location, inp: Input, env: Env)
    requires i in AdvancingBody() && (i.id == 7 ==> 4 in env && 6 in env && env[6] != env[4])
    ensures AliasHolds(AdvancingAliases(), i, b, inp, env)
  {
  }

  lemma AdvancingAliasesRight()
    ensures AliasAlways(AllInputs(), Advancing(), AdvancingAliases())
  {
    var f := Advancing();
    forall inp: Input, n: nat, k: nat, b: Location | EnvAt(f, inp, n, k).Some? && Next(f, inp, n, k).Some?
      ensures AliasHolds(AdvancingAliases(), Next(f, inp, n, k).value, b, inp, EnvAt(f, inp, n, k).value)
    {
      var l := Run(f, inp, n).lbl;
      assert l == 1 && Next(f, inp, n, k).value == AdvancingBody()[k];
      hide After, Run, EnvAt, AliasHolds, AdvancingAliases, Next;
      if k == 3 {
        BetweenStores(inp, n);
        AfterMoves(EnvAt(f, inp, n, 3).value[4]);
      }
      AdvancingHolds(AdvancingBody()[k], b, inp, EnvAt(f, inp, n, k).value);
    }
  }

  /** The read stands where the first store is exposed. */
  lemma AdvancingBetween()
    ensures var f, p, s := Advancing(), Place(1, 2), Place(1, 4);
            && Overwrites(f, AdvancingAliases(), p, s) && OnlyAt(f, p) && PostDominates(f, s, p) && NoneBetween(f, AdvancingAliases(), p, s)
            && InstrAt(f, p).id == 0 && InstrAt(f, Place(1, 3)) == Ld4(7) && OpenAt(p, s, Region(f, p, s), 1, 3)
  {
    var f, p, s := Advancing(), Place(1, 2), Place(1, 4);
    var body := f.blocks[1].body;
    assert body == AdvancingBody();
    var r := Region(f, p, s);
    assert r == {};
    forall l
      ensures !OpenAt(p, s, r, l, 0)
    {
    }
    assert !OpenAt(p, s, r, 1, 1);
    assert !OpenAt(p, s, r, 1, 2);
    assert OpenAt(p, s, r, 1, 3);
    assert OpenAt(p, s, r, 1, 4);
    assert !OpenAt(p, s, r, 1, 5);
  }

  lemma AdvancingRule()
    ensures Rule(Advancing(), Mssa(), AdvancingAliases(), Pdt(), St(2, 2, 1, Local(6)), St(0, 1, 1, Local(6)))
  {
    var body := Advancing().blocks[1].body;
    assert body == AdvancingBody();
    assert body[2] == St(0, 1, 1, Local(6)) && body[4] == St(2, 2, 1, Local(6));
  }

  /** One trip; with a nonzero argument another follows. */
  lemma Trip(inp: Input, c: Config)
    requires c.At? && c.lbl == 1 && (c.prev == Some(0) || (c.prev == Some(1) && 6 in c.env))
    ensures var d := StepBlock(Advancing(), inp, c);
            d.At? && d.prev == Some(1) && 6 in d.env && d.lbl == if inp.arg(0) != 0 then 1 else 2
  {
    var f := Advancing();
    var b := f.blocks[1];
    assert b.phis[0].edges[1..] == [Edge(1, Local(6))];
    assert b.phis[1..] == [];
    PhisDefine(b.phis, c.prev, inp, c.env, c.env, c.w);
    assert b.phis[0].id == 4;
    var s := ExecPhis(b.phis, c.prev, inp, c.env, c.env, c.w);
    assert s.Ok?;
    BodyGoes(inp, s.env, s.w);
  }

  lemma BodyGoes(inp: Input, env: Env, w: World)
    requires 4 in env
    ensures var s := ExecBody(AdvancingBody(), inp, env, w); s.Ok? && 6 in s.env
  {
    var st, su := St(0, 1, 1, Local(6)), St(2, 2, 1, Local(6));
    var rest4: seq<Instr> := [su] + [];
    var rest3 := [Ld4(7)] + rest4;
    var rest2 := [st] + rest3;
    var rest1 := [NextByte(6)] + rest2;
    assert AdvancingBody() == [Ld4(5)] + rest1;
    hide ExecBody, ExecInstr, After, WriteBytes, AdvancingBody;
    LoadRuns(5, inp, env, w);
    BodyCons(Ld4(5), rest1, inp, env, w);
    var t := ExecInstr(Ld4(5), inp, env, w);
    NextRuns(6, inp, t.env, t.w);
    BodyCons(NextByte(6), rest2, inp, t.env, t.w);
    var u := ExecInstr(NextByte(6), inp, t.env, t.w);
    StoreRuns(0, 1, 1, Local(6), inp, u.env, u.w);
    BodyCons(st, rest3, inp, u.env, u.w);
    var v := ExecInstr(st, inp, u.env, u.w);
    LoadRuns(7, inp, v.env, v.w);
    BodyCons(Ld4(7), rest4, inp, v.env, v.w);
    var x := ExecInstr(Ld4(7), inp, v.env, v.w);
    StoreRuns(2, 2, 1, Local(6), inp, x.env, x.w);
    BodyCons(su, [], inp, x.env, x.w);
    EmptyRuns(inp, x.env, ExecInstr(su, inp, x.env, x.w).w);
  }

  lemma {:induction false} GoesRound(inp: Input, n: nat)
    requires inp.arg(0) != 0 && n > 0
    ensures var c := Run(Advancing(), inp, n); c.At? && c.lbl == 1 && (c.prev == Some(0) || (c.prev == Some(1) && 6 in c.env))
  {
    if n > 1 {
      GoesRound(inp, n - 1);
      RunNext(Advancing(), inp, n - 1);
      hide Run, Advancing, StepBlock;
      Trip(inp, Run(Advancing(), inp, n - 1));
    } else {
      assert Run(Advancing(), inp, 0) == Init(Advancing(), inp);
    }
  }

  /** All conditions are met on every input, among them those that go round the loop for ever, and the first store can go. */
  lemma AdvancingPointer()
    ensures WellFormed(Advancing()) && AliasAlways(AllInputs(), Advancing(), AdvancingAliases())
    ensures forall inp: Input, n: nat :: inp.arg(0) != 0 && n > 0 ==> Run(Advancing(), inp, n).At? && Run(Advancing(), inp, n).lbl == 1
    ensures var f, p, s := Advancing(), Place(1, 2), Place(1, 4);
            && Overwrites(f, AdvancingAliases(), p, s) && OnlyAt(f, p) && PostDominates(f, s, p) && NoneBetween(f, AdvancingAliases(), p, s)
            && InstrAt(f, Place(1, 3)) == Ld4(7) && OpenAt(p, s, Region(f, p, s), 1, 3)
    ensures Rule(Advancing(), Mssa(), AdvancingAliases(), Pdt(), St(2, 2, 1, Local(6)), St(0, 1, 1, Local(6)))
    ensures SameFor(AllInputs(), Advancing(), Erase(Advancing(), 0))
  {
    AdvancingWellFormed();
    AdvancingAliasesRight();
    AdvancingBetween();
    AdvancingRule();
    AlwaysRight(AllInputs(), Advancing(), AdvancingAliases(), Place(1, 2), Place(1, 4));
    hide Advancing, WellFormed, AliasAlways, AliasRight, Overwrites, OnlyAt, PostDominates, NoneBetween, SameFor, Run, Rule;
    DeadStoreSameBehaviour(AllInputs(), Advancing(), AdvancingAliases(), Place(1, 2), Place(1, 4));
    forall inp: Input, n: nat | inp.arg(0) != 0 && n > 0
      ensures Run(Advancing(), inp, n).At? && Run(Advancing(), inp, n).lbl == 1
    {
      GoesRound(inp, n);
    }
  }

  // Addresses that are equal only on the trips on which the first store is reached

  function Asks(): Instr {
    Instr(1, Call(0), Int(1), [])
  }

  /** Each trip asks whether to store to the byte after the pointer, then stores to it for sure, and moves on. */
  function Sometimes(): Fn {
    Fn([Int(1)], [], 0,
       map[0 := Block([], [], Br(1)),
           1 := Block([Phi(4, Ptr, [Edge(0, Lit(100)), Edge(3, Local(8))])], [Asks()], CondBr(Local(1), 2, 3)),
           2 := Block([], [NextByte(6), St(0, 1, 1, Local(6))], Br(3)),
           3 := Block([], [NextByte(8), St(2, 2, 1, Local(8))], CondBr(Arg(0), 1, 4)),
           4 := Block([], [], Ret(Lit(0)))],
       9, 5)
  }

  /** The later store meets the earlier one. */
  function SometimesAliases(): AAResults {
    (i: Id, b: Location) => if i == 2 && b.addr == Local(6) then MustAlias else MayAlias
  }

  lemma SometimesEdges(a: Label, b: Label)
    ensures IsEdge(Sometimes(), a, b) <==>
              (a == 0 && b == 1) || (a == 1 && (b == 2 || b == 3)) || (a == 2 && b == 3) || (a == 3 && (b == 1 || b == 4))
  {
  }

  lemma SometimesFrame()
    ensures Closed(Sometimes()) && PhisComplete(Sometimes())
  {
    var f := Sometimes();
    forall a, b
      ensures IsEdge(f, a, b) <==>
                (a == 0 && b == 1) || (a == 1 && (b == 2 || b == 3)) || (a == 2 && b == 3) || (a == 3 && (b == 1 || b == 4))
    {
      SometimesEdges(a, b);
    }
    var edges := f.blocks[1].phis[0].edges;
    assert edges[0].from == 0 && edges[1].from == 3;
  }

  function SometimesSite(i: Id): Site {
    if i == 4 then PhiSite(1, 0)
    else if i == 1 then InstrSite(1, 0)
    else if i == 6 then InstrSite(2, 0)
    else if i == 0 then InstrSite(2, 1)
    else InstrSite(3, if i == 8 then 0 else 1)
  }

  lemma SometimesNames()
    ensures FreshNames(Sometimes()) && Unique(Sometimes())
  {
    var f := Sometimes();
    forall s | HasSite(f, s)
      ensures s == SometimesSite(SiteId(f, s)) && SiteId(f, s) < 9
    {
    }
  }

  /** The header comes before both blocks with stores. */
  lemma HeaderFirst(l: Label)
    requires l == 2 || l == 3
    ensures Dominates(Sometimes(), 1, l)
  {
    var f := Sometimes();
    forall p | Path(f, p) && Last(p) == l
      ensures 1 in p
    {
      var n := |p|;
      assert n > 1 && IsEdge(f, p[n - 2], p[n - 1]);
      SometimesEdges(p[n - 2], p[n - 1]);
      if p[n - 2] == 2 {
        assert n > 2 && IsEdge(f, p[n - 3], p[n - 2]);
        SometimesEdges(p[n - 3], p[n - 2]);
        assert p[n - 3] == 1;
      } else {
        assert p[n - 2] == 1;
      }
    }
  }

  lemma SometimesUsesOk(l: Label)
    requires l in Sometimes().blocks
    ensures BodyUsesOk(Sometimes(), l) && TermUsesOk(Sometimes(), l)
  {
    var f := Sometimes();
    var b := f.blocks[l];
    if l == 1 {
      assert b.body[0].id == 1;
      assert 1 in DefsUpTo(b, 1);
    } else if l == 2 || l == 3 {
      HeaderFirst(l);
      assert f.blocks[1].phis[0].id == 4;
      assert DefinesIn(f, 1, 4) && AvailIn(f, l, 4);
      assert b.body[0] == NextByte(if l == 2 then 6 else 8);
      assert b.body[0].id in DefsUpTo(b, 1);
    }
  }

  lemma SometimesPhisOk(l: Label)
    requires l in Sometimes().blocks
    ensures PhiUsesOk(Sometimes(), l)
  {
    var f := Sometimes();
    assert f.blocks[3].body[0].id == 8;
    assert DefinesIn(f, 3, 8) && Dominates(f, 3, 3);
    assert AvailOut(f, 3, 8);
  }

  lemma SometimesWellFormed()
    ensures WellFormed(Sometimes())
  {
    var f := Sometimes();
    SometimesFrame();
    SometimesNames();
    hide BodyUsesOk, TermUsesOk, PhiUsesOk, Closed, PhisComplete, FreshNames, Unique, Sometimes;
    forall l | l in f.blocks
      ensures BodyUsesOk(f, l) && TermUsesOk(f, l) && PhiUsesOk(f, l)
    {
      SometimesUsesOk(l);
      SometimesPhisOk(l);
    }
  }

  // The paths from the one store to the other

  lemma OutOfSecond(path: seq<Label>)
    requires PathFrom(Sometimes(), path, 2) && |path| >= 2
    ensures path[1] == 3 && (|path| > 2 ==> PassesAgain(path[..|path| - 1], 3))
  {
    assert IsEdge(Sometimes(), path[0], path[1]);
    SometimesEdges(path[0], path[1]);
    if |path| > 2 {
      assert path[..|path| - 1][1] == 3;
    }
  }

  lemma SometimesPostDominates()
    ensures PostDominates(Sometimes(), Place(3, 1), Place(2, 1))
  {
    var f := Sometimes();
    forall path | PathFrom(f, path, 2) && Last(path) in f.blocks && Succs(f.blocks[Last(path)].term) == {}
      ensures PassesAgain(path, 3)
    {
      assert |path| >= 2;
      OutOfSecond(path);
    }
  }

  lemma SometimesRegion(l: Label)
    ensures l in Region(Sometimes(), Place(2, 1), Place(3, 1)) ==> l == 3
  {
    var f, p, s := Sometimes(), Place(2, 1), Place(3, 1);
    if path :| Escapes(f, p, s, path) && Last(path) == l {
      OutOfSecond(path);
    }
  }

  lemma SometimesOpen(r: set<Label>, l: Label, k: nat)
    requires l in Sometimes().blocks && k <= |Sometimes().blocks[l].body| && forall x :: x in r ==> x == 3
    ensures OpenAt(Place(2, 1), Place(3, 1), r, l, k) ==> (l == 2 && k == 2) || (l == 3 && k < 2)
  {
    assert OpenAt(Place(2, 1), Place(3, 1), r, l, 0) ==> l == 3;
    assert k >= 1 && OpenAt(Place(2, 1), Place(3, 1), r, l, 1) ==> l == 3;
  }

  lemma SometimesBetween()
    ensures var f, p, s := Sometimes(), Place(2, 1), Place(3, 1);
            && Overwrites(f, SometimesAliases(), p, s) && OnlyAt(f, p) && NoneBetween(f, SometimesAliases(), p, s)
            && InstrAt(f, p).id == 0
  {
    var f, p, s := Sometimes(), Place(2, 1), Place(3, 1);
    var r := Region(f, p, s);
    forall l | l in r
      ensures l == 3
    {
      SometimesRegion(l);
    }
    forall l, k | l in f.blocks && 0 <= k <= |f.blocks[l].body| && OpenAt(p, s, r, l, k)
      ensures (l == 2 && k == 2) || (l == 3 && k < 2)
    {
      SometimesOpen(r, l, k);
    }
    forall q | HasPlace(f, q) && q != p && q != s && OpenAt(p, s, r, q.l, q.k)
      ensures QuietInstr(SometimesAliases(), StoreLocation(InstrAt(f, p)), InstrAt(f, q))
    {
      assert q == Place(3, 0);
    }
  }

  // The answer where it matters

  lemma SecondRuns(inp: Input, env: Env, w: World)
    requires 4 in env
    ensures var s := ExecBody([NextByte(6), St(0, 1, 1, Local(6))], inp, env, w); s.Ok? && s.env == env[6 := After(env[4])]
  {
    var st := St(0, 1, 1, Local(6));
    assert [NextByte(6), st] == [NextByte(6)] + ([st] + []);
    hide ExecBody, ExecInstr, After, WriteBytes;
    NextRuns(6, inp, env, w);
    BodyCons(NextByte(6), [st] + [], inp, env, w);
    var env1 := env[6 := After(env[4])];
    StoreRuns(0, 1, 1, Local(6), inp, env1, w);
    BodyCons(st, [], inp, env1, w);
    EmptyRuns(inp, env1, ExecInstr(st, inp, env1, w).w);
  }

  lemma SecondStep(inp: Input, c: Config)
    requires c.At? && c.lbl == 2 && 4 in c.env
    ensures var d := StepBlock(Sometimes(), inp, c);
            d.At? && d.lbl == 3 && d.prev == Some(2) && d.env == c.env[6 := After(c.env[4])] && c.w.hist <= d.w.hist
  {
    hide After, WriteBytes;
    assert ExecPhis([], c.prev, inp, c.env, c.env, c.w) == Ok(c.env, c.w);
    SecondRuns(inp, c.env, c.w);
    StepExtends(Sometimes(), inp, c);
  }

  lemma PointerHere(inp: Input, n: nat)
    requires Run(Sometimes(), inp, n).At? && Run(Sometimes(), inp, n).lbl == 2
    ensures 4 in Run(Sometimes(), inp, n).env
  {
    var f := Sometimes();
    SometimesFrame();
    HeaderFirst(2);
    assert f.blocks[1].phis[0].id == 4;
    assert DefinesIn(f, 1, 4);
    assert AvailIn(f, 2, 4);
    hide Run, Closed, PhisComplete, AvailIn;
    AvailableAtRun(f, inp, n, 4);
  }

  /** The block with the first store leads to that with the second, and leaves the address it stored to. */
  lemma AfterSecond(inp: Input, n: nat)
    requires Run(Sometimes(), inp, n).At? && Run(Sometimes(), inp, n).lbl == 2
    ensures var c := Run(Sometimes(), inp, n + 1); c.At? && c.lbl == 3 && 4 in c.env && 6 in c.env && c.env[6] == After(c.env[4])
  {
    PointerHere(inp, n);
    RunNext(Sometimes(), inp, n);
    hide Run, StepBlock, Sometimes, After;
    SecondStep(inp, Run(Sometimes(), inp, n));
  }

  /** The first store is still exposed only right after its block. */
  lemma {:induction false} EnteredAfterSecond(inp: Input, n: nat)
    ensures EnteredOpen(Sometimes(), Place(2, 1), Place(3, 1), inp, n) ==>
              n > 0 && Run(Sometimes(), inp, n - 1).At? && Run(Sometimes(), inp, n - 1).lbl == 2
  {
    if n > 0 {
      EnteredAfterSecond(inp, n - 1);
      EnteredStep(inp, n - 1);
    }
  }

  lemma EnteredStep(inp: Input, n: nat)
    requires EnteredOpen(Sometimes(), Place(2, 1), Place(3, 1), inp, n) ==>
               n > 0 && Run(Sometimes(), inp, n - 1).At? && Run(Sometimes(), inp, n - 1).lbl == 2
    ensures EnteredOpen(Sometimes(), Place(2, 1), Place(3, 1), inp, n + 1) ==> Run(Sometimes(), inp, n).At? && Run(Sometimes(), inp, n).lbl == 2
  {
    var f, p, s := Sometimes(), Place(2, 1), Place(3, 1);
    var c := Run(f, inp, n);
    EnteredNext(f, p, s, inp, n);
    if c.At? && c.lbl in f.blocks {
      var entered := EnteredOpen(f, p, s, inp, n);
      if entered {
        AfterSecond(inp, n - 1);
      }
      hide Run, EnteredOpen;
      SometimesOpen(if entered then {c.lbl} else {}, c.lbl, |f.blocks[c.lbl].body|);
    }
  }

  lemma ThirdAt(inp: Input, n: nat)
    requires var c := Run(Sometimes(), inp, n); c.At? && c.lbl == 3 && 4 in c.env
    ensures var c := Run(Sometimes(), inp, n); EnvAt(Sometimes(), inp, n, 1) == Some(c.env[8 := After(c.env[4])])
  {
    var c, b := Run(Sometimes(), inp, n), Sometimes().blocks[3];
    assert b.body[..1] == [NextByte(8)] + [];
    assert ExecPhis([], c.prev, inp, c.env, c.env, c.w) == Ok(c.env, c.w);
    hide ExecBody, ExecInstr, After;
    NextRuns(8, inp, c.env, c.w);
    BodyCons(NextByte(8), [], inp, c.env, c.w);
    EmptyRuns(inp, c.env[8 := After(c.env[4])], c.w);
  }

  lemma SometimesRight()
    ensures StoreAt(Sometimes(), Place(2, 1)) && AliasRight(AllInputs(), Sometimes(), SometimesAliases(), Place(2, 1), Place(3, 1))
  {
    var f, p, s := Sometimes(), Place(2, 1), Place(3, 1);
    assert InstrAt(f, p) == St(0, 1, 1, Local(6));
    forall inp: Input, n: nat, k: nat | EnvAt(f, inp, n, k).Some? && Next(f, inp, n, k).Some? && OpenNow(f, p, s, inp, n, k)
      ensures AliasHolds(SometimesAliases(), Next(f, inp, n, k).value, StoreLocation(InstrAt(f, p)), inp, EnvAt(f, inp, n, k).value)
    {
      if Next(f, inp, n, k).value.id == 2 {
        SecondStore(inp, n, k);
      }
    }
  }

  lemma SecondStore(inp: Input, n: nat, k: nat)
    requires Next(Sometimes(), inp, n, k).Some? && Next(Sometimes(), inp, n, k).value.id == 2
    requires OpenNow(Sometimes(), Place(2, 1), Place(3, 1), inp, n, k)
    ensures Next(Sometimes(), inp, n, k).value == St(2, 2, 1, Local(8))
    ensures var env := EnvAt(Sometimes(), inp, n, k); env.Some? && 6 in env.value && 8 in env.value && env.value[6] == env.value[8]
  {
    var f, p, s := Sometimes(), Place(2, 1), Place(3, 1);
    var c := Run(f, inp, n);
    assert c.lbl == 3 && k == 1;
    assert OpenAt(p, s, if EnteredOpen(f, p, s, inp, n) then {3} else {}, 3, 0);
    EnteredAfterSecond(inp, n);
    AfterSecond(inp, n - 1);
    ThirdAt(inp, n);
  }

  /** The addresses are equal whenever the answer is relied on, and so the first store can go on every input. */
  lemma SometimesStored()
    ensures var f, p, s := Sometimes(), Place(2, 1), Place(3, 1);
            && WellFormed(f) && Overwrites(f, SometimesAliases(), p, s) && OnlyAt(f, p) && PostDominates(f, s, p)
            && NoneBetween(f, SometimesAliases(), p, s) && AliasRight(AllInputs(), f, SometimesAliases(), p, s)
    ensures SameFor(AllInputs(), Sometimes(), Erase(Sometimes(), 0))
  {
    SometimesWellFormed();
    SometimesBetween();
    SometimesPostDominates();
    SometimesRight();
    hide Sometimes, WellFormed, AliasRight, Overwrites, OnlyAt, PostDominates, NoneBetween, SameFor;
    DeadStoreSameBehaviour(AllInputs(), Sometimes(), SometimesAliases(), Place(2, 1), Place(3, 1));
  }

  /** The first question is answered yes, the others no. */
  function OnceStored(): Input {
    Input(k => 1, k => 0, map[], (c: nat, a: seq<int>, w: World) => Reply(if w.hist == [] then 1 else 0, w.mem))
  }

  lemma FirstStep(c: Config)
    requires c.At? && c.lbl == 1 && (c.prev == Some(0) || (c.prev == Some(3) && 8 in c.env))
    ensures var x, y := if c.prev == Some(0) then 100 else c.env[8], if c.w.hist == [] then 1 else 0;
            StepBlock(Sometimes(), OnceStored(), c)
              == At(if y == 1 then 2 else 3, Some(1), c.env[4 := x][1 := y], World(c.w.mem, c.w.hist + [Event(0, [])]))
  {
    var b, inp := Sometimes().blocks[1], OnceStored();
    var x := if c.prev == Some(0) then 100 else c.env[8];
    assert b.phis[0].edges[1..] == [Edge(3, Local(8))];
    assert b.phis[1..] == [];
    assert ExecPhis(b.phis, c.prev, inp, c.env, c.env, c.w) == Ok(c.env[4 := x], c.w);
    assert [Asks()] == [Asks()] + [];
    BodyCons(Asks(), [], inp, c.env[4 := x], c.w);
  }

  lemma ThirdStep(inp: Input, c: Config)
    requires c.At? && c.lbl == 3 && 4 in c.env && inp.arg(0) == 1
    ensures var d := StepBlock(Sometimes(), inp, c);
            d.At? && d.lbl == 1 && d.prev == Some(3) && d.env == c.env[8 := After(c.env[4])] && c.w.hist <= d.w.hist
  {
    hide After, WriteBytes;
    var su := St(2, 2, 1, Local(8));
    assert ExecPhis([], c.prev, inp, c.env, c.env, c.w) == Ok(c.env, c.w);
    assert [NextByte(8), su] == [NextByte(8)] + ([su] + []);
    NextRuns(8, inp, c.env, c.w);
    BodyCons(NextByte(8), [su] + [], inp, c.env, c.w);
    var env1 := c.env[8 := After(c.env[4])];
    StoreRuns(2, 2, 1, Local(8), inp, env1, c.w);
    BodyCons(su, [], inp, env1, c.w);
    StepExtends(Sometimes(), inp, c);
  }

  /** On the second trip the first store is not reached, and its pointer is still that of the first trip. */
  lemma SecondTrip()
    ensures var c := Run(Sometimes(), OnceStored(), 5);
            c.At? && c.lbl == 3 && 4 in c.env && 6 in c.env && c.env[6] == c.env[4]
  {
    var f, inp := Sometimes(), OnceStored();
    assert Run(f, inp, 0) == Init(f, inp);
    assert Run(f, inp, 1) == At(1, Some(0), map[], World(map[], []));
    FirstStep(Run(f, inp, 1));
    RunNext(f, inp, 1);
    assert inp.arg(0) == 1;
    hide StepBlock, Run, After, OnceStored;
    SecondStep(inp, Run(f, inp, 2));
    RunNext(f, inp, 2);
    ThirdStep(inp, Run(f, inp, 3));
    RunNext(f, inp, 3);
    FirstStep(Run(f, inp, 4));
    RunNext(f, inp, 4);
  }

  lemma MustBeEqual(inp: Input, env: Env)
    requires 6 in env && 8 in env && env[6] != env[8]
    ensures !AliasHolds(SometimesAliases(), St(2, 2, 1, Local(8)), Location(Local(6), 1), inp, env)
  {
  }

  /** So the answer is not right at every access: it only has to be from the one store to the other. */
  lemma StaleAddress()
    ensures !AliasAlways(AllInputs(), Sometimes(), SometimesAliases())
  {
    var f, inp := Sometimes(), OnceStored();
    SecondTrip();
    ThirdAt(inp, 5);
    assert Next(f, inp, 5, 1) == Some(St(2, 2, 1, Local(8)));
    hide Run, EnvAt, After, AliasHolds, SometimesAliases, Next, Sometimes, OnceStored;
    var env := EnvAt(f, inp, 5, 1).value;
    AfterMoves(env[4]);
    MustBeEqual(inp, env);
  }
}
