/** The function of test/MergeBB_switch_merged.ll: blocks entered by a switch are merged, and just so. */
module MergeSwitchExample {
  import opened Ir
  import opened Ssa
  import opened Merge
  import opened MergeDelete
  import opened MergeSpec
  import opened MergeBBPass

  function Jump(): Block {
    Block([], [], Br(5))
  }

  function Join(edges: seq<Edge>): Block {
    Block([Phi(6, Int(32), edges)], [], Ret(Local(6)))
  }

  /** A switch to three empty blocks; 2 and 4 bring the same value to their common successor. */
  function Main(): Fn {
    Fn([Int(32)], [], 0,
       map[0 := Block([], [], Switch(Arg(0), 4, [Case(1, 2), Case(2, 3)])),
           2 := Jump(), 3 := Jump(), 4 := Jump(),
           5 := Join([Edge(4, Lit(10)), Edge(3, Lit(20)), Edge(2, Lit(10))])],
       7, 6)
  }

  /** With block 2 merged into block 4. */
  function Merged(): Fn {
    Fn([Int(32)], [], 0,
       map[0 := Block([], [], Switch(Arg(0), 4, [Case(1, 4), Case(2, 3)])),
           3 := Jump(), 4 := Jump(),
           5 := Join([Edge(4, Lit(10)), Edge(3, Lit(20))])],
       7, 6)
  }

  function InOrder(): seq<Label> {
    [0, 2, 3, 4, 5]
  }

  function TheMerge(): seq<MergeStep> {
    [MergeStep(2, 4)]
  }

  // What can stand in for what

  /** Main, or Main with block 2 merged into block 4 and not yet deleted. */
  ghost predicate OneOfTwo(f: Fn) {
    f == Main() || f == Redirect(Main(), 2, 4)
  }

  lemma MainEdges(f: Fn, p: Label)
    requires OneOfTwo(f)
    ensures p in Preds(f, 5) <==> p in {2, 3, 4}
    ensures forall x :: IsEdge(f, p, x) && x in {2, 3, 4} ==> p == 0
  {
  }

  lemma MainEntries(l: Label)
    ensures Incoming(Main().blocks[5].phis[0].edges, l) ==
              if l == 4 || l == 2 then Some(Lit(10)) else if l == 3 then Some(Lit(20)) else None
  {
    var edges := Main().blocks[5].phis[0].edges;
    assert edges[1..] == [Edge(3, Lit(20)), Edge(2, Lit(10))];
    assert edges[1..][1..] == [Edge(2, Lit(10))];
    assert Incoming([Edge(2, Lit(10))], l) == if l == 2 then Some(Lit(10)) else None;
  }

  lemma EmptyMatch(f: Fn, a: Label, b: Label)
    requires OneOfTwo(f) && a in {2, 3, 4} && b in {2, 3, 4}
    ensures EdgesMatch(f, a, b, 5) <==> (a == 3 <==> b == 3)
    ensures Duplicates(f, a, b, 5)
  {
    MainEntries(a);
    MainEntries(b);
    assert NonDbg(Items(Jump())) == [];
  }

  lemma MainCandidates(f: Fn, a: Label)
    requires OneOfTwo(f)
    ensures Candidate(f, a) <==> a in {2, 3, 4}
    ensures a in {2, 3, 4} ==> f.blocks[a].term == Br(5)
  {
    if a in {2, 3, 4} {
      forall p | p in Preds(f, a)
        ensures IsBranchOrSwitch(f.blocks[p].term)
      {
        MainEdges(f, p);
        assert IsEdge(f, p, a);
      }
    }
  }

  lemma MainQualifies(f: Fn, marked: set<Label>, a: Label, b: Label)
    requires OneOfTwo(f)
    ensures Qualifies(f, marked, a, b) <==> b !in marked && ((a == 2 && b == 4) || (a == 4 && b == 2))
  {
    MainEdges(f, b);
    MainCandidates(f, a);
    MainCandidates(f, b);
    hide Candidate, Duplicates, EdgesMatch;
    assert a in {2, 3, 4} ==> f.entry == 0 && a in f.blocks && 5 in f.blocks;
    if a in {2, 3, 4} && b in {2, 3, 4} {
      EmptyMatch(f, a, b);
    }
  }

  // The one run

  ghost predicate OnlyRun(f: Fn, order: seq<Label>, ms: seq<MergeStep>) {
    Turns(f, order, ms) && forall other :: Turns(f, order, other) ==> other == ms
  }

  lemma LastTurnWas(f: Fn, order: seq<Label>, b1: Label, ms: seq<MergeStep>)
    requires Turns(f, order + [b1], ms)
    ensures || (Turns(f, order, ms) && forall b :: !Qualifies(AfterMerges(f, ms), Erased(ms), b1, b))
            || (ms != [] && Turns(f, order, ms[..|ms| - 1]) && ms[|ms| - 1].erased == b1
                && Qualifies(AfterMerges(f, ms[..|ms| - 1]), Erased(ms[..|ms| - 1]), b1, ms[|ms| - 1].retained))
  {
    hide Qualifies, AfterMerges, Erased;
    var all := order + [b1];
    assert all != [] && all[..|all| - 1] == order && all[|all| - 1] == b1;
    assert Turns(f, all, ms);
  }

  lemma OnlyRunSkips(f: Fn, order: seq<Label>, ms: seq<MergeStep>, b1: Label)
    requires OnlyRun(f, order, ms) && forall b :: !Qualifies(AfterMerges(f, ms), Erased(ms), b1, b)
    ensures OnlyRun(f, order + [b1], ms)
  {
    hide Qualifies, AfterMerges, Erased;
    TurnSkips(f, order, ms, b1);
    assert (order + [b1])[..|order|] == order;
    forall other: seq<MergeStep> | Turns(f, order + [b1], other)
      ensures other == ms
    {
      LastTurnWas(f, order, b1, other);
    }
  }

  lemma OnlyRunMerges(f: Fn, order: seq<Label>, ms: seq<MergeStep>, b1: Label, b2: Label)
    requires OnlyRun(f, order, ms) && forall b :: Qualifies(AfterMerges(f, ms), Erased(ms), b1, b) <==> b == b2
    ensures OnlyRun(f, order + [b1], ms + [MergeStep(b1, b2)])
  {
    hide Qualifies, AfterMerges, Erased;
    TurnMerges(f, order, ms, b1, b2);
    assert (order + [b1])[..|order|] == order;
    forall other: seq<MergeStep> | Turns(f, order + [b1], other)
      ensures other == ms + [MergeStep(b1, b2)]
    {
      var n := |other| - 1;
      LastTurnWas(f, order, b1, other);
      assert Qualifies(AfterMerges(f, ms), Erased(ms), b1, b2);
      assert other != [] ==> other == other[..n] + [MergeStep(other[n].erased, other[n].retained)];
    }
  }

  lemma MainRuns()
    ensures OnlyRun(Main(), InOrder(), TheMerge())
  {
    var f := Main();
    var g := Redirect(f, 2, 4);
    forall a, b
      ensures Qualifies(f, {}, a, b) <==> (a == 2 && b == 4) || (a == 4 && b == 2)
      ensures Qualifies(g, {2}, a, b) <==> a == 2 && b == 4
    {
      MainQualifies(f, {}, a, b);
      MainQualifies(g, {2}, a, b);
    }
    AfterTheMerge();
    hide Turns, AfterMerges, Erased, Qualifies, Redirect, Main;
    NothingYet(f);
    OnlyRunSkips(f, [], [], 0);
    OnlyRunMerges(f, [] + [0], [], 2, 4);
    assert [] + [MergeStep(2, 4)] == TheMerge();
    OnlyRunSkips(f, [] + [0] + [2], TheMerge(), 3);
    OnlyRunSkips(f, [] + [0] + [2] + [3], TheMerge(), 4);
    OnlyRunSkips(f, [] + [0] + [2] + [3] + [4], TheMerge(), 5);
    assert [] + [0] + [2] + [3] + [4] + [5] == InOrder();
  }

  lemma NothingYet(f: Fn)
    ensures OnlyRun(f, [], []) && AfterMerges(f, []) == f && Erased([]) == {}
  {
  }

  lemma AfterTheMerge()
    ensures AfterMerges(Main(), TheMerge()) == Redirect(Main(), 2, 4) && Erased(TheMerge()) == {2}
  {
    assert TheMerge()[..0] == [];
    assert TheMerge()[0].erased == 2;
    assert Erased(TheMerge()) == {2};
  }

  // What it leaves

  lemma EntriesDropped()
    ensures DropEdges([Edge(4, Lit(10)), Edge(3, Lit(20)), Edge(2, Lit(10))], {2}) == [Edge(4, Lit(10)), Edge(3, Lit(20))]
  {
    var edges := [Edge(4, Lit(10)), Edge(3, Lit(20)), Edge(2, Lit(10))];
    assert edges[1..][1..] == [Edge(2, Lit(10))] && edges[1..][1..][1..] == [];
    assert DropEdges([Edge(2, Lit(10))], {2}) == [];
  }

  lemma CasesMoved()
    ensures Retarget(Switch(Arg(0), 4, [Case(1, 2), Case(2, 3)]), 2, 4) == Switch(Arg(0), 4, [Case(1, 4), Case(2, 3)])
  {
    assert RetargetCases([Case(1, 2), Case(2, 3)], 2, 4) == [Case(1, 4), Case(2, 3)];
  }

  lemma MergedText()
    ensures DeleteBlocks(Redirect(Main(), 2, 4), {2}) == Merged()
  {
    hide DropEdges, RetargetCases;
    EntriesDropped();
    CasesMoved();
    var g := DeleteBlocks(Redirect(Main(), 2, 4), {2});
    forall l | l in Merged().blocks
      ensures l in g.blocks && g.blocks[l] == Merged().blocks[l]
    {
      assert g.blocks[l].phis == Merged().blocks[l].phis;
    }
    assert g.blocks == Merged().blocks;
  }

  /** In the order of the text the pass has one run on the function, and it ends with the function the test expects. */
  lemma SwitchMerged(ms: seq<MergeStep>)
    requires Turns(Main(), InOrder(), ms)
    ensures ms == [MergeStep(2, 4)] && StandIn(Main(), {}, 2, 4)
    ensures DeleteBlocks(AfterMerges(Main(), ms), Erased(ms)) == Merged()
  {
    MainRuns();
    AfterTheMerge();
    MergedText();
    MainQualifies(Main(), {}, 2, 4);
    QualifiesIff(Main(), {}, 2, 4);
  }
}
