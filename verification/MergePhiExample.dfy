/**
 Two inputs on which the pass merges look-alikes with PHIs and changes what the function does: one block is entered
 from a block the other knows nothing about, or both are entered from the same blocks but with their values crossed.
 */
module MergePhiExample {
  import opened Ir
  import opened Semantics
  import opened Ssa
  import opened Merge
  import opened MergeFacts
  import opened MergeSim
  import opened MergeDelete
  import opened MergeSsa
  import opened MergeBBPass

  function PhiBlock(id: Id, from: Label): Block {
    Block([Phi(id, Int(32), [Edge(from, Lit(7))])], [], Br(5))
  }

  /** A branch to 1 or 2, which lead to the look-alikes 3 and 4, which both lead to the return. */
  function Diamond(): Fn {
    Fn([Int(32)], [], 0,
       map[0 := Block([], [], CondBr(Arg(0), 1, 2)),
           1 := Block([], [], Br(3)),
           2 := Block([], [], Br(4)),
           3 := PhiBlock(0, 1),
           4 := PhiBlock(1, 2),
           5 := Block([], [], Ret(Lit(0)))],
       2, 6)
  }

  lemma DiamondEdges(a: Label, b: Label)
    ensures IsEdge(Diamond(), a, b) <==>
              (a == 0 && (b == 1 || b == 2)) || (a == 1 && b == 3) || (a == 2 && b == 4) || (a == 3 && b == 5) || (a == 4 && b == 5)
  {
  }

  lemma DiamondStructured()
    ensures Structured(Diamond())
  {
    var f := Diamond();
    forall a, b
      ensures IsEdge(f, a, b) ==> b in f.blocks && b != f.entry
    {
      DiamondEdges(a, b);
    }
    forall s | HasSite(f, s)
      ensures s == PhiSite(3, 0) || s == PhiSite(4, 0)
    {
    }
    forall l, k | l in f.blocks && 0 <= k < |f.blocks[l].phis|
      ensures OneEdgePerPred(f, l, f.blocks[l].phis[k].edges)
    {
      var edges := f.blocks[l].phis[k].edges;
      forall p
        ensures IsEdge(f, p, l) <==> p == edges[0].from
      {
        DiamondEdges(p, l);
      }
    }
  }

  lemma DiamondWellFormed()
    ensures WellFormed(Diamond()) && DbgPlain(Diamond())
  {
    DiamondStructured();
    var f := Diamond();
    forall l | l in f.blocks
      ensures BodyUsesOk(f, l) && TermUsesOk(f, l) && PhiUsesOk(f, l)
    {
    }
  }

  lemma DiamondNoUses(i: Id)
    ensures Uses(Diamond(), i) == {}
  {
    forall u
      ensures u !in Uses(Diamond(), i)
    {
    }
  }

  lemma PhiBlockItems(id: Id, from: Label)
    ensures NonDbg(Items(PhiBlock(id, from))) == [P(PhiBlock(id, from).phis[0])]
  {
    var xs := Items(PhiBlock(id, from));
    assert xs == [P(PhiBlock(id, from).phis[0])];
    assert NonDbg(xs[..0]) == [];
  }

  lemma DiamondQualifies()
    ensures Qualifies(Diamond(), {}, 3, 4)
  {
    var f := Diamond();
    PhiBlockItems(0, 1);
    PhiBlockItems(1, 2);
    DiamondNoUses(0);
    DiamondNoUses(1);
    forall p
      ensures p in Preds(f, 3) <==> p == 1
      ensures p in Preds(f, 5) <==> p == 3 || p == 4
    {
      DiamondEdges(p, 3);
      DiamondEdges(p, 5);
    }
    assert CanMergeInstructions(f, 3, P(f.blocks[3].phis[0]), 4, P(f.blocks[4].phis[0]), 5);
  }

  function One(): Input {
    Input(k => 1, k => 0, map[], (c, a, w) => Reply(0, map[]))
  }

  lemma DiamondRuns(w: World)
    requires w == World(map[], [])
    ensures Run(Diamond(), One(), 4) == Done(0, w)
  {
    var f, inp := Diamond(), One();
    assert Run(f, inp, 1) == At(1, Some(0), map[], w);
    assert Run(f, inp, 2) == At(3, Some(1), map[], w);
    var c3 := Run(f, inp, 3);
    assert c3.At? && c3.lbl == 5 && c3.w == w;
    assert Run(f, inp, 4) == Done(0, w);
  }

  // What the pass makes of it

  function Order(): seq<Label> {
    [0, 1, 2, 3, 4, 5]
  }

  /** The one merge, of block 3 into block 4. */
  function Merges(): seq<MergeStep> {
    [MergeStep(3, 4)]
  }

  function Result(f: Fn): Fn {
    DeleteBlocks(AfterMerges(f, Merges()), Erased(Merges()))
  }

  lemma ResultIs(f: Fn)
    ensures AfterMerges(f, []) == f && AfterMerges(f, Merges()) == Redirect(f, 3, 4)
    ensures Erased([]) == {} && Erased(Merges()) == {3} && Result(f) == DeleteBlocks(Redirect(f, 3, 4), {3})
  {
    assert Merges()[..0] == [];
    assert Merges()[0].erased == 3;
    assert Erased(Merges()) == {3};
  }

  /** No block is there for l to be merged into. */
  ghost predicate Stays(f: Fn, erased: set<Label>, l: Label) {
    forall b :: !Qualifies(f, erased, l, b)
  }

  lemma TurnStays(f: Fn, order: seq<Label>, ms: seq<MergeStep>, l: Label)
    requires Turns(f, order, ms) && Stays(AfterMerges(f, ms), Erased(ms), l)
    ensures Turns(f, order + [l], ms)
  {
    TurnSkips(f, order, ms, l);
  }

  /** If 3 merges into 4 and no other block has anything to merge into, the pass does just that. */
  lemma OneMerge(f: Fn)
    requires Stays(f, {}, 0) && Stays(f, {}, 1) && Stays(f, {}, 2) && Qualifies(f, {}, 3, 4)
    requires Stays(Redirect(f, 3, 4), {3}, 4) && Stays(Redirect(f, 3, 4), {3}, 5)
    ensures Turns(f, Order(), Merges())
  {
    ResultIs(f);
    assert Turns(f, [], []);
    hide Turns, AfterMerges, Qualifies, Stays, Redirect, Erased;
    TurnStays(f, [], [], 0);
    TurnStays(f, [] + [0], [], 1);
    TurnStays(f, [] + [0] + [1], [], 2);
    TurnMerges(f, [] + [0] + [1] + [2], [], 3, 4);
    assert [] + [MergeStep(3, 4)] == Merges();
    TurnStays(f, [] + [0] + [1] + [2] + [3], Merges(), 4);
    TurnStays(f, [] + [0] + [1] + [2] + [3] + [4], Merges(), 5);
    assert [] + [0] + [1] + [2] + [3] + [4] + [5] == Order();
  }

  lemma DiamondTurns()
    ensures Turns(Diamond(), Order(), Merges())
  {
    var f, g := Diamond(), Redirect(Diamond(), 3, 4);
    DiamondQualifies();
    forall b
      ensures !Qualifies(f, {}, 1, b) && !Qualifies(f, {}, 2, b) && !Qualifies(g, {3}, 4, b)
    {
      DiamondEdges(b, 3);
      DiamondEdges(b, 4);
      RedirectEdges(f, 3, 4, b, 5);
      DiamondEdges(b, 5);
    }
    assert Stays(f, {}, 0) && Stays(f, {}, 1) && Stays(f, {}, 2) && Stays(g, {3}, 4) && Stays(g, {3}, 5);
    OneMerge(f);
  }

  lemma MergedDiamondSticks(w: World)
    requires w == World(map[], [])
    ensures Run(Result(Diamond()), One(), 3) == Stuck(MissingEdge, w)
  {
    var g, inp := Result(Diamond()), One();
    ResultIs(Diamond());
    assert Run(g, inp, 1) == At(1, Some(0), map[], w);
    assert Run(g, inp, 2) == At(4, Some(1), map[], w);
    assert g.blocks[4].phis[0].edges == [Edge(2, Lit(7))] by {
      assert [Edge(2, Lit(7))][1..] == [];
      assert DropEdges([Edge(2, Lit(7))], {3}) == [Edge(2, Lit(7))];
    }
  }

  lemma DiamondResultDiffers()
    ensures !SameBehaviour(Diamond(), Result(Diamond()))
  {
    var w := World(map[], []);
    DiamondRuns(w);
    MergedDiamondSticks(w);
    hide Diamond, Result, SameBehaviour;
    DifferentEnds(Diamond(), Result(Diamond()), One(), 4, Done(0, w));
  }

  lemma DiamondEntries()
    ensures !EntriesMatch(Diamond(), 3, 4)
  {
    DiamondEdges(1, 3);
    DiamondEdges(1, 4);
    assert 1 in Preds(Diamond(), 3) && 1 !in Preds(Diamond(), 4);
  }

  /** A well-formed function the pass breaks: the erased block is entered from a block the retained one knows nothing about. */
  lemma MergingPhisBreaks()
    ensures WellFormed(Diamond()) && DbgPlain(Diamond())
    ensures Turns(Diamond(), Order(), Merges())
    ensures !EntriesMatch(Diamond(), 3, 4)
    ensures !SameBehaviour(Diamond(), Result(Diamond()))
  {
    hide Diamond, Result, SameBehaviour, WellFormed, DbgPlain, Turns, EntriesMatch;
    DiamondWellFormed();
    DiamondTurns();
    DiamondEntries();
    DiamondResultDiffers();
  }

  // The same entering blocks, values crossed

  function Choice(id: Id, a: Label, b: Label): Block {
    Block([Phi(id, Int(32), [Edge(a, Lit(7)), Edge(b, Lit(8))])], [], Br(5))
  }

  /** Blocks 3 and 4 are both entered from 1 and 2, list 7 before 8, but for different blocks. */
  function Crossed(): Fn {
    Fn([Int(32), Int(32)], [], 0,
       map[0 := Block([], [], CondBr(Arg(0), 1, 2)),
           1 := Block([], [], CondBr(Arg(1), 3, 4)),
           2 := Block([], [], CondBr(Arg(1), 3, 4)),
           3 := Choice(0, 1, 2),
           4 := Choice(1, 2, 1),
           5 := Block([Phi(2, Int(32), [Edge(3, Local(0)), Edge(4, Local(1))])], [], Ret(Local(2)))],
       3, 6)
  }

  lemma CrossedEdges(a: Label, b: Label)
    ensures IsEdge(Crossed(), a, b) <==>
              (a == 0 && b in {1, 2}) || (a in {1, 2} && b in {3, 4}) || (a in {3, 4} && b == 5)
  {
  }

  lemma CrossedStructured()
    ensures Structured(Crossed())
  {
    var f := Crossed();
    forall a, b
      ensures IsEdge(f, a, b) ==> b in f.blocks && b != f.entry
    {
      CrossedEdges(a, b);
    }
    forall s | HasSite(f, s)
      ensures s == PhiSite(3, 0) || s == PhiSite(4, 0) || s == PhiSite(5, 0)
    {
    }
    forall l, k | l in f.blocks && 0 <= k < |f.blocks[l].phis|
      ensures OneEdgePerPred(f, l, f.blocks[l].phis[k].edges)
    {
      var edges := f.blocks[l].phis[k].edges;
      forall p
        ensures IsEdge(f, p, l) <==> p == edges[0].from || p == edges[1].from
      {
        CrossedEdges(p, l);
      }
    }
  }

  lemma CrossedDefines()
    ensures DefinesIn(Crossed(), 3, 0) && DefinesIn(Crossed(), 4, 1)
    ensures 2 in DefsUpTo(Crossed().blocks[5], 0)
  {
    var f := Crossed();
    assert f.blocks[3].phis[0].id == 0 && f.blocks[4].phis[0].id == 1 && f.blocks[5].phis[0].id == 2;
  }

  lemma CrossedJoinOk()
    ensures TermUsesOk(Crossed(), 5) && PhiUsesOk(Crossed(), 5)
  {
    CrossedDefines();
    var f := Crossed();
    assert Dominates(f, 3, 3) && Dominates(f, 4, 4);
    hide Dominates;
    assert EdgeUseOk(f, Edge(3, Local(0))) && EdgeUseOk(f, Edge(4, Local(1)));
  }

  lemma CrossedWellFormed()
    ensures WellFormed(Crossed()) && DbgPlain(Crossed())
  {
    hide OneEdgePerPred;
    CrossedStructured();
    CrossedJoinOk();
    var f := Crossed();
    hide Dominates, AvailIn, AvailOut;
    forall l | l in f.blocks
      ensures BodyUsesOk(f, l) && TermUsesOk(f, l) && PhiUsesOk(f, l)
    {
    }
  }

  lemma CrossedUses(i: Id)
    requires i in {0, 1}
    ensures Uses(Crossed(), i) == {PhiUse(5, 0, i)}
  {
    var f := Crossed();
    forall u
      ensures u in Uses(f, i) <==> u == PhiUse(5, 0, i)
    {
    }
  }

  lemma ChoiceItems(id: Id, a: Label, b: Label)
    ensures NonDbg(Items(Choice(id, a, b))) == [P(Choice(id, a, b).phis[0])]
  {
    var xs := Items(Choice(id, a, b));
    assert xs == [P(Choice(id, a, b).phis[0])];
    assert NonDbg(xs[..0]) == [];
  }

  lemma CrossedRemovable(i: Id)
    requires i in {0, 1}
    ensures HasOneUse(Crossed(), i) && CanRemoveInst(Crossed(), 3 + i, 5, i)
    ensures Incoming(Crossed().blocks[5].phis[0].edges, 3 + i) == Some(Local(i))
  {
    CrossedUses(i);
    var edges := Crossed().blocks[5].phis[0].edges;
    assert edges[1..][0] == edges[1];
    assert PhiUse(5, 0, i) in Uses(Crossed(), i);
  }

  lemma CrossedDuplicates()
    ensures Duplicates(Crossed(), 3, 4, 5) && EdgesMatch(Crossed(), 3, 4, 5)
  {
    var f := Crossed();
    ChoiceItems(0, 1, 2);
    ChoiceItems(1, 2, 1);
    CrossedRemovable(0);
    CrossedRemovable(1);
    CrossedDefines();
    CrossedUses(0);
    CrossedUses(1);
    hide Uses, HasOneUse, CanRemoveInst;
    assert CanMergeInstructions(f, 3, P(f.blocks[3].phis[0]), 4, P(f.blocks[4].phis[0]), 5);
    assert DefinedIn(f.blocks[3], Local(0)) && DefinedIn(f.blocks[4], Local(1));
  }

  lemma CrossedQualifies()
    ensures Qualifies(Crossed(), {}, 3, 4)
  {
    var f := Crossed();
    CrossedDuplicates();
    hide Duplicates, EdgesMatch;
    forall p
      ensures p in Preds(f, 3) <==> p in {1, 2}
      ensures p in Preds(f, 5) <==> p in {3, 4}
    {
      CrossedEdges(p, 3);
      CrossedEdges(p, 5);
    }
  }

  lemma CrossedTurns()
    ensures Turns(Crossed(), Order(), Merges())
  {
    hide Turns, Order, Merges, Duplicates, EdgesMatch;
    var f, g := Crossed(), Redirect(Crossed(), 3, 4);
    CrossedQualifies();
    forall b
      ensures !Qualifies(g, {3}, 4, b)
    {
      RedirectEdges(f, 3, 4, b, 5);
      CrossedEdges(b, 5);
    }
    assert Stays(f, {}, 0) && Stays(f, {}, 1) && Stays(f, {}, 2) && Stays(g, {3}, 4) && Stays(g, {3}, 5);
    OneMerge(f);
  }

  lemma CrossedRuns(w: World)
    requires w == World(map[], [])
    ensures Run(Crossed(), One(), 4) == Done(7, w)
  {
    var f, inp := Crossed(), One();
    assert Run(f, inp, 1) == At(1, Some(0), map[], w);
    assert Run(f, inp, 2) == At(3, Some(1), map[], w);
    var p3 := f.blocks[3].phis;
    assert p3[1..] == [];
    assert ExecPhis(p3, Some(1), inp, map[], map[], w) == Ok(map[0 := 7], w);
    assert Run(f, inp, 3) == At(5, Some(3), map[0 := 7], w);
    var p5 := f.blocks[5].phis;
    assert p5[1..] == [];
    assert ExecPhis(p5, Some(3), inp, map[0 := 7], map[0 := 7], w) == Ok(map[0 := 7, 2 := 7], w);
  }

  lemma CrossedDropped()
    ensures DropEdges(Choice(1, 2, 1).phis[0].edges, {3}) == Choice(1, 2, 1).phis[0].edges
    ensures DropEdges([Edge(3, Local(0)), Edge(4, Local(1))], {3}) == [Edge(4, Local(1))]
  {
    DropEdgesKeep(Choice(1, 2, 1).phis[0].edges, {3});
    DropEdgesKeep([Edge(4, Local(1))], {3});
    assert [Edge(3, Local(0)), Edge(4, Local(1))][1..] == [Edge(4, Local(1))];
  }

  lemma {:induction false} DropEdgesKeep(edges: seq<Edge>, ls: set<Label>)
    requires forall k :: 0 <= k < |edges| ==> edges[k].from !in ls
    ensures DropEdges(edges, ls) == edges
  {
    if edges != [] {
      DropEdgesKeep(edges[1..], ls);
      assert edges == [edges[0]] + edges[1..];
    }
  }

  lemma CrossedResult()
    ensures Result(Crossed()).blocks[1] == Block([], [], CondBr(Arg(1), 4, 4))
    ensures Result(Crossed()).blocks[0] == Crossed().blocks[0] && Result(Crossed()).blocks[4] == Crossed().blocks[4]
    ensures Result(Crossed()).blocks[5] == Block([Phi(2, Int(32), [Edge(4, Local(1))])], [], Ret(Local(2)))
    ensures Result(Crossed()).blocks.Keys == {0, 1, 2, 4, 5} && Result(Crossed()).entry == 0
  {
    var g := Result(Crossed());
    ResultIs(Crossed());
    CrossedDropped();
    hide DropEdges;
    assert g.blocks[4].phis == Crossed().blocks[4].phis;
    assert g.blocks[5].phis == [Phi(2, Int(32), [Edge(4, Local(1))])];
  }

  lemma MergedCrossedRuns(w: World)
    requires w == World(map[], [])
    ensures Run(Result(Crossed()), One(), 4) == Done(8, w)
  {
    var g, inp := Result(Crossed()), One();
    CrossedResult();
    hide Result;
    assert Run(g, inp, 1) == At(1, Some(0), map[], w);
    assert Run(g, inp, 2) == At(4, Some(1), map[], w);
    var p4 := g.blocks[4].phis;
    assert p4[1..] == [] && p4[0].edges[1..][0] == Edge(1, Lit(8));
    assert ExecPhis(p4, Some(1), inp, map[], map[], w) == Ok(map[1 := 8], w);
    assert Run(g, inp, 3) == At(5, Some(4), map[1 := 8], w);
    var p5 := g.blocks[5].phis;
    assert p5[1..] == [];
    assert ExecPhis(p5, Some(4), inp, map[1 := 8], map[1 := 8], w) == Ok(map[1 := 8, 2 := 8], w);
  }

  lemma CrossedResultDiffers()
    ensures !SameBehaviour(Crossed(), Result(Crossed()))
  {
    var w := World(map[], []);
    CrossedRuns(w);
    MergedCrossedRuns(w);
    hide Crossed, Result, SameBehaviour;
    DifferentEnds(Crossed(), Result(Crossed()), One(), 4, Done(7, w));
  }

  lemma CrossedEntries()
    ensures Preds(Crossed(), 3) == Preds(Crossed(), 4) && !EntriesMatch(Crossed(), 3, 4)
  {
    var f := Crossed();
    forall p
      ensures p in Preds(f, 3) <==> p in {1, 2}
      ensures p in Preds(f, 4) <==> p in {1, 2}
    {
      CrossedEdges(p, 3);
      CrossedEdges(p, 4);
    }
    var e4 := f.blocks[4].phis[0].edges;
    assert e4[1..][0] == Edge(1, Lit(8));
    assert !SameEntry(f.blocks[3], f.blocks[4], 1, 0);
    assert !EntryMatches(f, 3, 4, 1) && 1 in Preds(f, 3);
  }

  /**
   A well-formed function the pass changes although the retained block's PHIs have an entry for every block that now
   enters it: the comparison goes by the position of a PHI's entries and ignores the blocks they stand for.
   */
  lemma CrossedPhisBreak()
    ensures WellFormed(Crossed()) && DbgPlain(Crossed())
    ensures Turns(Crossed(), Order(), Merges())
    ensures Preds(Crossed(), 3) == Preds(Crossed(), 4) && !EntriesMatch(Crossed(), 3, 4)
    ensures forall k :: 0 <= k < |Crossed().blocks[4].phis| ==> OneEdgePerPred(Redirect(Crossed(), 3, 4), 4, Crossed().blocks[4].phis[k].edges)
    ensures !SameBehaviour(Crossed(), Result(Crossed()))
  {
    CrossedWellFormed();
    CrossedTurns();
    CrossedQualifies();
    CrossedEntries();
    CrossedResultDiffers();
    assert 4 in Crossed().blocks;
    hide Crossed, Result, SameBehaviour, Turns, EntriesMatch, Qualifies, DbgPlain, OneEdgePerPred, UsesDominated, Preds, Redirect;
    RetainedPhisComplete(Crossed(), 3, 4);
  }
}
