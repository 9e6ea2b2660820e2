/** MergeBB after DuplicateBB: exactly which clones it merges back, over a whole run on all the cloned blocks. */
module CloneMerge {
  import opened Ir
  import opened Ssa
  import opened Rename
  import opened Clone
  import opened CloneSsa
  import opened Riv
  import opened DuplicateBBPass
  import opened Merge
  import opened MergeFacts
  import opened MergeSsa
  import opened MergeBBPass
  import opened ClonePair

  // Where clones are read

  /** An operand of the original is never renamed to a clone outside the clones. */
  lemma PhiSubMissesClones(f: Fn, b: Label, i: Id, which: nat, j: nat)
    requires FreshNames(f) && Unique(f) && b in f.blocks && i < f.nextId && which < 2
    ensures Ren(PhiSub(f.nextId, f.blocks[b].body), i) != CopyId(f.nextId, which, j)
  {
    var body := f.blocks[b].body;
    BlockIdsDistinct(f, b);
    BindingsFacts(f.nextId, body, MERGED, |body|);
    if i in BodyDefs(body, |body|) {
      var k :| 0 <= k < |body| && !body[k].ty.Void? && body[k].id == i;
      CopyIdApart(f.nextId, MERGED, k, which, j);
    }
  }

  lemma CtxBelow(f: Fn, b: Label, ctx: Operand)
    requires FreshNames(f) && CtxOk(f, b, ctx)
    ensures ctx.Local? ==> ctx.id < f.nextId
  {
    if ctx.Local? {
      var d :| DefinesIn(f, d, ctx.id) && d != b && Dominates(f, d, b);
      DefBelow(f, d, ctx.id);
    }
  }

  /** Original blocks and the head read no clone. */
  lemma OldReadsNoClone(f: Fn, b: Label, ctx: Operand, which: nat, j: nat, u: Use)
    requires WellFormed(f) && b in f.blocks && CtxOk(f, b, ctx) && which < 2 && u.l in f.blocks
    ensures !ReadsAt(CloneFn(f, b, ctx), u, Local(CopyId(f.nextId, which, j)))
  {
    var g := CloneFn(f, b, ctx);
    var s := PhiSub(f.nextId, f.blocks[b].body);
    var blk := f.blocks[u.l];
    var x := CopyId(f.nextId, which, j);
    assert g.blocks[u.l] == OldBlock(f, b, ctx, u.l);
    UsesBelow(f, u.l);
    CtxBelow(f, b, ctx);
    match u
    case PhiUse(l, p, e) =>
      if ReadsAt(g, u, Local(x)) {
        PhiSubMissesClones(f, b, blk.phis[p].edges[e].val.id, which, j);
      }
    case InstrUse(l, k, a) =>
      OldInstrReads(f, b, ctx, which, j, u);
    case TermUse(l, a) =>
      OldTermReads(f, b, ctx, which, j, u);
  }

  lemma OldInstrReads(f: Fn, b: Label, ctx: Operand, which: nat, j: nat, u: Use)
    requires WellFormed(f) && b in f.blocks && CtxOk(f, b, ctx) && which < 2 && u.l in f.blocks && u.InstrUse?
    ensures !ReadsAt(CloneFn(f, b, ctx), u, Local(CopyId(f.nextId, which, j)))
  {
    var blk := f.blocks[u.l];
    assert CloneFn(f, b, ctx).blocks[u.l] == OldBlock(f, b, ctx, u.l);
    UsesBelow(f, u.l);
    CtxBelow(f, b, ctx);
    hide WellFormed, CloneFn, CtxOk, PhiSub;
    if u.l != b && ReadsAt(CloneFn(f, b, ctx), u, Local(CopyId(f.nextId, which, j))) {
      assert Below(f.nextId, blk.body[u.k].args);
      PhiSubMissesClones(f, b, blk.body[u.k].args[u.a].id, which, j);
    }
  }

  lemma OldTermReads(f: Fn, b: Label, ctx: Operand, which: nat, j: nat, u: Use)
    requires WellFormed(f) && b in f.blocks && CtxOk(f, b, ctx) && which < 2 && u.l in f.blocks && u.TermUse?
    ensures !ReadsAt(CloneFn(f, b, ctx), u, Local(CopyId(f.nextId, which, j)))
  {
    var blk := f.blocks[u.l];
    assert CloneFn(f, b, ctx).blocks[u.l] == OldBlock(f, b, ctx, u.l);
    UsesBelow(f, u.l);
    CtxBelow(f, b, ctx);
    hide WellFormed, CloneFn, CtxOk, PhiSub;
    if u.l != b && ReadsAt(CloneFn(f, b, ctx), u, Local(CopyId(f.nextId, which, j))) {
      RenTermArgs(PhiSub(f.nextId, f.blocks[b].body), blk.term);
      PhiSubMissesClones(f, b, TermArgs(blk.term)[u.a].id, which, j);
    }
  }

  /** A clone reads copies of its own side only. */
  lemma SideReads(f: Fn, b: Label, side: nat, which: nat, j: nat, k: nat, a: nat)
    requires WellFormed(f) && b in f.blocks && side < 2 && which < 2 && side != which
    requires k < |f.blocks[b].body| && a < |f.blocks[b].body[k].args|
    ensures RenOp(CloneSub(f.nextId, f.blocks[b].body, side, k), f.blocks[b].body[k].args[a]) != Local(CopyId(f.nextId, which, j))
  {
    var body := f.blocks[b].body;
    var x := body[k].args[a];
    BlockIdsDistinct(f, b);
    UsesBelow(f, b);
    CloneSubActs(f.nextId, body, side, k);
    if x.Local? && x.id in BodyDefs(body, |body|) {
      var m :| 0 <= m < |body| && !body[m].ty.Void? && body[m].id == x.id;
      CopyIdApart(f.nextId, if m < k then side else MERGED, m, which, j);
    }
  }

  lemma TailTermReadsNoClone(f: Fn, b: Label, which: nat, j: nat, a: nat)
    requires WellFormed(f) && b in f.blocks && which < 2
    ensures a < |TermArgs(TailBlock(f, b).term)| ==> TermArgs(TailBlock(f, b).term)[a] != Local(CopyId(f.nextId, which, j))
  {
    var s := PhiSub(f.nextId, f.blocks[b].body);
    RenTermArgs(s, f.blocks[b].term);
    UsesBelow(f, b);
    if a < |TermArgs(f.blocks[b].term)| && TermArgs(f.blocks[b].term)[a].Local? {
      PhiSubMissesClones(f, b, TermArgs(f.blocks[b].term)[a].id, which, j);
    }
  }

  lemma TailPhiReads(f: Fn, b: Label, which: nat, j: nat, p: nat, e: nat)
    requires b in f.blocks && which < 2 && p < |TailBlock(f, b).phis| && e < |TailBlock(f, b).phis[p].edges|
    requires TailBlock(f, b).phis[p].edges[e].val == Local(CopyId(f.nextId, which, j))
    ensures TailBlock(f, b).phis[p].edges[e].from == f.nextLabel + which
  {
    var m := MergePhisAre(f.nextId, f.blocks[b].body, 0, ThenLabel(f), ElseLabel(f), p);
    CopyIdApart(f.nextId, which, j, e, m);
  }

  /** Only its own clone and the tail, on the clone's edge, read a copy. */
  lemma NewReadsCopy(f: Fn, b: Label, ctx: Operand, which: nat, j: nat, u: Use)
    requires WellFormed(f) && b in f.blocks && which < 2 && u.l !in f.blocks
    requires ReadsAt(CloneFn(f, b, ctx), u, Local(CopyId(f.nextId, which, j)))
    ensures u.l == f.nextLabel + which || OwnEdge(CloneFn(f, b, ctx), f.nextLabel + which, TailLabel(f), u)
  {
    hide WellFormed, CopyId, TailLabel, UsesDominated, PhisComplete, CloneSub, PhiSub, Bindings, HeadBlock;
    var g := CloneFn(f, b, ctx);
    if u.l == TailLabel(f) {
      assert g.blocks[TailLabel(f)] == TailBlock(f, b);
      hide CloneFn, TailBlock, WellFormed;
      if u.PhiUse? {
        TailPhiReads(f, b, which, j, u.p, u.e);
      } else if u.TermUse? {
        TailTermReadsNoClone(f, b, which, j, u.a);
      }
    } else if u.l != f.nextLabel + which {
      assert g.blocks[u.l] == CloneBlock(f, b, u.l - f.nextLabel);
      assert u.InstrUse?;
      SideReads(f, b, u.l - f.nextLabel, which, j, u.k, u.a);
    }
  }

  lemma CopyLeavesThrough(f: Fn, b: Label, ctx: Operand, which: nat, j: nat, u: Use)
    requires WellFormed(f) && b in f.blocks && CtxOk(f, b, ctx) && which < 2
    requires u in Uses(CloneFn(f, b, ctx), CopyId(f.nextId, which, j))
    ensures u.l == f.nextLabel + which || OwnEdge(CloneFn(f, b, ctx), f.nextLabel + which, TailLabel(f), u)
  {
    assert ReadsAt(CloneFn(f, b, ctx), u, Local(CopyId(f.nextId, which, j)));
    hide WellFormed, CtxOk, CloneFn, CopyId;
    if u.l in f.blocks {
      OldReadsNoClone(f, b, ctx, which, j, u);
    } else {
      NewReadsCopy(f, b, ctx, which, j, u);
    }
  }

  lemma TailPhiCount(f: Fn, b: Label)
    requires b in f.blocks
    ensures |TailBlock(f, b).phis| <= 1 <==> AtMostOneValue(f.blocks[b].body)
  {
    var body := f.blocks[b].body;
    var phis := TailBlock(f, b).phis;
    if |phis| <= 1 {
      forall j, k | 0 <= j < |body| && 0 <= k < |body| && !body[j].ty.Void? && !body[k].ty.Void?
        ensures j == k
      {
        var p := MergePhisHave(f.nextId, body, 0, ThenLabel(f), ElseLabel(f), j);
        var q := MergePhisHave(f.nextId, body, 0, ThenLabel(f), ElseLabel(f), k);
        CopyIdApart(f.nextId, MERGED, j, MERGED, k);
      }
    } else {
      var j := MergePhisAre(f.nextId, body, 0, ThenLabel(f), ElseLabel(f), 0);
      var k := MergePhisAre(f.nextId, body, 0, ThenLabel(f), ElseLabel(f), 1);
      MergePhisIncrease(f.nextId, body, 0, ThenLabel(f), ElseLabel(f), 0, 1);
    }
  }

  lemma CloneDbgPlain(f: Fn, b: Label, ctx: Operand)
    requires FreshNames(f) && DbgPlain(f) && b in f.blocks
    ensures DbgPlain(CloneFn(f, b, ctx))
  {
    var g := CloneFn(f, b, ctx);
    assert g.blocks[TailLabel(f)] == TailBlock(f, b);
    forall l, k | l in g.blocks && 0 <= k < |g.blocks[l].body| && g.blocks[l].body[k].op.Dbg?
      ensures g.blocks[l].body[k].ty.Void? && g.blocks[l].body[k].args == []
    {
      if l in f.blocks {
        assert g.blocks[l] == OldBlock(f, b, ctx, l);
        assert l != b ==> f.blocks[l].body[k].op.Dbg?;
      } else if l != TailLabel(f) {
        assert g.blocks[l] == CloneBlock(f, b, l - f.nextLabel);
        assert f.blocks[b].body[k].op.Dbg?;
      }
    }
  }

  // A fresh pair

  /** In SSA form a value of a block is read in the same block only behind its definition. */
  lemma UsedBefore(f: Fn, b: Label, j: nat, k: nat, a: nat)
    requires WellFormed(f) && b in f.blocks
    requires var body := f.blocks[b].body;
             && j < |body| && k < |body| && a < |body[k].args| && !body[j].ty.Void? && body[k].args[a] == Local(body[j].id)
    ensures j < k
  {
    var body := f.blocks[b].body;
    var i := body[j].id;
    assert BodyUsesOk(f, b);
    assert UseOk(f, b, k, body[k].args[a]);
    assert SiteId(f, InstrSite(b, j)) == i;
    assert i in BodyDefs(body, |body|);
    DefSite(f, b, i, InstrSite(b, j));
    if i in DefsUpTo(f.blocks[b], k) {
      var j' :| 0 <= j' < k && !body[j'].ty.Void? && body[j'].id == i;
      assert SiteId(f, InstrSite(b, j')) == i;
    } else {
      var d :| DefinesIn(f, d, i) && d != b && Dominates(f, d, b);
      DefSite(f, d, i, InstrSite(b, j));
    }
  }

  lemma OwnArgs(f: Fn, b: Label, j: nat, k: nat, a: nat)
    requires WellFormed(f) && b in f.blocks && k < |f.blocks[b].body| && a < |f.blocks[b].body[k].args|
    requires j < |f.blocks[b].body| && !f.blocks[b].body[j].ty.Void? && f.blocks[b].body[k].args[a] == Local(f.blocks[b].body[j].id)
    ensures var xs, ys := CloneBlock(f, b, THEN).body, CloneBlock(f, b, ELSE).body;
            BothOwn(xs, ys, j, xs[k].args[a], ys[k].args[a])
  {
    UsedBefore(f, b, j, k, a);
    BlockIdsDistinct(f, b);
    hide WellFormed;
    CloneSubActs(f.nextId, f.blocks[b].body, THEN, k);
    CloneSubActs(f.nextId, f.blocks[b].body, ELSE, k);
  }

  /** An operand from outside the body is the same in both clones. */
  lemma OuterArgs(f: Fn, b: Label, k: nat, a: nat)
    requires WellFormed(f) && b in f.blocks && k < |f.blocks[b].body| && a < |f.blocks[b].body[k].args|
    requires !Own(f.blocks[b].body, f.blocks[b].body[k].args[a])
    ensures var x := f.blocks[b].body[k].args[a];
            CloneBlock(f, b, THEN).body[k].args[a] == x && CloneBlock(f, b, ELSE).body[k].args[a] == x && (x.Local? ==> x.id < f.nextId)
  {
    var body, x := f.blocks[b].body, f.blocks[b].body[k].args[a];
    UsesBelow(f, b);
    BlockIdsDistinct(f, b);
    hide WellFormed, CloneSub;
    if x.Local? {
      assert x.id !in BodyDefs(body, |body|);
      CloneSubActs(f.nextId, body, THEN, k);
      CloneSubActs(f.nextId, body, ELSE, k);
    }
  }

  /** What the clones of one instruction read: their own copies of a value of the body, or the same outside value. */
  lemma CloneArgs(f: Fn, b: Label, k: nat, a: nat)
    requires WellFormed(f) && b in f.blocks && k < |f.blocks[b].body| && a < |f.blocks[b].body[k].args|
    ensures var body, xs, ys := f.blocks[b].body, CloneBlock(f, b, THEN).body, CloneBlock(f, b, ELSE).body;
            && TwinArg(xs, ys, xs[k].args[a], ys[k].args[a])
            && (Own(xs, xs[k].args[a]) <==> Own(body, body[k].args[a]))
  {
    var body, xs, ys := f.blocks[b].body, CloneBlock(f, b, THEN).body, CloneBlock(f, b, ELSE).body;
    var x := body[k].args[a];
    hide WellFormed, CloneInstr, RenArgs;
    if Own(body, x) {
      var j :| 0 <= j < |body| && !body[j].ty.Void? && x == Local(body[j].id);
      OwnArgs(f, b, j, k, a);
    } else {
      OuterArgs(f, b, k, a);
      CloneIdsFresh(f, b);
    }
  }

  lemma CloneIdsFresh(f: Fn, b: Label)
    requires b in f.blocks
    ensures forall k :: 0 <= k < |CloneBlock(f, b, THEN).body| ==> CloneBlock(f, b, THEN).body[k].id >= f.nextId
    ensures forall k :: 0 <= k < |CloneBlock(f, b, ELSE).body| ==> CloneBlock(f, b, ELSE).body[k].id >= f.nextId
  {
  }

  lemma ClonesAreTwins(f: Fn, b: Label)
    requires WellFormed(f) && b in f.blocks
    ensures TwinBodies(CloneBlock(f, b, THEN).body, CloneBlock(f, b, ELSE).body)
    ensures Rejoins(CloneBlock(f, b, THEN).body) <==> Rejoins(f.blocks[b].body)
    ensures AtMostOneValue(CloneBlock(f, b, THEN).body) <==> AtMostOneValue(f.blocks[b].body)
  {
    var body, xs, ys := f.blocks[b].body, CloneBlock(f, b, THEN).body, CloneBlock(f, b, ELSE).body;
    assert forall k :: 0 <= k < |body| ==> xs[k].ty == body[k].ty && |xs[k].args| == |body[k].args|;
    forall k, a | 0 <= k < |body| && 0 <= a < |body[k].args|
      ensures TwinArg(xs, ys, xs[k].args[a], ys[k].args[a])
      ensures Own(xs, xs[k].args[a]) <==> Own(body, body[k].args[a])
    {
      CloneArgs(f, b, k, a);
    }
    forall k | 0 <= k < |xs|
      ensures TwinInstr(xs, ys, xs[k], ys[k])
    {
    }
    FeedsSame(body, xs);
  }

  lemma FeedsSame(xs: seq<Instr>, ys: seq<Instr>)
    requires |xs| == |ys| && forall k :: 0 <= k < |xs| ==> |xs[k].args| == |ys[k].args|
    requires forall k, a :: 0 <= k < |xs| && 0 <= a < |xs[k].args| ==> (Own(ys, ys[k].args[a]) <==> Own(xs, xs[k].args[a]))
    ensures FeedsItself(xs) <==> FeedsItself(ys)
  {
    if FeedsItself(xs) {
      var k, a :| 0 <= k < |xs| && 0 <= a < |xs[k].args| && Own(xs, xs[k].args[a]);
      assert Own(ys, ys[k].args[a]);
    }
    if FeedsItself(ys) {
      var k, a :| 0 <= k < |ys| && 0 <= a < |ys[k].args| && Own(ys, ys[k].args[a]);
      assert Own(xs, xs[k].args[a]);
    }
  }

  lemma MergePhiJoins(f: Fn, b: Label, j: nat)
    requires b in f.blocks && j < |f.blocks[b].body| && !f.blocks[b].body[j].ty.Void?
    ensures JoinsOne(MergePhi(f.nextId, f.blocks[b].body[j], j, ThenLabel(f), ElseLabel(f)).edges, ThenLabel(f), ElseLabel(f),
                     CloneBlock(f, b, THEN).body, CloneBlock(f, b, ELSE).body)
  {
    var edges := MergePhi(f.nextId, f.blocks[b].body[j], j, ThenLabel(f), ElseLabel(f)).edges;
    var x, y := Local(CopyId(f.nextId, THEN, j)), Local(CopyId(f.nextId, ELSE, j));
    assert edges[1..][0] == edges[1];
    assert Incoming(edges, ThenLabel(f)) == Some(x) && Incoming(edges, ElseLabel(f)) == Some(y);
    assert BothOwn(CloneBlock(f, b, THEN).body, CloneBlock(f, b, ELSE).body, j, x, y);
  }

  lemma TailJoins(f: Fn, b: Label)
    requires WellFormed(f) && b in f.blocks
    ensures Joins(TailBlock(f, b).phis, ThenLabel(f), ElseLabel(f), CloneBlock(f, b, THEN).body, CloneBlock(f, b, ELSE).body)
  {
    var body, xs, ys, phis := f.blocks[b].body, CloneBlock(f, b, THEN).body, CloneBlock(f, b, ELSE).body, TailBlock(f, b).phis;
    ClonesAreTwins(f, b);
    TailPhiCount(f, b);
    forall p | 0 <= p < |phis|
      ensures JoinsOne(phis[p].edges, ThenLabel(f), ElseLabel(f), xs, ys) && exists j :: 0 <= j < |xs| && !xs[j].ty.Void?
    {
      var j := MergePhisAre(f.nextId, body, 0, ThenLabel(f), ElseLabel(f), p);
      MergePhiJoins(f, b, j);
      assert !xs[j].ty.Void?;
    }
    if j :| 0 <= j < |xs| && !xs[j].ty.Void? {
      assert !body[j].ty.Void?;
      var p := MergePhisHave(f.nextId, body, 0, ThenLabel(f), ElseLabel(f), j);
    }
    assert phis != [] ==> JoinsOne(phis[0].edges, ThenLabel(f), ElseLabel(f), xs, ys);
  }

  lemma CloneBlockPlain(f: Fn, b: Label, ctx: Operand, which: nat)
    requires WellFormed(f) && b in f.blocks && which < 2
    ensures PlainBlock(CloneFn(f, b, ctx), f.nextLabel + which)
    ensures CloneFn(f, b, ctx).blocks[f.nextLabel + which] == CloneBlock(f, b, which) && CloneBlock(f, b, which).term == Br(TailLabel(f))
  {
    var g := CloneFn(f, b, ctx);
    var l := f.nextLabel + which;
    assert g.blocks[l] == CloneBlock(f, b, which);
    forall p | p in Preds(g, l)
      ensures IsBranchOrSwitch(g.blocks[p].term)
    {
      CloneEdges(f, b, ctx, p, l);
      assert g.blocks[b] == HeadBlock(f, b, ctx);
    }
  }

  lemma CloneLeavesThrough(f: Fn, b: Label, ctx: Operand, which: nat)
    requires WellFormed(f) && b in f.blocks && CtxOk(f, b, ctx) && which < 2
    ensures f.nextLabel + which in CloneFn(f, b, ctx).blocks
    ensures LeavesThrough(CloneFn(f, b, ctx), f.nextLabel + which, TailLabel(f))
  {
    var g := CloneFn(f, b, ctx);
    var l := f.nextLabel + which;
    assert g.blocks[l] == CloneBlock(f, b, which);
    forall j, u | 0 <= j < |g.blocks[l].body| && !g.blocks[l].body[j].ty.Void? && u in Uses(g, g.blocks[l].body[j].id)
      ensures u.l == l || OwnEdge(g, l, TailLabel(f), u)
    {
      CopyLeavesThrough(f, b, ctx, which, j, u);
    }
  }

  lemma CloneTail(f: Fn, b: Label, ctx: Operand)
    requires b in f.blocks
    ensures TailLabel(f) in CloneFn(f, b, ctx).blocks && CloneFn(f, b, ctx).blocks[TailLabel(f)] == TailBlock(f, b)
  {
  }

  /** Cloning a block makes its two clones a pair. */
  lemma CloneMakesPair(f: Fn, b: Label, ctx: Operand)
    requires WellFormed(f) && b in f.blocks && CtxOk(f, b, ctx)
    ensures var g := CloneFn(f, b, ctx);
            && Pair(g, ThenLabel(f), ElseLabel(f))
            && g.blocks[ThenLabel(f)] == CloneBlock(f, b, THEN) && g.blocks[ElseLabel(f)] == CloneBlock(f, b, ELSE)
            && (Rejoins(g.blocks[ThenLabel(f)].body) <==> Rejoins(f.blocks[b].body))
  {
    hide PlainBlock, TwinBodies, LeavesThrough, Joins, WellFormed, Rejoins, CloneFn, CloneBlock, TailBlock, CtxOk;
    CloneTail(f, b, ctx);
    CloneBlockPlain(f, b, ctx, THEN);
    CloneBlockPlain(f, b, ctx, ELSE);
    ClonesAreTwins(f, b);
    CloneLeavesThrough(f, b, ctx, THEN);
    CloneLeavesThrough(f, b, ctx, ELSE);
    TailJoins(f, b);
    PlainIsBlock(CloneFn(f, b, ctx), ThenLabel(f));
    PlainIsBlock(CloneFn(f, b, ctx), ElseLabel(f));
  }

  lemma PlainIsBlock(g: Fn, l: Label)
    requires PlainBlock(g, l)
    ensures l in g.blocks
  {
  }

  /** Nothing defines or reads an instruction of the cloned block any more, neither its replaced values nor what was purged. */
  lemma ReplacedGone(f: Fn, b: Label, ctx: Operand, j: nat)
    requires WellFormed(f) && b in f.blocks && CtxOk(f, b, ctx) && j < |f.blocks[b].body|
    ensures forall s :: HasSite(CloneFn(f, b, ctx), s) ==> SiteId(CloneFn(f, b, ctx), s) != f.blocks[b].body[j].id
    ensures Uses(CloneFn(f, b, ctx), f.blocks[b].body[j].id) == {}
  {
    var g, i := CloneFn(f, b, ctx), f.blocks[b].body[j].id;
    assert SiteId(f, InstrSite(b, j)) == i;
    forall s | HasSite(g, s)
      ensures SiteId(g, s) != i
    {
      CloneSites(f, b, ctx, s);
    }
    CloneWellFormed(f, b, ctx);
    hide WellFormed, CloneFn, CtxOk;
    forall u
      ensures u !in Uses(g, i)
    {
      if u in Uses(g, i) {
        NotReadUndefined(g, i, u);
      }
    }
  }

  lemma NotReadUndefined(g: Fn, i: Id, u: Use)
    requires UsesDominated(g) && u in Uses(g, i)
    ensures exists s :: HasSite(g, s) && SiteId(g, s) == i
  {
    UsedIsDefined(g, i, u);
    var d :| DefinesIn(g, d, i);
    var s := SiteOf(g, d, i);
  }

  // Cloning another block

  /** The renaming leaves the body's values alone, on either side. */
  ghost predicate Unrenamed(s: Sub, body: seq<Instr>) {
    forall j :: 0 <= j < |body| && !body[j].ty.Void? ==> body[j].id !in s && forall i :: i in s ==> s[i] != body[j].id
  }

  lemma OwnRenamed(s: Sub, body: seq<Instr>, x: Operand)
    requires Unrenamed(s, body)
    ensures Own(RenBody(s, body), RenOp(s, x)) <==> Own(body, x)
  {
    var body' := RenBody(s, body);
    if Own(body, x) {
      var j :| 0 <= j < |body| && !body[j].ty.Void? && x == Local(body[j].id);
      assert body'[j].id == body[j].id && !body'[j].ty.Void?;
    }
    if Own(body', RenOp(s, x)) {
      var j :| 0 <= j < |body'| && !body'[j].ty.Void? && RenOp(s, x) == Local(body'[j].id);
      assert !body[j].ty.Void? && body[j].id == body'[j].id;
      assert x == Local(body[j].id);
    }
  }

  lemma RejoinsRenamed(s: Sub, body: seq<Instr>)
    requires Unrenamed(s, body)
    ensures Rejoins(RenBody(s, body)) <==> Rejoins(body)
    ensures AtMostOneValue(RenBody(s, body)) <==> AtMostOneValue(body)
  {
    var body' := RenBody(s, body);
    assert forall k :: 0 <= k < |body| ==> body'[k].ty == body[k].ty && |body'[k].args| == |body[k].args|;
    forall k, a | 0 <= k < |body| && 0 <= a < |body[k].args|
      ensures Own(body', body'[k].args[a]) <==> Own(body, body[k].args[a])
    {
      OwnRenamed(s, body, body[k].args[a]);
    }
    FeedsSame(body, body');
  }

  lemma TwinsRenamed(s: Sub, xs: seq<Instr>, ys: seq<Instr>)
    requires Unrenamed(s, xs) && Unrenamed(s, ys) && TwinBodies(xs, ys)
    ensures TwinBodies(RenBody(s, xs), RenBody(s, ys))
  {
    var xs', ys' := RenBody(s, xs), RenBody(s, ys);
    forall k | 0 <= k < |xs'|
      ensures TwinInstr(xs', ys', xs'[k], ys'[k])
    {
      assert TwinInstr(xs, ys, xs[k], ys[k]);
      forall a | 0 <= a < |xs[k].args|
        ensures TwinArg(xs', ys', xs'[k].args[a], ys'[k].args[a])
      {
        OwnRenamed(s, xs, xs[k].args[a]);
        OwnRenamed(s, ys, ys[k].args[a]);
        if j: nat :| BothOwn(xs, ys, j, xs[k].args[a], ys[k].args[a]) {
          BothOwnRenamed(s, xs, ys, j, xs[k].args[a], ys[k].args[a]);
        }
      }
    }
  }

  lemma BothOwnRenamed(s: Sub, xs: seq<Instr>, ys: seq<Instr>, j: nat, x: Operand, y: Operand)
    requires Unrenamed(s, xs) && Unrenamed(s, ys) && TwinBodies(xs, ys) && BothOwn(xs, ys, j, x, y)
    ensures BothOwn(RenBody(s, xs), RenBody(s, ys), j, RenOp(s, x), RenOp(s, y))
  {
    assert TwinInstr(xs, ys, xs[j], ys[j]);
    assert xs[j].id !in s && ys[j].id !in s;
  }

  /** The values of a block other than the cloned one are left alone. */
  lemma OtherUnrenamed(f: Fn, b: Label, l: Label)
    requires FreshNames(f) && Unique(f) && b in f.blocks && l in f.blocks && l != b
    ensures Unrenamed(PhiSub(f.nextId, f.blocks[b].body), f.blocks[l].body)
  {
    var s, body := PhiSub(f.nextId, f.blocks[b].body), f.blocks[l].body;
    BlockIdsDistinct(f, b);
    PhiSubActs(f.nextId, f.blocks[b].body);
    forall j | 0 <= j < |body|
      ensures body[j].id !in s && forall i :: i in s ==> s[i] != body[j].id
    {
      assert SiteId(f, InstrSite(l, j)) == body[j].id;
      BodyIdsElsewhere(f, b, InstrSite(l, j));
    }
  }

  lemma RenOpBack(s: Sub, x: Operand, i: Id)
    requires RenOp(s, x) == Local(i) && forall j :: j in s ==> s[j] != i
    ensures x == Local(i)
  {
  }

  lemma CloneSubMisses(f: Fn, b: Label, which: nat, k: nat, i: Id)
    requires FreshNames(f) && Unique(f) && b in f.blocks && k <= |f.blocks[b].body| && i < f.nextId
    ensures forall j :: j in PhiSub(f.nextId, f.blocks[b].body) ==> PhiSub(f.nextId, f.blocks[b].body)[j] != i
    ensures forall j :: j in CloneSub(f.nextId, f.blocks[b].body, which, k) ==> CloneSub(f.nextId, f.blocks[b].body, which, k)[j] != i
  {
    var body := f.blocks[b].body;
    BlockIdsDistinct(f, b);
    BindingsFacts(f.nextId, body, MERGED, |body|);
    BindingsFacts(f.nextId, body, which, k);
  }

  lemma TailReadsOld(f: Fn, b: Label, i: Id, a: nat)
    requires b in f.blocks && a < |TermArgs(TailBlock(f, b).term)| && TermArgs(TailBlock(f, b).term)[a] == Local(i)
    requires forall j :: j in PhiSub(f.nextId, f.blocks[b].body) ==> PhiSub(f.nextId, f.blocks[b].body)[j] != i
    ensures TermUse(b, a) in Uses(f, i)
  {
    RenTermArgs(PhiSub(f.nextId, f.blocks[b].body), f.blocks[b].term);
    RenOpBack(PhiSub(f.nextId, f.blocks[b].body), TermArgs(f.blocks[b].term)[a], i);
  }

  lemma TailPhisFresh(f: Fn, b: Label, i: Id, p: nat, e: nat)
    requires b in f.blocks && i < f.nextId && p < |TailBlock(f, b).phis| && e < |TailBlock(f, b).phis[p].edges|
    ensures TailBlock(f, b).phis[p].edges[e].val != Local(i)
  {
    var j := MergePhisAre(f.nextId, f.blocks[b].body, 0, ThenLabel(f), ElseLabel(f), p);
  }

  lemma CloneReadsBody(f: Fn, b: Label, i: Id, which: nat, k: nat, a: nat)
    requires FreshNames(f) && Unique(f) && b in f.blocks && i < f.nextId
    requires k < |f.blocks[b].body| && a < |f.blocks[b].body[k].args| && CloneBlock(f, b, which).body[k].args[a] == Local(i)
    ensures InstrUse(b, k, a) in Uses(f, i)
  {
    CloneSubMisses(f, b, which, k, i);
    RenOpBack(CloneSub(f.nextId, f.blocks[b].body, which, k), f.blocks[b].body[k].args[a], i);
  }

  /** Whoever reads an old value in the new function stands for a reader of it in the old one. */
  lemma CloneReadsOld(f: Fn, b: Label, ctx: Operand, i: Id, u: Use) returns (w: Use)
    requires FreshNames(f) && Unique(f) && b in f.blocks && i < f.nextId && ctx != Local(i)
    requires u in Uses(CloneFn(f, b, ctx), i)
    ensures w in Uses(f, i) && (if u.l in f.blocks && u.l != b then w == u else w.l == b)
  {
    hide FreshNames, Unique, Uses, UsesDominated, PhisComplete, CloneSub, PhiSub, Bindings, HeadBlock;
    var g := CloneFn(f, b, ctx);
    CloneSubMisses(f, b, 0, 0, i);
    assert ReadsAt(g, u, Local(i));
    if u.l in f.blocks {
      w := u;
      OldReads(f, b, ctx, i, u);
    } else if u.l == TailLabel(f) {
      assert g.blocks[u.l] == TailBlock(f, b);
      hide CloneFn, TailBlock, Uses;
      if u.PhiUse? {
        TailPhisFresh(f, b, i, u.p, u.e);
      }
      w := TermUse(b, u.a);
      TailReadsOld(f, b, i, u.a);
    } else {
      assert g.blocks[u.l] == CloneBlock(f, b, u.l - f.nextLabel);
      assert u.InstrUse?;
      hide CloneFn, Uses;
      w := InstrUse(b, u.k, u.a);
      CloneReadsBody(f, b, i, u.l - f.nextLabel, u.k, u.a);
    }
  }

  lemma OldReads(f: Fn, b: Label, ctx: Operand, i: Id, u: Use)
    requires FreshNames(f) && b in f.blocks && i < f.nextId && ctx != Local(i) && u.l in f.blocks
    requires forall j :: j in PhiSub(f.nextId, f.blocks[b].body) ==> PhiSub(f.nextId, f.blocks[b].body)[j] != i
    requires ReadsAt(CloneFn(f, b, ctx), u, Local(i))
    ensures ReadsAt(f, u, Local(i))
  {
    var s := PhiSub(f.nextId, f.blocks[b].body);
    var blk := f.blocks[u.l];
    assert CloneFn(f, b, ctx).blocks[u.l] == OldBlock(f, b, ctx, u.l);
    match u
    case PhiUse(l, p, e) =>
      RenOpBack(s, blk.phis[p].edges[e].val, i);
    case InstrUse(l, k, a) =>
      assert l != b;
      RenOpBack(s, blk.body[k].args[a], i);
    case TermUse(l, a) =>
      assert l != b;
      RenTermArgs(s, blk.term);
      RenOpBack(s, TermArgs(blk.term)[a], i);
  }

  lemma LeavesThroughCloned(f: Fn, b: Label, ctx: Operand, l: Label, d: Label)
    requires FreshNames(f) && Unique(f) && b in f.blocks && l in f.blocks && d in f.blocks && b != l && b != d
    requires LeavesThrough(f, l, d) && !Own(f.blocks[l].body, ctx)
    ensures l in CloneFn(f, b, ctx).blocks && LeavesThrough(CloneFn(f, b, ctx), l, d)
  {
    var g := CloneFn(f, b, ctx);
    assert g.blocks[l] == OldBlock(f, b, ctx, l) && g.blocks[d] == OldBlock(f, b, ctx, d);
    forall j, u | 0 <= j < |g.blocks[l].body| && !g.blocks[l].body[j].ty.Void? && u in Uses(g, g.blocks[l].body[j].id)
      ensures u.l == l || OwnEdge(g, l, d, u)
    {
      var i := f.blocks[l].body[j].id;
      assert SiteId(f, InstrSite(l, j)) == i;
      assert ctx != Local(i);
      var w := CloneReadsOld(f, b, ctx, i, u);
      assert w.l == l || OwnEdge(f, l, d, w);
      assert ReadsAt(g, u, Local(i));
    }
  }

  lemma JoinCloned(f: Fn, b: Label, ctx: Operand, t: Label, e: Label, d: Label, p: nat)
    requires WellFormed(f) && CtxOk(f, b, ctx) && b in f.blocks && t in f.blocks && e in f.blocks && d in f.blocks && b !in {t, e, d}
    requires TwinBodies(f.blocks[t].body, f.blocks[e].body)
    requires p < |f.blocks[d].phis| && JoinsOne(f.blocks[d].phis[p].edges, t, e, f.blocks[t].body, f.blocks[e].body)
    ensures var g := CloneFn(f, b, ctx);
            JoinsOne(g.blocks[d].phis[p].edges, t, e, g.blocks[t].body, g.blocks[e].body)
  {
    hide CtxOk, TwinBodies, UsesDominated, CloneSub, PhiSub, Bindings, TailBlock, HeadBlock, CloneBlock;
    var g := CloneFn(f, b, ctx);
    var s, m := PhiSub(f.nextId, f.blocks[b].body), map[b := TailLabel(f)];
    var xs, ys, edges := f.blocks[t].body, f.blocks[e].body, f.blocks[d].phis[p].edges;
    assert g.blocks[t] == OldBlock(f, b, ctx, t) && g.blocks[e] == OldBlock(f, b, ctx, e) && g.blocks[d] == OldBlock(f, b, ctx, d);
    OtherUnrenamed(f, b, t);
    OtherUnrenamed(f, b, e);
    var j: nat, x, y :| BothOwn(xs, ys, j, x, y) && Incoming(edges, t) == Some(x) && Incoming(edges, e) == Some(y);
    BothOwnRenamed(s, xs, ys, j, x, y);
    EdgesApart(f, b, d, p, t);
    EdgesApart(f, b, d, p, e);
    IncomingRen(s, m, edges, t);
    IncomingRen(s, m, edges, e);
    CloneWellFormed(f, b, ctx);
    assert OneEdgePerPred(g, d, g.blocks[d].phis[p].edges);
  }

  lemma EdgesApart(f: Fn, b: Label, d: Label, p: nat, l: Label)
    requires FreshNames(f) && PhisComplete(f) && d in f.blocks && p < |f.blocks[d].phis| && l in f.blocks
    ensures Apart(map[b := TailLabel(f)], f.blocks[d].phis[p].edges, l)
  {
    assert OneEdgePerPred(f, d, f.blocks[d].phis[p].edges);
  }

  lemma JoinsCloned(f: Fn, b: Label, ctx: Operand, t: Label, e: Label, d: Label)
    requires WellFormed(f) && CtxOk(f, b, ctx) && b in f.blocks && t in f.blocks && e in f.blocks && d in f.blocks && b !in {t, e, d}
    requires TwinBodies(f.blocks[t].body, f.blocks[e].body) && Joins(f.blocks[d].phis, t, e, f.blocks[t].body, f.blocks[e].body)
    ensures var g := CloneFn(f, b, ctx);
            && t in g.blocks && e in g.blocks && d in g.blocks
            && Joins(g.blocks[d].phis, t, e, g.blocks[t].body, g.blocks[e].body)
  {
    hide CtxOk, TwinBodies, UsesDominated, PhisComplete, CloneSub, PhiSub, Bindings, TailBlock, HeadBlock, CloneBlock;
    var g := CloneFn(f, b, ctx);
    var s := PhiSub(f.nextId, f.blocks[b].body);
    assert g.blocks[t] == OldBlock(f, b, ctx, t) && g.blocks[e] == OldBlock(f, b, ctx, e) && g.blocks[d] == OldBlock(f, b, ctx, d);
    OtherUnrenamed(f, b, t);
    RejoinsRenamed(s, f.blocks[t].body);
    assert forall j :: 0 <= j < |f.blocks[t].body| ==> g.blocks[t].body[j].ty == f.blocks[t].body[j].ty;
    hide WellFormed, CtxOk, AtMostOneValue, JoinsOne, TwinBodies;
    forall p | 0 <= p < |g.blocks[d].phis|
      ensures JoinsOne(g.blocks[d].phis[p].edges, t, e, g.blocks[t].body, g.blocks[e].body)
    {
      JoinCloned(f, b, ctx, t, e, d, p);
    }
  }

  lemma PlainCloned(f: Fn, b: Label, ctx: Operand, l: Label)
    requires Closed(f) && FreshNames(f) && b in f.blocks && l != b && PlainBlock(f, l)
    ensures PlainBlock(CloneFn(f, b, ctx), l)
  {
    var g := CloneFn(f, b, ctx);
    assert g.blocks[l] == OldBlock(f, b, ctx, l) && g.blocks[TailLabel(f)] == TailBlock(f, b) && g.blocks[b] == HeadBlock(f, b, ctx);
    forall p | p in Preds(g, l)
      ensures IsBranchOrSwitch(g.blocks[p].term)
    {
      CloneEdges(f, b, ctx, p, l);
      if p == TailLabel(f) {
        assert b in Preds(f, l);
      } else {
        assert p in Preds(f, l) && g.blocks[p] == OldBlock(f, b, ctx, p);
      }
    }
  }

  /** Cloning another block leaves a pair a pair, and its bodies rejoin as before. */
  lemma PairCloned(f: Fn, b: Label, ctx: Operand, t: Label, e: Label)
    requires WellFormed(f) && Pair(f, t, e) && b in f.blocks && b !in {t, e, f.blocks[t].term.dest} && CtxOk(f, b, ctx)
    requires !Own(f.blocks[t].body, ctx) && !Own(f.blocks[e].body, ctx)
    ensures var g := CloneFn(f, b, ctx);
            && Pair(g, t, e) && g.blocks[t].term == f.blocks[t].term
            && (Rejoins(g.blocks[t].body) <==> Rejoins(f.blocks[t].body))
            && g.blocks[t].body == RenBody(PhiSub(f.nextId, f.blocks[b].body), f.blocks[t].body)
            && g.blocks[e].body == RenBody(PhiSub(f.nextId, f.blocks[b].body), f.blocks[e].body)
  {
    var g := CloneFn(f, b, ctx);
    var s := PhiSub(f.nextId, f.blocks[b].body);
    var d := f.blocks[t].term.dest;
    assert g.blocks[t] == OldBlock(f, b, ctx, t) && g.blocks[e] == OldBlock(f, b, ctx, e);
    PlainCloned(f, b, ctx, t);
    PlainCloned(f, b, ctx, e);
    OtherUnrenamed(f, b, t);
    OtherUnrenamed(f, b, e);
    TwinsRenamed(s, f.blocks[t].body, f.blocks[e].body);
    RejoinsRenamed(s, f.blocks[t].body);
    LeavesThroughCloned(f, b, ctx, t, d);
    LeavesThroughCloned(f, b, ctx, e, d);
    JoinsCloned(f, b, ctx, t, e, d);
    hide PlainBlock, TwinBodies, LeavesThrough, Joins, Unrenamed, Rejoins, WellFormed, CtxOk;
  }

  // Over all the targets

  /** The label of the first clone of the j-th target; the second clone and the tail follow. */
  function Nth(f: Fn, j: nat): Label {
    f.nextLabel + 3 * j
  }

  /** The values of the body are new, and the remapper leads to none of them. */
  ghost predicate Clear(n: nat, remapper: Sub, body: seq<Instr>) {
    forall j :: 0 <= j < |body| && !body[j].ty.Void? ==> body[j].id >= n && forall x :: x in remapper ==> remapper[x] != body[j].id
  }

  /** The clones of the j-th target are a pair, whatever has been cloned since, and rejoin if the original body allows it. */
  ghost predicate PairOk(f: Fn, ts: seq<Target>, j: nat, c: Cloned) {
    j < |ts| && ts[j].block in f.blocks
    && var t, e := Nth(f, j), Nth(f, j) + 1;
       && Pair(c.fn, t, e) && c.fn.blocks[t].term == Br(t + 2)
       && (Rejoins(c.fn.blocks[t].body) <==> Rejoins(f.blocks[ts[j].block].body))
       && Clear(f.nextId, c.remapper, c.fn.blocks[t].body) && Clear(f.nextId, c.remapper, c.fn.blocks[e].body)
  }

  /** A target still to be cloned has the original's shape. */
  ghost predicate WaitsOk(f: Fn, ts: seq<Target>, j: nat, c: Cloned) {
    j < |ts| && ts[j].block in f.blocks && ts[j].block in c.fn.blocks
    && (Rejoins(c.fn.blocks[ts[j].block].body) <==> Rejoins(f.blocks[ts[j].block].body))
  }

  ghost predicate RemapperOk(c: Cloned) {
    OneHop(c.remapper) && forall x :: x in c.remapper ==> x < c.fn.nextId && c.remapper[x] < c.fn.nextId
  }

  /** After k targets. */
  ghost predicate CloneOk(f: Fn, ts: seq<Target>, k: nat, c: Cloned) {
    && WellFormed(c.fn) && DbgPlain(c.fn)
    && c.fn.nextLabel == Nth(f, k) && f.nextId <= c.fn.nextId
    && Pending(c.fn, ts, k, c.remapper) && RemapperOk(c)
    && (forall j :: 0 <= j < k ==> PairOk(f, ts, j, c))
    && (forall j :: k <= j < |ts| ==> WaitsOk(f, ts, j, c))
  }

  ghost predicate Targets(f: Fn, ts: seq<Target>) {
    DistinctBlocks(ts) && forall j :: 0 <= j < |ts| ==> ts[j].block in f.blocks && (ts[j].context.Local? ==> ts[j].context.id < f.nextId)
  }

  function CloneNext(c: Cloned, t: Target): Cloned
    requires t.block in c.fn.blocks
  {
    Cloned(CloneFn(c.fn, t.block, RenOp(c.remapper, t.context)), c.remapper + PhiSub(c.fn.nextId, c.fn.blocks[t.block].body))
  }

  lemma PhiSubValues(f: Fn, b: Label, x: nat)
    requires FreshNames(f) && Unique(f) && b in f.blocks && x in PhiSub(f.nextId, f.blocks[b].body)
    ensures exists m :: 0 <= m < |f.blocks[b].body| && PhiSub(f.nextId, f.blocks[b].body)[x] == CopyId(f.nextId, MERGED, m)
  {
    var body := f.blocks[b].body;
    BlockIdsDistinct(f, b);
    BindingsFacts(f.nextId, body, MERGED, |body|);
    var m :| 0 <= m < |body| && !body[m].ty.Void? && body[m].id == x;
  }

  /** The context value under its present name is no copy in a clone. */
  lemma CtxNotOwn(n: nat, remapper: Sub, body: seq<Instr>, x: Operand)
    requires Clear(n, remapper, body) && (x.Local? ==> x.id < n)
    ensures !Own(body, RenOp(remapper, x))
  {
  }

  lemma ClearKept(n: nat, f: Fn, b: Label, remapper: Sub, l: Label)
    requires FreshNames(f) && Unique(f) && b in f.blocks && l in f.blocks && Clear(n, remapper, f.blocks[l].body)
    ensures var s := PhiSub(f.nextId, f.blocks[b].body); Clear(n, remapper + s, RenBody(s, f.blocks[l].body))
  {
    var s, body := PhiSub(f.nextId, f.blocks[b].body), f.blocks[l].body;
    BlockIdsDistinct(f, b);
    PhiSubActs(f.nextId, f.blocks[b].body);
    forall j | 0 <= j < |body| && !body[j].ty.Void?
      ensures forall x :: x in remapper + s ==> (remapper + s)[x] != body[j].id
    {
      assert SiteId(f, InstrSite(l, j)) == body[j].id;
    }
  }

  lemma ClearStarts(f: Fn, b: Label, remapper: Sub, which: nat)
    requires FreshNames(f) && Unique(f) && b in f.blocks && which < 2
    requires forall x :: x in remapper ==> remapper[x] < f.nextId
    ensures Clear(f.nextId, remapper + PhiSub(f.nextId, f.blocks[b].body), CloneBlock(f, b, which).body)
  {
    var s, body := PhiSub(f.nextId, f.blocks[b].body), CloneBlock(f, b, which).body;
    forall j, x | 0 <= j < |body| && x in remapper + s
      ensures (remapper + s)[x] != body[j].id
    {
      if x in s {
        PhiSubValues(f, b, x);
        var m :| 0 <= m < |f.blocks[b].body| && s[x] == CopyId(f.nextId, MERGED, m);
        CopyIdApart(f.nextId, MERGED, m, which, j);
      }
    }
  }

  lemma RemapperKept(c: Cloned, t: Target)
    requires WellFormed(c.fn) && t.block in c.fn.blocks && RemapperOk(c) && Spares(c.remapper, c.fn.blocks[t.block])
    ensures RemapperOk(CloneNext(c, t))
  {
    var f, b := c.fn, t.block;
    OneHopKept(f, b, c.remapper);
    RemapperBelow(f, b);
    forall x | x in PhiSub(f.nextId, f.blocks[b].body)
      ensures PhiSub(f.nextId, f.blocks[b].body)[x] < CloneNext(c, t).fn.nextId
    {
      PhiSubValues(f, b, x);
    }
  }

  /** The k-th target becomes a pair. */
  lemma PairStarts(f: Fn, ts: seq<Target>, k: nat, c: Cloned)
    requires CloneOk(f, ts, k, c) && k < |ts| && Targets(f, ts) && ts[k].block in c.fn.blocks
    ensures PairOk(f, ts, k, CloneNext(c, ts[k]))
  {
    hide Pair, Rejoins, CloneFn;
    var b, ctx := ts[k].block, RenOp(c.remapper, ts[k].context);
    assert WaitsOk(f, ts, k, c);
    CloneMakesPair(c.fn, b, ctx);
    ClearStarts(c.fn, b, c.remapper, THEN);
    ClearStarts(c.fn, b, c.remapper, ELSE);
    ClearWeaker(f.nextId, c.fn.nextId, c.remapper + PhiSub(c.fn.nextId, c.fn.blocks[b].body), CloneBlock(c.fn, b, THEN).body);
    ClearWeaker(f.nextId, c.fn.nextId, c.remapper + PhiSub(c.fn.nextId, c.fn.blocks[b].body), CloneBlock(c.fn, b, ELSE).body);
    assert CloneBlock(c.fn, b, THEN).term == Br(Nth(f, k) + 2);
  }

  lemma ClearWeaker(n: nat, m: nat, remapper: Sub, body: seq<Instr>)
    requires n <= m && Clear(m, remapper, body)
    ensures Clear(n, remapper, body)
  {
  }

  /** The pairs made before stay pairs. */
  lemma PairLasts(f: Fn, ts: seq<Target>, k: nat, c: Cloned, j: nat)
    requires CloneOk(f, ts, k, c) && j < k < |ts| && Targets(f, ts) && FreshNames(f) && ts[k].block in c.fn.blocks
    ensures PairOk(f, ts, j, CloneNext(c, ts[k]))
  {
    var b, ctx := ts[k].block, RenOp(c.remapper, ts[k].context);
    var t, e := Nth(f, j), Nth(f, j) + 1;
    assert PairOk(f, ts, j, c);
    assert b < f.nextLabel;
    CtxNotOwn(f.nextId, c.remapper, c.fn.blocks[t].body, ts[k].context);
    CtxNotOwn(f.nextId, c.remapper, c.fn.blocks[e].body, ts[k].context);
    assert CtxOk(c.fn, b, ctx);
    assert t in c.fn.blocks && e in c.fn.blocks;
    ClearKept(f.nextId, c.fn, b, c.remapper, t);
    ClearKept(f.nextId, c.fn, b, c.remapper, e);
    hide Clear, Pair, Rejoins, CloneFn, Own, CtxOk;
    PairCloned(c.fn, b, ctx, t, e);
  }

  lemma WaitsOn(f: Fn, ts: seq<Target>, k: nat, c: Cloned, j: nat)
    requires CloneOk(f, ts, k, c) && k < j < |ts| && Targets(f, ts) && ts[k].block in c.fn.blocks
    ensures WaitsOk(f, ts, j, CloneNext(c, ts[k]))
  {
    var b, l := ts[k].block, ts[j].block;
    assert WaitsOk(f, ts, j, c) && l != b;
    OtherUnrenamed(c.fn, b, l);
    RejoinsRenamed(PhiSub(c.fn.nextId, c.fn.blocks[b].body), c.fn.blocks[l].body);
    assert CloneNext(c, ts[k]).fn.blocks[l] == OldBlock(c.fn, b, RenOp(c.remapper, ts[k].context), l);
  }

  lemma CloneOkNext(f: Fn, ts: seq<Target>, k: nat, c: Cloned)
    requires CloneOk(f, ts, k, c) && k < |ts| && Targets(f, ts) && FreshNames(f)
    ensures ts[k].block in c.fn.blocks && CloneOk(f, ts, k + 1, CloneNext(c, ts[k]))
  {
    var b, ctx := ts[k].block, RenOp(c.remapper, ts[k].context);
    var d := CloneNext(c, ts[k]);
    CloneWellFormed(c.fn, b, ctx);
    CloneDbgPlain(c.fn, b, ctx);
    PendingKept(c.fn, ts, k, c.remapper);
    RemapperKept(c, ts[k]);
    PairStarts(f, ts, k, c);
    hide PairOk, WaitsOk, WellFormed, DbgPlain, Pending, RemapperOk;
    forall j | 0 <= j < k + 1
      ensures PairOk(f, ts, j, d)
    {
      if j < k {
        PairLasts(f, ts, k, c, j);
      }
    }
    forall j | k + 1 <= j < |ts|
      ensures WaitsOk(f, ts, j, d)
    {
      WaitsOn(f, ts, k, c, j);
    }
  }

  lemma {:induction false} CloneAllOk(f: Fn, ts: seq<Target>, k: nat)
    requires WellFormed(f) && DbgPlain(f) && Targets(f, ts) && Pending(f, ts, 0, map[]) && k <= |ts|
    ensures CloneOk(f, ts, k, CloneAll(f, ts[..k]))
  {
    if k > 0 {
      CloneAllOk(f, ts, k - 1);
      CloneOkNext(f, ts, k - 1, CloneAll(f, ts[..k - 1]));
      assert ts[..k][..k - 1] == ts[..k - 1];
    }
  }

  lemma ChosenTargets(f: Fn, order: seq<Label>, ts: seq<Target>)
    requires WellFormed(f) && Chosen(f, order, ts) && forall l :: l in order ==> l in f.blocks
    ensures Targets(f, ts) && Pending(f, ts, 0, map[])
  {
    forall j | 0 <= j < |ts|
      ensures CtxOk(f, ts[j].block, ts[j].context) && RenOp(map[], ts[j].context) == ts[j].context
      ensures ts[j].context.Local? ==> ts[j].context.id < f.nextId
    {
      assert IsReachableValue(f, ts[j].block, ts[j].context);
      if ts[j].context.Local? {
        ReachableValueIsAvailable(f, ts[j].block, ts[j].context);
      }
      CtxBelow(f, ts[j].block, ts[j].context);
    }
  }

  /** What DuplicateBB leaves: for every target a pair of clones that rejoin exactly if the original body allows it. */
  lemma ClonedPairs(f: Fn, order: seq<Label>, ts: seq<Target>, j: nat)
    requires WellFormed(f) && DbgPlain(f) && Chosen(f, order, ts) && (forall l :: l in order ==> l in f.blocks) && j < |ts|
    ensures ts[j].block in f.blocks && MergeReady(CloneAll(f, ts).fn)
    ensures var g := CloneAll(f, ts).fn;
            Pair(g, Nth(f, j), Nth(f, j) + 1) && (Rejoins(g.blocks[Nth(f, j)].body) <==> Rejoins(f.blocks[ts[j].block].body))
  {
    hide WellFormed, DbgPlain, Chosen, MergeReady, CloneAll, Pair, Nth, Rejoins, CloneOk, Clear;
    ChosenTargets(f, order, ts);
    CloneAllOk(f, ts, |ts|);
    assert ts[..|ts|] == ts;
    WellFormedIsReady(CloneAll(f, ts).fn);
    assert PairOk(f, ts, j, CloneAll(f, ts));
  }

  /**
   On the output of DuplicateBB, whatever was cloned before or after, the checks of MergeBB accept the two clones of a
   block exactly when the block computes at most one value and no instruction of it reads a value of it.
   */
  lemma ClonesQualifyIff(f: Fn, order: seq<Label>, ts: seq<Target>, j: nat, erased: set<Label>)
    requires WellFormed(f) && DbgPlain(f) && Chosen(f, order, ts) && (forall l :: l in order ==> l in f.blocks) && j < |ts|
    requires Nth(f, j) + 1 !in erased
    ensures ts[j].block in f.blocks
    ensures Qualifies(CloneAll(f, ts).fn, erased, Nth(f, j), Nth(f, j) + 1) <==> Rejoins(f.blocks[ts[j].block].body)
  {
    ClonedPairs(f, order, ts, j);
    PairQualifiesIff(CloneAll(f, ts).fn, Nth(f, j), Nth(f, j) + 1, erased);
  }

  /**
   A run of MergeBB on the output of DuplicateBB, in any order, erases one of the two clones of a block
   exactly when the block computes at most one value and no instruction of it reads a value of it.
   */
  lemma ClonesMergeIff(f: Fn, order: seq<Label>, ts: seq<Target>, j: nat, turns: seq<Label>, merges: seq<MergeStep>)
    requires WellFormed(f) && DbgPlain(f) && Chosen(f, order, ts) && (forall l :: l in order ==> l in f.blocks) && j < |ts|
    requires Turns(CloneAll(f, ts).fn, turns, merges) && (Nth(f, j) in turns || Nth(f, j) + 1 in turns)
    ensures ts[j].block in f.blocks
    ensures Nth(f, j) in Erased(merges) || Nth(f, j) + 1 in Erased(merges) <==> Rejoins(f.blocks[ts[j].block].body)
  {
    hide WellFormed, DbgPlain, Chosen, Turns, CloneAll, Nth, Erased, Rejoins, Pair, MergeReady, SameBlocks, AfterMerges;
    ClonedPairs(f, order, ts, j);
    TurnsPair(CloneAll(f, ts).fn, turns, merges, Nth(f, j), Nth(f, j) + 1);
  }
}
