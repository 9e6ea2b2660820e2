/** Cloning a block keeps the function well formed: unique definitions, complete PHIs, definitions that dominate uses. */
module CloneSsa {
  import opened Ir
  import opened Ssa
  import opened Rename
  import opened Clone

  // The new control-flow graph

  lemma CloneEdges(f: Fn, b: Label, ctx: Operand, x: Label, y: Label)
    requires Closed(f) && FreshNames(f) && b in f.blocks
    ensures var g := CloneFn(f, b, ctx);
            IsEdge(g, x, y) <==>
              || (x == b && (y == ThenLabel(f) || y == ElseLabel(f)))
              || ((x == ThenLabel(f) || x == ElseLabel(f)) && y == TailLabel(f))
              || (x == TailLabel(f) && IsEdge(f, b, y))
              || (x != b && IsEdge(f, x, y))
  {
    var s := PhiSub(f.nextId, f.blocks[b].body);
    RenTermArgs(s, f.blocks[b].term);
    if x in f.blocks {
      RenTermArgs(s, f.blocks[x].term);
    }
  }

  lemma CloneClosed(f: Fn, b: Label, ctx: Operand)
    requires Closed(f) && FreshNames(f) && b in f.blocks
    ensures Closed(CloneFn(f, b, ctx))
  {
    var g := CloneFn(f, b, ctx);
    forall x, y | IsEdge(g, x, y)
      ensures y in g.blocks && y != g.entry
    {
      CloneEdges(f, b, ctx, x, y);
    }
    assert g.blocks[f.entry].phis == [];
  }

  /** The original block a block of the clone stands for. */
  function Origin(f: Fn, b: Label, x: Label): Label {
    if x == ThenLabel(f) || x == ElseLabel(f) || x == TailLabel(f) then b else x
  }

  /** Every path of the clone projects to a path of the original that visits only blocks of it; leaving b takes the tail. */
  lemma {:induction false} Collapse(f: Fn, b: Label, ctx: Operand, p: seq<Label>) returns (q: seq<Label>)
    requires Closed(f) && FreshNames(f) && b in f.blocks
    requires Path(CloneFn(f, b, ctx), p)
    ensures Path(f, q) && Last(q) == Origin(f, b, Last(p))
    ensures forall x :: x in q ==> x in p
    ensures b in q[..|q| - 1] ==> TailLabel(f) in p
    decreases |p|
  {
    if |p| == 1 {
      q := p;
    } else {
      var p0 := p[..|p| - 1];
      var q0 := Collapse(f, b, ctx, p0);
      assert IsEdge(CloneFn(f, b, ctx), p[|p| - 2], p[|p| - 1]);
      CloneEdges(f, b, ctx, Last(p0), Last(p));
      forall x | x in q0
        ensures x in p
      {
        assert x in p0;
      }
      if Last(p) == ThenLabel(f) || Last(p) == ElseLabel(f) || Last(p) == TailLabel(f) {
        q := q0;
        CollapseStays(f, b, ctx, Last(p0), Last(p));
      } else {
        q := q0 + [Last(p)];
        assert IsEdge(f, Last(q0), Last(p));
        assert q[..|q| - 1] == q0;
        assert p == p0 + [Last(p)];
        if b in q0 && b !in q0[..|q0| - 1] {
          assert Last(q0) == b;
          assert Last(p0) in p;
        }
      }
    }
  }

  lemma CollapseStays(f: Fn, b: Label, ctx: Operand, x: Label, y: Label)
    requires Closed(f) && FreshNames(f) && b in f.blocks
    requires IsEdge(CloneFn(f, b, ctx), x, y)
    requires y == ThenLabel(f) || y == ElseLabel(f) || y == TailLabel(f)
    ensures Origin(f, b, x) == b
  {
    CloneEdges(f, b, ctx, x, y);
  }

  // Dominance

  lemma DominatesKept(f: Fn, b: Label, ctx: Operand, d: Label, x: Label)
    requires Closed(f) && FreshNames(f) && b in f.blocks
    requires Dominates(f, d, Origin(f, b, x))
    ensures Dominates(CloneFn(f, b, ctx), d, x)
  {
    forall p | Path(CloneFn(f, b, ctx), p) && Last(p) == x
      ensures d in p
    {
      var q := Collapse(f, b, ctx, p);
      assert d in q;
    }
  }

  lemma TailDominates(f: Fn, b: Label, ctx: Operand, l: Label)
    requires Closed(f) && FreshNames(f) && b in f.blocks && l in f.blocks
    requires Dominates(f, b, l) && l != b
    ensures Dominates(CloneFn(f, b, ctx), TailLabel(f), l)
  {
    forall p | Path(CloneFn(f, b, ctx), p) && Last(p) == l
      ensures TailLabel(f) in p
    {
      var q := Collapse(f, b, ctx, p);
      assert b in q;
      assert q == q[..|q| - 1] + [l];
    }
  }

  lemma SelfDominates(f: Fn, d: Label)
    ensures Dominates(f, d, d)
  {
  }

  // Where values are defined in the clone

  /** Each merging PHI merges the clones of some value-producing instruction. */
  lemma {:induction false} MergePhisAre(base: Id, body: seq<Instr>, k: nat, t: Label, e: Label, p: nat) returns (j: nat)
    requires k <= |body| && p < |MergePhis(base, body, k, t, e)|
    ensures k <= j < |body| && !body[j].ty.Void? && MergePhis(base, body, k, t, e)[p] == MergePhi(base, body[j], j, t, e)
    decreases |body| - k
  {
    var phis := MergePhis(base, body, k, t, e);
    var rest := MergePhis(base, body, k + 1, t, e);
    if body[k].ty.Void? {
      assert phis == rest;
      j := MergePhisAre(base, body, k + 1, t, e, p);
    } else if p == 0 {
      j := k;
    } else {
      assert phis[1..] == rest && phis[p] == rest[p - 1];
      j := MergePhisAre(base, body, k + 1, t, e, p - 1);
    }
  }

  lemma MergePhisStep(base: Id, body: seq<Instr>, k: nat, t: Label, e: Label)
    requires k <= |body|
    ensures k == |body| ==> MergePhis(base, body, k, t, e) == []
    ensures k < |body| ==>
              MergePhis(base, body, k, t, e)
              == (if body[k].ty.Void? then [] else [MergePhi(base, body[k], k, t, e)]) + MergePhis(base, body, k + 1, t, e)
  {
  }

  lemma {:induction false} MergePhisIncrease(base: Id, body: seq<Instr>, k: nat, t: Label, e: Label, p: nat, q: nat)
    requires k <= |body| && p < q < |MergePhis(base, body, k, t, e)|
    ensures MergePhis(base, body, k, t, e)[p].id < MergePhis(base, body, k, t, e)[q].id
    decreases |body| - k
  {
    hide MergePhis;
    MergePhisStep(base, body, k, t, e);
    var rest := MergePhis(base, body, k + 1, t, e);
    if body[k].ty.Void? {
      MergePhisIncrease(base, body, k + 1, t, e, p, q);
    } else if p == 0 {
      var j := MergePhisAre(base, body, k + 1, t, e, q - 1);
    } else {
      MergePhisIncrease(base, body, k + 1, t, e, p - 1, q - 1);
    }
  }

  lemma {:induction false} MergePhisHave(base: Id, body: seq<Instr>, k: nat, t: Label, e: Label, j: nat) returns (p: nat)
    requires k <= j < |body| && !body[j].ty.Void?
    ensures p < |MergePhis(base, body, k, t, e)| && MergePhis(base, body, k, t, e)[p] == MergePhi(base, body[j], j, t, e)
    decreases j - k
  {
    var phis := MergePhis(base, body, k, t, e);
    var rest := MergePhis(base, body, k + 1, t, e);
    if k == j {
      p := 0;
    } else {
      p := MergePhisHave(base, body, k + 1, t, e, j);
      if body[k].ty.Void? {
        assert phis == rest;
      } else {
        assert phis[1..] == rest;
        p := p + 1;
      }
    }
  }

  lemma BodyDefMoves(f: Fn, b: Label, ctx: Operand, d: Label, i: Id)
    requires FreshNames(f) && Unique(f) && b in f.blocks && DefinesIn(f, d, i)
    requires i in BodyDefs(f.blocks[b].body, |f.blocks[b].body|)
    ensures d == b && DefinesIn(CloneFn(f, b, ctx), TailLabel(f), Ren(PhiSub(f.nextId, f.blocks[b].body), i))
  {
    var body := f.blocks[b].body;
    BlockIdsDistinct(f, b);
    BindingsFacts(f.nextId, body, MERGED, |body|);
    var j :| 0 <= j < |body| && !body[j].ty.Void? && body[j].id == i;
    DefSite(f, d, i, InstrSite(b, j));
    var phis := TailBlock(f, b).phis;
    var p := MergePhisHave(f.nextId, body, 0, ThenLabel(f), ElseLabel(f), j);
    assert phis[p].id in PhiDefs(phis);
    assert CloneFn(f, b, ctx).blocks[TailLabel(f)] == TailBlock(f, b);
  }

  lemma OtherDefStays(f: Fn, b: Label, ctx: Operand, d: Label, i: Id)
    requires FreshNames(f) && Unique(f) && b in f.blocks && DefinesIn(f, d, i)
    requires i !in BodyDefs(f.blocks[b].body, |f.blocks[b].body|)
    ensures Ren(PhiSub(f.nextId, f.blocks[b].body), i) == i && DefinesIn(CloneFn(f, b, ctx), d, i)
  {
    var body := f.blocks[b].body;
    BlockIdsDistinct(f, b);
    PhiSubActs(f.nextId, body);
    var blk := f.blocks[d];
    var blk' := CloneFn(f, b, ctx).blocks[d];
    assert blk' == OldBlock(f, b, ctx, d);
    if i in PhiDefs(blk.phis) {
      var k :| 0 <= k < |blk.phis| && blk.phis[k].id == i;
      assert blk'.phis[k].id == i;
    } else {
      var k :| 0 <= k < |blk.body| && !blk.body[k].ty.Void? && blk.body[k].id == i;
      assert blk'.body[k].id == i;
    }
  }

  /** A value of b's body moves to the tail under its PHI's name; every other value stays where it is. */
  lemma DefKept(f: Fn, b: Label, ctx: Operand, d: Label, i: Id)
    requires FreshNames(f) && Unique(f) && b in f.blocks && DefinesIn(f, d, i)
    ensures var g := CloneFn(f, b, ctx);
            var s := PhiSub(f.nextId, f.blocks[b].body);
            if i in BodyDefs(f.blocks[b].body, |f.blocks[b].body|)
            then d == b && DefinesIn(g, TailLabel(f), Ren(s, i))
            else Ren(s, i) == i && DefinesIn(g, d, i)
  {
    if i in BodyDefs(f.blocks[b].body, |f.blocks[b].body|) {
      BodyDefMoves(f, b, ctx, d, i);
    } else {
      OtherDefStays(f, b, ctx, d, i);
    }
  }

  /** A value available on entry to a block stays available there, under its new name. */
  lemma AvailInKept(f: Fn, b: Label, ctx: Operand, l: Label, x: Label, i: Id)
    requires Closed(f) && FreshNames(f) && Unique(f) && b in f.blocks && l in f.blocks
    requires AvailIn(f, l, i) && Origin(f, b, x) == l
    ensures AvailIn(CloneFn(f, b, ctx), x, Ren(PhiSub(f.nextId, f.blocks[b].body), i))
  {
    var g := CloneFn(f, b, ctx);
    var d :| DefinesIn(f, d, i) && d != l && Dominates(f, d, l);
    DefKept(f, b, ctx, d, i);
    if i in BodyDefs(f.blocks[b].body, |f.blocks[b].body|) {
      TailDominates(f, b, ctx, l);
    } else {
      DominatesKept(f, b, ctx, d, x);
    }
  }

  /** The same for values available on leaving a block; b is now left from the tail. */
  lemma AvailOutKept(f: Fn, b: Label, ctx: Operand, p: Label, i: Id)
    requires Closed(f) && FreshNames(f) && Unique(f) && b in f.blocks && p in f.blocks
    requires AvailOut(f, p, i)
    ensures AvailOut(CloneFn(f, b, ctx), Ren(map[b := TailLabel(f)], p), Ren(PhiSub(f.nextId, f.blocks[b].body), i))
  {
    var g := CloneFn(f, b, ctx);
    var d :| DefinesIn(f, d, i) && Dominates(f, d, p);
    DefKept(f, b, ctx, d, i);
    if i in BodyDefs(f.blocks[b].body, |f.blocks[b].body|) {
      if p == b {
        SelfDominates(g, TailLabel(f));
      } else {
        TailDominates(f, b, ctx, p);
      }
    } else {
      DominatesKept(f, b, ctx, d, Ren(map[b := TailLabel(f)], p));
    }
  }

  // One definition per id

  /** Where a definition of the clone comes from. */
  ghost predicate SiteClass(f: Fn, b: Label, s: Site, i: Id)
    requires b in f.blocks
  {
    || (HasSite(f, s) && i == SiteId(f, s) && !(s.InstrSite? && s.l == b))
    || (s == InstrSite(b, 0) && i == f.nextId)
    || (s.InstrSite? && s.l == ThenLabel(f) && s.k < |f.blocks[b].body| && i == CopyId(f.nextId, THEN, s.k))
    || (s.InstrSite? && s.l == ElseLabel(f) && s.k < |f.blocks[b].body| && i == CopyId(f.nextId, ELSE, s.k))
    || (s.PhiSite? && s.l == TailLabel(f) && exists j :: 0 <= j < |f.blocks[b].body| && i == CopyId(f.nextId, MERGED, j))
  }

  lemma CloneSites(f: Fn, b: Label, ctx: Operand, s: Site)
    requires FreshNames(f) && b in f.blocks && HasSite(CloneFn(f, b, ctx), s)
    ensures SiteClass(f, b, s, SiteId(CloneFn(f, b, ctx), s))
  {
    var g := CloneFn(f, b, ctx);
    var body := f.blocks[b].body;
    if s.l == TailLabel(f) {
      assert g.blocks[s.l] == TailBlock(f, b);
      if s.PhiSite? {
        var j := MergePhisAre(f.nextId, body, 0, ThenLabel(f), ElseLabel(f), s.k);
      }
    } else if s.l == ThenLabel(f) {
      assert g.blocks[s.l] == CloneBlock(f, b, THEN);
    } else if s.l == ElseLabel(f) {
      assert g.blocks[s.l] == CloneBlock(f, b, ELSE);
    } else {
      assert g.blocks[s.l] == OldBlock(f, b, ctx, s.l);
    }
  }

  lemma CloneFresh(f: Fn, b: Label, ctx: Operand)
    requires FreshNames(f) && b in f.blocks
    ensures FreshNames(CloneFn(f, b, ctx))
  {
    var g := CloneFn(f, b, ctx);
    forall s | HasSite(g, s)
      ensures SiteId(g, s) < g.nextId
    {
      CloneSites(f, b, ctx, s);
    }
  }

  lemma CloneUnique(f: Fn, b: Label, ctx: Operand)
    requires FreshNames(f) && Unique(f) && b in f.blocks
    ensures Unique(CloneFn(f, b, ctx))
  {
    var g := CloneFn(f, b, ctx);
    forall s, t | HasSite(g, s) && HasSite(g, t) && SiteId(g, s) == SiteId(g, t)
      ensures s == t
    {
      CloneSites(f, b, ctx, s);
      CloneSites(f, b, ctx, t);
      SiteIdsApart(f, b, ctx, s, t, SiteId(g, s));
    }
  }

  lemma SiteIdsApart(f: Fn, b: Label, ctx: Operand, s: Site, t: Site, i: Id)
    requires FreshNames(f) && Unique(f) && b in f.blocks
    requires SiteClass(f, b, s, i) && SiteClass(f, b, t, i)
    requires HasSite(CloneFn(f, b, ctx), s) && HasSite(CloneFn(f, b, ctx), t)
    requires SiteId(CloneFn(f, b, ctx), s) == SiteId(CloneFn(f, b, ctx), t)
    ensures s == t
  {
    if i < f.nextId {
      assert HasSite(f, s) && HasSite(f, t);
    } else if s.PhiSite? && s.l == TailLabel(f) {
      var j :| 0 <= j < |f.blocks[b].body| && i == CopyId(f.nextId, MERGED, j);
      assert t.PhiSite? && t.l == TailLabel(f) by {
        if t.InstrSite? && t.l == ThenLabel(f) {
          CopyIdApart(f.nextId, MERGED, j, THEN, t.k);
        }
        if t.InstrSite? && t.l == ElseLabel(f) {
          CopyIdApart(f.nextId, MERGED, j, ELSE, t.k);
        }
      }
      var phis := TailBlock(f, b).phis;
      assert CloneFn(f, b, ctx).blocks[TailLabel(f)] == TailBlock(f, b);
      assert phis[s.k].id == phis[t.k].id;
      if s.k != t.k {
        MergePhisIncrease(f.nextId, f.blocks[b].body, 0, ThenLabel(f), ElseLabel(f),
                          if s.k < t.k then s.k else t.k, if s.k < t.k then t.k else s.k);
      }
    } else {
      assert !(t.PhiSite? && t.l == TailLabel(f)) by {
        if exists j :: 0 <= j < |f.blocks[b].body| && i == CopyId(f.nextId, MERGED, j) {
          var j :| 0 <= j < |f.blocks[b].body| && i == CopyId(f.nextId, MERGED, j);
          CopyIdApart(f.nextId, MERGED, j, THEN, s.k);
          CopyIdApart(f.nextId, MERGED, j, ELSE, s.k);
        }
      }
      CopyIdApart(f.nextId, THEN, s.k, ELSE, t.k);
      CopyIdApart(f.nextId, ELSE, s.k, THEN, t.k);
    }
  }

  // PHIs have one entry per predecessor

  lemma OldPhiComplete(f: Fn, b: Label, ctx: Operand, l: Label, edges: seq<Edge>)
    requires Closed(f) && FreshNames(f) && b in f.blocks && l in f.blocks
    requires OneEdgePerPred(f, l, edges)
    ensures OneEdgePerPred(CloneFn(f, b, ctx), l, RenEdges(PhiSub(f.nextId, f.blocks[b].body), map[b := TailLabel(f)], edges))
  {
    var g := CloneFn(f, b, ctx);
    var m := map[b := TailLabel(f)];
    var edges' := RenEdges(PhiSub(f.nextId, f.blocks[b].body), m, edges);
    forall j, k | 0 <= j < k < |edges'|
      ensures edges'[j].from != edges'[k].from
    {
      assert IsEdge(f, edges[j].from, l) && IsEdge(f, edges[k].from, l);
    }
    forall k | 0 <= k < |edges'|
      ensures IsEdge(g, edges'[k].from, l)
    {
      CloneEdges(f, b, ctx, edges'[k].from, l);
      assert IsEdge(f, edges[k].from, l);
    }
    forall p | IsEdge(g, p, l)
      ensures HasEntry(edges', p)
    {
      CloneEdges(f, b, ctx, p, l);
      var p0 := if p == TailLabel(f) then b else p;
      assert HasEntry(edges, p0);
      var k :| 0 <= k < |edges| && edges[k].from == p0;
      assert edges'[k].from == p;
    }
  }

  lemma ClonePhisComplete(f: Fn, b: Label, ctx: Operand)
    requires Closed(f) && FreshNames(f) && PhisComplete(f) && b in f.blocks
    ensures PhisComplete(CloneFn(f, b, ctx))
  {
    var g := CloneFn(f, b, ctx);
    var body := f.blocks[b].body;
    forall l, k | l in g.blocks && 0 <= k < |g.blocks[l].phis|
      ensures OneEdgePerPred(g, l, g.blocks[l].phis[k].edges)
    {
      if l in f.blocks {
        assert g.blocks[l] == OldBlock(f, b, ctx, l);
        OldPhiComplete(f, b, ctx, l, f.blocks[l].phis[k].edges);
      } else if l == TailLabel(f) {
        assert g.blocks[l] == TailBlock(f, b);
        var j := MergePhisAre(f.nextId, body, 0, ThenLabel(f), ElseLabel(f), k);
        var edges := g.blocks[l].phis[k].edges;
        assert edges[0].from == ThenLabel(f) && edges[1].from == ElseLabel(f) && |edges| == 2;
        forall p
          ensures IsEdge(g, p, l) <==> p == ThenLabel(f) || p == ElseLabel(f)
        {
          CloneEdges(f, b, ctx, p, l);
        }
      }
    }
  }

  // Definitions dominate uses

  lemma OldUseKept(f: Fn, b: Label, ctx: Operand, l: Label, k: nat, x: Operand)
    requires Closed(f) && FreshNames(f) && Unique(f) && b in f.blocks && l in f.blocks && l != b
    requires k <= |f.blocks[l].body| && UseOk(f, l, k, x)
    ensures var g := CloneFn(f, b, ctx);
            |g.blocks[l].body| == |f.blocks[l].body| && UseOk(g, l, k, RenOp(PhiSub(f.nextId, f.blocks[b].body), x))
  {
    var g := CloneFn(f, b, ctx);
    var s := PhiSub(f.nextId, f.blocks[b].body);
    var blk := f.blocks[l];
    assert g.blocks[l] == RenBlock(s, map[b := TailLabel(f)], blk);
    if x.Local? {
      if x.id in DefsUpTo(blk, k) {
        assert DefinesIn(f, l, x.id) by {
          DefsGrow(blk, k);
        }
        DefKept(f, b, ctx, l, x.id);
        RenKeepsDefs(s, map[b := TailLabel(f)], blk, k);
      } else {
        AvailInKept(f, b, ctx, l, l, x.id);
      }
    }
  }

  lemma RenKeepsDefs(s: Sub, m: Sub, b: Block, k: nat)
    requires k <= |b.body|
    ensures DefsUpTo(RenBlock(s, m, b), k) == DefsUpTo(b, k)
  {
    var b' := RenBlock(s, m, b);
    assert forall j :: 0 <= j < |b.body| ==> b'.body[j].id == b.body[j].id && b'.body[j].ty == b.body[j].ty;
    assert forall j :: 0 <= j < |b.phis| ==> b'.phis[j].id == b.phis[j].id;
    assert BodyDefs(b'.body, k) == BodyDefs(b.body, k);
    assert PhiDefs(b'.phis) == PhiDefs(b.phis);
  }

  lemma OldBlockUses(f: Fn, b: Label, ctx: Operand, l: Label)
    requires WellFormed(f) && b in f.blocks && l in f.blocks && l != b
    ensures BodyUsesOk(CloneFn(f, b, ctx), l) && TermUsesOk(CloneFn(f, b, ctx), l)
  {
    var g := CloneFn(f, b, ctx);
    var s := PhiSub(f.nextId, f.blocks[b].body);
    var blk := f.blocks[l];
    assert BodyUsesOk(f, l) && TermUsesOk(f, l);
    assert g.blocks[l] == RenBlock(s, map[b := TailLabel(f)], blk);
    forall k, a | 0 <= k < |blk.body| && 0 <= a < |blk.body[k].args|
      ensures UseOk(g, l, k, g.blocks[l].body[k].args[a])
    {
      OldUseKept(f, b, ctx, l, k, blk.body[k].args[a]);
    }
    RenTermArgs(s, blk.term);
    forall a | 0 <= a < |TermArgs(blk.term)|
      ensures UseOk(g, l, |blk.body|, TermArgs(g.blocks[l].term)[a])
    {
      OldUseKept(f, b, ctx, l, |blk.body|, TermArgs(blk.term)[a]);
    }
  }

  lemma OldPhiUses(f: Fn, b: Label, ctx: Operand, l: Label)
    requires WellFormed(f) && b in f.blocks && l in f.blocks
    ensures PhiUsesOk(CloneFn(f, b, ctx), l)
  {
    var g := CloneFn(f, b, ctx);
    var phis := f.blocks[l].phis;
    assert g.blocks[l] == OldBlock(f, b, ctx, l);
    assert PhiUsesOk(f, l);
    forall k, e | 0 <= k < |phis| && 0 <= e < |phis[k].edges|
      ensures EdgeUseOk(g, g.blocks[l].phis[k].edges[e])
    {
      var edge := phis[k].edges[e];
      assert EdgeUseOk(f, edge);
      if edge.val.Local? {
        assert OneEdgePerPred(f, l, phis[k].edges);
        assert IsEdge(f, edge.from, l);
        AvailOutKept(f, b, ctx, edge.from, edge.val.id);
      }
    }
  }

  lemma HeadDominates(f: Fn, b: Label, ctx: Operand, x: Label)
    requires Closed(f) && FreshNames(f) && b in f.blocks && Origin(f, b, x) == b
    ensures Dominates(CloneFn(f, b, ctx), b, x)
  {
    SelfDominates(f, b);
    DominatesKept(f, b, ctx, b, x);
  }

  /** A value b's body or PHIs or dominators provide is available, renamed, in the blocks that replace b's body. */
  lemma InnerUseKept(f: Fn, b: Label, ctx: Operand, x: Label, i: Id)
    requires WellFormed(f) && b in f.blocks && x != b && Origin(f, b, x) == b
    requires i in PhiDefs(f.blocks[b].phis) || AvailIn(f, b, i)
    ensures AvailIn(CloneFn(f, b, ctx), x, Ren(PhiSub(f.nextId, f.blocks[b].body), i))
    ensures i !in BodyDefs(f.blocks[b].body, |f.blocks[b].body|)
  {
    if i in PhiDefs(f.blocks[b].phis) {
      var k :| 0 <= k < |f.blocks[b].phis| && f.blocks[b].phis[k].id == i;
      assert SiteId(f, PhiSite(b, k)) == i;
      BodyIdsElsewhere(f, b, PhiSite(b, k));
      assert DefinesIn(f, b, i);
      DefKept(f, b, ctx, b, i);
      HeadDominates(f, b, ctx, x);
    } else {
      AvailInKept(f, b, ctx, b, x, i);
      var d :| DefinesIn(f, d, i) && d != b && Dominates(f, d, b);
      DefKept(f, b, ctx, d, i);
    }
  }

  /** A value cloned earlier is defined earlier in the same clone. */
  lemma ClonedEarlier(f: Fn, b: Label, which: nat, k: nat, i: Id)
    requires FreshNames(f) && Unique(f) && b in f.blocks && which < 2 && k < |f.blocks[b].body|
    requires i in BodyDefs(f.blocks[b].body, k)
    ensures Ren(CloneSub(f.nextId, f.blocks[b].body, which, k), i) in BodyDefs(CloneBlock(f, b, which).body, k)
  {
    var body := f.blocks[b].body;
    BlockIdsDistinct(f, b);
    CloneSubActs(f.nextId, body, which, k);
    var j :| 0 <= j < k && !body[j].ty.Void? && body[j].id == i;
    assert CloneBlock(f, b, which).body[j].id == CopyId(f.nextId, which, j);
  }

  /** Any other value a clone reads keeps the name it has outside. */
  lemma NotCloned(f: Fn, b: Label, which: nat, k: nat, i: Id)
    requires FreshNames(f) && Unique(f) && b in f.blocks && which < 2 && k < |f.blocks[b].body|
    requires i !in BodyDefs(f.blocks[b].body, |f.blocks[b].body|)
    ensures Ren(CloneSub(f.nextId, f.blocks[b].body, which, k), i) == Ren(PhiSub(f.nextId, f.blocks[b].body), i)
  {
    BlockIdsDistinct(f, b);
    CloneSubActs(f.nextId, f.blocks[b].body, which, k);
    PhiSubActs(f.nextId, f.blocks[b].body);
  }

  lemma CloneUse(f: Fn, b: Label, ctx: Operand, which: nat, k: nat, x: Operand)
    requires WellFormed(f) && b in f.blocks && which < 2 && k < |f.blocks[b].body|
    requires UseOk(f, b, k, x)
    ensures var g := CloneFn(f, b, ctx);
            var l := f.nextLabel + which;
            && g.blocks[l] == CloneBlock(f, b, which)
            && UseOk(g, l, k, RenOp(CloneSub(f.nextId, f.blocks[b].body, which, k), x))
  {
    var l := f.nextLabel + which;
    assert CloneFn(f, b, ctx).blocks[l] == CloneBlock(f, b, which);
    if x.Local? {
      if x.id in BodyDefs(f.blocks[b].body, k) {
        ClonedEarlier(f, b, which, k, x.id);
      } else {
        InnerUseKept(f, b, ctx, l, x.id);
        NotCloned(f, b, which, k, x.id);
      }
    }
  }

  lemma CloneBlockUses(f: Fn, b: Label, ctx: Operand, which: nat)
    requires WellFormed(f) && b in f.blocks && which < 2
    ensures var g := CloneFn(f, b, ctx);
            var l := f.nextLabel + which;
            l in g.blocks && BodyUsesOk(g, l) && TermUsesOk(g, l) && PhiUsesOk(g, l)
  {
    var g := CloneFn(f, b, ctx);
    var l := f.nextLabel + which;
    var body := f.blocks[b].body;
    assert g.blocks[l] == CloneBlock(f, b, which);
    assert BodyUsesOk(f, b);
    forall k, a | 0 <= k < |body| && 0 <= a < |body[k].args|
      ensures UseOk(g, l, k, g.blocks[l].body[k].args[a])
    {
      assert UseOk(f, b, k, body[k].args[a]);
      CloneUse(f, b, ctx, which, k, body[k].args[a]);
    }
  }

  lemma TailUses(f: Fn, b: Label, ctx: Operand)
    requires WellFormed(f) && b in f.blocks
    ensures var g := CloneFn(f, b, ctx);
            BodyUsesOk(g, TailLabel(f)) && TermUsesOk(g, TailLabel(f)) && PhiUsesOk(g, TailLabel(f))
  {
    var g := CloneFn(f, b, ctx);
    var body := f.blocks[b].body;
    var l := TailLabel(f);
    assert g.blocks[l] == TailBlock(f, b);
    assert TermUsesOk(f, b);
    RenTermArgs(PhiSub(f.nextId, body), f.blocks[b].term);
    forall a | 0 <= a < |TermArgs(f.blocks[b].term)|
      ensures UseOk(g, l, 0, TermArgs(g.blocks[l].term)[a])
    {
      var x := TermArgs(f.blocks[b].term)[a];
      assert UseOk(f, b, |body|, x);
      if x.Local? {
        if x.id in BodyDefs(body, |body|) {
          assert DefinesIn(f, b, x.id);
          DefKept(f, b, ctx, b, x.id);
        } else {
          InnerUseKept(f, b, ctx, l, x.id);
        }
      }
    }
    forall k, e | 0 <= k < |g.blocks[l].phis| && 0 <= e < |g.blocks[l].phis[k].edges|
      ensures EdgeUseOk(g, g.blocks[l].phis[k].edges[e])
    {
      var j := MergePhisAre(f.nextId, body, 0, ThenLabel(f), ElseLabel(f), k);
      CloneDefines(f, b, ctx, e, j);
    }
  }

  lemma CloneDefines(f: Fn, b: Label, ctx: Operand, which: nat, j: nat)
    requires b in f.blocks && which < 2 && j < |f.blocks[b].body| && !f.blocks[b].body[j].ty.Void?
    ensures AvailOut(CloneFn(f, b, ctx), f.nextLabel + which, CopyId(f.nextId, which, j))
  {
    var g := CloneFn(f, b, ctx);
    var l := f.nextLabel + which;
    assert g.blocks[l] == CloneBlock(f, b, which);
    assert g.blocks[l].body[j].id == CopyId(f.nextId, which, j);
    assert CopyId(f.nextId, which, j) in BodyDefs(g.blocks[l].body, |g.blocks[l].body|);
    assert DefinesIn(g, l, CopyId(f.nextId, which, j));
    SelfDominates(g, l);
  }

  lemma CtxKept(f: Fn, b: Label, ctx: Operand, l: Label, x: Operand)
    requires WellFormed(f) && b in f.blocks && l in f.blocks && CtxOk(f, l, x)
    ensures CtxOk(CloneFn(f, b, ctx), l, RenOp(PhiSub(f.nextId, f.blocks[b].body), x))
  {
    if x.Local? {
      AvailInKept(f, b, ctx, l, l, x.id);
    }
  }

  /** A context value of b comes from a strict dominator, so the renaming of b's values leaves it alone. */
  lemma CtxUntouched(f: Fn, b: Label, ctx: Operand)
    requires WellFormed(f) && b in f.blocks && CtxOk(f, b, ctx)
    ensures RenOp(PhiSub(f.nextId, f.blocks[b].body), ctx) == ctx
  {
    if ctx.Local? {
      var d :| DefinesIn(f, d, ctx.id) && d != b && Dominates(f, d, b);
      DefKept(f, b, ctx, d, ctx.id);
    }
  }

  lemma HeadUses(f: Fn, b: Label, ctx: Operand)
    requires WellFormed(f) && b in f.blocks && CtxOk(f, b, ctx)
    ensures var g := CloneFn(f, b, ctx);
            CtxOk(g, b, ctx) && BodyUsesOk(g, b) && TermUsesOk(g, b)
  {
    var g := CloneFn(f, b, ctx);
    assert g.blocks[b] == HeadBlock(f, b, ctx);
    CtxKept(f, b, ctx, b, ctx);
    CtxUntouched(f, b, ctx);
    var body := g.blocks[b].body;
    assert body[0].id in BodyDefs(body, 1);
  }

  lemma CloneUsesOk(f: Fn, b: Label, ctx: Operand, l: Label)
    requires WellFormed(f) && b in f.blocks && CtxOk(f, b, ctx) && l in CloneFn(f, b, ctx).blocks
    ensures var g := CloneFn(f, b, ctx);
            BodyUsesOk(g, l) && TermUsesOk(g, l) && PhiUsesOk(g, l)
  {
    hide WellFormed, CtxOk, BodyUsesOk, TermUsesOk, PhiUsesOk;
    if l == b {
      HeadUses(f, b, ctx);
      OldPhiUses(f, b, ctx, b);
    } else if l in f.blocks {
      OldBlockUses(f, b, ctx, l);
      OldPhiUses(f, b, ctx, l);
    } else if l == TailLabel(f) {
      TailUses(f, b, ctx);
    } else {
      CloneBlockUses(f, b, ctx, l - f.nextLabel);
    }
  }

  lemma CloneUsesDominated(f: Fn, b: Label, ctx: Operand)
    requires WellFormed(f) && b in f.blocks && CtxOk(f, b, ctx)
    ensures UsesDominated(CloneFn(f, b, ctx))
  {
    forall l | l in CloneFn(f, b, ctx).blocks
      ensures BodyUsesOk(CloneFn(f, b, ctx), l) && TermUsesOk(CloneFn(f, b, ctx), l) && PhiUsesOk(CloneFn(f, b, ctx), l)
    {
      CloneUsesOk(f, b, ctx, l);
    }
  }

  /** Cloning a block at an available context value keeps the function well formed, and the value available. */
  lemma CloneWellFormed(f: Fn, b: Label, ctx: Operand)
    requires WellFormed(f) && b in f.blocks && CtxOk(f, b, ctx)
    ensures WellFormed(CloneFn(f, b, ctx)) && CtxOk(CloneFn(f, b, ctx), b, ctx)
  {
    CloneClosed(f, b, ctx);
    CloneFresh(f, b, ctx);
    CloneUnique(f, b, ctx);
    ClonePhisComplete(f, b, ctx);
    HeadUses(f, b, ctx);
    CloneUsesDominated(f, b, ctx);
  }
}
