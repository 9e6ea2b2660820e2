/** Functions with the same control-flow graph: dominance carries over, and with it the values that stay defined where they were. */
module Graph {
  import opened Ir
  import opened Removal
  import opened Ssa

  ghost predicate SameGraph(f: Fn, g: Fn) {
    && g.entry == f.entry && g.blocks.Keys == f.blocks.Keys
    && forall l :: l in f.blocks ==> Succs(g.blocks[l].term) == Succs(f.blocks[l].term)
  }

  /** The blocks differ in their bodies only. */
  ghost predicate SameOutside(f: Fn, g: Fn) {
    && SameGraph(f, g)
    && forall l :: l in f.blocks ==> g.blocks[l].phis == f.blocks[l].phis && g.blocks[l].term == f.blocks[l].term
  }

  lemma SamePath(f: Fn, g: Fn, p: seq<Label>)
    requires SameGraph(f, g)
    ensures Path(g, p) <==> Path(f, p)
  {
    forall k | 0 < k < |p|
      ensures IsEdge(g, p[k - 1], p[k]) <==> IsEdge(f, p[k - 1], p[k])
    {
    }
  }

  lemma DominatesAlike(f: Fn, g: Fn, d: Label, l: Label)
    requires SameGraph(f, g)
    ensures Dominates(g, d, l) <==> Dominates(f, d, l)
  {
    forall p: seq<Label>
      ensures Path(g, p) <==> Path(f, p)
    {
      SamePath(f, g, p);
    }
  }

  lemma FrameKept(f: Fn, g: Fn)
    requires SameOutside(f, g) && Closed(f) && PhisComplete(f)
    ensures Closed(g) && PhisComplete(g)
  {
    forall a, b
      ensures IsEdge(g, a, b) <==> IsEdge(f, a, b)
    {
    }
    forall l, k | l in g.blocks && 0 <= k < |g.blocks[l].phis|
      ensures OneEdgePerPred(g, l, g.blocks[l].phis[k].edges)
    {
      assert OneEdgePerPred(f, l, f.blocks[l].phis[k].edges);
    }
  }

  /** Whatever block defines i goes on defining it. */
  ghost predicate KeepsDef(f: Fn, g: Fn, i: Id) {
    forall l :: DefinesIn(f, l, i) ==> DefinesIn(g, l, i)
  }

  lemma AvailKept(f: Fn, g: Fn, i: Id)
    requires SameGraph(f, g) && KeepsDef(f, g, i)
    ensures forall l :: AvailIn(f, l, i) ==> AvailIn(g, l, i)
    ensures forall l :: AvailOut(f, l, i) ==> AvailOut(g, l, i)
  {
    forall l | AvailIn(f, l, i)
      ensures AvailIn(g, l, i)
    {
      var d :| DefinesIn(f, d, i) && d != l && Dominates(f, d, l);
      DominatesAlike(f, g, d, l);
    }
    forall l | AvailOut(f, l, i)
      ensures AvailOut(g, l, i)
    {
      var d :| DefinesIn(f, d, i) && Dominates(f, d, l);
      DominatesAlike(f, g, d, l);
    }
  }

  lemma PhiUsesKept(f: Fn, g: Fn, l: Label)
    requires SameOutside(f, g) && l in f.blocks && PhiUsesOk(f, l) && forall i :: KeepsDef(f, g, i)
    ensures PhiUsesOk(g, l)
  {
    var phis := f.blocks[l].phis;
    forall k, e | 0 <= k < |phis| && 0 <= e < |phis[k].edges|
      ensures EdgeUseOk(g, phis[k].edges[e])
    {
      assert EdgeUseOk(f, phis[k].edges[e]);
      if phis[k].edges[e].val.Local? {
        AvailKept(f, g, phis[k].edges[e].val.id);
      }
    }
  }

  lemma BodyDistinct(f: Fn, l: Label)
    requires Unique(f) && l in f.blocks
    ensures Distinct(f.blocks[l].body)
  {
    var body := f.blocks[l].body;
    forall j, k | 0 <= j < |body| && 0 <= k < |body| && body[j].id == body[k].id
      ensures j == k
    {
      assert SiteId(f, InstrSite(l, j)) == SiteId(f, InstrSite(l, k));
    }
  }
}
