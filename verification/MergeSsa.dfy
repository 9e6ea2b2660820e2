/** Merging blocks, and deleting the erased ones, keeps the function in SSA form, dominance included. */
module MergeSsa {
  import opened Ir
  import opened Semantics
  import opened Ssa
  import opened Merge
  import opened MergeFacts
  import opened MergeSim
  import opened MergeDelete

  // What redirecting keeps

  lemma RedirectReads(f: Fn, b1: Label, b2: Label, u: Use, x: Operand)
    requires Candidate(f, b1) && b1 != b2
    ensures ReadsAt(Redirect(f, b1, b2), u, x) <==> ReadsAt(f, u, x)
  {
    if u.l in f.blocks {
      assert b1 in Succs(f.blocks[u.l].term) ==> u.l in Preds(f, b1);
      RetargetSuccs(f.blocks[u.l].term, b1, b2);
    }
  }

  lemma RedirectUses(f: Fn, b1: Label, b2: Label, i: Id)
    requires Candidate(f, b1) && b1 != b2
    ensures Uses(Redirect(f, b1, b2), i) == Uses(f, i)
  {
    forall u
      ensures u in Uses(Redirect(f, b1, b2), i) <==> u in Uses(f, i)
    {
      RedirectReads(f, b1, b2, u, Local(i));
    }
  }

  lemma RedirectClosed(f: Fn, b1: Label, b2: Label)
    requires Closed(f) && Qualifies(f, {}, b1, b2)
    ensures Closed(Redirect(f, b1, b2))
  {
    var g := Redirect(f, b1, b2);
    forall a, x | IsEdge(g, a, x)
      ensures x in g.blocks && x != g.entry
    {
      RedirectEdges(f, b1, b2, a, x);
    }
  }

  lemma RedirectUnique(f: Fn, b1: Label, b2: Label)
    requires Unique(f)
    ensures Unique(Redirect(f, b1, b2))
  {
    var g := Redirect(f, b1, b2);
    forall s, t | HasSite(g, s) && HasSite(g, t) && SiteId(g, s) == SiteId(g, t)
      ensures s == t
    {
      assert HasSite(f, s) && HasSite(f, t) && SiteId(f, s) == SiteId(f, t);
    }
  }

  /** A block whose in-edges do not change keeps its PHIs complete. */
  lemma OneEdgeKept(f: Fn, b1: Label, b2: Label, l: Label, edges: seq<Edge>)
    requires Candidate(f, b1) && b1 != b2 && l !in {b1, b2} && OneEdgePerPred(f, l, edges)
    ensures OneEdgePerPred(Redirect(f, b1, b2), l, edges)
  {
    forall p
      ensures IsEdge(Redirect(f, b1, b2), p, l) <==> IsEdge(f, p, l)
    {
      RedirectEdges(f, b1, b2, p, l);
    }
  }

  /**
   The PHIs of the retained block stay complete exactly when it has none, or all predecessors of the
   erased block are already its own: the pass never gives them entries for new predecessors.
   */
  lemma RetainedPhisComplete(f: Fn, b1: Label, b2: Label)
    requires Closed(f) && PhisComplete(f) && Qualifies(f, {}, b1, b2)
    ensures b2 in f.blocks
    ensures (forall k :: 0 <= k < |f.blocks[b2].phis| ==> OneEdgePerPred(Redirect(f, b1, b2), b2, f.blocks[b2].phis[k].edges))
            <==> (f.blocks[b2].phis == [] || Preds(f, b1) <= Preds(f, b2))
  {
    var g := Redirect(f, b1, b2);
    var phis := f.blocks[b2].phis;
    forall p
      ensures IsEdge(g, p, b2) <==> p in Preds(f, b1) || p in Preds(f, b2)
    {
      RedirectEdges(f, b1, b2, p, b2);
    }
    if phis != [] {
      assert OneEdgePerPred(f, b2, phis[0].edges);
      if OneEdgePerPred(g, b2, phis[0].edges) {
        forall p | p in Preds(f, b1)
          ensures p in Preds(f, b2)
        {
          assert IsEdge(g, p, b2);
          assert HasEntry(phis[0].edges, p);
        }
      }
    }
  }

  lemma RedirectReady(f: Fn, b1: Label, b2: Label)
    requires Mergeable(f, b1, b2)
    ensures MergeReady(Redirect(f, b1, b2))
  {
    var g := Redirect(f, b1, b2);
    RedirectClosed(f, b1, b2);
    RedirectUnique(f, b1, b2);
    forall l, k | l in g.blocks && 0 <= k < |g.blocks[l].body| && g.blocks[l].body[k].ty.Void?
      ensures Uses(g, g.blocks[l].body[k].id) == {}
    {
      RedirectUses(f, b1, b2, f.blocks[l].body[k].id);
    }
  }

  /** No edge leads to an erased block. */
  ghost predicate Abandoned(f: Fn, erased: set<Label>) {
    forall p, x :: x in erased ==> !IsEdge(f, p, x)
  }

  lemma AbandonedGrows(f: Fn, erased: set<Label>, b1: Label, b2: Label)
    requires Abandoned(f, erased) && Qualifies(f, erased, b1, b2)
    ensures Abandoned(Redirect(f, b1, b2), erased + {b1})
  {
    forall p, x | x in erased + {b1}
      ensures !IsEdge(Redirect(f, b1, b2), p, x)
    {
      RedirectEdges(f, b1, b2, p, x);
    }
  }

  // Paths and dominance

  /** q is a path of the original that p follows, with b1 in some of the places where p has b2. */
  ghost predicate Shadows(q: seq<Label>, p: seq<Label>, b1: Label, b2: Label) {
    |q| == |p| && forall k :: 0 <= k < |p| ==> q[k] == p[k] || (p[k] == b2 && q[k] == b1)
  }

  lemma {:induction false} PathBack(f: Fn, b1: Label, b2: Label, p: seq<Label>) returns (q: seq<Label>)
    requires Mergeable(f, b1, b2) && Path(Redirect(f, b1, b2), p)
    ensures Path(f, q) && Shadows(q, p, b1, b2)
    decreases |p|
  {
    hide Mergeable;
    if |p| == 1 {
      q := p;
    } else {
      var p0 := p[..|p| - 1];
      var q0 := PathBack(f, b1, b2, p0);
      assert IsEdge(Redirect(f, b1, b2), p[|p| - 2], p[|p| - 1]);
      hide Mergeable, Redirect, IsEdge;
      var y0 := EdgeBack(f, b1, b2, Last(q0), p[|p| - 2], p[|p| - 1]);
      q := q0 + [y0];
    }
  }

  lemma EdgeBack(f: Fn, b1: Label, b2: Label, x0: Label, x: Label, y: Label) returns (y0: Label)
    requires Mergeable(f, b1, b2) && IsEdge(Redirect(f, b1, b2), x, y) && (x0 == x || (x == b2 && x0 == b1))
    ensures IsEdge(f, x0, y0) && (y0 == y || (y == b2 && y0 == b1))
  {
    RedirectEdges(f, b1, b2, x, y);
    SameShape(f, b1, b2);
    y0 := if y == b2 && IsEdge(f, x, b1) then b1 else y;
    assert IsEdge(f, x, y0);
  }

  /** d dominates every original block that the end of a redirected path can stand for. */
  lemma DominatesRedirected(f: Fn, b1: Label, b2: Label, d: Label, l: Label)
    requires Mergeable(f, b1, b2) && d !in {b1, b2}
    requires Dominates(f, d, l) && (l == b2 ==> Dominates(f, d, b1))
    ensures Dominates(Redirect(f, b1, b2), d, l)
  {
    forall p | Path(Redirect(f, b1, b2), p) && Last(p) == l
      ensures d in p
    {
      var q := PathBack(f, b1, b2, p);
      assert Last(q) == l || Last(q) == b1;
      assert d in q;
      var k :| 0 <= k < |q| && q[k] == d;
      assert p[k] == d;
    }
  }

  lemma DefinesSame(f: Fn, b1: Label, b2: Label, d: Label, i: Id)
    ensures DefinesIn(Redirect(f, b1, b2), d, i) <==> DefinesIn(f, d, i)
  {
  }

  lemma DefinedOutside(f: Fn, b1: Label, b2: Label, d: Label, i: Id)
    requires Mergeable(f, b1, b2) && b2 in f.blocks && DefinesIn(f, d, i) && i !in Inner(f, b1, b2)
    ensures d !in {b1, b2}
  {
    SameShape(f, b1, b2);
  }

  /** An outside value available where the original may be is available after redirecting. */
  lemma AvailRedirected(f: Fn, b1: Label, b2: Label, d: Label, l: Label, i: Id)
    requires Mergeable(f, b1, b2) && b2 in f.blocks && DefinesIn(f, d, i) && i !in Inner(f, b1, b2)
    requires Dominates(f, d, l) && (l == b2 ==> AvailOut(f, b1, i))
    ensures DefinesIn(Redirect(f, b1, b2), d, i) && Dominates(Redirect(f, b1, b2), d, l)
  {
    DefinedOutside(f, b1, b2, d, i);
    DefinesSame(f, b1, b2, d, i);
    if l == b2 {
      var e :| DefinesIn(f, e, i) && Dominates(f, e, b1);
      OneDefBlock(f, d, e, i);
    }
    DominatesRedirected(f, b1, b2, d, l);
  }

  lemma TwinOperand(f: Fn, b1: Label, b2: Label, k: nat, a: nat) returns (k1: nat)
    requires Mergeable(f, b1, b2) && b2 in f.blocks
    requires k < |f.blocks[b2].body| && a < |f.blocks[b2].body[k].args|
    ensures k1 < |f.blocks[b1].body| && a < |f.blocks[b1].body[k1].args|
    ensures f.blocks[b1].body[k1].args[a] == f.blocks[b2].body[k].args[a]
  {
    assert !f.blocks[b2].body[k].op.Dbg?;
    hide MergeReady, Qualifies;
    var q := BodyItem(f.blocks[b2], k);
    AlignedAt(f, b1, b2, b2, b1, q);
    k1 := InstrAt(f.blocks[b1], q);
  }

  /** Operands of the retained block are read by the erased block too. */
  lemma TwinReads(f: Fn, b1: Label, b2: Label, k: nat, a: nat)
    requires Mergeable(f, b1, b2) && b2 in f.blocks && BodyUsesOk(f, b1)
    requires k < |f.blocks[b2].body| && a < |f.blocks[b2].body[k].args|
    ensures var x := f.blocks[b2].body[k].args[a];
            x.Local? ==> x.id !in Inner(f, b1, b2) && AvailIn(f, b1, x.id)
  {
    var x := f.blocks[b2].body[k].args[a];
    if x.Local? {
      SameShape(f, b1, b2);
      ReadsOutside(f, b1, b2, InstrUse(b2, k, a), x);
      var k1 := TwinOperand(f, b1, b2, k, a);
      assert UseOk(f, b1, k1, f.blocks[b1].body[k1].args[a]);
    }
  }

  lemma UseRedirected(f: Fn, b1: Label, b2: Label, l: Label, k: nat, x: Operand)
    requires Mergeable(f, b1, b2) && b2 in f.blocks && l in f.blocks && k <= |f.blocks[l].body| && UseOk(f, l, k, x)
    requires x.Local? ==> x.id !in Inner(f, b1, b2)
    requires l == b2 && x.Local? ==> AvailIn(f, b1, x.id)
    ensures UseOk(Redirect(f, b1, b2), l, k, x)
  {
    var g := Redirect(f, b1, b2);
    if x.Local? && x.id !in DefsUpTo(f.blocks[l], k) {
      var d :| DefinesIn(f, d, x.id) && d != l && Dominates(f, d, l);
      AvailRedirected(f, b1, b2, d, l, x.id);
    }
  }

  lemma BlockUsesRedirected(f: Fn, b1: Label, b2: Label, l: Label)
    requires Mergeable(f, b1, b2) && b2 in f.blocks && l in f.blocks
    requires BodyUsesOk(f, l) && TermUsesOk(f, l) && BodyUsesOk(f, b1)
    ensures BodyUsesOk(Redirect(f, b1, b2), l) && TermUsesOk(Redirect(f, b1, b2), l)
  {
    var g := Redirect(f, b1, b2);
    var b := f.blocks[l];
    SameShape(f, b1, b2);
    forall k, a | 0 <= k < |b.body| && 0 <= a < |b.body[k].args|
      ensures UseOk(g, l, k, g.blocks[l].body[k].args[a])
    {
      assert UseOk(f, l, k, b.body[k].args[a]);
      ReadsOutside(f, b1, b2, InstrUse(l, k, a), b.body[k].args[a]);
      if l == b2 {
        TwinReads(f, b1, b2, k, a);
      }
      UseRedirected(f, b1, b2, l, k, b.body[k].args[a]);
    }
    assert b1 in Succs(b.term) ==> l in Preds(f, b1);
    RetargetSuccs(b.term, b1, b2);
    forall a | 0 <= a < |TermArgs(b.term)|
      ensures UseOk(g, l, |b.body|, TermArgs(g.blocks[l].term)[a])
    {
      assert UseOk(f, l, |b.body|, TermArgs(b.term)[a]);
      ReadsOutside(f, b1, b2, TermUse(l, a), TermArgs(b.term)[a]);
      UseRedirected(f, b1, b2, l, |b.body|, TermArgs(b.term)[a]);
    }
  }

  /** A value of one of the two blocks reaches the successor's PHI on that block's own edge. */
  lemma InnerEdge(f: Fn, b1: Label, b2: Label, l: Label, k: nat, e: nat)
    requires Mergeable(f, b1, b2) && b2 in f.blocks && l in f.blocks
    requires k < |f.blocks[l].phis| && e < |f.blocks[l].phis[k].edges|
    requires var x := f.blocks[l].phis[k].edges[e].val; x.Local? && x.id in Inner(f, b1, b2)
    ensures EdgeUseOk(Redirect(f, b1, b2), f.blocks[l].phis[k].edges[e])
  {
    var edge := f.blocks[l].phis[k].edges[e];
    var i := edge.val.id;
    var b := if i in Defs(f.blocks[b1]) then b1 else b2;
    var q := ValuePosition(f, b, i);
    UseIsEdge(f, b1, b2, b, if b == b1 then b2 else b1, q, PhiUse(l, k, e));
    assert DefinesIn(Redirect(f, b1, b2), b, i) && Dominates(Redirect(f, b1, b2), b, b);
  }

  lemma OuterEdge(f: Fn, b1: Label, b2: Label, l: Label, k: nat, e: nat)
    requires Mergeable(f, b1, b2) && b2 in f.blocks && l in f.blocks && PhiUsesOk(f, l)
    requires k < |f.blocks[l].phis| && e < |f.blocks[l].phis[k].edges| && OneEdgePerPred(f, l, f.blocks[l].phis[k].edges)
    requires var x := f.blocks[l].phis[k].edges[e].val; x.Local? && x.id !in Inner(f, b1, b2)
    ensures EdgeUseOk(Redirect(f, b1, b2), f.blocks[l].phis[k].edges[e])
  {
    var edge := f.blocks[l].phis[k].edges[e];
    assert EdgeUseOk(f, edge);
    var d :| DefinesIn(f, d, edge.val.id) && Dominates(f, d, edge.from);
    if edge.from == b2 {
      SharedEdgeValue(f, b1, b2, l, k, e);
    }
    AvailRedirected(f, b1, b2, d, edge.from, edge.val.id);
  }

  /** An outside value on the retained block's edge is on the erased block's edge as well. */
  lemma SharedEdgeValue(f: Fn, b1: Label, b2: Label, l: Label, k: nat, e: nat)
    requires Mergeable(f, b1, b2) && b2 in f.blocks && l in f.blocks && PhiUsesOk(f, l)
    requires k < |f.blocks[l].phis| && e < |f.blocks[l].phis[k].edges| && f.blocks[l].phis[k].edges[e].from == b2
    requires OneEdgePerPred(f, l, f.blocks[l].phis[k].edges)
    requires var x := f.blocks[l].phis[k].edges[e].val; x.Local? && x.id !in Inner(f, b1, b2)
    ensures AvailOut(f, b1, f.blocks[l].phis[k].edges[e].val.id)
  {
    hide AvailOut;
    SameShape(f, b1, b2);
    var edges := f.blocks[l].phis[k].edges;
    assert IsEdge(f, b2, l);
    assert l == SuccOf(f, b1) && k == 0;
    IncomingFound(edges, b2);
    var e2 :| 0 <= e2 < |edges| && edges[e2] == Edge(b2, Incoming(edges, b2).value);
    assert e2 == e;
    EdgeValues(f, b1, b2);
    IncomingFound(edges, b1);
    var e1 :| 0 <= e1 < |edges| && edges[e1] == Edge(b1, Incoming(edges, b1).value);
    assert EdgeUseOk(f, edges[e1]);
    if SamePosition(f, b1, b2, edges[e1].val, edges[e].val) {
      var q := PositionOf(f, b1, b2, edges[e1].val, edges[e].val);
      UsedPosition(f, b1, b2, b2, q, edges[e].val);
    }
  }

  lemma PhiUsesRedirected(f: Fn, b1: Label, b2: Label, l: Label)
    requires Mergeable(f, b1, b2) && b2 in f.blocks && l in f.blocks && PhiUsesOk(f, l)
    requires forall k :: 0 <= k < |f.blocks[l].phis| ==> OneEdgePerPred(f, l, f.blocks[l].phis[k].edges)
    ensures PhiUsesOk(Redirect(f, b1, b2), l)
  {
    var phis := f.blocks[l].phis;
    hide Mergeable, Inner, Dominates;
    forall k, e | 0 <= k < |phis| && 0 <= e < |phis[k].edges|
      ensures EdgeUseOk(Redirect(f, b1, b2), phis[k].edges[e])
    {
      if phis[k].edges[e].val.Local? {
        if phis[k].edges[e].val.id in Inner(f, b1, b2) {
          InnerEdge(f, b1, b2, l, k, e);
        } else {
          OuterEdge(f, b1, b2, l, k, e);
        }
      }
    }
  }

  // The blocks that are not erased

  /** A use in an erased block, or in a PHI's entry for one. */
  ghost predicate Gone(f: Fn, erased: set<Label>, u: Use) {
    u.l in erased || (u.PhiUse? && exists x :: ReadsAt(f, u, x) && f.blocks[u.l].phis[u.p].edges[u.e].from in erased)
  }

  ghost predicate ValuesGone(f: Fn, erased: set<Label>) {
    forall d, i, u :: d in erased && DefinesIn(f, d, i) && u in Uses(f, i) ==> Gone(f, erased, u)
  }

  ghost predicate BlockOk(f: Fn, l: Label) {
    && l in f.blocks && BodyUsesOk(f, l) && TermUsesOk(f, l) && PhiUsesOk(f, l)
    && forall k :: 0 <= k < |f.blocks[l].phis| ==> OneEdgePerPred(f, l, f.blocks[l].phis[k].edges)
  }

  /** Well-formed but for the erased blocks, which nothing leads to and whose values nothing else reads. */
  ghost predicate LiveOk(f: Fn, erased: set<Label>) {
    && Closed(f) && FreshNames(f) && Unique(f)
    && Abandoned(f, erased) && f.entry !in erased && ValuesGone(f, erased)
    && forall l :: l in f.blocks && l !in erased ==> BlockOk(f, l)
  }

  lemma WellFormedIsLiveOk(f: Fn)
    requires WellFormed(f)
    ensures LiveOk(f, {})
  {
  }

  lemma FreshKept(f: Fn, b1: Label, b2: Label)
    requires FreshNames(f)
    ensures FreshNames(Redirect(f, b1, b2))
  {
    var g := Redirect(f, b1, b2);
    forall s | HasSite(g, s)
      ensures SiteId(g, s) < g.nextId
    {
      assert HasSite(f, s) && SiteId(f, s) == SiteId(g, s);
    }
  }

  lemma CompleteRedirected(f: Fn, b1: Label, b2: Label, l: Label, k: nat)
    requires Mergeable(f, b1, b2) && EntriesMatch(f, b1, b2) && l in f.blocks && l != b1 && k < |f.blocks[l].phis|
    requires OneEdgePerPred(f, l, f.blocks[l].phis[k].edges)
    ensures OneEdgePerPred(Redirect(f, b1, b2), l, f.blocks[l].phis[k].edges)
  {
    SameShape(f, b1, b2);
    if l == b2 {
      forall p
        ensures IsEdge(Redirect(f, b1, b2), p, b2) <==> IsEdge(f, p, b2)
      {
        RedirectEdges(f, b1, b2, p, b2);
        if p in Preds(f, b1) {
          assert EntryMatches(f, b1, b2, p);
        }
      }
    } else {
      OneEdgeKept(f, b1, b2, l, f.blocks[l].phis[k].edges);
    }
  }

  lemma ErasedValueGone(f: Fn, b1: Label, b2: Label, i: Id, u: Use)
    requires Mergeable(f, b1, b2) && DefinesIn(f, b1, i) && u in Uses(f, i)
    ensures Gone(f, {b1}, u)
  {
    var q := ValuePosition(f, b1, i);
    UseIsEdge(f, b1, b2, b1, b2, q, u);
    assert ReadsAt(f, u, Local(i));
  }

  lemma GoneKept(f: Fn, erased: set<Label>, b1: Label, b2: Label, u: Use, i: Id)
    requires Mergeable(f, b1, b2) && u in Uses(f, i) && (Gone(f, erased, u) || Gone(f, {b1}, u))
    ensures Gone(Redirect(f, b1, b2), erased + {b1}, u)
  {
    RedirectUses(f, b1, b2, i);
    assert ReadsAt(Redirect(f, b1, b2), u, Local(i));
  }

  lemma ValuesGoneGrows(f: Fn, erased: set<Label>, b1: Label, b2: Label)
    requires Mergeable(f, b1, b2) && ValuesGone(f, erased)
    ensures ValuesGone(Redirect(f, b1, b2), erased + {b1})
  {
    var g := Redirect(f, b1, b2);
    hide Mergeable, Gone, Redirect, DefinesIn;
    forall d, i, u | d in erased + {b1} && DefinesIn(g, d, i) && u in Uses(g, i)
      ensures Gone(g, erased + {b1}, u)
    {
      CandidateOf(f, b1, b2);
      RedirectUses(f, b1, b2, i);
      DefinesSame(f, b1, b2, d, i);
      if d == b1 {
        ErasedValueGone(f, b1, b2, i, u);
      }
      GoneKept(f, erased, b1, b2, u, i);
    }
  }

  lemma CandidateOf(f: Fn, b1: Label, b2: Label)
    requires Mergeable(f, b1, b2)
    ensures Candidate(f, b1) && b1 != b2
  {
  }

  /** A merge whose entries match keeps every remaining block in order. */
  lemma LiveOkGrows(f: Fn, erased: set<Label>, b1: Label, b2: Label)
    requires Mergeable(f, b1, b2) && EntriesMatch(f, b1, b2)
    requires LiveOk(f, erased) && b1 !in erased && b2 !in erased
    ensures LiveOk(Redirect(f, b1, b2), erased + {b1})
  {
    var g := Redirect(f, b1, b2);
    SameShape(f, b1, b2);
    RedirectClosed(f, b1, b2);
    RedirectUnique(f, b1, b2);
    FreshKept(f, b1, b2);
    assert Qualifies(f, erased, b1, b2);
    AbandonedGrows(f, erased, b1, b2);
    ValuesGoneGrows(f, erased, b1, b2);
    assert BlockOk(f, b1);
    hide Qualifies, MergeReady, BodyUsesOk, TermUsesOk, PhiUsesOk, OneEdgePerPred, EntriesMatch, ValuesGone, Abandoned, Unique, FreshNames;
    forall l | l in g.blocks && l !in erased + {b1}
      ensures BlockOk(g, l)
    {
      assert BlockOk(f, l);
      BlockUsesRedirected(f, b1, b2, l);
      PhiUsesRedirected(f, b1, b2, l);
      forall k | 0 <= k < |f.blocks[l].phis|
        ensures OneEdgePerPred(g, l, f.blocks[l].phis[k].edges)
      {
        CompleteRedirected(f, b1, b2, l, k);
      }
    }
  }

  /** A block without PHIs need not even be deleted. */
  lemma RedirectWellFormed(f: Fn, b1: Label, b2: Label)
    requires Mergeable(f, b1, b2) && WellFormed(f) && f.blocks[b1].phis == []
    ensures WellFormed(Redirect(f, b1, b2))
  {
    WellFormedIsLiveOk(f);
    LiveOkGrows(f, {}, b1, b2);
    SameShape(f, b1, b2);
    assert BlockOk(f, b1);
    hide Mergeable, BodyUsesOk, TermUsesOk, PhiUsesOk, Redirect;
    BlockUsesRedirected(f, b1, b2, b1);
    PhiUsesRedirected(f, b1, b2, b1);
    RedirectBlocks(f, b1, b2);
  }

  lemma RedirectBlocks(f: Fn, b1: Label, b2: Label)
    ensures Redirect(f, b1, b2).blocks.Keys == f.blocks.Keys
    ensures forall l :: l in f.blocks ==> Redirect(f, b1, b2).blocks[l].phis == f.blocks[l].phis
  {
  }

  // Deleting the erased blocks

  lemma {:induction false} DropEdgesAre(edges: seq<Edge>, ls: set<Label>)
    ensures forall e :: e in DropEdges(edges, ls) <==> e in edges && e.from !in ls
    ensures (forall j, k :: 0 <= j < k < |edges| ==> edges[j].from != edges[k].from) ==>
              forall j, k :: 0 <= j < k < |DropEdges(edges, ls)| ==> DropEdges(edges, ls)[j].from != DropEdges(edges, ls)[k].from
    decreases |edges|
  {
    if edges != [] {
      DropEdgesAre(edges[1..], ls);
      assert edges == [edges[0]] + edges[1..];
      var rest := DropEdges(edges[1..], ls);
      forall k | 0 <= k < |rest| && forall j, k :: 0 <= j < k < |edges| ==> edges[j].from != edges[k].from
        ensures edges[0].from != rest[k].from
      {
        assert rest[k] in edges[1..];
        var m :| 0 <= m < |edges[1..]| && edges[1..][m] == rest[k];
        assert edges[m + 1] == rest[k];
      }
    }
  }

  lemma DeletedEdges(f: Fn, erased: set<Label>, a: Label, b: Label)
    ensures IsEdge(DeleteBlocks(f, erased), a, b) <==> IsEdge(f, a, b) && a !in erased
  {
  }

  lemma {:induction false} DeletedPath(f: Fn, erased: set<Label>, p: seq<Label>)
    requires Path(DeleteBlocks(f, erased), p)
    ensures Path(f, p)
  {
    forall k | 0 < k < |p|
      ensures IsEdge(f, p[k - 1], p[k])
    {
      DeletedEdges(f, erased, p[k - 1], p[k]);
    }
  }

  lemma DeletedDominates(f: Fn, erased: set<Label>, d: Label, l: Label)
    requires Dominates(f, d, l)
    ensures Dominates(DeleteBlocks(f, erased), d, l)
  {
    forall p | Path(DeleteBlocks(f, erased), p) && Last(p) == l
      ensures d in p
    {
      DeletedPath(f, erased, p);
    }
  }

  lemma DeletedDefs(f: Fn, erased: set<Label>, l: Label, k: nat)
    requires l in f.blocks && l !in erased && k <= |f.blocks[l].body|
    ensures DefsUpTo(DeleteBlocks(f, erased).blocks[l], k) == DefsUpTo(f.blocks[l], k)
  {
    var phis := f.blocks[l].phis;
    var phis' := DropPhiEdges(phis, erased);
    assert forall j :: 0 <= j < |phis| ==> phis'[j].id == phis[j].id;
    assert PhiDefs(phis') == PhiDefs(phis);
  }

  /** A use that survives reads a value that survives. */
  lemma DeletedAvail(f: Fn, erased: set<Label>, l: Label, d: Label, i: Id, u: Use)
    requires ValuesGone(f, erased) && u in Uses(f, i) && !Gone(f, erased, u) && DefinesIn(f, d, i) && Dominates(f, d, l)
    ensures DefinesIn(DeleteBlocks(f, erased), d, i) && Dominates(DeleteBlocks(f, erased), d, l)
  {
    assert d !in erased;
    DeletedDefs(f, erased, d, |f.blocks[d].body|);
    DeletedDominates(f, erased, d, l);
  }

  lemma DeletedUse(f: Fn, erased: set<Label>, l: Label, k: nat, x: Operand, u: Use)
    requires ValuesGone(f, erased) && l in f.blocks && l !in erased && k <= |f.blocks[l].body| && UseOk(f, l, k, x)
    requires ReadsAt(f, u, x) && !u.PhiUse? && u.l == l
    ensures UseOk(DeleteBlocks(f, erased), l, k, x)
  {
    DeletedDefs(f, erased, l, k);
    if x.Local? && x.id !in DefsUpTo(f.blocks[l], k) {
      var d :| DefinesIn(f, d, x.id) && d != l && Dominates(f, d, l);
      DeletedAvail(f, erased, l, d, x.id, u);
    }
  }

  lemma DeletedEdgeUse(f: Fn, erased: set<Label>, l: Label, k: nat, e: nat)
    requires ValuesGone(f, erased) && l in f.blocks && l !in erased && PhiUsesOk(f, l)
    requires k < |f.blocks[l].phis| && e < |f.blocks[l].phis[k].edges| && f.blocks[l].phis[k].edges[e].from !in erased
    ensures EdgeUseOk(DeleteBlocks(f, erased), f.blocks[l].phis[k].edges[e])
  {
    var edge := f.blocks[l].phis[k].edges[e];
    assert EdgeUseOk(f, edge);
    if edge.val.Local? {
      var d :| DefinesIn(f, d, edge.val.id) && Dominates(f, d, edge.from);
      assert ReadsAt(f, PhiUse(l, k, e), edge.val);
      DeletedAvail(f, erased, edge.from, d, edge.val.id, PhiUse(l, k, e));
    }
  }

  lemma DeletedComplete(f: Fn, erased: set<Label>, l: Label, edges: seq<Edge>)
    requires OneEdgePerPred(f, l, edges)
    ensures OneEdgePerPred(DeleteBlocks(f, erased), l, DropEdges(edges, erased))
  {
    var h := DeleteBlocks(f, erased);
    DropEdgesAre(edges, erased);
    var rest := DropEdges(edges, erased);
    forall p | IsEdge(h, p, l)
      ensures HasEntry(rest, p)
    {
      DeletedEdges(f, erased, p, l);
      assert HasEntry(edges, p);
      var k :| 0 <= k < |edges| && edges[k].from == p;
      assert edges[k] in rest;
    }
    forall k | 0 <= k < |rest|
      ensures IsEdge(h, rest[k].from, l)
    {
      assert rest[k] in edges;
      DeletedEdges(f, erased, rest[k].from, l);
    }
  }

  lemma DeletedBlockOk(f: Fn, erased: set<Label>, l: Label)
    requires ValuesGone(f, erased) && BlockOk(f, l) && l !in erased
    ensures BlockOk(DeleteBlocks(f, erased), l)
  {
    var h := DeleteBlocks(f, erased);
    var b := f.blocks[l];
    forall k, a | 0 <= k < |b.body| && 0 <= a < |b.body[k].args|
      ensures UseOk(h, l, k, b.body[k].args[a])
    {
      assert UseOk(f, l, k, b.body[k].args[a]);
      DeletedUse(f, erased, l, k, b.body[k].args[a], InstrUse(l, k, a));
    }
    forall a | 0 <= a < |TermArgs(b.term)|
      ensures UseOk(h, l, |b.body|, TermArgs(b.term)[a])
    {
      assert UseOk(f, l, |b.body|, TermArgs(b.term)[a]);
      DeletedUse(f, erased, l, |b.body|, TermArgs(b.term)[a], TermUse(l, a));
    }
    forall k | 0 <= k < |b.phis|
      ensures OneEdgePerPred(h, l, h.blocks[l].phis[k].edges)
      ensures forall e :: 0 <= e < |h.blocks[l].phis[k].edges| ==> EdgeUseOk(h, h.blocks[l].phis[k].edges[e])
    {
      DeletedPhiOk(f, erased, l, k);
    }
  }

  lemma DeletedPhiOk(f: Fn, erased: set<Label>, l: Label, k: nat)
    requires ValuesGone(f, erased) && BlockOk(f, l) && l !in erased && k < |f.blocks[l].phis|
    ensures var edges := DropEdges(f.blocks[l].phis[k].edges, erased);
            && OneEdgePerPred(DeleteBlocks(f, erased), l, edges)
            && forall e :: 0 <= e < |edges| ==> EdgeUseOk(DeleteBlocks(f, erased), edges[e])
  {
    var edges := f.blocks[l].phis[k].edges;
    DeletedComplete(f, erased, l, edges);
    DropEdgesAre(edges, erased);
    var rest := DropEdges(edges, erased);
    forall e | 0 <= e < |rest|
      ensures EdgeUseOk(DeleteBlocks(f, erased), rest[e])
    {
      assert rest[e] in edges;
      var m :| 0 <= m < |edges| && edges[m] == rest[e];
      DeletedEdgeUse(f, erased, l, k, m);
    }
  }

  /** Without the erased blocks the function is well formed. */
  lemma DeletedWellFormed(f: Fn, erased: set<Label>)
    requires LiveOk(f, erased)
    ensures WellFormed(DeleteBlocks(f, erased))
  {
    var h := DeleteBlocks(f, erased);
    forall s | HasSite(h, s)
      ensures HasSite(f, s) && SiteId(h, s) == SiteId(f, s)
    {
    }
    forall a, b | IsEdge(h, a, b)
      ensures b in h.blocks && b != h.entry
    {
      DeletedEdges(f, erased, a, b);
    }
    forall l | l in h.blocks
      ensures BlockOk(h, l)
    {
      DeletedBlockOk(f, erased, l);
    }
  }

  /** Merging a block into its duplicate and deleting it keeps the function well formed. */
  lemma MergedWellFormed(f: Fn, b1: Label, b2: Label)
    requires Mergeable(f, b1, b2) && EntriesMatch(f, b1, b2) && WellFormed(f)
    ensures WellFormed(DeleteDeadBlock(Redirect(f, b1, b2), b1))
  {
    hide Mergeable, EntriesMatch;
    WellFormedIsLiveOk(f);
    LiveOkGrows(f, {}, b1, b2);
    hide WellFormed;
    assert {} + {b1} == {b1};
    DeletedWellFormed(Redirect(f, b1, b2), {b1});
  }
}
