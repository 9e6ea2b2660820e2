/** Eliminating derived induction variables leaves a well-formed function well formed, whatever the recurrences are. */
module DerivedIvSsa {
  import opened Ir
  import opened Ssa
  import opened Graph
  import opened Rename
  import opened DerivedIvSim

  /** d and the counter are PHIs of the header, and what the product is inserted after does not read d. */
  ghost predicate Insertable(f: Fn, h: Label, d: Id, iv: Id, j: nat) {
    && h in f.blocks && j <= |f.blocks[h].body|
    && d in PhiDefs(f.blocks[h].phis) && iv in PhiDefs(f.blocks[h].phis) && d != iv
    && (forall k :: 0 <= k < j ==> Local(d) !in f.blocks[h].body[k].args)
  }

  /** Where the item at position k of a block's body stands after the product has been inserted. */
  function Shift(h: Label, j: nat, l: Label, k: nat): nat {
    if l == h && k >= j then k + 1 else k
  }

  lemma ReplacedBody(f: Fn, h: Label, d: Id, iv: Id, w: nat, c: int, j: nat, l: Label)
    requires h in f.blocks && j <= |f.blocks[h].body| && l in f.blocks
    ensures var r: Sub := map[d := f.nextId];
            var body, body' := f.blocks[l].body, Replace(f, h, d, iv, w, c, j).blocks[l].body;
            && |body'| == Shift(h, j, l, |body|)
            && (forall k :: 0 <= k < |body| ==> body'[Shift(h, j, l, k)] == RenInstr(r, body[k]))
            && (l == h ==> body'[j] == Scale(f.nextId, w, c, iv))
  {
    if l == h {
      var r: Sub := map[d := f.nextId];
      var body := f.blocks[h].body;
      assert Replace(f, h, d, iv, w, c, j).blocks[h].body ==
             RenBody(r, body[..j]) + [Scale(f.nextId, w, c, iv)] + RenBody(r, body[j..]);
    }
  }

  /** Every instruction but the product was there before. */
  function Unshift(h: Label, j: nat, l: Label, k': nat): (k: nat)
    ensures l != h || k' != j ==> Shift(h, j, l, k) == k'
  {
    if l == h && k' > j then k' - 1 else k'
  }

  lemma ReplacedPhis(f: Fn, h: Label, d: Id, iv: Id, w: nat, c: int, j: nat, l: Label)
    requires h in f.blocks && j <= |f.blocks[h].body| && l in f.blocks
    ensures var r: Sub := map[d := f.nextId];
            var g := Replace(f, h, d, iv, w, c, j);
            && g.blocks[l].phis == RenPhis(r, map[], if l == h then DropPhi(f.blocks[l].phis, d) else f.blocks[l].phis)
            && PhiDefs(g.blocks[l].phis) == PhiDefs(f.blocks[l].phis) - if l == h then {d} else {}
  {
    var r: Sub := map[d := f.nextId];
    if l == h {
      DroppedDefs(r, f.blocks[l].phis, d);
    } else {
      RenPhiDefs(r, f.blocks[l].phis);
    }
  }

  lemma SameGraphReplaced(f: Fn, h: Label, d: Id, iv: Id, w: nat, c: int, j: nat)
    requires h in f.blocks && j <= |f.blocks[h].body|
    ensures SameGraph(f, Replace(f, h, d, iv, w, c, j))
  {
    var r: Sub := map[d := f.nextId];
    forall l | l in f.blocks
      ensures Succs(RenTerm(r, f.blocks[l].term)) == Succs(f.blocks[l].term)
    {
      RenTermArgs(r, f.blocks[l].term);
    }
  }

  // PHIs

  /** The PHI a remaining PHI was. */
  lemma PhiBefore(f: Fn, h: Label, d: Id, iv: Id, w: nat, c: int, j: nat, l: Label, k': nat) returns (k: nat)
    requires h in f.blocks && j <= |f.blocks[h].body| && l in f.blocks
    requires k' < |Replace(f, h, d, iv, w, c, j).blocks[l].phis|
    ensures k < |f.blocks[l].phis|
    ensures var phi := f.blocks[l].phis[k];
            Replace(f, h, d, iv, w, c, j).blocks[l].phis[k'] == phi.(edges := RenEdges(map[d := f.nextId], map[], phi.edges))
    ensures l != h ==> k == k'
  {
    ReplacedPhis(f, h, d, iv, w, c, j, l);
    k := k';
    if l == h {
      var phis := f.blocks[l].phis;
      DroppedIn(phis, d);
      assert DropPhi(phis, d)[k'] in phis;
      k :| 0 <= k < |phis| && phis[k] == DropPhi(phis, d)[k'];
    }
  }

  predicate DistinctPhis(phis: seq<Phi>) {
    forall j, k :: 0 <= j < |phis| && 0 <= k < |phis| && phis[j].id == phis[k].id ==> j == k
  }

  lemma {:induction false} DropDistinct(phis: seq<Phi>, d: Id)
    requires DistinctPhis(phis)
    ensures DistinctPhis(DropPhi(phis, d))
  {
    if phis != [] {
      assert forall j :: 0 <= j < |phis[1..]| ==> phis[1..][j] == phis[j + 1];
      DropDistinct(phis[1..], d);
      DroppedIn(phis[1..], d);
      var rest := DropPhi(phis[1..], d);
      forall j | 0 <= j < |rest|
        ensures rest[j].id != phis[0].id
      {
        assert rest[j] in phis[1..];
        var k :| 0 <= k < |phis[1..]| && phis[1..][k] == rest[j];
        assert phis[k + 1] == rest[j];
      }
    }
  }

  lemma EdgesRenamed(f: Fn, g: Fn, r: Sub, l: Label, edges: seq<Edge>)
    requires SameGraph(f, g) && OneEdgePerPred(f, l, edges)
    ensures OneEdgePerPred(g, l, RenEdges(r, map[], edges))
  {
    var edges' := RenEdges(r, map[], edges);
    assert forall k :: 0 <= k < |edges| ==> edges'[k].from == edges[k].from;
    forall p | IsEdge(g, p, l)
      ensures HasEntry(edges', p)
    {
      assert IsEdge(f, p, l);
      var k :| 0 <= k < |edges| && edges[k].from == p;
      assert edges'[k].from == p;
    }
  }

  lemma ReplaceFrame(f: Fn, h: Label, d: Id, iv: Id, w: nat, c: int, j: nat)
    requires WellFormed(f) && Insertable(f, h, d, iv, j)
    ensures Closed(Replace(f, h, d, iv, w, c, j)) && PhisComplete(Replace(f, h, d, iv, w, c, j))
  {
    var g := Replace(f, h, d, iv, w, c, j);
    SameGraphReplaced(f, h, d, iv, w, c, j);
    ReplacedPhis(f, h, d, iv, w, c, j, f.entry);
    assert h != f.entry;
    forall a, b
      ensures IsEdge(g, a, b) <==> IsEdge(f, a, b)
    {
    }
    forall l, k' | l in g.blocks && 0 <= k' < |g.blocks[l].phis|
      ensures OneEdgePerPred(g, l, g.blocks[l].phis[k'].edges)
    {
      var k := PhiBefore(f, h, d, iv, w, c, j, l, k');
      assert OneEdgePerPred(f, l, f.blocks[l].phis[k].edges);
      EdgesRenamed(f, g, map[d := f.nextId], l, f.blocks[l].phis[k].edges);
    }
  }

  // Names

  /** Where an item other than the product stood. */
  lemma SiteBefore(f: Fn, h: Label, d: Id, iv: Id, w: nat, c: int, j: nat, s: Site) returns (t: Site)
    requires Insertable(f, h, d, iv, j) && HasSite(Replace(f, h, d, iv, w, c, j), s)
    ensures if s == InstrSite(h, j) then SiteId(Replace(f, h, d, iv, w, c, j), s) == f.nextId
            else
              && HasSite(f, t) && SiteId(f, t) == SiteId(Replace(f, h, d, iv, w, c, j), s)
              && t.l == s.l && t.PhiSite? == s.PhiSite?
              && (s.PhiSite? && s.l != h ==> t == s) && (s.InstrSite? ==> s.k == Shift(h, j, s.l, t.k))
  {
    ReplacedBody(f, h, d, iv, w, c, j, s.l);
    if s.PhiSite? {
      var k := PhiBefore(f, h, d, iv, w, c, j, s.l, s.k);
      t := PhiSite(s.l, k);
    } else {
      t := InstrSite(s.l, Unshift(h, j, s.l, s.k));
    }
  }

  lemma ReplaceUnique(f: Fn, h: Label, d: Id, iv: Id, w: nat, c: int, j: nat)
    requires FreshNames(f) && Unique(f) && Insertable(f, h, d, iv, j)
    ensures FreshNames(Replace(f, h, d, iv, w, c, j)) && Unique(Replace(f, h, d, iv, w, c, j))
  {
    var g := Replace(f, h, d, iv, w, c, j);
    forall s | HasSite(g, s)
      ensures SiteId(g, s) < g.nextId
    {
      var t := SiteBefore(f, h, d, iv, w, c, j, s);
      assert HasSite(f, t) ==> SiteId(f, t) < f.nextId;
    }
    PhisDistinctAt(f, h);
    DropDistinct(f.blocks[h].phis, d);
    ReplacedPhis(f, h, d, iv, w, c, j, h);
    forall s1, s2 | HasSite(g, s1) && HasSite(g, s2) && SiteId(g, s1) == SiteId(g, s2)
      ensures s1 == s2
    {
      var t1 := SiteBefore(f, h, d, iv, w, c, j, s1);
      var t2 := SiteBefore(f, h, d, iv, w, c, j, s2);
      assert HasSite(f, t1) ==> SiteId(f, t1) < f.nextId;
      assert HasSite(f, t2) ==> SiteId(f, t2) < f.nextId;
      if s1 != InstrSite(h, j) {
        assert t1 == t2;
        if s1.PhiSite? && s1.l == h {
          var rest := DropPhi(f.blocks[h].phis, d);
          assert rest[s1.k].id == rest[s2.k].id;
        }
      }
    }
  }

  lemma PhisDistinctAt(f: Fn, l: Label)
    requires Unique(f) && l in f.blocks
    ensures DistinctPhis(f.blocks[l].phis)
  {
    var phis := f.blocks[l].phis;
    forall j, k | 0 <= j < |phis| && 0 <= k < |phis| && phis[j].id == phis[k].id
      ensures j == k
    {
      assert SiteId(f, PhiSite(l, j)) == SiteId(f, PhiSite(l, k));
    }
  }

  // Definitions and uses

  lemma DefsShifted(f: Fn, h: Label, d: Id, iv: Id, w: nat, c: int, j: nat, l: Label, k: nat)
    requires h in f.blocks && j <= |f.blocks[h].body| && l in f.blocks && k <= |f.blocks[l].body|
    ensures var b' := Replace(f, h, d, iv, w, c, j).blocks[l];
            Shift(h, j, l, k) <= |b'.body| && BodyDefs(f.blocks[l].body, k) <= BodyDefs(b'.body, Shift(h, j, l, k))
    ensures l == h && k >= j ==> f.nextId in BodyDefs(Replace(f, h, d, iv, w, c, j).blocks[l].body, Shift(h, j, l, k))
  {
    ReplacedBody(f, h, d, iv, w, c, j, l);
    var body, body' := f.blocks[l].body, Replace(f, h, d, iv, w, c, j).blocks[l].body;
    forall i | i in BodyDefs(body, k)
      ensures i in BodyDefs(body', Shift(h, j, l, k))
    {
      var q :| 0 <= q < k && !body[q].ty.Void? && body[q].id == i;
      assert body'[Shift(h, j, l, q)].id == i;
    }
    if l == h && k >= j {
      assert body'[j].id == f.nextId && !body'[j].ty.Void?;
    }
  }

  lemma OthersKept(f: Fn, h: Label, d: Id, iv: Id, w: nat, c: int, j: nat, i: Id)
    requires h in f.blocks && j <= |f.blocks[h].body| && i != d
    ensures KeepsDef(f, Replace(f, h, d, iv, w, c, j), i)
  {
    forall l | DefinesIn(f, l, i)
      ensures DefinesIn(Replace(f, h, d, iv, w, c, j), l, i)
    {
      ReplacedPhis(f, h, d, iv, w, c, j, l);
      DefsShifted(f, h, d, iv, w, c, j, l, |f.blocks[l].body|);
      ReplacedBody(f, h, d, iv, w, c, j, l);
    }
  }

  /** The header defines d and nothing else does, and it defines the product. */
  lemma OnlyHeader(f: Fn, h: Label, d: Id, iv: Id, w: nat, c: int, j: nat)
    requires Unique(f) && Insertable(f, h, d, iv, j)
    ensures forall l :: DefinesIn(f, l, d) ==> l == h
    ensures DefinesIn(Replace(f, h, d, iv, w, c, j), h, f.nextId)
  {
    forall l | DefinesIn(f, l, d)
      ensures l == h
    {
      OneDefBlock(f, h, l, d);
    }
    DefsShifted(f, h, d, iv, w, c, j, h, |f.blocks[h].body|);
    ReplacedBody(f, h, d, iv, w, c, j, h);
  }

  /** A use stays dominated under its new name. */
  lemma UseReplaced(f: Fn, h: Label, d: Id, iv: Id, w: nat, c: int, j: nat, l: Label, k: nat, x: Operand)
    requires Unique(f) && Insertable(f, h, d, iv, j) && l in f.blocks && k <= |f.blocks[l].body| && UseOk(f, l, k, x)
    requires l == h && x == Local(d) ==> k >= j
    ensures Shift(h, j, l, k) <= |Replace(f, h, d, iv, w, c, j).blocks[l].body|
    ensures UseOk(Replace(f, h, d, iv, w, c, j), l, Shift(h, j, l, k), RenOp(map[d := f.nextId], x))
  {
    var g := Replace(f, h, d, iv, w, c, j);
    SameGraphReplaced(f, h, d, iv, w, c, j);
    DefsShifted(f, h, d, iv, w, c, j, l, k);
    ReplacedPhis(f, h, d, iv, w, c, j, l);
    if x == Local(d) {
      OnlyHeader(f, h, d, iv, w, c, j);
      if l != h {
        DefsGrow(f.blocks[l], k);
        assert !DefinesIn(f, l, d);
        var e :| DefinesIn(f, e, d) && e != l && Dominates(f, e, l);
        DominatesAlike(f, g, h, l);
        assert AvailIn(g, l, f.nextId);
      }
    } else if x.Local? {
      OthersKept(f, h, d, iv, w, c, j, x.id);
      AvailKept(f, g, x.id);
    }
  }

  lemma EdgeUseReplaced(f: Fn, h: Label, d: Id, iv: Id, w: nat, c: int, j: nat, e: Edge)
    requires Unique(f) && Insertable(f, h, d, iv, j) && EdgeUseOk(f, e)
    ensures EdgeUseOk(Replace(f, h, d, iv, w, c, j), Edge(e.from, RenOp(map[d := f.nextId], e.val)))
  {
    var g := Replace(f, h, d, iv, w, c, j);
    SameGraphReplaced(f, h, d, iv, w, c, j);
    if e.val == Local(d) {
      OnlyHeader(f, h, d, iv, w, c, j);
      var b :| DefinesIn(f, b, d) && Dominates(f, b, e.from);
      DominatesAlike(f, g, h, e.from);
    } else if e.val.Local? {
      OthersKept(f, h, d, iv, w, c, j, e.val.id);
      AvailKept(f, g, e.val.id);
    }
  }

  lemma PhiUsesReplaced(f: Fn, h: Label, d: Id, iv: Id, w: nat, c: int, j: nat, l: Label)
    requires Unique(f) && Insertable(f, h, d, iv, j) && l in f.blocks && PhiUsesOk(f, l)
    ensures PhiUsesOk(Replace(f, h, d, iv, w, c, j), l)
  {
    var g := Replace(f, h, d, iv, w, c, j);
    forall k', e | 0 <= k' < |g.blocks[l].phis| && 0 <= e < |g.blocks[l].phis[k'].edges|
      ensures EdgeUseOk(g, g.blocks[l].phis[k'].edges[e])
    {
      var k := PhiBefore(f, h, d, iv, w, c, j, l, k');
      var edge := f.blocks[l].phis[k].edges[e];
      assert EdgeUseOk(f, edge);
      EdgeUseReplaced(f, h, d, iv, w, c, j, edge);
    }
  }

  lemma BodyUsesReplaced(f: Fn, h: Label, d: Id, iv: Id, w: nat, c: int, j: nat, l: Label)
    requires Unique(f) && Insertable(f, h, d, iv, j) && l in f.blocks && BodyUsesOk(f, l)
    ensures BodyUsesOk(Replace(f, h, d, iv, w, c, j), l)
  {
    var g := Replace(f, h, d, iv, w, c, j);
    var body, body' := f.blocks[l].body, g.blocks[l].body;
    ReplacedBody(f, h, d, iv, w, c, j, l);
    ReplacedPhis(f, h, d, iv, w, c, j, h);
    forall k', a | 0 <= k' < |body'| && 0 <= a < |body'[k'].args|
      ensures UseOk(g, l, k', body'[k'].args[a])
    {
      if l != h || k' != j {
        var k := Unshift(h, j, l, k');
        assert body'[k'] == RenInstr(map[d := f.nextId], body[k]);
        assert UseOk(f, l, k, body[k].args[a]);
        assert body[k].args[a] in body[k].args;
        UseReplaced(f, h, d, iv, w, c, j, l, k, body[k].args[a]);
      }
    }
  }

  lemma TermUsesReplaced(f: Fn, h: Label, d: Id, iv: Id, w: nat, c: int, j: nat, l: Label)
    requires Unique(f) && Insertable(f, h, d, iv, j) && l in f.blocks && TermUsesOk(f, l)
    ensures TermUsesOk(Replace(f, h, d, iv, w, c, j), l)
  {
    var g := Replace(f, h, d, iv, w, c, j);
    var r: Sub := map[d := f.nextId];
    var t, n := f.blocks[l].term, |f.blocks[l].body|;
    ReplacedBody(f, h, d, iv, w, c, j, l);
    RenTermArgs(r, t);
    assert g.blocks[l].term == RenTerm(r, t);
    forall a | 0 <= a < |TermArgs(t)|
      ensures UseOk(g, l, |g.blocks[l].body|, RenOp(r, TermArgs(t)[a]))
    {
      assert UseOk(f, l, n, TermArgs(t)[a]);
      UseReplaced(f, h, d, iv, w, c, j, l, n, TermArgs(t)[a]);
    }
  }

  /** One definition per id, complete PHIs and dominated uses are kept when a PHI makes way for a product. */
  lemma ReplaceWellFormed(f: Fn, h: Label, d: Id, iv: Id, w: nat, c: int, j: nat)
    requires WellFormed(f) && Insertable(f, h, d, iv, j)
    ensures WellFormed(Replace(f, h, d, iv, w, c, j))
  {
    var g := Replace(f, h, d, iv, w, c, j);
    ReplaceFrame(f, h, d, iv, w, c, j);
    ReplaceUnique(f, h, d, iv, w, c, j);
    forall l | l in g.blocks
      ensures BodyUsesOk(g, l) && TermUsesOk(g, l) && PhiUsesOk(g, l)
    {
      assert BodyUsesOk(f, l) && TermUsesOk(f, l) && PhiUsesOk(f, l);
      BodyUsesReplaced(f, h, d, iv, w, c, j, l);
      TermUsesReplaced(f, h, d, iv, w, c, j, l);
      PhiUsesReplaced(f, h, d, iv, w, c, j, l);
    }
  }
}
