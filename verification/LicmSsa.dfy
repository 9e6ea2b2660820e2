/** Hoisting keeps definitions dominating uses exactly when every operand of a hoisted instruction is hoisted before it. */
module LicmSsa {
  import opened Ir
  import opened Ssa
  import opened Graph
  import opened Removal
  import opened Riv
  import opened Licm
  import opened LicmPass

  /** Loop instructions reading only loop instructions, in any order. */
  ghost predicate Selected(f: Fn, loop: Loop, ph: Label, hs: seq<Instr>) {
    && WellFormed(f) && IsLoop(f, loop) && loop.preheader == Some(ph) && Reachable(f, ph)
    && (forall p :: 0 <= p < |hs| ==> FromLoop(f, loop, hs[p]) && Eligible(hs[p]))
    && (forall p, a :: 0 <= p < |hs| && 0 <= a < |hs[p].args| && hs[p].args[a].Local? ==>
          LoopDefines(f, loop, hs[p].args[a].id))
  }

  /** Every operand is hoisted, and earlier. */
  ghost predicate OperandsFirst(hs: seq<Instr>) {
    forall p, a :: 0 <= p < |hs| && 0 <= a < |hs[p].args| && hs[p].args[a].Local? ==> hs[p].args[a].id in Ids(hs[..p])
  }

  ghost predicate LoopDefines(f: Fn, loop: Loop, i: Id) {
    exists d :: d in loop.blocks && DefinesIn(f, d, i)
  }

  // The graph does not change

  lemma SameOutsideBodies(f: Fn, loop: Loop, ph: Label, hs: seq<Instr>)
    ensures SameOutside(f, HoistFn(f, loop, ph, hs))
  {
  }

  lemma SameDominance(f: Fn, loop: Loop, ph: Label, hs: seq<Instr>, d: Label, l: Label)
    ensures Dominates(HoistFn(f, loop, ph, hs), d, l) <==> Dominates(f, d, l)
  {
    SameOutsideBodies(f, loop, ph, hs);
    DominatesAlike(f, HoistFn(f, loop, ph, hs), d, l);
  }

  /** A path into the loop goes through the preheader. */
  lemma {:induction false} ThroughPreheader(f: Fn, loop: Loop, ph: Label, p: seq<Label>)
    requires IsLoop(f, loop) && loop.preheader == Some(ph) && Path(f, p) && Last(p) in loop.blocks
    ensures ph in p
    decreases |p|
  {
    var p0 := p[..|p| - 1];
    assert |p| > 1;
    assert IsEdge(f, p[|p| - 2], p[|p| - 1]);
    if Last(p0) in loop.blocks {
      ThroughPreheader(f, loop, ph, p0);
    } else {
      assert Last(p0) == ph;
    }
  }

  lemma PreheaderDominates(f: Fn, loop: Loop, ph: Label, l: Label)
    requires IsLoop(f, loop) && loop.preheader == Some(ph) && l in loop.blocks
    ensures Dominates(f, ph, l)
  {
    forall p | Path(f, p) && Last(p) == l
      ensures ph in p
    {
      ThroughPreheader(f, loop, ph, p);
    }
  }

  /** No loop block dominates the preheader. */
  lemma LoopNotAbove(f: Fn, loop: Loop, ph: Label, d: Label)
    requires IsLoop(f, loop) && loop.preheader == Some(ph) && Reachable(f, ph) && d in loop.blocks
    ensures !Dominates(f, d, ph)
  {
    PreheaderDominates(f, loop, ph, d);
    if Dominates(f, d, ph) {
      DominatesAntisymmetric(f, d, ph);
    }
  }

  // Where values are defined

  lemma HoistedNowhereElse(f: Fn, loop: Loop, ph: Label, hs: seq<Instr>, d: Label, i: Id)
    requires Selected(f, loop, ph, hs) && DefinesIn(f, d, i) && i in Ids(hs)
    ensures d in loop.blocks
  {
    var p :| 0 <= p < |hs| && hs[p].id == i;
    assert FromLoop(f, loop, hs[p]);
    var l :| l in loop.blocks && l in f.blocks && hs[p] in f.blocks[l].body;
    var k :| 0 <= k < |f.blocks[l].body| && f.blocks[l].body[k] == hs[p];
    assert SiteId(f, InstrSite(l, k)) == i;
    DefSite(f, d, i, InstrSite(l, k));
  }

  /** A value that is not hoisted stays defined where it was. */
  lemma OtherDefsStay(f: Fn, loop: Loop, ph: Label, hs: seq<Instr>, d: Label, i: Id)
    requires ph !in loop.blocks && DefinesIn(f, d, i) && i !in Ids(hs)
    ensures DefinesIn(HoistFn(f, loop, ph, hs), d, i)
  {
    var b, b' := f.blocks[d], HoistFn(f, loop, ph, hs).blocks[d];
    if i in BodyDefs(b.body, |b.body|) {
      var k :| 0 <= k < |b.body| && !b.body[k].ty.Void? && b.body[k].id == i;
      if d in loop.blocks {
        var k' := WithoutKeeps(b.body, Ids(hs), k);
        assert b'.body[k'].id == i;
      } else {
        assert b'.body[k].id == i;
      }
    }
  }

  lemma HoistedDefined(f: Fn, loop: Loop, ph: Label, hs: seq<Instr>, i: Id)
    requires Selected(f, loop, ph, hs) && i in Ids(hs)
    ensures DefinesIn(HoistFn(f, loop, ph, hs), ph, i)
  {
    var p :| 0 <= p < |hs| && hs[p].id == i;
    var body := f.blocks[ph].body;
    var b' := HoistFn(f, loop, ph, hs).blocks[ph];
    assert b'.body[|body| + p] == hs[p];
    assert i in BodyDefs(b'.body, |b'.body|);
  }

  // Uses stay dominated

  lemma AvailInHoisted(f: Fn, loop: Loop, ph: Label, hs: seq<Instr>, l: Label, i: Id)
    requires Selected(f, loop, ph, hs) && AvailIn(f, l, i) && (i in Ids(hs) ==> l != ph)
    ensures AvailIn(HoistFn(f, loop, ph, hs), l, i)
  {
    var d :| DefinesIn(f, d, i) && d != l && Dominates(f, d, l);
    if i in Ids(hs) {
      HoistedNowhereElse(f, loop, ph, hs, d, i);
      PreheaderDominates(f, loop, ph, d);
      DominatesTransitive(f, ph, d, l);
      HoistedDefined(f, loop, ph, hs, i);
      SameDominance(f, loop, ph, hs, ph, l);
    } else {
      OtherDefsStay(f, loop, ph, hs, d, i);
      SameDominance(f, loop, ph, hs, d, l);
    }
  }

  /** The preheader itself reads no hoisted value. */
  lemma PreheaderReadsNone(f: Fn, loop: Loop, ph: Label, hs: seq<Instr>, k: nat, x: Operand)
    requires Selected(f, loop, ph, hs) && k <= |f.blocks[ph].body| && UseOk(f, ph, k, x)
    ensures x.Local? ==> x.id !in Ids(hs)
  {
    if x.Local? && x.id in Ids(hs) {
      if x.id in DefsUpTo(f.blocks[ph], k) {
        DefsGrow(f.blocks[ph], k);
        HoistedNowhereElse(f, loop, ph, hs, ph, x.id);
      } else {
        var d :| DefinesIn(f, d, x.id) && d != ph && Dominates(f, d, ph);
        HoistedNowhereElse(f, loop, ph, hs, d, x.id);
        LoopNotAbove(f, loop, ph, d);
      }
    }
  }

  /** A use in a block outside the loop stays dominated at its old position. */
  lemma OuterUse(f: Fn, loop: Loop, ph: Label, hs: seq<Instr>, l: Label, k: nat, x: Operand, k': nat)
    requires Selected(f, loop, ph, hs) && l in f.blocks && l !in loop.blocks && k <= |f.blocks[l].body| && UseOk(f, l, k, x)
    requires k <= k' <= |HoistFn(f, loop, ph, hs).blocks[l].body|
    ensures UseOk(HoistFn(f, loop, ph, hs), l, k', x)
  {
    var b, b' := f.blocks[l], HoistFn(f, loop, ph, hs).blocks[l];
    if x.Local? {
      if l == ph {
        PreheaderReadsNone(f, loop, ph, hs, k, x);
      }
      if x.id in BodyDefs(b.body, k) {
        var j :| 0 <= j < k && !b.body[j].ty.Void? && b.body[j].id == x.id;
        assert b'.body[j] == b.body[j];
        assert x.id in BodyDefs(b'.body, k');
      } else if x.id !in PhiDefs(b.phis) {
        AvailInHoisted(f, loop, ph, hs, l, x.id);
      }
    }
  }

  /** A use in a loop block stays dominated: hoisted values come from the preheader, the others still precede it. */
  lemma InnerUse(f: Fn, loop: Loop, ph: Label, hs: seq<Instr>, l: Label, k: nat, x: Operand, k': nat)
    requires Selected(f, loop, ph, hs) && l in loop.blocks && k <= |f.blocks[l].body| && UseOk(f, l, k, x)
    requires k' <= |HoistFn(f, loop, ph, hs).blocks[l].body|
    requires forall j :: 0 <= j < k && f.blocks[l].body[j].id !in Ids(hs) ==>
               f.blocks[l].body[j] in HoistFn(f, loop, ph, hs).blocks[l].body[..k']
    ensures UseOk(HoistFn(f, loop, ph, hs), l, k', x)
  {
    var g := HoistFn(f, loop, ph, hs);
    var b, b' := f.blocks[l], g.blocks[l];
    if x.Local? {
      if x.id in Ids(hs) {
        HoistedDefined(f, loop, ph, hs, x.id);
        PreheaderDominates(f, loop, ph, l);
        SameDominance(f, loop, ph, hs, ph, l);
        assert AvailIn(g, l, x.id);
      } else if x.id in BodyDefs(b.body, k) {
        var j :| 0 <= j < k && !b.body[j].ty.Void? && b.body[j].id == x.id;
        var m :| 0 <= m < k' && b'.body[..k'][m] == b.body[j];
        assert b'.body[m].id == x.id;
        assert x.id in BodyDefs(b'.body, k');
      } else if x.id !in PhiDefs(b.phis) {
        AvailInHoisted(f, loop, ph, hs, l, x.id);
      }
    }
  }

  lemma LoopBlockUses(f: Fn, loop: Loop, ph: Label, hs: seq<Instr>, l: Label)
    requires Selected(f, loop, ph, hs) && l in loop.blocks
    ensures BodyUsesOk(HoistFn(f, loop, ph, hs), l) && TermUsesOk(HoistFn(f, loop, ph, hs), l)
  {
    var g := HoistFn(f, loop, ph, hs);
    var b, b' := f.blocks[l], g.blocks[l];
    assert BodyUsesOk(f, l) && TermUsesOk(f, l);
    forall k', a | 0 <= k' < |b'.body| && 0 <= a < |b'.body[k'].args|
      ensures UseOk(g, l, k', b'.body[k'].args[a])
    {
      var k := WithoutFrom(b.body, Ids(hs), k');
      assert UseOk(f, l, k, b.body[k].args[a]);
      InnerUse(f, loop, ph, hs, l, k, b.body[k].args[a], k');
    }
    forall j | 0 <= j < |b.body| && b.body[j].id !in Ids(hs)
      ensures b.body[j] in b'.body[..|b'.body|]
    {
      var j' := WithoutKeeps(b.body, Ids(hs), j);
      assert b'.body[..|b'.body|][j'] == b.body[j];
    }
    forall a | 0 <= a < |TermArgs(b.term)|
      ensures UseOk(g, l, |b'.body|, TermArgs(b.term)[a])
    {
      assert UseOk(f, l, |b.body|, TermArgs(b.term)[a]);
      InnerUse(f, loop, ph, hs, l, |b.body|, TermArgs(b.term)[a], |b'.body|);
    }
  }

  lemma OuterBlockUses(f: Fn, loop: Loop, ph: Label, hs: seq<Instr>, l: Label)
    requires Selected(f, loop, ph, hs) && l in f.blocks && l !in loop.blocks && OperandsFirst(hs)
    ensures BodyUsesOk(HoistFn(f, loop, ph, hs), l) && TermUsesOk(HoistFn(f, loop, ph, hs), l)
  {
    var g := HoistFn(f, loop, ph, hs);
    var b, b' := f.blocks[l], g.blocks[l];
    assert BodyUsesOk(f, l) && TermUsesOk(f, l);
    forall k, a | 0 <= k < |b'.body| && 0 <= a < |b'.body[k].args|
      ensures UseOk(g, l, k, b'.body[k].args[a])
    {
      if k < |b.body| {
        assert UseOk(f, l, k, b.body[k].args[a]);
        OuterUse(f, loop, ph, hs, l, k, b.body[k].args[a], k);
      } else {
        HoistedUse(f, loop, ph, hs, k - |b.body|, a);
      }
    }
    forall a | 0 <= a < |TermArgs(b.term)|
      ensures UseOk(g, l, |b'.body|, TermArgs(b.term)[a])
    {
      assert UseOk(f, l, |b.body|, TermArgs(b.term)[a]);
      OuterUse(f, loop, ph, hs, l, |b.body|, TermArgs(b.term)[a], |b'.body|);
    }
  }

  /** A hoisted instruction's operands stand before it in the preheader. */
  lemma HoistedUse(f: Fn, loop: Loop, ph: Label, hs: seq<Instr>, p: nat, a: nat)
    requires Selected(f, loop, ph, hs) && OperandsFirst(hs) && p < |hs| && a < |hs[p].args|
    ensures UseOk(HoistFn(f, loop, ph, hs), ph, |f.blocks[ph].body| + p, hs[p].args[a])
  {
    var x := hs[p].args[a];
    var body := f.blocks[ph].body;
    var body' := HoistFn(f, loop, ph, hs).blocks[ph].body;
    if x.Local? {
      assert x.id in Ids(hs[..p]);
      var q :| 0 <= q < p && hs[..p][q].id == x.id;
      assert body'[|body| + q] == hs[q] && Eligible(hs[q]);
      assert x.id in BodyDefs(body', |body| + p);
    }
  }

  lemma EdgesHoisted(f: Fn, loop: Loop, ph: Label, hs: seq<Instr>, l: Label)
    requires Selected(f, loop, ph, hs) && l in f.blocks
    ensures PhiUsesOk(HoistFn(f, loop, ph, hs), l)
  {
    var g := HoistFn(f, loop, ph, hs);
    var phis := f.blocks[l].phis;
    assert PhiUsesOk(f, l);
    forall k, e | 0 <= k < |phis| && 0 <= e < |phis[k].edges|
      ensures EdgeUseOk(g, phis[k].edges[e])
    {
      var edge := phis[k].edges[e];
      assert EdgeUseOk(f, edge);
      if edge.val.Local? {
        AvailOutHoisted(f, loop, ph, hs, edge.from, edge.val.id);
      }
    }
  }

  lemma AvailOutHoisted(f: Fn, loop: Loop, ph: Label, hs: seq<Instr>, l: Label, i: Id)
    requires Selected(f, loop, ph, hs) && AvailOut(f, l, i)
    ensures AvailOut(HoistFn(f, loop, ph, hs), l, i)
  {
    var d :| DefinesIn(f, d, i) && Dominates(f, d, l);
    if i in Ids(hs) {
      HoistedNowhereElse(f, loop, ph, hs, d, i);
      PreheaderDominates(f, loop, ph, d);
      DominatesTransitive(f, ph, d, l);
      HoistedDefined(f, loop, ph, hs, i);
      SameDominance(f, loop, ph, hs, ph, l);
    } else {
      OtherDefsStay(f, loop, ph, hs, d, i);
      SameDominance(f, loop, ph, hs, d, l);
    }
  }

  /** An operand left behind in the loop, or hoisted later, does not reach its use in the preheader. */
  lemma LeftBehind(f: Fn, loop: Loop, ph: Label, hs: seq<Instr>, p: nat, a: nat)
    requires Selected(f, loop, ph, hs) && BodyUsesOk(HoistFn(f, loop, ph, hs), ph)
    requires p < |hs| && a < |hs[p].args| && hs[p].args[a].Local?
    ensures hs[p].args[a].id in Ids(hs[..p])
  {
    var g := HoistFn(f, loop, ph, hs);
    var body, body' := f.blocks[ph].body, g.blocks[ph].body;
    var i := hs[p].args[a].id;
    assert body'[|body| + p] == hs[p];
    assert UseOk(g, ph, |body| + p, body'[|body| + p].args[a]);
    if i !in Ids(hs) {
      var d :| d in loop.blocks && DefinesIn(f, d, i);
      var e := NewDefiner(f, loop, ph, hs, |body| + p, i);
      OneDefBlock(f, d, e, i);
      LoopNotAbove(f, loop, ph, d);
    } else {
      HoistedEarlier(f, loop, ph, hs, p, i);
    }
  }

  /** What the hoisted preheader knows of a hoisted value after p of them, it knows from those p. */
  lemma HoistedEarlier(f: Fn, loop: Loop, ph: Label, hs: seq<Instr>, p: nat, i: Id)
    requires Selected(f, loop, ph, hs) && i in Ids(hs) && p < |hs|
    requires UseOk(HoistFn(f, loop, ph, hs), ph, |f.blocks[ph].body| + p, Local(i))
    ensures i in Ids(hs[..p])
  {
    var g := HoistFn(f, loop, ph, hs);
    var body, body' := f.blocks[ph].body, g.blocks[ph].body;
    assert body' == body + hs;
    if i in DefsUpTo(g.blocks[ph], |body| + p) {
      NotInPreheader(f, loop, ph, hs, i);
      LongerDefs(body, hs, p, i);
    } else {
      var e :| DefinesIn(g, e, i) && e != ph && Dominates(g, e, ph);
      HoistedGone(f, loop, ph, hs, e, i);
    }
  }

  lemma LongerDefs(body: seq<Instr>, hs: seq<Instr>, p: nat, i: Id)
    requires p <= |hs| && i in BodyDefs(body + hs, |body| + p)
    ensures i in BodyDefs(body, |body|) || i in Ids(hs[..p])
  {
    var q :| 0 <= q < |body| + p && !(body + hs)[q].ty.Void? && (body + hs)[q].id == i;
    if q >= |body| {
      assert hs[..p][q - |body|].id == i;
    }
  }

  lemma NotInPreheader(f: Fn, loop: Loop, ph: Label, hs: seq<Instr>, i: Id)
    requires Selected(f, loop, ph, hs) && i in Ids(hs)
    ensures !DefinesIn(f, ph, i)
  {
    if DefinesIn(f, ph, i) {
      HoistedNowhereElse(f, loop, ph, hs, ph, i);
    }
  }

  /** Only the preheader defines a hoisted value. */
  lemma HoistedGone(f: Fn, loop: Loop, ph: Label, hs: seq<Instr>, e: Label, i: Id)
    requires Selected(f, loop, ph, hs) && i in Ids(hs) && e != ph
    ensures !DefinesIn(HoistFn(f, loop, ph, hs), e, i)
  {
    var g := HoistFn(f, loop, ph, hs);
    if DefinesIn(g, e, i) {
      DefinedBefore(f, loop, ph, hs, e, i);
      HoistedNowhereElse(f, loop, ph, hs, e, i);
      NotAPhi(f, loop, hs, e, i);
      var body' := g.blocks[e].body;
      var k' :| 0 <= k' < |body'| && !body'[k'].ty.Void? && body'[k'].id == i;
      var k := WithoutFrom(f.blocks[e].body, Ids(hs), k');
    }
  }

  lemma NotAPhi(f: Fn, loop: Loop, hs: seq<Instr>, e: Label, i: Id)
    requires Unique(f) && e in f.blocks && i in Ids(hs) && forall p :: 0 <= p < |hs| ==> FromLoop(f, loop, hs[p])
    ensures i !in PhiDefs(f.blocks[e].phis)
  {
    var p :| 0 <= p < |hs| && hs[p].id == i;
    assert FromLoop(f, loop, hs[p]);
    var l :| l in loop.blocks && l in f.blocks && hs[p] in f.blocks[l].body;
    var k :| 0 <= k < |f.blocks[l].body| && f.blocks[l].body[k] == hs[p];
    forall q | 0 <= q < |f.blocks[e].phis|
      ensures f.blocks[e].phis[q].id != i
    {
      assert SiteId(f, InstrSite(l, k)) == i && SiteId(f, PhiSite(e, q)) == f.blocks[e].phis[q].id;
    }
  }

  /** What the first instructions of a lengthened body define and the addition does not, the old body defined. */
  lemma OldPart(body: seq<Instr>, hs: seq<Instr>, k: nat, i: Id)
    requires k <= |body + hs| && i !in Ids(hs)
    ensures i in BodyDefs(body + hs, k) ==> i in BodyDefs(body, |body|)
  {
    forall q | |body| <= q < |body + hs|
      ensures (body + hs)[q].id in Ids(hs)
    {
      assert (body + hs)[q] == hs[q - |body|];
    }
  }

  /** What is available in the hoisted preheader and not hoisted was available there before. */
  lemma NewDefiner(f: Fn, loop: Loop, ph: Label, hs: seq<Instr>, k: nat, i: Id) returns (e: Label)
    requires Selected(f, loop, ph, hs) && i !in Ids(hs) && k <= |HoistFn(f, loop, ph, hs).blocks[ph].body|
    requires UseOk(HoistFn(f, loop, ph, hs), ph, k, Local(i))
    ensures DefinesIn(f, e, i) && Dominates(f, e, ph)
  {
    var g := HoistFn(f, loop, ph, hs);
    var body, body' := f.blocks[ph].body, g.blocks[ph].body;
    if i in DefsUpTo(g.blocks[ph], k) {
      e := ph;
      assert body' == body + hs;
      OldPart(body, hs, k, i);
    } else {
      e :| DefinesIn(g, e, i) && e != ph && Dominates(g, e, ph);
      SameDominance(f, loop, ph, hs, e, ph);
      DefinedBefore(f, loop, ph, hs, e, i);
    }
  }

  lemma DefinedBefore(f: Fn, loop: Loop, ph: Label, hs: seq<Instr>, e: Label, i: Id)
    requires DefinesIn(HoistFn(f, loop, ph, hs), e, i) && e != ph
    ensures DefinesIn(f, e, i)
  {
    var b, b' := f.blocks[e], HoistFn(f, loop, ph, hs).blocks[e];
    if i in BodyDefs(b'.body, |b'.body|) {
      var k' :| 0 <= k' < |b'.body| && !b'.body[k'].ty.Void? && b'.body[k'].id == i;
      if e in loop.blocks {
        var k := WithoutFrom(b.body, Ids(hs), k');
        assert b.body[k].id == i;
      } else {
        assert b.body[k'].id == i;
      }
      assert i in BodyDefs(b.body, |b.body|);
    }
  }

  /** Definitions dominate uses after hoisting, in whatever order, if and only if every operand is hoisted before its user. */
  lemma HoistDominanceIff(f: Fn, loop: Loop, ph: Label, hs: seq<Instr>)
    requires Selected(f, loop, ph, hs)
    ensures UsesDominated(HoistFn(f, loop, ph, hs)) <==> OperandsFirst(hs)
  {
    var g := HoistFn(f, loop, ph, hs);
    if UsesDominated(g) {
      assert BodyUsesOk(g, ph);
      forall p, a | 0 <= p < |hs| && 0 <= a < |hs[p].args| && hs[p].args[a].Local?
        ensures hs[p].args[a].id in Ids(hs[..p])
      {
        LeftBehind(f, loop, ph, hs, p, a);
      }
    }
    if OperandsFirst(hs) {
      forall l | l in g.blocks
        ensures BodyUsesOk(g, l) && TermUsesOk(g, l) && PhiUsesOk(g, l)
      {
        EdgesHoisted(f, loop, ph, hs, l);
        if l in loop.blocks {
          LoopBlockUses(f, loop, ph, hs, l);
        } else {
          OuterBlockUses(f, loop, ph, hs, l);
        }
      }
    }
  }

  // The pass's own selection

  /** The pass's selection, in whatever order the set is iterated, meets the conditions of the equivalence. */
  lemma AnyOrderSelected(f: Fn, loop: Loop, ph: Label, inv: seq<Instr>, order: seq<Instr>)
    requires WellFormed(f) && IsLoop(f, loop) && loop.preheader == Some(ph) && Reachable(f, ph)
    requires Ordered(f, loop, inv) && multiset(order) == multiset(inv)
    ensures Selected(f, loop, ph, SpecOnly(order))
  {
    var hs := SpecOnly(order);
    Members(inv, order);
    forall p | 0 <= p < |hs|
      ensures hs[p] in inv && FromLoop(f, loop, hs[p]) && Eligible(hs[p])
    {
      SelectedMember(order, hs[p]);
      var q := MemberAt(inv, hs[p]);
    }
    forall p, a | 0 <= p < |hs| && 0 <= a < |hs[p].args| && hs[p].args[a].Local?
      ensures LoopDefines(f, loop, hs[p].args[a].id)
    {
      var j := OperandMember(f, loop, inv, hs[p], a);
      MemberDefined(f, loop, inv, j);
    }
  }

  lemma MemberDefined(f: Fn, loop: Loop, inv: seq<Instr>, j: Instr)
    requires Ordered(f, loop, inv) && j in inv
    ensures LoopDefines(f, loop, j.id)
  {
    var m := MemberAt(inv, j);
    assert FromLoop(f, loop, inv[m]) && Eligible(inv[m]);
    var l :| l in loop.blocks && l in f.blocks && j in f.blocks[l].body;
    var k :| 0 <= k < |f.blocks[l].body| && f.blocks[l].body[k] == j;
    assert j.id in BodyDefs(f.blocks[l].body, |f.blocks[l].body|);
    assert DefinesIn(f, l, j.id);
  }

  /** The pass keeps dominance only if no instruction it moves needs one that may trap, in whatever order it moves them. */
  lemma TrapStaysBehind(f: Fn, loop: Loop, ph: Label, inv: seq<Instr>, order: seq<Instr>)
    requires WellFormed(f) && IsLoop(f, loop) && loop.preheader == Some(ph) && Reachable(f, ph)
    requires Ordered(f, loop, inv) && Least(f, loop, Ids(inv)) && multiset(order) == multiset(inv)
    ensures UsesDominated(HoistFn(f, loop, ph, SpecOnly(order))) ==> NoTrapFeeds(f, loop)
  {
    var hs := SpecOnly(order);
    AnyOrderSelected(f, loop, ph, inv, order);
    HoistDominanceIff(f, loop, ph, hs);
    SelfContainedIff(f, loop, inv, order);
    if OperandsFirst(hs) {
      forall p, a | 0 <= p < |hs| && 0 <= a < |hs[p].args| && hs[p].args[a].Local?
        ensures hs[p].args[a].id in Ids(hs)
      {
        PrefixIds(hs, p, hs[p].args[a].id);
      }
    }
  }

  /** In insertion order, the pass keeps dominance if and only if in the loop no instruction that can be moved needs one that may trap. */
  lemma InsertionOrderIff(f: Fn, loop: Loop, ph: Label, inv: seq<Instr>)
    requires WellFormed(f) && IsLoop(f, loop) && loop.preheader == Some(ph) && Reachable(f, ph)
    requires Ordered(f, loop, inv) && Least(f, loop, Ids(inv))
    ensures UsesDominated(HoistFn(f, loop, ph, SpecOnly(inv))) <==> NoTrapFeeds(f, loop)
  {
    TrapStaysBehind(f, loop, ph, inv, inv);
    if NoTrapFeeds(f, loop) {
      SelfContainedIff(f, loop, inv, inv);
      InsertionOrderHoistable(f, loop, inv);
      AnyOrderSelected(f, loop, ph, inv, inv);
      HoistDominanceIff(f, loop, ph, SpecOnly(inv));
    }
  }
}
