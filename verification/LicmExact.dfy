/**
 When hoisting is right, exactly: the function stays well formed, and each run keeps its behaviour, if and only if
 every operand of a hoisted instruction is hoisted before it or, for a run, the preheader is never left.
 */
module LicmExact {
  import opened Ir
  import opened Semantics
  import opened Ssa
  import opened Graph
  import opened Removal
  import opened Riv
  import opened Licm
  import opened LicmPass
  import opened LicmSsa

  // Well-formedness

  /** Where a definition of the hoisted function came from. */
  ghost predicate CameFrom(f: Fn, loop: Loop, ph: Label, hs: seq<Instr>, s: Site, t: Site) {
    && HasSite(HoistFn(f, loop, ph, hs), s) && HasSite(f, t) && t.PhiSite? == s.PhiSite?
    && SiteId(f, t) == SiteId(HoistFn(f, loop, ph, hs), s)
    && (SiteId(f, t) !in Ids(hs) ==> t.l == s.l && (s.PhiSite? || s.l !in loop.blocks ==> t.k == s.k))
    && (SiteId(f, t) in Ids(hs) ==> s.InstrSite? && s.l == ph && |f.blocks[ph].body| <= s.k)
  }

  lemma HoistedSite(f: Fn, loop: Loop, hs: seq<Instr>, p: nat) returns (t: Site)
    requires p < |hs| && FromLoop(f, loop, hs[p])
    ensures HasSite(f, t) && t.InstrSite? && t.l in loop.blocks && f.blocks[t.l].body[t.k] == hs[p]
  {
    var l :| l in loop.blocks && l in f.blocks && hs[p] in f.blocks[l].body;
    var k :| 0 <= k < |f.blocks[l].body| && f.blocks[l].body[k] == hs[p];
    t := InstrSite(l, k);
  }

  /** Outside the loop nothing has a hoisted id. */
  lemma HoistedIdsInside(f: Fn, loop: Loop, ph: Label, hs: seq<Instr>, s: Site)
    requires Selected(f, loop, ph, hs) && HasSite(f, s) && SiteId(f, s) in Ids(hs)
    ensures s.InstrSite? && s.l in loop.blocks
  {
    var p :| 0 <= p < |hs| && hs[p].id == SiteId(f, s);
    var t := HoistedSite(f, loop, hs, p);
    assert SiteId(f, t) == SiteId(f, s);
  }

  lemma SiteBefore(f: Fn, loop: Loop, ph: Label, hs: seq<Instr>, s: Site) returns (t: Site)
    requires Selected(f, loop, ph, hs) && HasSite(HoistFn(f, loop, ph, hs), s)
    ensures CameFrom(f, loop, ph, hs, s, t)
  {
    var g := HoistFn(f, loop, ph, hs);
    t := s;
    if s.InstrSite? && s.l in loop.blocks {
      var k := WithoutFrom(f.blocks[s.l].body, Ids(hs), s.k);
      t := InstrSite(s.l, k);
    } else if s.InstrSite? && s.l == ph && |f.blocks[ph].body| <= s.k {
      var p := s.k - |f.blocks[ph].body|;
      assert g.blocks[ph].body[s.k] == hs[p];
      t := HoistedSite(f, loop, hs, p);
      assert hs[p].id in Ids(hs);
    } else if SiteId(f, s) in Ids(hs) {
      HoistedIdsInside(f, loop, ph, hs, s);
    }
  }

  lemma HoistUnique(f: Fn, loop: Loop, ph: Label, hs: seq<Instr>)
    requires Selected(f, loop, ph, hs) && Distinct(hs)
    ensures Unique(HoistFn(f, loop, ph, hs))
  {
    var g := HoistFn(f, loop, ph, hs);
    forall s1, s2 | HasSite(g, s1) && HasSite(g, s2) && SiteId(g, s1) == SiteId(g, s2)
      ensures s1 == s2
    {
      SameSite(f, loop, ph, hs, s1, s2);
    }
  }

  lemma SameSite(f: Fn, loop: Loop, ph: Label, hs: seq<Instr>, s1: Site, s2: Site)
    requires Selected(f, loop, ph, hs) && Distinct(hs)
    requires var g := HoistFn(f, loop, ph, hs); HasSite(g, s1) && HasSite(g, s2) && SiteId(g, s1) == SiteId(g, s2)
    ensures s1 == s2
  {
    var g := HoistFn(f, loop, ph, hs);
    var t1 := SiteBefore(f, loop, ph, hs, s1);
    var t2 := SiteBefore(f, loop, ph, hs, s2);
    assert t1 == t2;
    if SiteId(g, s1) in Ids(hs) {
      var n := |f.blocks[ph].body|;
      assert g.blocks[ph].body == f.blocks[ph].body + hs;
      assert hs[s1.k - n].id == hs[s2.k - n].id;
    } else if s1.InstrSite? && s1.l in loop.blocks {
      BodyDistinct(f, s1.l);
      WithoutDistinct(f.blocks[s1.l].body, Ids(hs));
      var all := Without(f.blocks[s1.l].body, Ids(hs));
      assert g.blocks[s1.l].body == all && s2.l == s1.l;
      assert all[s1.k].id == all[s2.k].id;
    }
  }

  lemma HoistStructured(f: Fn, loop: Loop, ph: Label, hs: seq<Instr>)
    requires Selected(f, loop, ph, hs) && Distinct(hs)
    ensures Structured(HoistFn(f, loop, ph, hs))
  {
    var g := HoistFn(f, loop, ph, hs);
    SameOutsideBodies(f, loop, ph, hs);
    FrameKept(f, g);
    HoistUnique(f, loop, ph, hs);
    forall s | HasSite(g, s)
      ensures SiteId(g, s) < g.nextId
    {
      var t := SiteBefore(f, loop, ph, hs, s);
    }
  }

  /** In whatever order, hoisting leaves the function well formed if and only if each operand is hoisted before its user. */
  lemma HoistWellFormedIff(f: Fn, loop: Loop, ph: Label, hs: seq<Instr>)
    requires Selected(f, loop, ph, hs) && Distinct(hs)
    ensures WellFormed(HoistFn(f, loop, ph, hs)) <==> OperandsFirst(hs)
  {
    HoistStructured(f, loop, ph, hs);
    HoistDominanceIff(f, loop, ph, hs);
  }

  // Runs

  /** The n-th block of the run is the preheader and comes to its terminator. */
  predicate LeavesPreheader(f: Fn, ph: Label, inp: Input, n: nat) {
    var c := Run(f, inp, n);
    && c.At? && c.lbl == ph && ph in f.blocks
    && var s := ExecPhis(f.blocks[ph].phis, c.prev, inp, c.env, c.env, c.w);
       s.Ok? && ExecBody(f.blocks[ph].body, inp, s.env, s.w).Ok?
  }

  ghost predicate EverLeaves(f: Fn, ph: Label, inp: Input) {
    exists n: nat :: LeavesPreheader(f, ph, inp, n)
  }

  /** Outside the loop, with nothing of the loop computed. */
  ghost predicate BeforeLoop(f: Fn, loop: Loop, c: Config) {
    c.At? ==> c.lbl !in loop.blocks && forall i :: LoopDefines(f, loop, i) ==> i !in c.env
  }

  lemma LoopDefinesNot(f: Fn, loop: Loop, l: Label, i: Id)
    requires Unique(f) && l in f.blocks && l !in loop.blocks && LoopDefines(f, loop, i)
    ensures i !in Defs(f.blocks[l])
  {
    var d :| d in loop.blocks && DefinesIn(f, d, i);
    if i in Defs(f.blocks[l]) {
      OneDefBlock(f, d, l, i);
    }
  }

  /** One block outside the loop that is not left for it. */
  lemma StepBeforeLoop(f: Fn, loop: Loop, ph: Label, inp: Input, c: Config)
    requires WellFormed(f) && IsLoop(f, loop) && loop.preheader == Some(ph)
    requires BeforeLoop(f, loop, c) && (c.At? && c.lbl == ph ==> !StepBlock(f, inp, c).At?)
    ensures BeforeLoop(f, loop, StepBlock(f, inp, c))
  {
    var c' := StepBlock(f, inp, c);
    if c.At? && c'.At? {
      var b := f.blocks[c.lbl];
      BlockDefines(b, c.lbl, c.prev, inp, c.env, c.w);
      assert IsEdge(f, c.lbl, c'.lbl);
      forall i | LoopDefines(f, loop, i)
        ensures i !in c'.env
      {
        LoopDefinesNot(f, loop, c.lbl, i);
      }
    }
  }

  /** Until the preheader is left, both functions run the same blocks. */
  lemma {:induction false} SameUntilLeft(f: Fn, loop: Loop, ph: Label, hs: seq<Instr>, inp: Input, n: nat)
    requires WellFormed(f) && IsLoop(f, loop) && loop.preheader == Some(ph)
    requires forall k: nat :: k < n ==> !LeavesPreheader(f, ph, inp, k)
    ensures Run(HoistFn(f, loop, ph, hs), inp, n) == Run(f, inp, n) && BeforeLoop(f, loop, Run(f, inp, n))
  {
    hide WellFormed, Pure, Eval, FromLoop, LoopDefines, Reachable, Vals, ExecBody, ExecPhis, Transfer;
    if n > 0 {
      SameUntilLeft(f, loop, ph, hs, inp, n - 1);
      var g := HoistFn(f, loop, ph, hs);
      var c := Run(f, inp, n - 1);
      if c.At? && c.lbl == ph {
        assert !LeavesPreheader(f, ph, inp, n - 1);
        var s := ExecPhis(f.blocks[ph].phis, c.prev, inp, c.env, c.env, c.w);
        if s.Ok? {
          BodyAppend(f.blocks[ph].body, hs, inp, s.env, s.w);
        }
      }
      StepBeforeLoop(f, loop, ph, inp, c);
    }
  }

  lemma {:induction false} FirstLeft(f: Fn, ph: Label, inp: Input, n: nat) returns (m: nat)
    requires LeavesPreheader(f, ph, inp, n)
    ensures m <= n && LeavesPreheader(f, ph, inp, m) && forall k: nat :: k < m ==> !LeavesPreheader(f, ph, inp, k)
  {
    if k: nat :| k < n && LeavesPreheader(f, ph, inp, k) {
      m := FirstLeft(f, ph, inp, k);
    } else {
      m := n;
    }
  }

  /** Of the loop's values only those hoisted so far are there. */
  ghost predicate OnlyHoisted(f: Fn, loop: Loop, hs: seq<Instr>, p: nat, env: Env)
    requires p <= |hs|
  {
    forall i :: LoopDefines(f, loop, i) ==> (i in env <==> i in Ids(hs[..p]))
  }

  ghost predicate AllFirst(hs: seq<Instr>, p: nat)
    requires p < |hs|
  {
    forall a :: 0 <= a < |hs[p].args| && hs[p].args[a].Local? ==> hs[p].args[a].id in Ids(hs[..p])
  }

  lemma EachFirst(hs: seq<Instr>)
    requires forall q :: 0 <= q < |hs| ==> AllFirst(hs, q)
    ensures OperandsFirst(hs)
  {
    forall p, a | 0 <= p < |hs| && 0 <= a < |hs[p].args| && hs[p].args[a].Local?
      ensures hs[p].args[a].id in Ids(hs[..p])
    {
      assert AllFirst(hs, p);
    }
  }

  lemma HoistedRuns(i: Instr, inp: Input, env: Env, w: World)
    requires Eligible(i) && Speculatable(i) && AllDefined(i.args, env)
    ensures var s := ExecInstr(i, inp, env, w); s.Ok? && s.w == w && s.env.Keys == env.Keys + {i.id}
  {
    DivisorValue(i, inp, env);
    PureEval(inp, i, Vals(i.args, inp, env), w);
  }

  lemma IdsNext(hs: seq<Instr>, p: nat)
    requires p < |hs|
    ensures Ids(hs[..p + 1]) == Ids(hs[..p]) + {hs[p].id}
  {
    assert hs[..p + 1] == hs[..p] + [hs[p]];
    IdsAppend(hs[..p], hs[p]);
  }

  /** The hoisted instructions run up to the first whose operand is not there. */
  lemma {:induction false} StuckAtFirst(f: Fn, loop: Loop, ph: Label, hs: seq<Instr>, p: nat, inp: Input, env: Env, w: World)
    requires Selected(f, loop, ph, hs) && p <= |hs| && OnlyHoisted(f, loop, hs, p, env)
    requires forall q :: 0 <= q < |hs| ==> Speculatable(hs[q])
    requires !OperandsFirst(hs) && forall q :: 0 <= q < p ==> AllFirst(hs, q)
    ensures ExecBody(hs[p..], inp, env, w) == Bad(Undefined, w)
    decreases |hs| - p
  {
    hide OnlyHoisted, AllFirst, OperandsFirst, Speculatable, Eval, WellFormed, IsLoop, FromLoop, LoopDefines, Reachable, Vals;
    if p == |hs| {
      EachFirst(hs);
    } else {
      assert hs[p..][1..] == hs[p + 1..];
      FirstDefined(f, loop, ph, hs, p, env);
      if AllFirst(hs, p) {
        HoistedRuns(hs[p], inp, env, w);
        var s := ExecInstr(hs[p], inp, env, w);
        OneMoreHoisted(f, loop, ph, hs, p, env, s.env);
        StuckAtFirst(f, loop, ph, hs, p + 1, inp, s.env, w);
      }
    }
  }

  lemma FirstDefined(f: Fn, loop: Loop, ph: Label, hs: seq<Instr>, p: nat, env: Env)
    requires Selected(f, loop, ph, hs) && p < |hs| && OnlyHoisted(f, loop, hs, p, env)
    ensures AllDefined(hs[p].args, env) <==> AllFirst(hs, p)
  {
    var args := hs[p].args;
    forall a | 0 <= a < |args|
      ensures Defined(args[a], env) <==> (args[a].Local? ==> args[a].id in Ids(hs[..p]))
    {
    }
  }

  lemma OneMoreHoisted(f: Fn, loop: Loop, ph: Label, hs: seq<Instr>, p: nat, env: Env, env': Env)
    requires p < |hs| && OnlyHoisted(f, loop, hs, p, env) && env'.Keys == env.Keys + {hs[p].id}
    ensures OnlyHoisted(f, loop, hs, p + 1, env')
  {
    IdsNext(hs, p);
  }

  /** If some operand is not hoisted before its user, a run that leaves the preheader gets stuck there on an undefined value. */
  lemma MissingOperandSticks(f: Fn, loop: Loop, ph: Label, hs: seq<Instr>, inp: Input, n: nat)
    returns (m: nat)
    requires Selected(f, loop, ph, hs) && (forall q :: 0 <= q < |hs| ==> Speculatable(hs[q]))
    requires !OperandsFirst(hs) && LeavesPreheader(f, ph, inp, n)
    ensures m <= n && LeavesPreheader(f, ph, inp, m) && Run(HoistFn(f, loop, ph, hs), inp, m) == Run(f, inp, m)
    ensures Run(HoistFn(f, loop, ph, hs), inp, m + 1).Stuck? && Run(HoistFn(f, loop, ph, hs), inp, m + 1).kind == Undefined
  {
    m := FirstLeft(f, ph, inp, n);
    SameUntilLeft(f, loop, ph, hs, inp, m);
    var c := Run(f, inp, m);
    var b := f.blocks[ph];
    var s1 := ExecPhis(b.phis, c.prev, inp, c.env, c.env, c.w);
    var s2 := ExecBody(b.body, inp, s1.env, s1.w);
    PhisDefine(b.phis, c.prev, inp, c.env, c.env, c.w);
    BodyDefines(b.body, inp, s1.env, s1.w);
    forall i | LoopDefines(f, loop, i)
      ensures i !in s2.env
    {
      LoopDefinesNot(f, loop, ph, i);
    }
    assert hs[..0] == [] && hs[0..] == hs;
    StuckAtFirst(f, loop, ph, hs, 0, inp, s2.env, s2.w);
    BodyAppend(b.body, hs, inp, s1.env, s1.w);
  }

  lemma SelectedOk(f: Fn, loop: Loop, ph: Label, hs: seq<Instr>)
    requires Selected(f, loop, ph, hs) && Distinct(hs) && OperandsFirst(hs) && forall q :: 0 <= q < |hs| ==> Speculatable(hs[q])
    ensures HoistOk(f, loop, ph, hs)
  {
  }

  lemma NeverLeft(f: Fn, loop: Loop, ph: Label, hs: seq<Instr>, inp: Input)
    requires WellFormed(f) && IsLoop(f, loop) && loop.preheader == Some(ph) && !EverLeaves(f, ph, inp)
    ensures SameOn(f, HoistFn(f, loop, ph, hs), inp)
  {
    var g := HoistFn(f, loop, ph, hs);
    forall n: nat
      ensures Matched(f, g, inp, n)
    {
      SameUntilLeft(f, loop, ph, hs, inp, n);
      assert Observe(Run(f, inp, n)) == Observe(Run(g, inp, n));
    }
    TracksGivesSameOn(f, g, inp);
  }

  /** A run keeps its behaviour if and only if every operand is hoisted before its user or the run never leaves the preheader. */
  lemma HoistRunIff(f: Fn, loop: Loop, ph: Label, hs: seq<Instr>, inp: Input)
    requires Selected(f, loop, ph, hs) && Distinct(hs) && forall q :: 0 <= q < |hs| ==> Speculatable(hs[q])
    ensures SameOn(f, HoistFn(f, loop, ph, hs), inp) <==> OperandsFirst(hs) || !EverLeaves(f, ph, inp)
  {
    var g := HoistFn(f, loop, ph, hs);
    hide HoistFn, WellFormed, IsLoop, FromLoop, LoopDefines, Distinct, SameOn, LeavesPreheader, Speculatable, OperandsFirst;
    if OperandsFirst(hs) {
      SelectedOk(f, loop, ph, hs);
      HoistSameBehaviour(f, loop, ph, hs);
      assert SameOn(f, g, inp);
    } else if EverLeaves(f, ph, inp) {
      var n: nat :| LeavesPreheader(f, ph, inp, n);
      var m := MissingOperandSticks(f, loop, ph, hs, inp, n);
      FaultTellsApart(f, g, inp, m + 1);
    } else {
      NeverLeft(f, loop, ph, hs, inp);
    }
  }
}
