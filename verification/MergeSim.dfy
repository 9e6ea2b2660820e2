/** Redirecting the edges of a block to its duplicate leaves every run alone if both are entered alike; and what goes wrong otherwise. */
module MergeSim {
  import opened Ir
  import opened Semantics
  import opened Ssa
  import opened Merge
  import opened MergeFacts

  // Environments that agree outside a set of ids

  ghost predicate EnvAgree(d: set<Id>, env: Env, env': Env) {
    forall i: Id :: i !in d ==> (i in env <==> i in env') && (i in env ==> env[i] == env'[i])
  }

  ghost predicate StepAgree(d: set<Id>, s: Step, s': Step) {
    if s.Ok? then s'.Ok? && s'.w == s.w && EnvAgree(d, s.env, s'.env)
    else s' == s
  }

  ghost predicate Outside(d: set<Id>, xs: seq<Operand>) {
    forall k :: 0 <= k < |xs| && xs[k].Local? ==> xs[k].id !in d
  }

  lemma {:induction false} ValsAgree(d: set<Id>, xs: seq<Operand>, inp: Input, env: Env, env': Env)
    requires EnvAgree(d, env, env') && Outside(d, xs)
    ensures AllDefined(xs, env) <==> AllDefined(xs, env')
    ensures Vals(xs, inp, env) == Vals(xs, inp, env')
  {
    forall k | 0 <= k < |xs|
      ensures Defined(xs[k], env) <==> Defined(xs[k], env')
    {
    }
    if xs != [] {
      ValsAgree(d, xs[1..], inp, env, env');
    }
  }

  /** Running the same code keeps the agreement and settles the ids it writes. */
  lemma {:induction false} BodyAgree(d: set<Id>, body: seq<Instr>, inp: Input, env: Env, env': Env, w: World)
    requires EnvAgree(d, env, env')
    requires forall k :: 0 <= k < |body| ==> Outside(d, body[k].args)
    ensures StepAgree(d - BodyDefs(body, |body|), ExecBody(body, inp, env, w), ExecBody(body, inp, env', w))
    decreases |body|
  {
    if body != [] {
      var i := body[0];
      ValsAgree(d, i.args, inp, env, env');
      BodyDefsCons(body);
      var s, s' := ExecInstr(i, inp, env, w), ExecInstr(i, inp, env', w);
      if s.Ok? {
        var d1 := if i.ty.Void? then d else d - {i.id};
        BodyAgree(d1, body[1..], inp, s.env, s'.env, s.w);
        assert d1 - BodyDefs(body[1..], |body| - 1) == d - BodyDefs(body, |body|);
      }
    }
  }

  // PHIs

  /** The PHI gets the same input, if any, on the two edges. */
  ghost predicate SameInput(edges: seq<Edge>, prev: Option<Label>, prev': Option<Label>, inp: Input, env: Env, env': Env) {
    && prev.Some? == prev'.Some?
    && (prev.Some? ==>
          var x, y := Incoming(edges, prev.value), Incoming(edges, prev'.value);
          && x.Some? == y.Some?
          && (x.Some? ==> (Defined(x.value, env) <==> Defined(y.value, env')) && Val(x.value, inp, env) == Val(y.value, inp, env')))
  }

  lemma {:induction false} PhisAgree(d: set<Id>, phis: seq<Phi>, prev: Option<Label>, prev': Option<Label>, inp: Input,
                                     edgeEnv: Env, edgeEnv': Env, env: Env, env': Env, w: World)
    requires EnvAgree(d, env, env')
    requires forall k :: 0 <= k < |phis| ==> SameInput(phis[k].edges, prev, prev', inp, edgeEnv, edgeEnv')
    ensures StepAgree(d - PhiDefs(phis), ExecPhis(phis, prev, inp, edgeEnv, env, w), ExecPhis(phis, prev', inp, edgeEnv', env', w))
    decreases |phis|
  {
    if phis != [] {
      assert SameInput(phis[0].edges, prev, prev', inp, edgeEnv, edgeEnv');
      var x := if prev.Some? then Incoming(phis[0].edges, prev.value) else None;
      if x.Some? && Defined(x.value, edgeEnv) {
        var v := Val(x.value, inp, edgeEnv);
        PhiDefsCons(phis);
        PhisAgree(d - {phis[0].id}, phis[1..], prev, prev', inp, edgeEnv, edgeEnv', env[phis[0].id := v], env'[phis[0].id := v], w);
        assert d - {phis[0].id} - PhiDefs(phis[1..]) == d - PhiDefs(phis);
      }
    }
  }

  /** Equal entries of two lists of PHIs for the block the run comes from. */
  ghost predicate SameEntries(xs: seq<Phi>, ys: seq<Phi>, prev: Option<Label>) {
    && |xs| == |ys|
    && forall k :: 0 <= k < |xs| && prev.Some? ==> Incoming(xs[k].edges, prev.value) == Incoming(ys[k].edges, prev.value)
  }

  /** The first q PHIs of the two sides have equal values. */
  ghost predicate PhisPaired(xs: seq<Phi>, ys: seq<Phi>, q: nat, env: Env, env': Env)
    requires q <= |xs| && |xs| == |ys|
  {
    forall p :: 0 <= p < q ==> xs[p].id in env && ys[p].id in env' && env[xs[p].id] == env'[ys[p].id]
  }

  ghost predicate DistinctPhis(xs: seq<Phi>) {
    forall p, q :: 0 <= p < q < |xs| ==> xs[p].id != xs[q].id
  }

  /** Twin PHIs with equal entries get equal values, each under its own id. */
  lemma {:induction false} PhisTwin(d: set<Id>, xs: seq<Phi>, ys: seq<Phi>, q: nat, prev: Option<Label>, inp: Input,
                                    edgeEnv: Env, edgeEnv': Env, env: Env, env': Env, w: World)
    requires SameEntries(xs, ys, prev) && q <= |xs| && DistinctPhis(xs) && DistinctPhis(ys)
    requires PhiDefs(xs) <= d && PhiDefs(ys) <= d
    requires forall k :: 0 <= k < |xs| ==> SameInput(xs[k].edges, prev, prev, inp, edgeEnv, edgeEnv')
    requires EnvAgree(d, env, env') && PhisPaired(xs, ys, q, env, env')
    ensures var s, s' := ExecPhis(xs[q..], prev, inp, edgeEnv, env, w), ExecPhis(ys[q..], prev, inp, edgeEnv', env', w);
            StepAgree(d, s, s') && (s.Ok? ==> PhisPaired(xs, ys, |xs|, s.env, s'.env))
    decreases |xs| - q
  {
    if q < |xs| {
      assert xs[q..][1..] == xs[q + 1..] && ys[q..][1..] == ys[q + 1..];
      assert SameInput(xs[q].edges, prev, prev, inp, edgeEnv, edgeEnv');
      assert xs[q].id in PhiDefs(xs) && ys[q].id in PhiDefs(ys);
      var x := if prev.Some? then Incoming(xs[q].edges, prev.value) else None;
      if x.Some? && Defined(x.value, edgeEnv) {
        var v := Val(x.value, inp, edgeEnv);
        PhisTwin(d, xs, ys, q + 1, prev, inp, edgeEnv, edgeEnv', env[xs[q].id := v], env'[ys[q].id := v], w);
      }
    }
  }

  // Debug intrinsics do nothing

  ghost predicate PlainDbgs(body: seq<Instr>) {
    forall k :: 0 <= k < |body| && body[k].op.Dbg? ==> body[k].ty.Void? && body[k].args == []
  }

  lemma LiveCons(body: seq<Instr>)
    requires body != [] && !body[0].op.Dbg?
    ensures Live(body) != [] && Live(body)[0] == body[0] && Live(body)[1..] == Live(body[1..])
  {
  }

  lemma DbgStep(i: Instr, inp: Input, env: Env, w: World)
    requires i.op.Dbg? && i.ty.Void? && i.args == []
    ensures ExecInstr(i, inp, env, w) == Ok(env, w)
  {
  }

  lemma {:induction false} ExecLive(body: seq<Instr>, inp: Input, env: Env, w: World)
    requires PlainDbgs(body)
    ensures ExecBody(Live(body), inp, env, w) == ExecBody(body, inp, env, w)
    decreases |body|
  {
    hide ExecInstr;
    if body != [] {
      if body[0].op.Dbg? {
        assert Live(body) == Live(body[1..]);
        DbgStep(body[0], inp, env, w);
        ExecLive(body[1..], inp, env, w);
      } else {
        LiveCons(body);
        var s := ExecInstr(body[0], inp, env, w);
        if s.Ok? {
          ExecLive(body[1..], inp, s.env, s.w);
        }
      }
    }
  }

  ghost predicate Before(body: seq<Instr>, x: Instr, k: nat) {
    exists j :: 0 <= j < k && j < |body| && body[j] == x
  }

  /** The q-th live instruction stands behind the live instructions before it. */
  lemma {:induction false} LiveFrom(body: seq<Instr>, q: nat) returns (k: nat)
    requires q < |Live(body)|
    ensures k < |body| && Live(body)[q] == body[k] && !body[k].op.Dbg?
    ensures forall p :: 0 <= p < q ==> Before(body, Live(body)[p], k)
    decreases |body|
  {
    var rest := Live(body[1..]);
    if body[0].op.Dbg? {
      assert Live(body) == rest;
      k := LiveFrom(body[1..], q);
      BeforeCons(body, k);
      k := k + 1;
    } else {
      assert Live(body)[1..] == rest;
      k := 0;
      if q > 0 {
        k := LiveFrom(body[1..], q - 1);
        BeforeCons(body, k);
        k := k + 1;
        assert Live(body)[q] == rest[q - 1];
        forall p | 0 <= p < q
          ensures Before(body, Live(body)[p], k)
        {
          if p == 0 {
            assert body[0] == Live(body)[0];
          } else {
            assert Live(body)[p] == rest[p - 1];
          }
        }
      }
    }
  }

  lemma BeforeCons(body: seq<Instr>, k: nat)
    requires body != []
    ensures forall x :: Before(body[1..], x, k) ==> Before(body, x, k + 1)
  {
    forall x | Before(body[1..], x, k)
      ensures Before(body, x, k + 1)
    {
      var j :| 0 <= j < k && j < |body[1..]| && body[1..][j] == x;
      assert body[j + 1] == x;
    }
  }

  // Running two blocks side by side

  ghost predicate Twins(d: set<Id>, xs: seq<Instr>, ys: seq<Instr>) {
    && |xs| == |ys|
    && (forall q :: 0 <= q < |xs| ==> TwinInstrs(d, xs[q], ys[q]))
    && (forall p, q :: 0 <= p < q < |xs| ==> xs[p].id != xs[q].id && ys[p].id != ys[q].id)
  }

  /** The same operation on the same outside operands, each with its own result. */
  ghost predicate TwinInstrs(d: set<Id>, x: Instr, y: Instr) {
    && x.op == y.op && x.ty == y.ty && x.args == y.args && Outside(d, x.args)
    && (!x.ty.Void? ==> x.id in d && y.id in d)
  }

  /** The first q results of the two sides are equal. */
  ghost predicate Paired(xs: seq<Instr>, ys: seq<Instr>, q: nat, env: Env, env': Env)
    requires q <= |xs| && |xs| == |ys|
  {
    forall p :: 0 <= p < q && !xs[p].ty.Void? ==> xs[p].id in env && ys[p].id in env' && env[xs[p].id] == env'[ys[p].id]
  }

  lemma {:induction false} TwinsRun(d: set<Id>, xs: seq<Instr>, ys: seq<Instr>, q: nat, inp: Input, env: Env, env': Env, w: World)
    requires Twins(d, xs, ys) && q <= |xs| && EnvAgree(d, env, env') && Paired(xs, ys, q, env, env')
    ensures var s, s' := ExecBody(xs[q..], inp, env, w), ExecBody(ys[q..], inp, env', w);
            StepAgree(d, s, s') && (s.Ok? ==> Paired(xs, ys, |xs|, s.env, s'.env))
    decreases |xs| - q
  {
    if q < |xs| {
      assert TwinInstrs(d, xs[q], ys[q]);
      ValsAgree(d, xs[q].args, inp, env, env');
      var s, s' := ExecInstr(xs[q], inp, env, w), ExecInstr(ys[q], inp, env', w);
      assert xs[q..][1..] == xs[q + 1..] && ys[q..][1..] == ys[q + 1..];
      if s.Ok? {
        TwinsRun(d, xs, ys, q + 1, inp, s.env, s'.env, s.w);
      }
    }
  }

  lemma LiveDistinct(f: Fn, b: Label)
    requires Unique(f) && b in f.blocks
    ensures forall p, q :: 0 <= p < q < |Live(f.blocks[b].body)| ==> Live(f.blocks[b].body)[p].id != Live(f.blocks[b].body)[q].id
  {
    var body := f.blocks[b].body;
    forall p, q | 0 <= p < q < |Live(body)|
      ensures Live(body)[p].id != Live(body)[q].id
    {
      var k := LiveFrom(body, q);
      assert Before(body, Live(body)[p], k);
      var j :| 0 <= j < k && j < |body| && body[j] == Live(body)[p];
      assert SiteId(f, InstrSite(b, j)) == body[j].id && SiteId(f, InstrSite(b, k)) == body[k].id;
    }
  }

  lemma LiveDefined(b: Block, q: nat)
    requires q < |Live(b.body)| && !Live(b.body)[q].ty.Void?
    ensures Live(b.body)[q].id in Defs(b)
  {
    var k := LiveFrom(b.body, q);
  }

  lemma LiveOutside(f: Fn, b1: Label, b2: Label, q: nat)
    requires Mergeable(f, b1, b2) && b2 in f.blocks && q < |Live(f.blocks[b1].body)|
    ensures Outside(Inner(f, b1, b2), Live(f.blocks[b1].body)[q].args)
  {
    var x := Live(f.blocks[b1].body)[q];
    var k := LiveFrom(f.blocks[b1].body, q);
    forall a | 0 <= a < |x.args| && x.args[a].Local?
      ensures x.args[a].id !in Inner(f, b1, b2)
    {
      ReadsOutside(f, b1, b2, InstrUse(b1, k, a), x.args[a]);
    }
  }

  lemma MergeableBlock(f: Fn, b1: Label, b2: Label)
    requires Mergeable(f, b1, b2)
    ensures b1 in f.blocks && f.blocks[b1].term.Br?
  {
  }

  lemma TwinAt(f: Fn, b1: Label, b2: Label, q: nat)
    requires Mergeable(f, b1, b2) && b2 in f.blocks && |f.blocks[b2].phis| == |f.blocks[b1].phis|
    requires q < |Live(f.blocks[b1].body)| && |Live(f.blocks[b2].body)| == |Live(f.blocks[b1].body)|
    ensures TwinInstrs(Inner(f, b1, b2), Live(f.blocks[b1].body)[q], Live(f.blocks[b2].body)[q])
  {
    hide Mergeable, Live, NonDbg, Items, Outside, Defs;
    MergeableBlock(f, b1, b2);
    BlockItems(f.blocks[b1]);
    BlockItems(f.blocks[b2]);
    AlignedAt(f, b1, b2, b1, b2, |f.blocks[b1].phis| + q);
    LiveOutside(f, b1, b2, q);
    if !Live(f.blocks[b1].body)[q].ty.Void? {
      LiveDefined(f.blocks[b1], q);
      LiveDefined(f.blocks[b2], q);
    }
  }

  lemma BlocksAreTwins(f: Fn, b1: Label, b2: Label)
    requires Mergeable(f, b1, b2)
    ensures b2 in f.blocks && |f.blocks[b2].phis| == |f.blocks[b1].phis|
    ensures Twins(Inner(f, b1, b2), Live(f.blocks[b1].body), Live(f.blocks[b2].body))
  {
    SameShape(f, b1, b2);
    BlockItems(f.blocks[b1]);
    BlockItems(f.blocks[b2]);
    LiveDistinct(f, b1);
    LiveDistinct(f, b2);
    forall q | 0 <= q < |Live(f.blocks[b1].body)|
      ensures TwinInstrs(Inner(f, b1, b2), Live(f.blocks[b1].body)[q], Live(f.blocks[b2].body)[q])
    {
      TwinAt(f, b1, b2, q);
    }
  }

  lemma PhisDistinct(f: Fn, b: Label)
    requires Unique(f) && b in f.blocks
    ensures DistinctPhis(f.blocks[b].phis)
    ensures forall p, k :: 0 <= p < |f.blocks[b].phis| && 0 <= k < |f.blocks[b].body| ==> f.blocks[b].body[k].id != f.blocks[b].phis[p].id
  {
    var phis, body := f.blocks[b].phis, f.blocks[b].body;
    forall p, q | 0 <= p < q < |phis|
      ensures phis[p].id != phis[q].id
    {
      assert SiteId(f, PhiSite(b, p)) == phis[p].id && SiteId(f, PhiSite(b, q)) == phis[q].id;
    }
    forall p, k | 0 <= p < |phis| && 0 <= k < |body|
      ensures body[k].id != phis[p].id
    {
      assert SiteId(f, PhiSite(b, p)) == phis[p].id && SiteId(f, InstrSite(b, k)) == body[k].id;
    }
  }

  // Simulation

  /** The successor's PHI, if there is one, gets the same value in the two runs. */
  ghost predicate EdgeOk(f: Fn, b1: Label, b2: Label, inp: Input, prev: Label, env: Env, env': Env)
    requires b1 in f.blocks && f.blocks[b1].term.Br? && SuccOf(f, b1) in f.blocks
  {
    f.blocks[SuccOf(f, b1)].phis != [] ==>
      SameInput(f.blocks[SuccOf(f, b1)].phis[0].edges, Some(prev), Some(b2), inp, env, env')
  }

  function SwitchPrev(prev: Option<Label>, b1: Label, b2: Label): Option<Label> {
    if prev.Some? then Some(Switch1(prev.value, b1, b2)) else None
  }

  /** Where the original is at b1 or comes from it, the merged function is at b2 or comes from there. */
  ghost predicate Rel(f: Fn, b1: Label, b2: Label, inp: Input, c: Config, c': Config)
    requires b1 in f.blocks && b2 in f.blocks && f.blocks[b1].term.Br? && SuccOf(f, b1) in f.blocks
  {
    if c.At? then
      && c'.At?
      && c.lbl in f.blocks && c'.lbl == Switch1(c.lbl, b1, b2)
      && c'.prev == SwitchPrev(c.prev, b1, b2)
      && (c.prev.Some? ==> IsEdge(f, c.prev.value, c.lbl))
      && c'.w == c.w
      && EnvAgree(Inner(f, b1, b2), c.env, c'.env)
      && (c.prev.Some? && c.prev.value in {b1, b2} ==> EdgeOk(f, b1, b2, inp, c.prev.value, c.env, c'.env))
    else c' == c
  }

  lemma CaseDestRetarget(cases: seq<Case>, v: int, d: Label, b1: Label, b2: Label)
    ensures CaseDest(RetargetCases(cases, b1, b2), v, Switch1(d, b1, b2)) == Switch1(CaseDest(cases, v, d), b1, b2)
  {
    if cases != [] && cases[0].key != v {
      CaseDestRetarget(cases[1..], v, d, b1, b2);
      assert RetargetCases(cases, b1, b2)[1..] == RetargetCases(cases[1..], b1, b2);
    }
  }

  lemma TransferRetarget(f: Fn, b1: Label, b2: Label, l: Label, inp: Input, env: Env, env': Env)
    requires Mergeable(f, b1, b2) && b2 in f.blocks && l in f.blocks
    requires EnvAgree(Inner(f, b1, b2), env, env')
    ensures var j := Transfer(f.blocks[l].term, inp, env);
            Transfer(Retarget(f.blocks[l].term, b1, b2), inp, env') == if j.Goto? then Goto(Switch1(j.dest, b1, b2)) else j
  {
    var t := f.blocks[l].term;
    TermOutside(f, b1, b2, l);
    ValsAgree(Inner(f, b1, b2), TermArgs(t), inp, env, env');
    assert b1 in Succs(t) ==> l in Preds(f, b1);
    JumpRetarget(t, b1, b2, inp, env, env');
  }

  lemma JumpRetarget(t: Term, b1: Label, b2: Label, inp: Input, env: Env, env': Env)
    requires AllDefined(TermArgs(t), env) <==> AllDefined(TermArgs(t), env')
    requires Vals(TermArgs(t), inp, env) == Vals(TermArgs(t), inp, env')
    requires b1 in Succs(t) ==> IsBranchOrSwitch(t)
    ensures var j := Transfer(t, inp, env);
            Transfer(Retarget(t, b1, b2), inp, env') == if j.Goto? then Goto(Switch1(j.dest, b1, b2)) else j
  {
    TransferIsSucc(t, inp, env);
    if TermArgs(t) != [] {
      var x := TermArgs(t)[0];
      assert Val(x, inp, env) == Vals(TermArgs(t), inp, env)[0];
      assert Val(x, inp, env') == Vals(TermArgs(t), inp, env')[0];
    }
    if t.Switch? {
      CaseDestRetarget(t.cases, Val(t.on, inp, env), t.default, b1, b2);
    }
  }

  lemma TermOutside(f: Fn, b1: Label, b2: Label, l: Label)
    requires Mergeable(f, b1, b2) && b2 in f.blocks && l in f.blocks
    ensures Outside(Inner(f, b1, b2), TermArgs(f.blocks[l].term))
  {
    forall a | 0 <= a < |TermArgs(f.blocks[l].term)|
      ensures TermArgs(f.blocks[l].term)[a].Local? ==> TermArgs(f.blocks[l].term)[a].id !in Inner(f, b1, b2)
    {
      ReadsOutside(f, b1, b2, TermUse(l, a), TermArgs(f.blocks[l].term)[a]);
    }
  }

  lemma BodyOutside(f: Fn, b1: Label, b2: Label, l: Label)
    requires Mergeable(f, b1, b2) && b2 in f.blocks && l in f.blocks
    ensures forall k :: 0 <= k < |f.blocks[l].body| ==> Outside(Inner(f, b1, b2), f.blocks[l].body[k].args)
  {
    var body := f.blocks[l].body;
    forall k, a | 0 <= k < |body| && 0 <= a < |body[k].args| && body[k].args[a].Local?
      ensures body[k].args[a].id !in Inner(f, b1, b2)
    {
      ReadsOutside(f, b1, b2, InstrUse(l, k, a), body[k].args[a]);
    }
  }

  /** Leaving corresponding blocks keeps the relation, given the successor's PHI input when leaving the pair. */
  lemma LeaveMerge(f: Fn, b1: Label, b2: Label, l: Label, inp: Input, env: Env, env': Env, w: World)
    requires Mergeable(f, b1, b2) && b2 in f.blocks && l in f.blocks
    requires EnvAgree(Inner(f, b1, b2), env, env')
    requires l in {b1, b2} ==> EdgeOk(f, b1, b2, inp, l, env, env')
    ensures Rel(f, b1, b2, inp, Leave(f.blocks[l].term, l, inp, env, w),
                Leave(Retarget(f.blocks[l].term, b1, b2), Switch1(l, b1, b2), inp, env', w))
  {
    TransferRetarget(f, b1, b2, l, inp, env, env');
    TransferIsSucc(f.blocks[l].term, inp, env);
    var j := Transfer(f.blocks[l].term, inp, env);
    if j.Goto? {
      assert IsEdge(f, l, j.dest);
    }
  }

  lemma InputOutside(f: Fn, b1: Label, b2: Label, l: Label, k: nat, prev: Label, inp: Input, env: Env, env': Env)
    requires Mergeable(f, b1, b2) && b2 in f.blocks && l in f.blocks && k < |f.blocks[l].phis|
    requires EnvAgree(Inner(f, b1, b2), env, env') && prev !in {b1, b2}
    ensures SameInput(f.blocks[l].phis[k].edges, Some(prev), Some(prev), inp, env, env')
  {
    var edges := f.blocks[l].phis[k].edges;
    IncomingFound(edges, prev);
    var x := Incoming(edges, prev);
    if x.Some? {
      var e :| 0 <= e < |edges| && edges[e] == Edge(prev, x.value);
      ReadsOutside(f, b1, b2, PhiUse(l, k, e), x.value);
    }
  }

  lemma PhiInputs(f: Fn, b1: Label, b2: Label, inp: Input, c: Config, c': Config, k: nat)
    requires Mergeable(f, b1, b2) && b2 in f.blocks && c.At? && Rel(f, b1, b2, inp, c, c')
    requires k < |f.blocks[c.lbl].phis|
    ensures SameInput(f.blocks[c.lbl].phis[k].edges, c.prev, c'.prev, inp, c.env, c'.env)
  {
    if c.prev.Some? {
      if c.prev.value in {b1, b2} {
        SameShape(f, b1, b2);
        assert c.lbl == SuccOf(f, b1);
      } else {
        InputOutside(f, b1, b2, c.lbl, k, c.prev.value, inp, c.env, c'.env);
      }
    }
  }

  /** In the other blocks, and in b2 itself, both functions run the same code. */
  lemma StepSame(f: Fn, b1: Label, b2: Label, inp: Input, c: Config, c': Config)
    requires Mergeable(f, b1, b2) && b2 in f.blocks && c.At? && c.lbl != b1 && Rel(f, b1, b2, inp, c, c')
    ensures Rel(f, b1, b2, inp, StepBlock(f, inp, c), StepBlock(Redirect(f, b1, b2), inp, c'))
  {
    var l := c.lbl;
    var b := f.blocks[l];
    var d := Inner(f, b1, b2);
    assert Redirect(f, b1, b2).blocks[l] == b.(term := Retarget(b.term, b1, b2));
    forall k | 0 <= k < |b.phis|
      ensures SameInput(b.phis[k].edges, c.prev, c'.prev, inp, c.env, c'.env)
    {
      PhiInputs(f, b1, b2, inp, c, c', k);
    }
    PhisAgree(d, b.phis, c.prev, c'.prev, inp, c.env, c'.env, c.env, c'.env, c.w);
    var s1, s1' := ExecPhis(b.phis, c.prev, inp, c.env, c.env, c.w), ExecPhis(b.phis, c'.prev, inp, c'.env, c'.env, c.w);
    if s1.Ok? {
      BodyOutside(f, b1, b2, l);
      var d1 := d - PhiDefs(b.phis);
      BodyAgree(d1, b.body, inp, s1.env, s1'.env, s1.w);
      assert d1 - BodyDefs(b.body, |b.body|) == d - Defs(b);
      var s2, s2' := ExecBody(b.body, inp, s1.env, s1.w), ExecBody(b.body, inp, s1'.env, s1.w);
      if s2.Ok? {
        if l == b2 {
          SameEdge(f, b1, b2, inp, s2.env, s2'.env);
        }
        LeaveMerge(f, b1, b2, l, inp, s2.env, s2'.env, s2.w);
      }
    }
  }

  lemma PositionOf(f: Fn, b1: Label, b2: Label, x: Operand, y: Operand) returns (q: nat)
    requires b1 in f.blocks && b2 in f.blocks && SamePosition(f, b1, b2, x, y)
    ensures q < |NonDbg(Items(f.blocks[b1]))| && q < |NonDbg(Items(f.blocks[b2]))|
    ensures x == Local(ItemId(NonDbg(Items(f.blocks[b1]))[q])) && y == Local(ItemId(NonDbg(Items(f.blocks[b2]))[q]))
  {
    q :| 0 <= q < |NonDbg(Items(f.blocks[b1]))| && q < |NonDbg(Items(f.blocks[b2]))|
         && x == Local(ItemId(NonDbg(Items(f.blocks[b1]))[q])) && y == Local(ItemId(NonDbg(Items(f.blocks[b2]))[q]));
  }

  /** The value the retained block gives the successor's PHI is its own, or no value of the two blocks. */
  lemma RetainedEdgeValue(f: Fn, b1: Label, b2: Label)
    requires Mergeable(f, b1, b2) && b2 in f.blocks && f.blocks[SuccOf(f, b1)].phis != []
    ensures var x := Incoming(f.blocks[SuccOf(f, b1)].phis[0].edges, b2);
            x.Some? && (x.value.Local? ==>
              x.value.id !in Inner(f, b1, b2) || x.value.id in Defs(f.blocks[b2]))
  {
    EdgeValues(f, b1, b2);
    var edges := f.blocks[SuccOf(f, b1)].phis[0].edges;
    var v1, v2 := Incoming(edges, b1), Incoming(edges, b2);
    hide Mergeable, Inner, Defs, SamePosition;
    if SamePosition(f, b1, b2, v1.value, v2.value) {
      var q := PositionOf(f, b1, b2, v1.value, v2.value);
      UsedPosition(f, b1, b2, b2, q, v2.value);
    }
  }

  lemma SameEdge(f: Fn, b1: Label, b2: Label, inp: Input, env: Env, env': Env)
    requires Mergeable(f, b1, b2) && b2 in f.blocks
    requires EnvAgree(Inner(f, b1, b2) - Defs(f.blocks[b2]), env, env')
    ensures EdgeOk(f, b1, b2, inp, b2, env, env')
  {
    if f.blocks[SuccOf(f, b1)].phis != [] {
      RetainedEdgeValue(f, b1, b2);
      hide Mergeable, Inner, Defs;
    }
  }

  /** A value that reaches the successor's PHI is produced, by a PHI or by a live instruction. */
  lemma UsedPosition(f: Fn, b1: Label, b2: Label, b: Label, q: nat, x: Operand)
    requires Mergeable(f, b1, b2) && b2 in f.blocks && b in {b1, b2}
    requires q < |NonDbg(Items(f.blocks[b]))| && x == Local(ItemId(NonDbg(Items(f.blocks[b]))[q]))
    requires f.blocks[SuccOf(f, b1)].phis != [] && Incoming(f.blocks[SuccOf(f, b1)].phis[0].edges, b) == Some(x)
    ensures x.id in Defs(f.blocks[b])
    ensures var n := |f.blocks[b].phis|;
            && (q < n ==> f.blocks[b].phis[q].id == x.id)
            && (q >= n ==> q - n < |Live(f.blocks[b].body)| && Live(f.blocks[b].body)[q - n].id == x.id && !Live(f.blocks[b].body)[q - n].ty.Void?)
  {
    hide NonDbg, Items, Live, Uses;
    BlockItems(f.blocks[b]);
    var n := |f.blocks[b].phis|;
    if q >= n {
      var k := LiveFrom(f.blocks[b].body, q - n);
      var edges := f.blocks[SuccOf(f, b1)].phis[0].edges;
      IncomingFound(edges, b);
      var e :| 0 <= e < |edges| && edges[e] == Edge(b, x);
      assert PhiUse(SuccOf(f, b1), 0, e) in Uses(f, x.id);
    }
  }

  /** Position by position, the values of b1 in one environment are those of b2 in the other. */
  ghost predicate BlocksPaired(a: Block, b: Block, env: Env, env': Env) {
    && |a.phis| == |b.phis| && PhisPaired(a.phis, b.phis, |a.phis|, env, env')
    && |Live(a.body)| == |Live(b.body)| && Paired(Live(a.body), Live(b.body), |Live(a.body)|, env, env')
  }

  /** Values at the same position that reach the successor's PHI are equal. */
  lemma PairedPosition(f: Fn, b1: Label, b2: Label, q: nat, x: Operand, y: Operand, inp: Input, env: Env, env': Env)
    requires Mergeable(f, b1, b2) && b2 in f.blocks && BlocksPaired(f.blocks[b1], f.blocks[b2], env, env')
    requires q < |NonDbg(Items(f.blocks[b1]))| && x == Local(ItemId(NonDbg(Items(f.blocks[b1]))[q]))
    requires q < |NonDbg(Items(f.blocks[b2]))| && y == Local(ItemId(NonDbg(Items(f.blocks[b2]))[q]))
    requires f.blocks[SuccOf(f, b1)].phis != []
    requires Incoming(f.blocks[SuccOf(f, b1)].phis[0].edges, b1) == Some(x)
    requires Incoming(f.blocks[SuccOf(f, b1)].phis[0].edges, b2) == Some(y)
    ensures x.id in env && y.id in env' && env[x.id] == env'[y.id]
  {
    hide Mergeable, NonDbg, Items, ItemId, SuccOf, Incoming, Defs, Live;
    UsedPosition(f, b1, b2, b1, q, x);
    UsedPosition(f, b1, b2, b2, q, y);
  }

  lemma TwinEdge(f: Fn, b1: Label, b2: Label, inp: Input, env: Env, env': Env)
    requires Mergeable(f, b1, b2) && b2 in f.blocks
    requires EnvAgree(Inner(f, b1, b2), env, env') && BlocksPaired(f.blocks[b1], f.blocks[b2], env, env')
    ensures EdgeOk(f, b1, b2, inp, b1, env, env')
  {
    if f.blocks[SuccOf(f, b1)].phis != [] {
      EdgeValues(f, b1, b2);
      hide Mergeable, BlocksPaired, SamePosition, Inner, Incoming, NonDbg, Items;
      var edges := f.blocks[SuccOf(f, b1)].phis[0].edges;
      var v1, v2 := Incoming(edges, b1), Incoming(edges, b2);
      if SamePosition(f, b1, b2, v1.value, v2.value) {
        var q := PositionOf(f, b1, b2, v1.value, v2.value);
        PairedPosition(f, b1, b2, q, v1.value, v2.value, inp, env, env');
      }
    }
  }

  // Entering the erased block

  /** The k-th PHIs of the two blocks have the same entry for p. */
  ghost predicate SameEntry(a: Block, b: Block, p: Label, k: nat) {
    k < |a.phis| && k < |b.phis| && Incoming(a.phis[k].edges, p) == Incoming(b.phis[k].edges, p)
  }

  /** If b1 has PHIs, block p enters b2 too, and the PHIs of the two blocks have the same entries for it. */
  ghost predicate EntryMatches(f: Fn, b1: Label, b2: Label, p: Label) {
    && b1 in f.blocks && b2 in f.blocks
    && (f.blocks[b1].phis != [] ==> p in Preds(f, b2))
    && forall k :: 0 <= k < |f.blocks[b1].phis| ==> SameEntry(f.blocks[b1], f.blocks[b2], p, k)
  }

  /** Every block that enters b1 enters b2 too, with the same PHI entries; blocks without PHIs always match. */
  ghost predicate EntriesMatch(f: Fn, b1: Label, b2: Label) {
    forall p :: p in Preds(f, b1) ==> EntryMatches(f, b1, b2, p)
  }

  /** The n-th configuration of a run does not stand before b1, or has come there over an edge that matches. */
  ghost predicate VisitMatches(f: Fn, b1: Label, b2: Label, inp: Input, n: nat) {
    var c := Run(f, inp, n);
    c.At? && c.lbl == b1 && c.prev.Some? ==> EntryMatches(f, b1, b2, c.prev.value)
  }

  /** Neither of the two blocks enters both of them. */
  lemma MatchingEntryOutside(f: Fn, b1: Label, b2: Label, p: Label)
    requires Mergeable(f, b1, b2) && EntryMatches(f, b1, b2, p) && IsEdge(f, p, b1) && f.blocks[b1].phis != []
    ensures p !in {b1, b2}
  {
    SameShape(f, b1, b2);
  }

  /** The PHIs of b1 in the original and of b2 in the merged function, on a matching edge. */
  lemma TwinPhisRun(f: Fn, b1: Label, b2: Label, inp: Input, c: Config, c': Config)
    requires Mergeable(f, b1, b2) && b2 in f.blocks && c.At? && c.lbl == b1 && Rel(f, b1, b2, inp, c, c')
    requires c.prev.Some? ==> EntryMatches(f, b1, b2, c.prev.value)
    requires |f.blocks[b2].phis| == |f.blocks[b1].phis|
    ensures var xs, ys := f.blocks[b1].phis, f.blocks[b2].phis;
            var s, s' := ExecPhis(xs, c.prev, inp, c.env, c.env, c.w), ExecPhis(ys, c'.prev, inp, c'.env, c'.env, c.w);
            StepAgree(Inner(f, b1, b2), s, s') && (s.Ok? ==> PhisPaired(xs, ys, |xs|, s.env, s'.env))
  {
    var xs, ys := f.blocks[b1].phis, f.blocks[b2].phis;
    if xs != [] {
      PhisDistinct(f, b1);
      PhisDistinct(f, b2);
      if c.prev.Some? {
        MatchingEntryOutside(f, b1, b2, c.prev.value);
        forall k | 0 <= k < |xs|
          ensures SameInput(xs[k].edges, c.prev, c.prev, inp, c.env, c'.env)
          ensures Incoming(xs[k].edges, c.prev.value) == Incoming(ys[k].edges, c.prev.value)
        {
          assert SameEntry(f.blocks[b1], f.blocks[b2], c.prev.value, k);
          InputOutside(f, b1, b2, b1, k, c.prev.value, inp, c.env, c'.env);
        }
      }
      assert xs[0..] == xs && ys[0..] == ys;
      hide Mergeable;
      PhisTwin(Inner(f, b1, b2), xs, ys, 0, c.prev, inp, c.env, c'.env, c.env, c'.env, c.w);
    }
  }

  /** The bodies of the two blocks, PHIs done. */
  lemma TwinBodiesRun(f: Fn, b1: Label, b2: Label, inp: Input, env: Env, env': Env, w: World)
    requires Mergeable(f, b1, b2) && b2 in f.blocks && |f.blocks[b2].phis| == |f.blocks[b1].phis|
    requires EnvAgree(Inner(f, b1, b2), env, env') && PhisPaired(f.blocks[b1].phis, f.blocks[b2].phis, |f.blocks[b1].phis|, env, env')
    ensures var s, s' := ExecBody(f.blocks[b1].body, inp, env, w), ExecBody(f.blocks[b2].body, inp, env', w);
            StepAgree(Inner(f, b1, b2), s, s') && (s.Ok? ==> BlocksPaired(f.blocks[b1], f.blocks[b2], s.env, s'.env))
  {
    var x, y := f.blocks[b1], f.blocks[b2];
    BlocksAreTwins(f, b1, b2);
    assert PlainDbgs(x.body) && PlainDbgs(y.body);
    ExecLive(x.body, inp, env, w);
    ExecLive(y.body, inp, env', w);
    assert Live(x.body)[0..] == Live(x.body) && Live(y.body)[0..] == Live(y.body);
    TwinsRun(Inner(f, b1, b2), Live(x.body), Live(y.body), 0, inp, env, env', w);
    PhisDistinct(f, b1);
    PhisDistinct(f, b2);
    hide Mergeable, Twins, Live, ExecBody, Inner;
    forall p | 0 <= p < |x.phis|
      ensures var s, s' := ExecBody(x.body, inp, env, w), ExecBody(y.body, inp, env', w);
              s.Ok? && s'.Ok? ==> x.phis[p].id in s.env && y.phis[p].id in s'.env && s.env[x.phis[p].id] == s'.env[y.phis[p].id]
    {
      BodyKeepsValue(x.body, x.phis[p].id, inp, env, w);
      BodyKeepsValue(y.body, y.phis[p].id, inp, env', w);
    }
  }

  /** Where the original runs b1, entered over a matching edge, the merged function runs b2. */
  lemma StepTwin(f: Fn, b1: Label, b2: Label, inp: Input, c: Config, c': Config)
    requires Mergeable(f, b1, b2) && b2 in f.blocks && c.At? && c.lbl == b1 && Rel(f, b1, b2, inp, c, c')
    requires c.prev.Some? ==> EntryMatches(f, b1, b2, c.prev.value)
    ensures Rel(f, b1, b2, inp, StepBlock(f, inp, c), StepBlock(Redirect(f, b1, b2), inp, c'))
  {
    SameShape(f, b1, b2);
    assert Redirect(f, b1, b2).blocks[b2] == f.blocks[b2].(term := Retarget(f.blocks[b1].term, b1, b2));
    TwinPhisRun(f, b1, b2, inp, c, c');
    var s1 := ExecPhis(f.blocks[b1].phis, c.prev, inp, c.env, c.env, c.w);
    var s1' := ExecPhis(f.blocks[b2].phis, c'.prev, inp, c'.env, c'.env, c.w);
    hide Mergeable, BlocksPaired, EnvAgree, Inner, PhisPaired, ExecPhis, ExecBody, EntryMatches, Redirect;
    if s1.Ok? {
      TwinBodiesRun(f, b1, b2, inp, s1.env, s1'.env, s1.w);
      var s, s' := ExecBody(f.blocks[b1].body, inp, s1.env, s1.w), ExecBody(f.blocks[b2].body, inp, s1'.env, s1.w);
      if s.Ok? {
        TwinEdge(f, b1, b2, inp, s.env, s'.env);
        LeaveMerge(f, b1, b2, b1, inp, s.env, s'.env, s.w);
      }
    }
  }

  /** As long as b1 is only entered over matching edges, the two runs agree on every value but those of the two blocks. */
  lemma {:induction false} MergeKeepsUp(f: Fn, b1: Label, b2: Label, inp: Input, n: nat)
    requires Mergeable(f, b1, b2) && b2 in f.blocks
    requires forall m: nat :: m < n ==> VisitMatches(f, b1, b2, inp, m)
    ensures Rel(f, b1, b2, inp, Run(f, inp, n), Run(Redirect(f, b1, b2), inp, n))
  {
    if n > 0 {
      MergeKeepsUp(f, b1, b2, inp, n - 1);
      assert VisitMatches(f, b1, b2, inp, n - 1);
      RunNext(f, inp, n - 1);
      RunNext(Redirect(f, b1, b2), inp, n - 1);
      hide Mergeable, ExecBlock, Redirect, EntryMatches, StepBlock, Run;
      MergeStep(f, b1, b2, inp, Run(f, inp, n - 1), Run(Redirect(f, b1, b2), inp, n - 1));
    }
  }

  lemma MergeStep(f: Fn, b1: Label, b2: Label, inp: Input, c: Config, c': Config)
    requires Mergeable(f, b1, b2) && b2 in f.blocks && Rel(f, b1, b2, inp, c, c')
    requires c.At? && c.lbl == b1 && c.prev.Some? ==> EntryMatches(f, b1, b2, c.prev.value)
    ensures Rel(f, b1, b2, inp, StepBlock(f, inp, c), StepBlock(Redirect(f, b1, b2), inp, c'))
  {
    hide Mergeable, ExecBlock, Redirect, EntryMatches;
    if c.At? {
      if c.lbl == b1 {
        StepTwin(f, b1, b2, inp, c, c');
      } else {
        StepSame(f, b1, b2, inp, c, c');
      }
    }
  }

  lemma MergeTracks(f: Fn, b1: Label, b2: Label, inp: Input)
    requires Mergeable(f, b1, b2) && b2 in f.blocks
    requires forall n: nat :: VisitMatches(f, b1, b2, inp, n)
    ensures Tracks(f, Redirect(f, b1, b2), inp)
  {
    forall n: nat
      ensures Matched(f, Redirect(f, b1, b2), inp, n)
    {
      MergeKeepsUp(f, b1, b2, inp, n);
      assert Observe(Run(f, inp, n)) == Observe(Run(Redirect(f, b1, b2), inp, n));
    }
  }

  /** Merging a block into its duplicate leaves every run alone if whoever enters it enters the duplicate with the same PHI entries. */
  lemma MergeSameBehaviour(f: Fn, b1: Label, b2: Label)
    requires Mergeable(f, b1, b2) && EntriesMatch(f, b1, b2)
    ensures SameBehaviour(f, Redirect(f, b1, b2))
  {
    SameShape(f, b1, b2);
    forall inp: Input
      ensures Tracks(f, Redirect(f, b1, b2), inp)
    {
      forall n: nat
        ensures VisitMatches(f, b1, b2, inp, n)
      {
        VisitHasEdge(f, inp, n);
      }
      MergeTracks(f, b1, b2, inp);
    }
    TracksGivesSameBehaviour(f, Redirect(f, b1, b2));
  }

  lemma VisitHasEdge(f: Fn, inp: Input, n: nat)
    requires Closed(f)
    ensures var c := Run(f, inp, n); c.At? && c.prev.Some? ==> IsEdge(f, c.prev.value, c.lbl) && c.prev.value in Preds(f, c.lbl)
  {
    var c := Run(f, inp, n);
    if c.At? && c.prev.Some? {
      var p := RunVisits(f, inp, n);
      assert IsEdge(f, p[|p| - 2], p[|p| - 1]);
    }
  }

  // When an entry does not match

  /** A run that enters b1 from a block b2's PHIs know nothing about is stuck there once merged. */
  lemma UnmatchedEntrySticks(f: Fn, b1: Label, b2: Label, inp: Input, n: nat)
    requires Mergeable(f, b1, b2) && PhisComplete(f) && forall m: nat :: m < n ==> VisitMatches(f, b1, b2, inp, m)
    requires var c := Run(f, inp, n); c.At? && c.lbl == b1 && c.prev.Some? && c.prev.value !in Preds(f, b2)
    requires b1 in f.blocks && f.blocks[b1].phis != []
    ensures Run(Redirect(f, b1, b2), inp, n + 1) == Stuck(MissingEdge, Run(f, inp, n).w)
  {
    SameShape(f, b1, b2);
    MergeKeepsUp(f, b1, b2, inp, n);
    var c, c' := Run(f, inp, n), Run(Redirect(f, b1, b2), inp, n);
    var edges := f.blocks[b2].phis[0].edges;
    assert OneEdgePerPred(f, b2, edges);
    assert !IsEdge(f, c'.prev.value, b2);
    IncomingFound(edges, c'.prev.value);
    assert Redirect(f, b1, b2).blocks[b2].phis == f.blocks[b2].phis;
  }

  /** Blocks that enter both have the same PHI entries in both. */
  ghost predicate SharedEntriesMatch(f: Fn, b1: Label, b2: Label) {
    forall p :: p in Preds(f, b1) && p in Preds(f, b2) ==> EntryMatches(f, b1, b2, p)
  }

  ghost predicate EntersBoth(f: Fn, b1: Label, b2: Label, inp: Input, n: nat) {
    var c := Run(f, inp, n);
    c.At? && c.lbl == b1 && c.prev.Some? ==> c.prev.value in Preds(f, b2)
  }

  lemma {:induction false} FirstUnmatched(f: Fn, b1: Label, b2: Label, inp: Input, n: nat) returns (m: nat)
    requires Closed(f) && SharedEntriesMatch(f, b1, b2) && !EntersBoth(f, b1, b2, inp, n)
    ensures !EntersBoth(f, b1, b2, inp, m) && forall k: nat :: k < m ==> VisitMatches(f, b1, b2, inp, k)
  {
    if k: nat :| k < n && !EntersBoth(f, b1, b2, inp, k) {
      m := FirstUnmatched(f, b1, b2, inp, k);
    } else {
      m := n;
      forall k: nat | k < n
        ensures VisitMatches(f, b1, b2, inp, k)
      {
        assert EntersBoth(f, b1, b2, inp, k);
        VisitHasEdge(f, inp, k);
      }
    }
  }

  /**
   Between blocks with PHIs and equal shared entries, a run survives the merge exactly if it never enters b1 from a block
   that does not enter b2.
   */
  lemma MergeIff(f: Fn, b1: Label, b2: Label, inp: Input)
    requires Mergeable(f, b1, b2) && WellFormed(f) && SharedEntriesMatch(f, b1, b2)
    requires b1 in f.blocks && f.blocks[b1].phis != []
    ensures SameOn(f, Redirect(f, b1, b2), inp) <==> forall n: nat :: EntersBoth(f, b1, b2, inp, n)
  {
    hide Mergeable, SameOn, Redirect, StepBlock, Steps, Run;
    SameShape(f, b1, b2);
    var g := Redirect(f, b1, b2);
    if forall n: nat :: EntersBoth(f, b1, b2, inp, n) {
      forall n: nat
        ensures VisitMatches(f, b1, b2, inp, n)
      {
        assert EntersBoth(f, b1, b2, inp, n);
        VisitHasEdge(f, inp, n);
      }
      MergeTracks(f, b1, b2, inp);
      TracksGivesSameOn(f, g, inp);
    } else {
      var n: nat :| !EntersBoth(f, b1, b2, inp, n);
      var m := FirstUnmatched(f, b1, b2, inp, n);
      UnmatchedEntrySticks(f, b1, b2, inp, m);
      FaultTellsApart(f, g, inp, m + 1);
    }
  }
}
