/**
 Loop-invariant code motion: which instructions are invariant, what hoisting does to the function, and why
 every run keeps its behaviour when the hoisted instructions only need each other.
 */
module Licm {
  import Bits
  import opened Ir
  import opened Semantics
  import opened Ssa
  import opened Removal

  /** A natural loop, with the preheader LLVM found for it, if any. */
  datatype Loop = Loop(header: Label, blocks: seq<Label>, preheader: Option<Label>)

  /** The loop contract: it is entered only at its header, and then only from the preheader. */
  ghost predicate IsLoop(f: Fn, loop: Loop) {
    && loop.header in loop.blocks
    && (forall l :: l in loop.blocks ==> l in f.blocks && l != f.entry)
    && (forall j, k :: 0 <= j < k < |loop.blocks| ==> loop.blocks[j] != loop.blocks[k])
    && (loop.preheader.Some? ==>
          && loop.preheader.value in f.blocks && loop.preheader.value !in loop.blocks
          && forall p, x :: IsEdge(f, p, x) && x in loop.blocks && p !in loop.blocks ==>
               x == loop.header && p == loop.preheader.value)
  }

  // Invariant instructions

  predicate IsBinaryOp(op: Op) {
    op in {Add, Sub, Mul, UDiv, And, Or, Xor}
  }

  /** Binary operations, comparisons and casts. */
  predicate Eligible(i: Instr) {
    && !i.ty.Void?
    && (((IsBinaryOp(i.op) || i.op in {CmpEq, CmpUlt}) && |i.args| == 2) || (i.op.Cast? && |i.args| == 1))
  }

  /** The only operation that can trap is a division, which is safe for a nonzero constant divisor. */
  predicate Speculatable(i: Instr) {
    i.op.UDiv? ==> |i.args| == 2 && i.args[1].Lit? && Bits.Wrap(i.args[1].val, Width(i.ty)) != 0
  }

  predicate InLoop(f: Fn, loop: Loop, i: Id) {
    exists l, k :: l in loop.blocks && l in f.blocks && 0 <= k < |f.blocks[l].body| && f.blocks[l].body[k].id == i
  }

  /** Constants and arguments are invariant; an instruction only if it is in the loop and already in the set. */
  predicate OperandInvariant(f: Fn, loop: Loop, inv: set<Id>, x: Operand) {
    x.Local? ==> InLoop(f, loop, x.id) && x.id in inv
  }

  predicate OperandsInvariant(f: Fn, loop: Loop, inv: set<Id>, i: Instr) {
    forall a :: 0 <= a < |i.args| ==> OperandInvariant(f, loop, inv, i.args[a])
  }

  /** s contains every eligible loop instruction whose operands it makes invariant. */
  ghost predicate ClosedUnderRule(f: Fn, loop: Loop, s: set<Id>) {
    forall l, k :: l in loop.blocks && l in f.blocks && 0 <= k < |f.blocks[l].body|
                   && Eligible(f.blocks[l].body[k]) && OperandsInvariant(f, loop, s, f.blocks[l].body[k]) ==>
      f.blocks[l].body[k].id in s
  }

  function Ids(list: seq<Instr>): set<Id> {
    set k | 0 <= k < |list| :: list[k].id
  }

  predicate FromLoop(f: Fn, loop: Loop, i: Instr) {
    exists l :: l in loop.blocks && l in f.blocks && i in f.blocks[l].body
  }

  /** Every instruction of the list is an eligible loop instruction, needs only those before it, and is listed once. */
  ghost predicate Ordered(f: Fn, loop: Loop, list: seq<Instr>) {
    && (forall p :: 0 <= p < |list| ==> FromLoop(f, loop, list[p]) && Eligible(list[p]))
    && (forall p, a :: 0 <= p < |list| && 0 <= a < |list[p].args| && list[p].args[a].Local? ==> list[p].args[a].id in Ids(list[..p]))
    && (forall p, q :: 0 <= p < q < |list| ==> list[p].id != list[q].id)
  }

  // Hoisting

  /** The hoisted instructions leave the loop's blocks and go to the end of the preheader. */
  function HoistFn(f: Fn, loop: Loop, ph: Label, hs: seq<Instr>): Fn {
    f.(blocks := map l | l in f.blocks ::
                   if l in loop.blocks then f.blocks[l].(body := Without(f.blocks[l].body, Ids(hs)))
                   else if l == ph then f.blocks[l].(body := f.blocks[l].body + hs)
                   else f.blocks[l])
  }

  // Values of hoisted instructions depend on the input only

  lemma PureEval(inp: Input, i: Instr, a: seq<int>, w: World)
    requires Eligible(i) && Speculatable(i) && |a| == |i.args|
    requires i.op.UDiv? ==> a[1] == i.args[1].val
    ensures Eval(inp, i.op, i.ty, a, w).Value? && Eval(inp, i.op, i.ty, a, w).w == w
    ensures forall w' :: Eval(inp, i.op, i.ty, a, w').Value? && Eval(inp, i.op, i.ty, a, w').v == Eval(inp, i.op, i.ty, a, w).v
  {
  }

  ghost predicate Hoistable(hs: seq<Instr>) {
    && (forall p :: 0 <= p < |hs| ==> Eligible(hs[p]) && Speculatable(hs[p]))
    && (forall p, a :: 0 <= p < |hs| && 0 <= a < |hs[p].args| && hs[p].args[a].Local? ==> hs[p].args[a].id in Ids(hs[..p]))
    && (forall p, q :: 0 <= p < q < |hs| ==> hs[p].id != hs[q].id)
  }

  /** The values of the hoisted instructions. */
  function HoistEnv(hs: seq<Instr>, inp: Input): Env {
    if hs == [] then map[]
    else
      var env := HoistEnv(hs[..|hs| - 1], inp);
      var i := hs[|hs| - 1];
      var r := Eval(inp, i.op, i.ty, Vals(i.args, inp, env), World(map[], []));
      env[i.id := if r.Value? then r.v else 0]
  }

  lemma {:induction false} HoistEnvKeys(hs: seq<Instr>, inp: Input)
    ensures HoistEnv(hs, inp).Keys == Ids(hs)
  {
    if hs != [] {
      var rest := hs[..|hs| - 1];
      HoistEnvKeys(rest, inp);
      assert Ids(hs) == Ids(rest) + {hs[|hs| - 1].id} by {
        assert hs == rest + [hs[|hs| - 1]];
        forall i | i in Ids(rest)
          ensures i in Ids(hs)
        {
          var k :| 0 <= k < |rest| && rest[k].id == i;
          assert hs[k].id == i;
        }
      }
    }
  }

  lemma HoistablePrefix(hs: seq<Instr>, p: nat)
    requires Hoistable(hs) && p <= |hs|
    ensures Hoistable(hs[..p])
  {
    forall q | 0 <= q < p
      ensures hs[..p][..q] == hs[..q]
    {
    }
  }

  /** A prefix already determines its values. */
  lemma {:induction false} HoistEnvPrefix(hs: seq<Instr>, p: nat, inp: Input)
    requires Hoistable(hs) && p <= |hs|
    ensures forall i :: i in HoistEnv(hs[..p], inp) ==> i in HoistEnv(hs, inp) && HoistEnv(hs, inp)[i] == HoistEnv(hs[..p], inp)[i]
    decreases |hs|
  {
    if p < |hs| {
      var rest := hs[..|hs| - 1];
      HoistablePrefix(hs, |hs| - 1);
      HoistEnvPrefix(rest, p, inp);
      assert rest[..p] == hs[..p];
      HoistEnvKeys(hs[..p], inp);
      HoistEnvKeys(rest, inp);
    } else {
      assert hs[..p] == hs;
    }
  }

  lemma {:induction false} ValsSame(xs: seq<Operand>, inp: Input, env: Env, env': Env)
    requires forall k :: 0 <= k < |xs| && xs[k].Local? ==> xs[k].id in env && xs[k].id in env' && env[xs[k].id] == env'[xs[k].id]
    ensures Vals(xs, inp, env) == Vals(xs, inp, env')
  {
    if xs != [] {
      ValsSame(xs[1..], inp, env, env');
    }
  }

  /** Whoever runs a hoisted instruction with the hoisted values in place gets its hoisted value. */
  lemma HoistedValue(hs: seq<Instr>, p: nat, inp: Input, env: Env, w: World)
    requires Hoistable(hs) && p < |hs|
    requires AllDefined(hs[p].args, env)
    requires forall i :: i in Ids(hs) && i in env ==> i in HoistEnv(hs, inp) && env[i] == HoistEnv(hs, inp)[i]
    ensures hs[p].id in HoistEnv(hs, inp)
    ensures ExecInstr(hs[p], inp, env, w) == Ok(env[hs[p].id := HoistEnv(hs, inp)[hs[p].id]], w)
  {
    var i := hs[p];
    var he, before := HoistEnv(hs, inp), HoistEnv(hs[..p], inp);
    assert hs[..p + 1][..p] == hs[..p];
    HoistEnvKeys(hs[..p], inp);
    HoistEnvPrefix(hs, p, inp);
    HoistEnvPrefix(hs, p + 1, inp);
    forall k | 0 <= k < |i.args| && i.args[k].Local?
      ensures i.args[k].id in env && i.args[k].id in before && env[i.args[k].id] == before[i.args[k].id]
    {
      assert i.args[k].id in Ids(hs[..p]);
      PrefixIds(hs, p, i.args[k].id);
      assert Defined(i.args[k], env);
    }
    ValsSame(i.args, inp, env, before);
    var a := Vals(i.args, inp, env);
    DivisorValue(i, inp, env);
    PureEval(inp, i, a, w);
    assert HoistEnv(hs[..p + 1], inp)[i.id] == Eval(inp, i.op, i.ty, a, w).v;
  }

  lemma PrefixIds(hs: seq<Instr>, p: nat, i: Id)
    requires p <= |hs| && i in Ids(hs[..p])
    ensures i in Ids(hs)
  {
    var k :| 0 <= k < p && hs[..p][k].id == i;
    assert hs[k].id == i;
  }

  lemma DivisorValue(i: Instr, inp: Input, env: Env)
    requires Eligible(i) && Speculatable(i)
    ensures i.op.UDiv? ==> Vals(i.args, inp, env)[1] == i.args[1].val
  {
    if i.op.UDiv? {
      assert Vals(i.args, inp, env)[1] == Vals(i.args[1..], inp, env)[0];
      assert i.args[1..][0] == i.args[1];
    }
  }

  // Runs with and without the hoisted instructions in the loop

  /** The two environments agree except that the hoisted values may be there earlier, always with their one value. */
  ghost predicate HoistRel(hs: seq<Instr>, inp: Input, full: bool, env: Env, env': Env) {
    && (forall i :: i !in Ids(hs) ==> (i in env <==> i in env') && (i in env ==> env[i] == env'[i]))
    && (forall i :: i in Ids(hs) ==>
          && i in HoistEnv(hs, inp)
          && (i in env ==> i in env' && env[i] == HoistEnv(hs, inp)[i])
          && (i in env' ==> env'[i] == HoistEnv(hs, inp)[i])
          && (full ==> i in env'))
  }

  /** As long as the original reads nothing undefined, both end alike. */
  ghost predicate StepHoist(hs: seq<Instr>, inp: Input, full: bool, s: Step, s': Step) {
    if s.Ok? then s'.Ok? && s'.w == s.w && HoistRel(hs, inp, full, s.env, s'.env)
    else Sound(s.kind) ==> s' == s
  }

  lemma {:induction false} ValsHoist(hs: seq<Instr>, xs: seq<Operand>, inp: Input, full: bool, env: Env, env': Env)
    requires HoistRel(hs, inp, full, env, env') && AllDefined(xs, env)
    ensures AllDefined(xs, env') && Vals(xs, inp, env) == Vals(xs, inp, env')
  {
    forall k | 0 <= k < |xs|
      ensures Defined(xs[k], env') && (xs[k].Local? ==> xs[k].id in env && env[xs[k].id] == env'[xs[k].id])
    {
      assert Defined(xs[k], env);
      assert xs[k].Local? ==> xs[k].id in env;
    }
    ValsSame(xs, inp, env, env');
  }

  ghost predicate HoistedHere(hs: seq<Instr>, body: seq<Instr>) {
    forall k :: 0 <= k < |body| && body[k].id in Ids(hs) ==> body[k] in hs
  }

  /** A loop block without its hoisted instructions does what the block did. */
  lemma {:induction false} BodyHoist(hs: seq<Instr>, body: seq<Instr>, inp: Input, full: bool, env: Env, env': Env, w: World)
    requires Hoistable(hs) && HoistRel(hs, inp, full, env, env') && HoistedHere(hs, body)
    requires full || forall k :: 0 <= k < |body| ==> body[k].id !in Ids(hs)
    ensures StepHoist(hs, inp, full, ExecBody(body, inp, env, w), ExecBody(Without(body, Ids(hs)), inp, env', w))
    decreases |body|
  {
    if body != [] {
      var i := body[0];
      var s := ExecInstr(i, inp, env, w);
      var rest := body[1..];
      assert forall k :: 0 <= k < |rest| ==> rest[k] == body[k + 1];
      if AllDefined(i.args, env) {
        if i.id in Ids(hs) {
          var p :| 0 <= p < |hs| && hs[p] == i;
          HoistedValue(hs, p, inp, env, w);
          assert Without(body, Ids(hs)) == Without(rest, Ids(hs));
          BodyHoist(hs, rest, inp, full, s.env, env', w);
        } else {
          ValsHoist(hs, i.args, inp, full, env, env');
          var s' := ExecInstr(i, inp, env', w);
          assert Without(body, Ids(hs))[1..] == Without(rest, Ids(hs));
          if s.Ok? {
            BodyHoist(hs, rest, inp, full, s.env, s'.env, s.w);
          }
        }
      }
    }
  }

  lemma HoistedStep(hs: seq<Instr>, p: nat, inp: Input, env: Env, env': Env, w: World) returns (env1: Env)
    requires Hoistable(hs) && p < |hs| && HoistRel(hs, inp, false, env, env')
    requires Ids(hs[..p]) <= env'.Keys
    ensures ExecInstr(hs[p], inp, env', w) == Ok(env1, w)
    ensures HoistRel(hs, inp, false, env, env1) && Ids(hs[..p + 1]) <= env1.Keys
  {
    var i := hs[p];
    forall k | 0 <= k < |i.args|
      ensures Defined(i.args[k], env')
    {
      assert i.args[k].Local? ==> i.args[k].id in Ids(hs[..p]);
    }
    HoistedValue(hs, p, inp, env', w);
    env1 := env'[i.id := HoistEnv(hs, inp)[i.id]];
    assert hs[..p + 1] == hs[..p] + [i];
    assert i.id in Ids(hs);
  }

  /** Running the hoisted instructions puts all their values in place and does nothing else. */
  lemma {:induction false} HoistedRun(hs: seq<Instr>, p: nat, inp: Input, env: Env, env': Env, w: World)
    requires Hoistable(hs) && p <= |hs| && HoistRel(hs, inp, false, env, env')
    requires Ids(hs[..p]) <= env'.Keys
    ensures var s' := ExecBody(hs[p..], inp, env', w);
            s'.Ok? && s'.w == w && HoistRel(hs, inp, true, env, s'.env)
    decreases |hs| - p
  {
    if p < |hs| {
      var env1 := HoistedStep(hs, p, inp, env, env', w);
      assert hs[p..][1..] == hs[p + 1..];
      hide Hoistable, HoistRel, ExecInstr, Ids;
      HoistedRun(hs, p + 1, inp, env, env1, w);
    } else {
      assert hs[..p] == hs;
    }
  }

  lemma {:induction false} PhisHoist(hs: seq<Instr>, phis: seq<Phi>, prev: Option<Label>, inp: Input, full: bool,
                                     edgeEnv: Env, edgeEnv': Env, env: Env, env': Env, w: World)
    requires HoistRel(hs, inp, full, edgeEnv, edgeEnv') && HoistRel(hs, inp, full, env, env')
    requires forall k :: 0 <= k < |phis| ==> phis[k].id !in Ids(hs)
    ensures StepHoist(hs, inp, full, ExecPhis(phis, prev, inp, edgeEnv, env, w), ExecPhis(phis, prev, inp, edgeEnv', env', w))
    decreases |phis|
  {
    if phis != [] {
      var x := if prev.Some? then Incoming(phis[0].edges, prev.value) else None;
      if x.Some? && Defined(x.value, edgeEnv) {
        var v := Val(x.value, inp, edgeEnv);
        assert Defined(x.value, edgeEnv') && Val(x.value, inp, edgeEnv') == v by {
          if x.value.Local? && x.value.id in Ids(hs) {
            assert x.value.id in edgeEnv';
          }
        }
        PhisHoist(hs, phis[1..], prev, inp, full, edgeEnv, edgeEnv', env[phis[0].id := v], env'[phis[0].id := v], w);
      }
    }
  }

  // Simulation

  /** What is hoisted: loop instructions in an order in which each needs only earlier ones. */
  ghost predicate HoistOk(f: Fn, loop: Loop, ph: Label, hs: seq<Instr>) {
    && WellFormed(f) && IsLoop(f, loop) && loop.preheader == Some(ph)
    && Hoistable(hs)
    && forall p :: 0 <= p < |hs| ==> FromLoop(f, loop, hs[p])
  }

  lemma HoistedSites(f: Fn, loop: Loop, ph: Label, hs: seq<Instr>, s: Site)
    requires HoistOk(f, loop, ph, hs) && HasSite(f, s) && SiteId(f, s) in Ids(hs)
    ensures s.InstrSite? && s.l in loop.blocks && f.blocks[s.l].body[s.k] in hs
  {
    var p :| 0 <= p < |hs| && hs[p].id == SiteId(f, s);
    assert FromLoop(f, loop, hs[p]);
    var l :| l in loop.blocks && l in f.blocks && hs[p] in f.blocks[l].body;
    var k :| 0 <= k < |f.blocks[l].body| && f.blocks[l].body[k] == hs[p];
    assert SiteId(f, InstrSite(l, k)) == SiteId(f, s);
  }

  lemma BlockHoisted(f: Fn, loop: Loop, ph: Label, hs: seq<Instr>, l: Label)
    requires HoistOk(f, loop, ph, hs) && l in f.blocks
    ensures HoistedHere(hs, f.blocks[l].body)
    ensures l !in loop.blocks ==> forall k :: 0 <= k < |f.blocks[l].body| ==> f.blocks[l].body[k].id !in Ids(hs)
    ensures forall k :: 0 <= k < |f.blocks[l].phis| ==> f.blocks[l].phis[k].id !in Ids(hs)
  {
    var b := f.blocks[l];
    forall k | 0 <= k < |b.body| && b.body[k].id in Ids(hs)
      ensures b.body[k] in hs && l in loop.blocks
    {
      HoistedSites(f, loop, ph, hs, InstrSite(l, k));
    }
    forall k | 0 <= k < |b.phis|
      ensures b.phis[k].id !in Ids(hs)
    {
      if b.phis[k].id in Ids(hs) {
        HoistedSites(f, loop, ph, hs, PhiSite(l, k));
      }
    }
  }

  /** Inside the loop all hoisted values are in place. */
  ghost predicate Rel(f: Fn, loop: Loop, hs: seq<Instr>, inp: Input, c: Config, c': Config) {
    if c.At? then
      && c'.At? && c'.lbl == c.lbl && c'.prev == c.prev && c'.w == c.w
      && HoistRel(hs, inp, c.lbl in loop.blocks, c.env, c'.env)
    else c' == c
  }

  /** What a block's body, with or without hoisted instructions, leaves behind. */
  lemma BodyOfBlock(f: Fn, loop: Loop, ph: Label, hs: seq<Instr>, l: Label, inp: Input, env: Env, env': Env, w: World)
    requires HoistOk(f, loop, ph, hs) && l in f.blocks
    requires HoistRel(hs, inp, l in loop.blocks, env, env')
    ensures StepHoist(hs, inp, l in loop.blocks || l == ph, ExecBody(f.blocks[l].body, inp, env, w),
                      ExecBody(HoistFn(f, loop, ph, hs).blocks[l].body, inp, env', w))
  {
    var body := f.blocks[l].body;
    BlockHoisted(f, loop, ph, hs, l);
    BodyHoist(hs, body, inp, l in loop.blocks, env, env', w);
    if l !in loop.blocks {
      WithoutNone(body, Ids(hs));
      if l == ph {
        BodyAppend(body, hs, inp, env', w);
        var s, s' := ExecBody(body, inp, env, w), ExecBody(body, inp, env', w);
        if s.Ok? {
          assert hs[0..] == hs && Ids(hs[..0]) == {};
          HoistedRun(hs, 0, inp, s.env, s'.env, s.w);
        }
      }
    }
  }

  lemma TransferHoist(hs: seq<Instr>, t: Term, inp: Input, full: bool, env: Env, env': Env)
    requires HoistRel(hs, inp, full, env, env') && AllDefined(TermArgs(t), env)
    ensures Transfer(t, inp, env') == Transfer(t, inp, env)
  {
    ValsHoist(hs, TermArgs(t), inp, full, env, env');
    if TermArgs(t) != [] {
      assert Vals(TermArgs(t), inp, env)[0] == Val(TermArgs(t)[0], inp, env);
      assert Vals(TermArgs(t), inp, env')[0] == Val(TermArgs(t)[0], inp, env');
    }
  }

  lemma LeaveHoist(f: Fn, loop: Loop, ph: Label, hs: seq<Instr>, l: Label, inp: Input, env: Env, env': Env, w: World)
    requires IsLoop(f, loop) && loop.preheader == Some(ph) && l in f.blocks
    requires HoistRel(hs, inp, l in loop.blocks || l == ph, env, env')
    requires AllDefined(TermArgs(f.blocks[l].term), env)
    ensures Rel(f, loop, hs, inp, Leave(f.blocks[l].term, l, inp, env, w), Leave(f.blocks[l].term, l, inp, env', w))
  {
    var t := f.blocks[l].term;
    TransferHoist(hs, t, inp, l in loop.blocks || l == ph, env, env');
    TransferIsSucc(t, inp, env);
    var j := Transfer(t, inp, env);
    if j.Goto? {
      assert IsEdge(f, l, j.dest);
    }
  }

  /** One block of the original is one block of the hoisted function, unless the original reads something undefined. */
  lemma StepHoisted(f: Fn, loop: Loop, ph: Label, hs: seq<Instr>, inp: Input, c: Config, c': Config)
    requires HoistOk(f, loop, ph, hs) && Rel(f, loop, hs, inp, c, c')
    requires var d := StepBlock(f, inp, c); d.Stuck? ==> Sound(d.kind)
    ensures Rel(f, loop, hs, inp, StepBlock(f, inp, c), StepBlock(HoistFn(f, loop, ph, hs), inp, c'))
  {
    if c.At? && c.lbl in f.blocks {
      var l := c.lbl;
      var b, b' := f.blocks[l], HoistFn(f, loop, ph, hs).blocks[l];
      BlockHoisted(f, loop, ph, hs, l);
      assert b'.phis == b.phis && b'.term == b.term;
      assert IsLoop(f, loop) && loop.preheader == Some(ph);
      hide HoistOk, HoistFn, HoistRel, IsLoop, HoistedHere, Ids, Transfer;
      PhisHoist(hs, b.phis, c.prev, inp, l in loop.blocks, c.env, c'.env, c.env, c'.env, c.w);
      var s1, s1' := ExecPhis(b.phis, c.prev, inp, c.env, c.env, c.w), ExecPhis(b.phis, c.prev, inp, c'.env, c'.env, c.w);
      if s1.Ok? {
        BodyOfBlock(f, loop, ph, hs, l, inp, s1.env, s1'.env, s1.w);
        var s2, s2' := ExecBody(b.body, inp, s1.env, s1.w), ExecBody(b'.body, inp, s1'.env, s1.w);
        if s2.Ok? && AllDefined(TermArgs(b.term), s2.env) {
          LeaveHoist(f, loop, ph, hs, l, inp, s2.env, s2'.env, s2.w);
        }
      }
    }
  }

  lemma StartHoisted(f: Fn, loop: Loop, ph: Label, hs: seq<Instr>, inp: Input)
    requires HoistOk(f, loop, ph, hs)
    ensures Rel(f, loop, hs, inp, Init(f, inp), Init(HoistFn(f, loop, ph, hs), inp))
  {
    HoistEnvKeys(hs, inp);
  }

  lemma {:induction false} HoistKeepsUp(f: Fn, loop: Loop, ph: Label, hs: seq<Instr>, inp: Input, n: nat)
    requires HoistOk(f, loop, ph, hs)
    ensures Rel(f, loop, hs, inp, Run(f, inp, n), Run(HoistFn(f, loop, ph, hs), inp, n))
  {
    if n == 0 {
      StartHoisted(f, loop, ph, hs, inp);
    } else {
      HoistKeepsUp(f, loop, ph, hs, inp, n - 1);
      NeverUndefined(f, inp, n);
      StepHoisted(f, loop, ph, hs, inp, Run(f, inp, n - 1), Run(HoistFn(f, loop, ph, hs), inp, n - 1));
    }
  }

  /** Hoisting keeps the behaviour of every run, also of loops that are never or only once entered. */
  lemma HoistSameBehaviour(f: Fn, loop: Loop, ph: Label, hs: seq<Instr>)
    requires HoistOk(f, loop, ph, hs)
    ensures SameBehaviour(f, HoistFn(f, loop, ph, hs))
  {
    var g := HoistFn(f, loop, ph, hs);
    forall inp: Input
      ensures Tracks(f, g, inp)
    {
      forall n: nat
        ensures Matched(f, g, inp, n)
      {
        HoistKeepsUp(f, loop, ph, hs, inp, n);
        assert Observe(Run(f, inp, n)) == Observe(Run(g, inp, n));
      }
    }
    TracksGivesSameBehaviour(f, g);
  }
}
