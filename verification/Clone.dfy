/**
 Cloning one basic block: what DuplicateBB makes of a function, in closed form, and the proof that the
 result behaves like the original.
 */
module Clone {
  import opened Ir
  import opened Semantics
  import opened Ssa
  import opened Rename

  // Names of the new values and blocks

  const THEN := 0
  const ELSE := 1
  const MERGED := 2

  /** Each body instruction gets three fresh ids: its two clones and the PHI that merges them. */
  function CopyId(base: Id, which: nat, k: nat): Id {
    base + 1 + 3 * k + which
  }

  function ThenLabel(f: Fn): Label { f.nextLabel }
  function ElseLabel(f: Fn): Label { f.nextLabel + 1 }
  function TailLabel(f: Fn): Label { f.nextLabel + 2 }

  /** The values among the first k instructions, renamed to their copies. */
  function Bindings(base: Id, body: seq<Instr>, which: nat, k: nat): Sub
    requires k <= |body|
  {
    if k == 0 then map[]
    else
      var r := Bindings(base, body, which, k - 1);
      if body[k - 1].ty.Void? then r else r[body[k - 1].id := CopyId(base, which, k - 1)]
  }

  /** Every value of the block goes by its PHI in the rest of the function. */
  function PhiSub(base: Id, body: seq<Instr>): Sub {
    Bindings(base, body, MERGED, |body|)
  }

  /** Inside a clone, values of earlier instructions go by their copies in the same clone. */
  function CloneSub(base: Id, body: seq<Instr>, which: nat, k: nat): Sub
    requires k <= |body|
  {
    PhiSub(base, body) + Bindings(base, body, which, k)
  }

  function CloneInstr(base: Id, body: seq<Instr>, which: nat, k: nat): Instr
    requires k < |body|
  {
    Instr(CopyId(base, which, k), body[k].op, body[k].ty, RenArgs(CloneSub(base, body, which, k), body[k].args))
  }

  function CloneBody(base: Id, body: seq<Instr>, which: nat): seq<Instr> {
    seq(|body|, k requires 0 <= k < |body| => CloneInstr(base, body, which, k))
  }

  function MergePhi(base: Id, i: Instr, k: nat, t: Label, e: Label): Phi {
    Phi(CopyId(base, MERGED, k), i.ty,
        [Edge(t, Local(CopyId(base, THEN, k))), Edge(e, Local(CopyId(base, ELSE, k)))])
  }

  /** One PHI for each value-producing instruction from k on. */
  function MergePhis(base: Id, body: seq<Instr>, k: nat, t: Label, e: Label): seq<Phi>
    requires k <= |body|
    decreases |body| - k
  {
    if k == |body| then []
    else
      (if body[k].ty.Void? then [] else [MergePhi(base, body[k], k, t, e)])
      + MergePhis(base, body, k + 1, t, e)
  }

  // The new blocks

  function HeadBlock(f: Fn, b: Label, ctx: Operand): Block
    requires b in f.blocks
  {
    var s := PhiSub(f.nextId, f.blocks[b].body);
    Block(RenPhis(s, map[b := TailLabel(f)], f.blocks[b].phis),
          [Instr(f.nextId, CmpEq, Int(1), [ctx, Lit(0)])],
          CondBr(Local(f.nextId), ThenLabel(f), ElseLabel(f)))
  }

  function CloneBlock(f: Fn, b: Label, which: nat): Block
    requires b in f.blocks
  {
    Block([], CloneBody(f.nextId, f.blocks[b].body, which), Br(TailLabel(f)))
  }

  function TailBlock(f: Fn, b: Label): Block
    requires b in f.blocks
  {
    var body := f.blocks[b].body;
    Block(MergePhis(f.nextId, body, 0, ThenLabel(f), ElseLabel(f)), [],
          RenTerm(PhiSub(f.nextId, body), f.blocks[b].term))
  }

  function OldBlock(f: Fn, b: Label, ctx: Operand, l: Label): Block
    requires b in f.blocks && l in f.blocks
  {
    if l == b then HeadBlock(f, b, ctx)
    else RenBlock(PhiSub(f.nextId, f.blocks[b].body), map[b := TailLabel(f)], f.blocks[l])
  }

  /** Block b becomes if-then-else, two clones and a tail; all uses of its values go through the tail's PHIs. */
  function CloneFn(f: Fn, b: Label, ctx: Operand): Fn
    requires b in f.blocks
  {
    f.(blocks := (map l | l in f.blocks :: OldBlock(f, b, ctx, l))
                 + map[ThenLabel(f) := CloneBlock(f, b, THEN),
                       ElseLabel(f) := CloneBlock(f, b, ELSE),
                       TailLabel(f) := TailBlock(f, b)],
       nextId := f.nextId + 1 + 3 * |f.blocks[b].body|,
       nextLabel := f.nextLabel + 3)
  }

  // Facts about the renamings

  ghost predicate DistinctIds(body: seq<Instr>, base: Id) {
    && (forall j, k :: 0 <= j < k < |body| ==> body[j].id != body[k].id)
    && (forall k :: 0 <= k < |body| ==> body[k].id < base)
  }

  lemma BlockIdsDistinct(f: Fn, b: Label)
    requires FreshNames(f) && Unique(f) && b in f.blocks
    ensures DistinctIds(f.blocks[b].body, f.nextId)
  {
    var body := f.blocks[b].body;
    forall k | 0 <= k < |body|
      ensures body[k].id < f.nextId
    {
      assert SiteId(f, InstrSite(b, k)) == body[k].id;
    }
    forall j, k | 0 <= j < k < |body|
      ensures body[j].id != body[k].id
    {
      assert SiteId(f, InstrSite(b, j)) == body[j].id;
      assert SiteId(f, InstrSite(b, k)) == body[k].id;
    }
  }

  lemma {:induction false} BindingsFacts(base: Id, body: seq<Instr>, which: nat, k: nat)
    requires k <= |body| && DistinctIds(body, base)
    ensures Bindings(base, body, which, k).Keys == BodyDefs(body, k)
    ensures forall j :: 0 <= j < k && !body[j].ty.Void? ==>
              body[j].id in Bindings(base, body, which, k) && Bindings(base, body, which, k)[body[j].id] == CopyId(base, which, j)
    ensures forall i :: i in Bindings(base, body, which, k) ==> i < base && Bindings(base, body, which, k)[i] > base
  {
    if k > 0 {
      BindingsFacts(base, body, which, k - 1);
      assert BodyDefs(body, k) == BodyDefs(body, k - 1) + if body[k - 1].ty.Void? then {} else {body[k - 1].id};
    }
  }

  /** How a clone's renaming acts: a value of the block goes by its clone if already cloned, by its PHI if not. */
  lemma CloneSubActs(base: Id, body: seq<Instr>, which: nat, k: nat)
    requires k <= |body| && DistinctIds(body, base)
    ensures forall j :: 0 <= j < |body| && !body[j].ty.Void? ==>
              Ren(CloneSub(base, body, which, k), body[j].id) == CopyId(base, if j < k then which else MERGED, j)
    ensures forall i: nat :: i !in BodyDefs(body, |body|) ==> Ren(CloneSub(base, body, which, k), i) == i
  {
    BindingsFacts(base, body, MERGED, |body|);
    BindingsFacts(base, body, which, k);
    var s := CloneSub(base, body, which, k);
    forall j | 0 <= j < |body| && !body[j].ty.Void?
      ensures Ren(s, body[j].id) == CopyId(base, if j < k then which else MERGED, j)
    {
      if j >= k {
        assert forall j' :: 0 <= j' < k ==> body[j'].id != body[j].id;
      }
    }
  }

  lemma PhiSubActs(base: Id, body: seq<Instr>)
    requires DistinctIds(body, base)
    ensures PhiSub(base, body).Keys == BodyDefs(body, |body|)
    ensures forall i :: i in PhiSub(base, body) ==> PhiSub(base, body)[i] > base
    ensures forall i: nat :: i < base ==> NoClobber(PhiSub(base, body), base, i, i)
    ensures NoClobber(PhiSub(base, body), base, base, base)
  {
    BindingsFacts(base, body, MERGED, |body|);
  }

  lemma CloneNoClobber(base: Id, body: seq<Instr>, which: nat, k: nat)
    requires k < |body| && which < 2 && DistinctIds(body, base)
    ensures NoClobber(CloneSub(base, body, which, k), base, body[k].id, CopyId(base, which, k))
  {
    CloneSubActs(base, body, which, k);
    var s := CloneSub(base, body, which, k);
    forall i: nat | i < base && i != body[k].id
      ensures Ren(s, i) != CopyId(base, which, k)
    {
      if i in BodyDefs(body, |body|) {
        var j :| 0 <= j < |body| && !body[j].ty.Void? && body[j].id == i;
        assert Ren(s, i) == CopyId(base, if j < k then which else MERGED, j);
        CopyIdApart(base, if j < k then which else MERGED, j, which, k);
      }
    }
  }

  lemma CopyIdApart(base: Id, a: nat, j: nat, b: nat, k: nat)
    requires a < 3 && b < 3
    ensures CopyId(base, a, j) == CopyId(base, b, k) <==> a == b && j == k
  {
  }

  lemma BindNext(base: Id, body: seq<Instr>, which: nat, k: nat)
    requires k < |body| && which < 2 && DistinctIds(body, base)
    ensures Bind(CloneSub(base, body, which, k), body[k], CloneInstr(base, body, which, k)) == CloneSub(base, body, which, k + 1)
  {
    CloneSubActs(base, body, which, k);
    if !body[k].ty.Void? {
      CopyIdApart(base, which, k, MERGED, k);
    }
  }

  lemma {:induction false} CloneCopies(base: Id, body: seq<Instr>, which: nat, k: nat)
    requires k <= |body| && which < 2 && DistinctIds(body, base)
    requires forall j :: 0 <= j < |body| ==> Below(base, body[j].args)
    ensures Copies(CloneSub(base, body, which, k), base, body[k..], CloneBody(base, body, which)[k..])
    ensures BindAll(CloneSub(base, body, which, k), body[k..], CloneBody(base, body, which)[k..])
         == CloneSub(base, body, which, |body|)
    decreases |body| - k
  {
    if k < |body| {
      CloneNoClobber(base, body, which, k);
      BindNext(base, body, which, k);
      CloneCopies(base, body, which, k + 1);
      assert body[k..][1..] == body[k + 1..];
      assert CloneBody(base, body, which)[k..][1..] == CloneBody(base, body, which)[k + 1..];
      assert CopyOf(CloneSub(base, body, which, k), base, body[k], CloneInstr(base, body, which, k));
    }
  }

  // Names in use are below the supply of fresh ones

  lemma DefBelow(f: Fn, d: Label, i: Id)
    requires FreshNames(f) && DefinesIn(f, d, i)
    ensures i < f.nextId
  {
    var b := f.blocks[d];
    if i in PhiDefs(b.phis) {
      var k :| 0 <= k < |b.phis| && b.phis[k].id == i;
      assert SiteId(f, PhiSite(d, k)) == i;
    } else {
      var k :| 0 <= k < |b.body| && !b.body[k].ty.Void? && b.body[k].id == i;
      assert SiteId(f, InstrSite(d, k)) == i;
    }
  }

  lemma UseBelow(f: Fn, l: Label, k: nat, x: Operand)
    requires FreshNames(f) && l in f.blocks && k <= |f.blocks[l].body| && UseOk(f, l, k, x)
    ensures x.Local? ==> x.id < f.nextId
  {
    if x.Local? {
      if x.id in DefsUpTo(f.blocks[l], k) {
        assert DefinesIn(f, l, x.id);
        DefBelow(f, l, x.id);
      } else {
        var d :| DefinesIn(f, d, x.id) && d != l && Dominates(f, d, l);
        DefBelow(f, d, x.id);
      }
    }
  }

  lemma UsesBelow(f: Fn, l: Label)
    requires FreshNames(f) && UsesDominated(f) && l in f.blocks
    ensures forall j :: 0 <= j < |f.blocks[l].body| ==> Below(f.nextId, f.blocks[l].body[j].args)
    ensures Below(f.nextId, TermArgs(f.blocks[l].term))
    ensures forall j :: 0 <= j < |f.blocks[l].phis| ==> EdgesBelow(f.nextId, f.blocks[l].phis[j].edges)
  {
    var b := f.blocks[l];
    assert BodyUsesOk(f, l) && TermUsesOk(f, l) && PhiUsesOk(f, l);
    forall j, a | 0 <= j < |b.body| && 0 <= a < |b.body[j].args| && b.body[j].args[a].Local?
      ensures b.body[j].args[a].id < f.nextId
    {
      UseBelow(f, l, j, b.body[j].args[a]);
    }
    forall a | 0 <= a < |TermArgs(b.term)| && TermArgs(b.term)[a].Local?
      ensures TermArgs(b.term)[a].id < f.nextId
    {
      UseBelow(f, l, |b.body|, TermArgs(b.term)[a]);
    }
    forall j, e | 0 <= j < |b.phis| && 0 <= e < |b.phis[j].edges| && b.phis[j].edges[e].val.Local?
      ensures b.phis[j].edges[e].val.id < f.nextId
    {
      assert EdgeUseOk(f, b.phis[j].edges[e]);
      var i := b.phis[j].edges[e].val.id;
      var d :| DefinesIn(f, d, i) && Dominates(f, d, b.phis[j].edges[e].from);
      DefBelow(f, d, i);
    }
  }

  // Simulation

  /** The clone's run keeps up with the original: same block, same world, values up to the renaming to PHIs. */
  ghost predicate Rel(f: Fn, b: Label, c: Config, c': Config)
    requires b in f.blocks
  {
    if c.At? then
      && c'.At?
      && c.lbl in f.blocks && c'.lbl == c.lbl
      && c'.prev == RenPrev(map[b := TailLabel(f)], c.prev)
      && (c.prev.Some? ==> c.prev.value in f.blocks)
      && c'.w == c.w
      && EnvRel(PhiSub(f.nextId, f.blocks[b].body), f.nextId, c.env, c'.env)
    else c' == c
  }

  lemma OldBlockPhis(f: Fn, b: Label, l: Label, prev: Label)
    requires WellFormed(f) && b in f.blocks && l in f.blocks && prev in f.blocks
    ensures PhisUntouched(PhiSub(f.nextId, f.blocks[b].body), map[b := TailLabel(f)], f.nextId, f.blocks[l].phis, prev)
  {
    UsesBelow(f, l);
    BlockIdsDistinct(f, b);
    PhiSubActs(f.nextId, f.blocks[b].body);
    var phis := f.blocks[l].phis;
    var s := PhiSub(f.nextId, f.blocks[b].body);
    forall k | 0 <= k < |phis|
      ensures phis[k].id < f.nextId && Ren(s, phis[k].id) == phis[k].id
    {
      assert SiteId(f, PhiSite(l, k)) == phis[k].id;
      BodyIdsElsewhere(f, b, PhiSite(l, k));
    }
    forall k | 0 <= k < |phis|
      ensures Apart(map[b := TailLabel(f)], phis[k].edges, prev)
    {
      assert OneEdgePerPred(f, l, phis[k].edges);
    }
  }

  /** An id defined at another site is not one of b's body values. */
  lemma BodyIdsElsewhere(f: Fn, b: Label, s: Site)
    requires FreshNames(f) && Unique(f) && b in f.blocks && HasSite(f, s)
    requires !(s.InstrSite? && s.l == b)
    ensures SiteId(f, s) !in BodyDefs(f.blocks[b].body, |f.blocks[b].body|)
    ensures SiteId(f, s) !in PhiSub(f.nextId, f.blocks[b].body)
  {
    var body := f.blocks[b].body;
    BlockIdsDistinct(f, b);
    PhiSubActs(f.nextId, body);
    forall k | 0 <= k < |body|
      ensures body[k].id != SiteId(f, s)
    {
      assert SiteId(f, InstrSite(b, k)) == body[k].id;
    }
  }

  lemma OldBlockBody(f: Fn, b: Label, l: Label)
    requires WellFormed(f) && b in f.blocks && l in f.blocks && l != b
    ensures Untouched(PhiSub(f.nextId, f.blocks[b].body), f.nextId, f.blocks[l].body)
  {
    UsesBelow(f, l);
    BlockIdsDistinct(f, b);
    PhiSubActs(f.nextId, f.blocks[b].body);
    var body := f.blocks[l].body;
    forall k | 0 <= k < |body|
      ensures body[k].id < f.nextId && Ren(PhiSub(f.nextId, f.blocks[b].body), body[k].id) == body[k].id
    {
      assert SiteId(f, InstrSite(l, k)) == body[k].id;
      BodyIdsElsewhere(f, b, InstrSite(l, k));
    }
  }

  lemma HeadPhis(f: Fn, b: Label, l: Label, c: Config, c': Config, inp: Input)
    requires WellFormed(f) && b in f.blocks && l in f.blocks && c.At? && c.lbl == l && Rel(f, b, c, c')
    ensures var s := PhiSub(f.nextId, f.blocks[b].body);
            StepRel(s, f.nextId, ExecPhis(f.blocks[l].phis, c.prev, inp, c.env, c.env, c.w),
                    ExecPhis(RenPhis(s, map[b := TailLabel(f)], f.blocks[l].phis), c'.prev, inp, c'.env, c'.env, c.w))
  {
    if c.prev.Some? {
      OldBlockPhis(f, b, l, c.prev.value);
    }
    PhisSim(PhiSub(f.nextId, f.blocks[b].body), map[b := TailLabel(f)], f.nextId, f.blocks[l].phis, c.prev, inp,
            c.env, c'.env, c.env, c'.env, c.w);
  }

  /** Leaving a block of f and leaving its image in the clone lead to related configurations. */
  lemma LeaveSim(f: Fn, b: Label, l: Label, l': Label, inp: Input, env: Env, env': Env, w: World)
    requires WellFormed(f) && b in f.blocks && l in f.blocks
    requires l' == Ren(map[b := TailLabel(f)], l)
    requires EnvRel(PhiSub(f.nextId, f.blocks[b].body), f.nextId, env, env')
    ensures Rel(f, b, Leave(f.blocks[l].term, l, inp, env, w),
                Leave(RenTerm(PhiSub(f.nextId, f.blocks[b].body), f.blocks[l].term), l', inp, env', w))
  {
    var t := f.blocks[l].term;
    UsesBelow(f, l);
    TermSim(PhiSub(f.nextId, f.blocks[b].body), f.nextId, t, inp, env, env');
    TransferIsSucc(t, inp, env);
    if Transfer(t, inp, env).Goto? {
      assert IsEdge(f, l, Transfer(t, inp, env).dest);
    }
  }

  /** Away from b, one step of the original is one step of the clone. */
  lemma StepElsewhere(f: Fn, b: Label, ctx: Operand, inp: Input, c: Config, c': Config)
    requires WellFormed(f) && b in f.blocks && c.At? && c.lbl != b && Rel(f, b, c, c')
    ensures Rel(f, b, StepBlock(f, inp, c), StepBlock(CloneFn(f, b, ctx), inp, c'))
  {
    var l := c.lbl;
    var s := PhiSub(f.nextId, f.blocks[b].body);
    var m := map[b := TailLabel(f)];
    assert CloneFn(f, b, ctx).blocks[l] == RenBlock(s, m, f.blocks[l]);
    HeadPhis(f, b, l, c, c', inp);
    var s1 := ExecPhis(f.blocks[l].phis, c.prev, inp, c.env, c.env, c.w);
    var s1' := ExecPhis(RenPhis(s, m, f.blocks[l].phis), c'.prev, inp, c'.env, c'.env, c.w);
    if s1.Ok? {
      OldBlockBody(f, b, l);
      RenBodyCopies(s, f.nextId, f.blocks[l].body);
      BodySim(s, f.nextId, f.blocks[l].body, RenBody(s, f.blocks[l].body), inp, s1.env, s1'.env, c.w);
      PhisKeepWorld(f.blocks[l].phis, c.prev, inp, c.env, c.env, c.w);
      var s2 := ExecBody(f.blocks[l].body, inp, s1.env, s1.w);
      var s2' := ExecBody(RenBody(s, f.blocks[l].body), inp, s1'.env, s1.w);
      if s2.Ok? {
        LeaveSim(f, b, l, l, inp, s2.env, s2'.env, s2.w);
      }
    }
  }

  /** The head's test never faults and picks one of the clones. */
  lemma HeadTest(f: Fn, b: Label, ctx: Operand, inp: Input, env: Env, env': Env, w: World) returns (which: nat, env1': Env)
    requires FreshNames(f) && Unique(f) && b in f.blocks
    requires EnvRel(PhiSub(f.nextId, f.blocks[b].body), f.nextId, env, env') && Defined(ctx, env')
    ensures which < 2
    ensures var head := HeadBlock(f, b, ctx);
            && ExecBody(head.body, inp, env', w) == Ok(env1', w)
            && Leave(head.term, b, inp, env1', w) == At(f.nextLabel + which, Some(b), env1', w)
    ensures EnvRel(PhiSub(f.nextId, f.blocks[b].body), f.nextId, env, env1')
  {
    var head := HeadBlock(f, b, ctx);
    var cond := head.body[0];
    var test := ExecInstr(cond, inp, env', w);
    assert AllDefined(cond.args, env');
    assert head.body[1..] == [];
    assert ExecBody(head.body, inp, env', w) == test;
    BlockIdsDistinct(f, b);
    PhiSubActs(f.nextId, f.blocks[b].body);
    env1' := test.env;
    EnvRelExtra(PhiSub(f.nextId, f.blocks[b].body), f.nextId, f.nextId, env1'[f.nextId], env, env');
    which := if env1'[f.nextId] != 0 then 0 else 1;
  }

  /** The head runs b's PHIs, tests the context value and goes to one of the clones. */
  lemma StepHead(f: Fn, b: Label, ctx: Operand, inp: Input, c: Config, c': Config) returns (which: nat, env1': Env)
    requires WellFormed(f) && b in f.blocks && c.At? && c.lbl == b && Rel(f, b, c, c')
    requires Defined(ctx, c'.env)
    ensures which < 2
    ensures var s1 := ExecPhis(f.blocks[b].phis, c.prev, inp, c.env, c.env, c.w);
            var d := StepBlock(CloneFn(f, b, ctx), inp, c');
            if s1.Bad? then d == Stuck(s1.kind, s1.w)
            else
              && d == At(f.nextLabel + which, Some(b), env1', s1.w)
              && EnvRel(PhiSub(f.nextId, f.blocks[b].body), f.nextId, s1.env, env1')
  {
    which, env1' := 0, map[];
    var head := HeadBlock(f, b, ctx);
    assert CloneFn(f, b, ctx).blocks[b] == head;
    HeadPhis(f, b, b, c, c', inp);
    var s1 := ExecPhis(f.blocks[b].phis, c.prev, inp, c.env, c.env, c.w);
    var s1' := ExecPhis(head.phis, c'.prev, inp, c'.env, c'.env, c.w);
    if s1.Ok? {
      PhisDefine(head.phis, c'.prev, inp, c'.env, c'.env, c.w);
      which, env1' := HeadTest(f, b, ctx, inp, s1.env, s1'.env, s1.w);
    }
  }

  lemma CloneBodySim(f: Fn, b: Label, which: nat, inp: Input, env: Env, env': Env, w: World)
    requires WellFormed(f) && b in f.blocks && which < 2
    requires EnvRel(PhiSub(f.nextId, f.blocks[b].body), f.nextId, env, env')
    ensures var body := f.blocks[b].body;
            StepRel(CloneSub(f.nextId, body, which, |body|), f.nextId, ExecBody(body, inp, env, w),
                    ExecBody(CloneBody(f.nextId, body, which), inp, env', w))
  {
    var body := f.blocks[b].body;
    UsesBelow(f, b);
    BlockIdsDistinct(f, b);
    CloneCopies(f.nextId, body, which, 0);
    assert body[0..] == body && CloneBody(f.nextId, body, which)[0..] == CloneBody(f.nextId, body, which);
    assert CloneSub(f.nextId, body, which, 0) == PhiSub(f.nextId, body);
    BodySim(PhiSub(f.nextId, body), f.nextId, body, CloneBody(f.nextId, body, which), inp, env, env', w);
  }

  /** A clone does what b's body does. */
  lemma StepClone(f: Fn, b: Label, ctx: Operand, which: nat, inp: Input, env: Env, env': Env, w: World) returns (env2': Env)
    requires WellFormed(f) && b in f.blocks && which < 2
    requires EnvRel(PhiSub(f.nextId, f.blocks[b].body), f.nextId, env, env')
    ensures var body := f.blocks[b].body;
            var s2 := ExecBody(body, inp, env, w);
            var d := StepBlock(CloneFn(f, b, ctx), inp, At(f.nextLabel + which, Some(b), env', w));
            if s2.Bad? then d == Stuck(s2.kind, s2.w)
            else
              && d == At(TailLabel(f), Some(f.nextLabel + which), env2', s2.w)
              && EnvRel(CloneSub(f.nextId, body, which, |body|), f.nextId, s2.env, env2')
  {
    hide WellFormed, EnvRel, PhiSub, ExecBody, CloneSub;
    var block := CloneBlock(f, b, which);
    assert CloneFn(f, b, ctx).blocks[f.nextLabel + which] == block;
    CloneBodySim(f, b, which, inp, env, env', w);
    var s2' := ExecBody(block.body, inp, env', w);
    env2' := if s2'.Ok? then s2'.env else map[];
  }

  /** The merging PHIs give every value of the clone that ran its name outside. */
  lemma {:induction false} MergePhisRun(base: Id, body: seq<Instr>, k: nat, t: Label, e: Label, which: nat, inp: Input,
                                        edgeEnv: Env, env: Env, w: World)
    requires k <= |body| && which < 2 && t != e
    requires forall j :: k <= j < |body| && !body[j].ty.Void? ==> CopyId(base, which, j) in edgeEnv
    ensures var s := ExecPhis(MergePhis(base, body, k, t, e), Some(if which == THEN then t else e), inp, edgeEnv, env, w);
            && s.Ok? && s.w == w
            && (forall x: nat :: x < CopyId(base, THEN, k) ==> (x in s.env <==> x in env) && (x in env ==> s.env[x] == env[x]))
            && (forall j :: k <= j < |body| && !body[j].ty.Void? ==>
                  CopyId(base, MERGED, j) in s.env && s.env[CopyId(base, MERGED, j)] == edgeEnv[CopyId(base, which, j)])
    decreases |body| - k
  {
    if k < |body| {
      if body[k].ty.Void? {
        assert MergePhis(base, body, k, t, e) == MergePhis(base, body, k + 1, t, e);
        MergePhisRun(base, body, k + 1, t, e, which, inp, edgeEnv, env, w);
      } else {
        var phi := MergePhi(base, body[k], k, t, e);
        var from := if which == THEN then t else e;
        assert phi.edges[1..][0] == phi.edges[1];
        assert Incoming(phi.edges, from) == Some(Local(CopyId(base, which, k)));
        var env1 := env[phi.id := edgeEnv[CopyId(base, which, k)]];
        assert MergePhis(base, body, k, t, e)[1..] == MergePhis(base, body, k + 1, t, e);
        MergePhisRun(base, body, k + 1, t, e, which, inp, edgeEnv, env1, w);
        var s := ExecPhis(MergePhis(base, body, k, t, e), Some(from), inp, edgeEnv, env, w);
        assert s == ExecPhis(MergePhis(base, body, k + 1, t, e), Some(from), inp, edgeEnv, env1, w);
        assert phi.id < CopyId(base, THEN, k + 1) && phi.id in env1 && s.env[phi.id] == env1[phi.id];
        forall x: nat | x < CopyId(base, THEN, k)
          ensures (x in s.env <==> x in env) && (x in env ==> s.env[x] == env[x])
        {
          assert x < phi.id && (x in s.env <==> x in env1);
        }
      }
    }
  }

  lemma StepTail(f: Fn, b: Label, ctx: Operand, which: nat, inp: Input, env: Env, env': Env, w: World)
    requires WellFormed(f) && b in f.blocks && which < 2
    requires var body := f.blocks[b].body;
             && EnvRel(CloneSub(f.nextId, body, which, |body|), f.nextId, env, env')
             && BodyDefs(body, |body|) <= env.Keys
    ensures Rel(f, b, Leave(f.blocks[b].term, b, inp, env, w),
                StepBlock(CloneFn(f, b, ctx), inp, At(TailLabel(f), Some(f.nextLabel + which), env', w)))
  {
    hide CloneSub, BodyDefs, Rel, Leave, TailLabel;
    var body := f.blocks[b].body;
    var tail := TailBlock(f, b);
    assert CloneFn(f, b, ctx).blocks[TailLabel(f)] == tail;
    BlockIdsDistinct(f, b);
    CloneSubActs(f.nextId, body, which, |body|);
    forall j | 0 <= j < |body| && !body[j].ty.Void?
      ensures CopyId(f.nextId, which, j) in env' && env'[CopyId(f.nextId, which, j)] == env[body[j].id]
    {
      assert body[j].id in BodyDefs(body, |body|);
      assert body[j].id < f.nextId;
    }
    MergePhisRun(f.nextId, body, 0, ThenLabel(f), ElseLabel(f), which, inp, env', env', w);
    var s := ExecPhis(tail.phis, Some(f.nextLabel + which), inp, env', env', w);
    MergedEnv(f, b, which, env, env', s.env);
    LeaveSim(f, b, b, TailLabel(f), inp, env, s.env, w);
  }

  lemma MergedEnv(f: Fn, b: Label, which: nat, env: Env, env': Env, env3': Env)
    requires FreshNames(f) && Unique(f) && b in f.blocks && which < 2
    requires var body := f.blocks[b].body;
             && EnvRel(CloneSub(f.nextId, body, which, |body|), f.nextId, env, env')
             && (forall x: nat :: x <= f.nextId ==> (x in env3' <==> x in env') && (x in env' ==> env3'[x] == env'[x]))
             && (forall j :: 0 <= j < |body| && !body[j].ty.Void? ==>
                   && CopyId(f.nextId, which, j) in env'
                   && CopyId(f.nextId, MERGED, j) in env3'
                   && env3'[CopyId(f.nextId, MERGED, j)] == env'[CopyId(f.nextId, which, j)])
    ensures EnvRel(PhiSub(f.nextId, f.blocks[b].body), f.nextId, env, env3')
  {
    var body := f.blocks[b].body;
    BlockIdsDistinct(f, b);
    CloneSubActs(f.nextId, body, which, |body|);
    BindingsFacts(f.nextId, body, MERGED, |body|);
    var s := PhiSub(f.nextId, body);
    var r := CloneSub(f.nextId, body, which, |body|);
    forall i: nat | i < f.nextId
      ensures i in env <==> Ren(s, i) in env3'
      ensures i in env ==> env[i] == env3'[Ren(s, i)]
    {
      if i in BodyDefs(body, |body|) {
        var j :| 0 <= j < |body| && !body[j].ty.Void? && body[j].id == i;
        assert Ren(r, i) == CopyId(f.nextId, which, j);
        assert Ren(s, i) == CopyId(f.nextId, MERGED, j);
      } else {
        assert Ren(r, i) == i && Ren(s, i) == i;
      }
    }
  }

  /** One step of b is three steps of the clone: head, one of the copies, tail. */
  lemma StepAtBlock(f: Fn, b: Label, ctx: Operand, inp: Input, c: Config, c': Config)
    requires WellFormed(f) && b in f.blocks && c.At? && c.lbl == b && Rel(f, b, c, c')
    requires Defined(ctx, c'.env)
    ensures Rel(f, b, StepBlock(f, inp, c), Steps(CloneFn(f, b, ctx), inp, c', 3))
  {
    var g := CloneFn(f, b, ctx);
    var which, env1' := StepHead(f, b, ctx, inp, c, c');
    var c1 := StepBlock(g, inp, c');
    assert c1 == Steps(g, inp, c', 1);
    var c2 := StepBlock(g, inp, c1);
    assert c2 == Steps(g, inp, c', 2);
    var s1 := ExecPhis(f.blocks[b].phis, c.prev, inp, c.env, c.env, c.w);
    if s1.Ok? {
      var env2' := StepClone(f, b, ctx, which, inp, s1.env, env1', s1.w);
      var s2 := ExecBody(f.blocks[b].body, inp, s1.env, s1.w);
      if s2.Ok? {
        BodyDefines(f.blocks[b].body, inp, s1.env, s1.w);
        StepTail(f, b, ctx, which, inp, s2.env, env2', s2.w);
      }
    }
  }

  lemma {:induction false} StepsAdd(f: Fn, inp: Input, c: Config, m: nat, n: nat)
    ensures Steps(f, inp, Steps(f, inp, c, m), n) == Steps(f, inp, c, m + n)
  {
    if n > 0 {
      StepsAdd(f, inp, c, m, n - 1);
    }
  }

  /** The context value can be read whenever a run of the cloned function reaches b. */
  ghost predicate CtxOk(g: Fn, b: Label, ctx: Operand) {
    ctx.Local? ==> AvailIn(g, b, ctx.id)
  }

  /** Every step of the original is one or more steps of the clone. */
  lemma StepKeepsUp(f: Fn, b: Label, ctx: Operand, inp: Input, c: Config, c': Config) returns (d: nat)
    requires WellFormed(f) && b in f.blocks && Rel(f, b, c, c')
    requires c.At? && c.lbl == b ==> Defined(ctx, c'.env)
    ensures 0 < d && Rel(f, b, StepBlock(f, inp, c), Steps(CloneFn(f, b, ctx), inp, c', d))
  {
    if c.At? && c.lbl == b {
      StepAtBlock(f, b, ctx, inp, c, c');
      d := 3;
    } else {
      if c.At? {
        StepElsewhere(f, b, ctx, inp, c, c');
      }
      assert Steps(CloneFn(f, b, ctx), inp, c', 1) == StepBlock(CloneFn(f, b, ctx), inp, c');
      d := 1;
    }
  }

  lemma CtxDefined(g: Fn, b: Label, ctx: Operand, inp: Input, m: nat)
    requires Closed(g) && CtxOk(g, b, ctx)
    ensures var c := Run(g, inp, m); c.At? && c.lbl == b ==> Defined(ctx, c.env)
  {
    var c := Run(g, inp, m);
    if ctx.Local? && c.At? && c.lbl == b {
      AvailableAtRun(g, inp, m, ctx.id);
    }
  }

  lemma KeepUpOnce(f: Fn, b: Label, ctx: Operand, inp: Input, n: nat, m0: nat) returns (m: nat)
    requires WellFormed(f) && b in f.blocks && n <= m0
    requires Closed(CloneFn(f, b, ctx)) && CtxOk(CloneFn(f, b, ctx), b, ctx)
    requires Rel(f, b, Run(f, inp, n), Run(CloneFn(f, b, ctx), inp, m0))
    ensures n + 1 <= m && Rel(f, b, Run(f, inp, n + 1), Run(CloneFn(f, b, ctx), inp, m))
  {
    hide WellFormed, Closed, CtxOk, StepBlock, CloneFn;
    var g := CloneFn(f, b, ctx);
    CtxDefined(g, b, ctx, inp, m0);
    var d := StepKeepsUp(f, b, ctx, inp, Run(f, inp, n), Run(g, inp, m0));
    StepsAdd(g, inp, Init(g, inp), m0, d);
    m := m0 + d;
  }

  lemma {:induction false} CloneKeepsUp(f: Fn, b: Label, ctx: Operand, inp: Input, n: nat) returns (m: nat)
    requires WellFormed(f) && b in f.blocks
    requires Closed(CloneFn(f, b, ctx)) && CtxOk(CloneFn(f, b, ctx), b, ctx)
    ensures n <= m && Rel(f, b, Run(f, inp, n), Run(CloneFn(f, b, ctx), inp, m))
  {
    if n == 0 {
      m := 0;
    } else {
      hide WellFormed, Closed, CtxOk, StepBlock, CloneFn, Rel;
      var m0 := CloneKeepsUp(f, b, ctx, inp, n - 1);
      m := KeepUpOnce(f, b, ctx, inp, n - 1, m0);
    }
  }

  lemma CloneTracks(f: Fn, b: Label, ctx: Operand, inp: Input)
    requires WellFormed(f) && b in f.blocks
    requires Closed(CloneFn(f, b, ctx)) && CtxOk(CloneFn(f, b, ctx), b, ctx)
    ensures Tracks(f, CloneFn(f, b, ctx), inp)
  {
    forall n: nat
      ensures Matched(f, CloneFn(f, b, ctx), inp, n)
    {
      var m := CloneKeepsUp(f, b, ctx, inp, n);
      assert Observe(Run(f, inp, n)) == Observe(Run(CloneFn(f, b, ctx), inp, m));
    }
  }

  /** Cloning a block leaves the behaviour of the function unchanged on every input. */
  lemma CloneSameBehaviour(f: Fn, b: Label, ctx: Operand)
    requires WellFormed(f) && b in f.blocks
    requires Closed(CloneFn(f, b, ctx)) && CtxOk(CloneFn(f, b, ctx), b, ctx)
    ensures SameBehaviour(f, CloneFn(f, b, ctx))
  {
    forall inp: Input
      ensures Tracks(f, CloneFn(f, b, ctx), inp)
    {
      CloneTracks(f, b, ctx, inp);
    }
    TracksGivesSameBehaviour(f, CloneFn(f, b, ctx));
  }
}
