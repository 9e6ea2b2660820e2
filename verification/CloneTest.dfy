/** What the inserted test does: which of the two copies a run goes to, and that each copy is one of the whole block. */
module CloneTest {
  import opened Ir
  import opened Semantics
  import opened Ssa
  import opened Rename
  import opened Clone
  import opened CloneSsa

  /** The block compares x with zero and goes on to t or to the block after it. */
  ghost predicate ComparesWithZero(g: Fn, l: Label, x: Operand, t: Label) {
    && l in g.blocks && |g.blocks[l].body| == 1
    && g.blocks[l].body[0] == Instr(g.blocks[l].body[0].id, CmpEq, Int(1), [x, Lit(0)])
    && g.blocks[l].term == CondBr(Local(g.blocks[l].body[0].id), t, t + 1)
  }

  /** Whatever the PHIs of the block, the run takes the first copy exactly when x is zero. */
  lemma TestGoes(g: Fn, l: Label, x: Operand, t: Label, prev: Option<Label>, inp: Input, env: Env, w: World)
    requires ComparesWithZero(g, l, x, t) && Unique(g) && CtxOk(g, l, x) && Defined(x, env)
    requires ExecBlock(g.blocks[l], l, prev, inp, env, w).At?
    ensures ExecBlock(g.blocks[l], l, prev, inp, env, w).lbl == if Val(x, inp, env) == 0 then t else t + 1
  {
    var b := g.blocks[l];
    var i := b.body[0];
    var s := ExecPhis(b.phis, prev, inp, env, env, w);
    if x.Local? {
      NotAPhi(g, l, x.id);
      PhisKeepValue(b.phis, x.id, prev, inp, env, env, w);
    }
    assert Vals(i.args, inp, s.env) == [Val(x, inp, env), 0] by {
      assert i.args[1..] == [Lit(0)];
    }
    assert b.body == [i] + [];
    BodyCons(i, [], inp, s.env, s.w);
  }

  lemma NotAPhi(g: Fn, l: Label, i: Id)
    requires Unique(g) && l in g.blocks && AvailIn(g, l, i)
    ensures forall k :: 0 <= k < |g.blocks[l].phis| ==> g.blocks[l].phis[k].id != i
  {
    var d :| DefinesIn(g, d, i) && d != l && Dominates(g, d, l);
    forall k | 0 <= k < |g.blocks[l].phis|
      ensures g.blocks[l].phis[k].id != i
    {
      if g.blocks[l].phis[k].id == i {
        assert DefinesIn(g, l, i);
        OneDefBlock(g, d, l, i);
      }
    }
  }

  lemma HeadCompares(f: Fn, b: Label, ctx: Operand)
    requires FreshNames(f) && b in f.blocks
    ensures ComparesWithZero(CloneFn(f, b, ctx), b, ctx, f.nextLabel)
  {
  }

  /** A test made earlier stays one, of the value's new name, when another block is cloned. */
  lemma TestKept(f: Fn, b: Label, ctx: Operand, l: Label, x: Operand, t: Label)
    requires FreshNames(f) && Unique(f) && b in f.blocks && l != b && ComparesWithZero(f, l, x, t)
    ensures ComparesWithZero(CloneFn(f, b, ctx), l, RenOp(PhiSub(f.nextId, f.blocks[b].body), x), t)
  {
    var s := PhiSub(f.nextId, f.blocks[b].body);
    var i := f.blocks[l].body[0];
    BlockIdsDistinct(f, b);
    PhiSubActs(f.nextId, f.blocks[b].body);
    forall k | 0 <= k < |f.blocks[b].body|
      ensures f.blocks[b].body[k].id != i.id
    {
      assert SiteId(f, InstrSite(b, k)) == f.blocks[b].body[k].id && SiteId(f, InstrSite(l, 0)) == i.id;
    }
    assert i.id !in s;
    assert CloneFn(f, b, ctx).blocks[l] == RenBlock(s, map[b := TailLabel(f)], f.blocks[l]);
    assert RenArgs(s, i.args) == [RenOp(s, x), Lit(0)];
  }

  /** Both copies repeat the block, instruction by instruction, and go on to what was behind it, where none of them is left. */
  ghost predicate BothBranches(f: Fn, g: Fn, b: Label) {
    && b in f.blocks
    && g.blocks.Keys == f.blocks.Keys + {f.nextLabel, f.nextLabel + 1, f.nextLabel + 2}
    && (forall c :: c == f.nextLabel || c == f.nextLabel + 1 ==>
          && g.blocks[c].phis == [] && g.blocks[c].term == Br(f.nextLabel + 2)
          && |g.blocks[c].body| == |f.blocks[b].body|
          && forall k :: 0 <= k < |f.blocks[b].body| ==>
               g.blocks[c].body[k].op == f.blocks[b].body[k].op && g.blocks[c].body[k].ty == f.blocks[b].body[k].ty)
    && g.blocks[f.nextLabel + 2].body == []
    && Succs(g.blocks[f.nextLabel + 2].term) == Succs(f.blocks[b].term)
  }

  lemma BothCopies(f: Fn, b: Label, ctx: Operand)
    requires FreshNames(f) && b in f.blocks
    ensures BothBranches(f, CloneFn(f, b, ctx), b)
  {
    RenTermArgs(PhiSub(f.nextId, f.blocks[b].body), f.blocks[b].term);
  }

  /** On every input, from the head, the first copy is entered if the context value is zero, and the second if it is not. */
  lemma CloneTests(f: Fn, b: Label, ctx: Operand, prev: Option<Label>, inp: Input, env: Env, w: World)
    requires WellFormed(f) && b in f.blocks && CtxOk(f, b, ctx) && Defined(ctx, env)
    requires ExecBlock(CloneFn(f, b, ctx).blocks[b], b, prev, inp, env, w).At?
    ensures ExecBlock(CloneFn(f, b, ctx).blocks[b], b, prev, inp, env, w).lbl
            == if Val(ctx, inp, env) == 0 then f.nextLabel else f.nextLabel + 1
  {
    CloneWellFormed(f, b, ctx);
    CtxKept(f, b, ctx, b, ctx);
    CtxUntouched(f, b, ctx);
    HeadCompares(f, b, ctx);
    hide CloneFn, WellFormed, CtxOk, ComparesWithZero, ExecBlock;
    OnlyOneEach(CloneFn(f, b, ctx));
    TestGoes(CloneFn(f, b, ctx), b, ctx, f.nextLabel, prev, inp, env, w);
  }

  lemma OnlyOneEach(f: Fn)
    requires WellFormed(f)
    ensures Unique(f) && FreshNames(f)
  {
  }
}
