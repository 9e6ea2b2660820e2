/** The MBAAdd and MBASub passes: iterator loops that rewrite a block in place. */
module MbaPass {
  import opened Ir
  import opened Semantics
  import opened Ssa
  import opened Rename
  import opened Mba
  import opened MbaSsa
  import opened MbaText

  /** The function's blocks, each once, in some order. */
  ghost predicate ListsBlocks(f: Fn, order: seq<Label>) {
    && (forall l :: l in order <==> l in f.blocks)
    && (forall j, k :: 0 <= j < k < |order| ==> order[j] != order[k])
  }

  /** The instructions the rule applies to in the listed blocks. */
  function CountIn(r: Rule, f: Fn, order: seq<Label>): nat {
    if order == [] then 0
    else
      var l := order[|order| - 1];
      CountIn(r, f, order[..|order| - 1]) + if l in f.blocks then Count(r, f.blocks[l].body) else 0
  }

  /** An instruction inserted at pos pushes the rest of the block back; pos keeps pointing at what it pointed at. */
  method CreateBefore(body: seq<Instr>, pos: nat, next: Id, op: Op, ty: Ty, x: Operand, y: Operand)
    returns (body': seq<Instr>, pos': nat, next': Id, v: Operand)
    requires pos < |body|
    ensures body' == body[..pos] + [Instr(next, op, ty, [x, y])] + body[pos..]
    ensures pos' == pos + 1 && next' == next + 1 && v == Local(next)
    ensures body'[..pos'] == body[..pos] + [Instr(next, op, ty, [x, y])] && body'[pos'..] == body[pos..]
  {
    body' := body[..pos] + [Instr(next, op, ty, [x, y])] + body[pos..];
    pos', next', v := pos + 1, next + 1, Local(next);
  }

  /** The cursor of the block loop: k instructions are done, everything before pos is final. */
  ghost predicate Cursor(r: Rule, orig: seq<Instr>, n: Id, k: nat, body: seq<Instr>, pos: nat, next: Id) {
    && k <= |orig| && pos <= |body|
    && body[..pos] == Rewrite(r, orig[..k], n)
    && body[pos..] == orig[k..]
    && next == After(r, orig[..k], n)
  }

  lemma StartCursor(r: Rule, orig: seq<Instr>, n: Id)
    ensures Cursor(r, orig, n, 0, orig, 0, n) && Count(r, orig[..0]) == 0
  {
  }

  lemma AtCursor(r: Rule, orig: seq<Instr>, n: Id, k: nat, body: seq<Instr>, pos: nat, next: Id)
    requires Cursor(r, orig, n, k, body, pos, next)
    ensures pos < |body| ==> k < |orig| && body[pos] == orig[k]
    ensures pos >= |body| ==> k == |orig| && body == Rewrite(r, orig, n) && next == After(r, orig, n)
  {
    if pos < |body| {
      assert body[pos] == body[pos..][0];
    } else {
      assert orig[..k] == orig && body[..pos] == body;
    }
  }

  lemma Advance(r: Rule, orig: seq<Instr>, n: Id, k: nat, body: seq<Instr>, pos: nat, next: Id,
                body': seq<Instr>, pos': nat, next': Id)
    requires Cursor(r, orig, n, k, body, pos, next) && pos < |body| && k < |orig|
    requires pos' < |body'| && body'[..pos' + 1] == body[..pos] + Piece(r, orig[k], next) && body'[pos' + 1..] == body[pos + 1..]
    requires next' == next + if Matches(r, orig[k]) then Temps(r) else 0
    ensures Cursor(r, orig, n, k + 1, body', pos' + 1, next')
    ensures Count(r, orig[..k + 1]) == Count(r, orig[..k]) + if Matches(r, orig[k]) then 1 else 0
  {
    assert orig[..k + 1][..k] == orig[..k];
    assert orig[..k + 1] == orig[..k] + [orig[k]];
    AfterNext(r, orig[..k], orig[k], n);
    assert body[pos + 1..] == body[pos..][1..] == orig[k + 1..];
  }

  lemma Skip(r: Rule, orig: seq<Instr>, n: Id, k: nat, body: seq<Instr>, pos: nat, next: Id)
    requires Cursor(r, orig, n, k, body, pos, next) && pos < |body| && k < |orig| && !Matches(r, orig[k])
    ensures Cursor(r, orig, n, k + 1, body, pos + 1, next)
    ensures Count(r, orig[..k + 1]) == Count(r, orig[..k])
  {
    AtCursor(r, orig, n, k, body, pos, next);
    assert body[..pos + 1] == body[..pos] + [orig[k]];
    Advance(r, orig, n, k, body, pos, next, body, pos, next);
  }

  // Whole functions

  /** The listed blocks have been rewritten, each once and with fresh temporaries; the others are as they were. */
  ghost predicate RewrittenIn(r: Rule, f: Fn, g: Fn, done: seq<Label>) {
    && g.blocks.Keys == f.blocks.Keys && g.nextId >= f.nextId
    && (forall l :: l in f.blocks && l !in done ==> g.blocks[l] == f.blocks[l])
    && (forall l :: l in f.blocks && l in done ==> OnceRewritten(r, f.nextId, f.blocks[l], g.blocks[l]))
  }

  ghost predicate OnceRewritten(r: Rule, low: Id, b: Block, b': Block) {
    exists n: Id :: n >= low && b' == b.(body := Rewrite(r, b.body, n))
  }

  /** What holds of the function whenever a block has been rewritten. */
  ghost predicate Rewriting(r: Rule, f: Fn, g: Fn, done: seq<Label>) {
    RewrittenIn(r, f, g, done) && NamesBelow(g) && SameBehaviour(f, g) && (WellFormed(f) ==> WellFormed(g))
  }

  lemma OneBlockMore(r: Rule, f: Fn, g: Fn, done: seq<Label>, l: Label)
    requires RewrittenIn(r, f, g, done) && l in f.blocks && l !in done
    ensures RewrittenIn(r, f, RewriteFn(r, g, l), done + [l])
    ensures CountIn(r, f, done + [l]) == CountIn(r, f, done) + Count(r, g.blocks[l].body)
  {
    var g' := RewriteFn(r, g, l);
    assert (done + [l])[..|done|] == done;
    hide Rewrite, Count, After;
    assert OnceRewritten(r, f.nextId, f.blocks[l], g'.blocks[l]) by {
      assert g'.blocks[l] == f.blocks[l].(body := Rewrite(r, f.blocks[l].body, g.nextId));
    }
    forall x | x in f.blocks && x in done + [l]
      ensures OnceRewritten(r, f.nextId, f.blocks[x], g'.blocks[x])
    {
      assert x != l ==> x in done && g'.blocks[x] == g.blocks[x];
    }
  }

  lemma RewritingOn(r: Rule, f: Fn, g: Fn, done: seq<Label>, l: Label)
    requires Rewriting(r, f, g, done) && l in f.blocks && l !in done
    ensures l in g.blocks && Rewriting(r, f, RewriteFn(r, g, l), done + [l])
    ensures CountIn(r, f, done + [l]) == CountIn(r, f, done) + Count(r, g.blocks[l].body)
  {
    hide NamesBelow, SameBehaviour, Count, CountIn, RewriteFn, WellFormed;
    OneBlockMore(r, f, g, done, l);
    RewriteFnBelow(r, g, l);
    RewriteSameBehaviour(r, g, l);
    SameBehaviourTransitive(f, g, RewriteFn(r, g, l));
    if WellFormed(f) {
      RewriteWellFormed(r, g, l);
    }
  }

  lemma RewritingStarts(r: Rule, f: Fn)
    requires NamesBelow(f)
    ensures Rewriting(r, f, f, []) && CountIn(r, f, []) == 0
  {
    SameBehaviourReflexive(f);
  }

  lemma NextBlock(f: Fn, order: seq<Label>, i: nat)
    requires ListsBlocks(f, order) && i < |order|
    ensures order[i] in f.blocks && order[i] !in order[..i] && order[..i + 1] == order[..i] + [order[i]]
  {
  }

  /** Each block keeps its PHIs and terminator, and its body is the old one with the substitutions written out. */
  ghost predicate BlockText(r: Rule, low: Id, b: Block, b': Block) {
    b'.phis == b.phis && b'.term == b.term && BodyText(r, b.body, low, b'.body)
  }

  lemma RewrittenText(r: Rule, f: Fn, g: Fn, order: seq<Label>)
    requires ListsBlocks(f, order) && RewrittenIn(r, f, g, order)
    ensures g.blocks.Keys == f.blocks.Keys
    ensures forall l :: l in f.blocks ==> BlockText(r, f.nextId, f.blocks[l], g.blocks[l])
    ensures r == SubRule ==>
              forall l, c :: l in g.blocks && c in g.blocks[l].body ==> !(c.op == Sub && c.ty.Int? && |c.args| == 2)
  {
    hide Rewrite, BodyText;
    forall l | l in f.blocks
      ensures BlockText(r, f.nextId, f.blocks[l], g.blocks[l])
    {
      assert OnceRewritten(r, f.nextId, f.blocks[l], g.blocks[l]);
      var n :| n >= f.nextId && g.blocks[l] == f.blocks[l].(body := Rewrite(r, f.blocks[l].body, n));
      RewriteText(r, f.blocks[l].body, f.nextId, n);
    }
    if r == SubRule {
      forall l, c | l in g.blocks && c in g.blocks[l].body
        ensures !(c.op == Sub && c.ty.Int? && |c.args| == 2)
      {
        assert BlockText(r, f.nextId, f.blocks[l], g.blocks[l]);
        NoDifferenceLeft(f.blocks[l].body, f.nextId, g.blocks[l].body, c);
      }
    }
  }

  /** MBAAdd and MBASub: the two passes differ in the rule only. */
  class MBA {
    const rule: Rule
    var fn: Fn
    var substCount: nat

    constructor (r: Rule, f: Fn)
      ensures rule == r && fn == f && substCount == 0
    {
      rule, fn, substCount := r, f, 0;
    }

    /** Builds the substitution before the addition and puts its last instruction in the addition's place. */
    static method SubstituteAdd(body: seq<Instr>, pos: nat, next: Id) returns (body': seq<Instr>, pos': nat, next': Id)
      requires pos < |body| && Matches(AddRule, body[pos])
      ensures pos < pos' + 1 <= |body'| && next' == next + Temps(AddRule)
      ensures body'[..pos' + 1] == body[..pos] + Expand(AddRule, body[pos], next)
      ensures body'[pos' + 1..] == body[pos + 1..]
    {
      var inst := body[pos];
      var ty, a, b := inst.ty, inst.args[0], inst.args[1];
      var e0, c, e1, e2, e3, e4, e5;
      body', pos', next', e0 := CreateBefore(body, pos, next, Xor, ty, a, b);
      body', pos', next', c := CreateBefore(body', pos', next', And, ty, a, b);
      body', pos', next', e1 := CreateBefore(body', pos', next', Mul, ty, Lit(2), c);
      body', pos', next', e2 := CreateBefore(body', pos', next', Add, ty, e0, e1);
      assert body'[..pos'] == body[..pos] + AddHead(inst, next);
      body', pos', next', e3 := CreateBefore(body', pos', next', Mul, ty, Lit(39), e2);
      body', pos', next', e4 := CreateBefore(body', pos', next', Add, ty, Lit(23), e3);
      body', pos', next', e5 := CreateBefore(body', pos', next', Mul, ty, Lit(151), e4);
      ghost var done, rest := body'[..pos'], body'[pos'..];
      body' := body'[pos' := Instr(inst.id, Add, ty, [Lit(111), e5])];
      assert body'[..pos' + 1] == done + [body'[pos']];
      assert body'[pos' + 1..] == rest[1..] == body[pos..][1..];
    }

    /** Builds the substitution before the subtraction and puts its last instruction in the subtraction's place. */
    static method SubstituteSub(body: seq<Instr>, pos: nat, next: Id) returns (body': seq<Instr>, pos': nat, next': Id)
      requires pos < |body| && Matches(SubRule, body[pos])
      ensures pos < pos' + 1 <= |body'| && next' == next + Temps(SubRule)
      ensures body'[..pos' + 1] == body[..pos] + Expand(SubRule, body[pos], next)
      ensures body'[pos' + 1..] == body[pos + 1..]
    {
      var inst := body[pos];
      var ty, a, b := inst.ty, inst.args[0], inst.args[1];
      var notB, sum;
      body', pos', next', notB := CreateBefore(body, pos, next, Xor, ty, b, Lit(-1));
      body', pos', next', sum := CreateBefore(body', pos', next', Add, ty, a, notB);
      ghost var done, rest := body'[..pos'], body'[pos'..];
      body' := body'[pos' := Instr(inst.id, Add, ty, [sum, Lit(1)])];
      assert body'[..pos' + 1] == done + [body'[pos']];
      assert body'[pos' + 1..] == rest[1..] == body[pos..][1..];
    }

    method RunOnBasicBlock(l: Label) returns (changed: bool)
      requires l in fn.blocks
      modifies this
      ensures fn == RewriteFn(rule, old(fn), l)
      ensures substCount == old(substCount) + Count(rule, old(fn).blocks[l].body)
      ensures changed <==> Count(rule, old(fn).blocks[l].body) > 0
    {
      changed := false;
      var body, next := fn.blocks[l].body, fn.nextId;
      ghost var orig: seq<Instr>, k: nat := body, 0;
      var pos: nat := 0;
      StartCursor(rule, orig, fn.nextId);
      hide Cursor, Count, Matches, Expand, Rewrite, After;
      while pos < |body|
        invariant fn == old(fn) && k <= |orig|
        invariant Cursor(rule, orig, fn.nextId, k, body, pos, next)
        invariant substCount == old(substCount) + Count(rule, orig[..k])
        invariant changed <==> Count(rule, orig[..k]) > 0
        decreases |orig| - k
      {
        AtCursor(rule, orig, fn.nextId, k, body, pos, next);
        if Matches(rule, body[pos]) {
          var body', pos', next';
          if rule.AddRule? {
            body', pos', next' := SubstituteAdd(body, pos, next);
          } else {
            body', pos', next' := SubstituteSub(body, pos, next);
          }
          Advance(rule, orig, fn.nextId, k, body, pos, next, body', pos', next');
          body, pos, next := body', pos', next';
          changed := true;
          substCount := substCount + 1;
        } else {
          Skip(rule, orig, fn.nextId, k, body, pos, next);
        }
        pos, k := pos + 1, k + 1;
      }
      AtCursor(rule, orig, fn.nextId, k, body, pos, next);
      assert orig[..k] == orig;
      fn := fn.(blocks := fn.blocks[l := fn.blocks[l].(body := body)], nextId := next);
    }

    /** Every eligible instruction of the function is substituted, once; no run changes, and a well-formed function is well formed still. */
    method Run(order: seq<Label>) returns (changed: bool)
      requires ListsBlocks(fn, order) && NamesBelow(fn)
      modifies this
      ensures RewrittenIn(rule, old(fn), fn, order) && NamesBelow(fn)
      ensures fn.blocks.Keys == old(fn).blocks.Keys
      ensures forall l :: l in old(fn).blocks ==> BlockText(rule, old(fn).nextId, old(fn).blocks[l], fn.blocks[l])
      ensures rule == SubRule ==>
                forall l, c :: l in fn.blocks && c in fn.blocks[l].body ==> !(c.op == Sub && c.ty.Int? && |c.args| == 2)
      ensures SameBehaviour(old(fn), fn)
      ensures WellFormed(old(fn)) ==> WellFormed(fn)
      ensures substCount == old(substCount) + CountIn(rule, old(fn), order)
      ensures changed <==> CountIn(rule, old(fn), order) > 0
    {
      changed := false;
      ghost var f := fn;
      RewritingStarts(rule, f);
      assert order[..0] == [];
      hide NamesBelow, SameBehaviour, WellFormed, RewrittenIn, BlockText, ListsBlocks, RewriteFn, Count, CountIn;
      for i := 0 to |order|
        invariant Rewriting(rule, f, fn, order[..i])
        invariant substCount == old(substCount) + CountIn(rule, f, order[..i])
        invariant changed <==> CountIn(rule, f, order[..i]) > 0
      {
        hide Rewriting;
        NextBlock(f, order, i);
        RewritingOn(rule, f, fn, order[..i], order[i]);
        var c := RunOnBasicBlock(order[i]);
        changed := changed || c;
      }
      assert order[..|order|] == order;
      RewrittenText(rule, f, fn, order);
    }
  }
}
