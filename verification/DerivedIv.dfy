/**
 Induction variable elimination: a PHI that runs from s by steps of c next to a canonical counter is replaced by c times
 the counter. The start s is dropped, so the replacement is right exactly when s is zero.
 */
module DerivedIv {
  import Bits
  import opened Ir
  import opened Semantics
  import opened Ssa
  import opened Rename

  // The arithmetic

  /** At every width, in every iteration: the recurrence s + c * k equals c * k exactly when s is zero in w bits. */
  lemma RecurrenceIsMultiple(s: int, c: int, k: nat, w: nat)
    ensures Bits.Wrap(s + c * k, w) == Bits.Wrap(c * k, w) <==> Bits.Wrap(s, w) == 0
  {
    hide Bits.Wrap, Bits.Pow2;
    var m := Bits.Pow2(w);
    var y := c * k;
    var a, b := Bits.Wrap(s, w), Bits.Wrap(y, w);
    Bits.WrapSum(s, y, w);
    Bits.WrapSmall(b, w);
    if a + b < m {
      Bits.WrapSmall(a + b, w);
    } else {
      var over: nat := a + b - m;
      assert a + b == over + 1 * m;
      Bits.WrapShift(over, 1, w);
      Bits.WrapSmall(over, w);
    }
  }

  // Loops

  /** The environment with the header's PHIs done, when the n-th block of the run is the header. */
  function HeaderEnv(f: Fn, h: Label, inp: Input, n: nat): Option<Env> {
    var c := Run(f, inp, n);
    if !c.At? || c.lbl != h || h !in f.blocks then None
    else
      match ExecPhis(f.blocks[h].phis, c.prev, inp, c.env, c.env, c.w)
      case Bad(_, _) => None
      case Ok(env, _) => Some(env)
  }

  /** The n-th block is entered along a back edge of the loop. */
  predicate Again(f: Fn, blocks: set<Label>, inp: Input, n: nat) {
    Run(f, inp, n).At? && Run(f, inp, n).prev.Some? && Run(f, inp, n).prev.value in blocks
  }

  /** i is the value of a PHI of h and of nothing else. */
  ghost predicate PhiOnly(f: Fn, h: Label, i: Id) {
    && h in f.blocks && i in PhiDefs(f.blocks[h].phis)
    && (forall l, k :: l in f.blocks && 0 <= k < |f.blocks[l].body| ==> f.blocks[l].body[k].id != i)
    && (forall l, k :: l in f.blocks && l != h && 0 <= k < |f.blocks[l].phis| ==> f.blocks[l].phis[k].id != i)
  }

  /**
   Scalar evolution's answer for the PHI i on these inputs, an affine recurrence from s by c at width w: around the loop
   the value grows by c. Nothing is said about s but that it fits, as it does wherever it comes from when arguments,
   memory and replies fit their types.
   */
  ghost predicate Recurs(ok: Inputs, f: Fn, h: Label, blocks: set<Label>, i: Id, w: nat, c: int) {
    && PhiOnly(f, h, i)
    && forall inp: Input, n: nat :: ok(inp) ==> RecursAt(f, h, blocks, i, w, c, inp, n)
  }

  ghost predicate RecursAt(f: Fn, h: Label, blocks: set<Label>, i: Id, w: nat, c: int, inp: Input, n: nat) {
    HeaderEnv(f, h, inp, n).Some? ==>
      RecursIn(HeaderEnv(f, h, inp, n).value, Again(f, blocks, inp, n), Run(f, inp, n), i, w, c)
  }

  /** i's new value fits and, around the loop, is c more than its last one. */
  ghost predicate RecursIn(env: Env, again: bool, last: Config, i: Id, w: nat, c: int) {
    && i in env && 0 <= env[i] < Bits.Pow2(w)
    && (again ==> last.At? && i in last.env && env[i] == Bits.Wrap(last.env[i] + c, w))
  }

  /** Every time the loop is entered from outside on these inputs, i starts at zero. */
  ghost predicate StartsAtZero(ok: Inputs, f: Fn, h: Label, blocks: set<Label>, i: Id) {
    forall inp: Input, n: nat :: ok(inp) && HeaderEnv(f, h, inp, n).Some? && !Again(f, blocks, inp, n) ==> StartIs(f, h, i, inp, n, 0)
  }

  ghost predicate StartIs(f: Fn, h: Label, i: Id, inp: Input, n: nat, v: int) {
    var env := HeaderEnv(f, h, inp, n);
    env.Some? && i in env.value && env.value[i] == v
  }

  /** From zero by one. */
  ghost predicate Canonical(ok: Inputs, f: Fn, h: Label, blocks: set<Label>, iv: Id, w: nat) {
    Recurs(ok, f, h, blocks, iv, w, 1) && StartsAtZero(ok, f, h, blocks, iv)
  }

  /** Whenever the header has executed its PHIs, c times the counter is the value of d. */
  ghost predicate IsMultiple(ok: Inputs, f: Fn, h: Label, d: Id, iv: Id, w: nat, c: int) {
    forall inp: Input, n: nat :: ok(inp) && HeaderEnv(f, h, inp, n).Some? ==> MultipleIn(HeaderEnv(f, h, inp, n).value, d, iv, w, c)
  }

  ghost predicate MultipleIn(env: Env, d: Id, iv: Id, w: nat, c: int) {
    d in env && iv in env && env[d] == Bits.Wrap(c * env[iv], w)
  }

  // Values stay what they are until the header is executed again

  /** What i is after the n-th block: the header's new value, or what it was. */
  lemma ValueAfter(f: Fn, h: Label, i: Id, inp: Input, n: nat)
    requires PhiOnly(f, h, i) && Run(f, inp, n + 1).At? && Run(f, inp, n).At?
    ensures var env := HeaderEnv(f, h, inp, n);
            var before := if env.Some? then env.value else Run(f, inp, n).env;
            var after := Run(f, inp, n + 1).env;
            (i in after <==> i in before) && (i in before ==> after[i] == before[i])
  {
    var c := Run(f, inp, n);
    assert c.lbl in f.blocks;
    var b := f.blocks[c.lbl];
    if c.lbl != h {
      PhisKeepValue(b.phis, i, c.prev, inp, c.env, c.env, c.w);
    }
    var s := ExecPhis(b.phis, c.prev, inp, c.env, c.env, c.w);
    BodyKeepsValue(b.body, i, inp, s.env, s.w);
  }

  /** The value i had when the loop was last entered from outside, up to the n-th block. */
  function LastStart(f: Fn, h: Label, blocks: set<Label>, i: Id, inp: Input, n: nat): int {
    var env := HeaderEnv(f, h, inp, n);
    if env.Some? && !Again(f, blocks, inp, n) && i in env.value then env.value[i]
    else if n == 0 then 0
    else LastStart(f, h, blocks, i, inp, n - 1)
  }

  /** d is what s becomes in as many steps of c as the counter says, where both are known. */
  ghost predicate Follows(env: Env, d: Id, iv: Id, w: nat, c: int, s: int) {
    d in env && iv in env ==> env[d] == Bits.Wrap(s + c * env[iv], w)
  }

  /** At every visit of the header, through any number of entries and wrap-arounds, d is its last start plus c times the counter. */
  lemma {:induction false} RecurrenceAt(ok: Inputs, f: Fn, h: Label, blocks: set<Label>, d: Id, iv: Id, w: nat, c: int, inp: Input, n: nat)
    requires Canonical(ok, f, h, blocks, iv, w) && Recurs(ok, f, h, blocks, d, w, c) && ok(inp)
    ensures Run(f, inp, n).At? && n > 0 ==> Follows(Run(f, inp, n).env, d, iv, w, c, LastStart(f, h, blocks, d, inp, n - 1))
    ensures var env := HeaderEnv(f, h, inp, n);
            env.Some? ==>
              && d in env.value && iv in env.value && env.value[iv] >= 0
              && env.value[d] == Bits.Wrap(LastStart(f, h, blocks, d, inp, n) + c * env.value[iv], w)
  {
    hide Bits.Wrap, Bits.Pow2, ExecPhis, ExecBlock, RecursAt, LastStart;
    if n > 0 && Run(f, inp, n).At? {
      assert Run(f, inp, n - 1).At?;
      RecurrenceAt(ok, f, h, blocks, d, iv, w, c, inp, n - 1);
      FollowsOn(f, h, blocks, d, iv, w, c, inp, n);
    }
    if HeaderEnv(f, h, inp, n).Some? {
      HeaderFollows(ok, f, h, blocks, d, iv, w, c, inp, n);
    }
  }

  /** A block other than the header changes neither the variables nor the start. */
  lemma FollowsOn(f: Fn, h: Label, blocks: set<Label>, d: Id, iv: Id, w: nat, c: int, inp: Input, n: nat)
    requires PhiOnly(f, h, d) && PhiOnly(f, h, iv) && n > 0 && Run(f, inp, n).At? && Run(f, inp, n - 1).At?
    requires n > 1 ==> Follows(Run(f, inp, n - 1).env, d, iv, w, c, LastStart(f, h, blocks, d, inp, n - 2))
    requires var env := HeaderEnv(f, h, inp, n - 1);
             env.Some? ==> Follows(env.value, d, iv, w, c, LastStart(f, h, blocks, d, inp, n - 1))
    ensures Follows(Run(f, inp, n).env, d, iv, w, c, LastStart(f, h, blocks, d, inp, n - 1))
  {
    hide PhiOnly, HeaderEnv, Bits.Wrap, Bits.Pow2, StepBlock, ExecPhis, ExecBlock, RecursAt, RecursIn;
    ValueAfter(f, h, d, inp, n - 1);
    ValueAfter(f, h, iv, inp, n - 1);
    assert n == 1 ==> Run(f, inp, n - 1).env == map[];
  }

  lemma HeaderFollows(ok: Inputs, f: Fn, h: Label, blocks: set<Label>, d: Id, iv: Id, w: nat, c: int, inp: Input, n: nat)
    requires Canonical(ok, f, h, blocks, iv, w) && Recurs(ok, f, h, blocks, d, w, c) && ok(inp) && HeaderEnv(f, h, inp, n).Some?
    requires n > 0 ==> Follows(Run(f, inp, n).env, d, iv, w, c, LastStart(f, h, blocks, d, inp, n - 1))
    ensures var env := HeaderEnv(f, h, inp, n).value;
            && d in env && iv in env && env[iv] >= 0
            && env[d] == Bits.Wrap(LastStart(f, h, blocks, d, inp, n) + c * env[iv], w)
  {
    hide HeaderEnv, Bits.Wrap, Bits.Pow2, ExecPhis, ExecBlock;
    assert RecursAt(f, h, blocks, d, w, c, inp, n) && RecursAt(f, h, blocks, iv, w, 1, inp, n);
    var env := HeaderEnv(f, h, inp, n).value;
    if Again(f, blocks, inp, n) {
      assert n > 0;
      var last := Run(f, inp, n).env;
      NextInLine(LastStart(f, h, blocks, d, inp, n - 1), last[iv], c, w);
    } else {
      assert StartIs(f, h, iv, inp, n, 0);
      assert LastStart(f, h, blocks, d, inp, n) == env[d];
      Bits.WrapSmall(env[d], w);
      assert c * 0 == 0;
    }
  }

  lemma NextInLine(s: int, x: int, c: int, w: nat)
    ensures Bits.Wrap(Bits.Wrap(s + c * x, w) + c, w) == Bits.Wrap(s + c * Bits.Wrap(x + 1, w), w)
  {
    hide Bits.Wrap, Bits.Pow2;
    var y := c * (x + 1);
    assert c * x + c == y;
    Bits.WrapSumRight(c, s + c * x, w);
    Bits.WrapProductRight(c, x + 1, w);
    Bits.WrapSumRight(s, y, w);
    Bits.WrapSumRight(s, c * Bits.Wrap(x + 1, w), w);
  }

  /** At any one visit the replacement is right if and only if the variable's last start is zero in its width. */
  lemma VisitMultipleIff(ok: Inputs, f: Fn, h: Label, blocks: set<Label>, d: Id, iv: Id, w: nat, c: int, inp: Input, n: nat)
    requires Canonical(ok, f, h, blocks, iv, w) && Recurs(ok, f, h, blocks, d, w, c) && ok(inp) && HeaderEnv(f, h, inp, n).Some?
    ensures MultipleIn(HeaderEnv(f, h, inp, n).value, d, iv, w, c) <==> Bits.Wrap(LastStart(f, h, blocks, d, inp, n), w) == 0
  {
    hide Canonical, Recurs, HeaderEnv, LastStart, Bits.Wrap, Bits.Pow2;
    RecurrenceAt(ok, f, h, blocks, d, iv, w, c, inp, n);
    RecurrenceIsMultiple(LastStart(f, h, blocks, d, inp, n), c, HeaderEnv(f, h, inp, n).value[iv], w);
  }

  lemma {:induction false} ZeroSoFar(ok: Inputs, f: Fn, h: Label, blocks: set<Label>, i: Id, inp: Input, n: nat)
    requires StartsAtZero(ok, f, h, blocks, i) && ok(inp)
    ensures LastStart(f, h, blocks, i, inp, n) == 0
  {
    var env := HeaderEnv(f, h, inp, n);
    if env.Some? && !Again(f, blocks, inp, n) && i in env.value {
      assert StartIs(f, h, i, inp, n, 0);
    } else if n > 0 {
      ZeroSoFar(ok, f, h, blocks, i, inp, n - 1);
    }
  }

  /** The replacement is right at every visit of every run on these inputs if and only if on them the derived variable always starts at zero. */
  lemma MultipleIffZeroStart(ok: Inputs, f: Fn, h: Label, blocks: set<Label>, d: Id, iv: Id, w: nat, c: int)
    requires Canonical(ok, f, h, blocks, iv, w) && Recurs(ok, f, h, blocks, d, w, c)
    ensures IsMultiple(ok, f, h, d, iv, w, c) <==> StartsAtZero(ok, f, h, blocks, d)
  {
    if StartsAtZero(ok, f, h, blocks, d) {
      forall inp: Input, n: nat | ok(inp) && HeaderEnv(f, h, inp, n).Some?
        ensures MultipleIn(HeaderEnv(f, h, inp, n).value, d, iv, w, c)
      {
        ZeroSoFar(ok, f, h, blocks, d, inp, n);
        Bits.WrapSmall(0, w);
        VisitMultipleIff(ok, f, h, blocks, d, iv, w, c, inp, n);
      }
    }
    if IsMultiple(ok, f, h, d, iv, w, c) {
      forall inp: Input, n: nat | ok(inp) && HeaderEnv(f, h, inp, n).Some? && !Again(f, blocks, inp, n)
        ensures StartIs(f, h, d, inp, n, 0)
      {
        assert MultipleIn(HeaderEnv(f, h, inp, n).value, d, iv, w, c);
        VisitMultipleIff(ok, f, h, blocks, d, iv, w, c, inp, n);
        assert RecursAt(f, h, blocks, d, w, c, inp, n);
        Bits.WrapSmall(HeaderEnv(f, h, inp, n).value[d], w);
      }
    }
  }

  // The start in scalar evolution's answer, and in the text of the function

  /** Every time the loop is entered from outside, i starts with the value of x, in its width. */
  ghost predicate StartsWith(ok: Inputs, f: Fn, h: Label, blocks: set<Label>, i: Id, w: nat, x: Operand) {
    forall inp: Input, n: nat :: ok(inp) && HeaderEnv(f, h, inp, n).Some? && !Again(f, blocks, inp, n) ==>
      StartIs(f, h, i, inp, n, Bits.Wrap(Val(x, inp, Run(f, inp, n).env), w))
  }

  /** Some run enters the loop. */
  ghost predicate Entered(ok: Inputs, f: Fn, h: Label, blocks: set<Label>) {
    exists inp: Input, n: nat :: ok(inp) && HeaderEnv(f, h, inp, n).Some? && !Again(f, blocks, inp, n)
  }

  /** With a constant start, the replacement is right in a loop that is ever entered if and only if the constant is zero in its width. */
  lemma LiteralStartIff(ok: Inputs, f: Fn, h: Label, blocks: set<Label>, d: Id, iv: Id, w: nat, c: int, s: int)
    requires Canonical(ok, f, h, blocks, iv, w) && Recurs(ok, f, h, blocks, d, w, c)
    requires StartsWith(ok, f, h, blocks, d, w, Lit(s)) && Entered(ok, f, h, blocks)
    ensures IsMultiple(ok, f, h, d, iv, w, c) <==> Bits.Wrap(s, w) == 0
  {
    MultipleIffZeroStart(ok, f, h, blocks, d, iv, w, c);
    var inp: Input, n: nat :| ok(inp) && HeaderEnv(f, h, inp, n).Some? && !Again(f, blocks, inp, n);
    assert StartIs(f, h, d, inp, n, Bits.Wrap(Val(Lit(s), inp, Run(f, inp, n).env), w));
    if StartsAtZero(ok, f, h, blocks, d) {
      assert StartIs(f, h, d, inp, n, 0);
    }
    if Bits.Wrap(s, w) == 0 {
      ZeroStart(ok, f, h, blocks, d, w, s);
    }
  }

  lemma ZeroStart(ok: Inputs, f: Fn, h: Label, blocks: set<Label>, d: Id, w: nat, s: int)
    requires StartsWith(ok, f, h, blocks, d, w, Lit(s)) && Bits.Wrap(s, w) == 0
    ensures StartsAtZero(ok, f, h, blocks, d)
  {
    forall inp: Input, n: nat | ok(inp) && HeaderEnv(f, h, inp, n).Some? && !Again(f, blocks, inp, n)
      ensures StartIs(f, h, d, inp, n, 0)
    {
      assert StartIs(f, h, d, inp, n, Bits.Wrap(Val(Lit(s), inp, Run(f, inp, n).env), w));
    }
  }

  /** All entries of the PHI from outside the loop are the literal s, in its width. */
  predicate EntriesAre(edges: seq<Edge>, blocks: set<Label>, w: nat, s: int) {
    forall k :: 0 <= k < |edges| && edges[k].from !in blocks ==>
      edges[k].val.Lit? && Bits.Wrap(edges[k].val.val, w) == Bits.Wrap(s, w)
  }

  /** A PHI without a namesake keeps its value while the other PHIs are executed. */
  lemma {:induction false} PhiGets(phis: seq<Phi>, k: nat, prev: Option<Label>, inp: Input, edgeEnv: Env, env: Env, w: World)
    requires k < |phis| && forall j :: 0 <= j < |phis| && j != k ==> phis[j].id != phis[k].id
    ensures var t := ExecPhis(phis, prev, inp, edgeEnv, env, w);
            t.Ok? ==> prev.Some? && var x := Incoming(phis[k].edges, prev.value);
                      x.Some? && phis[k].id in t.env && t.env[phis[k].id] == Val(x.value, inp, edgeEnv)
    decreases |phis|
  {
    var t := ExecPhis(phis, prev, inp, edgeEnv, env, w);
    if t.Ok? {
      var x := Incoming(phis[0].edges, prev.value).value;
      var env1 := env[phis[0].id := Val(x, inp, edgeEnv)];
      if k == 0 {
        PhisKeepValue(phis[1..], phis[0].id, prev, inp, edgeEnv, env1, w);
      } else {
        PhiGets(phis[1..], k - 1, prev, inp, edgeEnv, env1, w);
      }
    }
  }

  /** The start can be read off the PHI: if its entries from outside the loop are all the same literal, the variable starts with it. */
  lemma EntriesGiveStart(ok: Inputs, f: Fn, h: Label, blocks: set<Label>, k: nat, w: nat, c: int, s: int)
    requires h in f.blocks && k < |f.blocks[h].phis| && Recurs(ok, f, h, blocks, f.blocks[h].phis[k].id, w, c)
    requires forall j :: 0 <= j < |f.blocks[h].phis| && j != k ==> f.blocks[h].phis[j].id != f.blocks[h].phis[k].id
    requires EntriesAre(f.blocks[h].phis[k].edges, blocks, w, s)
    ensures StartsWith(ok, f, h, blocks, f.blocks[h].phis[k].id, w, Lit(s))
    ensures Bits.Wrap(s, w) == 0 ==> StartsAtZero(ok, f, h, blocks, f.blocks[h].phis[k].id)
  {
    var phis, d := f.blocks[h].phis, f.blocks[h].phis[k].id;
    forall inp: Input, n: nat | ok(inp) && HeaderEnv(f, h, inp, n).Some? && !Again(f, blocks, inp, n)
      ensures StartIs(f, h, d, inp, n, Bits.Wrap(s, w))
    {
      var c0 := Run(f, inp, n);
      PhiGets(phis, k, c0.prev, inp, c0.env, c0.env, c0.w);
      var edges := phis[k].edges;
      IncomingFound(edges, c0.prev.value);
      var x := Incoming(edges, c0.prev.value).value;
      var m :| 0 <= m < |edges| && edges[m] == Edge(c0.prev.value, x);
      assert RecursAt(f, h, blocks, d, w, c, inp, n);
      Bits.WrapSmall(x.val, w);
    }
    if Bits.Wrap(s, w) == 0 {
      ZeroStart(ok, f, h, blocks, d, w, s);
    }
  }
}
