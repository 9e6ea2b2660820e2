/** Two clones of one block as MergeBB sees them: when it erases one, and what its other merges leave of the pair. */
module ClonePair {
  import opened Ir
  import opened Ssa
  import opened Merge
  import opened MergeFacts
  import opened MergeSim
  import opened MergeSsa
  import opened MergeBBPass

  predicate AtMostOneValue(body: seq<Instr>) {
    forall j, k :: 0 <= j < |body| && 0 <= k < |body| && !body[j].ty.Void? && !body[k].ty.Void? ==> j == k
  }

  /** x is a value of the body. */
  predicate Own(body: seq<Instr>, x: Operand) {
    exists j :: 0 <= j < |body| && !body[j].ty.Void? && x == Local(body[j].id)
  }

  /** Some instruction of the body reads a value of the body. */
  predicate FeedsItself(body: seq<Instr>) {
    exists k, a :: 0 <= k < |body| && 0 <= a < |body[k].args| && Own(body, body[k].args[a])
  }

  /** The condition under which a block's clones find together again. */
  predicate Rejoins(body: seq<Instr>) {
    AtMostOneValue(body) && !FeedsItself(body)
  }

  ghost predicate BothOwn(xs: seq<Instr>, ys: seq<Instr>, j: nat, x: Operand, y: Operand) {
    j < |xs| && j < |ys| && !xs[j].ty.Void? && x == Local(xs[j].id) && y == Local(ys[j].id)
  }

  /** Operands of aligned instructions: the same outside value, or each body's own copy of one value. */
  ghost predicate TwinArg(xs: seq<Instr>, ys: seq<Instr>, x: Operand, y: Operand) {
    (x == y && !Own(xs, x) && !Own(ys, y)) || exists j :: BothOwn(xs, ys, j, x, y)
  }

  ghost predicate TwinInstr(xs: seq<Instr>, ys: seq<Instr>, x: Instr, y: Instr) {
    && x.op == y.op && x.ty == y.ty && |x.args| == |y.args|
    && forall a :: 0 <= a < |x.args| ==> TwinArg(xs, ys, x.args[a], y.args[a])
  }

  ghost predicate TwinBodies(xs: seq<Instr>, ys: seq<Instr>) {
    |xs| == |ys| && forall k :: 0 <= k < |xs| ==> TwinInstr(xs, ys, xs[k], ys[k])
  }

  ghost predicate OwnEdge(g: Fn, l: Label, d: Label, u: Use) {
    u.PhiUse? && u.l == d && exists x :: ReadsAt(g, u, x) && g.blocks[d].phis[u.p].edges[u.e].from == l
  }

  /** The values of block l are read in l itself or by d's PHIs, on the edge from l. */
  ghost predicate LeavesThrough(g: Fn, l: Label, d: Label)
    requires l in g.blocks
  {
    forall j, u :: 0 <= j < |g.blocks[l].body| && !g.blocks[l].body[j].ty.Void? && u in Uses(g, g.blocks[l].body[j].id)
                   ==> u.l == l || OwnEdge(g, l, d, u)
  }

  /** The PHI takes one value of the two bodies, each side's own copy. */
  ghost predicate JoinsOne(edges: seq<Edge>, t: Label, e: Label, xs: seq<Instr>, ys: seq<Instr>) {
    && (forall j, k :: 0 <= j < k < |edges| ==> edges[j].from != edges[k].from)
    && exists j: nat, x, y :: BothOwn(xs, ys, j, x, y) && Incoming(edges, t) == Some(x) && Incoming(edges, e) == Some(y)
  }

  /** PHIs that join the values of two bodies: one for each value. */
  ghost predicate Joins(phis: seq<Phi>, t: Label, e: Label, xs: seq<Instr>, ys: seq<Instr>) {
    && (|phis| <= 1 <==> AtMostOneValue(xs))
    && (phis == [] <==> forall j :: 0 <= j < |xs| ==> xs[j].ty.Void?)
    && forall p :: 0 <= p < |phis| ==> JoinsOne(phis[p].edges, t, e, xs, ys)
  }

  ghost predicate EnteredPlainly(g: Fn, l: Label) {
    forall p :: p in Preds(g, l) ==> IsBranchOrSwitch(g.blocks[p].term)
  }

  ghost predicate PlainBlock(g: Fn, l: Label) {
    l in g.blocks && l != g.entry && g.blocks[l].phis == [] && EnteredPlainly(g, l)
  }

  ghost predicate Pair(g: Fn, t: Label, e: Label) {
    && t != e && PlainBlock(g, t) && PlainBlock(g, e)
    && g.blocks[t].term == g.blocks[e].term && g.blocks[t].term.Br? && g.blocks[t].term.dest in g.blocks
    && TwinBodies(g.blocks[t].body, g.blocks[e].body)
    && var d := g.blocks[t].term.dest;
       && LeavesThrough(g, t, d) && LeavesThrough(g, e, d)
       && Joins(g.blocks[d].phis, t, e, g.blocks[t].body, g.blocks[e].body)
  }

  // The two sides are alike

  lemma JoinsOneSwapped(edges: seq<Edge>, t: Label, e: Label, xs: seq<Instr>, ys: seq<Instr>)
    requires TwinBodies(xs, ys) && JoinsOne(edges, t, e, xs, ys)
    ensures JoinsOne(edges, e, t, ys, xs)
  {
    var j: nat, x, y :| BothOwn(xs, ys, j, x, y) && Incoming(edges, t) == Some(x) && Incoming(edges, e) == Some(y);
    assert TwinInstr(xs, ys, xs[j], ys[j]);
    assert BothOwn(ys, xs, j, y, x);
  }

  lemma TwinsSwapped(xs: seq<Instr>, ys: seq<Instr>)
    requires TwinBodies(xs, ys)
    ensures TwinBodies(ys, xs)
    ensures forall j :: 0 <= j < |xs| ==> xs[j].ty == ys[j].ty
    ensures AtMostOneValue(xs) <==> AtMostOneValue(ys)
  {
    forall k | 0 <= k < |xs|
      ensures xs[k].ty == ys[k].ty && TwinInstr(ys, xs, ys[k], xs[k])
    {
      assert TwinInstr(xs, ys, xs[k], ys[k]);
      forall a | 0 <= a < |xs[k].args|
        ensures TwinArg(ys, xs, ys[k].args[a], xs[k].args[a])
      {
        ArgSwapped(xs, ys, xs[k].args[a], ys[k].args[a]);
      }
    }
  }

  lemma ArgSwapped(xs: seq<Instr>, ys: seq<Instr>, x: Operand, y: Operand)
    requires TwinBodies(xs, ys) && TwinArg(xs, ys, x, y)
    ensures TwinArg(ys, xs, y, x)
    ensures Own(xs, x) <==> Own(ys, y)
  {
    if j: nat :| BothOwn(xs, ys, j, x, y) {
      assert TwinInstr(xs, ys, xs[j], ys[j]);
      assert BothOwn(ys, xs, j, y, x);
    }
  }

  lemma FeedsAlike(xs: seq<Instr>, ys: seq<Instr>)
    requires TwinBodies(xs, ys) && FeedsItself(xs)
    ensures FeedsItself(ys)
  {
    var k, a :| 0 <= k < |xs| && 0 <= a < |xs[k].args| && Own(xs, xs[k].args[a]);
    assert TwinInstr(xs, ys, xs[k], ys[k]);
    ArgSwapped(xs, ys, xs[k].args[a], ys[k].args[a]);
  }

  lemma RejoinsAlike(xs: seq<Instr>, ys: seq<Instr>)
    requires TwinBodies(xs, ys)
    ensures Rejoins(xs) <==> Rejoins(ys)
  {
    TwinsSwapped(xs, ys);
    if FeedsItself(xs) {
      FeedsAlike(xs, ys);
    }
    if FeedsItself(ys) {
      FeedsAlike(ys, xs);
    }
  }

  lemma PairSwapped(g: Fn, t: Label, e: Label)
    requires Pair(g, t, e)
    ensures Pair(g, e, t)
  {
    var xs, ys := g.blocks[t].body, g.blocks[e].body;
    TwinsSwapped(xs, ys);
    var phis := g.blocks[g.blocks[t].term.dest].phis;
    forall p | 0 <= p < |phis|
      ensures JoinsOne(phis[p].edges, e, t, ys, xs)
    {
      JoinsOneSwapped(phis[p].edges, t, e, xs, ys);
    }
  }

  // What a merge says about the body

  /** A clone is merged into any block at all only if its body has one value at most and does not read it. */
  lemma ErasedRejoins(g: Fn, t: Label, e: Label, erased: set<Label>, b: Label)
    requires MergeReady(g) && Pair(g, t, e) && Qualifies(g, erased, t, b)
    ensures Rejoins(g.blocks[t].body)
  {
    var body := g.blocks[t].body;
    assert Mergeable(g, t, b);
    assert AtMostOneValue(body);
    hide Pair, Qualifies;
    if FeedsItself(body) {
      var k, a :| 0 <= k < |body| && 0 <= a < |body[k].args| && Own(body, body[k].args[a]);
      var j :| 0 <= j < |body| && !body[j].ty.Void? && body[k].args[a] == Local(body[j].id);
      InnerReadForbids(g, t, b, j, k, a);
    }
  }

  lemma InnerReadForbids(g: Fn, t: Label, b: Label, j: nat, k: nat, a: nat)
    requires t in g.blocks && j < |g.blocks[t].body| && k < |g.blocks[t].body| && a < |g.blocks[t].body[k].args|
    requires MergeReady(g) && !g.blocks[t].body[j].ty.Void? && g.blocks[t].body[k].args[a] == Local(g.blocks[t].body[j].id)
    ensures !Mergeable(g, t, b)
  {
    var i := g.blocks[t].body[j].id;
    assert !g.blocks[t].body[j].op.Dbg?;
    var q := BodyItem(g.blocks[t], j);
    assert InstrUse(t, k, a) in Uses(g, i);
    if Mergeable(g, t, b) {
      NoInnerUse(g, t, b, t, b, q, InstrUse(t, k, a));
    }
  }

  /** Instructions of the two bodies that stand at the same live position stand at the same position. */
  lemma {:induction false} LiveAligned(xs: seq<Instr>, ys: seq<Instr>, q: nat) returns (k: nat)
    requires |xs| == |ys| && forall k :: 0 <= k < |xs| ==> xs[k].op == ys[k].op
    ensures |Live(ys)| == |Live(xs)|
    ensures q < |Live(xs)| ==> k < |xs| && !xs[k].op.Dbg? && Live(xs)[q] == xs[k] && Live(ys)[q] == ys[k]
    decreases |xs|
  {
    k := 0;
    if xs != [] {
      assert forall k :: 0 <= k < |xs[1..]| ==> xs[1..][k] == xs[k + 1] && ys[1..][k] == ys[k + 1];
      if xs[0].op.Dbg? {
        assert Live(xs) == Live(xs[1..]) && Live(ys) == Live(ys[1..]);
        k := LiveAligned(xs[1..], ys[1..], q);
        k := k + 1;
      } else {
        LiveCons(xs);
        LiveCons(ys);
        k := LiveAligned(xs[1..], ys[1..], if q == 0 then 0 else q - 1);
        k := if q == 0 then 0 else k + 1;
      }
    }
  }

  /** The one value of a pair that rejoins has one use on each side, and can be removed with it. */
  lemma OnlyValueRemovable(g: Fn, t: Label, e: Label, k: nat)
    requires MergeReady(g) && Pair(g, t, e) && Rejoins(g.blocks[t].body)
    requires k < |g.blocks[t].body| && !g.blocks[t].body[k].ty.Void?
    ensures var i := g.blocks[t].body[k].id;
            Uses(g, i) != {} && HasOneUse(g, i) && CanRemoveInst(g, t, g.blocks[t].term.dest, i)
  {
    var d := g.blocks[t].term.dest;
    var xs, ys, phis := g.blocks[t].body, g.blocks[e].body, g.blocks[d].phis;
    var i := xs[k].id;
    assert phis != [];
    assert |phis| == 1 && JoinsOne(phis[0].edges, t, e, xs, ys);
    var edges := phis[0].edges;
    var j: nat, x, y :| BothOwn(xs, ys, j, x, y) && Incoming(edges, t) == Some(x) && Incoming(edges, e) == Some(y);
    assert j == k;
    IncomingFound(edges, t);
    var m :| 0 <= m < |edges| && edges[m] == Edge(t, Local(i));
    var u := PhiUse(d, 0, m);
    assert u in Uses(g, i);
    forall w | w in Uses(g, i)
      ensures w == u
    {
      if w.l == t {
        NoOwnUse(g, t, i, w);
      } else {
        assert OwnEdge(g, t, d, w);
      }
    }
    assert Uses(g, i) == {u};
  }

  lemma NoOwnUse(g: Fn, t: Label, i: Id, w: Use)
    requires t in g.blocks && g.blocks[t].phis == [] && g.blocks[t].term.Br? && !FeedsItself(g.blocks[t].body)
    requires Own(g.blocks[t].body, Local(i)) && w in Uses(g, i)
    ensures w.l != t
  {
  }

  lemma PairMergeable(g: Fn, t: Label, e: Label, k: nat)
    requires MergeReady(g) && Pair(g, t, e) && Rejoins(g.blocks[t].body) && k < |g.blocks[t].body|
    ensures CanMergeInstructions(g, t, I(g.blocks[t].body[k]), e, I(g.blocks[e].body[k]), g.blocks[t].term.dest)
  {
    var xs, ys := g.blocks[t].body, g.blocks[e].body;
    assert TwinInstr(xs, ys, xs[k], ys[k]);
    PairSwapped(g, t, e);
    RejoinsAlike(xs, ys);
    assert Operands(I(xs[k])) == Operands(I(ys[k])) by {
      forall a | 0 <= a < |xs[k].args|
        ensures xs[k].args[a] == ys[k].args[a]
      {
        assert !Own(xs, xs[k].args[a]);
        ArgSwapped(xs, ys, xs[k].args[a], ys[k].args[a]);
      }
    }
    assert xs[k].ty.Void? ==> Uses(g, xs[k].id) == {} && Uses(g, ys[k].id) == {};
    hide Pair, Uses, HasOneUse, CanRemoveInst, Rejoins, TwinBodies, MergeReady;
    if !xs[k].ty.Void? {
      OnlyValueRemovable(g, t, e, k);
      OnlyValueRemovable(g, e, t, k);
      PairDest(g, t, e);
    }
  }

  lemma PairDest(g: Fn, t: Label, e: Label)
    requires Pair(g, t, e)
    ensures t in g.blocks && e in g.blocks && g.blocks[t].term == g.blocks[e].term
  {
  }

  /** Aligned items of the two clones are instructions at the same position of the bodies. */
  lemma PairAligned(a: Block, b: Block, q: nat) returns (k: nat)
    requires a.phis == [] && b.phis == [] && TwinBodies(a.body, b.body)
    ensures |NonDbg(Items(a))| == |NonDbg(Items(b))|
    ensures q < |NonDbg(Items(a))| ==> k < |a.body| && NonDbg(Items(a))[q] == I(a.body[k]) && NonDbg(Items(b))[q] == I(b.body[k])
  {
    assert forall k :: 0 <= k < |a.body| ==> TwinInstr(a.body, b.body, a.body[k], b.body[k]);
    BlockItems(a);
    BlockItems(b);
    hide NonDbg, Items, TwinBodies;
    k := LiveAligned(a.body, b.body, q);
  }

  lemma PairDuplicates(g: Fn, t: Label, e: Label)
    requires MergeReady(g) && Pair(g, t, e) && Rejoins(g.blocks[t].body)
    ensures Duplicates(g, t, e, g.blocks[t].term.dest)
  {
    var _ := PairAligned(g.blocks[t], g.blocks[e], 0);
    hide Rejoins, MergeReady, CanMergeInstructions, NonDbg, Items, TwinBodies, LeavesThrough, Joins;
    var ts, es := NonDbg(Items(g.blocks[t])), NonDbg(Items(g.blocks[e]));
    forall q | 0 <= q < |ts|
      ensures CanMergeInstructions(g, t, ts[q], e, es[q], g.blocks[t].term.dest)
    {
      var k := PairAligned(g.blocks[t], g.blocks[e], q);
      PairMergeable(g, t, e, k);
    }
  }

  lemma PairEdgesMatch(g: Fn, t: Label, e: Label)
    requires Pair(g, t, e)
    ensures EdgesMatch(g, t, e, g.blocks[t].term.dest)
  {
    var xs, ys, phis := g.blocks[t].body, g.blocks[e].body, g.blocks[g.blocks[t].term.dest].phis;
    if phis != [] {
      assert JoinsOne(phis[0].edges, t, e, xs, ys);
      var j: nat, x, y :| BothOwn(xs, ys, j, x, y) && Incoming(phis[0].edges, t) == Some(x) && Incoming(phis[0].edges, e) == Some(y);
      assert DefinedIn(g.blocks[t], x) && DefinedIn(g.blocks[e], y);
    }
  }

  /** A clone can be merged into its sibling exactly when the body has one value at most and does not read it. */
  lemma PairQualifiesIff(g: Fn, t: Label, e: Label, erased: set<Label>)
    requires MergeReady(g) && Pair(g, t, e) && e !in erased
    ensures Qualifies(g, erased, t, e) <==> Rejoins(g.blocks[t].body)
  {
    if Rejoins(g.blocks[t].body) {
      PairDuplicates(g, t, e);
      PairEdgesMatch(g, t, e);
      hide EdgesMatch, Duplicates, TwinBodies, LeavesThrough;
      assert e in Preds(g, g.blocks[t].term.dest);
    }
    if Qualifies(g, erased, t, e) {
      ErasedRejoins(g, t, e, erased, e);
    }
  }

  // What other merges leave of the pair

  /** The successor's first PHI reads a value of the first clone. */
  lemma JoinedValue(g: Fn, t: Label, e: Label) returns (j: nat, m: nat)
    requires Pair(g, t, e) && g.blocks[g.blocks[t].term.dest].phis != []
    ensures j < |g.blocks[t].body| && !g.blocks[t].body[j].ty.Void?
    ensures PhiUse(g.blocks[t].term.dest, 0, m) in Uses(g, g.blocks[t].body[j].id)
  {
    var xs, ys, edges := g.blocks[t].body, g.blocks[e].body, g.blocks[g.blocks[t].term.dest].phis[0].edges;
    assert JoinsOne(edges, t, e, xs, ys);
    var x, y;
    j, x, y :| BothOwn(xs, ys, j, x, y) && Incoming(edges, t) == Some(x) && Incoming(edges, e) == Some(y);
    IncomingFound(edges, t);
    m :| 0 <= m < |edges| && edges[m] == Edge(t, x);
  }

  lemma LookAlikeReads(g: Fn, d: Label, b: Label, i: Id, m: nat)
    requires Mergeable(g, d, b) && g.blocks[d].phis != [] && PhiUse(d, 0, m) in Uses(g, i)
    ensures b != d && PhiUse(b, 0, m) in Uses(g, i)
  {
    SameShape(g, d, b);
    BlockItems(g.blocks[d]);
    AlignedAt(g, d, b, d, b, 0);
    assert b != d;
    hide Mergeable, Uses, NonDbg, Items;
    TwinPhiUse(g, d, b, PhiUse(d, 0, m), i);
  }

  lemma ReadByOnePhi(g: Fn, t: Label, d: Label, j: nat, u: Use)
    requires t in g.blocks && g.blocks[t].phis == [] && LeavesThrough(g, t, d)
    requires j < |g.blocks[t].body| && !g.blocks[t].body[j].ty.Void? && u in Uses(g, g.blocks[t].body[j].id) && u.PhiUse?
    ensures u.l == d
  {
  }

  /** A block whose PHIs join the clones' values is never erased: a look-alike would read those values too. */
  lemma JoinStays(g: Fn, t: Label, e: Label, b: Label)
    requires MergeReady(g) && Pair(g, t, e) && Mergeable(g, g.blocks[t].term.dest, b)
    ensures g.blocks[g.blocks[t].term.dest].phis == []
  {
    var d := g.blocks[t].term.dest;
    if g.blocks[d].phis != [] {
      var j, m := JoinedValue(g, t, e);
      LookAlikeReads(g, d, b, g.blocks[t].body[j].id, m);
      hide Mergeable, Uses, TwinBodies, Joins, MergeReady;
      ReadByOnePhi(g, t, d, j, PhiUse(b, 0, m));
    }
  }

  lemma EnteredPlainlyKept(g: Fn, x: Label, y: Label, l: Label)
    requires Candidate(g, x) && x != y && l != x && EnteredPlainly(g, l)
    ensures EnteredPlainly(Redirect(g, x, y), l)
  {
    forall p | p in Preds(Redirect(g, x, y), l)
      ensures IsBranchOrSwitch(Redirect(g, x, y).blocks[p].term)
    {
      RedirectEdges(g, x, y, p, l);
      assert p in Preds(g, l) || p in Preds(g, x);
    }
  }

  lemma LeavesThroughKept(g: Fn, x: Label, y: Label, l: Label, d: Label)
    requires Candidate(g, x) && x != y && l in g.blocks && d in g.blocks && y in g.blocks && LeavesThrough(g, l, d)
    requires d == x ==> g.blocks[x].phis == []
    ensures LeavesThrough(Redirect(g, x, y), l, Switch1(d, x, y))
  {
    var h := Redirect(g, x, y);
    forall j, u | 0 <= j < |h.blocks[l].body| && !h.blocks[l].body[j].ty.Void? && u in Uses(h, h.blocks[l].body[j].id)
      ensures u.l == l || OwnEdge(h, l, Switch1(d, x, y), u)
    {
      var i := g.blocks[l].body[j].id;
      RedirectUses(g, x, y, i);
      assert ReadsAt(g, u, Local(i)) && ReadsAt(h, u, Local(i));
      assert u.l == l || OwnEdge(g, l, d, u);
    }
  }

  /** Merging some other block leaves the pair a pair, though perhaps with another successor. */
  lemma PairRedirected(g: Fn, t: Label, e: Label, x: Label, y: Label)
    requires MergeReady(g) && Pair(g, t, e) && Mergeable(g, x, y) && x != t && x != e
    ensures Pair(Redirect(g, x, y), t, e)
  {
    var h := Redirect(g, x, y);
    var d := g.blocks[t].term.dest;
    SameShape(g, x, y);
    CandidateOf(g, x, y);
    if d == x {
      JoinStays(g, t, e, y);
    }
    EnteredPlainlyKept(g, x, y, t);
    EnteredPlainlyKept(g, x, y, e);
    LeavesThroughKept(g, x, y, t, d);
    LeavesThroughKept(g, x, y, e, d);
    assert h.blocks[t].term.dest == Switch1(d, x, y);
    assert h.blocks[Switch1(d, x, y)].phis == g.blocks[d].phis;
    hide Mergeable, LeavesThrough, EnteredPlainly, TwinBodies, Joins, MergeReady;
  }

  // A whole run

  /** Over a whole run, one of two clones is erased only if they rejoin; while neither is, they stay a pair. */
  lemma {:induction false} TurnsPair(g: Fn, order: seq<Label>, ms: seq<MergeStep>, t: Label, e: Label)
    requires MergeReady(g) && Pair(g, t, e) && Turns(g, order, ms)
    ensures MergeReady(AfterMerges(g, ms)) && SameBlocks(g, AfterMerges(g, ms))
    ensures t in Erased(ms) || e in Erased(ms) ==> Rejoins(g.blocks[t].body)
    ensures t !in Erased(ms) && e !in Erased(ms) ==>
              Pair(AfterMerges(g, ms), t, e) && (Rejoins(g.blocks[t].body) ==> t !in order && e !in order)
    decreases |order|
  {
    hide MergeReady, Rejoins, Qualifies, Redirect;
    if order != [] {
      var front, b1 := order[..|order| - 1], order[|order| - 1];
      assert order == front + [b1];
      if Turns(g, front, ms) && forall b :: !Qualifies(AfterMerges(g, ms), Erased(ms), b1, b) {
        TurnsPair(g, front, ms, t, e);
        TurnWithout(g, ms, t, e, b1);
      } else {
        var ms0, m := ms[..|ms| - 1], ms[|ms| - 1];
        assert ms == ms0 + [m];
        TurnsPair(g, front, ms0, t, e);
        ErasedAppend(ms0, m);
        TurnWith(g, ms0, t, e, m);
      }
    }
  }

  /** A block that found nothing to merge into is no clone that rejoins. */
  lemma TurnWithout(g: Fn, ms: seq<MergeStep>, t: Label, e: Label, b1: Label)
    requires var fn := AfterMerges(g, ms);
             && t in g.blocks && MergeReady(fn) && SameBlocks(g, fn)
             && forall b :: !Qualifies(fn, Erased(ms), b1, b)
    ensures t !in Erased(ms) && e !in Erased(ms) && Pair(AfterMerges(g, ms), t, e) && Rejoins(g.blocks[t].body) ==> b1 != t && b1 != e
  {
    var fn := AfterMerges(g, ms);
    if t !in Erased(ms) && e !in Erased(ms) && Pair(fn, t, e) && Rejoins(g.blocks[t].body) {
      PairSwapped(fn, t, e);
      RejoinsAlike(fn.blocks[t].body, fn.blocks[e].body);
      PairQualifiesIff(fn, t, e, Erased(ms));
      PairQualifiesIff(fn, e, t, Erased(ms));
    }
  }

  lemma TurnWith(g: Fn, ms: seq<MergeStep>, t: Label, e: Label, m: MergeStep)
    requires var fn := AfterMerges(g, ms);
             && t in g.blocks && MergeReady(fn) && SameBlocks(g, fn)
             && Qualifies(fn, Erased(ms), m.erased, m.retained)
             && (t !in Erased(ms) && e !in Erased(ms) ==> Pair(fn, t, e))
    ensures var h := Redirect(AfterMerges(g, ms), m.erased, m.retained);
            && MergeReady(h) && SameBlocks(g, h)
            && (t !in Erased(ms) && e !in Erased(ms) ==>
                  if m.erased == t || m.erased == e then Rejoins(g.blocks[t].body) else Pair(h, t, e))
  {
    var fn := AfterMerges(g, ms);
    MergeableIn(fn, Erased(ms), m.erased, m.retained);
    RedirectReady(fn, m.erased, m.retained);
    BlocksKept(g, fn, m.erased, m.retained);
    if t !in Erased(ms) && e !in Erased(ms) {
      if m.erased == t {
        ErasedRejoins(fn, t, e, Erased(ms), m.retained);
      } else if m.erased == e {
        PairSwapped(fn, t, e);
        RejoinsAlike(fn.blocks[t].body, fn.blocks[e].body);
        ErasedRejoins(fn, e, t, Erased(ms), m.retained);
      } else {
        PairRedirected(fn, t, e, m.erased, m.retained);
      }
    }
  }
}
