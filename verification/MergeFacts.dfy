/** What passing the comparison says about two blocks: no instruction feeds another, at most one value leaves. */
module MergeFacts {
  import opened Ir
  import opened Ssa
  import opened Merge

  /** Debug intrinsics take metadata only and produce nothing. */
  ghost predicate DbgPlain(f: Fn) {
    forall l, k :: l in f.blocks && 0 <= k < |f.blocks[l].body| && f.blocks[l].body[k].op.Dbg? ==>
      f.blocks[l].body[k].ty.Void? && f.blocks[l].body[k].args == []
  }

  /** An instruction without a value is never used. */
  ghost predicate VoidUnused(f: Fn) {
    forall l, k :: l in f.blocks && 0 <= k < |f.blocks[l].body| && f.blocks[l].body[k].ty.Void? ==>
      Uses(f, f.blocks[l].body[k].id) == {}
  }

  /** What MergeBB relies on. */
  ghost predicate MergeReady(f: Fn) {
    Closed(f) && Unique(f) && DbgPlain(f) && VoidUnused(f)
  }

  lemma UsedIsDefined(f: Fn, i: Id, u: Use)
    requires UsesDominated(f) && u in Uses(f, i)
    ensures exists d :: DefinesIn(f, d, i)
  {
    var b := f.blocks[u.l];
    assert BodyUsesOk(f, u.l) && TermUsesOk(f, u.l) && PhiUsesOk(f, u.l);
    match u
    case PhiUse(l, p, e) =>
      assert EdgeUseOk(f, b.phis[p].edges[e]);
    case InstrUse(l, k, a) =>
      assert UseOk(f, l, k, b.body[k].args[a]);
      if i in DefsUpTo(b, k) {
        assert DefinesIn(f, l, i);
      }
    case TermUse(l, a) =>
      assert UseOk(f, l, |b.body|, TermArgs(b.term)[a]);
      if i in DefsUpTo(b, |b.body|) {
        assert DefinesIn(f, l, i);
      }
  }

  lemma WellFormedIsReady(f: Fn)
    requires WellFormed(f) && DbgPlain(f)
    ensures MergeReady(f)
  {
    forall l, k | l in f.blocks && 0 <= k < |f.blocks[l].body| && f.blocks[l].body[k].ty.Void?
      ensures Uses(f, f.blocks[l].body[k].id) == {}
    {
      var i := f.blocks[l].body[k].id;
      VoidNotDefined(f, l, k);
      forall u
        ensures u !in Uses(f, i)
      {
        if u in Uses(f, i) {
          UsedIsDefined(f, i, u);
        }
      }
    }
  }

  // Positions

  lemma {:induction false} NonDbgHas(xs: seq<Item>, j: nat) returns (q: nat)
    requires j < |xs| && !IsDbg(xs[j])
    ensures q < |NonDbg(xs)| && NonDbg(xs)[q] == xs[j]
  {
    var rest := xs[..|xs| - 1];
    if j == |xs| - 1 {
      q := |NonDbg(rest)|;
    } else {
      q := NonDbgHas(rest, j);
    }
  }

  lemma {:induction false} NonDbgFrom(xs: seq<Item>, q: nat) returns (j: nat)
    requires q < |NonDbg(xs)|
    ensures j < |xs| && NonDbg(xs)[q] == xs[j] && !IsDbg(xs[j])
  {
    var rest := xs[..|xs| - 1];
    if q < |NonDbg(rest)| {
      j := NonDbgFrom(rest, q);
    } else {
      j := |xs| - 1;
    }
  }

  ghost predicate HasItem(b: Block, x: Item) {
    if x.P? then x.phi in b.phis else x.instr in b.body && !x.instr.op.Dbg?
  }

  lemma ItemIn(b: Block, q: nat)
    requires q < |NonDbg(Items(b))|
    ensures HasItem(b, NonDbg(Items(b))[q])
  {
    var j := NonDbgFrom(Items(b), q);
  }

  lemma PhiItem(b: Block, k: nat) returns (q: nat)
    requires k < |b.phis|
    ensures q < |NonDbg(Items(b))| && NonDbg(Items(b))[q] == P(b.phis[k])
  {
    q := NonDbgHas(Items(b), k);
  }

  lemma BodyItem(b: Block, k: nat) returns (q: nat)
    requires k < |b.body| && !b.body[k].op.Dbg?
    ensures q < |NonDbg(Items(b))| && NonDbg(Items(b))[q] == I(b.body[k])
  {
    assert Items(b)[|b.phis| + k] == I(b.body[k]);
    q := NonDbgHas(Items(b), |b.phis| + k);
  }

  lemma InstrAt(b: Block, q: nat) returns (k: nat)
    requires q < |NonDbg(Items(b))| && NonDbg(Items(b))[q].I?
    ensures k < |b.body| && b.body[k] == NonDbg(Items(b))[q].instr && !b.body[k].op.Dbg?
  {
    ItemIn(b, q);
    k :| 0 <= k < |b.body| && b.body[k] == NonDbg(Items(b))[q].instr;
  }

  // Debug intrinsics apart, a block is its PHIs and its live instructions

  function Live(body: seq<Instr>): seq<Instr> {
    if body == [] then [] else (if body[0].op.Dbg? then [] else [body[0]]) + Live(body[1..])
  }

  lemma {:induction false} LiveAppend(body: seq<Instr>, i: Instr)
    ensures Live(body + [i]) == Live(body) + if i.op.Dbg? then [] else [i]
    decreases |body|
  {
    if body == [] {
      assert Live([i][1..]) == [];
      assert body + [i] == [i];
    } else {
      assert (body + [i])[1..] == body[1..] + [i];
      LiveAppend(body[1..], i);
    }
  }

  lemma {:induction false} AllPhis(xs: seq<Item>)
    requires forall k :: 0 <= k < |xs| ==> xs[k].P?
    ensures NonDbg(xs) == xs
  {
    if xs != [] {
      AllPhis(xs[..|xs| - 1]);
    }
  }

  lemma {:induction false} LiveItems(phis: seq<Phi>, body: seq<Instr>, xs: seq<Item>)
    requires |xs| == |phis| + |body|
    requires (forall k :: 0 <= k < |phis| ==> xs[k] == P(phis[k])) && (forall k :: 0 <= k < |body| ==> xs[|phis| + k] == I(body[k]))
    ensures |NonDbg(xs)| == |phis| + |Live(body)|
    ensures forall q :: 0 <= q < |phis| ==> NonDbg(xs)[q] == P(phis[q])
    ensures forall q :: |phis| <= q < |NonDbg(xs)| ==> NonDbg(xs)[q] == I(Live(body)[q - |phis|])
    decreases |body|
  {
    if body == [] {
      AllPhis(xs);
    } else {
      var n := |body| - 1;
      LiveItems(phis, body[..n], xs[..|phis| + n]);
      LiveAppend(body[..n], body[n]);
      assert body == body[..n] + [body[n]];
    }
  }

  lemma BlockItems(b: Block)
    ensures |NonDbg(Items(b))| == |b.phis| + |Live(b.body)|
    ensures forall q :: 0 <= q < |b.phis| ==> NonDbg(Items(b))[q] == P(b.phis[q])
    ensures forall q :: |b.phis| <= q < |NonDbg(Items(b))| ==> NonDbg(Items(b))[q] == I(Live(b.body)[q - |b.phis|])
  {
    LiveItems(b.phis, b.body, Items(b));
  }

  // Two duplicates

  /** Two different blocks of which the first can be merged into the second. */
  ghost predicate Mergeable(f: Fn, b1: Label, b2: Label) {
    MergeReady(f) && Qualifies(f, {}, b1, b2)
  }

  function SuccOf(f: Fn, b1: Label): Label
    requires b1 in f.blocks && f.blocks[b1].term.Br?
  {
    f.blocks[b1].term.dest
  }

  /** Aligned items are both PHIs or both instructions, so the blocks have equally many PHIs; both jump to the same block. */
  lemma SameShape(f: Fn, b1: Label, b2: Label)
    requires Mergeable(f, b1, b2)
    ensures b2 in f.blocks && |f.blocks[b2].phis| == |f.blocks[b1].phis|
    ensures f.blocks[b2].term == f.blocks[b1].term
  {
    assert b2 in Preds(f, SuccOf(f, b1));
    var n1, n2 := |f.blocks[b1].phis|, |f.blocks[b2].phis|;
    var xs, ys := NonDbg(Items(f.blocks[b1])), NonDbg(Items(f.blocks[b2]));
    var q := if n1 < n2 then n1 else n2;
    BlockItems(f.blocks[b1]);
    BlockItems(f.blocks[b2]);
    assert q < |xs| && q < |ys| ==> CanMergeInstructions(f, b1, xs[q], b2, ys[q], SuccOf(f, b1));
  }

  /** One of the two blocks, and the other one. */
  ghost predicate Side(b1: Label, b2: Label, b: Label, other: Label) {
    (b == b1 && other == b2) || (b == b2 && other == b1)
  }

  /** Aligned items: same operation, same operands, each used at most once and then removable. */
  ghost predicate Aligned(f: Fn, b: Label, other: Label, q: nat)
    requires b in f.blocks && other in f.blocks && f.blocks[b].term.Br?
  {
    var xs, ys := NonDbg(Items(f.blocks[b])), NonDbg(Items(f.blocks[other]));
    && |xs| == |ys| && q < |xs|
    && SameOperation(xs[q], ys[q]) && Operands(xs[q]) == Operands(ys[q])
    && (Uses(f, ItemId(xs[q])) != {} ==>
          && Uses(f, ItemId(ys[q])) != {}
          && HasOneUse(f, ItemId(xs[q]))
          && CanRemoveInst(f, b, SuccOf(f, b), ItemId(xs[q])))
  }

  lemma AlignedAt(f: Fn, b1: Label, b2: Label, b: Label, other: Label, q: nat)
    requires Mergeable(f, b1, b2) && Side(b1, b2, b, other)
    requires b in f.blocks && q < |NonDbg(Items(f.blocks[b]))|
    ensures other in f.blocks && f.blocks[b].term.Br? && Aligned(f, b, other, q)
    ensures SuccOf(f, b) == SuccOf(f, b1)
  {
    SameShape(f, b1, b2);
    var xs, ys := NonDbg(Items(f.blocks[b1])), NonDbg(Items(f.blocks[b2]));
    assert CanMergeInstructions(f, b1, xs[q], b2, ys[q], SuccOf(f, b1));
  }

  /** A use by an instruction of one block has a twin, of the same value, in the other. */
  lemma TwinUse(f: Fn, b: Label, other: Label, r: nat, u: Use, i: Id) returns (k: nat)
    requires b in f.blocks && other in f.blocks && f.blocks[b].term.Br? && Aligned(f, b, other, r)
    requires u.InstrUse? && u.l == b && u in Uses(f, i)
    requires NonDbg(Items(f.blocks[b]))[r] == I(f.blocks[b].body[u.k])
    ensures InstrUse(other, k, u.a) in Uses(f, i)
  {
    k := InstrAt(f.blocks[other], r);
  }

  /** So has a use by a PHI. */
  lemma TwinPhiUse(f: Fn, b: Label, other: Label, u: Use, i: Id)
    requires b in f.blocks && other in f.blocks && f.blocks[b].term.Br?
    requires u.PhiUse? && u.l == b && u in Uses(f, i) && Aligned(f, b, other, u.p)
    ensures PhiUse(other, u.p, u.e) in Uses(f, i)
  {
    BlockItems(f.blocks[b]);
    BlockItems(f.blocks[other]);
    var x, y := f.blocks[b].phis[u.p], f.blocks[other].phis[u.p];
    assert Operands(P(x))[u.e] == Operands(P(y))[u.e];
  }

  /** An instruction that reads an item of its own block has a twin in the other block, so the item has two uses. */
  lemma InstrUseTwice(f: Fn, b1: Label, b2: Label, b: Label, other: Label, i: Id, u: Use) returns (w: Use)
    requires Mergeable(f, b1, b2) && Side(b1, b2, b, other) && b in f.blocks && other in f.blocks
    requires u in Uses(f, i) && u.l == b && u.InstrUse?
    ensures w in Uses(f, i) && w.l == other
  {
    assert !f.blocks[b].body[u.k].op.Dbg?;
    hide Mergeable, Uses;
    var r := BodyItem(f.blocks[b], u.k);
    AlignedAt(f, b1, b2, b, other, r);
    var k := TwinUse(f, b, other, r, u, i);
    w := InstrUse(other, k, u.a);
  }

  lemma PhiUseTwice(f: Fn, b1: Label, b2: Label, b: Label, other: Label, i: Id, u: Use) returns (w: Use)
    requires Mergeable(f, b1, b2) && Side(b1, b2, b, other) && b in f.blocks && other in f.blocks
    requires u in Uses(f, i) && u.l == b && u.PhiUse?
    ensures w in Uses(f, i) && w.l == other
  {
    BlockItems(f.blocks[b]);
    AlignedAt(f, b1, b2, b, other, u.p);
    TwinPhiUse(f, b, other, u, i);
    w := PhiUse(other, u.p, u.e);
  }

  /** No instruction or PHI of a mergeable block is used inside that block. */
  lemma NoInnerUse(f: Fn, b1: Label, b2: Label, b: Label, other: Label, q: nat, u: Use)
    requires Mergeable(f, b1, b2) && Side(b1, b2, b, other)
    requires b in f.blocks && q < |NonDbg(Items(f.blocks[b]))|
    requires u in Uses(f, ItemId(NonDbg(Items(f.blocks[b]))[q]))
    ensures u.l != b
  {
    SameShape(f, b1, b2);
    AlignedAt(f, b1, b2, b, other, q);
    var i := ItemId(NonDbg(Items(f.blocks[b]))[q]);
    hide Uses, Mergeable, Items, NonDbg;
    if u.l == b && u.InstrUse? {
      var w := InstrUseTwice(f, b1, b2, b, other, i, u);
    } else if u.l == b && u.PhiUse? {
      var w := PhiUseTwice(f, b1, b2, b, other, i, u);
    }
  }

  lemma OnlyUse(f: Fn, i: Id, u: Use, w: Use)
    requires HasOneUse(f, i) && u in Uses(f, i) && w in Uses(f, i)
    ensures u == w
  {
    var x :| x in Uses(f, i) && Uses(f, i) == {x};
    assert u in {x} && w in {x};
  }

  /** A removable instruction not used in its own block is used by the successor's PHI on its own edge. */
  lemma RemovableUse(f: Fn, b: Label, succ: Label, i: Id, u: Use)
    requires HasOneUse(f, i) && CanRemoveInst(f, b, succ, i) && u in Uses(f, i) && u.l != b
    ensures u.PhiUse? && u.l == succ
    ensures f.blocks[succ].phis[u.p].edges[u.e].from == b
    ensures Incoming(f.blocks[succ].phis[u.p].edges, b) == Some(Local(i))
  {
    var w :| w in Uses(f, i)
             && (w.l == b || (w.PhiUse? && w.l == succ && Incoming(f.blocks[succ].phis[w.p].edges, b) == Some(Local(i))));
    OnlyUse(f, i, u, w);
    var edges := f.blocks[succ].phis[u.p].edges;
    IncomingFound(edges, b);
    var e :| 0 <= e < |edges| && edges[e] == Edge(b, Local(i));
    OnlyUse(f, i, u, PhiUse(succ, u.p, e));
  }

  /** The one use of an instruction of a mergeable block is the successor's PHI, on that block's edge. */
  lemma UseIsEdge(f: Fn, b1: Label, b2: Label, b: Label, other: Label, q: nat, u: Use)
    requires Mergeable(f, b1, b2) && Side(b1, b2, b, other)
    requires b in f.blocks && q < |NonDbg(Items(f.blocks[b]))|
    requires u in Uses(f, ItemId(NonDbg(Items(f.blocks[b]))[q]))
    ensures u.PhiUse? && u.l == SuccOf(f, b1) && u.p == 0
    ensures f.blocks[u.l].phis[0].edges[u.e].from == b
    ensures Incoming(f.blocks[u.l].phis[0].edges, b) == Some(Local(ItemId(NonDbg(Items(f.blocks[b]))[q])))
  {
    NoInnerUse(f, b1, b2, b, other, q, u);
    AlignedAt(f, b1, b2, b, other, q);
    RemovableUse(f, b, SuccOf(f, b1), ItemId(NonDbg(Items(f.blocks[b]))[q]), u);
  }

  /** At most one value leaves each block: two positions whose items are used are the same position. */
  lemma OneValueLeaves(f: Fn, b1: Label, b2: Label, b: Label, other: Label, q: nat, r: nat)
    requires Mergeable(f, b1, b2) && Side(b1, b2, b, other) && b in f.blocks
    requires q < |NonDbg(Items(f.blocks[b]))| && r < |NonDbg(Items(f.blocks[b]))|
    requires Uses(f, ItemId(NonDbg(Items(f.blocks[b]))[q])) != {} && Uses(f, ItemId(NonDbg(Items(f.blocks[b]))[r])) != {}
    ensures ItemId(NonDbg(Items(f.blocks[b]))[q]) == ItemId(NonDbg(Items(f.blocks[b]))[r])
  {
    var u :| u in Uses(f, ItemId(NonDbg(Items(f.blocks[b]))[q]));
    var v :| v in Uses(f, ItemId(NonDbg(Items(f.blocks[b]))[r]));
    UseIsEdge(f, b1, b2, b, other, q, u);
    UseIsEdge(f, b1, b2, b, other, r, v);
  }

  /** The values of the two blocks. */
  function Inner(f: Fn, b1: Label, b2: Label): set<Id>
    requires b1 in f.blocks && b2 in f.blocks
  {
    Defs(f.blocks[b1]) + Defs(f.blocks[b2])
  }

  lemma ValuePosition(f: Fn, b: Label, i: Id) returns (q: nat)
    requires DbgPlain(f) && b in f.blocks && i in Defs(f.blocks[b])
    ensures q < |NonDbg(Items(f.blocks[b]))| && ItemId(NonDbg(Items(f.blocks[b]))[q]) == i
  {
    var body, phis := f.blocks[b].body, f.blocks[b].phis;
    if i in PhiDefs(phis) {
      var k :| 0 <= k < |phis| && phis[k].id == i;
      q := PhiItem(f.blocks[b], k);
    } else {
      var k :| 0 <= k < |body| && !body[k].ty.Void? && body[k].id == i;
      q := BodyItem(f.blocks[b], k);
    }
  }

  /** Values of the two blocks leave them only through the successor's PHI. */
  lemma InnerUses(f: Fn, b1: Label, b2: Label, i: Id, u: Use)
    requires Mergeable(f, b1, b2) && b2 in f.blocks && i in Inner(f, b1, b2) && u in Uses(f, i)
    ensures u.PhiUse? && u.l == SuccOf(f, b1) && u.p == 0
    ensures f.blocks[u.l].phis[0].edges[u.e].from in {b1, b2}
  {
    if i in Defs(f.blocks[b1]) {
      var q := ValuePosition(f, b1, i);
      UseIsEdge(f, b1, b2, b1, b2, q, u);
    } else {
      var q := ValuePosition(f, b2, i);
      UseIsEdge(f, b1, b2, b2, b1, q, u);
    }
  }

  /** An operand anywhere else is not one of their values. */
  lemma ReadsOutside(f: Fn, b1: Label, b2: Label, u: Use, x: Operand)
    requires Mergeable(f, b1, b2) && b2 in f.blocks && ReadsAt(f, u, x)
    requires u.PhiUse? && u.l == SuccOf(f, b1) ==> f.blocks[u.l].phis[u.p].edges[u.e].from !in {b1, b2}
    ensures x.Local? ==> x.id !in Inner(f, b1, b2)
  {
    if x.Local? && x.id in Inner(f, b1, b2) {
      InnerUses(f, b1, b2, x.id, u);
    }
  }

  /** What the successor's PHI receives from the two blocks: one outside value, or the results of aligned instructions. */
  lemma EdgeValues(f: Fn, b1: Label, b2: Label)
    requires Mergeable(f, b1, b2) && b2 in f.blocks && f.blocks[SuccOf(f, b1)].phis != []
    ensures var edges := f.blocks[SuccOf(f, b1)].phis[0].edges;
            var v1, v2 := Incoming(edges, b1), Incoming(edges, b2);
            && v1.Some? && v2.Some?
            && ((v1 == v2 && (v1.value.Local? ==> v1.value.id !in Inner(f, b1, b2))) || SamePosition(f, b1, b2, v1.value, v2.value))
  {
    var succ := SuccOf(f, b1);
    var edges := f.blocks[succ].phis[0].edges;
    var v1, v2 := Incoming(edges, b1), Incoming(edges, b2);
    IncomingFound(edges, b1);
    IncomingFound(edges, b2);
    var e1 :| 0 <= e1 < |edges| && edges[e1] == Edge(b1, v1.value);
    var e2 :| 0 <= e2 < |edges| && edges[e2] == Edge(b2, v2.value);
    assert ReadsAt(f, PhiUse(succ, 0, e1), v1.value) && ReadsAt(f, PhiUse(succ, 0, e2), v2.value);
    if v1 == v2 {
      if v1.value.Local? && v1.value.id in Inner(f, b1, b2) {
        TwoEdgesTwoUses(f, b1, b2, v1.value.id, e1, e2);
      }
    } else {
      var q := DefinedPosition(f, b1, v1.value, PhiUse(succ, 0, e1));
      AlignedAt(f, b1, b2, b1, b2, q);
      var j := ItemId(NonDbg(Items(f.blocks[b2]))[q]);
      var u :| u in Uses(f, j);
      UseIsEdge(f, b1, b2, b2, b1, q, u);
      assert v2.value == Local(j);
    }
  }

  ghost predicate SamePosition(f: Fn, b1: Label, b2: Label, x: Operand, y: Operand)
    requires b1 in f.blocks && b2 in f.blocks
  {
    exists q :: 0 <= q < |NonDbg(Items(f.blocks[b1]))| && q < |NonDbg(Items(f.blocks[b2]))|
                && x == Local(ItemId(NonDbg(Items(f.blocks[b1]))[q])) && y == Local(ItemId(NonDbg(Items(f.blocks[b2]))[q]))
  }

  lemma TwoEdgesTwoUses(f: Fn, b1: Label, b2: Label, i: Id, e1: nat, e2: nat)
    requires Mergeable(f, b1, b2) && b2 in f.blocks
    requires PhiUse(SuccOf(f, b1), 0, e1) in Uses(f, i) && PhiUse(SuccOf(f, b1), 0, e2) in Uses(f, i)
    requires f.blocks[SuccOf(f, b1)].phis[0].edges[e1].from == b1 && f.blocks[SuccOf(f, b1)].phis[0].edges[e2].from == b2
    ensures i !in Inner(f, b1, b2)
  {
    if i in Defs(f.blocks[b1]) {
      var q := ValuePosition(f, b1, i);
      UseIsEdge(f, b1, b2, b1, b2, q, PhiUse(SuccOf(f, b1), 0, e2));
    }
    if i in Defs(f.blocks[b2]) {
      var q := ValuePosition(f, b2, i);
      UseIsEdge(f, b1, b2, b2, b1, q, PhiUse(SuccOf(f, b1), 0, e1));
    }
  }

  lemma DefinedPosition(f: Fn, b: Label, x: Operand, u: Use) returns (q: nat)
    requires MergeReady(f) && b in f.blocks && DefinedIn(f.blocks[b], x) && ReadsAt(f, u, x)
    ensures q < |NonDbg(Items(f.blocks[b]))| && ItemId(NonDbg(Items(f.blocks[b]))[q]) == x.id
  {
    var body, phis := f.blocks[b].body, f.blocks[b].phis;
    assert u in Uses(f, x.id);
    if k :| 0 <= k < |phis| && phis[k].id == x.id {
      q := PhiItem(f.blocks[b], k);
    } else {
      var k :| 0 <= k < |body| && body[k].id == x.id;
      q := BodyItem(f.blocks[b], k);
    }
  }
}
