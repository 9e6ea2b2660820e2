/** When two blocks are duplicates for MergeBB, and what merging them does to the control-flow graph. */
module Merge {
  import opened Ir
  import opened Ssa

  // Instructions of a block in order, PHIs included, terminator excluded

  datatype Item = P(phi: Phi) | I(instr: Instr)

  function Items(b: Block): seq<Item> {
    seq(|b.phis|, k requires 0 <= k < |b.phis| => P(b.phis[k]))
    + seq(|b.body|, k requires 0 <= k < |b.body| => I(b.body[k]))
  }

  predicate IsDbg(x: Item) {
    x.I? && x.instr.op.Dbg?
  }

  function NonDbg(xs: seq<Item>): seq<Item> {
    if xs == [] then []
    else NonDbg(xs[..|xs| - 1]) + if IsDbg(xs[|xs| - 1]) then [] else [xs[|xs| - 1]]
  }

  function ItemId(x: Item): Id {
    if x.P? then x.phi.id else x.instr.id
  }

  // Uses

  datatype Use = PhiUse(l: Label, p: nat, e: nat) | InstrUse(l: Label, k: nat, a: nat) | TermUse(l: Label, a: nat)

  predicate ReadsAt(f: Fn, u: Use, x: Operand) {
    && u.l in f.blocks
    && match u
       case PhiUse(l, p, e) =>
         p < |f.blocks[l].phis| && e < |f.blocks[l].phis[p].edges| && f.blocks[l].phis[p].edges[e].val == x
       case InstrUse(l, k, a) =>
         k < |f.blocks[l].body| && a < |f.blocks[l].body[k].args| && f.blocks[l].body[k].args[a] == x
       case TermUse(l, a) =>
         a < |TermArgs(f.blocks[l].term)| && TermArgs(f.blocks[l].term)[a] == x
  }

  function Uses(f: Fn, i: Id): (us: set<Use>)
    ensures forall u :: u in us <==> ReadsAt(f, u, Local(i))
  {
    (set l, p, e | l in f.blocks && 0 <= p < |f.blocks[l].phis| && 0 <= e < |f.blocks[l].phis[p].edges|
                   && ReadsAt(f, PhiUse(l, p, e), Local(i)) :: PhiUse(l, p, e))
    + (set l, k, a | l in f.blocks && 0 <= k < |f.blocks[l].body| && 0 <= a < |f.blocks[l].body[k].args|
                     && ReadsAt(f, InstrUse(l, k, a), Local(i)) :: InstrUse(l, k, a))
    + (set l, a | l in f.blocks && 0 <= a < |TermArgs(f.blocks[l].term)|
                  && ReadsAt(f, TermUse(l, a), Local(i)) :: TermUse(l, a))
  }

  predicate HasOneUse(f: Fn, i: Id) {
    exists u | u in Uses(f, i) :: Uses(f, i) == {u}
  }

  // The comparison

  /** Same kind of instruction: opcode, type and operand count. */
  predicate SameOperation(x: Item, y: Item) {
    match (x, y)
    case (P(a), P(b)) => a.ty == b.ty && |a.edges| == |b.edges|
    case (I(a), I(b)) => a.op == b.op && a.ty == b.ty && |a.args| == |b.args|
    case _ => false
  }

  function Operands(x: Item): seq<Operand> {
    if x.P? then seq(|x.phi.edges|, k requires 0 <= k < |x.phi.edges| => x.phi.edges[k].val) else x.instr.args
  }

  /** The only user of instruction i of block l is a PHI of the successor, on the edge from l, or lies in l itself. */
  predicate CanRemoveInst(f: Fn, l: Label, succ: Label, i: Id) {
    exists u | u in Uses(f, i) ::
      || u.l == l
      || (u.PhiUse? && u.l == succ && Incoming(f.blocks[succ].phis[u.p].edges, l) == Some(Local(i)))
  }

  predicate CanMergeInstructions(f: Fn, b1: Label, x: Item, b2: Label, y: Item, succ: Label) {
    && SameOperation(x, y)
    && (if Uses(f, ItemId(x)) != {}
        then
          && HasOneUse(f, ItemId(x)) && HasOneUse(f, ItemId(y))
          && CanRemoveInst(f, b1, succ, ItemId(x)) && CanRemoveInst(f, b2, succ, ItemId(y))
        else Uses(f, ItemId(y)) == {})
    && Operands(x) == Operands(y)
  }

  /** All aligned non-debug instructions can be merged. */
  predicate Duplicates(f: Fn, b1: Label, b2: Label, succ: Label)
    requires b1 in f.blocks && b2 in f.blocks
  {
    var xs, ys := NonDbg(Items(f.blocks[b1])), NonDbg(Items(f.blocks[b2]));
    && |xs| == |ys|
    && forall k :: 0 <= k < |xs| ==> CanMergeInstructions(f, b1, xs[k], b2, ys[k], succ)
  }

  // The guards of mergeDuplicatedBlock

  predicate IsBranchOrSwitch(t: Term) {
    t.Br? || t.CondBr? || t.Switch?
  }

  /** b1 may be merged away: not the entry, left unconditionally, entered by branches and switches, at most one PHI behind it. */
  predicate Candidate(f: Fn, b1: Label) {
    && b1 in f.blocks && b1 != f.entry
    && f.blocks[b1].term.Br?
    && (forall p :: p in Preds(f, b1) ==> IsBranchOrSwitch(f.blocks[p].term))
    && f.blocks[b1].term.dest in f.blocks
    && |f.blocks[f.blocks[b1].term.dest].phis| <= 1
  }

  /** x is computed by an instruction or a PHI of block b. */
  predicate DefinedIn(b: Block, x: Operand) {
    && x.Local?
    && ((exists k :: 0 <= k < |b.phis| && b.phis[k].id == x.id) || (exists k :: 0 <= k < |b.body| && b.body[k].id == x.id))
  }

  /** The successor's PHI takes the same value on both edges, or values computed in the two blocks. */
  predicate EdgesMatch(f: Fn, b1: Label, b2: Label, succ: Label)
    requires b1 in f.blocks && b2 in f.blocks && succ in f.blocks
  {
    f.blocks[succ].phis != [] ==>
      var edges := f.blocks[succ].phis[0].edges;
      var v1, v2 := Incoming(edges, b1), Incoming(edges, b2);
      && v1.Some? && v2.Some?
      && (v1 == v2 || (DefinedIn(f.blocks[b1], v1.value) && DefinedIn(f.blocks[b2], v2.value)))
  }

  /** b2 is a block that b1 can be merged into. */
  predicate Qualifies(f: Fn, deleteList: set<Label>, b1: Label, b2: Label) {
    && Candidate(f, b1)
    && var succ := f.blocks[b1].term.dest;
       && b2 in Preds(f, succ) && b2 != f.entry
       && f.blocks[b2].term.Br?
       && b2 !in deleteList && b2 != b1
       && EdgesMatch(f, b1, b2, succ)
       && Duplicates(f, b1, b2, succ)
  }

  // Redirecting edges

  function Switch1(x: Label, b1: Label, b2: Label): Label {
    if x == b1 then b2 else x
  }

  function RetargetCases(cases: seq<Case>, b1: Label, b2: Label): seq<Case> {
    seq(|cases|, k requires 0 <= k < |cases| => cases[k].(dest := Switch1(cases[k].dest, b1, b2)))
  }

  /** Replace target b1 of a branch or switch by b2. */
  function Retarget(t: Term, b1: Label, b2: Label): Term {
    match t
    case Br(d) => Br(Switch1(d, b1, b2))
    case CondBr(c, x, y) => CondBr(c, Switch1(x, b1, b2), Switch1(y, b1, b2))
    case Switch(v, d, cases) => Switch(v, Switch1(d, b1, b2), RetargetCases(cases, b1, b2))
    case _ => t
  }

  function Redirect(f: Fn, b1: Label, b2: Label): Fn {
    f.(blocks := map l | l in f.blocks :: f.blocks[l].(term := Retarget(f.blocks[l].term, b1, b2)))
  }

  lemma RetargetSuccs(t: Term, b1: Label, b2: Label)
    requires b1 != b2 && (IsBranchOrSwitch(t) || b1 !in Succs(t))
    ensures forall x :: x in Succs(Retarget(t, b1, b2)) <==>
              (x == b2 && b1 in Succs(t)) || (x != b1 && x in Succs(t))
    ensures TermArgs(Retarget(t, b1, b2)) == TermArgs(t)
  {
    if t.Switch? {
      var cases, cases' := t.cases, RetargetCases(t.cases, b1, b2);
      forall x
        ensures x in Succs(Retarget(t, b1, b2)) <==> (x == b2 && b1 in Succs(t)) || (x != b1 && x in Succs(t))
      {
        if k :| 0 <= k < |cases| && cases[k].dest == x {
          assert cases'[k].dest == Switch1(x, b1, b2);
        }
        if k :| 0 <= k < |cases| && cases[k].dest == b1 {
          assert cases'[k].dest == b2;
        }
      }
    }
  }

  /** Merging moves exactly b1's in-edges onto b2 and changes no other edge. */
  lemma RedirectEdges(f: Fn, b1: Label, b2: Label, p: Label, x: Label)
    requires b1 != b2 && forall q :: q in Preds(f, b1) ==> IsBranchOrSwitch(f.blocks[q].term)
    ensures IsEdge(Redirect(f, b1, b2), p, x) <==> (x == b2 && IsEdge(f, p, b1)) || (x != b1 && IsEdge(f, p, x))
  {
    if p in f.blocks {
      assert b1 in Succs(f.blocks[p].term) ==> p in Preds(f, b1);
      RetargetSuccs(f.blocks[p].term, b1, b2);
    }
  }
}
