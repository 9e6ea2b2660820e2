/** The reachable-integer-values analysis: a walk over the dominator tree with an explicit stack. */
module Riv {
  import opened Ir
  import opened Semantics
  import opened Ssa

  // The dominator tree, given as input

  datatype DomTree = Node(block: Label, children: seq<DomTree>)

  function Labels(t: DomTree): multiset<Label> {
    multiset{t.block} + ForestLabels(t.children)
  }

  function ForestLabels(ts: seq<DomTree>): multiset<Label> {
    if ts == [] then multiset{} else Labels(ts[0]) + ForestLabels(ts[1..])
  }

  /** The number of nodes still to be walked. */
  function ForestSize(ts: seq<DomTree>): nat {
    if ts == [] then 0 else 1 + ForestSize(ts[0].children) + ForestSize(ts[1..])
  }

  ghost predicate Reachable(f: Fn, l: Label) {
    exists p :: Path(f, p) && Last(p) == l
  }

  ghost predicate StrictlyDominates(f: Fn, d: Label, l: Label) {
    d != l && Dominates(f, d, l)
  }

  /** d is the closest strict dominator of l: all the others dominate d. */
  ghost predicate ImmediatelyDominates(f: Fn, d: Label, l: Label) {
    && StrictlyDominates(f, d, l)
    && Reachable(f, l)
    && forall e :: StrictlyDominates(f, e, l) ==> Dominates(f, e, d)
  }

  ghost predicate LinksAreIdoms(f: Fn, t: DomTree) {
    forall k :: 0 <= k < |t.children| ==>
      ImmediatelyDominates(f, t.block, t.children[k].block) && LinksAreIdoms(f, t.children[k])
  }

  /** The contract of the dominator tree: rooted at the entry, one node per reachable block, links are immediate dominators. */
  ghost predicate IsDomTree(f: Fn, t: DomTree) {
    && t.block == f.entry
    && LinksAreIdoms(f, t)
    && (forall l :: Labels(t)[l] <= 1)
    && (forall l :: l in Labels(t) <==> Reachable(f, l))
  }

  // What the analysis should compute

  /** The integer values a block defines. */
  function IntDefs(b: Block): set<Operand> {
    (set k | 0 <= k < |b.phis| && b.phis[k].ty.Int? :: Local(b.phis[k].id))
    + (set k | 0 <= k < |b.body| && b.body[k].ty.Int? :: Local(b.body[k].id))
  }

  function EntryValues(f: Fn): set<Operand> {
    (set k | 0 <= k < |f.globals| && f.globals[k].Int? :: Global(k))
    + (set k | 0 <= k < |f.params| && f.params[k].Int? :: Arg(k))
  }

  ghost predicate DefinedAbove(f: Fn, l: Label, x: Operand) {
    exists d :: d in f.blocks && StrictlyDominates(f, d, l) && x in IntDefs(f.blocks[d])
  }

  /** x is an integer global or argument, or an integer defined in a strict dominator of l. */
  ghost predicate IsReachableValue(f: Fn, l: Label, x: Operand) {
    x in EntryValues(f) || DefinedAbove(f, l, x)
  }

  ghost predicate Exact(f: Fn, riv: map<Label, set<Operand>>, l: Label) {
    l in riv && forall x :: x in riv[l] <==> IsReachableValue(f, l, x)
  }

  // The same, said of the text

  /** A PHI or instruction of the block with an integer type goes by this id. */
  ghost predicate IntegerIn(b: Block, i: Id) {
    (exists p :: p in b.phis && p.id == i && p.ty.Int?) || exists c :: c in b.body && c.id == i && c.ty.Int?
  }

  ghost predicate IntegerInput(f: Fn, x: Operand) {
    match x
    case Global(k) => k < |f.globals| && f.globals[k].Int?
    case Arg(k) => k < |f.params| && f.params[k].Int?
    case _ => false
  }

  /** A block other than l that every path from the entry to l goes through computes the integer i. */
  ghost predicate IntegerAbove(f: Fn, l: Label, i: Id) {
    exists d :: d in f.blocks && d != l && (forall p :: Path(f, p) && Last(p) == l ==> d in p) && IntegerIn(f.blocks[d], i)
  }

  lemma IntDefsAre(f: Fn, l: Label, x: Operand)
    requires l in f.blocks
    ensures x in IntDefs(f.blocks[l]) <==> x.Local? && IntegerIn(f.blocks[l], x.id)
    ensures x in IntDefs(f.blocks[l]) ==> DefinesIn(f, l, x.id)
  {
    var b := f.blocks[l];
    if x.Local? && IntegerIn(b, x.id) {
      if p :| p in b.phis && p.id == x.id && p.ty.Int? {
        var k :| 0 <= k < |b.phis| && b.phis[k] == p;
        assert x == Local(b.phis[k].id) && b.phis[k].id in PhiDefs(b.phis);
      } else {
        var c :| c in b.body && c.id == x.id && c.ty.Int?;
        var k :| 0 <= k < |b.body| && b.body[k] == c;
        assert x == Local(b.body[k].id) && b.body[k].id in BodyDefs(b.body, |b.body|);
      }
    }
    if x in IntDefs(b) {
      if k :| 0 <= k < |b.phis| && b.phis[k].ty.Int? && x == Local(b.phis[k].id) {
        assert b.phis[k] in b.phis && x.id in PhiDefs(b.phis);
      } else {
        var k :| 0 <= k < |b.body| && b.body[k].ty.Int? && x == Local(b.body[k].id);
        assert b.body[k] in b.body && x.id in BodyDefs(b.body, |b.body|);
      }
    }
  }

  lemma EntryValuesAre(f: Fn, x: Operand)
    ensures x in EntryValues(f) <==> IntegerInput(f, x)
  {
  }

  lemma ReachableValueIs(f: Fn, l: Label, x: Operand)
    ensures IsReachableValue(f, l, x) <==> IntegerInput(f, x) || (x.Local? && IntegerAbove(f, l, x.id))
  {
    EntryValuesAre(f, x);
    hide IntDefs, IntegerIn, EntryValues;
    if DefinedAbove(f, l, x) {
      var d :| d in f.blocks && StrictlyDominates(f, d, l) && x in IntDefs(f.blocks[d]);
      IntDefsAre(f, d, x);
    }
    if x.Local? && IntegerAbove(f, l, x.id) {
      var d :| d in f.blocks && d != l && (forall p :: Path(f, p) && Last(p) == l ==> d in p) && IntegerIn(f.blocks[d], x.id);
      IntDefsAre(f, d, x);
      assert StrictlyDominates(f, d, l);
    }
  }

  lemma ExactIs(f: Fn, riv: map<Label, set<Operand>>, l: Label)
    requires Exact(f, riv, l)
    ensures forall x :: x in riv[l] <==> IntegerInput(f, x) || (x.Local? && IntegerAbove(f, l, x.id))
  {
    hide IsReachableValue, IntegerInput, IntegerAbove;
    forall x
      ensures x in riv[l] <==> IntegerInput(f, x) || (x.Local? && IntegerAbove(f, l, x.id))
    {
      ReachableValueIs(f, l, x);
    }
  }

  // Dominance facts

  lemma DominatesTransitive(f: Fn, a: Label, b: Label, c: Label)
    requires Dominates(f, a, b) && Dominates(f, b, c)
    ensures Dominates(f, a, c)
  {
    forall p | Path(f, p) && Last(p) == c
      ensures a in p
    {
      var k :| 0 <= k < |p| && p[k] == b;
      var q := p[..k + 1];
      assert Path(f, q) && Last(q) == b;
      assert a in q;
    }
  }

  /** Cut a path to l down to its first visit of l. */
  lemma FirstVisit(f: Fn, p: seq<Label>, l: Label) returns (q: seq<Label>)
    requires Path(f, p) && Last(p) == l
    ensures Path(f, q) && Last(q) == l && l !in q[..|q| - 1]
    ensures forall x :: x in q ==> x in p
  {
    q := p;
    while l in q[..|q| - 1]
      invariant Path(f, q) && Last(q) == l
      invariant forall x :: x in q ==> x in p
      decreases |q|
    {
      var k :| 0 <= k < |q| - 1 && q[k] == l;
      q := q[..k + 1];
    }
  }

  /** Two different reachable blocks do not dominate each other. */
  lemma DominatesAntisymmetric(f: Fn, a: Label, b: Label)
    requires Reachable(f, b) && a != b
    requires Dominates(f, a, b)
    ensures !Dominates(f, b, a)
  {
    var p :| Path(f, p) && Last(p) == b;
    var q := FirstVisit(f, p, b);
    var k :| 0 <= k < |q| && q[k] == a;
    var r := q[..k + 1];
    assert r <= q[..|q| - 1];
    assert Path(f, r) && Last(r) == a && b !in r;
  }

  /** The strict dominators of a tree child are its parent and the parent's own strict dominators. */
  lemma StrictDominatorsOfChild(f: Fn, parent: Label, child: Label, d: Label)
    requires ImmediatelyDominates(f, parent, child)
    ensures StrictlyDominates(f, d, child) <==> d == parent || StrictlyDominates(f, d, parent)
  {
    if StrictlyDominates(f, d, parent) {
      DominatesTransitive(f, d, parent, child);
      DominatesAntisymmetric(f, parent, child);
    }
  }

  lemma EntryHasNoStrictDominator(f: Fn, d: Label)
    ensures !StrictlyDominates(f, d, f.entry)
  {
    var p := [f.entry];
    assert Path(f, p) && Last(p) == f.entry;
  }

  /** A child's values are its parent's values and the parent's definitions. */
  lemma ChildValues(f: Fn, parent: Label, child: Label, x: Operand)
    requires parent in f.blocks && ImmediatelyDominates(f, parent, child)
    ensures IsReachableValue(f, child, x) <==> IsReachableValue(f, parent, x) || x in IntDefs(f.blocks[parent])
  {
    if DefinedAbove(f, child, x) {
      var d :| d in f.blocks && StrictlyDominates(f, d, child) && x in IntDefs(f.blocks[d]);
      StrictDominatorsOfChild(f, parent, child, d);
    }
    if DefinedAbove(f, parent, x) {
      var d :| d in f.blocks && StrictlyDominates(f, d, parent) && x in IntDefs(f.blocks[d]);
      StrictDominatorsOfChild(f, parent, child, d);
    }
    if x in IntDefs(f.blocks[parent]) {
      StrictDominatorsOfChild(f, parent, child, parent);
    }
  }

  /** Every integer value reachable at a block is computed whenever a run gets there. */
  lemma ReachableValueIsAvailable(f: Fn, l: Label, x: Operand)
    requires IsReachableValue(f, l, x) && x.Local?
    ensures AvailIn(f, l, x.id)
  {
    var d :| d in f.blocks && StrictlyDominates(f, d, l) && x in IntDefs(f.blocks[d]);
    var b := f.blocks[d];
    assert x.id in Defs(b) by {
      if k :| 0 <= k < |b.phis| && b.phis[k].ty.Int? && x == Local(b.phis[k].id) {
        assert x.id in PhiDefs(b.phis);
      } else {
        var k :| 0 <= k < |b.body| && b.body[k].ty.Int? && x == Local(b.body[k].id);
        assert x.id in BodyDefs(b.body, |b.body|);
      }
    }
    assert DefinesIn(f, d, x.id);
  }

  /** Whenever any run reaches a block, every reachable value of the block has already been computed. */
  lemma ReachableValueDefined(f: Fn, inp: Input, n: nat, x: Operand)
    requires Closed(f) && Run(f, inp, n).At? && IsReachableValue(f, Run(f, inp, n).lbl, x)
    ensures Defined(x, Run(f, inp, n).env)
  {
    if x.Local? {
      ReachableValueIsAvailable(f, Run(f, inp, n).lbl, x);
      AvailableAtRun(f, inp, n, x.id);
    }
  }

  // The analysis

  lemma {:induction false} ForestAppend(ts: seq<DomTree>, us: seq<DomTree>)
    ensures ForestLabels(ts + us) == ForestLabels(ts) + ForestLabels(us)
  {
    if ts == [] {
      assert ts + us == us;
    } else {
      assert (ts + us)[1..] == ts[1..] + us;
      ForestAppend(ts[1..], us);
    }
  }

  lemma ForestPush(ts: seq<DomTree>, t: DomTree)
    ensures ForestLabels(ts + [t]) == ForestLabels(ts) + Labels(t)
  {
    ForestAppend(ts, [t]);
    assert ForestLabels([t][1..]) == multiset{};
  }

  lemma {:induction false} SizePush(ts: seq<DomTree>, t: DomTree)
    ensures ForestSize(ts + [t]) == ForestSize(ts) + 1 + ForestSize(t.children)
  {
    if ts == [] {
      assert [t][1..] == [];
      assert ts + [t] == [t];
    } else {
      assert (ts + [t])[1..] == ts[1..] + [t];
      SizePush(ts[1..], t);
    }
  }

  lemma {:induction false} ForestMember(ts: seq<DomTree>, k: nat)
    requires k < |ts|
    ensures Labels(ts[k]) <= ForestLabels(ts)
  {
    if k > 0 {
      ForestMember(ts[1..], k - 1);
    }
  }

  method CollectDefs(f: Fn) returns (defs: map<Label, set<Operand>>)
    ensures defs.Keys == f.blocks.Keys
    ensures forall l :: l in defs ==> defs[l] == IntDefs(f.blocks[l])
  {
    defs := map[];
    var todo := f.blocks.Keys;
    while todo != {}
      invariant todo + defs.Keys == f.blocks.Keys
      invariant forall l :: l in defs ==> defs[l] == IntDefs(f.blocks[l])
      decreases todo
    {
      var l :| l in todo;
      var b := f.blocks[l];
      var values: set<Operand> := {};
      for k := 0 to |b.phis|
        invariant values == set j | 0 <= j < k && b.phis[j].ty.Int? :: Local(b.phis[j].id)
      {
        if b.phis[k].ty.Int? {
          values := values + {Local(b.phis[k].id)};
        }
      }
      var fromPhis := values;
      for k := 0 to |b.body|
        invariant values == fromPhis + set j | 0 <= j < k && b.body[j].ty.Int? :: Local(b.body[j].id)
      {
        if b.body[k].ty.Int? {
          values := values + {Local(b.body[k].id)};
        }
      }
      defs := defs[l := values];
      todo := todo - {l};
    }
  }

  method CollectEntryValues(f: Fn) returns (values: set<Operand>)
    ensures values == EntryValues(f)
  {
    values := {};
    for k := 0 to |f.globals|
      invariant values == set j | 0 <= j < k && f.globals[j].Int? :: Global(j)
    {
      if f.globals[k].Int? {
        values := values + {Global(k)};
      }
    }
    var globals := values;
    for k := 0 to |f.params|
      invariant values == globals + set j | 0 <= j < k && f.params[j].Int? :: Arg(j)
    {
      if f.params[k].Int? {
        values := values + {Arg(k)};
      }
    }
  }

  predicate OnTop(stack: seq<DomTree>, l: Label) {
    exists k :: 0 <= k < |stack| && stack[k].block == l
  }

  /** Each node is popped, stacked or pending exactly once; pending trees are children still to be pushed. */
  ghost predicate CountOk(root: DomTree, stack: seq<DomTree>, popped: seq<Label>, pending: seq<DomTree>) {
    ForestLabels(stack) + ForestLabels(pending) + multiset(popped) == Labels(root)
  }

  /** Exactly the popped and the stacked nodes have a set, and it is already final. */
  ghost predicate SetsOk(f: Fn, riv: map<Label, set<Operand>>, stack: seq<DomTree>, popped: seq<Label>) {
    && (forall k :: 0 <= k < |stack| ==> LinksAreIdoms(f, stack[k]))
    && (forall l :: l in riv <==> l in popped || OnTop(stack, l))
    && (forall l :: l in riv ==> Exact(f, riv, l))
  }

  lemma OnTopCounts(stack: seq<DomTree>, l: Label)
    ensures OnTop(stack, l) ==> l in ForestLabels(stack)
  {
    if OnTop(stack, l) {
      var k :| 0 <= k < |stack| && stack[k].block == l;
      ForestMember(stack, k);
      assert l in Labels(stack[k]);
    }
  }

  lemma OnTopPush(stack: seq<DomTree>, t: DomTree, l: Label)
    ensures OnTop(stack + [t], l) <==> OnTop(stack, l) || l == t.block
  {
    var s := stack + [t];
    if OnTop(stack, l) {
      var k :| 0 <= k < |stack| && stack[k].block == l;
      assert s[k].block == l;
    }
    assert s[|stack|].block == t.block;
  }

  /** A pending child has not been given a set yet; pushing it keeps the count. */
  lemma PushCounts(root: DomTree, stack: seq<DomTree>, popped: seq<Label>, pending: seq<DomTree>)
    requires CountOk(root, stack, popped, pending) && pending != []
    requires Labels(root)[pending[0].block] <= 1
    ensures pending[0].block !in popped && !OnTop(stack, pending[0].block)
    ensures CountOk(root, stack + [pending[0]], popped, pending[1..])
    ensures ForestSize(stack + [pending[0]]) + ForestSize(pending[1..]) == ForestSize(stack) + ForestSize(pending)
  {
    SizePush(stack, pending[0]);
    ForestPush(stack, pending[0]);
    var l := pending[0].block;
    assert l in Labels(pending[0]);
    OnTopCounts(stack, l);
    assert Labels(root)[l] == ForestLabels(stack)[l] + ForestLabels(pending)[l] + multiset(popped)[l];
    assert l in multiset(popped) <==> l in popped;
  }

  lemma PushSets(f: Fn, riv: map<Label, set<Operand>>, stack: seq<DomTree>, popped: seq<Label>,
                 parent: Label, child: DomTree, values: set<Operand>)
    requires SetsOk(f, riv, stack, popped)
    requires child.block !in riv && parent in riv && parent in f.blocks
    requires ImmediatelyDominates(f, parent, child.block) && LinksAreIdoms(f, child)
    requires values == IntDefs(f.blocks[parent]) + riv[parent]
    ensures SetsOk(f, riv[child.block := values], stack + [child], popped)
  {
    var riv' := riv[child.block := values];
    forall x
      ensures x in values <==> IsReachableValue(f, child.block, x)
    {
      ChildValues(f, parent, child.block, x);
      assert Exact(f, riv, parent);
    }
    forall l
      ensures l in riv' <==> l in popped || OnTop(stack + [child], l)
    {
      OnTopPush(stack, child, l);
    }
    forall l | l in riv'
      ensures Exact(f, riv', l)
    {
      assert l != child.block ==> Exact(f, riv, l);
    }
  }

  lemma PopCounts(root: DomTree, stack: seq<DomTree>, popped: seq<Label>)
    requires CountOk(root, stack, popped, []) && stack != []
    ensures var t := stack[|stack| - 1];
            && CountOk(root, stack[..|stack| - 1], popped + [t.block], t.children)
            && ForestSize(stack) == ForestSize(stack[..|stack| - 1]) + 1 + ForestSize(t.children)
  {
    SizePush(stack[..|stack| - 1], stack[|stack| - 1]);
    ForestPush(stack[..|stack| - 1], stack[|stack| - 1]);
    assert stack == stack[..|stack| - 1] + [stack[|stack| - 1]];
  }

  lemma PopSets(f: Fn, riv: map<Label, set<Operand>>, stack: seq<DomTree>, popped: seq<Label>)
    requires SetsOk(f, riv, stack, popped) && stack != []
    ensures SetsOk(f, riv, stack[..|stack| - 1], popped + [stack[|stack| - 1].block])
    ensures stack[|stack| - 1].block in riv && LinksAreIdoms(f, stack[|stack| - 1])
  {
    var t := stack[|stack| - 1];
    assert stack == stack[..|stack| - 1] + [t];
    forall l
      ensures l in riv <==> l in popped + [t.block] || OnTop(stack[..|stack| - 1], l)
    {
      OnTopPush(stack[..|stack| - 1], t, l);
    }
  }

  /** One pushed child keeps the walk in order. */
  lemma PushKeeps(f: Fn, root: DomTree, riv: map<Label, set<Operand>>, stack: seq<DomTree>, popped: seq<Label>,
                  parent: DomTree, c: nat, values: set<Operand>)
    requires c < |parent.children|
    requires CountOk(root, stack, popped, parent.children[c..]) && SetsOk(f, riv, stack, popped)
    requires (forall l :: Labels(root)[l] <= 1) && LinksAreIdoms(f, parent)
    requires parent.block in riv && parent.block in f.blocks
    requires values == IntDefs(f.blocks[parent.block]) + riv[parent.block]
    ensures var child := parent.children[c];
            && child.block !in riv && child.block != parent.block
            && CountOk(root, stack + [child], popped, parent.children[c + 1..])
            && SetsOk(f, riv[child.block := values], stack + [child], popped)
            && ForestSize(stack + [child]) + ForestSize(parent.children[c + 1..])
               == ForestSize(stack) + ForestSize(parent.children[c..])
  {
    var pending := parent.children[c..];
    assert pending[0] == parent.children[c] && pending[1..] == parent.children[c + 1..];
    PushCounts(root, stack, popped, pending);
    PushSets(f, riv, stack, popped, parent.block, pending[0], values);
  }

  /** Stacks the children of a popped node and gives each its set, which did not exist before. */
  method PushChildren(f: Fn, ghost root: DomTree, ghost popped: seq<Label>, parent: DomTree,
                      parentDefs: set<Operand>, stack0: seq<DomTree>, riv0: map<Label, set<Operand>>)
    returns (stack: seq<DomTree>, riv: map<Label, set<Operand>>)
    requires CountOk(root, stack0, popped, parent.children) && SetsOk(f, riv0, stack0, popped)
    requires (forall l :: Labels(root)[l] <= 1) && LinksAreIdoms(f, parent)
    requires parent.block in riv0 && parent.block in f.blocks && parentDefs == IntDefs(f.blocks[parent.block])
    ensures CountOk(root, stack, popped, []) && SetsOk(f, riv, stack, popped)
    ensures ForestSize(stack) == ForestSize(stack0) + ForestSize(parent.children)
  {
    stack, riv := stack0, riv0;
    var parentRivs := riv[parent.block];
    assert parent.children[0..] == parent.children;
    for c := 0 to |parent.children|
      invariant CountOk(root, stack, popped, parent.children[c..]) && SetsOk(f, riv, stack, popped)
      invariant parent.block in riv && riv[parent.block] == parentRivs
      invariant ForestSize(stack) + ForestSize(parent.children[c..]) == ForestSize(stack0) + ForestSize(parent.children)
    {
      var child := parent.children[c];
      PushKeeps(f, root, riv, stack, popped, parent, c, parentDefs + parentRivs);
      stack := stack + [child];
      riv := riv[child.block := parentDefs + parentRivs];
    }
  }

  /**
   The walk pops every node of the dominator tree once; the set of each reachable block is the
   entry's values together with the integers defined in its strict dominators, whatever the order of children.
   */
  method BuildRiv(f: Fn, root: DomTree) returns (riv: map<Label, set<Operand>>, popped: seq<Label>)
    requires Closed(f) && IsDomTree(f, root)
    ensures multiset(popped) == Labels(root)
    ensures forall l :: l in riv <==> Reachable(f, l)
    ensures forall l :: l in riv ==> Exact(f, riv, l)
    ensures forall l, x :: l in riv ==> (x in riv[l] <==> IntegerInput(f, x) || (x.Local? && IntegerAbove(f, l, x.id)))
  {
    hide IntegerInput, IntegerAbove;
    var defs := CollectDefs(f);
    var entryValues := CollectEntryValues(f);
    riv := map[f.entry := entryValues];
    popped := [];
    var stack := [root];
    StartWalk(f, root, riv);
    while stack != []
      invariant CountOk(root, stack, popped, []) && SetsOk(f, riv, stack, popped)
      decreases ForestSize(stack)
    {
      var parent := stack[|stack| - 1];
      PopCounts(root, stack, popped);
      PopSets(f, riv, stack, popped);
      stack := stack[..|stack| - 1];
      popped := popped + [parent.block];
      InTree(root, stack, popped, parent.children);
      ReachableIsBlock(f, parent.block, root);
      stack, riv := PushChildren(f, root, popped, parent, defs[parent.block], stack, riv);
    }
    EndWalk(f, root, riv, popped);
    forall l | l in riv
      ensures forall x :: x in riv[l] <==> IntegerInput(f, x) || (x.Local? && IntegerAbove(f, l, x.id))
    {
      ExactIs(f, riv, l);
    }
  }

  lemma InTree(root: DomTree, stack: seq<DomTree>, popped: seq<Label>, pending: seq<DomTree>)
    requires CountOk(root, stack, popped, pending) && popped != []
    ensures popped[|popped| - 1] in Labels(root)
  {
    assert popped[|popped| - 1] in multiset(popped);
  }

  lemma EndWalk(f: Fn, root: DomTree, riv: map<Label, set<Operand>>, popped: seq<Label>)
    requires IsDomTree(f, root) && CountOk(root, [], popped, []) && SetsOk(f, riv, [], popped)
    ensures multiset(popped) == Labels(root)
    ensures forall l :: l in riv <==> Reachable(f, l)
  {
    forall l
      ensures l in riv <==> Reachable(f, l)
    {
      assert l in multiset(popped) <==> l in popped;
    }
  }

  lemma StartWalk(f: Fn, root: DomTree, riv: map<Label, set<Operand>>)
    requires IsDomTree(f, root)
    requires riv == map[f.entry := EntryValues(f)]
    ensures CountOk(root, [root], [], []) && SetsOk(f, riv, [root], [])
  {
    assert ForestLabels([root][1..]) == multiset{};
    forall l
      ensures l in riv <==> OnTop([root], l)
    {
      OnTopPush([], root, l);
      assert [] + [root] == [root];
    }
    forall d
      ensures !StrictlyDominates(f, d, f.entry)
    {
      EntryHasNoStrictDominator(f, d);
    }
    assert Exact(f, riv, f.entry);
  }

  lemma ReachableIsBlock(f: Fn, l: Label, root: DomTree)
    requires Closed(f) && IsDomTree(f, root) && l in Labels(root)
    ensures l in f.blocks
  {
    var p :| Path(f, p) && Last(p) == l;
    if |p| > 1 {
      assert IsEdge(f, p[|p| - 2], p[|p| - 1]);
    }
  }
}
