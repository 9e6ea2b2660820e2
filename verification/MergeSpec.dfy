/** When one block is merged into another, said of the text of the function, and that MergeBB's checks come to just that. */
module MergeSpec {
  import opened Ir
  import opened Ssa
  import opened Merge

  // Which terminators may lead to a block that is merged away

  /** Of the terminators that lead anywhere, only an indirect branch stops a merge. */
  lemma OnlyIndirectStops(t: Term)
    ensures match t
            case Br(_) => IsBranchOrSwitch(t)
            case CondBr(_, _, _) => IsBranchOrSwitch(t)
            case Switch(_, _, _) => IsBranchOrSwitch(t)
            case IndirectBr(_, _) => !IsBranchOrSwitch(t)
            case _ => Succs(t) == {}
  {
  }

  // Uses

  /** Whatever reads x reads it in a PHI's entry, an operand or a terminator. */
  lemma ReadWhere(f: Fn, x: Operand)
    ensures (exists u :: ReadsAt(f, u, x)) <==>
              exists l :: l in f.blocks &&
                ((exists p, e :: 0 <= p < |f.blocks[l].phis| && 0 <= e < |f.blocks[l].phis[p].edges| && f.blocks[l].phis[p].edges[e].val == x)
                 || (exists k :: 0 <= k < |f.blocks[l].body| && x in f.blocks[l].body[k].args)
                 || x in TermArgs(f.blocks[l].term))
  {
    if u :| ReadsAt(f, u, x) {
      var l := u.l;
      match u
      case PhiUse(_, p, e) => assert f.blocks[l].phis[p].edges[e].val == x;
      case InstrUse(_, k, a) => assert f.blocks[l].body[k].args[a] in f.blocks[l].body[k].args;
      case TermUse(_, a) => assert TermArgs(f.blocks[l].term)[a] in TermArgs(f.blocks[l].term);
    }
    if l, p, e :| l in f.blocks && 0 <= p < |f.blocks[l].phis| && 0 <= e < |f.blocks[l].phis[p].edges| && f.blocks[l].phis[p].edges[e].val == x {
      assert ReadsAt(f, PhiUse(l, p, e), x);
    }
    if l, k :| l in f.blocks && 0 <= k < |f.blocks[l].body| && x in f.blocks[l].body[k].args {
      var a :| 0 <= a < |f.blocks[l].body[k].args| && f.blocks[l].body[k].args[a] == x;
      assert ReadsAt(f, InstrUse(l, k, a), x);
    }
    if l :| l in f.blocks && x in TermArgs(f.blocks[l].term) {
      var a :| 0 <= a < |TermArgs(f.blocks[l].term)| && TermArgs(f.blocks[l].term)[a] == x;
      assert ReadsAt(f, TermUse(l, a), x);
    }
  }

  ghost predicate ReadNowhere(f: Fn, i: Id) {
    forall u :: !ReadsAt(f, u, Local(i))
  }

  /** The edge is the PHI's first entry for block l. */
  ghost predicate EntryFor(edges: seq<Edge>, l: Label, e: int) {
    0 <= e < |edges| && edges[e].from == l && forall k :: 0 <= k < e ==> edges[k].from != l
  }

  /** The value i of block l is read once: in l itself, or by a PHI of s whose entry for l it is. */
  ghost predicate ReadOnce(f: Fn, l: Label, i: Id, s: Label) {
    exists u ::
      && ReadsAt(f, u, Local(i)) && (forall v :: ReadsAt(f, v, Local(i)) ==> v == u)
      && (u.l == l
          || (u.PhiUse? && u.l == s
              && exists e :: EntryFor(f.blocks[s].phis[u.p].edges, l, e) && f.blocks[s].phis[u.p].edges[e].val == Local(i)))
  }

  /** The two values can be dropped alike. */
  ghost predicate ReadAlike(f: Fn, b1: Label, i: Id, b2: Label, j: Id, s: Label) {
    (ReadNowhere(f, i) && ReadNowhere(f, j)) || (ReadOnce(f, b1, i, s) && ReadOnce(f, b2, j, s))
  }

  // Code

  /** The positions of the instructions other than debug intrinsics, in order. */
  ghost predicate Lists(body: seq<Instr>, ps: seq<nat>) {
    && (forall j, k :: 0 <= j < k < |ps| ==> ps[j] < ps[k])
    && (forall p: nat :: p in ps <==> p < |body| && !body[p].op.Dbg?)
  }

  ghost predicate SameBodies(f: Fn, b1: Label, b2: Label, s: Label, ps: seq<nat>, qs: seq<nat>)
    requires b1 in f.blocks && b2 in f.blocks
  {
    var x, y := f.blocks[b1].body, f.blocks[b2].body;
    && Lists(x, ps) && Lists(y, qs) && |ps| == |qs|
    && forall k :: 0 <= k < |ps| ==>
         && ps[k] < |x| && qs[k] < |y|
         && x[ps[k]].op == y[qs[k]].op && x[ps[k]].ty == y[qs[k]].ty && x[ps[k]].args == y[qs[k]].args
         && ReadAlike(f, b1, x[ps[k]].id, b2, y[qs[k]].id, s)
  }

  /** PHI by PHI and instruction by instruction, leaving out debug intrinsics, the same operation on the same operands. */
  ghost predicate SameText(f: Fn, b1: Label, b2: Label, s: Label)
    requires b1 in f.blocks && b2 in f.blocks
  {
    var x, y := f.blocks[b1], f.blocks[b2];
    && |x.phis| == |y.phis|
    && (forall k :: 0 <= k < |x.phis| ==>
          && x.phis[k].ty == y.phis[k].ty && |x.phis[k].edges| == |y.phis[k].edges|
          && (forall e :: 0 <= e < |x.phis[k].edges| ==> x.phis[k].edges[e].val == y.phis[k].edges[e].val)
          && ReadAlike(f, b1, x.phis[k].id, b2, y.phis[k].id, s))
    && exists ps, qs :: SameBodies(f, b1, b2, s, ps, qs)
  }

  /** The value is the result of a PHI or an instruction of the block. */
  ghost predicate ComputedIn(b: Block, x: Operand) {
    x.Local? && ((exists k :: 0 <= k < |b.phis| && b.phis[k].id == x.id) || (exists k :: 0 <= k < |b.body| && b.body[k].id == x.id))
  }

  /** The PHI of the common successor, if there is one, has the same value for both blocks, or one computed in each. */
  ghost predicate SameResult(f: Fn, b1: Label, b2: Label, s: Label)
    requires b1 in f.blocks && b2 in f.blocks && s in f.blocks
  {
    f.blocks[s].phis != [] ==>
      var edges := f.blocks[s].phis[0].edges;
      exists e1, e2 ::
        && EntryFor(edges, b1, e1) && EntryFor(edges, b2, e2)
        && (edges[e1].val == edges[e2].val
            || (ComputedIn(f.blocks[b1], edges[e1].val) && ComputedIn(f.blocks[b2], edges[e2].val)))
  }

  /** b2 can stand in for b1. */
  ghost predicate StandIn(f: Fn, marked: set<Label>, b1: Label, b2: Label) {
    && b1 in f.blocks && b2 in f.blocks && b1 != b2
    && b1 != f.entry && b2 != f.entry && b2 !in marked
    && f.blocks[b1].term.Br? && f.blocks[b2].term == f.blocks[b1].term && f.blocks[b1].term.dest in f.blocks
    && (forall p :: p in f.blocks && f.blocks[p].term.IndirectBr? ==> b1 !in f.blocks[p].term.dests)
    && |f.blocks[f.blocks[b1].term.dest].phis| <= 1
    && SameResult(f, b1, b2, f.blocks[b1].term.dest)
    && SameText(f, b1, b2, f.blocks[b1].term.dest)
  }

  // The checks come to that

  lemma {:induction false} IncomingIs(edges: seq<Edge>, l: Label)
    ensures Incoming(edges, l).Some? <==> exists e :: EntryFor(edges, l, e)
    ensures forall e :: EntryFor(edges, l, e) ==> Incoming(edges, l) == Some(edges[e].val)
  {
    if edges != [] {
      if edges[0].from == l {
        assert EntryFor(edges, l, 0);
        assert forall e :: EntryFor(edges, l, e) ==> e == 0;
      } else {
        var rest := edges[1..];
        IncomingIs(rest, l);
        forall e
          ensures EntryFor(edges, l, e) <==> EntryFor(rest, l, e - 1)
        {
          if EntryFor(rest, l, e - 1) {
            forall k | 0 <= k < e
              ensures edges[k].from != l
            {
              assert k > 0 ==> edges[k] == rest[k - 1];
            }
          }
          if EntryFor(edges, l, e) {
            assert forall k :: 0 <= k < e - 1 ==> rest[k] == edges[k + 1];
          }
        }
        forall e | EntryFor(edges, l, e)
          ensures Incoming(edges, l) == Some(edges[e].val)
        {
          assert EntryFor(rest, l, e - 1) && edges[e] == rest[e - 1];
        }
        if e :| EntryFor(rest, l, e) {
          assert EntryFor(rest, l, (e + 1) - 1);
          assert EntryFor(edges, l, e + 1);
        }
      }
    }
  }

  lemma UsesAlike(f: Fn, b1: Label, i: Id, b2: Label, j: Id, s: Label)
    requires s in f.blocks
    ensures ReadAlike(f, b1, i, b2, j, s) <==>
              if Uses(f, i) != {}
              then HasOneUse(f, i) && HasOneUse(f, j) && CanRemoveInst(f, b1, s, i) && CanRemoveInst(f, b2, s, j)
              else Uses(f, j) == {}
  {
    NowhereIs(f, i);
    NowhereIs(f, j);
    OnceIs(f, b1, i, s);
    OnceIs(f, b2, j, s);
  }

  lemma NowhereIs(f: Fn, i: Id)
    ensures ReadNowhere(f, i) <==> Uses(f, i) == {}
  {
    if Uses(f, i) != {} {
      var u :| u in Uses(f, i);
      assert ReadsAt(f, u, Local(i));
    }
    if !ReadNowhere(f, i) {
      var u :| ReadsAt(f, u, Local(i));
      assert u in Uses(f, i);
    }
  }

  lemma OnceIs(f: Fn, l: Label, i: Id, s: Label)
    requires s in f.blocks
    ensures ReadOnce(f, l, i, s) <==> HasOneUse(f, i) && CanRemoveInst(f, l, s, i)
  {
    if ReadOnce(f, l, i, s) {
      OnceIsOneUse(f, l, i, s);
    }
    if HasOneUse(f, i) && CanRemoveInst(f, l, s, i) {
      OneUseIsOnce(f, l, i, s);
    }
  }

  lemma OnceIsOneUse(f: Fn, l: Label, i: Id, s: Label)
    requires s in f.blocks && ReadOnce(f, l, i, s)
    ensures HasOneUse(f, i) && CanRemoveInst(f, l, s, i)
  {
    var u :|
      && ReadsAt(f, u, Local(i)) && (forall v :: ReadsAt(f, v, Local(i)) ==> v == u)
      && (u.l == l
          || (u.PhiUse? && u.l == s
              && exists e :: EntryFor(f.blocks[s].phis[u.p].edges, l, e) && f.blocks[s].phis[u.p].edges[e].val == Local(i)));
    assert u in Uses(f, i) && Uses(f, i) == {u};
    if u.l != l {
      IncomingIs(f.blocks[s].phis[u.p].edges, l);
    }
  }

  lemma OneUseIsOnce(f: Fn, l: Label, i: Id, s: Label)
    requires s in f.blocks && HasOneUse(f, i) && CanRemoveInst(f, l, s, i)
    ensures ReadOnce(f, l, i, s)
  {
    var u :| u in Uses(f, i) && Uses(f, i) == {u};
    assert forall v :: ReadsAt(f, v, Local(i)) ==> v in Uses(f, i);
    if u.l != l {
      IncomingIs(f.blocks[s].phis[u.p].edges, l);
    }
  }

  function AsItems(body: seq<Instr>): seq<Item> {
    seq(|body|, k requires 0 <= k < |body| => I(body[k]))
  }

  /** A list of positions is what is left of the body without debug intrinsics. */
  lemma {:induction false} ListsIs(body: seq<Instr>, ps: seq<nat>)
    requires Lists(body, ps)
    ensures |NonDbg(AsItems(body))| == |ps|
    ensures forall k :: 0 <= k < |ps| ==> ps[k] < |body| && NonDbg(AsItems(body))[k] == I(body[ps[k]])
    decreases |body|
  {
    forall k | 0 <= k < |ps|
      ensures ps[k] < |body|
    {
      assert ps[k] in ps;
    }
    if body == [] {
      FirstIn(ps);
    } else {
      var n := |body| - 1;
      var front := body[..n];
      assert AsItems(body)[..n] == AsItems(front);
      if body[n].op.Dbg? {
        ListsFront(body, ps);
        ListsIs(front, ps);
      } else {
        LastListed(body, ps);
        ListsIs(front, ps[..|ps| - 1]);
      }
    }
  }

  lemma FirstIn(ps: seq<nat>)
    ensures |ps| > 0 ==> ps[0] in ps
  {
  }

  lemma ListsFront(body: seq<Instr>, ps: seq<nat>)
    requires Lists(body, ps) && body != [] && body[|body| - 1].op.Dbg?
    ensures Lists(body[..|body| - 1], ps)
  {
  }

  lemma NoneAbove(ps: seq<nat>, k: nat)
    requires k < |ps| && forall j, m :: 0 <= j < m < |ps| ==> ps[j] < ps[m]
    ensures ps[k] <= ps[|ps| - 1]
  {
  }

  lemma LastListed(body: seq<Instr>, ps: seq<nat>)
    requires Lists(body, ps) && body != [] && !body[|body| - 1].op.Dbg?
    ensures ps != [] && ps[|ps| - 1] == |body| - 1 && Lists(body[..|body| - 1], ps[..|ps| - 1])
  {
    var n := |body| - 1;
    assert n in ps;
    var last := |ps| - 1;
    assert ps[last] in ps;
    assert ps[last] == n by {
      var k :| 0 <= k < |ps| && ps[k] == n;
      NoneAbove(ps, k);
    }
    var rest := ps[..last];
    forall p: nat
      ensures p in rest <==> p < n && !body[p].op.Dbg?
    {
      if p in rest {
        var j :| 0 <= j < |rest| && rest[j] == p;
        assert ps[j] in ps;
      }
      if p < n && !body[p].op.Dbg? {
        assert p in ps;
        var j :| 0 <= j < |ps| && ps[j] == p;
        assert rest[j] == p;
      }
    }
  }

  lemma {:induction false} SomeList(body: seq<Instr>) returns (ps: seq<nat>)
    ensures Lists(body, ps)
    decreases |body|
  {
    if body == [] {
      ps := [];
    } else {
      var n := |body| - 1;
      ps := SomeList(body[..n]);
      forall k | 0 <= k < |ps|
        ensures ps[k] < n
      {
        assert ps[k] in ps;
      }
      if !body[n].op.Dbg? {
        var front := ps;
        ps := ps + [n];
        forall p: nat
          ensures p in ps <==> p < |body| && !body[p].op.Dbg?
        {
          assert p in ps <==> p in front || p == n;
        }
      }
    }
  }

  lemma {:induction false} NonDbgAppend(xs: seq<Item>, ys: seq<Item>)
    ensures NonDbg(xs + ys) == NonDbg(xs) + NonDbg(ys)
    decreases |ys|
  {
    if ys == [] {
      assert xs + ys == xs;
    } else {
      var front := ys[..|ys| - 1];
      NonDbgAppend(xs, front);
      assert (xs + ys)[..|xs + ys| - 1] == xs + front;
    }
  }

  lemma {:induction false} NonDbgPhis(xs: seq<Item>)
    requires forall k :: 0 <= k < |xs| ==> xs[k].P?
    ensures NonDbg(xs) == xs
    decreases |xs|
  {
    if xs != [] {
      var n := |xs| - 1;
      NonDbgPhis(xs[..n]);
      assert !IsDbg(xs[n]) && xs == xs[..n] + [xs[n]];
    }
  }

  /** The compared items: all PHIs, then the listed instructions. */
  lemma ItemsAre(b: Block, ps: seq<nat>)
    requires Lists(b.body, ps)
    ensures var xs := NonDbg(Items(b));
            && |xs| == |b.phis| + |ps|
            && (forall k :: 0 <= k < |b.phis| ==> xs[k] == P(b.phis[k]))
            && forall k :: 0 <= k < |ps| ==> ps[k] < |b.body| && xs[|b.phis| + k] == I(b.body[ps[k]])
  {
    var phis := seq(|b.phis|, k requires 0 <= k < |b.phis| => P(b.phis[k]));
    assert Items(b) == phis + AsItems(b.body);
    NonDbgAppend(phis, AsItems(b.body));
    NonDbgPhis(phis);
    ListsIs(b.body, ps);
  }

  lemma ItemAt(b: Block, ps: seq<nat>, k: nat)
    requires Lists(b.body, ps) && k < |b.phis| + |ps|
    ensures k < |NonDbg(Items(b))|
    ensures k < |b.phis| ==> NonDbg(Items(b))[k] == P(b.phis[k])
    ensures k >= |b.phis| ==> ps[k - |b.phis|] < |b.body| && NonDbg(Items(b))[k] == I(b.body[ps[k - |b.phis|]])
  {
    hide NonDbg, Items, Lists;
    ItemsAre(b, ps);
    if k >= |b.phis| {
      var j := k - |b.phis|;
      assert NonDbg(Items(b))[|b.phis| + j] == I(b.body[ps[j]]);
    }
  }

  lemma MergeablePhis(f: Fn, b1: Label, x: Phi, b2: Label, y: Phi, s: Label)
    requires s in f.blocks
    ensures CanMergeInstructions(f, b1, P(x), b2, P(y), s) <==>
              && x.ty == y.ty && |x.edges| == |y.edges|
              && (forall e :: 0 <= e < |x.edges| ==> x.edges[e].val == y.edges[e].val)
              && ReadAlike(f, b1, x.id, b2, y.id, s)
  {
    UsesAlike(f, b1, x.id, b2, y.id, s);
    if |x.edges| == |y.edges| {
      assert Operands(P(x)) == Operands(P(y)) <==> forall e :: 0 <= e < |x.edges| ==> Operands(P(x))[e] == Operands(P(y))[e];
    }
  }

  lemma MergeableInstrs(f: Fn, b1: Label, x: Instr, b2: Label, y: Instr, s: Label)
    requires s in f.blocks
    ensures CanMergeInstructions(f, b1, I(x), b2, I(y), s) <==>
              x.op == y.op && x.ty == y.ty && x.args == y.args && ReadAlike(f, b1, x.id, b2, y.id, s)
  {
    UsesAlike(f, b1, x.id, b2, y.id, s);
  }

  lemma SameTextIs(f: Fn, b1: Label, b2: Label, s: Label)
    requires b1 in f.blocks && b2 in f.blocks && s in f.blocks
    ensures SameText(f, b1, b2, s) <==> Duplicates(f, b1, b2, s)
  {
    if SameText(f, b1, b2, s) {
      TextGivesDuplicates(f, b1, b2, s);
    }
    if Duplicates(f, b1, b2, s) {
      DuplicatesGiveText(f, b1, b2, s);
    }
  }

  lemma PhiMatches(f: Fn, b1: Label, b2: Label, s: Label, k: nat)
    requires b1 in f.blocks && b2 in f.blocks && s in f.blocks && SameText(f, b1, b2, s)
    requires k < |f.blocks[b1].phis|
    ensures k < |f.blocks[b2].phis| && CanMergeInstructions(f, b1, P(f.blocks[b1].phis[k]), b2, P(f.blocks[b2].phis[k]), s)
  {
    hide CanMergeInstructions, ReadAlike, SameBodies;
    MergeablePhis(f, b1, f.blocks[b1].phis[k], b2, f.blocks[b2].phis[k], s);
  }

  lemma InstrMatches(f: Fn, b1: Label, b2: Label, s: Label, ps: seq<nat>, qs: seq<nat>, k: nat)
    requires b1 in f.blocks && b2 in f.blocks && s in f.blocks && SameBodies(f, b1, b2, s, ps, qs)
    requires k < |ps|
    ensures k < |qs| && ps[k] < |f.blocks[b1].body| && qs[k] < |f.blocks[b2].body|
    ensures CanMergeInstructions(f, b1, I(f.blocks[b1].body[ps[k]]), b2, I(f.blocks[b2].body[qs[k]]), s)
  {
    hide CanMergeInstructions, ReadAlike, Lists;
    MergeableInstrs(f, b1, f.blocks[b1].body[ps[k]], b2, f.blocks[b2].body[qs[k]], s);
  }

  lemma SidesFit(f: Fn, b1: Label, b2: Label, s: Label, ps: seq<nat>, qs: seq<nat>)
    requires b1 in f.blocks && b2 in f.blocks && SameText(f, b1, b2, s) && SameBodies(f, b1, b2, s, ps, qs)
    ensures Lists(f.blocks[b1].body, ps) && Lists(f.blocks[b2].body, qs)
    ensures |f.blocks[b1].phis| == |f.blocks[b2].phis| && |ps| == |qs|
  {
    hide ReadAlike, Lists;
  }

  /** Items match at k if the PHIs, or the listed instructions, do there. */
  lemma NthMatches(f: Fn, b1: Label, x: Block, b2: Label, y: Block, s: Label, ps: seq<nat>, qs: seq<nat>, k: nat)
    requires Lists(x.body, ps) && Lists(y.body, qs) && |x.phis| == |y.phis| && |ps| == |qs| && k < |x.phis| + |ps|
    requires k < |x.phis| ==> CanMergeInstructions(f, b1, P(x.phis[k]), b2, P(y.phis[k]), s)
    requires k >= |x.phis| ==>
               var j := k - |x.phis|;
               && ps[j] < |x.body| && qs[j] < |y.body|
               && CanMergeInstructions(f, b1, I(x.body[ps[j]]), b2, I(y.body[qs[j]]), s)
    ensures var xs, ys := NonDbg(Items(x)), NonDbg(Items(y));
            k < |xs| && k < |ys| && CanMergeInstructions(f, b1, xs[k], b2, ys[k], s)
  {
    hide CanMergeInstructions, NonDbg, Items, Lists;
    ItemAt(x, ps, k);
    ItemAt(y, qs, k);
  }

  lemma PartsMatch(f: Fn, b1: Label, b2: Label, s: Label, ps: seq<nat>, qs: seq<nat>, k: nat)
    requires b1 in f.blocks && b2 in f.blocks && s in f.blocks && SameText(f, b1, b2, s) && SameBodies(f, b1, b2, s, ps, qs)
    requires k < |f.blocks[b1].phis| + |ps|
    ensures |ps| == |qs| && |f.blocks[b1].phis| == |f.blocks[b2].phis|
    ensures k < |f.blocks[b1].phis| ==> CanMergeInstructions(f, b1, P(f.blocks[b1].phis[k]), b2, P(f.blocks[b2].phis[k]), s)
    ensures k >= |f.blocks[b1].phis| ==>
              var j := k - |f.blocks[b1].phis|;
              && ps[j] < |f.blocks[b1].body| && qs[j] < |f.blocks[b2].body|
              && CanMergeInstructions(f, b1, I(f.blocks[b1].body[ps[j]]), b2, I(f.blocks[b2].body[qs[j]]), s)
  {
    hide *;
    SidesFit(f, b1, b2, s, ps, qs);
    if k < |f.blocks[b1].phis| {
      PhiMatches(f, b1, b2, s, k);
    } else {
      InstrMatches(f, b1, b2, s, ps, qs, k - |f.blocks[b1].phis|);
    }
  }

  lemma TextMatches(f: Fn, b1: Label, b2: Label, s: Label, ps: seq<nat>, qs: seq<nat>, k: nat)
    requires b1 in f.blocks && b2 in f.blocks && s in f.blocks && SameText(f, b1, b2, s) && SameBodies(f, b1, b2, s, ps, qs)
    requires k < |f.blocks[b1].phis| + |ps|
    ensures k < |NonDbg(Items(f.blocks[b1]))| && k < |NonDbg(Items(f.blocks[b2]))|
    ensures CanMergeInstructions(f, b1, NonDbg(Items(f.blocks[b1]))[k], b2, NonDbg(Items(f.blocks[b2]))[k], s)
  {
    hide *;
    PartsMatch(f, b1, b2, s, ps, qs, k);
    SidesFit(f, b1, b2, s, ps, qs);
    NthMatches(f, b1, f.blocks[b1], b2, f.blocks[b2], s, ps, qs, k);
  }

  lemma SameLength(f: Fn, b1: Label, b2: Label, s: Label, ps: seq<nat>, qs: seq<nat>)
    requires b1 in f.blocks && b2 in f.blocks && SameText(f, b1, b2, s) && SameBodies(f, b1, b2, s, ps, qs)
    ensures |NonDbg(Items(f.blocks[b1]))| == |NonDbg(Items(f.blocks[b2]))| == |f.blocks[b1].phis| + |ps|
  {
    hide *;
    SidesFit(f, b1, b2, s, ps, qs);
    ItemsAre(f.blocks[b1], ps);
    ItemsAre(f.blocks[b2], qs);
  }

  lemma TextGivesDuplicates(f: Fn, b1: Label, b2: Label, s: Label)
    requires b1 in f.blocks && b2 in f.blocks && s in f.blocks && SameText(f, b1, b2, s)
    ensures Duplicates(f, b1, b2, s)
  {
    var ps, qs :| SameBodies(f, b1, b2, s, ps, qs);
    hide CanMergeInstructions, SameText, SameBodies, NonDbg, Items;
    SameLength(f, b1, b2, s, ps, qs);
    var xs, ys := NonDbg(Items(f.blocks[b1])), NonDbg(Items(f.blocks[b2]));
    forall k | 0 <= k < |xs|
      ensures CanMergeInstructions(f, b1, xs[k], b2, ys[k], s)
    {
      TextMatches(f, b1, b2, s, ps, qs, k);
    }
  }

  lemma SameKind(f: Fn, b1: Label, x: Item, b2: Label, y: Item, s: Label)
    requires CanMergeInstructions(f, b1, x, b2, y, s)
    ensures x.P? <==> y.P?
  {
  }

  lemma PhisFirst(b: Block, k: nat)
    requires k < |NonDbg(Items(b))|
    ensures NonDbg(Items(b))[k].P? <==> k < |b.phis|
  {
    var ps := SomeList(b.body);
    hide NonDbg, Items, Lists;
    ItemsAre(b, ps);
    if |b.phis| <= k {
      var j := k - |b.phis|;
      assert NonDbg(Items(b))[|b.phis| + j] == I(b.body[ps[j]]);
    }
  }

  lemma PhisListed(b: Block)
    ensures |b.phis| <= |NonDbg(Items(b))|
  {
    var ps := SomeList(b.body);
    hide NonDbg, Items, Lists;
    ItemsAre(b, ps);
  }

  /** PHIs are compared with PHIs only. */
  lemma SamePhiCount(f: Fn, b1: Label, b2: Label, s: Label)
    requires b1 in f.blocks && b2 in f.blocks && Duplicates(f, b1, b2, s)
    ensures |f.blocks[b1].phis| == |f.blocks[b2].phis|
  {
    var x, y := f.blocks[b1], f.blocks[b2];
    var m, n := |x.phis|, |y.phis|;
    hide CanMergeInstructions, NonDbg, Items;
    PhisListed(x);
    PhisListed(y);
    if m != n {
      var k := if m < n then m else n;
      PhisFirst(x, k);
      PhisFirst(y, k);
      SameKind(f, b1, NonDbg(Items(x))[k], b2, NonDbg(Items(y))[k], s);
    }
  }

  lemma DuplicatesGiveText(f: Fn, b1: Label, b2: Label, s: Label)
    requires b1 in f.blocks && b2 in f.blocks && s in f.blocks && Duplicates(f, b1, b2, s)
    ensures SameText(f, b1, b2, s)
  {
    var x, y := f.blocks[b1], f.blocks[b2];
    SamePhiCount(f, b1, b2, s);
    var ps := SomeList(x.body);
    var qs := SomeList(y.body);
    ItemsAre(x, ps);
    ItemsAre(y, qs);
    var xs, ys := NonDbg(Items(x)), NonDbg(Items(y));
    hide CanMergeInstructions, ReadAlike, NonDbg, Items, Lists;
    forall k | 0 <= k < |x.phis|
      ensures x.phis[k].ty == y.phis[k].ty && |x.phis[k].edges| == |y.phis[k].edges|
      ensures forall e :: 0 <= e < |x.phis[k].edges| ==> x.phis[k].edges[e].val == y.phis[k].edges[e].val
      ensures ReadAlike(f, b1, x.phis[k].id, b2, y.phis[k].id, s)
    {
      assert CanMergeInstructions(f, b1, xs[k], b2, ys[k], s);
      MergeablePhis(f, b1, x.phis[k], b2, y.phis[k], s);
    }
    forall k | 0 <= k < |ps|
      ensures x.body[ps[k]].op == y.body[qs[k]].op && x.body[ps[k]].ty == y.body[qs[k]].ty
      ensures x.body[ps[k]].args == y.body[qs[k]].args
      ensures ReadAlike(f, b1, x.body[ps[k]].id, b2, y.body[qs[k]].id, s)
    {
      assert CanMergeInstructions(f, b1, xs[|x.phis| + k], b2, ys[|x.phis| + k], s);
      MergeableInstrs(f, b1, x.body[ps[k]], b2, y.body[qs[k]], s);
    }
    assert SameBodies(f, b1, b2, s, ps, qs);
  }

  lemma SameResultIs(f: Fn, b1: Label, b2: Label, s: Label)
    requires b1 in f.blocks && b2 in f.blocks && s in f.blocks
    ensures SameResult(f, b1, b2, s) <==> EdgesMatch(f, b1, b2, s)
  {
    if f.blocks[s].phis != [] {
      var edges := f.blocks[s].phis[0].edges;
      IncomingIs(edges, b1);
      IncomingIs(edges, b2);
      if EdgesMatch(f, b1, b2, s) {
        var e1 :| EntryFor(edges, b1, e1);
        var e2 :| EntryFor(edges, b2, e2);
      }
    }
  }

  /** MergeBB's checks accept exactly the blocks that can stand in. */
  lemma QualifiesIff(f: Fn, marked: set<Label>, b1: Label, b2: Label)
    ensures Qualifies(f, marked, b1, b2) <==> StandIn(f, marked, b1, b2)
  {
    if b1 in f.blocks && f.blocks[b1].term.Br? && f.blocks[b1].term.dest in f.blocks {
      var s := f.blocks[b1].term.dest;
      forall p | p in f.blocks
        ensures (b1 in Succs(f.blocks[p].term) ==> IsBranchOrSwitch(f.blocks[p].term))
                <==> (f.blocks[p].term.IndirectBr? ==> b1 !in f.blocks[p].term.dests)
      {
        OnlyIndirectStops(f.blocks[p].term);
      }
      assert (forall p :: p in Preds(f, b1) ==> IsBranchOrSwitch(f.blocks[p].term))
             <==> (forall p :: p in f.blocks && f.blocks[p].term.IndirectBr? ==> b1 !in f.blocks[p].term.dests);
      if b2 in f.blocks {
        SameResultIs(f, b1, b2, s);
        SameTextIs(f, b1, b2, s);
        assert b2 in Preds(f, s) && f.blocks[b2].term.Br? <==> f.blocks[b2].term == f.blocks[b1].term;
      }
    }
  }
}
