/** What SimpleLICM moves: the invariant set is grown to a fixed point and its safe members are picked, in the order it is iterated. */
module LicmPass {
  import opened Ir
  import opened Semantics
  import opened Ssa
  import opened Removal
  import opened Licm

  lemma IdsAppend(list: seq<Instr>, i: Instr)
    ensures Ids(list + [i]) == Ids(list) + {i.id}
  {
    var list' := list + [i];
    assert list'[|list|] == i;
    forall x | x in Ids(list)
      ensures x in Ids(list')
    {
      var k :| 0 <= k < |list| && list[k].id == x;
      assert list'[k].id == x;
    }
  }

  // The fixed point

  /** Blocks before position bi, and the first ki instructions of that block, satisfy the rule for s. */
  ghost predicate Scanned(f: Fn, loop: Loop, s: set<Id>, bi: nat, ki: nat) {
    forall j, k :: 0 <= j < |loop.blocks| && loop.blocks[j] in f.blocks && 0 <= k < |f.blocks[loop.blocks[j]].body|
                   && (j < bi || (j == bi && k < ki))
                   && Eligible(f.blocks[loop.blocks[j]].body[k]) && OperandsInvariant(f, loop, s, f.blocks[loop.blocks[j]].body[k]) ==>
      f.blocks[loop.blocks[j]].body[k].id in s
  }

  lemma ScannedAll(f: Fn, loop: Loop, s: set<Id>)
    requires Scanned(f, loop, s, |loop.blocks|, 0)
    ensures ClosedUnderRule(f, loop, s)
  {
    forall l, k | l in loop.blocks && l in f.blocks && 0 <= k < |f.blocks[l].body|
                  && Eligible(f.blocks[l].body[k]) && OperandsInvariant(f, loop, s, f.blocks[l].body[k])
      ensures f.blocks[l].body[k].id in s
    {
      var j :| 0 <= j < |loop.blocks| && loop.blocks[j] == l;
      assert f.blocks[loop.blocks[j]].body[k] == f.blocks[l].body[k];
    }
  }

  lemma ScannedBlock(f: Fn, loop: Loop, s: set<Id>, bi: nat)
    requires bi < |loop.blocks| && loop.blocks[bi] in f.blocks
    requires Scanned(f, loop, s, bi, |f.blocks[loop.blocks[bi]].body|)
    ensures Scanned(f, loop, s, bi + 1, 0)
  {
  }

  /** Contained in every set closed under the rule. */
  ghost predicate Below(f: Fn, loop: Loop, s: set<Id>) {
    forall t: set<Id> :: ClosedUnderRule(f, loop, t) ==> s <= t
  }

  lemma BelowGrows(f: Fn, loop: Loop, s: set<Id>, l: Label, k: nat)
    requires Below(f, loop, s) && l in loop.blocks && l in f.blocks && k < |f.blocks[l].body|
    requires Eligible(f.blocks[l].body[k]) && OperandsInvariant(f, loop, s, f.blocks[l].body[k])
    ensures Below(f, loop, s + {f.blocks[l].body[k].id})
  {
    var i := f.blocks[l].body[k];
    forall t: set<Id> | ClosedUnderRule(f, loop, t)
      ensures s + {i.id} <= t
    {
      assert s <= t;
      assert OperandsInvariant(f, loop, t, i) by {
        forall a | 0 <= a < |i.args|
          ensures OperandInvariant(f, loop, t, i.args[a])
        {
          assert OperandInvariant(f, loop, s, i.args[a]);
        }
      }
    }
  }

  lemma OrderedGrows(f: Fn, loop: Loop, list: seq<Instr>, l: Label, k: nat)
    requires Ordered(f, loop, list) && l in loop.blocks && l in f.blocks && k < |f.blocks[l].body|
    requires var i := f.blocks[l].body[k];
             Eligible(i) && OperandsInvariant(f, loop, Ids(list), i) && i.id !in Ids(list)
    ensures Ordered(f, loop, list + [f.blocks[l].body[k]])
  {
    var i := f.blocks[l].body[k];
    var list' := list + [i];
    forall p, a | 0 <= p < |list'| && 0 <= a < |list'[p].args| && list'[p].args[a].Local?
      ensures list'[p].args[a].id in Ids(list'[..p])
    {
      if p < |list| {
        assert list'[..p] == list[..p];
      } else {
        assert list'[..p] == list;
        assert OperandInvariant(f, loop, Ids(list), i.args[a]);
      }
    }
    forall p, q | 0 <= p < q < |list'|
      ensures list'[p].id != list'[q].id
    {
      if q == |list| {
        assert list[p].id in Ids(list);
      }
    }
    assert FromLoop(f, loop, i);
  }

  function LoopIds(f: Fn, loop: Loop): set<Id> {
    set l, k | l in loop.blocks && l in f.blocks && 0 <= k < |f.blocks[l].body| :: f.blocks[l].body[k].id
  }

  lemma NewShrinks(all: set<Id>, s: set<Id>, i: Id)
    requires i in all && i !in s
    ensures |all - (s + {i})| < |all - s|
  {
    assert all - (s + {i}) == (all - s) - {i};
  }

  /** What one scan of the loop may assume and must keep about the set found so far. */
  ghost predicate ScanOk(f: Fn, loop: Loop, inv: seq<Instr>, start: seq<Instr>, changed: bool, bi: nat, ki: nat) {
    && Ordered(f, loop, inv)
    && Below(f, loop, Ids(inv))
    && (if changed then |LoopIds(f, loop) - Ids(inv)| < |LoopIds(f, loop) - Ids(start)|
        else inv == start && Scanned(f, loop, Ids(inv), bi, ki))
  }

  lemma ScanInsert(f: Fn, loop: Loop, inv: seq<Instr>, start: seq<Instr>, changed: bool, bi: nat, k: nat)
    requires bi < |loop.blocks| && loop.blocks[bi] in f.blocks && k < |f.blocks[loop.blocks[bi]].body|
    requires ScanOk(f, loop, inv, start, changed, bi, k)
    requires var i := f.blocks[loop.blocks[bi]].body[k];
             Eligible(i) && OperandsInvariant(f, loop, Ids(inv), i) && i.id !in Ids(inv)
    ensures ScanOk(f, loop, inv + [f.blocks[loop.blocks[bi]].body[k]], start, true, bi, k + 1)
  {
    var l := loop.blocks[bi];
    var i := f.blocks[l].body[k];
    IdsAppend(inv, i);
    OrderedGrows(f, loop, inv, l, k);
    BelowGrows(f, loop, Ids(inv), l, k);
    assert i.id in LoopIds(f, loop);
    NewShrinks(LoopIds(f, loop), Ids(inv), i.id);
  }

  lemma ScanSkip(f: Fn, loop: Loop, inv: seq<Instr>, start: seq<Instr>, changed: bool, bi: nat, k: nat)
    requires bi < |loop.blocks| && loop.blocks[bi] in f.blocks && k < |f.blocks[loop.blocks[bi]].body|
    requires (forall j, m :: 0 <= j < m < |loop.blocks| ==> loop.blocks[j] != loop.blocks[m])
    requires ScanOk(f, loop, inv, start, changed, bi, k)
    requires var i := f.blocks[loop.blocks[bi]].body[k];
             !Eligible(i) || !OperandsInvariant(f, loop, Ids(inv), i) || i.id in Ids(inv)
    ensures ScanOk(f, loop, inv, start, changed, bi, k + 1)
  {
  }

  /**
   The loop ends with the least set closed under the operand rule, whatever the order of blocks, and lists it
   so that every member needs only earlier ones.
   */
  method FindInvariants(f: Fn, loop: Loop) returns (inv: seq<Instr>)
    requires IsLoop(f, loop)
    ensures Ordered(f, loop, inv)
    ensures ClosedUnderRule(f, loop, Ids(inv))
    ensures forall t: set<Id> :: ClosedUnderRule(f, loop, t) ==> Ids(inv) <= t
  {
    inv := [];
    var changed := true;
    assert Ids([]) == {};
    while changed
      invariant Ordered(f, loop, inv) && Below(f, loop, Ids(inv))
      invariant !changed ==> ClosedUnderRule(f, loop, Ids(inv))
      decreases |LoopIds(f, loop) - Ids(inv)|, changed
    {
      inv, changed := ScanLoop(f, loop, inv);
    }
  }

  /** One pass over the loop's instructions. */
  method ScanLoop(f: Fn, loop: Loop, start: seq<Instr>) returns (inv: seq<Instr>, changed: bool)
    requires IsLoop(f, loop) && Ordered(f, loop, start) && Below(f, loop, Ids(start))
    ensures Ordered(f, loop, inv) && Below(f, loop, Ids(inv))
    ensures changed ==> |LoopIds(f, loop) - Ids(inv)| < |LoopIds(f, loop) - Ids(start)|
    ensures !changed ==> inv == start && ClosedUnderRule(f, loop, Ids(inv))
  {
    inv, changed := start, false;
    for bi := 0 to |loop.blocks|
      invariant ScanOk(f, loop, inv, start, changed, bi, 0)
    {
      assert loop.blocks[bi] in f.blocks;
      hide IsLoop, ScanOk, Scanned, Eligible, OperandsInvariant, Ids, Below, Ordered;
      var body := f.blocks[loop.blocks[bi]].body;
      for k := 0 to |body|
        invariant ScanOk(f, loop, inv, start, changed, bi, k)
      {
        var i := body[k];
        if Eligible(i) && OperandsInvariant(f, loop, Ids(inv), i) && i.id !in Ids(inv) {
          ScanInsert(f, loop, inv, start, changed, bi, k);
          inv := inv + [i];
          changed := true;
        } else {
          DistinctLoopBlocks(f, loop);
          ScanSkip(f, loop, inv, start, changed, bi, k);
        }
      }
      ScanNextBlock(f, loop, inv, start, changed, bi);
    }
    if !changed {
      ScannedAll(f, loop, Ids(inv));
    }
  }

  lemma DistinctLoopBlocks(f: Fn, loop: Loop)
    requires IsLoop(f, loop)
    ensures forall j, k :: 0 <= j < k < |loop.blocks| ==> loop.blocks[j] != loop.blocks[k]
  {
  }

  lemma ScanNextBlock(f: Fn, loop: Loop, inv: seq<Instr>, start: seq<Instr>, changed: bool, bi: nat)
    requires bi < |loop.blocks| && loop.blocks[bi] in f.blocks
    requires ScanOk(f, loop, inv, start, changed, bi, |f.blocks[loop.blocks[bi]].body|)
    ensures ScanOk(f, loop, inv, start, changed, bi + 1, 0)
  {
    if !changed {
      ScannedBlock(f, loop, Ids(inv), bi);
    }
  }

  /** The fixed point does not depend on how the loop lists its blocks. */
  lemma FixedPointUnique(f: Fn, loop: Loop, other: Loop, a: seq<Instr>, b: seq<Instr>)
    requires forall l :: l in loop.blocks <==> l in other.blocks
    requires ClosedUnderRule(f, loop, Ids(a)) && Below(f, loop, Ids(a))
    requires ClosedUnderRule(f, other, Ids(b)) && Below(f, other, Ids(b))
    ensures Ids(a) == Ids(b)
  {
    forall s: set<Id>
      ensures ClosedUnderRule(f, loop, s) <==> ClosedUnderRule(f, other, s)
    {
      SameRule(f, loop, other, s);
    }
  }

  lemma SameRule(f: Fn, loop: Loop, other: Loop, s: set<Id>)
    requires forall l :: l in loop.blocks <==> l in other.blocks
    ensures ClosedUnderRule(f, loop, s) <==> ClosedUnderRule(f, other, s)
  {
    forall i
      ensures InLoop(f, loop, i) <==> InLoop(f, other, i)
    {
    }
    forall i: Instr
      ensures OperandsInvariant(f, loop, s, i) <==> OperandsInvariant(f, other, s, i)
    {
      forall a | 0 <= a < |i.args|
        ensures OperandInvariant(f, loop, s, i.args[a]) <==> OperandInvariant(f, other, s, i.args[a])
      {
      }
    }
  }

  // Moving

  /** The members that may be executed speculatively, in the order given. */
  function SpecOnly(list: seq<Instr>): seq<Instr> {
    if list == [] then []
    else SpecOnly(list[..|list| - 1]) + if Speculatable(list[|list| - 1]) then [list[|list| - 1]] else []
  }

  /** Take instruction i out of the loop and put it in front of the preheader's terminator. */
  function MoveBefore(f: Fn, loop: Loop, ph: Label, i: Instr): Fn {
    f.(blocks := map l | l in f.blocks ::
                   if l in loop.blocks then f.blocks[l].(body := Without(f.blocks[l].body, {i.id}))
                   else if l == ph then f.blocks[l].(body := f.blocks[l].body + [i])
                   else f.blocks[l])
  }

  lemma HoistOneMore(f: Fn, loop: Loop, ph: Label, hs: seq<Instr>, i: Instr)
    requires ph !in loop.blocks
    ensures MoveBefore(HoistFn(f, loop, ph, hs), loop, ph, i) == HoistFn(f, loop, ph, hs + [i])
  {
    var p, q := MoveBefore(HoistFn(f, loop, ph, hs), loop, ph, i), HoistFn(f, loop, ph, hs + [i]);
    IdsAppend(hs, i);
    forall l | l in f.blocks
      ensures p.blocks[l] == q.blocks[l]
    {
      WithoutTwice(f.blocks[l].body, Ids(hs), {i.id});
      assert (f.blocks[l].body + hs) + [i] == f.blocks[l].body + (hs + [i]);
    }
    assert p.blocks == q.blocks;
  }

  lemma HoistNothing(f: Fn, loop: Loop, ph: Label)
    ensures HoistFn(f, loop, ph, []) == f
  {
    forall l | l in f.blocks
      ensures HoistFn(f, loop, ph, []).blocks[l] == f.blocks[l]
    {
      WithoutNone(f.blocks[l].body, Ids([]));
      assert f.blocks[l].body + [] == f.blocks[l].body;
    }
    assert HoistFn(f, loop, ph, []).blocks == f.blocks;
  }

  // When moving is right

  /** Every in-loop operand of a hoisted instruction is hoisted too. */
  ghost predicate SelfContained(hs: seq<Instr>) {
    forall p, a :: 0 <= p < |hs| && 0 <= a < |hs[p].args| && hs[p].args[a].Local? ==> hs[p].args[a].id in Ids(hs)
  }

  lemma {:induction false} SpecAt(list: seq<Instr>, p: nat) returns (q: nat)
    requires p < |SpecOnly(list)|
    ensures q < |list| && SpecOnly(list)[p] == list[q] && Speculatable(list[q])
    ensures SpecOnly(list)[..p] == SpecOnly(list[..q])
    decreases |list|
  {
    var n := |list| - 1;
    var rest := SpecOnly(list[..n]);
    if p < |rest| {
      q := SpecAt(list[..n], p);
      assert SpecOnly(list)[..p] == rest[..p];
      assert list[..n][..q] == list[..q];
    } else {
      q := n;
      assert SpecOnly(list)[..p] == rest;
    }
  }

  lemma {:induction false} SpecHas(list: seq<Instr>, q: nat)
    requires q < |list| && Speculatable(list[q])
    ensures list[q] in SpecOnly(list)
    decreases |list|
  {
    var n := |list| - 1;
    if q < n {
      SpecHas(list[..n], q);
      assert list[q] in SpecOnly(list[..n]);
    }
  }

  ghost predicate Least(f: Fn, loop: Loop, s: set<Id>) {
    ClosedUnderRule(f, loop, s) && Below(f, loop, s)
  }

  /** No member of the set that can be moved needs one that may trap. */
  ghost predicate TrapsFeedNone(f: Fn, loop: Loop, s: set<Id>) {
    forall i: Instr, j: Instr :: FromLoop(f, loop, i) && FromLoop(f, loop, j) && i.id in s && j.id in s
                                 && Speculatable(i) && Local(j.id) in i.args ==>
      Speculatable(j)
  }

  /** The same of the loop: it speaks of the least closed set, which the loop's text determines. */
  ghost predicate NoTrapFeeds(f: Fn, loop: Loop) {
    forall s: set<Id> :: Least(f, loop, s) ==> TrapsFeedNone(f, loop, s)
  }

  lemma SameLoopInstr(f: Fn, loop: Loop, i: Instr, j: Instr)
    requires Unique(f) && FromLoop(f, loop, i) && FromLoop(f, loop, j) && i.id == j.id
    ensures i == j
  {
    var l :| l in loop.blocks && l in f.blocks && i in f.blocks[l].body;
    var k :| 0 <= k < |f.blocks[l].body| && f.blocks[l].body[k] == i;
    var m :| m in loop.blocks && m in f.blocks && j in f.blocks[m].body;
    var n :| 0 <= n < |f.blocks[m].body| && f.blocks[m].body[n] == j;
    assert SiteId(f, InstrSite(l, k)) == SiteId(f, InstrSite(m, n));
  }

  lemma Members(inv: seq<Instr>, order: seq<Instr>)
    requires multiset(order) == multiset(inv)
    ensures forall i :: i in order <==> i in inv
  {
    forall i
      ensures i in order <==> i in inv
    {
      assert i in order <==> i in multiset(order);
      assert i in inv <==> i in multiset(inv);
    }
  }

  lemma MemberAt(list: seq<Instr>, i: Instr) returns (q: nat)
    requires i in list
    ensures q < |list| && list[q] == i
  {
    q :| 0 <= q < |list| && list[q] == i;
  }

  /** An operand of a member is a member of the set, whatever the order. */
  lemma OperandMember(f: Fn, loop: Loop, inv: seq<Instr>, i: Instr, a: nat) returns (j: Instr)
    requires Ordered(f, loop, inv) && i in inv && a < |i.args| && i.args[a].Local?
    ensures j in inv && j.id == i.args[a].id && FromLoop(f, loop, j)
  {
    var q := MemberAt(inv, i);
    assert inv[q].args[a].id in Ids(inv[..q]);
    var m :| 0 <= m < |inv[..q]| && inv[..q][m].id == i.args[a].id;
    j := inv[m];
  }

  lemma SelectedMember(list: seq<Instr>, i: Instr)
    ensures i in SpecOnly(list) <==> i in list && Speculatable(i)
  {
    if i in SpecOnly(list) {
      var p := MemberAt(SpecOnly(list), i);
      var q := SpecAt(list, p);
    }
    if i in list && Speculatable(i) {
      var q := MemberAt(list, i);
      SpecHas(list, q);
    }
  }

  lemma TrapsContained(f: Fn, loop: Loop, inv: seq<Instr>, order: seq<Instr>)
    requires Ordered(f, loop, inv) && multiset(order) == multiset(inv) && TrapsFeedNone(f, loop, Ids(inv))
    ensures SelfContained(SpecOnly(order))
  {
    var hs := SpecOnly(order);
    Members(inv, order);
    forall p, a | 0 <= p < |hs| && 0 <= a < |hs[p].args| && hs[p].args[a].Local?
      ensures hs[p].args[a].id in Ids(hs)
    {
      SelectedMember(order, hs[p]);
      var j := OperandMember(f, loop, inv, hs[p], a);
      assert hs[p].id in Ids(inv) && j.id in Ids(inv) && Local(j.id) in hs[p].args;
      assert FromLoop(f, loop, hs[p]);
      SelectedMember(order, j);
      var r := MemberAt(hs, j);
    }
  }

  lemma ContainedTraps(f: Fn, loop: Loop, inv: seq<Instr>, order: seq<Instr>)
    requires Unique(f) && Ordered(f, loop, inv) && multiset(order) == multiset(inv) && SelfContained(SpecOnly(order))
    ensures TrapsFeedNone(f, loop, Ids(inv))
  {
    var hs := SpecOnly(order);
    Members(inv, order);
    forall i: Instr, j: Instr | FromLoop(f, loop, i) && FromLoop(f, loop, j) && i.id in Ids(inv) && j.id in Ids(inv)
                                && Speculatable(i) && Local(j.id) in i.args
      ensures Speculatable(j)
    {
      var m :| 0 <= m < |inv| && inv[m].id == i.id;
      SameLoopInstr(f, loop, i, inv[m]);
      SelectedMember(order, i);
      var p := MemberAt(hs, i);
      var a :| 0 <= a < |i.args| && i.args[a] == Local(j.id);
      assert hs[p].args[a].id in Ids(hs);
      var r :| 0 <= r < |hs| && hs[r].id == j.id;
      SelectedMember(order, hs[r]);
      var n := MemberAt(inv, hs[r]);
      SameLoopInstr(f, loop, j, hs[r]);
    }
  }

  /** Whether what is moved needs only what is moved depends on the loop alone, not on the order of the set. */
  lemma SelfContainedIff(f: Fn, loop: Loop, inv: seq<Instr>, order: seq<Instr>)
    requires Unique(f) && Ordered(f, loop, inv) && Least(f, loop, Ids(inv)) && multiset(order) == multiset(inv)
    ensures SelfContained(SpecOnly(order)) <==> NoTrapFeeds(f, loop)
  {
    if NoTrapFeeds(f, loop) {
      TrapsContained(f, loop, inv, order);
    }
    if SelfContained(SpecOnly(order)) {
      ContainedTraps(f, loop, inv, order);
      forall s: set<Id> | Least(f, loop, s)
        ensures TrapsFeedNone(f, loop, s)
      {
        assert s <= Ids(inv) && Ids(inv) <= s;
      }
    }
  }

  /** In insertion order a self-contained selection lists operands before their users. */
  lemma InsertionOrderHoistable(f: Fn, loop: Loop, inv: seq<Instr>)
    requires Ordered(f, loop, inv) && SelfContained(SpecOnly(inv))
    ensures Hoistable(SpecOnly(inv))
  {
    var hs := SpecOnly(inv);
    forall p | 0 <= p < |hs|
      ensures Eligible(hs[p]) && Speculatable(hs[p])
    {
      var q := SpecAt(inv, p);
    }
    forall p, a | 0 <= p < |hs| && 0 <= a < |hs[p].args| && hs[p].args[a].Local?
      ensures hs[p].args[a].id in Ids(hs[..p])
    {
      OperandFirst(f, loop, inv, p, a);
    }
    assert Distinct(inv);
    SpecDistinct(inv);
  }

  lemma {:induction false} SpecDistinct(list: seq<Instr>)
    requires Distinct(list)
    ensures Distinct(SpecOnly(list))
    decreases |list|
  {
    if list != [] {
      var front := list[..|list| - 1];
      assert forall j :: 0 <= j < |front| ==> front[j] == list[j];
      SpecDistinct(front);
      forall j | 0 <= j < |SpecOnly(front)|
        ensures SpecOnly(front)[j].id != list[|list| - 1].id
      {
        var q := SpecAt(front, j);
      }
    }
  }

  lemma OperandFirst(f: Fn, loop: Loop, inv: seq<Instr>, p: nat, a: nat)
    requires Ordered(f, loop, inv) && SelfContained(SpecOnly(inv))
    requires p < |SpecOnly(inv)| && a < |SpecOnly(inv)[p].args| && SpecOnly(inv)[p].args[a].Local?
    ensures SpecOnly(inv)[p].args[a].id in Ids(SpecOnly(inv)[..p])
  {
    var hs := SpecOnly(inv);
    var i := hs[p].args[a].id;
    var q := SpecAt(inv, p);
    assert inv[q].args[a].id in Ids(inv[..q]);
    var m :| 0 <= m < |inv[..q]| && inv[..q][m].id == i;
    assert i in Ids(hs);
    var r :| 0 <= r < |hs| && hs[r].id == i;
    var m' := SpecAt(inv, r);
    assert m == m';
    SpecHas(inv[..q], m);
    var s :| 0 <= s < |SpecOnly(inv[..q])| && SpecOnly(inv[..q])[s] == inv[..q][m];
    assert hs[..p][s].id == i;
  }
}
