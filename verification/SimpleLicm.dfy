/** The SimpleLICM pass: finds the invariant set, moves its safe members to the preheader, and when that is right. */
module SimpleLicm {
  import opened Ir
  import opened Semantics
  import opened Ssa
  import opened Removal
  import opened Riv
  import opened Licm
  import opened LicmPass
  import opened LicmSsa
  import opened LicmExact
  import opened LicmRule

  // What any order of the set has in common

  lemma HoistedFromLoop(f: Fn, loop: Loop, inv: seq<Instr>, order: seq<Instr>)
    requires Ordered(f, loop, inv) && multiset(order) == multiset(inv)
    ensures forall p :: 0 <= p < |SpecOnly(order)| ==> FromLoop(f, loop, SpecOnly(order)[p])
  {
    forall p | 0 <= p < |SpecOnly(order)|
      ensures FromLoop(f, loop, SpecOnly(order)[p])
    {
      var q := SpecAt(order, p);
      assert order[q] in multiset(order);
      assert order[q] in inv;
    }
  }

  /** A list with two equal members holds that member twice. */
  lemma CountedTwice<T>(s: seq<T>, j: nat, k: nat)
    requires j < k < |s| && s[j] == s[k]
    ensures multiset(s)[s[j]] >= 2
  {
    assert s == s[..k] + [s[k]] + s[k + 1..];
    assert s[..k][j] == s[j];
    assert multiset(s) == multiset(s[..k]) + multiset{s[k]} + multiset(s[k + 1..]);
  }

  lemma CountedOnce(list: seq<Instr>, i: Instr)
    requires Distinct(list) && i in list
    ensures multiset(list)[i] == 1
  {
    var k := MemberAt(list, i);
    assert list == list[..k] + [i] + list[k + 1..];
    assert multiset(list) == multiset(list[..k]) + multiset{i} + multiset(list[k + 1..]);
    assert i !in list[..k] && i !in list[k + 1..];
  }

  lemma ReorderedDistinct(list: seq<Instr>, order: seq<Instr>)
    requires Distinct(list) && multiset(order) == multiset(list)
    ensures Distinct(order)
  {
    Members(list, order);
    forall j, k | 0 <= j < k < |order|
      ensures order[j].id != order[k].id
    {
      if order[j].id == order[k].id {
        var a := MemberAt(list, order[j]);
        var b := MemberAt(list, order[k]);
        CountedTwice(order, j, k);
        CountedOnce(list, order[j]);
      }
    }
  }

  lemma MovedDistinct(f: Fn, loop: Loop, inv: seq<Instr>, order: seq<Instr>)
    requires Ordered(f, loop, inv) && multiset(order) == multiset(inv)
    ensures Distinct(SpecOnly(order)) && forall p :: 0 <= p < |SpecOnly(order)| ==> Speculatable(SpecOnly(order)[p])
  {
    assert Distinct(inv);
    ReorderedDistinct(inv, order);
    SpecDistinct(order);
    forall p | 0 <= p < |SpecOnly(order)|
      ensures Speculatable(SpecOnly(order)[p])
    {
      var q := SpecAt(order, p);
    }
  }

  // When the pass is right

  /** Whatever the order, the pass leaves the function well formed if and only if it moves each operand before its user. */
  lemma MovedWellFormedIff(f: Fn, loop: Loop, ph: Label, inv: seq<Instr>, order: seq<Instr>)
    requires WellFormed(f) && IsLoop(f, loop) && loop.preheader == Some(ph) && Reachable(f, ph)
    requires Ordered(f, loop, inv) && multiset(order) == multiset(inv)
    ensures WellFormed(HoistFn(f, loop, ph, SpecOnly(order))) <==> OperandsFirst(SpecOnly(order))
  {
    AnyOrderSelected(f, loop, ph, inv, order);
    MovedDistinct(f, loop, inv, order);
    HoistWellFormedIff(f, loop, ph, SpecOnly(order));
  }

  /** Whatever the order, a run changes if and only if some operand is not moved before its user and the run leaves the preheader. */
  lemma MovedRunIff(f: Fn, loop: Loop, ph: Label, inv: seq<Instr>, order: seq<Instr>, inp: Input)
    requires WellFormed(f) && IsLoop(f, loop) && loop.preheader == Some(ph)
    requires Ordered(f, loop, inv) && multiset(order) == multiset(inv)
    ensures SameOn(f, HoistFn(f, loop, ph, SpecOnly(order)), inp) <==> OperandsFirst(SpecOnly(order)) || !EverLeaves(f, ph, inp)
  {
    var hs := SpecOnly(order);
    MovedDistinct(f, loop, inv, order);
    HoistedFromLoop(f, loop, inv, order);
    if EverLeaves(f, ph, inp) {
      LeftIsReached(f, ph, inp);
      AnyOrderSelected(f, loop, ph, inv, order);
      HoistRunIff(f, loop, ph, hs, inp);
    } else {
      NeverLeft(f, loop, ph, hs, inp);
    }
  }

  lemma LeftIsReached(f: Fn, ph: Label, inp: Input)
    requires Closed(f) && EverLeaves(f, ph, inp)
    ensures Reachable(f, ph)
  {
    var n: nat :| LeavesPreheader(f, ph, inp, n);
    var p := RunVisits(f, inp, n);
  }

  // What is found and moved, without naming opcodes

  /** Every value the instruction reads that another one computes is computed by one of the list. */
  ghost predicate NeedsOnly(i: Instr, list: seq<Instr>) {
    forall a :: 0 <= a < |i.args| && i.args[a].Local? ==> exists j :: j in list && j.id == i.args[a].id
  }

  /**
   The set holds loop instructions that touch nothing but their operands, and all of those that need only its
   members. Moved are those of them that never fault.
   */
  ghost predicate FoundRight(f: Fn, loop: Loop, inv: seq<Instr>, hs: seq<Instr>) {
    && (forall l, i :: l in loop.blocks && l in f.blocks && i in f.blocks[l].body ==>
          (ValueProducing(i) && WorldFree(i) && NeedsOnly(i, inv) ==> i in inv))
    && (forall i :: i in inv ==> WorldFree(i) && exists l :: l in loop.blocks && l in f.blocks && i in f.blocks[l].body)
    && (forall i :: i in hs <==> i in inv && NeverFaults(i))
  }

  /** The moved instructions stand, in order, at the end of the preheader, and nowhere in the loop; all else is as it was. */
  ghost predicate MovedRight(f: Fn, g: Fn, loop: Loop, ph: Label, hs: seq<Instr>) {
    && g.blocks.Keys == f.blocks.Keys && ph in f.blocks
    && g.blocks[ph].body == f.blocks[ph].body + hs
    && (forall l :: l in f.blocks ==> g.blocks[l].phis == f.blocks[l].phis && g.blocks[l].term == f.blocks[l].term)
    && (forall l :: l in f.blocks && l != ph && l !in loop.blocks ==> g.blocks[l].body == f.blocks[l].body)
    && (forall l, i :: l in loop.blocks && l in f.blocks ==>
          (i in g.blocks[l].body <==> i in f.blocks[l].body && !exists j :: j in hs && j.id == i.id))
  }

  lemma Found(f: Fn, loop: Loop, inv: seq<Instr>, l: Label, i: Instr)
    requires Unique(f) && IsLoop(f, loop) && Ordered(f, loop, inv) && ClosedUnderRule(f, loop, Ids(inv))
    requires l in loop.blocks && i in f.blocks[l].body && Eligible(i)
    requires NeedsOnly(i, inv)
    ensures i in inv
  {
    forall a | 0 <= a < |i.args|
      ensures OperandInvariant(f, loop, Ids(inv), i.args[a])
    {
      if i.args[a].Local? {
        var j :| j in inv && j.id == i.args[a].id;
        MemberInLoop(f, loop, inv, j);
      }
    }
    var k :| 0 <= k < |f.blocks[l].body| && f.blocks[l].body[k] == i;
    assert i.id in Ids(inv);
    var p :| 0 <= p < |inv| && inv[p].id == i.id;
    assert FromLoop(f, loop, inv[p]) && FromLoop(f, loop, i);
    SameLoopInstr(f, loop, i, inv[p]);
  }

  lemma MemberInLoop(f: Fn, loop: Loop, inv: seq<Instr>, j: Instr)
    requires Ordered(f, loop, inv) && j in inv
    ensures j.id in Ids(inv) && InLoop(f, loop, j.id)
  {
    var q := MemberAt(inv, j);
    assert FromLoop(f, loop, inv[q]);
    var l :| l in loop.blocks && l in f.blocks && j in f.blocks[l].body;
    var k :| 0 <= k < |f.blocks[l].body| && f.blocks[l].body[k] == j;
  }

  lemma FindsRight(f: Fn, loop: Loop, inv: seq<Instr>, order: seq<Instr>)
    requires Unique(f) && IsLoop(f, loop) && Ordered(f, loop, inv) && ClosedUnderRule(f, loop, Ids(inv))
    requires multiset(order) == multiset(inv)
    ensures FoundRight(f, loop, inv, SpecOnly(order))
  {
    forall l, i | l in loop.blocks && l in f.blocks && i in f.blocks[l].body
      ensures ValueProducing(i) && WorldFree(i) && NeedsOnly(i, inv) ==> i in inv
    {
      if ValueProducing(i) && WorldFree(i) && NeedsOnly(i, inv) {
        EligibleIff(i);
        Found(f, loop, inv, l, i);
      }
    }
    Members(inv, order);
    forall i | i in inv
      ensures WorldFree(i) && Eligible(i) && exists l :: l in loop.blocks && l in f.blocks && i in f.blocks[l].body
    {
      var q := MemberAt(inv, i);
      assert FromLoop(f, loop, inv[q]) && Eligible(inv[q]);
      EligibleIff(i);
    }
    forall i
      ensures i in SpecOnly(order) <==> i in inv && NeverFaults(i)
    {
      SelectedMember(order, i);
      if i in inv {
        SpeculatableIff(i);
      }
    }
  }

  lemma IdsOf(hs: seq<Instr>, x: Id)
    ensures x in Ids(hs) <==> exists j :: j in hs && j.id == x
  {
    if j :| j in hs && j.id == x {
      var k := MemberAt(hs, j);
    }
  }

  lemma MovesRight(f: Fn, loop: Loop, ph: Label, hs: seq<Instr>)
    requires IsLoop(f, loop) && loop.preheader == Some(ph)
    ensures MovedRight(f, HoistFn(f, loop, ph, hs), loop, ph, hs)
  {
    var g := HoistFn(f, loop, ph, hs);
    forall l, i: Instr | l in loop.blocks && l in f.blocks
      ensures i in g.blocks[l].body <==> i in f.blocks[l].body && !exists j :: j in hs && j.id == i.id
    {
      WithoutIn(f.blocks[l].body, Ids(hs));
      IdsOf(hs, i.id);
    }
  }

  // The pass

  class SimpleLICM {
    var fn: Fn

    constructor (f: Fn)
      ensures fn == f
    {
      fn := f;
    }

    /**
     Hoists the safe invariant instructions in the order the set is iterated in. The function stays well formed if and
     only if each hoisted instruction needs only instructions hoisted before it, and if one does not, exactly the runs
     that leave the preheader change. In insertion order each does if in the loop no invariant instruction that can be
     moved needs one that may trap.
     */
    method Run(loop: Loop, iterate: seq<Instr> -> seq<Instr>) returns (inv: seq<Instr>, hs: seq<Instr>)
      requires WellFormed(fn) && IsLoop(fn, loop)
      requires forall s :: multiset(iterate(s)) == multiset(s)
      modifies this
      ensures loop.preheader.None? ==> fn == old(fn) && hs == []
      ensures loop.preheader.Some? ==>
                && Ordered(old(fn), loop, inv) && ClosedUnderRule(old(fn), loop, Ids(inv)) && Below(old(fn), loop, Ids(inv))
                && hs == SpecOnly(iterate(inv))
                && fn == HoistFn(old(fn), loop, loop.preheader.value, hs)
      ensures loop.preheader.Some? ==>
                FoundRight(old(fn), loop, inv, hs) && MovedRight(old(fn), fn, loop, loop.preheader.value, hs)
      ensures Hoistable(hs) ==> SameBehaviour(old(fn), fn)
      ensures loop.preheader.Some? ==> forall inp: Input ::
                SameOn(old(fn), fn, inp) <==> OperandsFirst(hs) || !EverLeaves(old(fn), loop.preheader.value, inp)
      ensures loop.preheader.Some? && Reachable(old(fn), loop.preheader.value) ==> (WellFormed(fn) <==> OperandsFirst(hs))
      ensures loop.preheader.Some? && NoTrapFeeds(old(fn), loop) && iterate(inv) == inv ==> Hoistable(hs)
    {
      inv, hs := [], [];
      ghost var f := fn;
      SameBehaviourReflexive(f);
      if loop.preheader.None? {
        return;
      }
      var ph := loop.preheader.value;
      inv := FindInvariants(fn, loop);
      var order := iterate(inv);
      HoistNothing(f, loop, ph);
      assert order[..0] == [];
      for p := 0 to |order|
        invariant hs == SpecOnly(order[..p])
        invariant fn == HoistFn(f, loop, ph, hs)
      {
        assert order[..p + 1][..p] == order[..p];
        if Speculatable(order[p]) {
          HoistOneMore(f, loop, ph, hs, order[p]);
          fn := MoveBefore(fn, loop, ph, order[p]);
          hs := hs + [order[p]];
        }
      }
      assert order[..|order|] == order;
      HoistedFromLoop(f, loop, inv, order);
      FindsRight(f, loop, inv, order);
      MovesRight(f, loop, ph, hs);
      hide FoundRight, MovedRight, OperandsFirst, EverLeaves, SameOn;
      if NoTrapFeeds(f, loop) && order == inv {
        SelfContainedIff(f, loop, inv, inv);
        InsertionOrderHoistable(f, loop, inv);
      }
      if Hoistable(hs) {
        HoistSameBehaviour(f, loop, ph, hs);
      }
      forall inp: Input
        ensures SameOn(f, fn, inp) <==> OperandsFirst(hs) || !EverLeaves(f, ph, inp)
      {
        MovedRunIff(f, loop, ph, inv, order, inp);
      }
      if Reachable(f, ph) {
        MovedWellFormedIff(f, loop, ph, inv, order);
      }
    }
  }
}
