/**
 The MergeBB pass: for each block looks for a duplicate with a lockstep reverse scan, redirects the block's
 edges to it, and finally deletes the blocks nobody jumps to any more.
 */
module MergeBBPass {
  import opened Ir
  import opened Semantics
  import opened Ssa
  import opened Merge
  import opened MergeFacts
  import opened MergeSim
  import opened MergeDelete
  import opened MergeSpec
  import opened MergeSsa

  // The lockstep scan

  lemma {:induction false} NonDbgAt(xs: seq<Item>, p: nat)
    requires p < |xs| && !IsDbg(xs[p])
    ensures |NonDbg(xs[..p])| < |NonDbg(xs)| && NonDbg(xs)[|NonDbg(xs[..p])|] == xs[p]
    decreases |xs|
  {
    var rest := xs[..|xs| - 1];
    if p < |xs| - 1 {
      NonDbgAt(rest, p);
      assert rest[..p] == xs[..p];
    }
  }

  /** The last non-debug item before `from`, or -1. */
  method PrevNonDbg(xs: seq<Item>, from: nat) returns (p: int)
    requires from <= |xs|
    ensures -1 <= p < from
    ensures p == -1 ==> NonDbg(xs[..from]) == []
    ensures p >= 0 ==> !IsDbg(xs[p]) && |NonDbg(xs[..from])| == |NonDbg(xs[..p])| + 1
  {
    p := from - 1;
    assert p >= 0 ==> xs[..p + 1][..p] == xs[..p];
    while p >= 0 && IsDbg(xs[p])
      invariant -1 <= p < from
      invariant NonDbg(xs[..p + 1]) == NonDbg(xs[..from])
    {
      assert xs[..p + 1][..p] == xs[..p];
      p := p - 1;
    }
    if p >= 0 {
      assert xs[..p + 1][..p] == xs[..p];
    }
  }

  class LockstepReverseIterator {
    const items1: seq<Item>
    const items2: seq<Item>
    var pos1: int
    var pos2: int
    var fail: bool

    /** Both positions hold non-debug items, equally far from the ends of their blocks. */
    ghost predicate Valid()
      reads this
    {
      !fail ==>
        && 0 <= pos1 < |items1| && !IsDbg(items1[pos1])
        && 0 <= pos2 < |items2| && !IsDbg(items2[pos2])
        && |NonDbg(items1)| - |NonDbg(items1[..pos1])| == |NonDbg(items2)| - |NonDbg(items2[..pos2])|
    }

    /** How many non-debug items precede the position in the first block. */
    ghost function Rank1(): nat
      requires Valid() && !fail
      reads this
    {
      |NonDbg(items1[..pos1])|
    }

    /** How many precede it in the second. */
    ghost function Rank2(): nat
      requires Valid() && !fail
      reads this
    {
      |NonDbg(items2[..pos2])|
    }

    constructor (b1: Block, b2: Block)
      ensures Valid() && items1 == Items(b1) && items2 == Items(b2)
      ensures fail <==> NonDbg(items1) == [] || NonDbg(items2) == []
      ensures !fail ==> Rank1() == |NonDbg(items1)| - 1 && Rank2() == |NonDbg(items2)| - 1
    {
      items1, items2 := Items(b1), Items(b2);
      var p1 := PrevNonDbg(Items(b1), |Items(b1)|);
      var p2 := PrevNonDbg(Items(b2), |Items(b2)|);
      pos1, pos2 := p1, p2;
      fail := p1 == -1 || p2 == -1;
      assert Items(b1)[..|Items(b1)|] == Items(b1) && Items(b2)[..|Items(b2)|] == Items(b2);
    }

    /** One step back in both blocks; the scan fails, that is, ends, when a block has no earlier item. */
    method Decrement()
      requires Valid()
      modifies this
      ensures Valid()
      ensures old(fail) ==> fail
      ensures !old(fail) ==> (fail <==> old(Rank1()) == 0 || old(Rank2()) == 0)
      ensures !fail ==> Rank1() == old(Rank1()) - 1 && Rank2() == old(Rank2()) - 1
    {
      if fail {
        return;
      }
      var p1 := PrevNonDbg(items1, pos1);
      pos1 := p1;
      if p1 == -1 {
        fail := true;
        return;
      }
      var p2 := PrevNonDbg(items2, pos2);
      pos2 := p2;
      fail := p2 == -1;
    }
  }

  method GetNumNonDbgInstr(b: Block) returns (count: nat)
    ensures count == |NonDbg(Items(b))| + 1
  {
    var xs := Items(b);
    count := 0;
    for k := 0 to |xs|
      invariant count == |NonDbg(xs[..k])|
    {
      assert xs[..k + 1][..k] == xs[..k];
      if !IsDbg(xs[k]) {
        count := count + 1;
      }
    }
    assert xs[..|xs|] == xs;
    count := count + 1;  // the terminator
  }

  /** For equal counts the scan ends invalid exactly when all aligned pairs are mergeable, wherever debug intrinsics stand. */
  method AllMergeable(f: Fn, b1: Label, b2: Label, succ: Label) returns (same: bool)
    requires b1 in f.blocks && b2 in f.blocks
    requires |NonDbg(Items(f.blocks[b1]))| == |NonDbg(Items(f.blocks[b2]))|
    ensures same <==> Duplicates(f, b1, b2, succ)
  {
    hide CanMergeInstructions, NonDbg, Items;
    var lri := new LockstepReverseIterator(f.blocks[b1], f.blocks[b2]);
    ghost var xs, ys := NonDbg(Items(f.blocks[b1])), NonDbg(Items(f.blocks[b2]));
    if !lri.fail {
      NonDbgAt(lri.items1, lri.pos1);
      NonDbgAt(lri.items2, lri.pos2);
    }
    while !lri.fail && CanMergeInstructions(f, b1, lri.items1[lri.pos1], b2, lri.items2[lri.pos2], succ)
      invariant lri.Valid() && lri.items1 == Items(f.blocks[b1]) && lri.items2 == Items(f.blocks[b2])
      invariant !lri.fail ==>
                  && lri.Rank1() == lri.Rank2() < |xs|
                  && lri.items1[lri.pos1] == xs[lri.Rank1()] && lri.items2[lri.pos2] == ys[lri.Rank1()]
      invariant forall k :: (if lri.fail then 0 else lri.Rank1() + 1) <= k < |xs| ==> CanMergeInstructions(f, b1, xs[k], b2, ys[k], succ)
      decreases if lri.fail then 0 else lri.Rank1() + 1
    {
      lri.Decrement();
      if !lri.fail {
        NonDbgAt(lri.items1, lri.pos1);
        NonDbgAt(lri.items2, lri.pos2);
      }
    }
    same := lri.fail;
  }

  // What redirecting keeps

  lemma RetargetNoop(t: Term, b1: Label, b2: Label)
    requires b1 !in Succs(t)
    ensures Retarget(t, b1, b2) == t
  {
    if t.Switch? {
      assert RetargetCases(t.cases, b1, b2) == t.cases;
    }
  }

  /** The number of operands of a terminator that name block b. */
  function TargetCount(t: Term, b: Label): nat {
    match t
    case Br(d) => if d == b then 1 else 0
    case CondBr(_, x, y) => (if x == b then 1 else 0) + if y == b then 1 else 0
    case Switch(_, d, cases) => (if d == b then 1 else 0) + CaseCount(cases, b)
    case _ => 0
  }

  function CaseCount(cases: seq<Case>, b: Label): nat {
    if cases == [] then 0 else (if cases[0].dest == b then 1 else 0) + CaseCount(cases[1..], b)
  }

  lemma {:induction false} CaseCountPositive(cases: seq<Case>, b: Label)
    ensures CaseCount(cases, b) > 0 <==> exists k :: 0 <= k < |cases| && cases[k].dest == b
    decreases |cases|
  {
    if cases != [] {
      CaseCountPositive(cases[1..], b);
      if k :| 0 <= k < |cases| && cases[k].dest == b {
        if k > 0 {
          assert cases[1..][k - 1].dest == b;
        }
      }
      if k :| 0 <= k < |cases[1..]| && cases[1..][k].dest == b {
        assert cases[k + 1].dest == b;
      }
    }
  }

  lemma TargetCountPositive(t: Term, b: Label)
    requires IsBranchOrSwitch(t)
    ensures TargetCount(t, b) > 0 <==> b in Succs(t)
  {
    if t.Switch? {
      CaseCountPositive(t.cases, b);
    }
  }

  // The merges of a run

  datatype MergeStep = MergeStep(erased: Label, retained: Label)

  function Erased(ms: seq<MergeStep>): set<Label> {
    set k | 0 <= k < |ms| :: ms[k].erased
  }

  /** Where the chain of merges starting at l ends. */
  function Survivor(ms: seq<MergeStep>, l: Label): Label {
    if ms == [] then l
    else Switch1(Survivor(ms[..|ms| - 1], l), ms[|ms| - 1].erased, ms[|ms| - 1].retained)
  }

  /** A block is never merged into one that is already gone. */
  ghost predicate Acyclic(ms: seq<MergeStep>) {
    && (forall j, k :: 0 <= j <= k < |ms| ==> ms[k].retained != ms[j].erased)
    && (forall j, k :: 0 <= j < k < |ms| ==> ms[k].erased != ms[j].erased)
  }

  /** The same non-debug PHIs and instructions on the same operands, wherever the PHIs take them from. */
  ghost predicate LooksLike(a: Block, b: Block) {
    var xs, ys := NonDbg(Items(a)), NonDbg(Items(b));
    && |xs| == |ys|
    && forall k :: 0 <= k < |xs| ==> SameOperation(xs[k], ys[k]) && Operands(xs[k]) == Operands(ys[k])
  }

  /** Blocks that look alike and leave the same way. */
  ghost predicate SameCode(f: Fn, a: Label, b: Label) {
    && a in f.blocks && b in f.blocks
    && f.blocks[a].term == f.blocks[b].term
    && LooksLike(f.blocks[a], f.blocks[b])
  }

  lemma LooksLikeTransitive(a: Block, b: Block, c: Block)
    requires LooksLike(a, b) && LooksLike(b, c)
    ensures LooksLike(a, c)
  {
    var xs, ys, zs := NonDbg(Items(a)), NonDbg(Items(b)), NonDbg(Items(c));
    forall k | 0 <= k < |xs|
      ensures SameOperation(xs[k], zs[k]) && Operands(xs[k]) == Operands(zs[k])
    {
      assert SameOperation(xs[k], ys[k]) && SameOperation(ys[k], zs[k]);
    }
  }

  lemma LooksLikePhis(a: Block, b: Block)
    requires LooksLike(a, b)
    ensures |a.phis| == |b.phis|
  {
    BlockItems(a);
    BlockItems(b);
    var xs, ys := NonDbg(Items(a)), NonDbg(Items(b));
    var q := if |a.phis| < |b.phis| then |a.phis| else |b.phis|;
    assert q < |xs| && q < |ys| ==> SameOperation(xs[q], ys[q]);
  }

  lemma SameCodeTransitive(f: Fn, a: Label, b: Label, c: Label)
    requires SameCode(f, a, b) && SameCode(f, b, c)
    ensures SameCode(f, a, c)
  {
    LooksLikeTransitive(f.blocks[a], f.blocks[b], f.blocks[c]);
  }

  lemma SameCodeKept(f: Fn, a: Label, b: Label, b1: Label, b2: Label)
    requires SameCode(f, a, b)
    ensures SameCode(Redirect(f, b1, b2), a, b)
  {
    var g := Redirect(f, b1, b2);
    assert Items(g.blocks[a]) == Items(f.blocks[a]) && Items(g.blocks[b]) == Items(f.blocks[b]);
  }

  lemma QualifiesSameCode(f: Fn, dl: set<Label>, b1: Label, b2: Label)
    requires Qualifies(f, dl, b1, b2)
    ensures SameCode(f, b1, b2)
  {
    var succ := f.blocks[b1].term.dest;
    var xs, ys := NonDbg(Items(f.blocks[b1])), NonDbg(Items(f.blocks[b2]));
    forall k | 0 <= k < |xs|
      ensures SameOperation(xs[k], ys[k]) && Operands(xs[k]) == Operands(ys[k])
    {
      assert CanMergeInstructions(f, b1, xs[k], b2, ys[k], succ);
    }
  }

  /** Every erased block leads along its merges to a surviving block with the same code. */
  ghost predicate ChainsOk(f: Fn, ms: seq<MergeStep>) {
    && Acyclic(ms)
    && forall l :: l in Erased(ms) ==> Survivor(ms, l) !in Erased(ms) && SameCode(f, l, Survivor(ms, l))
  }

  lemma ErasedAppend(ms: seq<MergeStep>, m: MergeStep)
    ensures Erased(ms + [m]) == Erased(ms) + {m.erased}
  {
    var ms' := ms + [m];
    forall l | l in Erased(ms) + {m.erased}
      ensures l in Erased(ms')
    {
      if l == m.erased {
        assert ms'[|ms|].erased == l;
      } else {
        var k :| 0 <= k < |ms| && ms[k].erased == l;
        assert ms'[k].erased == l;
      }
    }
  }

  lemma {:induction false} NotErasedStays(ms: seq<MergeStep>, l: Label)
    requires l !in Erased(ms)
    ensures Survivor(ms, l) == l
  {
    if ms != [] {
      var rest := ms[..|ms| - 1];
      assert ms == rest + [ms[|ms| - 1]];
      ErasedAppend(rest, ms[|ms| - 1]);
      NotErasedStays(rest, l);
    }
  }

  lemma ChainsGrow(f: Fn, ms: seq<MergeStep>, b1: Label, b2: Label)
    requires ChainsOk(f, ms) && Qualifies(f, Erased(ms), b1, b2) && b1 !in Erased(ms)
    ensures ChainsOk(Redirect(f, b1, b2), ms + [MergeStep(b1, b2)])
  {
    var m := MergeStep(b1, b2);
    ErasedAppend(ms, m);
    QualifiesSameCode(f, Erased(ms), b1, b2);
    AcyclicGrows(f, ms, b1, b2);
    hide Qualifies, SameCode, Redirect, Acyclic, Survivor;
    forall l | l in Erased(ms + [m])
      ensures Survivor(ms + [m], l) !in Erased(ms) + {b1} && SameCode(Redirect(f, b1, b2), l, Survivor(ms + [m], l))
    {
      SurvivorNext(f, ms, b1, b2, l);
    }
  }

  lemma AcyclicGrows(f: Fn, ms: seq<MergeStep>, b1: Label, b2: Label)
    requires Acyclic(ms) && Qualifies(f, Erased(ms), b1, b2) && b1 !in Erased(ms)
    ensures Acyclic(ms + [MergeStep(b1, b2)])
  {
    assert forall k :: 0 <= k < |ms| ==> ms[k].erased in Erased(ms);
  }

  /** Where a block leads to after one more merge. */
  lemma SurvivorNext(f: Fn, ms: seq<MergeStep>, b1: Label, b2: Label, l: Label)
    requires ChainsOk(f, ms) && SameCode(f, b1, b2) && b1 != b2 && b2 !in Erased(ms) && b1 !in Erased(ms)
    requires l in Erased(ms) || l == b1
    ensures var ms' := ms + [MergeStep(b1, b2)];
            Survivor(ms', l) !in Erased(ms) + {b1} && SameCode(Redirect(f, b1, b2), l, Survivor(ms', l))
  {
    var ms' := ms + [MergeStep(b1, b2)];
    assert ms'[..|ms'| - 1] == ms;
    var s := Survivor(ms, l);
    assert Survivor(ms', l) == Switch1(s, b1, b2);
    hide Survivor, SameCode, Redirect, Acyclic;
    if l !in Erased(ms) {
      NotErasedStays(ms, l);
      SameCodeKept(f, b1, b2, b1, b2);
    } else if s == b1 {
      SameCodeTransitive(f, l, b1, b2);
      SameCodeKept(f, l, b2, b1, b2);
    } else {
      SameCodeKept(f, l, s, b1, b2);
    }
  }

  /** Redirecting changes terminators only. */
  ghost predicate SameBlocks(f: Fn, g: Fn) {
    && f.entry == g.entry && f.blocks.Keys == g.blocks.Keys
    && forall l :: l in f.blocks ==> g.blocks[l].phis == f.blocks[l].phis && g.blocks[l].body == f.blocks[l].body
  }

  // When a run keeps meaning

  /** The function after the merges. */
  function AfterMerges(f: Fn, ms: seq<MergeStep>): Fn {
    if ms == [] then f
    else
      var m := ms[|ms| - 1];
      Redirect(AfterMerges(f, ms[..|ms| - 1]), m.erased, m.retained)
  }

  /** At each merge, whoever entered the erased block entered the retained one with the same PHI entries. */
  ghost predicate AllMatch(f: Fn, ms: seq<MergeStep>) {
    ms != [] ==>
      var front, m := ms[..|ms| - 1], ms[|ms| - 1];
      AllMatch(f, front) && EntriesMatch(AfterMerges(f, front), m.erased, m.retained)
  }

  /** Blocks that end in a plain branch and look alike are entered alike. */
  ghost predicate LookAlikesMatch(f: Fn, erased: set<Label>) {
    forall a, b :: a in f.blocks && b in f.blocks && a != b && a !in erased && b !in erased
                   && f.blocks[a].term.Br? && f.blocks[b].term.Br? && LooksLike(f.blocks[a], f.blocks[b])
                   ==> EntriesMatch(f, a, b)
  }

  lemma LooksLikeKept(f: Fn, x: Label, y: Label, a: Label, b: Label)
    requires a in f.blocks && b in f.blocks
    ensures LooksLike(Redirect(f, x, y).blocks[a], Redirect(f, x, y).blocks[b]) <==> LooksLike(f.blocks[a], f.blocks[b])
    ensures Redirect(f, x, y).blocks[a].term.Br? <==> f.blocks[a].term.Br?
  {
    var g := Redirect(f, x, y);
    assert Items(g.blocks[a]) == Items(f.blocks[a]) && Items(g.blocks[b]) == Items(f.blocks[b]);
  }

  /** A block that enters b1 after the merge, directly or instead of the erased block. */
  lemma EntryKept(f: Fn, x: Label, y: Label, a: Label, b: Label, p: Label)
    requires Candidate(f, x) && x != y && a != x && b != x && a in f.blocks && b in f.blocks && x in f.blocks && y in f.blocks
    requires EntriesMatch(f, a, b)
    requires a == y ==> EntriesMatch(f, x, y) && EntriesMatch(f, x, b) && |f.blocks[x].phis| == |f.blocks[y].phis|
    requires p in Preds(Redirect(f, x, y), a)
    ensures EntryMatches(Redirect(f, x, y), a, b, p)
  {
    var g := Redirect(f, x, y);
    RedirectEdges(f, x, y, p, a);
    RedirectEdges(f, x, y, p, b);
    assert IsEdge(f, p, a) ==> p in Preds(f, a) && EntryMatches(f, a, b, p);
    assert !IsEdge(f, p, a) ==> p in Preds(f, x) && EntryMatches(f, x, y, p) && EntryMatches(f, x, b, p);
    forall k | 0 <= k < |f.blocks[a].phis|
      ensures SameEntry(g.blocks[a], g.blocks[b], p, k)
    {
      if IsEdge(f, p, a) {
        assert SameEntry(f.blocks[a], f.blocks[b], p, k);
      } else {
        assert SameEntry(f.blocks[x], f.blocks[y], p, k) && SameEntry(f.blocks[x], f.blocks[b], p, k);
      }
    }
  }

  lemma LookAlikesKept(f: Fn, erased: set<Label>, x: Label, y: Label)
    requires LookAlikesMatch(f, erased) && Qualifies(f, erased, x, y) && x !in erased
    ensures EntriesMatch(f, x, y) && LookAlikesMatch(Redirect(f, x, y), erased + {x})
  {
    var g := Redirect(f, x, y);
    QualifiesSameCode(f, erased, x, y);
    LooksLikePhis(f.blocks[x], f.blocks[y]);
    assert EntriesMatch(f, x, y);
    assert Candidate(f, x) && x != y;
    hide Qualifies, LooksLike, Redirect, EntriesMatch, Candidate;
    forall a, b | a in g.blocks && b in g.blocks && a != b && a !in erased + {x} && b !in erased + {x}
                  && g.blocks[a].term.Br? && g.blocks[b].term.Br? && LooksLike(g.blocks[a], g.blocks[b])
      ensures EntriesMatch(g, a, b)
    {
      RedirectKeys(f, x, y);
      LooksLikeKept(f, x, y, a, b);
      LooksLikeKept(f, x, y, b, a);
      PairKept(f, erased, x, y, a, b);
    }
  }

  lemma RedirectKeys(f: Fn, b1: Label, b2: Label)
    ensures Redirect(f, b1, b2).blocks.Keys == f.blocks.Keys
  {
  }

  lemma PairKept(f: Fn, erased: set<Label>, x: Label, y: Label, a: Label, b: Label)
    requires LookAlikesMatch(f, erased) && SameCode(f, x, y) && f.blocks[x].term.Br? && Candidate(f, x)
    requires x != y && x !in erased && y !in erased && a != b && a !in erased + {x} && b !in erased + {x}
    requires a in f.blocks && b in f.blocks && f.blocks[a].term.Br? && f.blocks[b].term.Br? && LooksLike(f.blocks[a], f.blocks[b])
    ensures EntriesMatch(Redirect(f, x, y), a, b)
  {
    assert EntriesMatch(f, a, b) && EntriesMatch(f, x, y);
    LooksLikePhis(f.blocks[x], f.blocks[y]);
    if a == y {
      LooksLikeTransitive(f.blocks[x], f.blocks[y], f.blocks[b]);
      assert EntriesMatch(f, x, b);
    }
    hide LookAlikesMatch, LooksLike, EntriesMatch, Candidate, Redirect, EntryMatches;
    forall p | p in Preds(Redirect(f, x, y), a)
      ensures EntryMatches(Redirect(f, x, y), a, b, p)
    {
      EntryKept(f, x, y, a, b, p);
    }
    EntriesMatchAll(Redirect(f, x, y), a, b);
  }

  lemma EntriesMatchAll(f: Fn, b1: Label, b2: Label)
    requires forall p :: p in Preds(f, b1) ==> EntryMatches(f, b1, b2, p)
    ensures EntriesMatch(f, b1, b2)
  {
  }

  /** Blocks without PHIs always match. */
  lemma {:induction false} PhiFreeMatch(f: Fn, ms: seq<MergeStep>)
    requires forall k :: 0 <= k < |ms| ==> ms[k].erased in f.blocks && ms[k].retained in f.blocks && f.blocks[ms[k].erased].phis == []
    ensures AllMatch(f, ms) && SameBlocks(f, AfterMerges(f, ms))
  {
    if ms != [] {
      PhiFreeMatch(f, ms[..|ms| - 1]);
    }
  }

  /** What the run keeps about the merges done so far. */
  ghost predicate RunOk(f: Fn, fn: Fn, ms: seq<MergeStep>) {
    && MergeReady(fn) && SameBlocks(f, fn)
    && Abandoned(fn, Erased(ms)) && ChainsOk(fn, ms)
    && f.entry !in Erased(ms)
    && (forall k :: 0 <= k < |ms| ==> ms[k].erased in f.blocks && ms[k].retained in f.blocks)
    && MeaningOk(f, fn, ms)
  }

  ghost predicate MeaningOk(f: Fn, fn: Fn, ms: seq<MergeStep>) {
    && (AllMatch(f, ms) ==> SameBehaviour(f, fn) && (WellFormed(f) ==> LiveOk(fn, Erased(ms))))
    && (LookAlikesMatch(f, {}) ==> AllMatch(f, ms) && LookAlikesMatch(fn, Erased(ms)))
  }

  lemma MeaningGrows(f: Fn, ms: seq<MergeStep>, b1: Label, b2: Label)
    requires var fn := AfterMerges(f, ms); MeaningOk(f, fn, ms) && MergeReady(fn) && Qualifies(fn, Erased(ms), b1, b2) && b1 !in Erased(ms)
    ensures MeaningOk(f, Redirect(AfterMerges(f, ms), b1, b2), ms + [MergeStep(b1, b2)])
  {
    var fn, ms' := AfterMerges(f, ms), ms + [MergeStep(b1, b2)];
    assert ms'[..|ms'| - 1] == ms;
    ErasedAppend(ms, MergeStep(b1, b2));
    assert Mergeable(fn, b1, b2) && b2 !in Erased(ms);
    hide SameBehaviour, Redirect, Mergeable, LiveOk, LookAlikesMatch, EntriesMatch, WellFormed, MergeReady, Erased;
    if LookAlikesMatch(f, {}) {
      LookAlikesKept(fn, Erased(ms), b1, b2);
    }
    hide Qualifies;
    if AllMatch(f, ms') {
      MergeSameBehaviour(fn, b1, b2);
      SameBehaviourTransitive(f, fn, Redirect(fn, b1, b2));
      if WellFormed(f) {
        LiveOkGrows(fn, Erased(ms), b1, b2);
      }
    }
  }

  lemma RunGrows(f: Fn, ms: seq<MergeStep>, b1: Label, b2: Label)
    requires RunOk(f, AfterMerges(f, ms), ms) && Qualifies(AfterMerges(f, ms), Erased(ms), b1, b2) && b1 !in Erased(ms)
    ensures RunOk(f, Redirect(AfterMerges(f, ms), b1, b2), ms + [MergeStep(b1, b2)])
    ensures Erased(ms + [MergeStep(b1, b2)]) == Erased(ms) + {b1}
  {
    hide AfterMerges, Qualifies, Erased, Redirect, MergeReady, Abandoned, MeaningOk, ChainsOk, Mergeable;
    var fn, ms' := AfterMerges(f, ms), ms + [MergeStep(b1, b2)];
    ErasedAppend(ms, MergeStep(b1, b2));
    MergeableIn(fn, Erased(ms), b1, b2);
    QualifiesLabels(fn, Erased(ms), b1, b2);
    RedirectReady(fn, b1, b2);
    AbandonedGrows(fn, Erased(ms), b1, b2);
    MeaningGrows(f, ms, b1, b2);
    ChainsGrow(fn, ms, b1, b2);
    BlocksKept(f, fn, b1, b2);
  }

  lemma MergeableIn(f: Fn, erased: set<Label>, b1: Label, b2: Label)
    requires MergeReady(f) && Qualifies(f, erased, b1, b2)
    ensures Mergeable(f, b1, b2)
  {
  }

  lemma QualifiesLabels(f: Fn, erased: set<Label>, b1: Label, b2: Label)
    requires Qualifies(f, erased, b1, b2)
    ensures b1 in f.blocks && b2 in f.blocks && b1 != f.entry
  {
  }

  lemma BlocksKept(f: Fn, fn: Fn, b1: Label, b2: Label)
    requires SameBlocks(f, fn)
    ensures SameBlocks(f, Redirect(fn, b1, b2))
  {
  }

  lemma RunStarts(f: Fn)
    requires MergeReady(f)
    ensures RunOk(f, f, [])
  {
    hide MergeReady;
    SameBehaviourReflexive(f);
    if WellFormed(f) {
      WellFormedIsLiveOk(f);
    }
  }

  /** What the merges kept, deleting the erased blocks keeps. */
  lemma RunEnds(f: Fn, ms: seq<MergeStep>)
    requires RunOk(f, AfterMerges(f, ms), ms)
    requires SameBehaviour(AfterMerges(f, ms), DeleteBlocks(AfterMerges(f, ms), Erased(ms)))
    ensures AllMatch(f, ms) ==> SameBehaviour(f, DeleteBlocks(AfterMerges(f, ms), Erased(ms)))
    ensures AllMatch(f, ms) && WellFormed(f) ==> WellFormed(DeleteBlocks(AfterMerges(f, ms), Erased(ms)))
    ensures LookAlikesMatch(f, {}) ==> AllMatch(f, ms)
    ensures (forall l :: l in Erased(ms) ==> l in f.blocks && f.blocks[l].phis == []) ==> AllMatch(f, ms)
  {
    var merged := AfterMerges(f, ms);
    hide SameBehaviour, WellFormed, LiveOk, LookAlikesMatch, DeleteBlocks, AllMatch, AfterMerges, MergeReady, SameBlocks, Abandoned, ChainsOk;
    if AllMatch(f, ms) {
      SameBehaviourTransitive(f, merged, DeleteBlocks(merged, Erased(ms)));
      if WellFormed(f) {
        DeletedWellFormed(merged, Erased(ms));
      }
    }
    if forall l :: l in Erased(ms) ==> l in f.blocks && f.blocks[l].phis == [] {
      assert forall k :: 0 <= k < |ms| ==> ms[k].erased in Erased(ms);
      PhiFreeMatch(f, ms);
    }
  }

  // The pass, block by block

  /** Every block had its turn, in this order: it was merged into a block that qualified, or none did. */
  ghost predicate Turns(f: Fn, order: seq<Label>, ms: seq<MergeStep>)
    decreases |order|
  {
    if order == [] then ms == []
    else
      var front, b1 := order[..|order| - 1], order[|order| - 1];
      || (Turns(f, front, ms) && forall b :: !Qualifies(AfterMerges(f, ms), Erased(ms), b1, b))
      || (ms != [] && Turns(f, front, ms[..|ms| - 1]) && ms[|ms| - 1].erased == b1
          && Qualifies(AfterMerges(f, ms[..|ms| - 1]), Erased(ms[..|ms| - 1]), b1, ms[|ms| - 1].retained))
  }

  lemma TurnSkips(f: Fn, order: seq<Label>, ms: seq<MergeStep>, b1: Label)
    requires Turns(f, order, ms) && forall b :: !Qualifies(AfterMerges(f, ms), Erased(ms), b1, b)
    ensures Turns(f, order + [b1], ms)
  {
    assert (order + [b1])[..|order|] == order;
  }

  lemma TurnMerges(f: Fn, order: seq<Label>, ms: seq<MergeStep>, b1: Label, b2: Label)
    requires Turns(f, order, ms) && Qualifies(AfterMerges(f, ms), Erased(ms), b1, b2)
    ensures Turns(f, order + [b1], ms + [MergeStep(b1, b2)])
    ensures AfterMerges(f, ms + [MergeStep(b1, b2)]) == Redirect(AfterMerges(f, ms), b1, b2)
  {
    assert (order + [b1])[..|order|] == order;
    assert (ms + [MergeStep(b1, b2)])[..|ms|] == ms;
  }

  // The turns, said of the text

  /** The block had its turn when n merges were done: it was merged into a block that can stand in for it, or none can. */
  ghost predicate TurnTaken(f: Fn, order: seq<Label>, ms: seq<MergeStep>, k: nat, n: nat)
    requires k < |order|
  {
    && n <= |ms| && (forall m :: 0 <= m < |ms| ==> (m < n <==> ms[m].erased in order[..k]))
    && var fn, erased := AfterMerges(f, ms[..n]), Erased(ms[..n]);
       if n < |ms| && ms[n].erased == order[k]
       then StandIn(fn, erased, order[k], ms[n].retained)
       else forall b :: !StandIn(fn, erased, order[k], b)
  }

  ghost predicate HadTurn(f: Fn, order: seq<Label>, ms: seq<MergeStep>, k: nat)
    requires k < |order|
  {
    exists n :: TurnTaken(f, order, ms, k, n)
  }

  ghost predicate NoRepeats(order: seq<Label>) {
    forall j, k :: 0 <= j < k < |order| ==> order[j] != order[k]
  }

  lemma {:induction false} ErasedInOrder(f: Fn, order: seq<Label>, ms: seq<MergeStep>)
    requires Turns(f, order, ms)
    ensures forall m :: 0 <= m < |ms| ==> ms[m].erased in order
    decreases |order|
  {
    hide Qualifies, AfterMerges, Erased;
    if order != [] {
      var front := order[..|order| - 1];
      assert forall l :: l in front ==> l in order;
      if Turns(f, front, ms) {
        ErasedInOrder(f, front, ms);
      } else {
        ErasedInOrder(f, front, ms[..|ms| - 1]);
        assert order[|order| - 1] in order;
      }
    }
  }

  lemma LastNew(order: seq<Label>)
    requires order != [] && NoRepeats(order)
    ensures order[|order| - 1] !in order[..|order| - 1] && NoRepeats(order[..|order| - 1])
  {
  }

  lemma NoneStandsIn(fn: Fn, erased: set<Label>, b1: Label)
    ensures (forall b :: !Qualifies(fn, erased, b1, b)) <==> forall b :: !StandIn(fn, erased, b1, b)
  {
    hide Qualifies, StandIn;
    forall b
      ensures Qualifies(fn, erased, b1, b) <==> StandIn(fn, erased, b1, b)
    {
      QualifiesIff(fn, erased, b1, b);
    }
  }

  /** A turn that found no block to merge into. */
  lemma TurnWithout(f: Fn, order: seq<Label>, ms: seq<MergeStep>, b1: Label)
    requires order != [] && order[|order| - 1] == b1 && Turns(f, order[..|order| - 1], ms)
    requires forall b :: !Qualifies(AfterMerges(f, ms), Erased(ms), b1, b)
    ensures HadTurn(f, order, ms, |order| - 1)
  {
    var k := |order| - 1;
    hide Qualifies, StandIn, AfterMerges, Erased, Turns;
    ErasedInOrder(f, order[..k], ms);
    NoneStandsIn(AfterMerges(f, ms), Erased(ms), b1);
    assert ms[..|ms|] == ms;
    assert TurnTaken(f, order, ms, k, |ms|);
  }

  /** A turn that merged. */
  lemma TurnWith(f: Fn, order: seq<Label>, ms: seq<MergeStep>)
    requires order != [] && NoRepeats(order) && ms != [] && Turns(f, order[..|order| - 1], ms[..|ms| - 1])
    requires ms[|ms| - 1].erased == order[|order| - 1]
    requires Qualifies(AfterMerges(f, ms[..|ms| - 1]), Erased(ms[..|ms| - 1]), order[|order| - 1], ms[|ms| - 1].retained)
    ensures HadTurn(f, order, ms, |order| - 1)
  {
    var k, n := |order| - 1, |ms| - 1;
    hide Qualifies, StandIn, AfterMerges, Erased, Turns;
    LastNew(order);
    ErasedInOrder(f, order[..k], ms[..n]);
    QualifiesIff(AfterMerges(f, ms[..n]), Erased(ms[..n]), order[k], ms[n].retained);
    assert forall m :: 0 <= m < n ==> ms[..n][m] == ms[m];
    assert TurnTaken(f, order, ms, k, n);
  }

  lemma LastTurn(f: Fn, order: seq<Label>, ms: seq<MergeStep>)
    requires order != [] && NoRepeats(order) && Turns(f, order, ms)
    ensures HadTurn(f, order, ms, |order| - 1)
  {
    hide Qualifies, AfterMerges, Erased, HadTurn;
    var b1 := order[|order| - 1];
    if Turns(f, order[..|order| - 1], ms) && forall b :: !Qualifies(AfterMerges(f, ms), Erased(ms), b1, b) {
      TurnWithout(f, order, ms, b1);
    } else {
      TurnWith(f, order, ms);
    }
  }

  lemma EarlierCounts(order: seq<Label>, front: seq<Label>, ms: seq<MergeStep>, ms0: seq<MergeStep>, k: nat, n: nat)
    requires order != [] && NoRepeats(order) && front == order[..|order| - 1] && k < |front|
    requires ms != [] && ms0 == ms[..|ms| - 1] && ms[|ms| - 1].erased == order[|order| - 1]
    requires n <= |ms0| && forall m :: 0 <= m < |ms0| ==> (m < n <==> ms0[m].erased in front[..k])
    ensures forall m :: 0 <= m < |ms| ==> (m < n <==> ms[m].erased in order[..k])
    ensures ms[|ms| - 1].erased != order[k]
    ensures front[k] == order[k] && ms0[..n] == ms[..n]
    ensures n < |ms0| ==> ms0[n] == ms[n]
  {
    assert front[..k] == order[..k];
    assert order[|order| - 1] !in order[..k];
    assert forall m :: 0 <= m < |ms0| ==> ms0[m] == ms[m];
  }

  /** Later turns do not change what happened at an earlier one. */
  lemma EarlierTurn(f: Fn, order: seq<Label>, ms: seq<MergeStep>, k: nat)
    requires order != [] && NoRepeats(order) && k < |order| - 1 && ms != [] && ms[|ms| - 1].erased == order[|order| - 1]
    requires HadTurn(f, order[..|order| - 1], ms[..|ms| - 1], k)
    ensures HadTurn(f, order, ms, k)
  {
    hide StandIn, AfterMerges, Erased, NoRepeats;
    var front, ms0 := order[..|order| - 1], ms[..|ms| - 1];
    var n: nat :| TurnTaken(f, front, ms0, k, n);
    EarlierCounts(order, front, ms, ms0, k, n);
    assert TurnTaken(f, order, ms, k, n);
  }

  lemma {:induction false} TurnsTaken(f: Fn, order: seq<Label>, ms: seq<MergeStep>, k: nat)
    requires Turns(f, order, ms) && NoRepeats(order) && k < |order|
    ensures HadTurn(f, order, ms, k)
    decreases |order|
  {
    if k == |order| - 1 {
      LastTurn(f, order, ms);
    } else {
      var front := order[..|order| - 1];
      LastNew(order);
      hide Qualifies, StandIn, AfterMerges, Erased;
      if Turns(f, front, ms) {
        TurnsTaken(f, front, ms, k);
        var n: nat :| TurnTaken(f, front, ms, k, n);
        assert front[..k] == order[..k] && front[k] == order[k];
        assert TurnTaken(f, order, ms, k, n);
      } else {
        TurnsTaken(f, front, ms[..|ms| - 1], k);
        EarlierTurn(f, order, ms, k);
      }
    }
  }

  /** What the run leaves: the blocks not erased, with the instructions they had. */
  lemma WhatStays(f: Fn, ms: seq<MergeStep>)
    requires SameBlocks(f, AfterMerges(f, ms))
    ensures var g := DeleteBlocks(AfterMerges(f, ms), Erased(ms));
            && g.blocks.Keys == f.blocks.Keys - Erased(ms)
            && forall l :: l in g.blocks ==> g.blocks[l].body == f.blocks[l].body && |g.blocks[l].phis| == |f.blocks[l].phis|
  {
    hide AfterMerges, Erased;
  }

  // The pass

  class MergeBB {
    var fn: Fn
    var deleteList: set<Label>

    constructor (f: Fn)
      ensures fn == f && deleteList == {}
    {
      fn, deleteList := f, {};
    }

    /** Retargets every predecessor of the erased block, taken in any order. */
    method UpdateBranchTargets(erase: Label, retain: Label) returns (updated: nat)
      requires erase in fn.blocks && erase != retain
      requires forall p :: p in Preds(fn, erase) ==> IsBranchOrSwitch(fn.blocks[p].term)
      modifies this`fn
      ensures fn == Redirect(old(fn), erase, retain)
      ensures updated > 0 <==> Preds(old(fn), erase) != {}
    {
      ghost var f := fn;
      PartRedirectAll(f, erase, retain);
      updated := 0;
      var todo := Preds(fn, erase);
      ghost var done: set<Label> := {};
      while todo != {}
        invariant done + todo == Preds(f, erase) && done !! todo
        invariant fn == PartRedirect(f, erase, retain, done)
        invariant updated > 0 <==> done != {}
        decreases todo
      {
        var p :| p in todo;
        assert p in Preds(f, erase);
        var term := fn.blocks[p].term;
        assert term == f.blocks[p].term;
        TargetCountPositive(term, erase);
        updated := updated + TargetCount(term, erase);
        ghost var before := fn;
        fn := fn.(blocks := fn.blocks[p := fn.blocks[p].(term := Retarget(term, erase, retain))]);
        PartRedirectNext(f, erase, retain, done, p);
        todo, done := todo - {p}, done + {p};
      }
    }

    /** Merges b1 into some predecessor of its successor that duplicates it, if there is one. */
    method MergeDuplicatedBlock(b1: Label) returns (merged: bool, b2: Label)
      requires Closed(fn) && b1 in fn.blocks
      modifies this
      ensures merged ==>
                && Qualifies(old(fn), old(deleteList), b1, b2) && StandIn(old(fn), old(deleteList), b1, b2)
                && fn == Redirect(old(fn), b1, b2) && deleteList == old(deleteList) + {b1}
      ensures !merged ==>
                && fn == old(fn) && deleteList == old(deleteList)
                && (forall b :: !Qualifies(fn, deleteList, b1, b)) && forall b :: !StandIn(fn, deleteList, b1, b)
    {
      hide StandIn;
      b2 := b1;
      var f := fn;
      NoneStandsIn(f, deleteList, b1);
      if !Candidate(f, b1) {
        return false, b1;
      }
      var succ := f.blocks[b1].term.dest;
      var todo := Preds(f, succ);
      while todo != {}
        invariant todo <= Preds(f, succ)
        invariant fn == f && deleteList == old(deleteList)
        invariant forall b :: b in Preds(f, succ) - todo ==> !Qualifies(f, deleteList, b1, b)
        decreases todo
      {
        b2 :| b2 in todo;
        todo := todo - {b2};
        var ok := IsDuplicate(f, deleteList, b1, b2, succ);
        if ok {
          QualifiesIff(f, deleteList, b1, b2);
          var updated := UpdateBranchTargets(b1, b2);
          deleteList := deleteList + {b1};
          return true, b2;
        }
      }
      merged := false;
    }

    /** The checks on one predecessor of the successor. */
    static method IsDuplicate(f: Fn, deleteList: set<Label>, b1: Label, b2: Label, succ: Label) returns (ok: bool)
      requires Candidate(f, b1) && succ == f.blocks[b1].term.dest && b2 in Preds(f, succ)
      ensures ok <==> Qualifies(f, deleteList, b1, b2)
    {
      if b2 == f.entry || !f.blocks[b2].term.Br? || b2 in deleteList || b2 == b1 {
        return false;
      }
      var n1 := GetNumNonDbgInstr(f.blocks[b1]);
      var n2 := GetNumNonDbgInstr(f.blocks[b2]);
      if n1 != n2 || !EdgesMatch(f, b1, b2, succ) {
        return false;
      }
      ok := AllMergeable(f, b1, b2, succ);
    }

    /**
     The whole pass, for every order of blocks. Each erased block has lost all its in-edges and leads by an acyclic
     chain of merges to a survivor with the same code. Behaviour and SSA form are kept if the entries of the merged
     blocks match, as they do when erased blocks have no PHIs, or when look-alikes of the input are entered alike.
     */
    method Run(order: seq<Label>) returns (merges: seq<MergeStep>)
      requires MergeReady(fn) && deleteList == {}
      requires forall l :: l in order ==> l in fn.blocks
      requires forall j, k :: 0 <= j < k < |order| ==> order[j] != order[k]
      modifies this
      ensures deleteList == Erased(merges) && Turns(old(fn), order, merges)
      ensures forall k :: 0 <= k < |order| ==> HadTurn(old(fn), order, merges, k)
      ensures fn.blocks.Keys == old(fn).blocks.Keys - deleteList
      ensures forall l :: l in fn.blocks ==> fn.blocks[l].body == old(fn).blocks[l].body
      ensures fn == DeleteBlocks(AfterMerges(old(fn), merges), deleteList)
      ensures Abandoned(AfterMerges(old(fn), merges), deleteList) && ChainsOk(AfterMerges(old(fn), merges), merges)
      ensures SameBlocks(old(fn), AfterMerges(old(fn), merges))
      ensures AllMatch(old(fn), merges) ==> SameBehaviour(old(fn), fn)
      ensures AllMatch(old(fn), merges) && WellFormed(old(fn)) ==> WellFormed(fn)
      ensures LookAlikesMatch(old(fn), {}) ==> AllMatch(old(fn), merges)
      ensures (forall l :: l in deleteList ==> l in old(fn).blocks && old(fn).blocks[l].phis == []) ==> AllMatch(old(fn), merges)
    {
      hide MeaningOk, AllMatch, LookAlikesMatch, SameBehaviour, WellFormed, LiveOk;
      ghost var f := fn;
      merges := [];
      RunStarts(f);
      assert order[..0] == [];
      for k := 0 to |order|
        invariant RunOk(f, fn, merges) && deleteList == Erased(merges)
        invariant fn == AfterMerges(f, merges) && Turns(f, order[..k], merges)
        invariant forall j :: k <= j < |order| ==> order[j] !in deleteList
      {
        hide MergeReady, Turns, AfterMerges, Redirect, Qualifies, Abandoned, ChainsOk;
        ghost var g := fn;
        assert order[..k + 1] == order[..k] + [order[k]];
        var done, b2 := MergeDuplicatedBlock(order[k]);
        if done {
          RunGrows(f, merges, order[k], b2);
          TurnMerges(f, order[..k], merges, order[k], b2);
          merges := merges + [MergeStep(order[k], b2)];
        } else {
          TurnSkips(f, order[..k], merges, order[k]);
        }
      }
      assert order[..|order|] == order;
      hide HadTurn, TurnTaken, DeleteBlocks;
      forall k | 0 <= k < |order|
        ensures HadTurn(f, order, merges, k)
      {
        TurnsTaken(f, order, merges, k);
      }
      WhatStays(f, merges);
      DeleteMarked();
      RunEnds(f, merges);
    }

    /** Deletes the marked blocks, taken in any order. */
    method DeleteMarked()
      requires Abandoned(fn, deleteList) && fn.entry !in deleteList
      modifies this`fn
      ensures fn == DeleteBlocks(old(fn), deleteList)
      ensures SameBehaviour(old(fn), fn)
    {
      hide SameBehaviour, DeleteDeadBlock;
      ghost var f := fn;
      var todo := deleteList;
      SameBehaviourReflexive(f);
      DeleteNone(f);
      assert deleteList - todo == {};
      while todo != {}
        invariant todo <= deleteList
        invariant fn.entry == f.entry
        invariant fn == DeleteBlocks(f, deleteList - todo)
        invariant Abandoned(fn, todo)
        invariant SameBehaviour(f, fn)
        decreases todo
      {
        var l :| l in todo;
        DeleteStep(fn, l, todo);
        DeleteOneMore(f, deleteList - todo, l);
        assert deleteList - (todo - {l}) == (deleteList - todo) + {l};
        SameBehaviourTransitive(f, fn, DeleteDeadBlock(fn, l));
        fn := DeleteDeadBlock(fn, l);
        todo := todo - {l};
      }
      assert deleteList - todo == deleteList;
    }
  }

  lemma DeleteStep(f: Fn, l: Label, todo: set<Label>)
    requires Abandoned(f, todo) && l in todo && f.entry !in todo
    ensures Abandoned(DeleteDeadBlock(f, l), todo - {l}) && SameBehaviour(f, DeleteDeadBlock(f, l))
    ensures DeleteDeadBlock(f, l).blocks.Keys == f.blocks.Keys - {l} && DeleteDeadBlock(f, l).entry == f.entry
  {
    var g := DeleteDeadBlock(f, l);
    assert Preds(f, l) == {} by {
      forall p
        ensures p !in Preds(f, l)
      {
        assert !IsEdge(f, p, l);
      }
    }
    DeleteSameBehaviour(f, l);
    forall p, x | x in todo - {l}
      ensures !IsEdge(g, p, x)
    {
      assert !IsEdge(f, p, x);
    }
  }

  // Retargeting one predecessor after the other

  function PartRedirect(f: Fn, b1: Label, b2: Label, done: set<Label>): Fn {
    f.(blocks := map l | l in f.blocks ::
                   if l in done then f.blocks[l].(term := Retarget(f.blocks[l].term, b1, b2)) else f.blocks[l])
  }

  lemma PartRedirectNext(f: Fn, b1: Label, b2: Label, done: set<Label>, p: Label)
    requires p in f.blocks && p !in done
    ensures var g := PartRedirect(f, b1, b2, done);
            g.(blocks := g.blocks[p := g.blocks[p].(term := Retarget(f.blocks[p].term, b1, b2))])
            == PartRedirect(f, b1, b2, done + {p})
  {
    var g := PartRedirect(f, b1, b2, done);
    assert g.blocks[p := g.blocks[p].(term := Retarget(f.blocks[p].term, b1, b2))] == PartRedirect(f, b1, b2, done + {p}).blocks;
  }

  lemma PartRedirectAll(f: Fn, b1: Label, b2: Label)
    ensures PartRedirect(f, b1, b2, Preds(f, b1)) == Redirect(f, b1, b2)
    ensures PartRedirect(f, b1, b2, {}) == f
  {
    forall l | l in f.blocks && l !in Preds(f, b1)
      ensures Retarget(f.blocks[l].term, b1, b2) == f.blocks[l].term
    {
      RetargetNoop(f.blocks[l].term, b1, b2);
    }
    assert PartRedirect(f, b1, b2, Preds(f, b1)).blocks == Redirect(f, b1, b2).blocks;
    assert PartRedirect(f, b1, b2, {}).blocks == f.blocks;
  }
}
