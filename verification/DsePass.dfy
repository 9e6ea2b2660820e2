/** The dead-store-elimination pass: the clobber walk and the loop that erases stores while it visits the function. */
module DsePass {
  import opened Ir
  import opened Semantics
  import opened Ssa
  import opened Removal
  import opened Dse
  import opened DseStatic
  import opened DseKept
  import opened DseSsa

  /** A node of MemorySSA. */
  type Access = nat

  /**
   MemorySSA as the pass sees it: the access of an instruction, the accesses that are definitions (with the
   instruction behind them; none for the state on entry), and the walker, which maps an access to the one
   that clobbers it. A missing entry is a null pointer.
   */
  datatype MemorySSA = MemorySSA(access: map<Id, Access>, defs: map<Access, Option<Id>>, walker: Option<map<Access, Access>>)

  // The walk

  /** n steps of the walker from a. */
  function Walk(walker: map<Access, Access>, a: Access, n: nat): Option<Access> {
    if n == 0 then Some(a)
    else
      var b := Walk(walker, a, n - 1);
      if b.Some? && b.value in walker then Some(walker[b.value]) else None
  }

  ghost predicate WalksTo(walker: map<Access, Access>, a: Access, b: Access) {
    exists n: nat :: Walk(walker, a, n) == Some(b)
  }

  /** A set the walk cannot leave holds all of it. */
  lemma {:induction false} WalkStays(walker: map<Access, Access>, a: Access, visited: set<Access>, n: nat)
    requires a in visited && forall x :: x in visited && x in walker ==> walker[x] in visited
    ensures Walk(walker, a, n).Some? ==> Walk(walker, a, n).value in visited
  {
    if n > 0 {
      WalkStays(walker, a, visited, n - 1);
    }
  }

  /**
   Whether something comes between two accesses: false exactly when prev is reached from curr by iterating the
   walker. Cycles end the walk, so it terminates on every graph.
   */
  method HasInterveningUse(mssa: MemorySSA, prev: Id, curr: Id) returns (r: bool)
    ensures prev !in mssa.access || curr !in mssa.access || mssa.walker.None? ==> r
    ensures prev in mssa.access && curr in mssa.access && mssa.walker.Some? ==>
              (r <==> !WalksTo(mssa.walker.value, mssa.access[curr], mssa.access[prev]))
  {
    if prev !in mssa.access || curr !in mssa.access || mssa.walker.None? {
      return true;
    }
    var prevMA, currMA, walker := mssa.access[prev], mssa.access[curr], mssa.walker.value;
    var clobber := Some(currMA);
    var visited: set<Access> := {};
    ghost var n: nat := 0;
    ghost var all := walker.Keys + walker.Values + {currMA};
    while clobber.Some? && clobber.value != prevMA
      invariant Walk(walker, currMA, n) == clobber
      invariant clobber.Some? ==> clobber.value in all
      invariant visited <= all && prevMA !in visited
      invariant forall x :: x in visited && x in walker ==> walker[x] in visited || Some(walker[x]) == clobber
      invariant n == 0 ==> visited == {} && clobber == Some(currMA)
      invariant n > 0 ==> currMA in visited
      invariant clobber.None? ==> forall x :: x in visited && x in walker ==> walker[x] in visited
      decreases |all - visited|
    {
      if clobber.value in visited {
        forall m: nat
          ensures Walk(walker, currMA, m) != Some(prevMA)
        {
          WalkStays(walker, currMA, visited, m);
        }
        break;
      }
      assert all - (visited + {clobber.value}) < all - visited;
      SmallerSet(all - (visited + {clobber.value}), all - visited);
      visited := visited + {clobber.value};
      clobber := if clobber.value in walker then Some(walker[clobber.value]) else None;
      n := n + 1;
    }
    if clobber.None? {
      forall m: nat
        ensures Walk(walker, currMA, m) != Some(prevMA)
      {
        WalkStays(walker, currMA, visited, m);
      }
    }
    r := clobber != Some(prevMA);
  }

  lemma {:induction false} SmallerSet<T>(a: set<T>, b: set<T>)
    requires a < b
    ensures |a| < |b|
  {
    var x :| x in b && x !in a;
    assert a <= b - {x};
    SubsetSize(a, b - {x});
  }

  lemma {:induction false} SubsetSize<T>(a: set<T>, b: set<T>)
    requires a <= b
    ensures |a| <= |b|
    decreases |a|
  {
    if a != {} {
      var x :| x in a;
      SubsetSize(a - {x}, b - {x});
    }
  }

  // The deletion rule

  predicate InFn(f: Fn, i: Instr) {
    exists l :: l in f.blocks && i in f.blocks[l].body
  }

  /** The definition the walker gives for a store's own definition. */
  function Clobbering(mssa: MemorySSA, s: Id): Option<Id> {
    if s in mssa.access && mssa.access[s] in mssa.defs && mssa.walker.Some? && mssa.access[s] in mssa.walker.value then
      var prev := mssa.walker.value[mssa.access[s]];
      if prev in mssa.defs then mssa.defs[prev] else None
    else None
  }

  /** Definitions and accesses name each other. */
  predicate MssaOk(mssa: MemorySSA) {
    forall d :: d in mssa.defs && mssa.defs[d].Some? ==> mssa.defs[d].value in mssa.access && mssa.access[mssa.defs[d].value] == d
  }

  /** Everything the code checks before it erases p on account of s, but for the walk. */
  predicate Rule(f: Fn, mssa: MemorySSA, aa: AAResults, pdt: (Id, Id) -> bool, s: Instr, p: Instr) {
    && InFn(f, s) && InFn(f, p) && IsStore(s) && IsStore(p)
    && Clobbering(mssa, s.id) == Some(p.id)
    && aa(s.id, StoreLocation(p)).MustAlias?
    && pdt(s.id, p.id)
  }

  /**
   The walk starts at the very access whose clobber is the candidate, so it stops at once: the check for
   intervening uses never objects to what the rule proposes.
   */
  lemma WalkNeverObjects(mssa: MemorySSA, s: Id, p: Id)
    requires MssaOk(mssa) && Clobbering(mssa, s) == Some(p)
    ensures p in mssa.access && s in mssa.access && mssa.walker.Some?
    ensures WalksTo(mssa.walker.value, mssa.access[s], mssa.access[p])
  {
    assert Walk(mssa.walker.value, mssa.access[s], 0) == Some(mssa.access[s]);
    assert Walk(mssa.walker.value, mssa.access[s], 1) == Some(mssa.access[p]);
  }

  /** The same in MemorySSA's own terms: the walker leads from the definition of one store straight to that of the other. */
  ghost predicate Proposed(mssa: MemorySSA, aa: AAResults, pdt: (Id, Id) -> bool, s: Instr, p: Instr) {
    && s.op.Store? && s.ty.Void? && |s.args| == 2
    && p.op.Store? && p.ty.Void? && |p.args| == 2
    && mssa.walker.Some? && s.id in mssa.access && p.id in mssa.access
    && mssa.access[s.id] in mssa.defs && mssa.access[s.id] in mssa.walker.value
    && mssa.walker.value[mssa.access[s.id]] == mssa.access[p.id]
    && mssa.access[p.id] in mssa.defs && mssa.defs[mssa.access[p.id]] == Some(p.id)
    && aa(s.id, Location(p.args[1], p.op.bytes)).MustAlias? && pdt(s.id, p.id)
  }

  ghost predicate ProposedIn(f: Fn, mssa: MemorySSA, aa: AAResults, pdt: (Id, Id) -> bool, c: Pair) {
    exists l, m, s, p ::
      && l in f.blocks && s in f.blocks[l].body && m in f.blocks && p in f.blocks[m].body
      && s.id == c.curr && p.id == c.prev && Proposed(mssa, aa, pdt, s, p)
  }

  /** The rule, written out. */
  lemma RuleIs(f: Fn, mssa: MemorySSA, aa: AAResults, pdt: (Id, Id) -> bool, s: Instr, p: Instr)
    requires MssaOk(mssa)
    ensures Rule(f, mssa, aa, pdt, s, p) <==>
              && (exists l :: l in f.blocks && s in f.blocks[l].body)
              && (exists l :: l in f.blocks && p in f.blocks[l].body)
              && Proposed(mssa, aa, pdt, s, p)
  {
  }

  // Erasing one store after another

  datatype Pair = Pair(curr: Id, prev: Id)

  function EraseAll(f: Fn, log: seq<Pair>): Fn {
    if log == [] then f else Erase(EraseAll(f, log[..|log| - 1]), log[|log| - 1].prev)
  }

  /** What the code leaves unchecked for one pair: that they differ, their sizes, and what lies between them. */
  ghost predicate Unchecked(f: Fn, aa: AAResults, c: Pair) {
    && c.curr != c.prev
    && forall s, p :: StoreAt(f, s) && StoreAt(f, p) && InstrAt(f, s).id == c.curr && InstrAt(f, p).id == c.prev ==>
         InstrAt(f, p).op.bytes <= InstrAt(f, s).op.bytes && NoneBetween(f, aa, p, s)
  }

  /** Each pair met the unchecked conditions when its store was erased. */
  ghost predicate AllUnchecked(f: Fn, aa: AAResults, log: seq<Pair>) {
    log == [] || (AllUnchecked(f, aa, log[..|log| - 1]) && Unchecked(EraseAll(f, log[..|log| - 1]), aa, log[|log| - 1]))
  }

  /** Each pair met the rule when its store was erased. */
  ghost predicate AllRuled(f: Fn, mssa: MemorySSA, aa: AAResults, pdt: (Id, Id) -> bool, log: seq<Pair>) {
    log == [] || (AllRuled(f, mssa, aa, pdt, log[..|log| - 1])
                  && RuledPair(EraseAll(f, log[..|log| - 1]), mssa, aa, pdt, log[|log| - 1]))
  }

  ghost predicate RuledPair(f: Fn, mssa: MemorySSA, aa: AAResults, pdt: (Id, Id) -> bool, c: Pair) {
    exists s: Instr, p: Instr :: s.id == c.curr && p.id == c.prev && Rule(f, mssa, aa, pdt, s, p)
  }

  lemma PlaceOf(f: Fn, i: Instr) returns (q: Place)
    requires InFn(f, i)
    ensures HasPlace(f, q) && InstrAt(f, q) == i
  {
    var l :| l in f.blocks && i in f.blocks[l].body;
    var k :| 0 <= k < |f.blocks[l].body| && f.blocks[l].body[k] == i;
    q := Place(l, k);
  }

  ghost predicate DistinctIds(f: Fn) {
    forall q :: HasPlace(f, q) ==> OnlyAt(f, q)
  }

  lemma OneErased(ok: Inputs, f: Fn, mssa: MemorySSA, aa: AAResults, pdt: (Id, Id) -> bool, c: Pair)
    requires AnalysesOk(ok, f, aa, pdt) && DistinctIds(f)
    requires RuledPair(f, mssa, aa, pdt, c) && Unchecked(f, aa, c)
    ensures AnalysesOk(ok, Erase(f, c.prev), aa, pdt) && SameFor(ok, f, Erase(f, c.prev))
  {
    var s: Instr, p: Instr :| s.id == c.curr && p.id == c.prev && Rule(f, mssa, aa, pdt, s, p);
    var sq := PlaceOf(f, s);
    var pq := PlaceOf(f, p);
    assert OnlyAt(f, pq);
    AnalysesKept(ok, f, aa, pdt, pq, sq);
  }

  lemma DistinctKept(f: Fn, id: Id)
    requires DistinctIds(f)
    ensures DistinctIds(Erase(f, id))
  {
    var g := Erase(f, id);
    forall q', r' | HasPlace(g, q') && HasPlace(g, r') && q' != r'
      ensures InstrAt(g, q').id != InstrAt(g, r').id
    {
      var q := PlaceBefore(f, id, q');
      var r := PlaceBefore(f, id, r');
      assert OnlyAt(f, q);
    }
  }

  /** Whole runs of the pass: each erased store met the rule and the conditions it leaves unchecked, so no run of the function changes. */
  lemma {:induction false} EraseAllSameBehaviour(ok: Inputs, f: Fn, mssa: MemorySSA, aa: AAResults, pdt: (Id, Id) -> bool, log: seq<Pair>)
    requires AnalysesOk(ok, f, aa, pdt) && DistinctIds(f)
    requires AllRuled(f, mssa, aa, pdt, log) && AllUnchecked(f, aa, log)
    ensures SameFor(ok, f, EraseAll(f, log)) && AnalysesOk(ok, EraseAll(f, log), aa, pdt) && DistinctIds(EraseAll(f, log))
    decreases |log|
  {
    if log != [] {
      var front := log[..|log| - 1];
      EraseAllSameBehaviour(ok, f, mssa, aa, pdt, front);
      var g := EraseAll(f, front);
      OneErased(ok, g, mssa, aa, pdt, log[|log| - 1]);
      DistinctKept(g, log[|log| - 1].prev);
      SameForTransitive(ok, f, g, EraseAll(f, log));
    }
  }

  lemma RuledNamesStore(f: Fn, mssa: MemorySSA, aa: AAResults, pdt: (Id, Id) -> bool, c: Pair)
    requires Unique(f) && RuledPair(f, mssa, aa, pdt, c)
    ensures NamesStore(f, c.prev)
  {
    var s: Instr, p: Instr :| s.id == c.curr && p.id == c.prev && Rule(f, mssa, aa, pdt, s, p);
    var q := PlaceOf(f, p);
    forall l, k | l in f.blocks && 0 <= k < |f.blocks[l].body| && f.blocks[l].body[k].id == c.prev
      ensures IsStore(f.blocks[l].body[k])
    {
      assert SiteId(f, InstrSite(l, k)) == SiteId(f, InstrSite(q.l, q.k));
    }
  }

  /** The pass erases stores only, so whatever its analyses say the function stays well formed. */
  lemma {:induction false} EraseAllWellFormed(f: Fn, mssa: MemorySSA, aa: AAResults, pdt: (Id, Id) -> bool, log: seq<Pair>)
    requires WellFormed(f) && AllRuled(f, mssa, aa, pdt, log)
    ensures WellFormed(EraseAll(f, log))
    decreases |log|
  {
    if log != [] {
      var front := log[..|log| - 1];
      EraseAllWellFormed(f, mssa, aa, pdt, front);
      RuledNamesStore(EraseAll(f, front), mssa, aa, pdt, log[|log| - 1]);
      EraseWellFormed(EraseAll(f, front), log[|log| - 1].prev);
    }
  }

  // A condition on the function as it is before the pass

  /** Two stores between which the location is left alone, the later one no narrower. */
  ghost predicate Sheltered(f: Fn, aa: AAResults, s: Place, p: Place) {
    StoreAt(f, s) && StoreAt(f, p) && s != p && InstrAt(f, p).op.bytes <= InstrAt(f, s).op.bytes && NoneBetween(f, aa, p, s)
  }

  /** Whatever pairs of stores the rule proposes also meet what the code leaves unchecked. */
  ghost predicate PairsOk(f: Fn, mssa: MemorySSA, aa: AAResults, pdt: (Id, Id) -> bool) {
    forall s, p :: HasPlace(f, s) && HasPlace(f, p) && Rule(f, mssa, aa, pdt, InstrAt(f, s), InstrAt(f, p)) ==> Sheltered(f, aa, s, p)
  }

  lemma ErasedIn(f: Fn, id: Id)
    ensures forall i :: InFn(Erase(f, id), i) ==> InFn(f, i) && i.id != id
  {
    forall i | InFn(Erase(f, id), i)
      ensures InFn(f, i) && i.id != id
    {
      var l :| l in f.blocks && i in Erase(f, id).blocks[l].body;
      WithoutIn(f.blocks[l].body, {id});
      assert i in f.blocks[l].body;
    }
  }

  lemma RuleBefore(f: Fn, mssa: MemorySSA, aa: AAResults, pdt: (Id, Id) -> bool, id: Id, s: Instr, p: Instr)
    requires Rule(Erase(f, id), mssa, aa, pdt, s, p)
    ensures Rule(f, mssa, aa, pdt, s, p)
  {
    ErasedIn(f, id);
  }

  lemma PairsOkKept(f: Fn, mssa: MemorySSA, aa: AAResults, pdt: (Id, Id) -> bool, id: Id)
    requires PairsOk(f, mssa, aa, pdt)
    ensures PairsOk(Erase(f, id), mssa, aa, pdt)
  {
    var g := Erase(f, id);
    forall s', p' | HasPlace(g, s') && HasPlace(g, p') && Rule(g, mssa, aa, pdt, InstrAt(g, s'), InstrAt(g, p'))
      ensures Sheltered(g, aa, s', p')
    {
      RuleBefore(f, mssa, aa, pdt, id, InstrAt(g, s'), InstrAt(g, p'));
      var s := PlaceBefore(f, id, s');
      var p := PlaceBefore(f, id, p');
      assert Sheltered(f, aa, s, p);
      SameOrder(f, id, s, p);
      NoneBetweenKept(f, aa, id, p, s);
      assert PlaceAfter(f, id, s) == s' && PlaceAfter(f, id, p) == p';
    }
  }

  lemma {:induction false} PairsOkAfter(f: Fn, mssa: MemorySSA, aa: AAResults, pdt: (Id, Id) -> bool, log: seq<Pair>)
    requires PairsOk(f, mssa, aa, pdt) && DistinctIds(f)
    ensures PairsOk(EraseAll(f, log), mssa, aa, pdt) && DistinctIds(EraseAll(f, log))
    decreases |log|
  {
    if log != [] {
      PairsOkAfter(f, mssa, aa, pdt, log[..|log| - 1]);
      PairsOkKept(EraseAll(f, log[..|log| - 1]), mssa, aa, pdt, log[|log| - 1].prev);
      DistinctKept(EraseAll(f, log[..|log| - 1]), log[|log| - 1].prev);
    }
  }

  lemma UncheckedHolds(f: Fn, mssa: MemorySSA, aa: AAResults, pdt: (Id, Id) -> bool, c: Pair)
    requires PairsOk(f, mssa, aa, pdt) && DistinctIds(f) && RuledPair(f, mssa, aa, pdt, c)
    ensures Unchecked(f, aa, c)
  {
    hide NoneBetween, InFn;
    var s: Instr, p: Instr :| s.id == c.curr && p.id == c.prev && Rule(f, mssa, aa, pdt, s, p);
    var sq := PlaceOf(f, s);
    var pq := PlaceOf(f, p);
    assert Sheltered(f, aa, sq, pq);
    assert OnlyAt(f, sq) && OnlyAt(f, pq);
  }

  /** If the input's pairs meet the unchecked conditions, every pair the run erases meets them when its turn comes. */
  lemma {:induction false} PairsOkAllUnchecked(f: Fn, mssa: MemorySSA, aa: AAResults, pdt: (Id, Id) -> bool, log: seq<Pair>)
    requires PairsOk(f, mssa, aa, pdt) && DistinctIds(f) && AllRuled(f, mssa, aa, pdt, log)
    ensures AllUnchecked(f, aa, log)
    decreases |log|
  {
    if log != [] {
      var front := log[..|log| - 1];
      PairsOkAllUnchecked(f, mssa, aa, pdt, front);
      PairsOkAfter(f, mssa, aa, pdt, front);
      UncheckedHolds(EraseAll(f, front), mssa, aa, pdt, log[|log| - 1]);
    }
  }

  // The pass

  /** No store in the function is a candidate on account of s any more. */
  ghost predicate Settled(f: Fn, mssa: MemorySSA, aa: AAResults, pdt: (Id, Id) -> bool, s: Instr) {
    forall p: Instr :: !Rule(f, mssa, aa, pdt, s, p)
  }

  ghost predicate AllSettled(f: Fn, mssa: MemorySSA, aa: AAResults, pdt: (Id, Id) -> bool, body: seq<Instr>) {
    forall s :: s in body ==> Settled(f, mssa, aa, pdt, s)
  }

  lemma SettledKept(f: Fn, mssa: MemorySSA, aa: AAResults, pdt: (Id, Id) -> bool, id: Id, s: Instr)
    requires Settled(f, mssa, aa, pdt, s) || Clobbering(mssa, s.id) == Some(id)
    ensures Settled(Erase(f, id), mssa, aa, pdt, s)
  {
    ErasedIn(f, id);
    forall p: Instr
      ensures !Rule(Erase(f, id), mssa, aa, pdt, s, p)
    {
      assert Rule(Erase(f, id), mssa, aa, pdt, s, p) ==> p.id != id && Rule(f, mssa, aa, pdt, s, p);
    }
  }

  lemma SameInstr(f: Fn, i: Instr, j: Instr)
    requires DistinctIds(f) && InFn(f, i) && InFn(f, j) && i.id == j.id
    ensures i == j
  {
    var q := PlaceOf(f, i);
    var r := PlaceOf(f, j);
    assert OnlyAt(f, q);
  }

  /** Every block before position i of the order, and everything visited of the current block, is settled. */
  ghost predicate Scanned(f: Fn, mssa: MemorySSA, aa: AAResults, pdt: (Id, Id) -> bool, order: seq<Label>, i: nat, rest: seq<Instr>) {
    && i <= |order|
    && (forall j :: 0 <= j < i && order[j] in f.blocks ==> AllSettled(f, mssa, aa, pdt, f.blocks[order[j]].body))
    && AllSettled(f, mssa, aa, pdt, rest)
  }

  lemma ScannedKept(f: Fn, mssa: MemorySSA, aa: AAResults, pdt: (Id, Id) -> bool, order: seq<Label>, i: nat,
                    rest: seq<Instr>, s: Instr, id: Id)
    requires Scanned(f, mssa, aa, pdt, order, i, rest) && Clobbering(mssa, s.id) == Some(id)
    ensures Scanned(Erase(f, id), mssa, aa, pdt, order, i, Without([s] + rest, {id}))
  {
    var g := Erase(f, id);
    forall j | 0 <= j < i && order[j] in g.blocks
      ensures AllSettled(g, mssa, aa, pdt, g.blocks[order[j]].body)
    {
      var body := f.blocks[order[j]].body;
      WithoutIn(body, {id});
      forall x | x in g.blocks[order[j]].body
        ensures Settled(g, mssa, aa, pdt, x)
      {
        assert x in body;
        SettledKept(f, mssa, aa, pdt, id, x);
      }
    }
    WithoutIn([s] + rest, {id});
    forall x | x in Without([s] + rest, {id})
      ensures Settled(g, mssa, aa, pdt, x)
    {
      assert x == s || x in rest;
      SettledKept(f, mssa, aa, pdt, id, x);
    }
  }

  lemma ScannedBlock(f: Fn, mssa: MemorySSA, aa: AAResults, pdt: (Id, Id) -> bool, order: seq<Label>, i: nat)
    requires i < |order| && order[i] in f.blocks && Scanned(f, mssa, aa, pdt, order, i, f.blocks[order[i]].body)
    ensures Scanned(f, mssa, aa, pdt, order, i + 1, [])
  {
  }

  lemma ScannedMore(f: Fn, mssa: MemorySSA, aa: AAResults, pdt: (Id, Id) -> bool, order: seq<Label>, i: nat,
                    body: seq<Instr>, pos: nat)
    requires pos < |body| && Scanned(f, mssa, aa, pdt, order, i, body[pos + 1..]) && Settled(f, mssa, aa, pdt, body[pos])
    ensures Scanned(f, mssa, aa, pdt, order, i, body[pos..])
  {
    assert body[pos..] == [body[pos]] + body[pos + 1..];
  }

  lemma LogGrows(f: Fn, mssa: MemorySSA, aa: AAResults, pdt: (Id, Id) -> bool, log: seq<Pair>, s: Instr, p: Instr)
    requires AllRuled(f, mssa, aa, pdt, log) && Rule(EraseAll(f, log), mssa, aa, pdt, s, p)
    ensures AllRuled(f, mssa, aa, pdt, log + [Pair(s.id, p.id)])
    ensures EraseAll(f, log + [Pair(s.id, p.id)]) == Erase(EraseAll(f, log), p.id)
  {
    var log' := log + [Pair(s.id, p.id)];
    assert log'[..|log'| - 1] == log;
    assert RuledPair(EraseAll(f, log), mssa, aa, pdt, log'[|log'| - 1]);
  }

  class DeadStoreElimination {
    var fn: Fn

    constructor (f: Fn)
      ensures fn == f
    {
      fn := f;
    }

    method Lookup(id: Id) returns (i: Option<Instr>)
      ensures i.Some? ==> InFn(fn, i.value) && i.value.id == id
      ensures i.None? ==> forall j :: InFn(fn, j) ==> j.id != id
    {
      if l, k :| l in fn.blocks && 0 <= k < |fn.blocks[l].body| && fn.blocks[l].body[k].id == id {
        return Some(fn.blocks[l].body[k]);
      }
      return None;
    }

    /** The store that the code erases on account of s, if any. */
    method DeadBefore(mssa: MemorySSA, aa: AAResults, pdt: (Id, Id) -> bool, s: Instr) returns (dead: Option<Instr>)
      requires InFn(fn, s) && MssaOk(mssa) && DistinctIds(fn)
      ensures dead.Some? ==> Rule(fn, mssa, aa, pdt, s, dead.value)
      ensures dead.None? ==> Settled(fn, mssa, aa, pdt, s)
      ensures dead.Some? <==> exists l, p ::
                && l in fn.blocks && p in fn.blocks[l].body
                && s.op.Store? && s.ty.Void? && |s.args| == 2
                && p.op.Store? && p.ty.Void? && |p.args| == 2
                && mssa.walker.Some? && s.id in mssa.access && p.id in mssa.access
                && mssa.access[s.id] in mssa.defs && mssa.access[s.id] in mssa.walker.value
                && mssa.walker.value[mssa.access[s.id]] == mssa.access[p.id]
                && mssa.access[p.id] in mssa.defs && mssa.defs[mssa.access[p.id]] == Some(p.id)
                && aa(s.id, Location(p.args[1], p.op.bytes)).MustAlias? && pdt(s.id, p.id)
    {
      forall p: Instr
        ensures Rule(fn, mssa, aa, pdt, s, p) <==> (exists l :: l in fn.blocks && p in fn.blocks[l].body) && Proposed(mssa, aa, pdt, s, p)
      {
        RuleIs(fn, mssa, aa, pdt, s, p);
      }
      dead := None;
      if IsStore(s) {
        var prev := Clobbering(mssa, s.id);
        if prev.Some? {
          var p := Lookup(prev.value);
          if p.Some? && IsStore(p.value) {
            WalkNeverObjects(mssa, s.id, p.value.id);
            var intervening := HasInterveningUse(mssa, p.value.id, s.id);
            if aa(s.id, StoreLocation(p.value)).MustAlias? && !intervening && pdt(s.id, p.value.id) {
              return p;
            }
          }
          forall q: Instr
            ensures p.Some? && InFn(fn, q) && q.id == prev.value ==> q == p.value
          {
            if p.Some? && InFn(fn, q) && q.id == prev.value {
              SameInstr(fn, p.value, q);
            }
          }
        }
      }
    }

    /** Visits one block from its end. */
    method EraseInBlock(l: Label, mssa: MemorySSA, aa: AAResults, pdt: (Id, Id) -> bool, before: seq<Pair>,
                        ghost f: Fn, ghost order: seq<Label>, ghost i: nat)
      returns (log: seq<Pair>)
      requires MssaOk(mssa) && LogOk(f, fn, mssa, aa, pdt, before)
      requires i < |order| && order[i] == l && l in fn.blocks && Scanned(fn, mssa, aa, pdt, order, i, [])
      modifies this
      ensures LogOk(f, fn, mssa, aa, pdt, log) && Scanned(fn, mssa, aa, pdt, order, i + 1, [])
    {
      log := before;
      var pos: nat := |fn.blocks[l].body|;
      assert fn.blocks[l].body[pos..] == [];
      while pos > 0
        invariant LogOk(f, fn, mssa, aa, pdt, log)
        invariant l in fn.blocks && pos <= |fn.blocks[l].body|
        invariant Scanned(fn, mssa, aa, pdt, order, i, fn.blocks[l].body[pos..])
        decreases pos
      {
        var body := fn.blocks[l].body;
        pos := pos - 1;
        var s := body[pos];
        assert InFn(fn, s);
        hide Rule, Scanned, InFn, EraseAll, AllRuled, Settled, MssaOk, DistinctIds;
        var dead := DeadBefore(mssa, aa, pdt, s);
        if dead.Some? {
          var id := dead.value.id;
          EraseStep(f, fn, mssa, aa, pdt, log, order, i, l, pos, dead.value);
          log := log + [Pair(s.id, id)];
          fn := Erase(fn, id);
          pos := |Without(body[..pos], {id})|;
        } else {
          ScannedMore(fn, mssa, aa, pdt, order, i, body, pos);
        }
      }
      assert fn.blocks[l].body[0..] == fn.blocks[l].body;
      ScannedBlock(fn, mssa, aa, pdt, order, i);
    }

    /** Visits the blocks one after the other. */
    method VisitAll(order: seq<Label>, mssa: MemorySSA, aa: AAResults, pdt: (Id, Id) -> bool) returns (log: seq<Pair>)
      requires forall l :: l in order <==> l in fn.blocks
      requires MssaOk(mssa) && DistinctIds(fn)
      modifies this
      ensures LogOk(old(fn), fn, mssa, aa, pdt, log)
      ensures forall s: Instr, p: Instr :: !Rule(fn, mssa, aa, pdt, s, p)
    {
      ghost var f := fn;
      log := [];
      for i := 0 to |order|
        invariant LogOk(f, fn, mssa, aa, pdt, log)
        invariant Scanned(fn, mssa, aa, pdt, order, i, [])
      {
        log := EraseInBlock(order[i], mssa, aa, pdt, log, f, order, i);
      }
      Everywhere(fn, mssa, aa, pdt, order);
    }

    /**
     Visits every block from its end and erases what the rule proposes. Afterwards no pair satisfies the rule, and a
     well-formed function is well formed still. On the inputs the analyses are right about no run has changed if every
     pair also met the conditions the code leaves unchecked; it did if all pairs the rule proposes in the function as it
     was before the pass met them there.
     */
    method Run(order: seq<Label>, mssa: MemorySSA, aa: AAResults, pdt: (Id, Id) -> bool) returns (log: seq<Pair>)
      requires forall l :: l in order <==> l in fn.blocks
      requires MssaOk(mssa) && DistinctIds(fn)
      modifies this
      ensures fn == EraseAll(old(fn), log) && AllRuled(old(fn), mssa, aa, pdt, log)
      ensures forall s: Instr, p: Instr :: !Rule(fn, mssa, aa, pdt, s, p)
      ensures forall l, s ::
                && l in fn.blocks && s in fn.blocks[l].body && s.op.Store? && s.ty.Void? && |s.args| == 2
                && mssa.walker.Some? && s.id in mssa.access
                && mssa.access[s.id] in mssa.defs && mssa.access[s.id] in mssa.walker.value
                ==> forall m, p ::
                  && m in fn.blocks && p in fn.blocks[m].body && p.op.Store? && p.ty.Void? && |p.args| == 2
                  && p.id in mssa.access && mssa.walker.value[mssa.access[s.id]] == mssa.access[p.id]
                  && mssa.access[p.id] in mssa.defs && mssa.defs[mssa.access[p.id]] == Some(p.id)
                  ==> !(aa(s.id, Location(p.args[1], p.op.bytes)).MustAlias? && pdt(s.id, p.id))
      ensures forall j :: 0 <= j < |log| ==> ProposedIn(old(fn), mssa, aa, pdt, log[j])
      ensures fn.blocks.Keys == old(fn).blocks.Keys
      ensures forall l :: l in fn.blocks ==>
                && fn.blocks[l].phis == old(fn).blocks[l].phis && fn.blocks[l].term == old(fn).blocks[l].term
                && forall i :: i in fn.blocks[l].body <==> i in old(fn).blocks[l].body && forall j :: 0 <= j < |log| ==> log[j].prev != i.id
      ensures WellFormed(old(fn)) ==> WellFormed(fn)
      ensures PairsOk(old(fn), mssa, aa, pdt) ==> AllUnchecked(old(fn), aa, log)
      ensures forall ok: Inputs :: AnalysesOk(ok, old(fn), aa, pdt) && AllUnchecked(old(fn), aa, log) ==> SameFor(ok, old(fn), fn)
    {
      hide PairsOk;
      ghost var f := fn;
      log := VisitAll(order, mssa, aa, pdt);
      NoneProposed(fn, mssa, aa, pdt);
      LogIs(f, fn, mssa, aa, pdt, log);
      RunEnds(f, fn, mssa, aa, pdt, log);
    }
  }

  /** What the visits leave, in terms of the input. */
  lemma RunEnds(f: Fn, g: Fn, mssa: MemorySSA, aa: AAResults, pdt: (Id, Id) -> bool, log: seq<Pair>)
    requires MssaOk(mssa) && DistinctIds(f) && LogOk(f, g, mssa, aa, pdt, log)
    ensures WellFormed(f) ==> WellFormed(g)
    ensures PairsOk(f, mssa, aa, pdt) ==> AllUnchecked(f, aa, log)
    ensures forall ok: Inputs :: AnalysesOk(ok, f, aa, pdt) && AllUnchecked(f, aa, log) ==> SameFor(ok, f, g)
  {
    hide WellFormed, PairsOk, AnalysesOk, SameFor, DistinctIds, EraseAll, AllRuled, AllUnchecked, MssaOk;
    if WellFormed(f) {
      EraseAllWellFormed(f, mssa, aa, pdt, log);
    }
    if PairsOk(f, mssa, aa, pdt) {
      PairsOkAllUnchecked(f, mssa, aa, pdt, log);
    }
    forall ok: Inputs | AnalysesOk(ok, f, aa, pdt) && AllUnchecked(f, aa, log)
      ensures SameFor(ok, f, g)
    {
      EraseAllSameBehaviour(ok, f, mssa, aa, pdt, log);
    }
  }

  lemma NoneProposed(f: Fn, mssa: MemorySSA, aa: AAResults, pdt: (Id, Id) -> bool)
    requires MssaOk(mssa) && forall s: Instr, p: Instr :: !Rule(f, mssa, aa, pdt, s, p)
    ensures forall l, s ::
              && l in f.blocks && s in f.blocks[l].body && s.op.Store? && s.ty.Void? && |s.args| == 2
              && mssa.walker.Some? && s.id in mssa.access
              && mssa.access[s.id] in mssa.defs && mssa.access[s.id] in mssa.walker.value
              ==> forall m, p ::
                && m in f.blocks && p in f.blocks[m].body && p.op.Store? && p.ty.Void? && |p.args| == 2
                && p.id in mssa.access && mssa.walker.value[mssa.access[s.id]] == mssa.access[p.id]
                && mssa.access[p.id] in mssa.defs && mssa.defs[mssa.access[p.id]] == Some(p.id)
                ==> !(aa(s.id, Location(p.args[1], p.op.bytes)).MustAlias? && pdt(s.id, p.id))
  {
    forall l, s |
      && l in f.blocks && s in f.blocks[l].body && s.op.Store? && s.ty.Void? && |s.args| == 2
      && mssa.walker.Some? && s.id in mssa.access
      && mssa.access[s.id] in mssa.defs && mssa.access[s.id] in mssa.walker.value
      ensures forall m, p ::
                && m in f.blocks && p in f.blocks[m].body && p.op.Store? && p.ty.Void? && |p.args| == 2
                && p.id in mssa.access && mssa.walker.value[mssa.access[s.id]] == mssa.access[p.id]
                && mssa.access[p.id] in mssa.defs && mssa.defs[mssa.access[p.id]] == Some(p.id)
                ==> !(aa(s.id, Location(p.args[1], p.op.bytes)).MustAlias? && pdt(s.id, p.id))
    {
      forall m, p |
        && m in f.blocks && p in f.blocks[m].body && p.op.Store? && p.ty.Void? && |p.args| == 2
        && p.id in mssa.access && mssa.walker.value[mssa.access[s.id]] == mssa.access[p.id]
        && mssa.access[p.id] in mssa.defs && mssa.defs[mssa.access[p.id]] == Some(p.id)
        ensures !(aa(s.id, Location(p.args[1], p.op.bytes)).MustAlias? && pdt(s.id, p.id))
      {
        RuleIs(f, mssa, aa, pdt, s, p);
      }
    }
  }

  /** Each logged pair was a pair of stores of the function as it was, with everything the code asks of it. */
  lemma {:induction false} LoggedPair(f: Fn, mssa: MemorySSA, aa: AAResults, pdt: (Id, Id) -> bool, log: seq<Pair>, j: nat)
    returns (l: Label, m: Label, s: Instr, p: Instr)
    requires MssaOk(mssa) && AllRuled(f, mssa, aa, pdt, log) && j < |log|
    ensures l in f.blocks && s in f.blocks[l].body && m in f.blocks && p in f.blocks[m].body
    ensures s.id == log[j].curr && p.id == log[j].prev && Proposed(mssa, aa, pdt, s, p)
    decreases |log|
  {
    var front := log[..|log| - 1];
    if j < |front| {
      l, m, s, p := LoggedPair(f, mssa, aa, pdt, front, j);
    } else {
      var g := EraseAll(f, front);
      s, p :| s.id == log[j].curr && p.id == log[j].prev && Rule(g, mssa, aa, pdt, s, p);
      RuleIs(g, mssa, aa, pdt, s, p);
      ErasedExactly(f, front);
      l :| l in g.blocks && s in g.blocks[l].body;
      m :| m in g.blocks && p in g.blocks[m].body;
    }
  }

  lemma LoggedPairs(f: Fn, mssa: MemorySSA, aa: AAResults, pdt: (Id, Id) -> bool, log: seq<Pair>)
    requires MssaOk(mssa) && AllRuled(f, mssa, aa, pdt, log)
    ensures forall j :: 0 <= j < |log| ==> ProposedIn(f, mssa, aa, pdt, log[j])
  {
    forall j | 0 <= j < |log|
      ensures ProposedIn(f, mssa, aa, pdt, log[j])
    {
      var l, m, s, p := LoggedPair(f, mssa, aa, pdt, log, j);
    }
  }

  lemma LogIs(f: Fn, g: Fn, mssa: MemorySSA, aa: AAResults, pdt: (Id, Id) -> bool, log: seq<Pair>)
    requires MssaOk(mssa) && LogOk(f, g, mssa, aa, pdt, log)
    ensures g == EraseAll(f, log) && AllRuled(f, mssa, aa, pdt, log)
    ensures forall j :: 0 <= j < |log| ==> ProposedIn(f, mssa, aa, pdt, log[j])
    ensures g.blocks.Keys == f.blocks.Keys
    ensures forall l :: l in g.blocks ==>
              && g.blocks[l].phis == f.blocks[l].phis && g.blocks[l].term == f.blocks[l].term
              && forall i :: i in g.blocks[l].body <==> i in f.blocks[l].body && forall j :: 0 <= j < |log| ==> log[j].prev != i.id
  {
    hide AllRuled, EraseAll, MssaOk;
    LoggedPairs(f, mssa, aa, pdt, log);
    ErasedExactly(f, log);
  }

  /** What the logged ids name is gone, and nothing else. */
  lemma {:induction false} ErasedExactly(f: Fn, log: seq<Pair>)
    ensures var g := EraseAll(f, log);
            && g.blocks.Keys == f.blocks.Keys
            && forall l :: l in f.blocks ==>
                 && g.blocks[l].phis == f.blocks[l].phis && g.blocks[l].term == f.blocks[l].term
                 && forall i :: i in g.blocks[l].body <==> i in f.blocks[l].body && forall j :: 0 <= j < |log| ==> log[j].prev != i.id
    decreases |log|
  {
    if log != [] {
      var front, id := log[..|log| - 1], log[|log| - 1].prev;
      ErasedExactly(f, front);
      forall l | l in f.blocks
        ensures forall i :: i in EraseAll(f, log).blocks[l].body <==>
                  i in f.blocks[l].body && forall j :: 0 <= j < |log| ==> log[j].prev != i.id
      {
        WithoutIn(EraseAll(f, front).blocks[l].body, {id});
        assert forall i: Instr :: (forall j :: 0 <= j < |log| ==> log[j].prev != i.id)
                  <==> (forall j :: 0 <= j < |front| ==> front[j].prev != i.id) && id != i.id by {
          assert log == front + [log[|log| - 1]];
        }
      }
    }
  }

  /** g is what the logged erasures, each proposed by the rule, leave of f. */
  ghost predicate LogOk(f: Fn, g: Fn, mssa: MemorySSA, aa: AAResults, pdt: (Id, Id) -> bool, log: seq<Pair>) {
    g == EraseAll(f, log) && AllRuled(f, mssa, aa, pdt, log) && g.blocks.Keys == f.blocks.Keys && DistinctIds(g)
  }

  lemma EraseStep(f: Fn, g: Fn, mssa: MemorySSA, aa: AAResults, pdt: (Id, Id) -> bool, log: seq<Pair>,
                  order: seq<Label>, i: nat, l: Label, pos: nat, p: Instr)
    requires LogOk(f, g, mssa, aa, pdt, log) && l in g.blocks && pos < |g.blocks[l].body|
    requires Scanned(g, mssa, aa, pdt, order, i, g.blocks[l].body[pos + 1..])
    requires Rule(g, mssa, aa, pdt, g.blocks[l].body[pos], p)
    ensures LogOk(f, Erase(g, p.id), mssa, aa, pdt, log + [Pair(g.blocks[l].body[pos].id, p.id)])
    ensures var pos' := |Without(g.blocks[l].body[..pos], {p.id})|;
            var body' := Erase(g, p.id).blocks[l].body;
            pos' <= pos && pos' <= |body'| && Scanned(Erase(g, p.id), mssa, aa, pdt, order, i, body'[pos'..])
  {
    var body := g.blocks[l].body;
    var s := body[pos];
    RuleClobbers(g, mssa, aa, pdt, s, p);
    LogGrows(f, mssa, aa, pdt, log, s, p);
    hide Rule, Scanned, AllRuled, EraseAll;
    ScannedKept(g, mssa, aa, pdt, order, i, body[pos + 1..], s, p.id);
    DistinctKept(g, p.id);
    SplitWithout(body, pos, {p.id});
  }

  lemma RuleClobbers(f: Fn, mssa: MemorySSA, aa: AAResults, pdt: (Id, Id) -> bool, s: Instr, p: Instr)
    requires Rule(f, mssa, aa, pdt, s, p)
    ensures Clobbering(mssa, s.id) == Some(p.id)
  {
  }

  lemma Everywhere(f: Fn, mssa: MemorySSA, aa: AAResults, pdt: (Id, Id) -> bool, order: seq<Label>)
    requires forall l :: l in order <==> l in f.blocks
    requires Scanned(f, mssa, aa, pdt, order, |order|, [])
    ensures forall s: Instr, p: Instr :: !Rule(f, mssa, aa, pdt, s, p)
  {
    forall s: Instr, p: Instr
      ensures !Rule(f, mssa, aa, pdt, s, p)
    {
      if InFn(f, s) {
        var l :| l in f.blocks && s in f.blocks[l].body;
        var j :| 0 <= j < |order| && order[j] == l;
        assert AllSettled(f, mssa, aa, pdt, f.blocks[order[j]].body);
        assert Settled(f, mssa, aa, pdt, s);
      }
    }
  }
}
