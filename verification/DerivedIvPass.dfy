/** Induction variable elimination over a loop nest. */
module DerivedIvPass {
  import Bits
  import opened Ir
  import opened Semantics
  import opened Ssa
  import opened Rename
  import opened DerivedIv
  import opened DerivedIvSim
  import opened DerivedIvSsa

  /**
   Scalar evolution's answers: an affine recurrence of some loop, with its start, and its step if that is a constant.
   The pass never asks for the start.
   */
  datatype Scev = AddRec(header: Label, affine: bool, start: Operand, step: Option<int>) | Unknown

  type ScalarEvolution = map<Id, Scev>

  /** A loop, its canonical counter if it has one (with its width), and the loops inside it. */
  datatype LoopNest = LoopNest(header: Label, blocks: set<Label>, width: nat, canonical: Option<Id>, subs: seq<LoopNest>)

  datatype Derived = Derived(id: Id, width: nat)

  /** An integer PHI other than the counter that is an affine recurrence of this very loop. */
  predicate IsDerived(nest: LoopNest, se: ScalarEvolution, phi: Phi) {
    && nest.canonical != Some(phi.id)
    && phi.id in se && se[phi.id].AddRec? && se[phi.id].header == nest.header && se[phi.id].affine
    && phi.ty.Int?
  }

  function StepOf(se: ScalarEvolution, i: Id): Option<int> {
    if i in se && se[i].AddRec? then se[i].step else None
  }

  /** The derived variables among the first PHIs, in order. */
  function Collect(phis: seq<Phi>, nest: LoopNest, se: ScalarEvolution): seq<Derived> {
    if phis == [] then []
    else
      var last := phis[|phis| - 1];
      Collect(phis[..|phis| - 1], nest, se) + if IsDerived(nest, se, last) then [Derived(last.id, last.ty.width)] else []
  }

  /** Replaces the listed variables whose step is a constant; j products have been inserted so far. */
  function EliminateDerived(f: Fn, h: Label, se: ScalarEvolution, iv: Id, ds: seq<Derived>, j: nat): (g: Fn)
    requires h in f.blocks && j <= |f.blocks[h].body|
    ensures g.blocks.Keys == f.blocks.Keys
    decreases |ds|
  {
    if ds == [] then f
    else
      var c := StepOf(se, ds[0].id);
      if c.None? then EliminateDerived(f, h, se, iv, ds[1..], j)
      else EliminateDerived(Replace(f, h, ds[0].id, iv, ds[0].width, c.value, j), h, se, iv, ds[1..], j + 1)
  }

  /** Without a canonical counter the loop is left alone, and so are the loops inside it. */
  function Eliminate(f: Fn, nest: LoopNest, se: ScalarEvolution): (g: Fn)
    ensures g.blocks.Keys == f.blocks.Keys
    decreases nest
  {
    if nest.canonical.None? || nest.header !in f.blocks then f
    else
      var ds := Collect(f.blocks[nest.header].phis, nest, se);
      EliminateList(EliminateDerived(f, nest.header, se, nest.canonical.value, ds, 0), nest.subs, se)
  }

  function EliminateList(f: Fn, loops: seq<LoopNest>, se: ScalarEvolution): (g: Fn)
    ensures g.blocks.Keys == f.blocks.Keys
    decreases loops
  {
    if loops == [] then f else EliminateList(Eliminate(f, loops[0], se), loops[1..], se)
  }

  // What the analyses promise

  ghost predicate PhiOk(ok: Inputs, f: Fn, nest: LoopNest, se: ScalarEvolution, phi: Phi) {
    IsDerived(nest, se, phi) && StepOf(se, phi.id).Some? ==>
      phi.ty.width == nest.width && Recurs(ok, f, nest.header, nest.blocks, phi.id, nest.width, StepOf(se, phi.id).value)
  }

  ghost predicate LoopOk(ok: Inputs, f: Fn, nest: LoopNest, se: ScalarEvolution) {
    && nest.header in f.blocks
    && (nest.canonical.Some? ==>
          var phis := f.blocks[nest.header].phis;
          && Canonical(ok, f, nest.header, nest.blocks, nest.canonical.value, nest.width)
          && (forall k :: 0 <= k < |phis| ==> PhiOk(ok, f, nest, se, phis[k]))
          && (forall j, k :: 0 <= j < k < |phis| ==> phis[j].id != phis[k].id))
  }

  /** Scalar evolution is right about the whole nest, and every derived variable has the counter's type. */
  ghost predicate NestOk(ok: Inputs, f: Fn, nest: LoopNest, se: ScalarEvolution)
    decreases nest
  {
    LoopOk(ok, f, nest, se) && (nest.canonical.Some? ==> ListOk(ok, f, nest.subs, se))
  }

  ghost predicate ListOk(ok: Inputs, f: Fn, loops: seq<LoopNest>, se: ScalarEvolution)
    decreases loops
  {
    forall k :: 0 <= k < |loops| ==> NestOk(ok, f, loops[k], se)
  }

  /** Every variable to be replaced in this loop starts at zero. */
  ghost predicate LoopZero(ok: Inputs, f: Fn, nest: LoopNest, se: ScalarEvolution) {
    nest.header in f.blocks && nest.canonical.Some? ==>
      forall phi :: phi in f.blocks[nest.header].phis && IsDerived(nest, se, phi) && StepOf(se, phi.id).Some? ==>
        StartsAtZero(ok, f, nest.header, nest.blocks, phi.id)
  }

  ghost predicate NestZero(ok: Inputs, f: Fn, nest: LoopNest, se: ScalarEvolution)
    decreases nest
  {
    LoopZero(ok, f, nest, se) && (nest.canonical.Some? ==> ListZero(ok, f, nest.subs, se))
  }

  ghost predicate ListZero(ok: Inputs, f: Fn, loops: seq<LoopNest>, se: ScalarEvolution)
    decreases loops
  {
    forall k :: 0 <= k < |loops| ==> NestZero(ok, f, loops[k], se)
  }

  /** The starts scalar evolution gives for this loop's derived variables are right. */
  ghost predicate LoopStarts(ok: Inputs, f: Fn, nest: LoopNest, se: ScalarEvolution) {
    nest.header in f.blocks && nest.canonical.Some? ==>
      forall phi :: phi in f.blocks[nest.header].phis && IsDerived(nest, se, phi) && StepOf(se, phi.id).Some? ==>
        StartsWith(ok, f, nest.header, nest.blocks, phi.id, nest.width, se[phi.id].start)
  }

  ghost predicate NestStarts(ok: Inputs, f: Fn, nest: LoopNest, se: ScalarEvolution)
    decreases nest
  {
    LoopStarts(ok, f, nest, se) && (nest.canonical.Some? ==> ListStarts(ok, f, nest.subs, se))
  }

  ghost predicate ListStarts(ok: Inputs, f: Fn, loops: seq<LoopNest>, se: ScalarEvolution)
    decreases loops
  {
    forall k :: 0 <= k < |loops| ==> NestStarts(ok, f, loops[k], se)
  }

  predicate ZeroIn(x: Operand, w: nat) {
    x.Lit? && Bits.Wrap(x.val, w) == 0
  }

  /** The starts given for the variables to be replaced are constants, and zero. */
  ghost predicate AsksZero(f: Fn, nest: LoopNest, se: ScalarEvolution)
    decreases nest
  {
    && (nest.header in f.blocks && nest.canonical.Some? ==>
          forall phi :: phi in f.blocks[nest.header].phis && IsDerived(nest, se, phi) && StepOf(se, phi.id).Some? ==>
            ZeroIn(se[phi.id].start, nest.width))
    && (nest.canonical.Some? ==> ListAsksZero(f, nest.subs, se))
  }

  ghost predicate ListAsksZero(f: Fn, loops: seq<LoopNest>, se: ScalarEvolution)
    decreases loops
  {
    forall k :: 0 <= k < |loops| ==> AsksZero(f, loops[k], se)
  }

  /** Right answers that say zero mean that the variables do start at zero. */
  lemma AskedZero(ok: Inputs, f: Fn, nest: LoopNest, se: ScalarEvolution)
    requires NestStarts(ok, f, nest, se) && AsksZero(f, nest, se)
    ensures NestZero(ok, f, nest, se)
    decreases nest
  {
    if nest.header in f.blocks && nest.canonical.Some? {
      forall phi | phi in f.blocks[nest.header].phis && IsDerived(nest, se, phi) && StepOf(se, phi.id).Some?
        ensures StartsAtZero(ok, f, nest.header, nest.blocks, phi.id)
      {
        ZeroStart(ok, f, nest.header, nest.blocks, phi.id, nest.width, se[phi.id].start.val);
      }
    }
    if nest.canonical.Some? {
      ListAskedZero(ok, f, nest.subs, se);
    }
  }

  lemma ListAskedZero(ok: Inputs, f: Fn, loops: seq<LoopNest>, se: ScalarEvolution)
    requires ListStarts(ok, f, loops, se) && ListAsksZero(f, loops, se)
    ensures ListZero(ok, f, loops, se)
    decreases loops
  {
    forall k | 0 <= k < |loops|
      ensures NestZero(ok, f, loops[k], se)
    {
      AskedZero(ok, f, loops[k], se);
    }
  }

  function Headers(nest: LoopNest): set<Label>
    decreases nest
  {
    {nest.header} + HeadersOf(nest.subs)
  }

  function HeadersOf(loops: seq<LoopNest>): set<Label>
    decreases loops
  {
    if loops == [] then {} else Headers(loops[0]) + HeadersOf(loops[1..])
  }

  /** No two loops share a header. */
  predicate Distinct(nest: LoopNest)
    decreases nest
  {
    nest.header !in HeadersOf(nest.subs) && DistinctList(nest.subs)
  }

  predicate DistinctList(loops: seq<LoopNest>)
    decreases loops
  {
    loops == [] || (Distinct(loops[0]) && DistinctList(loops[1..]) && Headers(loops[0]) !! HeadersOf(loops[1..]))
  }

  // What elimination in some loops leaves true of the others

  predicate SamePhis(ps: seq<Phi>, qs: seq<Phi>) {
    |ps| == |qs| && forall k :: 0 <= k < |ps| ==> ps[k].id == qs[k].id && ps[k].ty == qs[k].ty
  }

  ghost predicate Keeps(ok: Inputs, f: Fn, g: Fn, hs: set<Label>) {
    && g.blocks.Keys == f.blocks.Keys
    && (forall h :: h in f.blocks && h !in hs ==> SamePhis(f.blocks[h].phis, g.blocks[h].phis))
    && (forall h, blocks, i, w, c :: h !in hs && Recurs(ok, f, h, blocks, i, w, c) ==> Recurs(ok, g, h, blocks, i, w, c))
    && (forall h, blocks, i :: h !in hs && PhiOnly(f, h, i) && StartsAtZero(ok, f, h, blocks, i) ==> StartsAtZero(ok, g, h, blocks, i))
    && (forall h, i :: h !in hs && PhiOnly(f, h, i) ==> PhiOnly(g, h, i))
  }

  lemma KeepsMore(ok: Inputs, f: Fn, g: Fn, hs: set<Label>, more: set<Label>)
    requires Keeps(ok, f, g, hs) && hs <= more
    ensures Keeps(ok, f, g, more)
  {
  }

  lemma KeepsThen(ok: Inputs, f: Fn, g: Fn, k: Fn, hs: set<Label>)
    requires Keeps(ok, f, g, hs) && Keeps(ok, g, k, hs)
    ensures Keeps(ok, f, k, hs)
  {
    hide Recurs, StartsAtZero, PhiOnly;
  }

  lemma LoopKept(ok: Inputs, f: Fn, g: Fn, hs: set<Label>, nest: LoopNest, se: ScalarEvolution)
    requires Keeps(ok, f, g, hs) && nest.header !in hs && LoopOk(ok, f, nest, se) && LoopZero(ok, f, nest, se)
    ensures LoopOk(ok, g, nest, se) && LoopZero(ok, g, nest, se)
  {
    var h := nest.header;
    var ps, qs := f.blocks[h].phis, g.blocks[h].phis;
    assert SamePhis(ps, qs);
    if nest.canonical.Some? {
      forall k | 0 <= k < |qs|
        ensures PhiOk(ok, g, nest, se, qs[k])
        ensures IsDerived(nest, se, qs[k]) && StepOf(se, qs[k].id).Some? ==> StartsAtZero(ok, g, h, nest.blocks, qs[k].id)
      {
        assert PhiOk(ok, f, nest, se, ps[k]);
        assert ps[k] in ps;
      }
    }
  }

  lemma NestKept(ok: Inputs, f: Fn, g: Fn, hs: set<Label>, nest: LoopNest, se: ScalarEvolution)
    requires Keeps(ok, f, g, hs) && Headers(nest) !! hs && NestOk(ok, f, nest, se) && NestZero(ok, f, nest, se)
    ensures NestOk(ok, g, nest, se) && NestZero(ok, g, nest, se)
    decreases nest
  {
    LoopKept(ok, f, g, hs, nest, se);
    if nest.canonical.Some? {
      ListKept(ok, f, g, hs, nest.subs, se);
    }
  }

  lemma {:induction false} HeaderAmong(loops: seq<LoopNest>, k: nat)
    requires k < |loops|
    ensures Headers(loops[k]) <= HeadersOf(loops)
  {
    if k > 0 {
      HeaderAmong(loops[1..], k - 1);
    }
  }

  lemma ListKept(ok: Inputs, f: Fn, g: Fn, hs: set<Label>, loops: seq<LoopNest>, se: ScalarEvolution)
    requires Keeps(ok, f, g, hs) && HeadersOf(loops) !! hs && ListOk(ok, f, loops, se) && ListZero(ok, f, loops, se)
    ensures ListOk(ok, g, loops, se) && ListZero(ok, g, loops, se)
    decreases loops
  {
    forall k | 0 <= k < |loops|
      ensures NestOk(ok, g, loops[k], se) && NestZero(ok, g, loops[k], se)
    {
      HeaderAmong(loops, k);
      NestKept(ok, f, g, hs, loops[k], se);
    }
  }

  // One replacement

  lemma ReplaceKeeps(ok: Inputs, f: Fn, h: Label, d: Id, iv: Id, w: nat, c: int, j: nat)
    requires Replaceable(f, h, d, iv, j) && IsMultiple(ok, f, h, d, iv, w, c) && SafeFor(ok, f)
    ensures Keeps(ok, f, Replace(f, h, d, iv, w, c, j), {h})
  {
    var g := Replace(f, h, d, iv, w, c, j);
    forall h2, i | h2 !in {h} && PhiOnly(f, h2, i)
      ensures i != d && PhiOnly(g, h2, i)
    {
      NotBoth(f, h, d, h2, i);
      PhiOnlyKept(f, h, d, iv, w, c, j, h2, i);
    }
    forall h2, blocks, i, w2, c2 | h2 !in {h} && Recurs(ok, f, h2, blocks, i, w2, c2)
      ensures Recurs(ok, g, h2, blocks, i, w2, c2)
    {
      NotBoth(f, h, d, h2, i);
      RecursKept(ok, f, h, d, iv, w, c, j, h2, blocks, i, w2, c2);
    }
    forall h2, blocks, i | h2 !in {h} && PhiOnly(f, h2, i) && StartsAtZero(ok, f, h2, blocks, i)
      ensures StartsAtZero(ok, g, h2, blocks, i)
    {
      NotBoth(f, h, d, h2, i);
      StartKept(ok, f, h, d, iv, w, c, j, h2, blocks, i);
    }
    assert forall h2 :: h2 in f.blocks && h2 != h ==> SamePhis(f.blocks[h2].phis, g.blocks[h2].phis);
  }

  lemma NotBoth(f: Fn, h: Label, d: Id, h2: Label, i: Id)
    requires PhiOnly(f, h, d) && PhiOnly(f, h2, i) && h2 != h
    ensures i != d
  {
    var k :| 0 <= k < |f.blocks[h2].phis| && f.blocks[h2].phis[k].id == i;
    assert f.blocks[h2].phis[k].id != d;
  }

  ghost predicate DerivedOk(ok: Inputs, f: Fn, nest: LoopNest, se: ScalarEvolution, iv: Id, d: Derived) {
    StepOf(se, d.id).Some? ==>
      && d.id != iv && d.width == nest.width
      && Recurs(ok, f, nest.header, nest.blocks, d.id, nest.width, StepOf(se, d.id).value)
      && StartsAtZero(ok, f, nest.header, nest.blocks, d.id)
  }

  /** What holds whenever the next variable is taken from the list. */
  ghost predicate ReadyFor(ok: Inputs, f: Fn, nest: LoopNest, se: ScalarEvolution, iv: Id, ds: seq<Derived>, j: nat) {
    && NamesBelow(f) && SafeFor(ok, f) && Canonical(ok, f, nest.header, nest.blocks, iv, nest.width)
    && j <= |f.blocks[nest.header].body|
    && (forall q :: 0 <= q < j ==> OnlyReads(f.blocks[nest.header].body[q], iv))
    && (forall k :: 0 <= k < |ds| ==> DerivedOk(ok, f, nest, se, iv, ds[k]))
    && DistinctDerived(ds)
  }

  predicate OnlyReads(i: Instr, iv: Id) {
    forall x :: x in i.args && x.Local? ==> x.id == iv
  }

  lemma ReadyReplace(ok: Inputs, f: Fn, nest: LoopNest, se: ScalarEvolution, iv: Id, ds: seq<Derived>, j: nat)
    requires ReadyFor(ok, f, nest, se, iv, ds, j) && ds != [] && StepOf(se, ds[0].id).Some?
    ensures var d, c := ds[0], StepOf(se, ds[0].id).value;
            Replaceable(f, nest.header, d.id, iv, j) && IsMultiple(ok, f, nest.header, d.id, iv, d.width, c)
  {
    var d, c := ds[0], StepOf(se, ds[0].id).value;
    assert DerivedOk(ok, f, nest, se, iv, d);
    MultipleIffZeroStart(ok, f, nest.header, nest.blocks, d.id, iv, nest.width, c);
    assert forall q :: 0 <= q < j ==> OnlyReads(f.blocks[nest.header].body[q], iv) && Local(d.id) !in f.blocks[nest.header].body[q].args;
  }

  lemma DerivedKept(ok: Inputs, f: Fn, nest: LoopNest, se: ScalarEvolution, iv: Id, ds: seq<Derived>, j: nat, k: nat)
    requires ReadyFor(ok, f, nest, se, iv, ds, j) && ds != [] && StepOf(se, ds[0].id).Some? && 0 < k < |ds|
    requires var d, c := ds[0], StepOf(se, ds[0].id).value;
             Replaceable(f, nest.header, d.id, iv, j) && IsMultiple(ok, f, nest.header, d.id, iv, d.width, c)
    ensures DerivedOk(ok, Replace(f, nest.header, ds[0].id, iv, ds[0].width, StepOf(se, ds[0].id).value, j), nest, se, iv, ds[k])
  {
    var d, c, e := ds[0], StepOf(se, ds[0].id).value, ds[k];
    assert DerivedOk(ok, f, nest, se, iv, e);
    hide Recurs, StartsAtZero, Replaceable, IsMultiple, Replace, SafeFor, NamesBelow;
    if StepOf(se, e.id).Some? {
      RecursPhi(ok, f, nest.header, nest.blocks, e.id, nest.width, StepOf(se, e.id).value);
      RecursKept(ok, f, nest.header, d.id, iv, d.width, c, j, nest.header, nest.blocks, e.id, nest.width, StepOf(se, e.id).value);
      StartKept(ok, f, nest.header, d.id, iv, d.width, c, j, nest.header, nest.blocks, e.id);
    }
  }

  lemma RecursPhi(ok: Inputs, f: Fn, h: Label, blocks: set<Label>, i: Id, w: nat, c: int)
    requires Recurs(ok, f, h, blocks, i, w, c)
    ensures PhiOnly(f, h, i)
  {
  }

  lemma HeaderBody(f: Fn, h: Label, d: Id, iv: Id, w: nat, c: int, j: nat)
    requires h in f.blocks && j <= |f.blocks[h].body| && d != iv
    requires forall q :: 0 <= q < j ==> OnlyReads(f.blocks[h].body[q], iv)
    ensures var body' := Replace(f, h, d, iv, w, c, j).blocks[h].body;
            j + 1 <= |body'| && forall q :: 0 <= q < j + 1 ==> OnlyReads(body'[q], iv)
  {
    var r: Sub := map[d := f.nextId];
    var body := f.blocks[h].body;
    var body' := Replace(f, h, d, iv, w, c, j).blocks[h].body;
    assert body' == RenBody(r, body[..j]) + [Scale(f.nextId, w, c, iv)] + RenBody(r, body[j..]);
    forall q | 0 <= q < j + 1
      ensures OnlyReads(body'[q], iv)
    {
      if q < j {
        var args := body[q].args;
        forall x | x in RenArgs(r, args) && x.Local?
          ensures x.id == iv
        {
          var a :| 0 <= a < |args| && RenArgs(r, args)[a] == x;
          assert args[a] in args;
        }
      } else {
        assert body'[q] == Scale(f.nextId, w, c, iv);
      }
    }
  }

  /** One variable replaced: no run changes, and everything is ready for the next one. */
  lemma ReplaceOne(ok: Inputs, f: Fn, nest: LoopNest, se: ScalarEvolution, iv: Id, ds: seq<Derived>, j: nat)
    requires ReadyFor(ok, f, nest, se, iv, ds, j) && ds != [] && StepOf(se, ds[0].id).Some?
    ensures var g := Replace(f, nest.header, ds[0].id, iv, ds[0].width, StepOf(se, ds[0].id).value, j);
            ReadyFor(ok, g, nest, se, iv, ds[1..], j + 1) && SameFor(ok, f, g) && Keeps(ok, f, g, {nest.header})
  {
    var h, d, c := nest.header, ds[0], StepOf(se, ds[0].id).value;
    var g := Replace(f, h, d.id, iv, d.width, c, j);
    ReadyReplace(ok, f, nest, se, iv, ds, j);
    forall k | 0 < k < |ds|
      ensures DerivedOk(ok, g, nest, se, iv, ds[k])
    {
      DerivedKept(ok, f, nest, se, iv, ds, j, k);
    }
    assert DerivedOk(ok, f, nest, se, iv, d);
    HeaderBody(f, h, d.id, iv, d.width, c, j);
    ReplaceSameBehaviour(ok, f, h, d.id, iv, d.width, c, j);
    ReplaceKeeps(ok, f, h, d.id, iv, d.width, c, j);
    ReplaceBelow(f, h, d.id, iv, d.width, c, j);
    SafeForKept(ok, f, g);
    RecursPhi(ok, f, h, nest.blocks, iv, nest.width, 1);
    RecursKept(ok, f, h, d.id, iv, d.width, c, j, h, nest.blocks, iv, nest.width, 1);
    StartKept(ok, f, h, d.id, iv, d.width, c, j, h, nest.blocks, iv);
  }

  lemma ReadySkip(ok: Inputs, f: Fn, nest: LoopNest, se: ScalarEvolution, iv: Id, ds: seq<Derived>, j: nat)
    requires ReadyFor(ok, f, nest, se, iv, ds, j) && ds != []
    ensures ReadyFor(ok, f, nest, se, iv, ds[1..], j)
  {
  }

  lemma KeepsSelf(ok: Inputs, f: Fn, hs: set<Label>)
    ensures Keeps(ok, f, f, hs)
  {
  }

  lemma {:induction false} DerivedSameBehaviour(ok: Inputs, f: Fn, nest: LoopNest, se: ScalarEvolution, iv: Id, ds: seq<Derived>, j: nat)
    requires nest.header in f.blocks && ReadyFor(ok, f, nest, se, iv, ds, j)
    ensures var g := EliminateDerived(f, nest.header, se, iv, ds, j);
            SameFor(ok, f, g) && Keeps(ok, f, g, {nest.header}) && NamesBelow(g) && SafeFor(ok, g)
    decreases |ds|
  {
    if ds == [] {
      SameForReflexive(ok, f);
      KeepsSelf(ok, f, {nest.header});
    } else if StepOf(se, ds[0].id).None? {
      ReadySkip(ok, f, nest, se, iv, ds, j);
      DerivedSameBehaviour(ok, f, nest, se, iv, ds[1..], j);
    } else {
      var f1 := Replace(f, nest.header, ds[0].id, iv, ds[0].width, StepOf(se, ds[0].id).value, j);
      ReplaceOne(ok, f, nest, se, iv, ds, j);
      hide ReadyFor, SameFor, Keeps, NamesBelow, SafeFor;
      DerivedSameBehaviour(ok, f1, nest, se, iv, ds[1..], j + 1);
      var g := EliminateDerived(f, nest.header, se, iv, ds, j);
      SameForTransitive(ok, f, f1, g);
      KeepsThen(ok, f, f1, g, {nest.header});
    }
  }

  // Whole nests

  lemma {:induction false} CollectedFrom(phis: seq<Phi>, nest: LoopNest, se: ScalarEvolution, k: nat) returns (m: nat)
    requires k < |Collect(phis, nest, se)|
    ensures m < |phis| && IsDerived(nest, se, phis[m]) && Collect(phis, nest, se)[k] == Derived(phis[m].id, phis[m].ty.width)
    decreases |phis|
  {
    var front := phis[..|phis| - 1];
    if k < |Collect(front, nest, se)| {
      m := CollectedFrom(front, nest, se, k);
    } else {
      m := |phis| - 1;
    }
  }

  ghost predicate DistinctDerived(ds: seq<Derived>) {
    forall k, m :: 0 <= k < m < |ds| ==> ds[k].id != ds[m].id
  }

  lemma {:induction false} CollectedDistinct(phis: seq<Phi>, nest: LoopNest, se: ScalarEvolution)
    requires forall j, k :: 0 <= j < k < |phis| ==> phis[j].id != phis[k].id
    ensures DistinctDerived(Collect(phis, nest, se))
    decreases |phis|
  {
    if phis != [] {
      var front := phis[..|phis| - 1];
      CollectedDistinct(front, nest, se);
      var ds := Collect(front, nest, se);
      forall k | 0 <= k < |ds|
        ensures ds[k].id != phis[|phis| - 1].id
      {
        var m := CollectedFrom(front, nest, se, k);
        assert phis[m].id != phis[|phis| - 1].id;
      }
    }
  }

  lemma ReadyAtStart(ok: Inputs, f: Fn, nest: LoopNest, se: ScalarEvolution)
    requires NamesBelow(f) && SafeFor(ok, f) && LoopOk(ok, f, nest, se) && LoopZero(ok, f, nest, se) && nest.canonical.Some?
    ensures ReadyFor(ok, f, nest, se, nest.canonical.value, Collect(f.blocks[nest.header].phis, nest, se), 0)
  {
    var phis := f.blocks[nest.header].phis;
    var ds := Collect(phis, nest, se);
    CollectedDistinct(phis, nest, se);
    forall k | 0 <= k < |ds|
      ensures DerivedOk(ok, f, nest, se, nest.canonical.value, ds[k])
    {
      var m := CollectedFrom(phis, nest, se, k);
      assert PhiOk(ok, f, nest, se, phis[m]);
      assert phis[m] in phis;
    }
  }

  /** What elimination in loops with these headers does to a function, whatever else it contains. */
  ghost predicate Good(ok: Inputs, f: Fn, g: Fn, hs: set<Label>) {
    SameFor(ok, f, g) && Keeps(ok, f, g, hs) && NamesBelow(g) && SafeFor(ok, g)
  }

  lemma GoodThen(ok: Inputs, f: Fn, g: Fn, k: Fn, a: set<Label>, b: set<Label>)
    requires Good(ok, f, g, a) && Good(ok, g, k, b)
    ensures Good(ok, f, k, a + b)
  {
    SameForTransitive(ok, f, g, k);
    hide SameFor, NamesBelow, SafeFor;
    KeepsMore(ok, f, g, a, a + b);
    KeepsMore(ok, g, k, b, a + b);
    KeepsThen(ok, f, g, k, a + b);
  }

  /**
   Eliminating every derived variable of a nest, inner loops included, changes no run when each of them starts at zero
   whenever its loop is entered.
   */
  lemma EliminateGood(ok: Inputs, f: Fn, nest: LoopNest, se: ScalarEvolution)
    requires NamesBelow(f) && SafeFor(ok, f) && Distinct(nest) && NestOk(ok, f, nest, se) && NestZero(ok, f, nest, se)
    ensures Good(ok, f, Eliminate(f, nest, se), Headers(nest))
    ensures NoneLeft(Eliminate(f, nest, se), nest, se)
    decreases nest
  {
    NoneLeftNow(f, nest, se);
    hide NoneLeft;
    if nest.canonical.None? {
      SameForReflexive(ok, f);
      KeepsSelf(ok, f, Headers(nest));
    } else {
      var h, iv := nest.header, nest.canonical.value;
      var ds := Collect(f.blocks[h].phis, nest, se);
      ReadyAtStart(ok, f, nest, se);
      DerivedSameBehaviour(ok, f, nest, se, iv, ds, 0);
      var f1 := EliminateDerived(f, h, se, iv, ds, 0);
      hide SameFor, Keeps, NamesBelow, SafeFor;
      assert Good(ok, f, f1, {h});
      ListKept(ok, f, f1, {h}, nest.subs, se);
      ListGood(ok, f1, nest.subs, se);
      GoodThen(ok, f, f1, Eliminate(f, nest, se), {h}, HeadersOf(nest.subs));
    }
  }

  lemma RestOk(ok: Inputs, f: Fn, loops: seq<LoopNest>, se: ScalarEvolution)
    requires loops != [] && ListOk(ok, f, loops, se) && ListZero(ok, f, loops, se)
    ensures ListOk(ok, f, loops[1..], se) && ListZero(ok, f, loops[1..], se)
  {
    hide NestOk, NestZero;
    var rest := loops[1..];
    assert forall k :: 0 <= k < |rest| ==> rest[k] == loops[k + 1];
  }

  lemma ListGood(ok: Inputs, f: Fn, loops: seq<LoopNest>, se: ScalarEvolution)
    requires NamesBelow(f) && SafeFor(ok, f) && DistinctList(loops) && ListOk(ok, f, loops, se) && ListZero(ok, f, loops, se)
    ensures Good(ok, f, EliminateList(f, loops, se), HeadersOf(loops))
    decreases loops
  {
    if loops == [] {
      SameForReflexive(ok, f);
      KeepsSelf(ok, f, {});
    } else {
      var f1, rest := Eliminate(f, loops[0], se), loops[1..];
      assert EliminateList(f, loops, se) == EliminateList(f1, rest, se);
      hide Eliminate, EliminateList, SameFor, Keeps, NamesBelow, SafeFor, NestOk, NestZero;
      EliminateGood(ok, f, loops[0], se);
      RestOk(ok, f, loops, se);
      ListKept(ok, f, f1, Headers(loops[0]), rest, se);
      ListGood(ok, f1, rest, se);
      GoodThen(ok, f, f1, EliminateList(f, loops, se), Headers(loops[0]), HeadersOf(rest));
    }
  }

  // What is left of the text

  /** Scalar evolution calls phi, an integer other than the counter, an affine recurrence of this very loop with a constant step. */
  predicate ToReplace(nest: LoopNest, se: ScalarEvolution, phi: Phi) {
    && phi.ty.Int? && nest.canonical != Some(phi.id)
    && phi.id in se && se[phi.id].AddRec?
    && se[phi.id].affine && se[phi.id].header == nest.header && se[phi.id].step.Some?
  }

  /** Such PHIs are gone from this loop and the loops inside it, as far as they are reached through loops with a counter. */
  ghost predicate NoneLeft(g: Fn, nest: LoopNest, se: ScalarEvolution)
    decreases nest
  {
    nest.canonical.Some? && nest.header in g.blocks ==>
      && (forall phi :: phi in g.blocks[nest.header].phis ==> !ToReplace(nest, se, phi))
      && forall k :: 0 <= k < |nest.subs| ==> NoneLeft(g, nest.subs[k], se)
  }

  /** The loop, or one inside it reached through loops with a counter, has its header at l and phi among those to replace. */
  ghost predicate Goes(nest: LoopNest, se: ScalarEvolution, l: Label, phi: Phi)
    decreases nest
  {
    nest.canonical.Some?
    && ((l == nest.header && ToReplace(nest, se, phi)) || exists k :: 0 <= k < |nest.subs| && Goes(nest.subs[k], se, l, phi))
  }

  predicate StillThere(phis: seq<Phi>, phi: Phi) {
    exists k :: 0 <= k < |phis| && phis[k].id == phi.id && phis[k].ty == phi.ty
  }

  /** Every PHI of g is, but for its operands, a PHI of f. */
  ghost predicate PhisFrom(f: Fn, g: Fn) {
    g.blocks.Keys == f.blocks.Keys && forall l, phi :: l in f.blocks && phi in g.blocks[l].phis ==> StillThere(f.blocks[l].phis, phi)
  }

  lemma PhisFromTransitive(f: Fn, g: Fn, k: Fn)
    requires PhisFrom(f, g) && PhisFrom(g, k)
    ensures PhisFrom(f, k)
  {
    forall l, phi | l in f.blocks && phi in k.blocks[l].phis
      ensures StillThere(f.blocks[l].phis, phi)
    {
      assert StillThere(g.blocks[l].phis, phi);
      var j :| 0 <= j < |g.blocks[l].phis| && g.blocks[l].phis[j].id == phi.id && g.blocks[l].phis[j].ty == phi.ty;
      assert g.blocks[l].phis[j] in g.blocks[l].phis;
      assert StillThere(f.blocks[l].phis, g.blocks[l].phis[j]);
    }
  }

  lemma StillNoneLeft(f: Fn, g: Fn, nest: LoopNest, se: ScalarEvolution)
    requires PhisFrom(f, g) && NoneLeft(f, nest, se)
    ensures NoneLeft(g, nest, se)
    decreases nest
  {
    if nest.canonical.Some? && nest.header in g.blocks {
      var h := nest.header;
      forall phi | phi in g.blocks[h].phis
        ensures !ToReplace(nest, se, phi)
      {
        assert StillThere(f.blocks[h].phis, phi);
        var j :| 0 <= j < |f.blocks[h].phis| && f.blocks[h].phis[j].id == phi.id && f.blocks[h].phis[j].ty == phi.ty;
        assert f.blocks[h].phis[j] in f.blocks[h].phis;
      }
      forall k | 0 <= k < |nest.subs|
        ensures NoneLeft(g, nest.subs[k], se)
      {
        StillNoneLeft(f, g, nest.subs[k], se);
      }
    }
  }

  /** From block h exactly the PHIs with these ids are gone, from the others none. */
  ghost predicate Taken(f: Fn, g: Fn, h: Label, ids: set<Id>) {
    && h in f.blocks && PhisFrom(f, g)
    && (forall phi :: phi in g.blocks[h].phis ==> phi.id !in ids)
    && forall l, phi :: Stays(f, g, h, ids, l, phi)
  }

  ghost predicate Stays(f: Fn, g: Fn, h: Label, ids: set<Id>, l: Label, phi: Phi) {
    l in f.blocks && phi in f.blocks[l].phis && (l != h || phi.id !in ids) ==> l in g.blocks && StillThere(g.blocks[l].phis, phi)
  }

  lemma TakenThen(f: Fn, g: Fn, k: Fn, h: Label, a: set<Id>, b: set<Id>)
    requires Taken(f, g, h, a) && Taken(g, k, h, b)
    ensures Taken(f, k, h, a + b)
  {
    PhisFromTransitive(f, g, k);
    forall phi | phi in k.blocks[h].phis
      ensures phi.id !in a
    {
      assert StillThere(g.blocks[h].phis, phi);
      var j :| 0 <= j < |g.blocks[h].phis| && g.blocks[h].phis[j].id == phi.id;
      assert g.blocks[h].phis[j] in g.blocks[h].phis;
    }
    forall l, phi: Phi
      ensures Stays(f, k, h, a + b, l, phi)
    {
      if l in f.blocks && phi in f.blocks[l].phis && (l != h || phi.id !in a + b) {
        StaysTwice(f, g, k, h, a, b, l, phi);
      }
    }
  }

  lemma StaysTwice(f: Fn, g: Fn, k: Fn, h: Label, a: set<Id>, b: set<Id>, l: Label, phi: Phi)
    requires Taken(f, g, h, a) && Taken(g, k, h, b)
    requires l in f.blocks && phi in f.blocks[l].phis && (l != h || (phi.id !in a && phi.id !in b))
    ensures StillThere(k.blocks[l].phis, phi)
  {
    assert Stays(f, g, h, a, l, phi);
    var j :| 0 <= j < |g.blocks[l].phis| && g.blocks[l].phis[j].id == phi.id && g.blocks[l].phis[j].ty == phi.ty;
    assert g.blocks[l].phis[j] in g.blocks[l].phis;
    assert Stays(g, k, h, b, l, g.blocks[l].phis[j]);
  }

  lemma TakeOne(f: Fn, h: Label, d: Id, iv: Id, w: nat, c: int, j: nat)
    requires h in f.blocks && j <= |f.blocks[h].body|
    ensures Taken(f, Replace(f, h, d, iv, w, c, j), h, {d})
  {
    var g := Replace(f, h, d, iv, w, c, j);
    forall l, phi | l in f.blocks && phi in g.blocks[l].phis
      ensures StillThere(f.blocks[l].phis, phi) && (l == h ==> phi.id != d)
    {
      var k' :| 0 <= k' < |g.blocks[l].phis| && g.blocks[l].phis[k'] == phi;
      var k := PhiBefore(f, h, d, iv, w, c, j, l, k');
      ReplacedPhis(f, h, d, iv, w, c, j, l);
      assert phi.id in PhiDefs(g.blocks[l].phis);
    }
    forall l, phi | l in f.blocks && phi in f.blocks[l].phis && (l != h || phi.id != d)
      ensures StillThere(g.blocks[l].phis, phi)
    {
      ReplacedPhis(f, h, d, iv, w, c, j, l);
      var rest := if l == h then DropPhi(f.blocks[l].phis, d) else f.blocks[l].phis;
      DroppedIn(f.blocks[l].phis, d);
      var k :| 0 <= k < |rest| && rest[k] == phi;
      assert g.blocks[l].phis[k].id == phi.id && g.blocks[l].phis[k].ty == phi.ty;
    }
  }

  function ConstantSteps(se: ScalarEvolution, ds: seq<Derived>): set<Id> {
    set k | 0 <= k < |ds| && StepOf(se, ds[k].id).Some? :: ds[k].id
  }

  lemma ConstantStepsCons(se: ScalarEvolution, ds: seq<Derived>)
    requires ds != []
    ensures ConstantSteps(se, ds) == ConstantSteps(se, ds[1..]) + if StepOf(se, ds[0].id).Some? then {ds[0].id} else {}
  {
    var rest := ds[1..];
    assert forall k :: 0 <= k < |rest| ==> rest[k] == ds[k + 1];
    forall x
      ensures x in ConstantSteps(se, ds) <==> x in ConstantSteps(se, rest) || (x == ds[0].id && StepOf(se, x).Some?)
    {
      if x in ConstantSteps(se, ds) {
        var k :| 0 <= k < |ds| && StepOf(se, ds[k].id).Some? && ds[k].id == x;
        assert k > 0 ==> rest[k - 1] == ds[k];
      }
      if x in ConstantSteps(se, rest) {
        var k :| 0 <= k < |rest| && StepOf(se, rest[k].id).Some? && rest[k].id == x;
        assert ds[k + 1].id == x;
      }
    }
  }

  lemma TakeNone(f: Fn, h: Label)
    requires h in f.blocks
    ensures Taken(f, f, h, {})
  {
    forall l, phi | l in f.blocks && phi in f.blocks[l].phis
      ensures StillThere(f.blocks[l].phis, phi)
    {
    }
  }

  /** Eliminating listed variables takes away those with a constant step. */
  lemma {:induction false} TakeListed(f: Fn, h: Label, se: ScalarEvolution, iv: Id, ds: seq<Derived>, j: nat)
    requires h in f.blocks && j <= |f.blocks[h].body|
    ensures Taken(f, EliminateDerived(f, h, se, iv, ds, j), h, ConstantSteps(se, ds))
    decreases |ds|
  {
    hide Taken, ConstantSteps;
    if ds == [] {
      TakeNone(f, h);
      assert ConstantSteps(se, []) == {} by {
        NoSteps(se);
      }
    } else {
      ConstantStepsCons(se, ds);
      var i, c := ds[0].id, StepOf(se, ds[0].id);
      if c.None? {
        TakeListed(f, h, se, iv, ds[1..], j);
        assert ConstantSteps(se, ds) == ConstantSteps(se, ds[1..]);
      } else {
        var f1 := Replace(f, h, i, iv, ds[0].width, c.value, j);
        LongerBody(f, h, i, iv, ds[0].width, c.value, j);
        TakeOne(f, h, i, iv, ds[0].width, c.value, j);
        TakeListed(f1, h, se, iv, ds[1..], j + 1);
        TakenThen(f, f1, EliminateDerived(f1, h, se, iv, ds[1..], j + 1), h, {i}, ConstantSteps(se, ds[1..]));
        assert {i} + ConstantSteps(se, ds[1..]) == ConstantSteps(se, ds);
      }
    }
  }

  lemma NoSteps(se: ScalarEvolution)
    ensures ConstantSteps(se, []) == {}
  {
  }

  lemma {:induction false} CollectHas(phis: seq<Phi>, nest: LoopNest, se: ScalarEvolution, phi: Phi)
    requires phi in phis && IsDerived(nest, se, phi)
    ensures exists k :: 0 <= k < |Collect(phis, nest, se)| && Collect(phis, nest, se)[k].id == phi.id
    decreases |phis|
  {
    var n := |phis| - 1;
    var front := phis[..n];
    var ds := Collect(front, nest, se);
    if phi in front {
      CollectHas(front, nest, se, phi);
      var k :| 0 <= k < |ds| && ds[k].id == phi.id;
      assert Collect(phis, nest, se)[k] == ds[k];
    } else {
      assert phi == phis[n];
      assert Collect(phis, nest, se)[|ds|].id == phi.id;
    }
  }

  /** What is taken from the header is what is to be replaced there. */
  lemma CollectIs(phis: seq<Phi>, nest: LoopNest, se: ScalarEvolution)
    ensures var ids := ConstantSteps(se, Collect(phis, nest, se));
            && (forall phi :: phi in phis && ToReplace(nest, se, phi) ==> phi.id in ids)
            && (forall i :: i in ids ==> exists phi :: phi in phis && phi.id == i && ToReplace(nest, se, phi))
  {
    var ds := Collect(phis, nest, se);
    forall phi | phi in phis && ToReplace(nest, se, phi)
      ensures phi.id in ConstantSteps(se, ds)
    {
      CollectHas(phis, nest, se, phi);
      var k :| 0 <= k < |ds| && ds[k].id == phi.id;
    }
    forall i | i in ConstantSteps(se, ds)
      ensures exists phi :: phi in phis && phi.id == i && ToReplace(nest, se, phi)
    {
      var k :| 0 <= k < |ds| && StepOf(se, ds[k].id).Some? && ds[k].id == i;
      var m := CollectedFrom(phis, nest, se, k);
      assert phis[m] in phis && ToReplace(nest, se, phis[m]);
    }
  }

  /** A PHI of l with this id was to be replaced in one of the loops. */
  ghost predicate Gone(f: Fn, loops: seq<LoopNest>, se: ScalarEvolution, l: Label, i: Id) {
    exists k, phi :: 0 <= k < |loops| && l in f.blocks && phi in f.blocks[l].phis && phi.id == i && Goes(loops[k], se, l, phi)
  }

  /** Each PHI is still there, or it is gone because it was to be replaced. */
  ghost predicate OnlyThese(f: Fn, g: Fn, loops: seq<LoopNest>, se: ScalarEvolution) {
    forall l, phi :: l in f.blocks && phi in f.blocks[l].phis ==>
      (l in g.blocks && StillThere(g.blocks[l].phis, phi)) || Gone(f, loops, se, l, phi.id)
  }

  /** What a nest's processing, or a list's, leaves of the PHIs. */
  ghost predicate TextOk(f: Fn, g: Fn, loops: seq<LoopNest>, se: ScalarEvolution) {
    PhisFrom(f, g) && OnlyThese(f, g, loops, se) && forall k :: 0 <= k < |loops| ==> NoneLeft(g, loops[k], se)
  }

  lemma GoneBefore(f: Fn, g: Fn, loops: seq<LoopNest>, se: ScalarEvolution, l: Label, i: Id)
    requires PhisFrom(f, g) && Gone(g, loops, se, l, i)
    ensures Gone(f, loops, se, l, i)
  {
    var k, phi :| 0 <= k < |loops| && l in g.blocks && phi in g.blocks[l].phis && phi.id == i && Goes(loops[k], se, l, phi);
    assert StillThere(f.blocks[l].phis, phi);
    var j :| 0 <= j < |f.blocks[l].phis| && f.blocks[l].phis[j].id == phi.id && f.blocks[l].phis[j].ty == phi.ty;
    GoesByKey(loops[k], se, l, phi, f.blocks[l].phis[j]);
    assert f.blocks[l].phis[j] in f.blocks[l].phis;
  }

  lemma GoesByKey(nest: LoopNest, se: ScalarEvolution, l: Label, phi: Phi, psi: Phi)
    requires Goes(nest, se, l, phi) && phi.id == psi.id && phi.ty == psi.ty
    ensures Goes(nest, se, l, psi)
    decreases nest
  {
    if !(l == nest.header && ToReplace(nest, se, phi)) {
      var k :| 0 <= k < |nest.subs| && Goes(nest.subs[k], se, l, phi);
      GoesByKey(nest.subs[k], se, l, phi, psi);
    }
  }

  /** What is still there after a first step and not after a second was to be replaced in the second. */
  lemma OnlyTheseStep(f: Fn, g: Fn, k: Fn, loops: seq<LoopNest>, se: ScalarEvolution, l: Label, phi: Phi)
    requires PhisFrom(f, g) && OnlyThese(g, k, loops, se)
    requires l in f.blocks && phi in f.blocks[l].phis && StillThere(g.blocks[l].phis, phi)
    ensures (l in k.blocks && StillThere(k.blocks[l].phis, phi)) || Gone(f, loops, se, l, phi.id)
  {
    var j :| 0 <= j < |g.blocks[l].phis| && g.blocks[l].phis[j].id == phi.id && g.blocks[l].phis[j].ty == phi.ty;
    var psi := g.blocks[l].phis[j];
    assert psi in g.blocks[l].phis;
    if Gone(g, loops, se, l, psi.id) {
      GoneBefore(f, g, loops, se, l, psi.id);
    } else {
      assert StillThere(k.blocks[l].phis, psi);
    }
  }

  lemma GoneInside(f: Fn, nest: LoopNest, se: ScalarEvolution, l: Label, i: Id)
    requires nest.canonical.Some? && Gone(f, nest.subs, se, l, i)
    ensures Gone(f, [nest], se, l, i)
  {
    var k, phi :| 0 <= k < |nest.subs| && l in f.blocks && phi in f.blocks[l].phis && phi.id == i && Goes(nest.subs[k], se, l, phi);
    assert Goes([nest][0], se, l, phi);
  }

  lemma HeaderText(f: Fn, nest: LoopNest, se: ScalarEvolution)
    requires nest.canonical.Some? && nest.header in f.blocks
    ensures var ds := Collect(f.blocks[nest.header].phis, nest, se);
            var g := EliminateDerived(f, nest.header, se, nest.canonical.value, ds, 0);
            && PhisFrom(f, g) && OnlyThese(f, g, [nest], se)
            && forall phi :: phi in g.blocks[nest.header].phis ==> !ToReplace(nest, se, phi)
  {
    var h, phis := nest.header, f.blocks[nest.header].phis;
    var ds := Collect(phis, nest, se);
    var g := EliminateDerived(f, h, se, nest.canonical.value, ds, 0);
    var ids := ConstantSteps(se, ds);
    TakeListed(f, h, se, nest.canonical.value, ds, 0);
    CollectIs(phis, nest, se);
    forall phi | phi in g.blocks[h].phis
      ensures !ToReplace(nest, se, phi)
    {
      assert StillThere(phis, phi);
      var j :| 0 <= j < |phis| && phis[j].id == phi.id && phis[j].ty == phi.ty;
      assert phis[j] in phis;
    }
    forall l, phi | l in f.blocks && phi in f.blocks[l].phis
      ensures StillThere(g.blocks[l].phis, phi) || Gone(f, [nest], se, l, phi.id)
    {
      assert Stays(f, g, h, ids, l, phi);
      if l == h && phi.id in ids {
        var psi :| psi in phis && psi.id == phi.id && ToReplace(nest, se, psi);
        assert Goes([nest][0], se, l, psi);
      }
    }
  }

  /** No loop of the nest that is reached through loops with a counter keeps a PHI that was to be replaced, and only those go. */
  lemma NoneLeftNow(f: Fn, nest: LoopNest, se: ScalarEvolution)
    ensures NoneLeft(Eliminate(f, nest, se), nest, se)
  {
    EliminateText(f, nest, se);
    assert [nest][0] == nest;
  }

  lemma EliminateText(f: Fn, nest: LoopNest, se: ScalarEvolution)
    ensures TextOk(f, Eliminate(f, nest, se), [nest], se)
    decreases nest
  {
    if nest.canonical.None? || nest.header !in f.blocks {
      NothingTaken(f, [nest], se);
    } else {
      var h := nest.header;
      var ds := Collect(f.blocks[h].phis, nest, se);
      var f1 := EliminateDerived(f, h, se, nest.canonical.value, ds, 0);
      var g := EliminateList(f1, nest.subs, se);
      HeaderText(f, nest, se);
      ListText(f1, nest.subs, se);
      PhisFromTransitive(f, f1, g);
      forall phi | phi in g.blocks[h].phis
        ensures !ToReplace(nest, se, phi)
      {
        assert StillThere(f1.blocks[h].phis, phi);
        var j :| 0 <= j < |f1.blocks[h].phis| && f1.blocks[h].phis[j].id == phi.id && f1.blocks[h].phis[j].ty == phi.ty;
        assert f1.blocks[h].phis[j] in f1.blocks[h].phis;
      }
      forall l, phi | l in f.blocks && phi in f.blocks[l].phis
        ensures StillThere(g.blocks[l].phis, phi) || Gone(f, [nest], se, l, phi.id)
      {
        if StillThere(f1.blocks[l].phis, phi) {
          OnlyTheseStep(f, f1, g, nest.subs, se, l, phi);
          if Gone(f, nest.subs, se, l, phi.id) {
            GoneInside(f, nest, se, l, phi.id);
          }
        }
      }
    }
  }

  lemma NothingTaken(f: Fn, loops: seq<LoopNest>, se: ScalarEvolution)
    ensures PhisFrom(f, f) && OnlyThese(f, f, loops, se)
  {
    forall l, phi | l in f.blocks && phi in f.blocks[l].phis
      ensures StillThere(f.blocks[l].phis, phi)
    {
    }
  }

  lemma GoneInList(f: Fn, loops: seq<LoopNest>, se: ScalarEvolution, l: Label, i: Id)
    requires loops != [] && (Gone(f, [loops[0]], se, l, i) || Gone(f, loops[1..], se, l, i))
    ensures Gone(f, loops, se, l, i)
  {
    if Gone(f, [loops[0]], se, l, i) {
      var k, phi :| 0 <= k < 1 && l in f.blocks && phi in f.blocks[l].phis && phi.id == i && Goes([loops[0]][k], se, l, phi);
      assert Goes(loops[0], se, l, phi);
    } else {
      var k, phi :| 0 <= k < |loops[1..]| && l in f.blocks && phi in f.blocks[l].phis && phi.id == i && Goes(loops[1..][k], se, l, phi);
      assert Goes(loops[k + 1], se, l, phi);
    }
  }

  lemma ListText(f: Fn, loops: seq<LoopNest>, se: ScalarEvolution)
    ensures TextOk(f, EliminateList(f, loops, se), loops, se)
    decreases loops
  {
    if loops == [] {
      NothingTaken(f, loops, se);
    } else {
      var f1, rest := Eliminate(f, loops[0], se), loops[1..];
      var g := EliminateList(f1, rest, se);
      EliminateText(f, loops[0], se);
      ListText(f1, rest, se);
      PhisFromTransitive(f, f1, g);
      assert NoneLeft(f1, [loops[0]][0], se);
      StillNoneLeft(f1, g, loops[0], se);
      assert forall k :: 0 < k < |loops| ==> loops[k] == rest[k - 1];
      forall l, phi | l in f.blocks && phi in f.blocks[l].phis
        ensures StillThere(g.blocks[l].phis, phi) || Gone(f, loops, se, l, phi.id)
      {
        if StillThere(f1.blocks[l].phis, phi) {
          OnlyTheseStep(f, f1, g, rest, se, l, phi);
        }
        if Gone(f, [loops[0]], se, l, phi.id) || Gone(f, rest, se, l, phi.id) {
          GoneInList(f, loops, se, l, phi.id);
        }
      }
    }
  }

  // Well-formedness

  /** Each canonical counter is a PHI of its loop's header. */
  ghost predicate CountersIn(f: Fn, nest: LoopNest)
    decreases nest
  {
    nest.canonical.Some? && nest.header in f.blocks ==>
      nest.canonical.value in PhiDefs(f.blocks[nest.header].phis) && ListCountersIn(f, nest.subs)
  }

  ghost predicate ListCountersIn(f: Fn, loops: seq<LoopNest>)
    decreases loops
  {
    forall k :: 0 <= k < |loops| ==> CountersIn(f, loops[k])
  }

  ghost predicate PhisKept(f: Fn, g: Fn, hs: set<Label>) {
    g.blocks.Keys == f.blocks.Keys && forall l :: l in f.blocks && l !in hs ==> PhiDefs(g.blocks[l].phis) == PhiDefs(f.blocks[l].phis)
  }

  lemma CountersKept(f: Fn, g: Fn, hs: set<Label>, nest: LoopNest)
    requires PhisKept(f, g, hs) && Headers(nest) !! hs && CountersIn(f, nest)
    ensures CountersIn(g, nest)
    decreases nest
  {
    if nest.canonical.Some? && nest.header in f.blocks {
      ListCountersKept(f, g, hs, nest.subs);
    }
  }

  lemma ListCountersKept(f: Fn, g: Fn, hs: set<Label>, loops: seq<LoopNest>)
    requires PhisKept(f, g, hs) && HeadersOf(loops) !! hs && ListCountersIn(f, loops)
    ensures ListCountersIn(g, loops)
    decreases loops
  {
    forall k | 0 <= k < |loops|
      ensures CountersIn(g, loops[k])
    {
      HeaderAmong(loops, k);
      CountersKept(f, g, hs, loops[k]);
    }
  }

  /** The listed variables are PHIs of the header other than the counter, and the products so far read the counter only. */
  ghost predicate Listed(f: Fn, h: Label, iv: Id, ds: seq<Derived>, j: nat) {
    && h in f.blocks && iv in PhiDefs(f.blocks[h].phis)
    && (forall k :: 0 <= k < |ds| ==> ds[k].id != iv && ds[k].id in PhiDefs(f.blocks[h].phis))
    && DistinctDerived(ds)
    && j <= |f.blocks[h].body| && forall q :: 0 <= q < j ==> OnlyReads(f.blocks[h].body[q], iv)
  }

  lemma ListedNext(f: Fn, h: Label, iv: Id, ds: seq<Derived>, j: nat, c: int)
    requires Listed(f, h, iv, ds, j) && ds != []
    ensures Insertable(f, h, ds[0].id, iv, j)
    ensures var g := Replace(f, h, ds[0].id, iv, ds[0].width, c, j); Listed(g, h, iv, ds[1..], j + 1) && PhisKept(f, g, {h})
  {
    var d, w := ds[0].id, ds[0].width;
    HeaderBody(f, h, d, iv, w, c, j);
    forall l | l in f.blocks
      ensures PhiDefs(Replace(f, h, d, iv, w, c, j).blocks[l].phis) == PhiDefs(f.blocks[l].phis) - if l == h then {d} else {}
    {
      ReplacedPhis(f, h, d, iv, w, c, j, l);
    }
    assert forall q :: 0 <= q < j ==> OnlyReads(f.blocks[h].body[q], iv) && Local(d) !in f.blocks[h].body[q].args;
  }

  lemma {:induction false} DerivedWellFormed(f: Fn, h: Label, se: ScalarEvolution, iv: Id, ds: seq<Derived>, j: nat)
    requires WellFormed(f) && Listed(f, h, iv, ds, j)
    ensures var g := EliminateDerived(f, h, se, iv, ds, j); WellFormed(g) && PhisKept(f, g, {h})
    decreases |ds|
  {
    hide WellFormed, Replace;
    if ds != [] {
      var c := StepOf(se, ds[0].id);
      if c.None? {
        DerivedWellFormed(f, h, se, iv, ds[1..], j);
      } else {
        ListedNext(f, h, iv, ds, j, c.value);
        ReplaceWellFormed(f, h, ds[0].id, iv, ds[0].width, c.value, j);
        DerivedWellFormed(Replace(f, h, ds[0].id, iv, ds[0].width, c.value, j), h, se, iv, ds[1..], j + 1);
      }
    }
  }

  lemma CollectedListed(f: Fn, nest: LoopNest, se: ScalarEvolution)
    requires Unique(f) && CountersIn(f, nest) && nest.canonical.Some? && nest.header in f.blocks
    ensures Listed(f, nest.header, nest.canonical.value, Collect(f.blocks[nest.header].phis, nest, se), 0)
  {
    var phis := f.blocks[nest.header].phis;
    PhisDistinctAt(f, nest.header);
    CollectedDistinct(phis, nest, se);
    var ds := Collect(phis, nest, se);
    forall k | 0 <= k < |ds|
      ensures ds[k].id != nest.canonical.value && ds[k].id in PhiDefs(phis)
    {
      var m := CollectedFrom(phis, nest, se, k);
    }
  }

  /** Whatever scalar evolution answers, eliminating in a nest keeps the function well formed. */
  lemma EliminateWellFormed(f: Fn, nest: LoopNest, se: ScalarEvolution)
    requires WellFormed(f) && Distinct(nest) && CountersIn(f, nest)
    ensures WellFormed(Eliminate(f, nest, se)) && PhisKept(f, Eliminate(f, nest, se), Headers(nest))
    decreases nest
  {
    if nest.canonical.Some? && nest.header in f.blocks {
      var h, iv := nest.header, nest.canonical.value;
      var ds := Collect(f.blocks[h].phis, nest, se);
      CollectedListed(f, nest, se);
      DerivedWellFormed(f, h, se, iv, ds, 0);
      var f1 := EliminateDerived(f, h, se, iv, ds, 0);
      ListCountersKept(f, f1, {h}, nest.subs);
      ListWellFormed(f1, nest.subs, se);
    }
  }

  lemma ListWellFormed(f: Fn, loops: seq<LoopNest>, se: ScalarEvolution)
    requires WellFormed(f) && DistinctList(loops) && ListCountersIn(f, loops)
    ensures WellFormed(EliminateList(f, loops, se)) && PhisKept(f, EliminateList(f, loops, se), HeadersOf(loops))
    decreases loops
  {
    if loops != [] {
      var f1, rest := Eliminate(f, loops[0], se), loops[1..];
      hide WellFormed, Eliminate, CountersIn;
      assert forall k :: 0 <= k < |rest| ==> rest[k] == loops[k + 1];
      EliminateWellFormed(f, loops[0], se);
      ListCountersKept(f, f1, Headers(loops[0]), rest);
      ListWellFormed(f1, rest, se);
    }
  }

  /** What the pass takes from LLVM: fresh names, no missing values, disjoint loops, right recurrences with right starts. */
  ghost predicate AnalysedOk(ok: Inputs, f: Fn, loops: seq<LoopNest>, se: ScalarEvolution) {
    NamesBelow(f) && SafeFor(ok, f) && DistinctList(loops) && ListOk(ok, f, loops, se) && ListStarts(ok, f, loops, se)
  }

  lemma LongerBody(f: Fn, h: Label, d: Id, iv: Id, w: nat, c: int, j: nat)
    requires h in f.blocks && j <= |f.blocks[h].body|
    ensures |Replace(f, h, d, iv, w, c, j).blocks[h].body| == |f.blocks[h].body| + 1
  {
  }

  // The pass

  class InductionVariableElimination {
    var fn: Fn

    constructor (f: Fn)
      ensures fn == f
    {
      fn := f;
    }

    /** Collects the derived variables of a loop, then replaces them one by one, then turns to the loops inside. */
    method EliminateInLoop(nest: LoopNest, se: ScalarEvolution)
      requires nest.header in fn.blocks
      requires forall k :: 0 <= k < |nest.subs| ==> HeadersIn(nest.subs[k], fn)
      modifies this
      ensures fn == Eliminate(old(fn), nest, se)
      ensures NoneLeft(fn, nest, se)
      decreases nest
    {
      EliminateText(fn, nest, se);
      assert [nest][0] == nest;
      if nest.canonical.None? {
        return;
      }
      var h, iv := nest.header, nest.canonical.value;
      var phis := fn.blocks[h].phis;
      var derivedIVs: seq<Derived> := [];
      for k := 0 to |phis|
        invariant derivedIVs == Collect(phis[..k], nest, se)
      {
        assert phis[..k + 1][..k] == phis[..k];
        if IsDerived(nest, se, phis[k]) {
          derivedIVs := derivedIVs + [Derived(phis[k].id, phis[k].ty.width)];
        }
      }
      assert phis[..|phis|] == phis;
      ghost var f := fn;
      ReplaceDerived(h, iv, derivedIVs, se);
      forall k | 0 <= k < |nest.subs|
        ensures HeadersIn(nest.subs[k], fn)
      {
        SameKeys(nest.subs[k], f, fn);
      }
      EliminateSubloops(nest.subs, se);
    }

    /** Replaces the listed variables of the loop with header h, except those whose step is not a constant. */
    method ReplaceDerived(h: Label, iv: Id, derivedIVs: seq<Derived>, se: ScalarEvolution)
      requires h in fn.blocks
      modifies this
      ensures fn == EliminateDerived(old(fn), h, se, iv, derivedIVs, 0)
    {
      ghost var f1 := EliminateDerived(fn, h, se, iv, derivedIVs, 0);
      var inserted: nat := 0;
      assert derivedIVs[0..] == derivedIVs;
      for k := 0 to |derivedIVs|
        invariant h in fn.blocks && inserted <= |fn.blocks[h].body|
        invariant EliminateDerived(fn, h, se, iv, derivedIVs[k..], inserted) == f1
      {
        var d := derivedIVs[k];
        assert derivedIVs[k..][0] == d && derivedIVs[k..][1..] == derivedIVs[k + 1..];
        var step := StepOf(se, d.id);
        if step.Some? {
          LongerBody(fn, h, d.id, iv, d.width, step.value, inserted);
          fn := Replace(fn, h, d.id, iv, d.width, step.value, inserted);
          inserted := inserted + 1;
        }
      }
      assert derivedIVs[|derivedIVs|..] == [];
    }

    method EliminateSubloops(loops: seq<LoopNest>, se: ScalarEvolution)
      requires forall k :: 0 <= k < |loops| ==> HeadersIn(loops[k], fn)
      modifies this
      ensures fn == EliminateList(old(fn), loops, se)
      decreases loops
    {
      ghost var f := fn;
      for k := 0 to |loops|
        invariant fn.blocks.Keys == f.blocks.Keys
        invariant EliminateList(fn, loops[k..], se) == EliminateList(f, loops, se)
      {
        assert loops[k..][0] == loops[k] && loops[k..][1..] == loops[k + 1..];
        assert HeadersIn(loops[k], f);
        SameKeys(loops[k], f, fn);
        EliminateInLoop(loops[k], se);
      }
    }

    /**
     The whole pass, over the outermost loops. No loop reached through loops with a counter keeps a PHI that was to be
     replaced, and only those go. Runs change only if a variable starts elsewhere than at zero, the form never does.
     */
    method Run(loops: seq<LoopNest>, se: ScalarEvolution)
      requires forall k :: 0 <= k < |loops| ==> HeadersIn(loops[k], fn)
      modifies this
      ensures fn == EliminateList(old(fn), loops, se)
      ensures forall k :: 0 <= k < |loops| ==> NoneLeft(fn, loops[k], se)
      ensures OnlyThese(old(fn), fn, loops, se) && PhisFrom(old(fn), fn)
      ensures WellFormed(old(fn)) && DistinctList(loops) && ListCountersIn(old(fn), loops) ==> WellFormed(fn)
      ensures forall ok: Inputs :: AnalysedOk(ok, old(fn), loops, se) && ListZero(ok, old(fn), loops, se) ==> SameFor(ok, old(fn), fn)
      ensures forall ok: Inputs :: AnalysedOk(ok, old(fn), loops, se) && ListAsksZero(old(fn), loops, se) ==> ListZero(ok, old(fn), loops, se)
    {
      ghost var f := fn;
      EliminateSubloops(loops, se);
      ListText(f, loops, se);
      if WellFormed(f) && DistinctList(loops) && ListCountersIn(f, loops) {
        ListWellFormed(f, loops, se);
      }
      forall ok: Inputs | AnalysedOk(ok, f, loops, se) && ListAsksZero(f, loops, se)
        ensures ListZero(ok, f, loops, se)
      {
        ListAskedZero(ok, f, loops, se);
      }
      forall ok: Inputs | AnalysedOk(ok, f, loops, se) && ListZero(ok, f, loops, se)
        ensures SameFor(ok, f, fn)
      {
        ListGood(ok, f, loops, se);
      }
    }
  }

  /** Every loop of the nest has its header in the function. */
  ghost predicate HeadersIn(nest: LoopNest, f: Fn)
    decreases nest
  {
    nest.header in f.blocks && forall k :: 0 <= k < |nest.subs| ==> HeadersIn(nest.subs[k], f)
  }

  lemma SameKeys(nest: LoopNest, f: Fn, g: Fn)
    requires HeadersIn(nest, f) && g.blocks.Keys == f.blocks.Keys
    ensures HeadersIn(nest, g)
    decreases nest
  {
    forall k | 0 <= k < |nest.subs|
      ensures HeadersIn(nest.subs[k], g)
    {
      SameKeys(nest.subs[k], f, g);
    }
  }
}
