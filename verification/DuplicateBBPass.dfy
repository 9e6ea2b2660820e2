/**
 The DuplicateBB pass: picks blocks that have a reachable integer value and clones each of them in place,
 one instruction at a time, replacing uses as it goes.
 */
module DuplicateBBPass {
  import opened Ir
  import opened Semantics
  import opened Ssa
  import opened Rename
  import opened Clone
  import opened CloneSsa
  import opened CloneTest
  import opened Riv

  // In-place edits of a function

  /** Split b before its first non-PHI instruction; the head tests cond and goes to one of two empty blocks. */
  function SplitAndInsertIfThenElse(f: Fn, b: Label, cond: Operand): Fn
    requires b in f.blocks
  {
    var m := map[b := TailLabel(f)];
    var blk := f.blocks[b];
    var test := Instr(f.nextId, CmpEq, Int(1), [cond, Lit(0)]);
    f.(blocks := (map l | l in f.blocks ::
                    if l == b then Block(RenPhis(map[], m, blk.phis), [test], CondBr(Local(f.nextId), ThenLabel(f), ElseLabel(f)))
                    else RenBlock(map[], m, f.blocks[l]))
                 + map[ThenLabel(f) := Block([], [], Br(TailLabel(f))),
                       ElseLabel(f) := Block([], [], Br(TailLabel(f))),
                       TailLabel(f) := Block([], blk.body, blk.term)],
       nextId := f.nextId + 1,
       nextLabel := f.nextLabel + 3)
  }

  function InsertBeforeTerm(f: Fn, l: Label, i: Instr): Fn
    requires l in f.blocks
  {
    f.(blocks := f.blocks[l := f.blocks[l].(body := f.blocks[l].body + [i])])
  }

  /** Put phi in the place of instruction k of block l and give it all the uses. */
  function ReplaceInstWithPhi(f: Fn, l: Label, k: nat, phi: Phi): Fn
    requires l in f.blocks && k < |f.blocks[l].body|
  {
    var b := f.blocks[l];
    RenFn(map[b.body[k].id := phi.id], map[],
          f.(blocks := f.blocks[l := Block(b.phis + [phi], b.body[..k] + b.body[k + 1..], b.term)]))
  }

  function EraseFromBlock(f: Fn, l: Label, ids: set<Id>): Fn
    requires l in f.blocks
  {
    f.(blocks := f.blocks[l := f.blocks[l].(body := Without(f.blocks[l].body, ids))])
  }

  function RemapTerm(f: Fn, l: Label, vmap: Sub): Fn
    requires l in f.blocks
  {
    f.(blocks := f.blocks[l := f.blocks[l].(term := RenTerm(vmap, f.blocks[l].term))])
  }

  // The function after k instructions have been cloned

  /** The instructions left in the tail because they produce no value. */
  function Voids(body: seq<Instr>, k: nat): seq<Instr>
    requires k <= |body|
  {
    if k == 0 then []
    else Voids(body, k - 1) + if body[k - 1].ty.Void? then [body[k - 1]] else []
  }

  function PhisUpTo(base: Id, body: seq<Instr>, k: nat, t: Label, e: Label): seq<Phi>
    requires k <= |body|
  {
    if k == 0 then []
    else
      PhisUpTo(base, body, k - 1, t, e)
      + if body[k - 1].ty.Void? then [] else [MergePhi(base, body[k - 1], k - 1, t, e)]
  }

  function PartSub(f: Fn, b: Label, k: nat): Sub
    requires b in f.blocks && k <= |f.blocks[b].body|
  {
    Bindings(f.nextId, f.blocks[b].body, MERGED, k)
  }

  function PartInstr(f: Fn, b: Label, which: nat, j: nat, k: nat): Instr
    requires b in f.blocks && j < |f.blocks[b].body| && k <= |f.blocks[b].body|
  {
    var body := f.blocks[b].body;
    Instr(CopyId(f.nextId, which, j), body[j].op, body[j].ty,
          RenArgs(PartSub(f, b, k) + Bindings(f.nextId, body, which, j), body[j].args))
  }

  function PartClone(f: Fn, b: Label, which: nat, k: nat): Block
    requires b in f.blocks && k <= |f.blocks[b].body|
  {
    Block([], seq(k, j requires 0 <= j < k => PartInstr(f, b, which, j, k)), Br(TailLabel(f)))
  }

  function PartHead(f: Fn, b: Label, cond: Operand, k: nat): Block
    requires b in f.blocks && k <= |f.blocks[b].body|
  {
    Block(RenPhis(PartSub(f, b, k), map[b := TailLabel(f)], f.blocks[b].phis),
          [Instr(f.nextId, CmpEq, Int(1), [cond, Lit(0)])],
          CondBr(Local(f.nextId), ThenLabel(f), ElseLabel(f)))
  }

  function PartTail(f: Fn, b: Label, k: nat): Block
    requires b in f.blocks && k <= |f.blocks[b].body|
  {
    var body := f.blocks[b].body;
    Block(PhisUpTo(f.nextId, body, k, ThenLabel(f), ElseLabel(f)),
          RenBody(PartSub(f, b, k), Voids(body, k) + body[k..]),
          RenTerm(PartSub(f, b, k), f.blocks[b].term))
  }

  function PartOld(f: Fn, b: Label, cond: Operand, k: nat, l: Label): Block
    requires b in f.blocks && k <= |f.blocks[b].body| && l in f.blocks
  {
    if l == b then PartHead(f, b, cond, k)
    else RenBlock(PartSub(f, b, k), map[b := TailLabel(f)], f.blocks[l])
  }

  function PartFn(f: Fn, b: Label, cond: Operand, k: nat): Fn
    requires b in f.blocks && k <= |f.blocks[b].body|
  {
    f.(blocks := (map l | l in f.blocks :: PartOld(f, b, cond, k, l))
                 + map[ThenLabel(f) := PartClone(f, b, THEN, k),
                       ElseLabel(f) := PartClone(f, b, ELSE, k),
                       TailLabel(f) := PartTail(f, b, k)],
       nextId := f.nextId + 1 + 3 * k,
       nextLabel := f.nextLabel + 3)
  }

  lemma RenNothing(m: Sub, b: Block)
    ensures RenBlock(map[], m, b) == Block(RenPhis(map[], m, b.phis), b.body, b.term)
  {
    forall k | 0 <= k < |b.body|
      ensures RenInstr(map[], b.body[k]) == b.body[k]
    {
      assert RenArgs(map[], b.body[k].args) == b.body[k].args;
    }
    assert RenBody(map[], b.body) == b.body;
    assert RenTerm(map[], b.term) == b.term;
  }

  lemma PartStart(f: Fn, b: Label, cond: Operand)
    requires FreshNames(f) && b in f.blocks
    ensures PartFn(f, b, cond, 0) == SplitAndInsertIfThenElse(f, b, cond)
  {
    var p, q := PartFn(f, b, cond, 0), SplitAndInsertIfThenElse(f, b, cond);
    RenNothing(map[], f.blocks[b]);
    var body := f.blocks[b].body;
    assert Voids(body, 0) + body[0..] == body;
    assert PartClone(f, b, THEN, 0).body == [] && PartClone(f, b, ELSE, 0).body == [];
    assert p.blocks.Keys == q.blocks.Keys;
    assert forall l :: l in p.blocks ==> p.blocks[l] == q.blocks[l];
    assert p.blocks == q.blocks;
  }

  // One more instruction

  /** Operands never name an instruction that produces no value. */
  ghost predicate ReadsValues(f: Fn, b: Label)
    requires b in f.blocks
  {
    var body := f.blocks[b].body;
    forall j, k, a :: 0 <= j < |body| && 0 <= k < |body| && body[j].ty.Void? && 0 <= a < |body[k].args| ==>
      body[k].args[a] != Local(body[j].id)
  }

  lemma ReadsValuesHolds(f: Fn, b: Label)
    requires WellFormed(f) && b in f.blocks
    ensures ReadsValues(f, b)
  {
    var body := f.blocks[b].body;
    assert BodyUsesOk(f, b);
    forall j, k, a | 0 <= j < |body| && 0 <= k < |body| && body[j].ty.Void? && 0 <= a < |body[k].args|
      ensures body[k].args[a] != Local(body[j].id)
    {
      if body[k].args[a].Local? {
        assert UseOk(f, b, k, body[k].args[a]);
        DefsGrow(f.blocks[b], k);
        VoidNotDefined(f, b, j);
        assert !DefinesIn(f, b, body[j].id);
      }
    }
  }

  /**
   A clone map during the loop. Replacing an instruction by its PHI renames the map's key along with
   the other uses, so values are keyed by their PHIs; the others keep their own key.
   */
  ghost predicate FollowedMap(f: Fn, b: Label, which: nat, k: nat, vmap: Sub)
    requires b in f.blocks && k <= |f.blocks[b].body|
  {
    var body := f.blocks[b].body;
    && (forall j :: 0 <= j < k && !body[j].ty.Void? ==>
          CopyId(f.nextId, MERGED, j) in vmap && vmap[CopyId(f.nextId, MERGED, j)] == CopyId(f.nextId, which, j))
    && (forall x :: x in vmap ==>
          || (exists j :: 0 <= j < k && !body[j].ty.Void? && x == CopyId(f.nextId, MERGED, j))
          || (exists j :: 0 <= j < k && body[j].ty.Void? && x == body[j].id))
  }

  /** Remapping the partly replaced operands of instruction k gives the operands of its clone: earlier values go by their clones. */
  lemma RemapGivesClone(f: Fn, b: Label, which: nat, k: nat, vmap: Sub)
    requires WellFormed(f) && b in f.blocks && k < |f.blocks[b].body| && which < 2
    requires FollowedMap(f, b, which, k, vmap)
    ensures var args := f.blocks[b].body[k].args;
            RenArgs(vmap, RenArgs(PartSub(f, b, k), args))
            == RenArgs(PartSub(f, b, k) + Bindings(f.nextId, f.blocks[b].body, which, k), args)
  {
    hide Bindings;
    var body := f.blocks[b].body;
    var args := body[k].args;
    BlockIdsDistinct(f, b);
    UsesBelow(f, b);
    ReadsValuesHolds(f, b);
    BindingsFacts(f.nextId, body, MERGED, k);
    BindingsFacts(f.nextId, body, which, k);
    forall a | 0 <= a < |args| && args[a].Local?
      ensures Ren(vmap, Ren(PartSub(f, b, k), args[a].id))
           == Ren(PartSub(f, b, k) + Bindings(f.nextId, body, which, k), args[a].id)
    {
      var i := args[a].id;
      assert i < f.nextId;
      if i in BodyDefs(body, k) {
        var j :| 0 <= j < k && !body[j].ty.Void? && body[j].id == i;
      } else {
        assert i !in vmap;
      }
    }
  }

  /** Renaming instruction k to its PHI takes the renaming from k to k + 1, also inside clone j. */
  lemma NextSub(f: Fn, b: Label, which: nat, j: nat, k: nat)
    requires FreshNames(f) && Unique(f) && b in f.blocks && j <= k < |f.blocks[b].body| && which < 2
    requires !f.blocks[b].body[k].ty.Void?
    ensures var body := f.blocks[b].body;
            var one := map[body[k].id := CopyId(f.nextId, MERGED, k)];
            && Composes(PartSub(f, b, k), one, PartSub(f, b, k + 1))
            && Composes(PartSub(f, b, k) + Bindings(f.nextId, body, which, j), one,
                        PartSub(f, b, k + 1) + Bindings(f.nextId, body, which, j))
  {
    var body := f.blocks[b].body;
    BlockIdsDistinct(f, b);
    BindingsFacts(f.nextId, body, MERGED, k);
    BindingsFacts(f.nextId, body, which, j);
    assert body[k].id !in BodyDefs(body, k);
    assert body[k].id !in BodyDefs(body, j);
  }

  lemma NextClone(f: Fn, b: Label, which: nat, k: nat, i: Instr)
    requires FreshNames(f) && Unique(f) && b in f.blocks && k < |f.blocks[b].body| && which < 2
    requires !f.blocks[b].body[k].ty.Void? && i == PartInstr(f, b, which, k, k)
    ensures var one := map[f.blocks[b].body[k].id := CopyId(f.nextId, MERGED, k)];
            RenBlock(one, map[], PartClone(f, b, which, k).(body := PartClone(f, b, which, k).body + [i]))
            == PartClone(f, b, which, k + 1)
  {
    var body := f.blocks[b].body;
    var one := map[body[k].id := CopyId(f.nextId, MERGED, k)];
    var old_ := PartClone(f, b, which, k).body + [i];
    var new_ := PartClone(f, b, which, k + 1).body;
    forall j | 0 <= j < k + 1
      ensures RenInstr(one, old_[j]) == new_[j]
    {
      NextSub(f, b, which, j, k);
      assert old_[j] == PartInstr(f, b, which, j, k);
      RenArgsTwice(PartSub(f, b, k) + Bindings(f.nextId, body, which, j), one,
                   PartSub(f, b, k + 1) + Bindings(f.nextId, body, which, j), body[j].args);
    }
    assert RenBody(one, old_) == new_;
  }

  lemma NextCloneVoid(f: Fn, b: Label, which: nat, k: nat)
    requires b in f.blocks && k < |f.blocks[b].body| && f.blocks[b].body[k].ty.Void?
    ensures PartClone(f, b, which, k).(body := PartClone(f, b, which, k).body + [PartInstr(f, b, which, k, k)])
            == PartClone(f, b, which, k + 1)
  {
    assert PartSub(f, b, k + 1) == PartSub(f, b, k);
  }

  lemma NextTail(f: Fn, b: Label, k: nat)
    requires FreshNames(f) && Unique(f) && b in f.blocks && k < |f.blocks[b].body|
    ensures var blk := f.blocks[b];
            var tail := PartTail(f, b, k);
            var v := |Voids(blk.body, k)|;
            && v < |tail.body| && tail.body[v] == RenInstr(PartSub(f, b, k), blk.body[k])
            && if blk.body[k].ty.Void? then PartTail(f, b, k + 1) == tail
               else
                 var phi := MergePhi(f.nextId, blk.body[k], k, ThenLabel(f), ElseLabel(f));
                 RenBlock(map[blk.body[k].id := phi.id], map[],
                          Block(tail.phis + [phi], tail.body[..v] + tail.body[v + 1..], tail.term))
                 == PartTail(f, b, k + 1)
  {
    hide FreshNames, Unique, RenInstr, ThenLabel, ElseLabel;
    var blk := f.blocks[b];
    var tail := PartTail(f, b, k);
    var vs := Voids(blk.body, k);
    var v := |vs|;
    if blk.body[k].ty.Void? {
      assert vs + blk.body[k..] == (vs + [blk.body[k]]) + blk.body[k + 1..];
    } else {
      var phi := MergePhi(f.nextId, blk.body[k], k, ThenLabel(f), ElseLabel(f));
      var rest := vs + blk.body[k + 1..];
      assert tail.body[..v] + tail.body[v + 1..] == RenBody(PartSub(f, b, k), rest);
      NextSub(f, b, THEN, k, k);
      var inner := Block([], rest, blk.term);
      RenBlockTwice(PartSub(f, b, k), map[blk.body[k].id := phi.id], PartSub(f, b, k + 1), map[], inner);
      PhisUntouchedByNext(f, b, k, k);
      assert RenPhis(map[blk.body[k].id := phi.id], map[], [phi]) == [phi] by {
        PhiUntouchedByNext(f, b, k, k);
      }
    }
  }

  lemma PhiUntouchedByNext(f: Fn, b: Label, j: nat, k: nat)
    requires FreshNames(f) && Unique(f) && b in f.blocks && j < |f.blocks[b].body| && k < |f.blocks[b].body|
    ensures var body := f.blocks[b].body;
            var phi := MergePhi(f.nextId, body[j], j, ThenLabel(f), ElseLabel(f));
            phi.(edges := RenEdges(map[body[k].id := CopyId(f.nextId, MERGED, k)], map[], phi.edges)) == phi
  {
    BlockIdsDistinct(f, b);
  }

  lemma {:induction false} PhisUntouchedByNext(f: Fn, b: Label, j: nat, k: nat)
    requires FreshNames(f) && Unique(f) && b in f.blocks && j <= |f.blocks[b].body| && k < |f.blocks[b].body|
    ensures var body := f.blocks[b].body;
            var phis := PhisUpTo(f.nextId, body, j, ThenLabel(f), ElseLabel(f));
            RenPhis(map[body[k].id := CopyId(f.nextId, MERGED, k)], map[], phis) == phis
  {
    if j > 0 {
      PhisUntouchedByNext(f, b, j - 1, k);
      PhiUntouchedByNext(f, b, j - 1, k);
    }
  }

  lemma NextHead(f: Fn, b: Label, cond: Operand, k: nat)
    requires FreshNames(f) && Unique(f) && b in f.blocks && k < |f.blocks[b].body|
    requires !f.blocks[b].body[k].ty.Void? && RenOp(PhiSub(f.nextId, f.blocks[b].body), cond) == cond
    ensures RenBlock(map[f.blocks[b].body[k].id := CopyId(f.nextId, MERGED, k)], map[], PartHead(f, b, cond, k))
         == PartHead(f, b, cond, k + 1)
  {
    var body := f.blocks[b].body;
    var one := map[body[k].id := CopyId(f.nextId, MERGED, k)];
    var head := PartHead(f, b, cond, k);
    BlockIdsDistinct(f, b);
    BindingsFacts(f.nextId, body, MERGED, |body|);
    NextSub(f, b, THEN, k, k);
    var phisOnly := Block(f.blocks[b].phis, [], Br(0));
    RenBlockTwice(PartSub(f, b, k), one, PartSub(f, b, k + 1), map[b := TailLabel(f)], phisOnly);
    assert cond != Local(body[k].id);
    assert RenArgs(one, head.body[0].args) == head.body[0].args;
    assert RenBody(one, head.body) == head.body;
  }

  lemma NextOld(f: Fn, b: Label, cond: Operand, k: nat, l: Label)
    requires FreshNames(f) && Unique(f) && b in f.blocks && k < |f.blocks[b].body| && l in f.blocks
    requires !f.blocks[b].body[k].ty.Void? && RenOp(PhiSub(f.nextId, f.blocks[b].body), cond) == cond
    ensures RenBlock(map[f.blocks[b].body[k].id := CopyId(f.nextId, MERGED, k)], map[], PartOld(f, b, cond, k, l))
         == PartOld(f, b, cond, k + 1, l)
  {
    if l == b {
      NextHead(f, b, cond, k);
    } else {
      NextSub(f, b, THEN, k, k);
      RenBlockTwice(PartSub(f, b, k), map[f.blocks[b].body[k].id := CopyId(f.nextId, MERGED, k)], PartSub(f, b, k + 1),
                    map[b := TailLabel(f)], f.blocks[l]);
    }
  }

  /** The function with instruction k cloned but not yet replaced. */
  function WithClones(f: Fn, b: Label, cond: Operand, k: nat): Fn
    requires b in f.blocks && k < |f.blocks[b].body|
  {
    var p := PartFn(f, b, cond, k);
    InsertBeforeTerm(InsertBeforeTerm(p, ThenLabel(f), PartInstr(f, b, THEN, k, k)),
                     ElseLabel(f), PartInstr(f, b, ELSE, k, k)).(nextId := f.nextId + 1 + 3 * (k + 1))
  }

  lemma NextVoidAt(f: Fn, b: Label, cond: Operand, k: nat, l: Label)
    requires FreshNames(f) && Unique(f) && b in f.blocks && k < |f.blocks[b].body| && f.blocks[b].body[k].ty.Void?
    requires l in PartFn(f, b, cond, k).blocks
    ensures WithClones(f, b, cond, k).blocks[l] == PartFn(f, b, cond, k + 1).blocks[l]
  {
    if l == ThenLabel(f) {
      NextCloneVoid(f, b, THEN, k);
    } else if l == ElseLabel(f) {
      NextCloneVoid(f, b, ELSE, k);
    } else if l == TailLabel(f) {
      NextTail(f, b, k);
    } else {
      assert PartSub(f, b, k + 1) == PartSub(f, b, k);
      assert PartOld(f, b, cond, k, l) == PartOld(f, b, cond, k + 1, l);
    }
  }

  lemma NextVoid(f: Fn, b: Label, cond: Operand, k: nat)
    requires FreshNames(f) && Unique(f) && b in f.blocks && k < |f.blocks[b].body| && f.blocks[b].body[k].ty.Void?
    ensures WithClones(f, b, cond, k) == PartFn(f, b, cond, k + 1)
  {
    var p, q := WithClones(f, b, cond, k), PartFn(f, b, cond, k + 1);
    forall l | l in p.blocks
      ensures p.blocks[l] == q.blocks[l]
    {
      NextVoidAt(f, b, cond, k, l);
    }
    SameFn(p, q);
  }

  function TailWithPhi(f: Fn, b: Label, k: nat): Block
    requires b in f.blocks && k < |f.blocks[b].body|
  {
    var tail := PartTail(f, b, k);
    var v := |Voids(f.blocks[b].body, k)|;
    Block(tail.phis + [MergePhi(f.nextId, f.blocks[b].body[k], k, ThenLabel(f), ElseLabel(f))],
          tail.body[..v] + tail.body[v + 1..], tail.term)
  }

  lemma NextValueAt(f: Fn, b: Label, cond: Operand, k: nat, l: Label)
    requires FreshNames(f) && Unique(f) && b in f.blocks && k < |f.blocks[b].body| && !f.blocks[b].body[k].ty.Void?
    requires RenOp(PhiSub(f.nextId, f.blocks[b].body), cond) == cond
    requires l in PartFn(f, b, cond, k).blocks
    ensures var one := map[f.blocks[b].body[k].id := CopyId(f.nextId, MERGED, k)];
            RenBlock(one, map[], if l == TailLabel(f) then TailWithPhi(f, b, k) else WithClones(f, b, cond, k).blocks[l])
            == PartFn(f, b, cond, k + 1).blocks[l]
  {
    hide FreshNames, Unique, RenOp, PhiSub, CopyId, RenBlock, NoClobber;
    if l == ThenLabel(f) {
      NextClone(f, b, THEN, k, PartInstr(f, b, THEN, k, k));
    } else if l == ElseLabel(f) {
      NextClone(f, b, ELSE, k, PartInstr(f, b, ELSE, k, k));
    } else if l == TailLabel(f) {
      NextTail(f, b, k);
    } else {
      assert WithClones(f, b, cond, k).blocks[l] == PartOld(f, b, cond, k, l);
      NextOld(f, b, cond, k, l);
    }
  }

  lemma ReplacedAt(f: Fn, t: Label, v: nat, phi: Phi, l: Label)
    requires t in f.blocks && v < |f.blocks[t].body| && l in f.blocks
    ensures var b := f.blocks[t];
            ReplaceInstWithPhi(f, t, v, phi).blocks[l]
            == RenBlock(map[b.body[v].id := phi.id], map[],
                        if l == t then Block(b.phis + [phi], b.body[..v] + b.body[v + 1..], b.term) else f.blocks[l])
    ensures ReplaceInstWithPhi(f, t, v, phi).blocks.Keys == f.blocks.Keys
  {
  }

  /** Where instruction k now is, and what replacing it yields, block by block. */
  lemma NextValueBlock(f: Fn, b: Label, cond: Operand, k: nat, l: Label)
    requires FreshNames(f) && Unique(f) && b in f.blocks && k < |f.blocks[b].body| && !f.blocks[b].body[k].ty.Void?
    requires RenOp(PhiSub(f.nextId, f.blocks[b].body), cond) == cond
    requires l in PartFn(f, b, cond, k).blocks
    ensures var v := |Voids(f.blocks[b].body, k)|;
            var w := WithClones(f, b, cond, k);
            && v < |w.blocks[TailLabel(f)].body|
            && w.blocks[TailLabel(f)].body[v].id == f.blocks[b].body[k].id
            && l in w.blocks
            && ReplaceInstWithPhi(w, TailLabel(f), v, MergePhi(f.nextId, f.blocks[b].body[k], k, ThenLabel(f), ElseLabel(f))).blocks[l]
               == PartFn(f, b, cond, k + 1).blocks[l]
  {
    var w := WithClones(f, b, cond, k);
    assert w.blocks[TailLabel(f)] == PartTail(f, b, k);
    NextTail(f, b, k);
    hide PartFn, WithClones, RenBlock, PartTail;
    ReplacedAt(w, TailLabel(f), |Voids(f.blocks[b].body, k)|,
               MergePhi(f.nextId, f.blocks[b].body[k], k, ThenLabel(f), ElseLabel(f)), l);
    NextValueAt(f, b, cond, k, l);
  }

  lemma SameFn(p: Fn, q: Fn)
    requires p.(blocks := q.blocks) == q && p.blocks.Keys == q.blocks.Keys
    requires forall l :: l in p.blocks ==> p.blocks[l] == q.blocks[l]
    ensures p == q
  {
    assert p.blocks == q.blocks;
  }

  lemma NextValue(f: Fn, b: Label, cond: Operand, k: nat)
    requires FreshNames(f) && Unique(f) && b in f.blocks && k < |f.blocks[b].body| && !f.blocks[b].body[k].ty.Void?
    requires RenOp(PhiSub(f.nextId, f.blocks[b].body), cond) == cond
    ensures var v := |Voids(f.blocks[b].body, k)|;
            var w := WithClones(f, b, cond, k);
            && v < |w.blocks[TailLabel(f)].body|
            && ReplaceInstWithPhi(w, TailLabel(f), v, MergePhi(f.nextId, f.blocks[b].body[k], k, ThenLabel(f), ElseLabel(f)))
               == PartFn(f, b, cond, k + 1)
  {
    hide FreshNames, Unique, RenOp, PhiSub, Voids, TailLabel, MergePhi, ThenLabel, ElseLabel;
    hide PartTail, PartOld, PartClone, RenBlock, NoClobber;
    var w := WithClones(f, b, cond, k);
    NextValueBlock(f, b, cond, k, TailLabel(f));
    var p := ReplaceInstWithPhi(w, TailLabel(f), |Voids(f.blocks[b].body, k)|,
                                MergePhi(f.nextId, f.blocks[b].body[k], k, ThenLabel(f), ElseLabel(f)));
    forall l | l in p.blocks
      ensures p.blocks[l] == PartFn(f, b, cond, k + 1).blocks[l]
    {
      NextValueBlock(f, b, cond, k, l);
    }
    SameFn(p, PartFn(f, b, cond, k + 1));
  }

  // The end of the loop

  lemma {:induction false} PhisSplit(base: Id, body: seq<Instr>, k: nat, t: Label, e: Label)
    requires k <= |body|
    ensures PhisUpTo(base, body, k, t, e) + MergePhis(base, body, k, t, e) == MergePhis(base, body, 0, t, e)
  {
    if k > 0 {
      PhisSplit(base, body, k - 1, t, e);
    }
  }

  lemma {:induction false} VoidsAreVoid(body: seq<Instr>, k: nat, v: nat) returns (j: nat)
    requires k <= |body| && v < |Voids(body, k)|
    ensures j < k && body[j].ty.Void? && Voids(body, k)[v] == body[j]
  {
    if v < |Voids(body, k - 1)| {
      j := VoidsAreVoid(body, k - 1, v);
    } else {
      j := k - 1;
    }
  }

  lemma {:induction false} WithoutAll(body: seq<Instr>, ids: set<Id>)
    requires forall j :: 0 <= j < |body| ==> body[j].id in ids
    ensures Without(body, ids) == []
  {
    if body != [] {
      WithoutAll(body[1..], ids);
    }
  }

  lemma RenTermIdentity(s: Sub, t: Term)
    requires forall x :: x in s ==> s[x] == x
    ensures RenTerm(s, t) == t
  {
  }

  lemma FinishTail(f: Fn, b: Label, toRemove: set<Id>)
    requires b in f.blocks
    requires forall j :: 0 <= j < |f.blocks[b].body| && f.blocks[b].body[j].ty.Void? ==> f.blocks[b].body[j].id in toRemove
    ensures var tail := PartTail(f, b, |f.blocks[b].body|);
            tail.(body := Without(tail.body, toRemove)) == TailBlock(f, b)
  {
    var body := f.blocks[b].body;
    var n := |body|;
    var tail := PartTail(f, b, n);
    PhisSplit(f.nextId, body, n, ThenLabel(f), ElseLabel(f));
    forall v | 0 <= v < |tail.body|
      ensures tail.body[v].id in toRemove
    {
      var j := VoidsAreVoid(body, n, v);
    }
    WithoutAll(tail.body, toRemove);
  }

  lemma Finish(f: Fn, b: Label, cond: Operand, toRemove: set<Id>)
    requires b in f.blocks && FreshNames(f)
    requires forall j :: 0 <= j < |f.blocks[b].body| && f.blocks[b].body[j].ty.Void? ==> f.blocks[b].body[j].id in toRemove
    ensures EraseFromBlock(PartFn(f, b, cond, |f.blocks[b].body|), TailLabel(f), toRemove) == CloneFn(f, b, cond)
  {
    var body := f.blocks[b].body;
    var n := |body|;
    FinishTail(f, b, toRemove);
    assert PartClone(f, b, THEN, n).body == CloneBody(f.nextId, body, THEN);
    assert PartClone(f, b, ELSE, n).body == CloneBody(f.nextId, body, ELSE);
    var p, q := EraseFromBlock(PartFn(f, b, cond, n), TailLabel(f), toRemove), CloneFn(f, b, cond);
    forall l | l in p.blocks
      ensures p.blocks[l] == q.blocks[l]
    {
      if l in f.blocks {
        assert PartOld(f, b, cond, n, l) == OldBlock(f, b, cond, l);
      }
    }
    assert p.blocks == q.blocks;
  }

  lemma FollowVoid(f: Fn, b: Label, which: nat, k: nat, vmap: Sub)
    requires FreshNames(f) && Unique(f) && b in f.blocks && k < |f.blocks[b].body| && f.blocks[b].body[k].ty.Void?
    requires FollowedMap(f, b, which, k, vmap)
    ensures FollowedMap(f, b, which, k + 1, vmap[f.blocks[b].body[k].id := CopyId(f.nextId, which, k)])
  {
    BlockIdsDistinct(f, b);
  }

  lemma FollowValue(f: Fn, b: Label, which: nat, k: nat, vmap: Sub)
    requires FreshNames(f) && Unique(f) && b in f.blocks && k < |f.blocks[b].body| && !f.blocks[b].body[k].ty.Void?
    requires FollowedMap(f, b, which, k, vmap)
    ensures FollowedMap(f, b, which, k + 1,
                        Followed(vmap[f.blocks[b].body[k].id := CopyId(f.nextId, which, k)],
                                 f.blocks[b].body[k].id, CopyId(f.nextId, MERGED, k)))
  {
    BlockIdsDistinct(f, b);
  }

  /** A value map whose keys follow the replacement of i by x. */
  function Followed(vmap: Sub, i: Id, x: Id): Sub
    requires i in vmap
  {
    (vmap - {i})[x := vmap[i]]
  }

  // What the loop of CloneBB keeps

  /** After k instructions: the function, the three maps, the tail position and the instructions to purge. */
  ghost predicate LoopOk(f: Fn, b: Label, cond: Operand, k: nat, fn: Fn, iit: nat,
                         thenMap: Sub, elseMap: Sub, tailMap: Sub, toRemove: set<Id>)
    requires b in f.blocks && k <= |f.blocks[b].body|
  {
    && fn == PartFn(f, b, cond, k)
    && iit == |Voids(f.blocks[b].body, k)|
    && FollowedMap(f, b, THEN, k, thenMap) && FollowedMap(f, b, ELSE, k, elseMap)
    && (forall x :: x in tailMap ==> tailMap[x] == x)
    && (forall j :: 0 <= j < k && f.blocks[b].body[j].ty.Void? ==> f.blocks[b].body[j].id in toRemove)
  }

  lemma LoopStart(f: Fn, b: Label, cond: Operand)
    requires WellFormed(f) && b in f.blocks
    ensures LoopOk(f, b, cond, 0, SplitAndInsertIfThenElse(f, b, cond), 0, map[], map[], map[], {})
    ensures PartSub(f, b, 0) == map[]
  {
    PartStart(f, b, cond);
  }

  /** The instruction under the iterator is instruction k with earlier values replaced, and its remapped copies are the clones. */
  lemma LoopHead(f: Fn, b: Label, cond: Operand, k: nat, fn: Fn, iit: nat,
                 thenMap: Sub, elseMap: Sub, tailMap: Sub, toRemove: set<Id>)
    requires WellFormed(f) && b in f.blocks && k < |f.blocks[b].body|
    requires LoopOk(f, b, cond, k, fn, iit, thenMap, elseMap, tailMap, toRemove)
    ensures ThenLabel(f) in fn.blocks && ElseLabel(f) in fn.blocks && TailLabel(f) in fn.blocks
    ensures iit < |fn.blocks[TailLabel(f)].body|
    ensures var instr := fn.blocks[TailLabel(f)].body[iit];
            && instr.id == f.blocks[b].body[k].id && instr.ty == f.blocks[b].body[k].ty
            && Instr(CopyId(f.nextId, THEN, k), instr.op, instr.ty, RenArgs(thenMap, instr.args)) == PartInstr(f, b, THEN, k, k)
            && Instr(CopyId(f.nextId, ELSE, k), instr.op, instr.ty, RenArgs(elseMap, instr.args)) == PartInstr(f, b, ELSE, k, k)
  {
    NextTail(f, b, k);
    RemapGivesClone(f, b, THEN, k, thenMap);
    RemapGivesClone(f, b, ELSE, k, elseMap);
    assert fn.blocks[TailLabel(f)] == PartTail(f, b, k);
  }

  lemma ClonesInserted(f: Fn, b: Label, cond: Operand, k: nat, fn: Fn, fn': Fn, iit: nat,
                       thenMap: Sub, elseMap: Sub, tailMap: Sub, toRemove: set<Id>)
    requires b in f.blocks && k < |f.blocks[b].body|
    requires LoopOk(f, b, cond, k, fn, iit, thenMap, elseMap, tailMap, toRemove)
    requires ThenLabel(f) in fn.blocks && ElseLabel(f) in fn.blocks
    requires fn' == InsertBeforeTerm(InsertBeforeTerm(fn, ThenLabel(f), PartInstr(f, b, THEN, k, k)),
                                     ElseLabel(f), PartInstr(f, b, ELSE, k, k)).(nextId := f.nextId + 1 + 3 * (k + 1))
    ensures fn' == WithClones(f, b, cond, k)
  {
  }

  lemma LoopVoid(f: Fn, b: Label, cond: Operand, k: nat, fn: Fn, iit: nat,
                 thenMap: Sub, elseMap: Sub, tailMap: Sub, toRemove: set<Id>)
    requires WellFormed(f) && b in f.blocks && k < |f.blocks[b].body| && f.blocks[b].body[k].ty.Void?
    requires LoopOk(f, b, cond, k, fn, iit, thenMap, elseMap, tailMap, toRemove)
    ensures var i := f.blocks[b].body[k].id;
            && LoopOk(f, b, cond, k + 1, WithClones(f, b, cond, k), iit + 1, thenMap[i := CopyId(f.nextId, THEN, k)],
                      elseMap[i := CopyId(f.nextId, ELSE, k)], tailMap, toRemove + {i})
            && PartSub(f, b, k + 1) == PartSub(f, b, k)
  {
    NextVoid(f, b, cond, k);
    FollowVoid(f, b, THEN, k, thenMap);
    FollowVoid(f, b, ELSE, k, elseMap);
  }

  lemma LoopValue(f: Fn, b: Label, cond: Operand, k: nat, fn: Fn, iit: nat,
                  thenMap: Sub, elseMap: Sub, tailMap: Sub, toRemove: set<Id>)
    requires WellFormed(f) && b in f.blocks && k < |f.blocks[b].body| && !f.blocks[b].body[k].ty.Void?
    requires RenOp(PhiSub(f.nextId, f.blocks[b].body), cond) == cond
    requires LoopOk(f, b, cond, k, fn, iit, thenMap, elseMap, tailMap, toRemove)
    ensures TailLabel(f) in WithClones(f, b, cond, k).blocks
    ensures iit < |WithClones(f, b, cond, k).blocks[TailLabel(f)].body|
    ensures var i := f.blocks[b].body[k].id;
            var phi := MergePhi(f.nextId, f.blocks[b].body[k], k, ThenLabel(f), ElseLabel(f));
            && LoopOk(f, b, cond, k + 1, ReplaceInstWithPhi(WithClones(f, b, cond, k), TailLabel(f), iit, phi), iit,
                      Followed(thenMap[i := CopyId(f.nextId, THEN, k)], i, phi.id),
                      Followed(elseMap[i := CopyId(f.nextId, ELSE, k)], i, phi.id),
                      tailMap[phi.id := phi.id], toRemove)
            && PartSub(f, b, k + 1) == PartSub(f, b, k)[i := phi.id]
  {
    assert TailLabel(f) in WithClones(f, b, cond, k).blocks;
    hide PartFn, WithClones, ReplaceInstWithPhi, FollowedMap, PhiSub, Closed, PhisComplete, UsesDominated, Followed;
    assert PartSub(f, b, k + 1) == PartSub(f, b, k)[f.blocks[b].body[k].id := CopyId(f.nextId, MERGED, k)];
    NextValue(f, b, cond, k);
    FollowValue(f, b, THEN, k, thenMap);
    FollowValue(f, b, ELSE, k, elseMap);
  }

  lemma LoopEnd(f: Fn, b: Label, cond: Operand, fn: Fn, iit: nat,
                thenMap: Sub, elseMap: Sub, tailMap: Sub, toRemove: set<Id>)
    requires WellFormed(f) && b in f.blocks && CtxOk(f, b, cond)
    requires LoopOk(f, b, cond, |f.blocks[b].body|, fn, iit, thenMap, elseMap, tailMap, toRemove)
    ensures TailLabel(f) in fn.blocks
    ensures RemapTerm(fn, TailLabel(f), tailMap) == fn
    ensures PartSub(f, b, |f.blocks[b].body|) == PhiSub(f.nextId, f.blocks[b].body)
    ensures EraseFromBlock(fn, TailLabel(f), toRemove) == CloneFn(f, b, cond)
    ensures WellFormed(CloneFn(f, b, cond)) && SameBehaviour(f, CloneFn(f, b, cond))
  {
    RenTermIdentity(tailMap, fn.blocks[TailLabel(f)].term);
    assert RemapTerm(fn, TailLabel(f), tailMap).blocks == fn.blocks;
    Finish(f, b, cond, toRemove);
    CloneWellFormed(f, b, cond);
    CloneSameBehaviour(f, b, cond);
  }

  /** What the branches hold and which of them is taken. */
  lemma CloneEnds(f: Fn, b: Label, cond: Operand)
    requires WellFormed(f) && b in f.blocks && CtxOk(f, b, cond)
    ensures b in CloneFn(f, b, cond).blocks && BothBranches(f, CloneFn(f, b, cond), b)
    ensures forall prev: Option<Label>, inp: Input, env: Env, w: World ::
              Defined(cond, env) && ExecBlock(CloneFn(f, b, cond).blocks[b], b, prev, inp, env, w).At? ==>
                ExecBlock(CloneFn(f, b, cond).blocks[b], b, prev, inp, env, w).lbl
                == if Val(cond, inp, env) == 0 then f.nextLabel else f.nextLabel + 1
  {
    BothCopies(f, b, cond);
    hide CloneFn, ExecBlock, CtxOk;
    forall prev: Option<Label>, inp: Input, env: Env, w: World |
      Defined(cond, env) && ExecBlock(CloneFn(f, b, cond).blocks[b], b, prev, inp, env, w).At?
      ensures ExecBlock(CloneFn(f, b, cond).blocks[b], b, prev, inp, env, w).lbl
              == if Val(cond, inp, env) == 0 then f.nextLabel else f.nextLabel + 1
    {
      CloneTests(f, b, cond, prev, inp, env, w);
    }
  }

  // The list of blocks to clone, and how it survives the clonings

  datatype Target = Target(block: Label, context: Operand)

  /** A value no global chosen from the reachable ones is one the block can test. */
  lemma ChosenIsAvailable(f: Fn, riv: map<Label, set<Operand>>, l: Label, x: Operand)
    requires l in riv && Exact(f, riv, l) && x in riv[l]
    ensures CtxOk(f, l, x)
  {
    assert IsReachableValue(f, l, x);
    if x.Local? {
      ReachableValueIsAvailable(f, l, x);
    }
  }

  ghost predicate DistinctBlocks(ts: seq<Target>) {
    forall j, k :: 0 <= j < k < |ts| ==> ts[j].block != ts[k].block
  }

  /** The remapper never touches the values a pending block is about to give new names to, on either side. */
  ghost predicate Spares(remapper: Sub, b: Block) {
    forall x :: x in remapper ==> x !in BodyDefs(b.body, |b.body|) && remapper[x] !in BodyDefs(b.body, |b.body|)
  }

  /** The targets from k on can still be cloned, their context values being looked up in the remapper. */
  ghost predicate Pending(fn: Fn, ts: seq<Target>, k: nat, remapper: Sub) {
    forall j :: k <= j < |ts| ==>
      && ts[j].block in fn.blocks
      && CtxOk(fn, ts[j].block, RenOp(remapper, ts[j].context))
      && Spares(remapper, fn.blocks[ts[j].block])
  }

  /** A replaced value leads to its final PHI in one look-up. */
  ghost predicate OneHop(remapper: Sub) {
    forall x :: x in remapper ==> remapper[x] !in remapper
  }

  lemma ComposeRemapper(f: Fn, b: Label, remapper: Sub, x: Operand)
    requires FreshNames(f) && Unique(f) && b in f.blocks && Spares(remapper, f.blocks[b])
    ensures var s := PhiSub(f.nextId, f.blocks[b].body);
            RenOp(remapper + s, x) == RenOp(s, RenOp(remapper, x))
  {
    BlockIdsDistinct(f, b);
    PhiSubActs(f.nextId, f.blocks[b].body);
  }

  lemma OtherBodyApart(f: Fn, b: Label, l: Label)
    requires FreshNames(f) && Unique(f) && b in f.blocks && l in f.blocks && l != b
    ensures BodyDefs(f.blocks[b].body, |f.blocks[b].body|) !! BodyDefs(f.blocks[l].body, |f.blocks[l].body|)
    ensures forall i :: i in BodyDefs(f.blocks[l].body, |f.blocks[l].body|) ==> i < f.nextId
  {
    var body := f.blocks[l].body;
    forall i | i in BodyDefs(body, |body|)
      ensures i < f.nextId && i !in BodyDefs(f.blocks[b].body, |f.blocks[b].body|)
    {
      var k :| 0 <= k < |body| && !body[k].ty.Void? && body[k].id == i;
      assert SiteId(f, InstrSite(l, k)) == i;
      BodyIdsElsewhere(f, b, InstrSite(l, k));
    }
  }

  lemma SparesKept(f: Fn, b: Label, ctx: Operand, remapper: Sub, l: Label)
    requires FreshNames(f) && Unique(f) && b in f.blocks && l in f.blocks && l != b
    requires Spares(remapper, f.blocks[l])
    ensures l in CloneFn(f, b, ctx).blocks
    ensures Spares(remapper + PhiSub(f.nextId, f.blocks[b].body), CloneFn(f, b, ctx).blocks[l])
  {
    var s := PhiSub(f.nextId, f.blocks[b].body);
    var blk' := CloneFn(f, b, ctx).blocks[l];
    assert blk' == RenBlock(s, map[b := TailLabel(f)], f.blocks[l]);
    BlockIdsDistinct(f, b);
    PhiSubActs(f.nextId, f.blocks[b].body);
    OtherBodyApart(f, b, l);
    assert forall j :: 0 <= j < |blk'.body| ==> blk'.body[j].id == f.blocks[l].body[j].id && blk'.body[j].ty == f.blocks[l].body[j].ty;
    assert BodyDefs(blk'.body, |blk'.body|) == BodyDefs(f.blocks[l].body, |f.blocks[l].body|);
  }

  lemma PendingKept(f: Fn, ts: seq<Target>, k: nat, remapper: Sub)
    requires WellFormed(f) && k < |ts| && DistinctBlocks(ts) && Pending(f, ts, k, remapper) && OneHop(remapper)
    requires forall x :: x in remapper ==> x < f.nextId
    ensures ts[k].block in f.blocks
    ensures var s := PhiSub(f.nextId, f.blocks[ts[k].block].body);
            && Pending(CloneFn(f, ts[k].block, RenOp(remapper, ts[k].context)), ts, k + 1, remapper + s)
            && OneHop(remapper + s)
  {
    var b, ctx := ts[k].block, RenOp(remapper, ts[k].context);
    var s := PhiSub(f.nextId, f.blocks[b].body);
    BlockIdsDistinct(f, b);
    PhiSubActs(f.nextId, f.blocks[b].body);
    forall j | k + 1 <= j < |ts|
      ensures ts[j].block in CloneFn(f, b, ctx).blocks
      ensures CtxOk(CloneFn(f, b, ctx), ts[j].block, RenOp(remapper + s, ts[j].context))
      ensures Spares(remapper + s, CloneFn(f, b, ctx).blocks[ts[j].block])
    {
      CtxKept(f, b, ctx, ts[j].block, RenOp(remapper, ts[j].context));
      ComposeRemapper(f, b, remapper, ts[j].context);
      SparesKept(f, b, ctx, remapper, ts[j].block);
    }
    OneHopKept(f, b, remapper);
  }

  lemma OneHopKept(f: Fn, b: Label, remapper: Sub)
    requires FreshNames(f) && Unique(f) && b in f.blocks && Spares(remapper, f.blocks[b]) && OneHop(remapper)
    requires forall x :: x in remapper ==> x < f.nextId
    ensures OneHop(remapper + PhiSub(f.nextId, f.blocks[b].body))
  {
    BlockIdsDistinct(f, b);
    PhiSubActs(f.nextId, f.blocks[b].body);
  }

  /** The context value of a target that has been cloned is still what its block tests, under the value's current name. */
  ghost predicate Tested(fn: Fn, t: Target, remapper: Sub, base: Label) {
    CtxOk(fn, t.block, RenOp(remapper, t.context)) && ComparesWithZero(fn, t.block, RenOp(remapper, t.context), base)
  }

  lemma TestedNow(f: Fn, t: Target, remapper: Sub)
    requires WellFormed(f) && t.block in f.blocks && CtxOk(f, t.block, RenOp(remapper, t.context)) && Spares(remapper, f.blocks[t.block])
    ensures Tested(CloneFn(f, t.block, RenOp(remapper, t.context)), t, remapper + PhiSub(f.nextId, f.blocks[t.block].body), f.nextLabel)
  {
    var x := RenOp(remapper, t.context);
    CtxKept(f, t.block, x, t.block, x);
    CtxUntouched(f, t.block, x);
    ComposeRemapper(f, t.block, remapper, t.context);
    HeadCompares(f, t.block, x);
  }

  lemma TestedStill(f: Fn, b: Label, ctx: Operand, t: Target, remapper: Sub, base: Label)
    requires WellFormed(f) && b in f.blocks && Spares(remapper, f.blocks[b]) && t.block != b && Tested(f, t, remapper, base)
    ensures Tested(CloneFn(f, b, ctx), t, remapper + PhiSub(f.nextId, f.blocks[b].body), base)
  {
    var x := RenOp(remapper, t.context);
    CtxKept(f, b, ctx, t.block, x);
    TestKept(f, b, ctx, t.block, x, base);
    ComposeRemapper(f, b, remapper, t.context);
  }

  /** The first k targets are tested, each with its own three new blocks. */
  ghost predicate AllTested(fn: Fn, ts: seq<Target>, k: nat, remapper: Sub, first: Label) {
    k <= |ts| && forall j :: 0 <= j < k ==> Tested(fn, ts[j], remapper, first + 3 * j)
  }

  lemma AllTestedNext(f: Fn, ts: seq<Target>, k: nat, remapper: Sub, first: Label)
    requires WellFormed(f) && k < |ts| && DistinctBlocks(ts) && Pending(f, ts, k, remapper)
    requires AllTested(f, ts, k, remapper, first) && f.nextLabel == first + 3 * k
    ensures ts[k].block in f.blocks
    ensures AllTested(CloneFn(f, ts[k].block, RenOp(remapper, ts[k].context)), ts, k + 1,
                      remapper + PhiSub(f.nextId, f.blocks[ts[k].block].body), first)
  {
    TestedNow(f, ts[k], remapper);
    forall j | 0 <= j < k
      ensures Tested(CloneFn(f, ts[k].block, RenOp(remapper, ts[k].context)), ts[j],
                     remapper + PhiSub(f.nextId, f.blocks[ts[k].block].body), first + 3 * j)
    {
      assert Tested(f, ts[j], remapper, first + 3 * j);
      TestedStill(f, ts[k].block, RenOp(remapper, ts[k].context), ts[j], remapper, first + 3 * j);
    }
  }

  /** So each target's block sends a run to its first copy exactly when the target's context value is zero. */
  lemma TargetsTest(fn: Fn, ts: seq<Target>, remapper: Sub, first: Label)
    requires WellFormed(fn) && AllTested(fn, ts, |ts|, remapper, first)
    ensures forall j :: 0 <= j < |ts| ==> ts[j].block in fn.blocks
    ensures forall j, prev: Option<Label>, inp: Input, env: Env, w: World ::
              0 <= j < |ts| && Defined(RenOp(remapper, ts[j].context), env)
              && ExecBlock(fn.blocks[ts[j].block], ts[j].block, prev, inp, env, w).At? ==>
                ExecBlock(fn.blocks[ts[j].block], ts[j].block, prev, inp, env, w).lbl
                == if Val(RenOp(remapper, ts[j].context), inp, env) == 0 then first + 3 * j else first + 3 * j + 1
  {
    OnlyOneEach(fn);
    forall j | 0 <= j < |ts|
      ensures ts[j].block in fn.blocks
    {
      assert Tested(fn, ts[j], remapper, first + 3 * j);
    }
    hide WellFormed, CtxOk, ComparesWithZero, ExecBlock;
    forall j, prev: Option<Label>, inp: Input, env: Env, w: World |
      0 <= j < |ts| && Defined(RenOp(remapper, ts[j].context), env)
      && ExecBlock(fn.blocks[ts[j].block], ts[j].block, prev, inp, env, w).At?
      ensures ExecBlock(fn.blocks[ts[j].block], ts[j].block, prev, inp, env, w).lbl
              == if Val(RenOp(remapper, ts[j].context), inp, env) == 0 then first + 3 * j else first + 3 * j + 1
    {
      assert Tested(fn, ts[j], remapper, first + 3 * j);
      TestGoes(fn, ts[j].block, RenOp(remapper, ts[j].context), first + 3 * j, prev, inp, env, w);
    }
  }

  // The pass

  /** A function and what the remapper holds. */
  datatype Cloned = Cloned(fn: Fn, remapper: Sub)

  /** Cloning the targets one after the other, each under its context value's current name. */
  function CloneAll(f: Fn, ts: seq<Target>): Cloned {
    if ts == [] then Cloned(f, map[])
    else
      var c, t := CloneAll(f, ts[..|ts| - 1]), ts[|ts| - 1];
      if t.block !in c.fn.blocks then c
      else Cloned(CloneFn(c.fn, t.block, RenOp(c.remapper, t.context)), c.remapper + PhiSub(c.fn.nextId, c.fn.blocks[t.block].body))
  }

  /** Targets are blocks of the order with a reachable value that is no global; a block with none but such values is a target. */
  ghost predicate Chosen(f: Fn, order: seq<Label>, ts: seq<Target>) {
    && DistinctBlocks(ts)
    && (forall j :: 0 <= j < |ts| ==> ts[j].block in order && IsReachableValue(f, ts[j].block, ts[j].context) && !ts[j].context.Global?)
    && (forall l :: l in order && Reachable(f, l) && MustBeTarget(f, l) ==> exists j :: 0 <= j < |ts| && ts[j].block == l)
  }

  ghost predicate MustBeTarget(f: Fn, l: Label) {
    && (exists x :: IsReachableValue(f, l, x))
    && (forall x :: IsReachableValue(f, l, x) ==> !x.Global?)
  }

  class DuplicateBB {
    var fn: Fn
    var count: nat

    constructor (f: Fn)
      ensures fn == f && count == 0
    {
      fn, count := f, 0;
    }

    /** Clones every instruction of b into both branches of a test of the context value. */
    method CloneBB(b: Label, contextValue: Operand, remapper0: Sub) returns (remapper: Sub)
      requires WellFormed(fn) && b in fn.blocks && CtxOk(fn, b, RenOp(remapper0, contextValue))
      modifies this
      ensures fn == CloneFn(old(fn), b, RenOp(remapper0, contextValue))
      ensures remapper == remapper0 + PhiSub(old(fn).nextId, old(fn).blocks[b].body)
      ensures count == old(count) + 1
      ensures WellFormed(fn) && SameBehaviour(old(fn), fn)
      ensures b in fn.blocks && BothBranches(old(fn), fn, b)
      ensures forall prev: Option<Label>, inp: Input, env: Env, w: World ::
                Defined(RenOp(remapper0, contextValue), env) && ExecBlock(fn.blocks[b], b, prev, inp, env, w).At? ==>
                  ExecBlock(fn.blocks[b], b, prev, inp, env, w).lbl
                  == if Val(RenOp(remapper0, contextValue), inp, env) == 0 then old(fn).nextLabel else old(fn).nextLabel + 1
    {
      hide ExecBlock, BothBranches;
      hide WellFormed, LoopOk, CtxOk, SameBehaviour, CloneFn, WithClones, ReplaceInstWithPhi, PartInstr, RenArgs, EraseFromBlock,
        RemapTerm, SplitAndInsertIfThenElse, Followed, PartSub, PhiSub, Bindings, PartFn;
      ghost var f := fn;
      remapper := remapper0;
      var cond := if contextValue.Local? && contextValue.id in remapper then Local(remapper[contextValue.id]) else contextValue;
      assert cond == RenOp(remapper, contextValue);
      CtxUntouched(f, b, cond);
      LoopStart(f, b, cond);
      var base := fn.nextId;
      var thenL, elseL, tailL := ThenLabel(fn), ElseLabel(fn), TailLabel(fn);
      var size := |fn.blocks[b].body|;
      fn := SplitAndInsertIfThenElse(fn, b, cond);
      var thenMap: Sub, elseMap: Sub, tailMap: Sub := map[], map[], map[];
      var toRemove: set<Id> := {};
      var iit := 0;
      for k := 0 to size
        invariant LoopOk(f, b, cond, k, fn, iit, thenMap, elseMap, tailMap, toRemove)
        invariant remapper == remapper0 + PartSub(f, b, k)
        invariant count == old(count)
      {
        LoopHead(f, b, cond, k, fn, iit, thenMap, elseMap, tailMap, toRemove);
        var instr := fn.blocks[tailL].body[iit];
        var thenClone := Instr(CopyId(base, THEN, k), instr.op, instr.ty, RenArgs(thenMap, instr.args));
        var elseClone := Instr(CopyId(base, ELSE, k), instr.op, instr.ty, RenArgs(elseMap, instr.args));
        ghost var fn0, thenMap0, elseMap0 := fn, thenMap, elseMap;
        thenMap := thenMap[instr.id := thenClone.id];
        elseMap := elseMap[instr.id := elseClone.id];
        fn := InsertBeforeTerm(InsertBeforeTerm(fn, thenL, thenClone), elseL, elseClone).(nextId := base + 1 + 3 * (k + 1));
        ClonesInserted(f, b, cond, k, fn0, fn, iit, thenMap0, elseMap0, tailMap, toRemove);
        if thenClone.ty.Void? {
          LoopVoid(f, b, cond, k, fn0, iit, thenMap0, elseMap0, tailMap, toRemove);
          toRemove := toRemove + {instr.id};
          iit := iit + 1;
        } else {
          LoopValue(f, b, cond, k, fn0, iit, thenMap0, elseMap0, tailMap, toRemove);
          var phi := Phi(CopyId(base, MERGED, k), thenClone.ty,
                         [Edge(thenL, Local(thenClone.id)), Edge(elseL, Local(elseClone.id))]);
          tailMap := tailMap[phi.id := phi.id];
          remapper := remapper[instr.id := phi.id];
          fn := ReplaceInstWithPhi(fn, tailL, iit, phi);
          thenMap := Followed(thenMap, instr.id, phi.id);
          elseMap := Followed(elseMap, instr.id, phi.id);
        }
      }
      LoopEnd(f, b, cond, fn, iit, thenMap, elseMap, tailMap, toRemove);
      fn := RemapTerm(fn, tailL, tailMap);
      fn := EraseFromBlock(fn, tailL, toRemove);
      count := count + 1;
      CloneEnds(f, b, cond);
    }

    /** Picks an arbitrary reachable value for each block that has one; a block whose pick is a global is skipped. */
    method FindBBsToDuplicate(order: seq<Label>, riv: map<Label, set<Operand>>) returns (targets: seq<Target>)
      requires forall j, k :: 0 <= j < k < |order| ==> order[j] != order[k]
      ensures DistinctBlocks(targets)
      ensures forall j :: 0 <= j < |targets| ==>
                && targets[j].block in order
                && targets[j].block in riv && targets[j].context in riv[targets[j].block]
                && !targets[j].context.Global?
      ensures forall l :: l in order && l in riv && riv[l] != {} && (forall x :: x in riv[l] ==> !x.Global?) ==>
                exists j :: 0 <= j < |targets| && targets[j].block == l
    {
      targets := [];
      for i := 0 to |order|
        invariant DistinctBlocks(targets)
        invariant forall j :: 0 <= j < |targets| ==>
                    && targets[j].block in order[..i]
                    && targets[j].block in riv && targets[j].context in riv[targets[j].block]
                    && !targets[j].context.Global?
        invariant forall k :: 0 <= k < i && order[k] in riv && riv[order[k]] != {} && (forall x :: x in riv[order[k]] ==> !x.Global?) ==>
                    exists j :: 0 <= j < |targets| && targets[j].block == order[k]
      {
        var l := order[i];
        ghost var before := targets;
        assert order[..i + 1] == order[..i] + [l];
        if l in riv && riv[l] != {} {
          var value :| value in riv[l];
          if !value.Global? {
            targets := targets + [Target(l, value)];
            assert targets[|before|].block == l;
          }
        }
        forall k | 0 <= k < i && order[k] in riv && riv[order[k]] != {} && (forall x :: x in riv[order[k]] ==> !x.Global?)
          ensures exists j :: 0 <= j < |targets| && targets[j].block == order[k]
        {
          var j :| 0 <= j < |before| && before[j].block == order[k];
          assert targets[j].block == order[k];
        }
      }
    }

    /** The whole pass: for every order of blocks and every choice of context values, behaviour and well-formedness are kept. */
    method Run(order: seq<Label>, root: DomTree) returns (targets: seq<Target>, remapper: Sub)
      requires WellFormed(fn) && IsDomTree(fn, root)
      requires forall l :: l in order ==> l in fn.blocks
      requires forall j, k :: 0 <= j < k < |order| ==> order[j] != order[k]
      modifies this
      ensures Chosen(old(fn), order, targets)
      ensures CloneAll(old(fn), targets) == Cloned(fn, remapper)
      ensures SameBehaviour(old(fn), fn) && WellFormed(fn)
      ensures count == old(count) + |targets|
      ensures OneHop(remapper)
      ensures forall j :: 0 <= j < |targets| ==> targets[j].block in fn.blocks
      ensures forall j, prev: Option<Label>, inp: Input, env: Env, w: World ::
                0 <= j < |targets| && Defined(RenOp(remapper, targets[j].context), env)
                && ExecBlock(fn.blocks[targets[j].block], targets[j].block, prev, inp, env, w).At? ==>
                  ExecBlock(fn.blocks[targets[j].block], targets[j].block, prev, inp, env, w).lbl
                  == if Val(RenOp(remapper, targets[j].context), inp, env) == 0 then old(fn).nextLabel + 3 * j
                     else old(fn).nextLabel + 3 * j + 1
    {
      hide ExecBlock, BothBranches, AllTested;
      var riv, _ := BuildRiv(fn, root);
      targets := FindBBsToDuplicate(order, riv);
      ghost var f := fn;
      remapper := map[];
      StartPending(f, riv, targets);
      ChosenHolds(f, riv, order, targets);
      NoneTested(f, targets);
      hide Chosen, Exact;
      for k := 0 to |targets|
        invariant AllTested(fn, targets, k, remapper, f.nextLabel) && fn.nextLabel == f.nextLabel + 3 * k
        invariant CloneAll(f, targets[..k]) == Cloned(fn, remapper)
        invariant WellFormed(fn) && SameBehaviour(f, fn)
        invariant Pending(fn, targets, k, remapper) && OneHop(remapper)
        invariant forall x :: x in remapper ==> x < fn.nextId
        invariant count == old(count) + k
      {
        ghost var g := fn;
        assert targets[..k + 1][..k] == targets[..k];
        PendingKept(fn, targets, k, remapper);
        AllTestedNext(fn, targets, k, remapper, f.nextLabel);
        ThreeMore(fn, targets[k].block, RenOp(remapper, targets[k].context));
        remapper := CloneBB(targets[k].block, targets[k].context, remapper);
        SameBehaviourTransitive(f, g, fn);
        RemapperBelow(g, targets[k].block);
      }
      assert targets[..|targets|] == targets;
      TargetsTest(fn, targets, remapper, f.nextLabel);
    }
  }

  lemma NoneTested(f: Fn, ts: seq<Target>)
    ensures AllTested(f, ts, 0, map[], f.nextLabel)
  {
  }

  lemma ThreeMore(f: Fn, b: Label, ctx: Operand)
    requires b in f.blocks
    ensures CloneFn(f, b, ctx).nextLabel == f.nextLabel + 3
  {
  }

  lemma ChosenHolds(f: Fn, riv: map<Label, set<Operand>>, order: seq<Label>, ts: seq<Target>)
    requires forall l :: l in riv <==> Reachable(f, l)
    requires forall l :: l in riv ==> Exact(f, riv, l)
    requires DistinctBlocks(ts)
    requires forall j :: 0 <= j < |ts| ==>
               ts[j].block in order && ts[j].block in riv && ts[j].context in riv[ts[j].block] && !ts[j].context.Global?
    requires forall l :: l in order && l in riv && riv[l] != {} && (forall x :: x in riv[l] ==> !x.Global?) ==>
               exists j :: 0 <= j < |ts| && ts[j].block == l
    ensures Chosen(f, order, ts)
  {
    forall l | l in order && Reachable(f, l) && MustBeTarget(f, l)
      ensures exists j :: 0 <= j < |ts| && ts[j].block == l
    {
      var x :| IsReachableValue(f, l, x);
      assert Exact(f, riv, l) && x in riv[l];
    }
    forall j | 0 <= j < |ts|
      ensures IsReachableValue(f, ts[j].block, ts[j].context)
    {
      assert Exact(f, riv, ts[j].block);
    }
  }

  lemma RemapperBelow(f: Fn, b: Label)
    requires FreshNames(f) && Unique(f) && b in f.blocks
    ensures forall x :: x in PhiSub(f.nextId, f.blocks[b].body) ==> x < f.nextId
  {
    BlockIdsDistinct(f, b);
    BindingsFacts(f.nextId, f.blocks[b].body, MERGED, |f.blocks[b].body|);
  }

  lemma StartPending(f: Fn, riv: map<Label, set<Operand>>, ts: seq<Target>)
    requires forall l :: l in riv ==> Exact(f, riv, l)
    requires forall j :: 0 <= j < |ts| ==> ts[j].block in f.blocks && ts[j].block in riv && ts[j].context in riv[ts[j].block]
    ensures Pending(f, ts, 0, map[]) && OneHop(map[]) && SameBehaviour(f, f)
  {
    SameBehaviourReflexive(f);
    forall j | 0 <= j < |ts|
      ensures CtxOk(f, ts[j].block, RenOp(map[], ts[j].context))
    {
      ChosenIsAvailable(f, riv, ts[j].block, ts[j].context);
      assert RenOp(map[], ts[j].context) == ts[j].context;
    }
  }
}
