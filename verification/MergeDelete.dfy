/** Deleting blocks nobody jumps to, together with their entries in PHIs. */
module MergeDelete {
  import opened Ir
  import opened Semantics
  import opened Ssa

  function DropEdges(edges: seq<Edge>, ls: set<Label>): seq<Edge> {
    if edges == [] then [] else (if edges[0].from in ls then [] else [edges[0]]) + DropEdges(edges[1..], ls)
  }

  function DropPhiEdges(phis: seq<Phi>, ls: set<Label>): seq<Phi> {
    seq(|phis|, k requires 0 <= k < |phis| => phis[k].(edges := DropEdges(phis[k].edges, ls)))
  }

  /** Remove the blocks and their entries in PHIs. */
  function DeleteBlocks(f: Fn, ls: set<Label>): Fn {
    f.(blocks := map x | x in f.blocks && x !in ls :: f.blocks[x].(phis := DropPhiEdges(f.blocks[x].phis, ls)))
  }

  function DeleteDeadBlock(f: Fn, l: Label): Fn {
    DeleteBlocks(f, {l})
  }

  lemma {:induction false} DropTwice(edges: seq<Edge>, a: set<Label>, b: set<Label>)
    ensures DropEdges(DropEdges(edges, a), b) == DropEdges(edges, a + b)
    decreases |edges|
  {
    if edges != [] {
      DropTwice(edges[1..], a, b);
      if edges[0].from !in a {
        assert DropEdges(edges, a)[1..] == DropEdges(edges[1..], a);
      } else {
        assert DropEdges(edges, a) == DropEdges(edges[1..], a);
      }
    }
  }

  lemma {:induction false} DropNone(edges: seq<Edge>)
    ensures DropEdges(edges, {}) == edges
  {
    if edges != [] {
      DropNone(edges[1..]);
      assert edges == [edges[0]] + edges[1..];
    }
  }

  lemma DeleteNone(f: Fn)
    ensures DeleteBlocks(f, {}) == f
  {
    forall l | l in f.blocks
      ensures DropPhiEdges(f.blocks[l].phis, {}) == f.blocks[l].phis
    {
      var phis := f.blocks[l].phis;
      forall k | 0 <= k < |phis|
        ensures DropEdges(phis[k].edges, {}) == phis[k].edges
      {
        DropNone(phis[k].edges);
      }
    }
    assert DeleteBlocks(f, {}).blocks == f.blocks;
  }

  lemma DeleteOneMore(f: Fn, ls: set<Label>, l: Label)
    ensures DeleteDeadBlock(DeleteBlocks(f, ls), l) == DeleteBlocks(f, ls + {l})
  {
    var g, h := DeleteDeadBlock(DeleteBlocks(f, ls), l), DeleteBlocks(f, ls + {l});
    forall x | x in h.blocks
      ensures DropPhiEdges(DropPhiEdges(f.blocks[x].phis, ls), {l}) == DropPhiEdges(f.blocks[x].phis, ls + {l})
    {
      var phis := f.blocks[x].phis;
      forall k | 0 <= k < |phis|
        ensures DropEdges(DropEdges(phis[k].edges, ls), {l}) == DropEdges(phis[k].edges, ls + {l})
      {
        DropTwice(phis[k].edges, ls, {l});
      }
    }
    assert g.blocks == h.blocks;
  }

  lemma {:induction false} DropKeepsIncoming(edges: seq<Edge>, ls: set<Label>, p: Label)
    requires p !in ls
    ensures Incoming(DropEdges(edges, ls), p) == Incoming(edges, p)
    decreases |edges|
  {
    if edges != [] {
      DropKeepsIncoming(edges[1..], ls, p);
      if edges[0].from !in ls {
        assert DropEdges(edges, ls)[1..] == DropEdges(edges[1..], ls);
      } else {
        assert DropEdges(edges, ls) == DropEdges(edges[1..], ls);
      }
    }
  }

  lemma {:induction false} DropKeepsPhis(phis: seq<Phi>, ls: set<Label>, prev: Option<Label>, inp: Input, edgeEnv: Env, env: Env, w: World)
    requires prev.Some? ==> prev.value !in ls
    ensures ExecPhis(DropPhiEdges(phis, ls), prev, inp, edgeEnv, env, w) == ExecPhis(phis, prev, inp, edgeEnv, env, w)
    decreases |phis|
  {
    if phis != [] && prev.Some? {
      DropKeepsIncoming(phis[0].edges, ls, prev.value);
      var x := Incoming(phis[0].edges, prev.value);
      assert DropPhiEdges(phis, ls)[1..] == DropPhiEdges(phis[1..], ls);
      if x.Some? && Defined(x.value, edgeEnv) {
        DropKeepsPhis(phis[1..], ls, prev, inp, edgeEnv, env[phis[0].id := Val(x.value, inp, edgeEnv)], w);
      }
    }
  }

  lemma {:induction false} DeadNeverReached(f: Fn, l: Label, inp: Input, n: nat)
    requires l != f.entry && Preds(f, l) == {}
    ensures var c := Run(f, inp, n);
            && Run(DeleteDeadBlock(f, l), inp, n) == c
            && (c.At? ==> c.lbl != l && c.prev != Some(l))
  {
    hide ExecPhis, DropPhiEdges, Succs;
    if n > 0 {
      DeadNeverReached(f, l, inp, n - 1);
      var c := Run(f, inp, n - 1);
      if c.At? && c.lbl in f.blocks {
        var b := f.blocks[c.lbl];
        assert DeleteDeadBlock(f, l).blocks[c.lbl] == b.(phis := DropPhiEdges(b.phis, {l}));
        DropKeepsPhis(b.phis, {l}, c.prev, inp, c.env, c.env, c.w);
        BlockDefines(b, c.lbl, c.prev, inp, c.env, c.w);
        var c' := Run(f, inp, n);
        if c'.At? {
          assert c.lbl in Preds(f, c'.lbl);
        }
      }
    }
  }

  lemma DeleteSameBehaviour(f: Fn, l: Label)
    requires l != f.entry && Preds(f, l) == {}
    ensures SameBehaviour(f, DeleteDeadBlock(f, l))
  {
    forall inp: Input
      ensures Tracks(f, DeleteDeadBlock(f, l), inp)
    {
      forall n: nat
        ensures Matched(f, DeleteDeadBlock(f, l), inp, n)
      {
        DeadNeverReached(f, l, inp, n);
        assert Observe(Run(f, inp, n)) == Observe(Run(DeleteDeadBlock(f, l), inp, n));
      }
    }
    TracksGivesSameBehaviour(f, DeleteDeadBlock(f, l));
  }
}
