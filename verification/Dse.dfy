/**
 Dead store elimination: erasing a store leaves every run as it was when the bytes it wrote are overwritten
 before anything looks at them. The bytes still owed to the erased store are tracked along the run.
 */
module Dse {
  import opened Ir
  import opened Semantics
  import opened Memory

  function Erase(f: Fn, p: Id): Fn {
    f.(blocks := map l | l in f.blocks :: f.blocks[l].(body := Without(f.blocks[l].body, {p})))
  }

  predicate IsStore(i: Instr) {
    i.op.Store? && i.ty.Void? && |i.args| == 2
  }

  /** The id p belongs to stores only. */
  ghost predicate NamesStore(f: Fn, p: Id) {
    forall l, k :: l in f.blocks && 0 <= k < |f.blocks[l].body| && f.blocks[l].body[k].id == p ==> IsStore(f.blocks[l].body[k])
  }

  // Dirty bytes

  /** The bytes a load or store touches. */
  function Touched(i: Instr, inp: Input, env: Env): set<int> {
    if i.op.Load? && |i.args| == 1 then Range(Val(i.args[0], inp, env), i.op.bytes)
    else if i.op.Store? && |i.args| == 2 then Range(Val(i.args[1], inp, env), i.op.bytes)
    else {}
  }

  /** Whatever exposes the whole memory must find no dirty byte. */
  function Calm(d: set<int>): Option<set<int>> {
    if d == {} then Some(d) else None
  }

  /** The dirty bytes after an instruction; None if it looks at one, or if the store to be erased faults. */
  function Mark(p: Id, i: Instr, inp: Input, env: Env, w: World, d: set<int>): Option<set<int>> {
    if ExecInstr(i, inp, env, w).Bad? then (if i.id == p then None else Calm(d))
    else
      match i.op
      case Load(_) => if Touched(i, inp, env) !! d then Some(d) else None
      case Store(_) => Some(if i.id == p then d + Touched(i, inp, env) else d - Touched(i, inp, env))
      case Call(_) => Calm(d)
      case _ => Some(d)
  }

  function MarkBody(p: Id, body: seq<Instr>, inp: Input, env: Env, w: World, d: set<int>): Option<set<int>> {
    if body == [] then Some(d)
    else
      var d1 := Mark(p, body[0], inp, env, w, d);
      match ExecInstr(body[0], inp, env, w)
      case Bad(_, _) => d1
      case Ok(env1, w1) => if d1.None? then None else MarkBody(p, body[1..], inp, env1, w1, d1.value)
  }

  function MarkBlock(p: Id, b: Block, l: Label, prev: Option<Label>, inp: Input, env: Env, w: World, d: set<int>): Option<set<int>> {
    match ExecPhis(b.phis, prev, inp, env, env, w)
    case Bad(_, _) => Calm(d)
    case Ok(env1, w1) =>
      var d1 := MarkBody(p, b.body, inp, env1, w1, d);
      if d1.Some? && ExecBlock(b, l, prev, inp, env, w).At? then d1
      else if d1.Some? then Calm(d1.value)
      else None
  }

  function MarkStep(f: Fn, p: Id, inp: Input, c: Config, d: set<int>): Option<set<int>> {
    if !c.At? || c.lbl !in f.blocks then Calm(d)
    else MarkBlock(p, f.blocks[c.lbl], c.lbl, c.prev, inp, c.env, c.w, d)
  }

  /** The dirty bytes after n blocks of the run; None once one of them has been looked at. */
  function MarkRun(f: Fn, p: Id, inp: Input, n: nat): Option<set<int>> {
    if n == 0 then Some({})
    else
      var d := MarkRun(f, p, inp, n - 1);
      if d.None? then None else MarkStep(f, p, inp, Run(f, inp, n - 1), d.value)
  }

  /** On these inputs no run looks at a byte of the store before it is overwritten. */
  ghost predicate Unread(ok: Inputs, f: Fn, p: Id) {
    forall inp: Input, n: nat :: ok(inp) ==> MarkRun(f, p, inp, n).Some?
  }

  // Runs with and without the store

  ghost predicate WorldOff(d: set<int>, w: World, w': World) {
    w.hist == w'.hist && EqualOff(d, w.mem, w'.mem)
  }

  ghost predicate StepOff(d: set<int>, s: Step, s': Step) {
    if s.Ok? then s'.Ok? && s'.env == s.env && WorldOff(d, s.w, s'.w) else s' == s
  }

  lemma WorldOffNothing(w: World, w': World)
    requires WorldOff({}, w, w')
    ensures w == w'
  {
    EqualOffNothing(w.mem, w'.mem);
  }

  lemma ValsAt(xs: seq<Operand>, inp: Input, env: Env)
    ensures forall k :: 0 <= k < |xs| ==> Vals(xs, inp, env)[k] == Val(xs[k], inp, env)
  {
    if xs != [] {
      ValsAt(xs[1..], inp, env);
    }
  }

  /** An instruction that stays does the same in both worlds. */
  lemma InstrKept(p: Id, i: Instr, inp: Input, env: Env, w: World, w': World, d: set<int>)
    requires i.id != p && WorldOff(d, w, w') && Mark(p, i, inp, env, w, d).Some?
    ensures StepOff(Mark(p, i, inp, env, w, d).value, ExecInstr(i, inp, env, w), ExecInstr(i, inp, env, w'))
  {
    ValsAt(i.args, inp, env);
    if AllDefined(i.args, env) {
      var a := Vals(i.args, inp, env);
      if d == {} {
        WorldOffNothing(w, w');
        if i.op.Store? {
          assert EqualOff({}, ExecInstr(i, inp, env, w).w.mem, ExecInstr(i, inp, env, w).w.mem);
          assert d - Touched(i, inp, env) == {};
        }
      } else if i.op.Load? && |a| == 1 {
        ReadOff(d, w.mem, w'.mem, a[0], i.op.bytes);
      } else if i.op.Store? && |a| == 2 {
        WriteBoth(d, w.mem, w'.mem, a[1], i.op.bytes, a[0]);
      }
    } else {
      WorldOffNothing(w, w');
    }
  }

  /** The store that goes leaves its bytes dirty. */
  lemma InstrErased(p: Id, i: Instr, inp: Input, env: Env, w: World, w': World, d: set<int>)
    requires i.id == p && IsStore(i) && WorldOff(d, w, w') && Mark(p, i, inp, env, w, d).Some?
    ensures StepOff(Mark(p, i, inp, env, w, d).value, ExecInstr(i, inp, env, w), Ok(env, w'))
  {
    ValsAt(i.args, inp, env);
    var a := Vals(i.args, inp, env);
    WriteOne(d, w.mem, w'.mem, a[1], i.op.bytes, a[0]);
  }

  lemma {:induction false} BodyErased(p: Id, body: seq<Instr>, inp: Input, env: Env, w: World, w': World, d: set<int>)
    requires forall k :: 0 <= k < |body| && body[k].id == p ==> IsStore(body[k])
    requires WorldOff(d, w, w') && MarkBody(p, body, inp, env, w, d).Some?
    ensures StepOff(MarkBody(p, body, inp, env, w, d).value, ExecBody(body, inp, env, w), ExecBody(Without(body, {p}), inp, env, w'))
  {
    if body != [] {
      var i := body[0];
      var s := ExecInstr(i, inp, env, w);
      if i.id == p {
        InstrErased(p, i, inp, env, w, w', d);
        assert Without(body, {p}) == Without(body[1..], {p});
        if s.Ok? {
          BodyErased(p, body[1..], inp, env, s.w, w', Mark(p, i, inp, env, w, d).value);
        }
      } else {
        InstrKept(p, i, inp, env, w, w', d);
        assert Without(body, {p}) == [i] + Without(body[1..], {p});
        assert ([i] + Without(body[1..], {p}))[1..] == Without(body[1..], {p});
        var s' := ExecInstr(i, inp, env, w');
        if s.Ok? {
          BodyErased(p, body[1..], inp, s.env, s.w, s'.w, Mark(p, i, inp, env, w, d).value);
        }
      }
    }
  }

  /** Both runs are at the same place with the same values; memories differ at most on the dirty bytes. */
  ghost predicate Shadow(d: set<int>, c: Config, c': Config) {
    if c.At? then c'.At? && c'.lbl == c.lbl && c'.prev == c.prev && c'.env == c.env && WorldOff(d, c.w, c'.w)
    else c' == c && d == {}
  }

  lemma {:induction false} PhisAnyWorld(phis: seq<Phi>, prev: Option<Label>, inp: Input, edgeEnv: Env, env: Env, w: World, w': World)
    ensures var s, s' := ExecPhis(phis, prev, inp, edgeEnv, env, w), ExecPhis(phis, prev, inp, edgeEnv, env, w');
            && s.w == w && s'.w == w'
            && (if s.Ok? then s'.Ok? && s'.env == s.env else s'.Bad? && s'.kind == s.kind)
  {
    if phis != [] {
      var x := if prev.Some? then Incoming(phis[0].edges, prev.value) else None;
      if x.Some? && Defined(x.value, edgeEnv) {
        PhisAnyWorld(phis[1..], prev, inp, edgeEnv, env[phis[0].id := Val(x.value, inp, edgeEnv)], w, w');
      }
    }
  }

  lemma BlockErased(p: Id, b: Block, l: Label, prev: Option<Label>, inp: Input, env: Env, w: World, w': World, d: set<int>)
    requires forall k :: 0 <= k < |b.body| && b.body[k].id == p ==> IsStore(b.body[k])
    requires WorldOff(d, w, w') && MarkBlock(p, b, l, prev, inp, env, w, d).Some?
    ensures Shadow(MarkBlock(p, b, l, prev, inp, env, w, d).value,
                   ExecBlock(b, l, prev, inp, env, w), ExecBlock(b.(body := Without(b.body, {p})), l, prev, inp, env, w'))
  {
    PhisAnyWorld(b.phis, prev, inp, env, env, w, w');
    var s, s' := ExecPhis(b.phis, prev, inp, env, env, w), ExecPhis(b.phis, prev, inp, env, env, w');
    if s.Bad? {
      WorldOffNothing(w, w');
    } else {
      var d1 := MarkBody(p, b.body, inp, s.env, w, d).value;
      BodyErased(p, b.body, inp, s.env, w, w', d);
      var t, t' := ExecBody(b.body, inp, s.env, w), ExecBody(Without(b.body, {p}), inp, s.env, w');
      if t.Ok? && d1 == {} {
        WorldOffNothing(t.w, t'.w);
      }
    }
  }

  /** As long as no dirty byte has been looked at, the run without the store keeps up with the run with it. */
  lemma {:induction false} EraseKeepsUp(f: Fn, p: Id, inp: Input, n: nat)
    requires NamesStore(f, p) && MarkRun(f, p, inp, n).Some?
    ensures Shadow(MarkRun(f, p, inp, n).value, Run(f, inp, n), Run(Erase(f, p), inp, n))
  {
    if n > 0 {
      var d := MarkRun(f, p, inp, n - 1).value;
      EraseKeepsUp(f, p, inp, n - 1);
      var c, c' := Run(f, inp, n - 1), Run(Erase(f, p), inp, n - 1);
      if c.At? && c.lbl in f.blocks {
        BlockErased(p, f.blocks[c.lbl], c.lbl, c.prev, inp, c.env, c.w, c'.w, d);
      } else if c.At? {
        WorldOffNothing(c.w, c'.w);
      }
    } else {
      assert EqualOff({}, inp.mem, inp.mem);
    }
  }

  /** Erasing a store whose bytes are never looked at before they are overwritten changes no run. */
  lemma UnreadSameBehaviour(ok: Inputs, f: Fn, p: Id)
    requires NamesStore(f, p) && Unread(ok, f, p)
    ensures SameFor(ok, f, Erase(f, p))
  {
    var g := Erase(f, p);
    forall inp: Input | ok(inp)
      ensures SameOn(f, g, inp)
    {
      forall n: nat
        ensures Matched(f, g, inp, n)
      {
        EraseKeepsUp(f, p, inp, n);
        assert Observe(Run(f, inp, n)) == Observe(Run(g, inp, n));
      }
      TracksGivesSameOn(f, g, inp);
    }
  }
}
