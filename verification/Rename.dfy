/**
 Renaming of values and of PHI edges, and what it does to execution: code that reads renamed operands
 in a renamed environment does the same thing.
 */
module Rename {
  import opened Ir
  import opened Semantics

  /** A finite renaming of ids (or labels); everything else keeps its name. */
  type Sub = map<nat, nat>

  function Ren(r: Sub, i: nat): nat {
    if i in r then r[i] else i
  }

  function RenOp(r: Sub, x: Operand): Operand {
    if x.Local? then Local(Ren(r, x.id)) else x
  }

  function RenArgs(r: Sub, xs: seq<Operand>): seq<Operand> {
    seq(|xs|, k requires 0 <= k < |xs| => RenOp(r, xs[k]))
  }

  function RenInstr(r: Sub, i: Instr): Instr {
    i.(args := RenArgs(r, i.args))
  }

  function RenBody(r: Sub, body: seq<Instr>): seq<Instr> {
    seq(|body|, k requires 0 <= k < |body| => RenInstr(r, body[k]))
  }

  /** m renames the blocks the edges come from. */
  function RenEdges(r: Sub, m: Sub, edges: seq<Edge>): seq<Edge> {
    seq(|edges|, k requires 0 <= k < |edges| => Edge(Ren(m, edges[k].from), RenOp(r, edges[k].val)))
  }

  function RenPhis(r: Sub, m: Sub, phis: seq<Phi>): seq<Phi> {
    seq(|phis|, k requires 0 <= k < |phis| => phis[k].(edges := RenEdges(r, m, phis[k].edges)))
  }

  function RenTerm(r: Sub, t: Term): Term {
    match t
    case Br(_) => t
    case CondBr(c, a, b) => CondBr(RenOp(r, c), a, b)
    case Switch(v, d, cases) => Switch(RenOp(r, v), d, cases)
    case IndirectBr(a, dests) => IndirectBr(RenOp(r, a), dests)
    case Ret(v) => Ret(RenOp(r, v))
    case Unreachable => t
  }

  function RenBlock(r: Sub, m: Sub, b: Block): Block {
    Block(RenPhis(r, m, b.phis), RenBody(r, b.body), RenTerm(r, b.term))
  }

  /** Replace all uses: rename operands everywhere in the function. */
  function RenFn(r: Sub, m: Sub, f: Fn): Fn {
    f.(blocks := map l | l in f.blocks :: RenBlock(r, m, f.blocks[l]))
  }

  // Environments that agree up to a renaming

  /** Below n, i is computed in env exactly when its new name is in env', with the same value. */
  ghost predicate EnvRel(r: Sub, n: nat, env: Env, env': Env) {
    forall i: nat :: i < n ==>
      && (i in env <==> Ren(r, i) in env')
      && (i in env ==> env[i] == env'[Ren(r, i)])
  }

  predicate Below(n: nat, xs: seq<Operand>) {
    forall k :: 0 <= k < |xs| && xs[k].Local? ==> xs[k].id < n
  }

  lemma {:induction false} ValsRen(r: Sub, n: nat, xs: seq<Operand>, inp: Input, env: Env, env': Env)
    requires EnvRel(r, n, env, env') && Below(n, xs)
    ensures AllDefined(xs, env) <==> AllDefined(RenArgs(r, xs), env')
    ensures Vals(xs, inp, env) == Vals(RenArgs(r, xs), inp, env')
  {
    var ys := RenArgs(r, xs);
    forall k | 0 <= k < |xs|
      ensures Defined(xs[k], env) <==> Defined(ys[k], env')
    {
    }
    if xs != [] {
      ValsRen(r, n, xs[1..], inp, env, env');
      assert ys[1..] == RenArgs(r, xs[1..]);
    }
  }

  /** No other value below n goes by the name x. */
  ghost predicate NoClobber(r: Sub, n: nat, i: nat, x: nat) {
    forall j: nat :: j < n && j != i ==> Ren(r, j) != x
  }

  lemma EnvRelSet(r: Sub, r': Sub, n: nat, i: nat, x: nat, v: int, env: Env, env': Env)
    requires EnvRel(r, n, env, env') && NoClobber(r, n, i, x)
    requires Ren(r', i) == x && forall j: nat :: j < n && j != i ==> Ren(r', j) == Ren(r, j)
    ensures EnvRel(r', n, env[i := v], env'[x := v])
  {
  }

  lemma EnvRelExtra(r: Sub, n: nat, x: nat, v: int, env: Env, env': Env)
    requires EnvRel(r, n, env, env') && NoClobber(r, n, n, x)
    ensures EnvRel(r, n, env, env'[x := v])
  {
  }

  // Straight-line code

  /** After instruction i has been copied as j, i's value goes by j's id. */
  function Bind(r: Sub, i: Instr, j: Instr): Sub {
    if i.ty.Void? || Ren(r, i.id) == j.id then r else r[i.id := j.id]
  }

  ghost predicate CopyOf(r: Sub, n: nat, i: Instr, j: Instr) {
    && j == Instr(j.id, i.op, i.ty, RenArgs(r, i.args))
    && Below(n, i.args)
    && (!i.ty.Void? ==> i.id < n && NoClobber(r, n, i.id, j.id))
  }

  /** body' repeats body with operands renamed, each copied value being bound to its copy's id. */
  ghost predicate Copies(r: Sub, n: nat, body: seq<Instr>, body': seq<Instr>)
    decreases |body|
  {
    && |body| == |body'|
    && (body != [] ==>
          && CopyOf(r, n, body[0], body'[0])
          && Copies(Bind(r, body[0], body'[0]), n, body[1..], body'[1..]))
  }

  function BindAll(r: Sub, body: seq<Instr>, body': seq<Instr>): Sub
    requires |body| == |body'|
    decreases |body|
  {
    if body == [] then r else BindAll(Bind(r, body[0], body'[0]), body[1..], body'[1..])
  }

  /** s and s' ended alike, in environments related by r. */
  ghost predicate StepRel(r: Sub, n: nat, s: Step, s': Step) {
    if s.Ok? then s'.Ok? && s'.w == s.w && EnvRel(r, n, s.env, s'.env)
    else s' == s
  }

  lemma InstrSim(r: Sub, n: nat, i: Instr, j: Instr, inp: Input, env: Env, env': Env, w: World)
    requires EnvRel(r, n, env, env') && CopyOf(r, n, i, j)
    ensures StepRel(Bind(r, i, j), n, ExecInstr(i, inp, env, w), ExecInstr(j, inp, env', w))
  {
    ValsRen(r, n, i.args, inp, env, env');
    var s := ExecInstr(i, inp, env, w);
    if s.Ok? && !i.ty.Void? {
      EnvRelSet(r, Bind(r, i, j), n, i.id, j.id, s.env[i.id], env, env');
    }
  }

  lemma {:induction false} BodySim(r: Sub, n: nat, body: seq<Instr>, body': seq<Instr>, inp: Input, env: Env, env': Env, w: World)
    requires EnvRel(r, n, env, env') && Copies(r, n, body, body')
    ensures StepRel(BindAll(r, body, body'), n, ExecBody(body, inp, env, w), ExecBody(body', inp, env', w))
    decreases |body|
  {
    if body != [] {
      InstrSim(r, n, body[0], body'[0], inp, env, env', w);
      var s := ExecInstr(body[0], inp, env, w);
      var s' := ExecInstr(body'[0], inp, env', w);
      if s.Ok? {
        BodySim(Bind(r, body[0], body'[0]), n, body[1..], body'[1..], inp, s.env, s'.env, s.w);
      }
    }
  }

  /** Code that keeps its ids and is renamed by r copies itself, as long as r does not touch those ids. */
  ghost predicate Untouched(r: Sub, n: nat, body: seq<Instr>) {
    forall k :: 0 <= k < |body| ==>
      && Below(n, body[k].args)
      && body[k].id < n
      && Ren(r, body[k].id) == body[k].id
      && NoClobber(r, n, body[k].id, body[k].id)
  }

  lemma {:induction false} RenBodyCopies(r: Sub, n: nat, body: seq<Instr>)
    requires Untouched(r, n, body)
    ensures Copies(r, n, body, RenBody(r, body)) && BindAll(r, body, RenBody(r, body)) == r
  {
    if body != [] {
      assert RenBody(r, body)[1..] == RenBody(r, body[1..]);
      forall k | 0 <= k < |body[1..]|
        ensures body[1..][k] == body[k + 1]
      {
      }
      RenBodyCopies(r, n, body[1..]);
      assert CopyOf(r, n, body[0], RenBody(r, body)[0]);
    }
  }

  // PHIs

  predicate EdgesBelow(n: nat, edges: seq<Edge>) {
    forall k :: 0 <= k < |edges| && edges[k].val.Local? ==> edges[k].val.id < n
  }

  /** m names the blocks apart on the labels `from` and x. */
  ghost predicate Apart(m: Sub, edges: seq<Edge>, x: Label) {
    forall k :: 0 <= k < |edges| && edges[k].from != x ==> Ren(m, edges[k].from) != Ren(m, x)
  }

  lemma {:induction false} IncomingRen(r: Sub, m: Sub, edges: seq<Edge>, x: Label)
    requires Apart(m, edges, x)
    ensures Incoming(RenEdges(r, m, edges), Ren(m, x))
         == (var y := Incoming(edges, x); if y.None? then None else Some(RenOp(r, y.value)))
  {
    if edges != [] {
      assert RenEdges(r, m, edges)[1..] == RenEdges(r, m, edges[1..]);
      if edges[0].from != x {
        IncomingRen(r, m, edges[1..], x);
      }
    }
  }

  lemma {:induction false} IncomingBelow(n: nat, edges: seq<Edge>, x: Label)
    requires EdgesBelow(n, edges)
    ensures var y := Incoming(edges, x); y.Some? && y.value.Local? ==> y.value.id < n
  {
    if edges != [] && edges[0].from != x {
      IncomingBelow(n, edges[1..], x);
    }
  }

  ghost predicate PhisUntouched(r: Sub, m: Sub, n: nat, phis: seq<Phi>, x: Label) {
    forall k :: 0 <= k < |phis| ==>
      && EdgesBelow(n, phis[k].edges)
      && Apart(m, phis[k].edges, x)
      && phis[k].id < n
      && Ren(r, phis[k].id) == phis[k].id
      && NoClobber(r, n, phis[k].id, phis[k].id)
  }

  function RenPrev(m: Sub, prev: Option<Label>): Option<Label> {
    if prev.Some? then Some(Ren(m, prev.value)) else None
  }

  /** The value a renamed PHI takes on a renamed edge. */
  lemma PhiRead(r: Sub, m: Sub, n: nat, edges: seq<Edge>, x: Label, inp: Input, env: Env, env': Env)
    requires EnvRel(r, n, env, env') && EdgesBelow(n, edges) && Apart(m, edges, x)
    ensures var y := Incoming(edges, x);
            var y' := Incoming(RenEdges(r, m, edges), Ren(m, x));
            && y'.Some? == y.Some?
            && (y.Some? ==> (Defined(y'.value, env') <==> Defined(y.value, env))
                            && Val(y'.value, inp, env') == Val(y.value, inp, env))
  {
    IncomingRen(r, m, edges, x);
    IncomingBelow(n, edges, x);
  }

  lemma {:induction false} PhisSim(r: Sub, m: Sub, n: nat, phis: seq<Phi>, prev: Option<Label>, inp: Input,
                                   edgeEnv: Env, edgeEnv': Env, env: Env, env': Env, w: World)
    requires EnvRel(r, n, edgeEnv, edgeEnv') && EnvRel(r, n, env, env')
    requires prev.Some? ==> PhisUntouched(r, m, n, phis, prev.value)
    ensures StepRel(r, n, ExecPhis(phis, prev, inp, edgeEnv, env, w),
                    ExecPhis(RenPhis(r, m, phis), RenPrev(m, prev), inp, edgeEnv', env', w))
  {
    if phis != [] && prev.Some? {
      var phi := phis[0];
      PhiRead(r, m, n, phi.edges, prev.value, inp, edgeEnv, edgeEnv');
      assert RenPhis(r, m, phis)[1..] == RenPhis(r, m, phis[1..]);
      var x := Incoming(phi.edges, prev.value);
      if x.Some? && Defined(x.value, edgeEnv) {
        var v := Val(x.value, inp, edgeEnv);
        EnvRelSet(r, r, n, phi.id, phi.id, v, env, env');
        PhisSim(r, m, n, phis[1..], prev, inp, edgeEnv, edgeEnv', env[phi.id := v], env'[phi.id := v], w);
      }
    }
  }

  // Terminators

  lemma RenTermArgs(r: Sub, t: Term)
    ensures TermArgs(RenTerm(r, t)) == RenArgs(r, TermArgs(t)) && Succs(RenTerm(r, t)) == Succs(t)
  {
  }

  lemma TermSim(r: Sub, n: nat, t: Term, inp: Input, env: Env, env': Env)
    requires EnvRel(r, n, env, env') && Below(n, TermArgs(t))
    ensures Transfer(RenTerm(r, t), inp, env') == Transfer(t, inp, env)
  {
    RenTermArgs(r, t);
    ValsRen(r, n, TermArgs(t), inp, env, env');
    if TermArgs(t) != [] {
      var x := TermArgs(t)[0];
      assert x.Local? ==> x.id < n;
      assert Val(RenOp(r, x), inp, env') == Val(x, inp, env);
    }
  }

  // Composition

  /** s after r. */
  ghost predicate Composes(r: Sub, s: Sub, t: Sub) {
    forall i: nat :: Ren(t, i) == Ren(s, Ren(r, i))
  }

  lemma RenArgsTwice(r: Sub, s: Sub, t: Sub, xs: seq<Operand>)
    requires Composes(r, s, t)
    ensures RenArgs(s, RenArgs(r, xs)) == RenArgs(t, xs)
  {
  }

  lemma RenBlockTwice(r: Sub, s: Sub, t: Sub, m: Sub, b: Block)
    requires Composes(r, s, t)
    ensures RenBlock(s, map[], RenBlock(r, m, b)) == RenBlock(t, m, b)
  {
    forall k | 0 <= k < |b.body|
      ensures RenInstr(s, RenInstr(r, b.body[k])) == RenInstr(t, b.body[k])
    {
      RenArgsTwice(r, s, t, b.body[k].args);
    }
    assert RenBody(s, RenBody(r, b.body)) == RenBody(t, b.body);
    forall k | 0 <= k < |b.phis|
      ensures RenEdges(s, map[], RenEdges(r, m, b.phis[k].edges)) == RenEdges(t, m, b.phis[k].edges)
    {
    }
    assert RenPhis(s, map[], RenPhis(r, m, b.phis)) == RenPhis(t, m, b.phis);
  }

  // Names in use

  predicate BodyBelow(n: Id, body: seq<Instr>) {
    forall k :: 0 <= k < |body| ==> body[k].id < n && Below(n, body[k].args)
  }

  ghost predicate BlockBelow(n: Id, b: Block) {
    && (forall k :: 0 <= k < |b.phis| ==> b.phis[k].id < n && EdgesBelow(n, b.phis[k].edges))
    && BodyBelow(n, b.body)
    && Below(n, TermArgs(b.term))
  }

  /** nextId bounds every id in use. */
  ghost predicate NamesBelow(f: Fn) {
    forall l :: l in f.blocks ==> BlockBelow(f.nextId, f.blocks[l])
  }
}
