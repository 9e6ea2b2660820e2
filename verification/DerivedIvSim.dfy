/** Replacing a derived induction variable in the function, and why runs keep up when it is a multiple of the counter. */
module DerivedIvSim {
  import Bits
  import opened Ir
  import opened Semantics
  import opened Ssa
  import opened Rename
  import opened DerivedIv

  function DropPhi(phis: seq<Phi>, d: Id): seq<Phi> {
    if phis == [] then []
    else (if phis[0].id == d then [] else [phis[0]]) + DropPhi(phis[1..], d)
  }

  /** m becomes c times the counter. */
  function Scale(m: Id, w: nat, c: int, iv: Id): Instr {
    Instr(m, Mul, Int(w), [Lit(c), Local(iv)])
  }

  function ReplaceHeader(r: Sub, b: Block, d: Id, mul: Instr, j: nat): Block
    requires j <= |b.body|
  {
    Block(RenPhis(r, map[], DropPhi(b.phis, d)), RenBody(r, b.body[..j]) + [mul] + RenBody(r, b.body[j..]), RenTerm(r, b.term))
  }

  /** A new product goes before instruction j of the header, all uses of d become uses of it, and d's PHI goes. */
  function Replace(f: Fn, h: Label, d: Id, iv: Id, w: nat, c: int, j: nat): Fn
    requires h in f.blocks && j <= |f.blocks[h].body|
  {
    var r: Sub := map[d := f.nextId];
    f.(blocks := map l | l in f.blocks ::
                   if l == h then ReplaceHeader(r, f.blocks[l], d, Scale(f.nextId, w, c, iv), j) else RenBlock(r, map[], f.blocks[l]),
       nextId := f.nextId + 1)
  }

  /** d and the counter are PHIs of the header, and what the product is inserted after does not read d. */
  ghost predicate Replaceable(f: Fn, h: Label, d: Id, iv: Id, j: nat) {
    && NamesBelow(f) && PhiOnly(f, h, d) && PhiOnly(f, h, iv) && d != iv
    && j <= |f.blocks[h].body|
    && (forall k :: 0 <= k < j ==> Local(d) !in f.blocks[h].body[k].args)
  }

  // PHIs

  /** The environments agree on everything below n but d. */
  ghost predicate EnvBut(n: Id, d: Id, env: Env, env': Env) {
    forall i: nat :: i < n && i != d ==> (i in env <==> i in env') && (i in env ==> env[i] == env'[i])
  }

  lemma {:induction false} PhisDropped(r: Sub, n: Id, d: Id, phis: seq<Phi>, prev: Option<Label>, inp: Input,
                                       edgeEnv: Env, edgeEnv': Env, env: Env, env': Env, w: World)
    requires EnvRel(r, n, edgeEnv, edgeEnv') && EnvBut(n, d, env, env')
    requires forall k :: 0 <= k < |phis| ==> phis[k].id < n && EdgesBelow(n, phis[k].edges)
    requires ExecPhis(phis, prev, inp, edgeEnv, env, w).Ok?
    ensures var s := ExecPhis(phis, prev, inp, edgeEnv, env, w);
            var s' := ExecPhis(RenPhis(r, map[], DropPhi(phis, d)), prev, inp, edgeEnv', env', w);
            s'.Ok? && s'.w == s.w && EnvBut(n, d, s.env, s'.env)
    decreases |phis|
  {
    hide EnvRel, EdgesBelow, EnvBut;
    if phis != [] {
      var phi := phis[0];
      var v := Val(Incoming(phi.edges, prev.value).value, inp, edgeEnv);
      var rest := RenPhis(r, map[], DropPhi(phis[1..], d));
      DropNext(r, phis, d);
      ButSet(n, d, phi.id, v, env, env');
      assert forall k :: 0 <= k < |phis[1..]| ==> phis[1..][k] == phis[k + 1];
      if phi.id == d {
        PhisDropped(r, n, d, phis[1..], prev, inp, edgeEnv, edgeEnv', env[d := v], env', w);
      } else {
        PhiRead(r, map[], n, phi.edges, prev.value, inp, edgeEnv, edgeEnv');
        assert RenPhis(r, map[], DropPhi(phis, d))[1..] == rest;
        PhisDropped(r, n, d, phis[1..], prev, inp, edgeEnv, edgeEnv', env[phi.id := v], env'[phi.id := v], w);
      }
    }
  }

  lemma RenCons(r: Sub, phi: Phi, rest: seq<Phi>)
    ensures RenPhis(r, map[], [phi] + rest) == [phi.(edges := RenEdges(r, map[], phi.edges))] + RenPhis(r, map[], rest)
  {
    hide RenEdges;
  }

  lemma DropNext(r: Sub, phis: seq<Phi>, d: Id)
    requires phis != []
    ensures var phi, rest := phis[0], RenPhis(r, map[], DropPhi(phis[1..], d));
            RenPhis(r, map[], DropPhi(phis, d)) == if phi.id == d then rest else [phi.(edges := RenEdges(r, map[], phi.edges))] + rest
  {
    var rest := DropPhi(phis[1..], d);
    if phis[0].id == d {
      assert DropPhi(phis, d) == rest;
    } else {
      assert DropPhi(phis, d) == [phis[0]] + rest;
      hide RenPhis, RenEdges;
      RenCons(r, phis[0], rest);
    }
  }

  lemma ButSet(n: Id, d: Id, i: Id, v: int, env: Env, env': Env)
    requires EnvBut(n, d, env, env')
    ensures EnvBut(n, d, env[i := v], if i == d then env' else env'[i := v])
  {
  }

  // The header's body

  lemma ValsIgnore(xs: seq<Operand>, m: Id, v: int, inp: Input, env: Env)
    requires Local(m) !in xs
    ensures AllDefined(xs, env[m := v]) <==> AllDefined(xs, env)
    ensures Vals(xs, inp, env[m := v]) == Vals(xs, inp, env)
  {
    forall k | 0 <= k < |xs|
      ensures Defined(xs[k], env[m := v]) <==> Defined(xs[k], env)
    {
      assert xs[k] in xs;
    }
    if xs != [] {
      assert xs[0] in xs;
      ValsIgnore(xs[1..], m, v, inp, env);
    }
  }

  /** A value nobody reads or writes can be there or not. */
  lemma {:induction false} BodyFrame(body: seq<Instr>, m: Id, v: int, inp: Input, env: Env, w: World)
    requires forall k :: 0 <= k < |body| ==> body[k].id != m && Local(m) !in body[k].args
    ensures var s, s' := ExecBody(body, inp, env, w), ExecBody(body, inp, env[m := v], w);
            if s.Ok? then s' == Ok(s.env[m := v], s.w) else s' == s
    decreases |body|
  {
    if body != [] {
      ValsIgnore(body[0].args, m, v, inp, env);
      var s, s' := ExecInstr(body[0], inp, env, w), ExecInstr(body[0], inp, env[m := v], w);
      if s.Ok? {
        assert s'.env == s.env[m := v];
        BodyFrame(body[1..], m, v, inp, s.env, s.w);
      }
    }
  }

  lemma BodyUntouched(r: Sub, n: Id, d: Id, body: seq<Instr>)
    requires r == map[d := n] && BodyBelow(n, body) && forall k :: 0 <= k < |body| ==> body[k].id != d
    ensures Untouched(r, n, body)
  {
  }

  lemma ScaleRuns(m: Id, w: nat, c: int, iv: Id, inp: Input, env: Env, world: World)
    requires iv in env
    ensures ExecBody([Scale(m, w, c, iv)], inp, env, world) == Ok(env[m := Bits.Wrap(c * env[iv], w)], world)
  {
    var i := Scale(m, w, c, iv);
    assert [i][1..] == [];
    assert Vals(i.args, inp, env) == [c, env[iv]];
    Bits.WrapProduct(c, env[iv], w);
  }

  /** The first part of the header's body, and the product after it. */
  lemma FirstPart(r: Sub, n: Id, d: Id, iv: Id, w: nat, c: int, body: seq<Instr>, inp: Input, env: Env, env': Env, world: World)
    requires r == map[d := n] && d < n && iv < n && d != iv
    requires BodyBelow(n, body)
    requires forall k :: 0 <= k < |body| ==> body[k].id != d && body[k].id != iv && Local(d) !in body[k].args
    requires EnvBut(n, d, env, env') && MultipleIn(env, d, iv, w, c)
    ensures StepRel(r, n, ExecBody(body, inp, env, world), ExecBody(RenBody(r, body) + [Scale(n, w, c, iv)], inp, env', world))
  {
    var v := env[d];
    var body' := RenBody(r, body);
    assert EnvRel(r, n, env, env'[n := v]);
    BodyUntouched(r, n, d, body);
    RenBodyCopies(r, n, body);
    BodySim(r, n, body, body', inp, env, env'[n := v], world);
    forall k | 0 <= k < |body'|
      ensures body'[k].id != n && body'[k].id != iv && Local(n) !in body'[k].args
    {
      NoUse(r, n, d, body[k].args);
    }
    BodyFrame(body', n, v, inp, env', world);
    BodyAppend(body', [Scale(n, w, c, iv)], inp, env', world);
    BodyKeepsValue(body', iv, inp, env', world);
    var s' := ExecBody(body', inp, env', world);
    if s'.Ok? {
      ScaleRuns(n, w, c, iv, inp, s'.env, s'.w);
    }
  }

  lemma NoUse(r: Sub, n: Id, d: Id, xs: seq<Operand>)
    requires r == map[d := n] && Local(d) !in xs && Below(n, xs)
    ensures Local(n) !in RenArgs(r, xs)
  {
    var ys := RenArgs(r, xs);
    forall k | 0 <= k < |ys|
      ensures ys[k] != Local(n)
    {
      assert xs[k] in xs;
    }
  }

  /** A block that is left: terminators read renamed values. */
  ghost predicate Alike(r: Sub, n: Id, c: Config, c': Config) {
    if c.At? then c'.At? && c'.lbl == c.lbl && c'.prev == c.prev && c'.w == c.w && EnvRel(r, n, c.env, c'.env)
    else c' == c
  }

  lemma LeaveAlike(r: Sub, n: Id, t: Term, l: Label, inp: Input, env: Env, env': Env, w: World)
    requires EnvRel(r, n, env, env') && Below(n, TermArgs(t))
    ensures Alike(r, n, Leave(t, l, inp, env, w), Leave(RenTerm(r, t), l, inp, env', w))
  {
    TermSim(r, n, t, inp, env, env');
  }

  lemma RelBut(r: Sub, n: Id, d: Id, env: Env, env': Env)
    requires r == map[d := n] && EnvRel(r, n, env, env')
    ensures EnvBut(n, d, env, env')
  {
    forall i: nat | i < n && i != d
      ensures (i in env <==> i in env') && (i in env ==> env[i] == env'[i])
    {
      assert Ren(r, i) == i;
    }
  }

  /** The header's body with the product inserted, its PHIs done. */
  lemma HeaderBodyReplaced(r: Sub, n: Id, d: Id, iv: Id, w: nat, c: int, j: nat, b: Block, inp: Input, env: Env, env': Env, world: World)
    requires r == map[d := n] && d < n && iv < n && d != iv && BlockBelow(n, b) && j <= |b.body|
    requires forall k :: 0 <= k < |b.body| ==> b.body[k].id != d && b.body[k].id != iv
    requires forall k :: 0 <= k < j ==> Local(d) !in b.body[k].args
    requires EnvBut(n, d, env, env') && MultipleIn(env, d, iv, w, c)
    ensures StepRel(r, n, ExecBody(b.body, inp, env, world),
                    ExecBody(RenBody(r, b.body[..j]) + [Scale(n, w, c, iv)] + RenBody(r, b.body[j..]), inp, env', world))
  {
    var x, y := b.body[..j], b.body[j..];
    FirstPart(r, n, d, iv, w, c, x, inp, env, env', world);
    assert b.body == x + y;
    BodyAppend(x, y, inp, env, world);
    BodyAppend(RenBody(r, x) + [Scale(n, w, c, iv)], RenBody(r, y), inp, env', world);
    var t, t' := ExecBody(x, inp, env, world), ExecBody(RenBody(r, x) + [Scale(n, w, c, iv)], inp, env', world);
    if t.Ok? {
      BodyUntouched(r, n, d, y);
      RenBodyCopies(r, n, y);
      BodySim(r, n, y, RenBody(r, y), inp, t.env, t'.env, t.w);
    }
  }

  lemma HeaderReplaced(r: Sub, n: Id, d: Id, iv: Id, w: nat, c: int, j: nat, b: Block, l: Label, prev: Option<Label>, inp: Input,
                       env: Env, env': Env, world: World)
    requires r == map[d := n] && d < n && iv < n && d != iv && BlockBelow(n, b) && j <= |b.body|
    requires forall k :: 0 <= k < |b.body| ==> b.body[k].id != d && b.body[k].id != iv
    requires forall k :: 0 <= k < j ==> Local(d) !in b.body[k].args
    requires EnvRel(r, n, env, env')
    requires var s := ExecPhis(b.phis, prev, inp, env, env, world); s.Ok? && MultipleIn(s.env, d, iv, w, c)
    ensures Alike(r, n, ExecBlock(b, l, prev, inp, env, world),
                  ExecBlock(ReplaceHeader(r, b, d, Scale(n, w, c, iv), j), l, prev, inp, env', world))
  {
    var b' := ReplaceHeader(r, b, d, Scale(n, w, c, iv), j);
    RelBut(r, n, d, env, env');
    PhisDropped(r, n, d, b.phis, prev, inp, env, env', env, env', world);
    var s, s' := ExecPhis(b.phis, prev, inp, env, env, world), ExecPhis(b'.phis, prev, inp, env', env', world);
    HeaderBodyReplaced(r, n, d, iv, w, c, j, b, inp, s.env, s'.env, s.w);
    var u, u' := ExecBody(b.body, inp, s.env, s.w), ExecBody(b'.body, inp, s'.env, s.w);
    if u.Ok? {
      LeaveAlike(r, n, b.term, l, inp, u.env, u'.env, u.w);
    }
  }

  lemma OtherReplaced(r: Sub, n: Id, d: Id, b: Block, l: Label, prev: Option<Label>, inp: Input, env: Env, env': Env, w: World)
    requires r == map[d := n] && BlockBelow(n, b)
    requires forall k :: 0 <= k < |b.body| ==> b.body[k].id != d
    requires forall k :: 0 <= k < |b.phis| ==> b.phis[k].id != d
    requires EnvRel(r, n, env, env')
    ensures Alike(r, n, ExecBlock(b, l, prev, inp, env, w), ExecBlock(RenBlock(r, map[], b), l, prev, inp, env', w))
  {
    assert RenPrev(map[], prev) == prev;
    PhisSim(r, map[], n, b.phis, prev, inp, env, env', env, env', w);
    var s, s' := ExecPhis(b.phis, prev, inp, env, env, w), ExecPhis(RenPhis(r, map[], b.phis), prev, inp, env', env', w);
    if s.Ok? {
      BodyUntouched(r, n, d, b.body);
      RenBodyCopies(r, n, b.body);
      BodySim(r, n, b.body, RenBody(r, b.body), inp, s.env, s'.env, s.w);
      var t, t' := ExecBody(b.body, inp, s.env, s.w), ExecBody(RenBody(r, b.body), inp, s'.env, s.w);
      if t.Ok? {
        LeaveAlike(r, n, b.term, l, inp, t.env, t'.env, t.w);
      }
    }
  }

  // Runs

  lemma HeaderExecutes(ok: Inputs, f: Fn, h: Label, inp: Input, n: nat)
    requires SafeFor(ok, f) && ok(inp) && Run(f, inp, n).At? && Run(f, inp, n).lbl == h && h in f.blocks
    ensures HeaderEnv(f, h, inp, n).Some?
  {
    var c := Run(f, inp, n);
    PhisFault(f.blocks[h].phis, c.prev, inp, c.env, c.env, c.w);
    assert Run(f, inp, n + 1).Stuck? ==> Sound(Run(f, inp, n + 1).kind);
  }

  /** The two runs stay together: every value but d has its name, and d's goes by the product's. */
  lemma {:induction false} ReplaceKeepsUp(ok: Inputs, f: Fn, h: Label, d: Id, iv: Id, w: nat, c: int, j: nat, inp: Input, k: nat)
    requires Replaceable(f, h, d, iv, j) && IsMultiple(ok, f, h, d, iv, w, c) && SafeFor(ok, f) && ok(inp)
    ensures Alike(map[d := f.nextId], f.nextId, Run(f, inp, k), Run(Replace(f, h, d, iv, w, c, j), inp, k))
  {
    hide Replaceable, IsMultiple, SafeFor, ExecBlock, StepBlock, Replace;
    if k > 0 {
      ReplaceKeepsUp(ok, f, h, d, iv, w, c, j, inp, k - 1);
      KeepUpStep(ok, f, h, d, iv, w, c, j, inp, k - 1);
    } else {
      SameStart(f, h, d, iv, w, c, j, inp);
    }
  }

  lemma SameStart(f: Fn, h: Label, d: Id, iv: Id, w: nat, c: int, j: nat, inp: Input)
    requires Replaceable(f, h, d, iv, j)
    ensures Alike(map[d := f.nextId], f.nextId, Run(f, inp, 0), Run(Replace(f, h, d, iv, w, c, j), inp, 0))
  {
  }

  lemma KeepUpStep(ok: Inputs, f: Fn, h: Label, d: Id, iv: Id, w: nat, c: int, j: nat, inp: Input, k: nat)
    requires Replaceable(f, h, d, iv, j) && IsMultiple(ok, f, h, d, iv, w, c) && SafeFor(ok, f) && ok(inp)
    requires Alike(map[d := f.nextId], f.nextId, Run(f, inp, k), Run(Replace(f, h, d, iv, w, c, j), inp, k))
    ensures Alike(map[d := f.nextId], f.nextId, Run(f, inp, k + 1), Run(Replace(f, h, d, iv, w, c, j), inp, k + 1))
  {
    hide IsMultiple, SafeFor, Alike, StepBlock, Replace;
    var g := Replace(f, h, d, iv, w, c, j);
    RunNext(f, inp, k);
    RunNext(g, inp, k);
    hide Run;
    if Run(f, inp, k).At? && Run(f, inp, k).lbl == h {
      VisitIsMultiple(ok, f, h, d, iv, w, c, inp, k);
    }
    StepReplaced(f, h, d, iv, w, c, j, inp, Run(f, inp, k), Run(g, inp, k));
  }

  lemma VisitIsMultiple(ok: Inputs, f: Fn, h: Label, d: Id, iv: Id, w: nat, c: int, inp: Input, n: nat)
    requires SafeFor(ok, f) && ok(inp) && IsMultiple(ok, f, h, d, iv, w, c) && h in f.blocks && Run(f, inp, n).At? && Run(f, inp, n).lbl == h
    ensures var a := Run(f, inp, n);
            var s := ExecPhis(f.blocks[h].phis, a.prev, inp, a.env, a.env, a.w);
            s.Ok? && MultipleIn(s.env, d, iv, w, c)
  {
    HeaderExecutes(ok, f, h, inp, n);
    assert MultipleIn(HeaderEnv(f, h, inp, n).value, d, iv, w, c);
  }

  lemma StepReplaced(f: Fn, h: Label, d: Id, iv: Id, w: nat, c: int, j: nat, inp: Input, a: Config, a': Config)
    requires Replaceable(f, h, d, iv, j) && Alike(map[d := f.nextId], f.nextId, a, a')
    requires a.At? && a.lbl == h ==>
               var s := ExecPhis(f.blocks[h].phis, a.prev, inp, a.env, a.env, a.w);
               s.Ok? && MultipleIn(s.env, d, iv, w, c)
    ensures Alike(map[d := f.nextId], f.nextId, StepBlock(f, inp, a), StepBlock(Replace(f, h, d, iv, w, c, j), inp, a'))
  {
    var r: Sub := map[d := f.nextId];
    var g := Replace(f, h, d, iv, w, c, j);
    if a.At? && a.lbl in f.blocks {
      assert BlockBelow(f.nextId, f.blocks[a.lbl]);
      BelowAll(f, h, d);
      BelowAll(f, h, iv);
      hide ExecBlock, EnvRel, MultipleIn, ReplaceHeader, RenBlock, BlockBelow, NamesBelow, ExecPhis;
      if a.lbl == h {
        HeaderReplaced(r, f.nextId, d, iv, w, c, j, f.blocks[h], h, a.prev, inp, a.env, a'.env, a.w);
      } else {
        OtherReplaced(r, f.nextId, d, f.blocks[a.lbl], a.lbl, a.prev, inp, a.env, a'.env, a.w);
      }
    }
  }

  lemma BelowAll(f: Fn, h: Label, i: Id)
    requires NamesBelow(f) && PhiOnly(f, h, i)
    ensures i < f.nextId
  {
    assert BlockBelow(f.nextId, f.blocks[h]);
    var k :| 0 <= k < |f.blocks[h].phis| && f.blocks[h].phis[k].id == i;
  }

  /** Replacing a derived variable that is always c times the counter changes no run. */
  lemma ReplaceSameBehaviour(ok: Inputs, f: Fn, h: Label, d: Id, iv: Id, w: nat, c: int, j: nat)
    requires Replaceable(f, h, d, iv, j) && IsMultiple(ok, f, h, d, iv, w, c) && SafeFor(ok, f)
    ensures SameFor(ok, f, Replace(f, h, d, iv, w, c, j))
  {
    var g := Replace(f, h, d, iv, w, c, j);
    forall inp: Input | ok(inp)
      ensures SameOn(f, g, inp)
    {
      forall n: nat
        ensures Matched(f, g, inp, n)
      {
        ReplaceKeepsUp(ok, f, h, d, iv, w, c, j, inp, n);
        assert Observe(Run(f, inp, n)) == Observe(Run(g, inp, n));
      }
      TracksGivesSameOn(f, g, inp);
    }
  }

  // What stays true of the other variables

  lemma {:induction false} DroppedIn(phis: seq<Phi>, d: Id)
    ensures forall x :: x in DropPhi(phis, d) <==> x in phis && x.id != d
  {
    if phis != [] {
      DroppedIn(phis[1..], d);
      assert phis == [phis[0]] + phis[1..];
    }
  }

  lemma DroppedDefs(r: Sub, phis: seq<Phi>, d: Id)
    ensures PhiDefs(RenPhis(r, map[], DropPhi(phis, d))) == PhiDefs(phis) - {d}
  {
    DroppedIn(phis, d);
    var rest := DropPhi(phis, d);
    var rest' := RenPhis(r, map[], rest);
    forall i
      ensures i in PhiDefs(rest') <==> i in PhiDefs(phis) - {d}
    {
      if i in PhiDefs(rest') {
        var k :| 0 <= k < |rest'| && rest'[k].id == i;
        assert rest[k] in phis;
      }
      if i in PhiDefs(phis) - {d} {
        var k :| 0 <= k < |phis| && phis[k].id == i;
        assert phis[k] in rest;
        var m :| 0 <= m < |rest| && rest[m] == phis[k];
        assert rest'[m].id == i;
      }
    }
  }

  lemma PhiOnlyKept(f: Fn, h: Label, d: Id, iv: Id, w: nat, c: int, j: nat, h2: Label, i: Id)
    requires Replaceable(f, h, d, iv, j) && PhiOnly(f, h2, i) && i != d
    ensures PhiOnly(Replace(f, h, d, iv, w, c, j), h2, i)
  {
    var g := Replace(f, h, d, iv, w, c, j);
    var r: Sub := map[d := f.nextId];
    BelowAll(f, h2, i);
    DroppedDefs(r, f.blocks[h].phis, d);
    if h2 != h {
      RenPhiDefs(r, f.blocks[h2].phis);
    }
    forall l, k | l in g.blocks && l != h2 && 0 <= k < |g.blocks[l].phis|
      ensures g.blocks[l].phis[k].id != i
    {
      if l == h {
        assert g.blocks[l].phis[k].id in PhiDefs(g.blocks[l].phis);
      }
    }
    forall l, k | l in g.blocks && 0 <= k < |g.blocks[l].body|
      ensures g.blocks[l].body[k].id != i
    {
      if l == h {
        var x, y := f.blocks[h].body[..j], f.blocks[h].body[j..];
        assert g.blocks[h].body == RenBody(r, x) + [Scale(f.nextId, w, c, iv)] + RenBody(r, y);
      }
    }
  }

  lemma RenPhiDefs(r: Sub, phis: seq<Phi>)
    ensures PhiDefs(RenPhis(r, map[], phis)) == PhiDefs(phis)
  {
    var phis' := RenPhis(r, map[], phis);
    assert forall k :: 0 <= k < |phis| ==> phis'[k].id == phis[k].id;
  }

  /** At every header, the PHIs other than d take the values they took. */
  lemma HeaderEnvKept(ok: Inputs, f: Fn, h: Label, d: Id, iv: Id, w: nat, c: int, j: nat, h2: Label, inp: Input, n: nat)
    requires Replaceable(f, h, d, iv, j) && IsMultiple(ok, f, h, d, iv, w, c) && SafeFor(ok, f) && ok(inp)
    requires var g := Replace(f, h, d, iv, w, c, j); HeaderEnv(g, h2, inp, n).Some?
    ensures var g := Replace(f, h, d, iv, w, c, j);
            && HeaderEnv(f, h2, inp, n).Some? && EnvBut(f.nextId, d, HeaderEnv(f, h2, inp, n).value, HeaderEnv(g, h2, inp, n).value)
            && Run(f, inp, n).At? && Run(g, inp, n).At? && Run(f, inp, n).prev == Run(g, inp, n).prev
            && EnvBut(f.nextId, d, Run(f, inp, n).env, Run(g, inp, n).env)
  {
    var g := Replace(f, h, d, iv, w, c, j);
    var r: Sub := map[d := f.nextId];
    ReplaceKeepsUp(ok, f, h, d, iv, w, c, j, inp, n);
    var a, a' := Run(f, inp, n), Run(g, inp, n);
    assert a.At? && a.lbl == h2 && a.prev == a'.prev;
    HeaderExecutes(ok, f, h2, inp, n);
    var phis := f.blocks[h2].phis;
    assert BlockBelow(f.nextId, f.blocks[h2]);
    RelBut(r, f.nextId, d, a.env, a'.env);
    if h2 == h {
      PhisDropped(r, f.nextId, d, phis, a.prev, inp, a.env, a'.env, a.env, a'.env, a.w);
    } else {
      assert RenPrev(map[], a.prev) == a.prev;
      PhisSim(r, map[], f.nextId, phis, a.prev, inp, a.env, a'.env, a.env, a'.env, a.w);
      RelBut(r, f.nextId, d, HeaderEnv(f, h2, inp, n).value, HeaderEnv(g, h2, inp, n).value);
    }
  }

  lemma RecursKept(ok: Inputs, f: Fn, h: Label, d: Id, iv: Id, w: nat, c: int, j: nat, h2: Label, blocks2: set<Label>, i: Id, w2: nat, c2: int)
    requires Replaceable(f, h, d, iv, j) && IsMultiple(ok, f, h, d, iv, w, c) && SafeFor(ok, f)
    requires Recurs(ok, f, h2, blocks2, i, w2, c2) && i != d
    ensures Recurs(ok, Replace(f, h, d, iv, w, c, j), h2, blocks2, i, w2, c2)
  {
    var g := Replace(f, h, d, iv, w, c, j);
    PhiOnlyKept(f, h, d, iv, w, c, j, h2, i);
    hide Replaceable, Replace, IsMultiple, SafeFor, PhiOnly, RecursAt;
    forall inp: Input, n: nat | ok(inp)
      ensures RecursAt(g, h2, blocks2, i, w2, c2, inp, n)
    {
      RecursAtKept(ok, f, h, d, iv, w, c, j, h2, blocks2, i, w2, c2, inp, n);
    }
  }

  lemma RecursAtKept(ok: Inputs, f: Fn, h: Label, d: Id, iv: Id, w: nat, c: int, j: nat, h2: Label, blocks2: set<Label>, i: Id, w2: nat, c2: int,
                     inp: Input, n: nat)
    requires Replaceable(f, h, d, iv, j) && IsMultiple(ok, f, h, d, iv, w, c) && SafeFor(ok, f) && ok(inp)
    requires PhiOnly(f, h2, i) && i != d && RecursAt(f, h2, blocks2, i, w2, c2, inp, n)
    ensures RecursAt(Replace(f, h, d, iv, w, c, j), h2, blocks2, i, w2, c2, inp, n)
  {
    var g := Replace(f, h, d, iv, w, c, j);
    BelowAll(f, h2, i);
    hide Replaceable, Replace, IsMultiple, SafeFor, PhiOnly, Run, HeaderEnv, RecursIn, EnvBut;
    if HeaderEnv(g, h2, inp, n).Some? {
      HeaderEnvKept(ok, f, h, d, iv, w, c, j, h2, inp, n);
      RecursInKept(f.nextId, d, HeaderEnv(f, h2, inp, n).value, HeaderEnv(g, h2, inp, n).value, Again(f, blocks2, inp, n),
                   Run(f, inp, n), Run(g, inp, n), i, w2, c2);
    }
  }

  lemma RecursInKept(n: Id, d: Id, env: Env, env': Env, again: bool, last: Config, last': Config, i: Id, w: nat, c: int)
    requires EnvBut(n, d, env, env') && last.At? && last'.At? && EnvBut(n, d, last.env, last'.env) && i < n && i != d
    requires RecursIn(env, again, last, i, w, c)
    ensures RecursIn(env', again, last', i, w, c)
  {
  }

  lemma StartKept(ok: Inputs, f: Fn, h: Label, d: Id, iv: Id, w: nat, c: int, j: nat, h2: Label, blocks2: set<Label>, i: Id)
    requires Replaceable(f, h, d, iv, j) && IsMultiple(ok, f, h, d, iv, w, c) && SafeFor(ok, f)
    requires PhiOnly(f, h2, i) && StartsAtZero(ok, f, h2, blocks2, i) && i != d
    ensures StartsAtZero(ok, Replace(f, h, d, iv, w, c, j), h2, blocks2, i)
  {
    var g := Replace(f, h, d, iv, w, c, j);
    BelowAll(f, h2, i);
    forall inp: Input, n: nat | ok(inp) && HeaderEnv(g, h2, inp, n).Some? && !Again(g, blocks2, inp, n)
      ensures StartIs(g, h2, i, inp, n, 0)
    {
      HeaderEnvKept(ok, f, h, d, iv, w, c, j, h2, inp, n);
      assert StartIs(f, h2, i, inp, n, 0);
    }
  }

  lemma RenBelow(r: Sub, n: Id, d: Id, xs: seq<Operand>)
    requires r == map[d := n] && Below(n, xs)
    ensures Below(n + 1, RenArgs(r, xs))
  {
  }

  lemma RenBodyBelow(r: Sub, n: Id, d: Id, body: seq<Instr>)
    requires r == map[d := n] && BodyBelow(n, body)
    ensures BodyBelow(n + 1, RenBody(r, body))
  {
    forall k | 0 <= k < |body|
      ensures Below(n + 1, RenArgs(r, body[k].args))
    {
      RenBelow(r, n, d, body[k].args);
    }
  }

  lemma RenPhisBelow(r: Sub, n: Id, d: Id, phis: seq<Phi>)
    requires r == map[d := n] && forall k :: 0 <= k < |phis| ==> phis[k].id < n && EdgesBelow(n, phis[k].edges)
    ensures var phis' := RenPhis(r, map[], phis); forall k :: 0 <= k < |phis'| ==> phis'[k].id < n + 1 && EdgesBelow(n + 1, phis'[k].edges)
  {
  }

  lemma RenTermBelow(r: Sub, n: Id, d: Id, t: Term)
    requires r == map[d := n] && Below(n, TermArgs(t))
    ensures Below(n + 1, TermArgs(RenTerm(r, t)))
  {
    RenTermArgs(r, t);
    RenBelow(r, n, d, TermArgs(t));
  }

  lemma ReplaceBelow(f: Fn, h: Label, d: Id, iv: Id, w: nat, c: int, j: nat)
    requires Replaceable(f, h, d, iv, j)
    ensures NamesBelow(Replace(f, h, d, iv, w, c, j))
  {
    var g := Replace(f, h, d, iv, w, c, j);
    BelowAll(f, h, iv);
    forall l | l in g.blocks
      ensures BlockBelow(g.nextId, g.blocks[l])
    {
      assert BlockBelow(f.nextId, f.blocks[l]);
      hide BlockBelow, RenBlock, ReplaceHeader;
      if l == h {
        HeaderBelow(map[d := f.nextId], f.nextId, d, iv, w, c, j, f.blocks[l]);
      } else {
        OtherBelow(map[d := f.nextId], f.nextId, d, f.blocks[l]);
      }
    }
  }

  lemma OtherBelow(r: Sub, n: Id, d: Id, b: Block)
    requires r == map[d := n] && BlockBelow(n, b)
    ensures BlockBelow(n + 1, RenBlock(r, map[], b))
  {
    RenTermBelow(r, n, d, b.term);
    RenPhisBelow(r, n, d, b.phis);
    RenBodyBelow(r, n, d, b.body);
  }

  lemma HeaderBelow(r: Sub, n: Id, d: Id, iv: Id, w: nat, c: int, j: nat, b: Block)
    requires r == map[d := n] && BlockBelow(n, b) && j <= |b.body| && iv < n
    ensures BlockBelow(n + 1, ReplaceHeader(r, b, d, Scale(n, w, c, iv), j))
  {
    RenTermBelow(r, n, d, b.term);
    DroppedIn(b.phis, d);
    var rest := DropPhi(b.phis, d);
    assert forall k :: 0 <= k < |rest| ==> rest[k] in b.phis;
    RenPhisBelow(r, n, d, rest);
    RenBodyBelow(r, n, d, b.body[..j]);
    RenBodyBelow(r, n, d, b.body[j..]);
  }
}
