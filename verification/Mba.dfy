/**
 Mixed boolean-arithmetic substitution: 8-bit additions and integer subtractions are replaced by longer
 sequences of instructions that compute the same values.
 */
module Mba {
  import Bits
  import opened Ir
  import opened Semantics
  import opened Rename

  datatype Rule = AddRule | SubRule

  /** The binary operators a rule applies to: 8-bit additions, and integer subtractions of any width. */
  predicate Matches(r: Rule, i: Instr) {
    i.ty.Int? && |i.args| == 2 && (if r.AddRule? then i.op.Add? && i.ty.width == 8 else i.op.Sub?)
  }

  /** The number of temporaries a substitution needs. */
  function Temps(r: Rule): nat {
    if r.AddRule? then 7 else 2
  }

  /** (a ^ b) + 2 * (a & b), left in n + 3. */
  function AddHead(i: Instr, n: Id): seq<Instr>
    requires Matches(AddRule, i)
  {
    var a, b := i.args[0], i.args[1];
    [ Instr(n, Xor, i.ty, [a, b]),
      Instr(n + 1, And, i.ty, [a, b]),
      Instr(n + 2, Mul, i.ty, [Lit(2), Local(n + 1)]),
      Instr(n + 3, Add, i.ty, [Local(n), Local(n + 2)]) ]
  }

  /** (e2 * 39 + 23) * 151 + 111 for the value e2 of n + 3. */
  function AddTail(i: Instr, n: Id): seq<Instr> {
    [ Instr(n + 4, Mul, i.ty, [Lit(39), Local(n + 3)]),
      Instr(n + 5, Add, i.ty, [Lit(23), Local(n + 4)]),
      Instr(n + 6, Mul, i.ty, [Lit(151), Local(n + 5)]),
      Instr(i.id, Add, i.ty, [Lit(111), Local(n + 6)]) ]
  }

  /** The instructions that take the place of i; the last one goes by i's id, the others by n, n + 1, ... */
  function Expand(r: Rule, i: Instr, n: Id): seq<Instr>
    requires Matches(r, i)
  {
    if r.AddRule? then AddHead(i, n) + AddTail(i, n)
    else
      [ Instr(n, Xor, i.ty, [i.args[1], Lit(-1)]),
        Instr(n + 1, Add, i.ty, [i.args[0], Local(n)]),
        Instr(i.id, Add, i.ty, [Local(n + 1), Lit(1)]) ]
  }

  function Count(r: Rule, body: seq<Instr>): nat {
    if body == [] then 0
    else Count(r, body[..|body| - 1]) + if Matches(r, body[|body| - 1]) then 1 else 0
  }

  /** The first id left free once the body's temporaries are numbered from n. */
  function After(r: Rule, body: seq<Instr>, n: Id): (m: Id)
    ensures m >= n
  {
    n + Temps(r) * Count(r, body)
  }

  function Piece(r: Rule, i: Instr, n: Id): seq<Instr> {
    if Matches(r, i) then Expand(r, i, n) else [i]
  }

  /** Every matching instruction of the body is substituted, once; temporaries are numbered from n. */
  function Rewrite(r: Rule, body: seq<Instr>, n: Id): seq<Instr> {
    if body == [] then []
    else
      var front, last := body[..|body| - 1], body[|body| - 1];
      Rewrite(r, front, n) + Piece(r, last, After(r, front, n))
  }

  function RewriteFn(r: Rule, f: Fn, l: Label): Fn
    requires l in f.blocks
  {
    var body := f.blocks[l].body;
    f.(blocks := f.blocks[l := f.blocks[l].(body := Rewrite(r, body, f.nextId))],
       nextId := After(r, body, f.nextId))
  }

  // The identities

  /** The second half of the addition's substitution: e2 * 39 + 23 times 151 plus 111. */
  function Tail(e2: int): int {
    var e4 := Pure(Add, 8, 23, Pure(Mul, 8, 39, e2).value).value;
    Pure(Add, 8, 111, Pure(Mul, 8, 151, e4).value).value
  }

  /** The affine map t * 151 + 111 undoes e * 39 + 23 on 8 bits. */
  lemma AffineInverse(e: nat)
    requires e < 256
    ensures var t := Bits.Wrap(23 + Bits.Wrap(39 * e, 8), 8);
            Bits.Wrap(111 + Bits.Wrap(151 * t, 8), 8) == e
  {
    hide Bits.Wrap, Bits.Pow2;
    Bits.Pow2Of8();
    Bits.WrapSmall(e, 8);
    Bits.WrapSumRight(23, 39 * e, 8);
    Bits.WrapProductRight(151, 23 + 39 * e, 8);
    Bits.WrapSumRight(111, 151 * (23 + 39 * e), 8);
    assert 111 + 151 * (23 + 39 * e) == e + (14 + 23 * e) * 256;
    Bits.WrapShift(e, 14 + 23 * e, 8);
  }

  /** The other way round. */
  lemma AffineInverseBack(t: nat)
    requires t < 256
    ensures var e := Bits.Wrap(111 + Bits.Wrap(151 * t, 8), 8);
            Bits.Wrap(23 + Bits.Wrap(39 * e, 8), 8) == t
  {
    hide Bits.Wrap, Bits.Pow2;
    Bits.Pow2Of8();
    Bits.WrapSmall(t, 8);
    Bits.WrapSumRight(111, 151 * t, 8);
    Bits.WrapProductRight(39, 111 + 151 * t, 8);
    Bits.WrapSumRight(23, 39 * (111 + 151 * t), 8);
    assert 23 + 39 * (111 + 151 * t) == t + (17 + 23 * t) * 256;
    Bits.WrapShift(t, 17 + 23 * t, 8);
  }

  lemma Add8(a: nat, b: nat)
    requires a < 256 && b < 256
    ensures Pure(Add, 8, a, b) == Some(Bits.Wrap(a + b, 8))
  {
    hide Bits.Wrap, Bits.Pow2;
    Bits.WrapSum(a, b, 8);
  }

  lemma Mul8(a: nat, b: nat)
    requires a < 256 && b < 256
    ensures Pure(Mul, 8, a, b) == Some(Bits.Wrap(a * b, 8))
  {
    hide Bits.Wrap, Bits.Pow2;
    Bits.Pow2Of8();
    Bits.WrapSmall(a, 8);
    Bits.WrapSmall(b, 8);
  }

  lemma Wrap8(x: nat)
    ensures Bits.Wrap(x, 8) < 256
  {
    hide Bits.Wrap, Bits.Pow2;
    Bits.Pow2Of8();
  }

  lemma TailIsIdentity(e2: nat)
    requires e2 < 256
    ensures Tail(e2) == e2
  {
    hide Pure, Bits.Wrap, Bits.Pow2;
    Mul8(39, e2);
    var e3 := Bits.Wrap(39 * e2, 8);
    Wrap8(39 * e2);
    Add8(23, e3);
    var e4 := Bits.Wrap(23 + e3, 8);
    Wrap8(23 + e3);
    Mul8(151, e4);
    var e5 := Bits.Wrap(151 * e4, 8);
    Wrap8(151 * e4);
    Add8(111, e5);
    AffineInverse(e2);
  }

  lemma XorAnd8(a: int, b: int)
    ensures var x, y := Bits.Wrap(a, 8), Bits.Wrap(b, 8);
            && Pure(Xor, 8, a, b) == Some(Bits.Xor(x, y)) && Pure(And, 8, a, b) == Some(Bits.And(x, y))
            && Bits.Xor(x, y) < 256 && Bits.And(x, y) < 256
            && Pure(Add, 8, a, b) == Some(Bits.Wrap(x + y, 8))
  {
    hide Bits.Pow2, Bits.Xor, Bits.And, Bits.Wrap;
    var x, y := Bits.Wrap(a, 8), Bits.Wrap(b, 8);
    Bits.Pow2Of8();
    Bits.XorBelow(x, y, 8);
    Bits.XorPlusTwiceAnd(x, y);
  }

  /** (((a ^ b) + 2 * (a & b)) * 39 + 23) * 151 + 111 is a + b on 8 bits. */
  lemma AddIdentity(a: int, b: int)
    ensures var e1 := Pure(Mul, 8, 2, Pure(And, 8, a, b).value);
            Some(Tail(Pure(Add, 8, Pure(Xor, 8, a, b).value, e1.value).value)) == Pure(Add, 8, a, b)
  {
    hide Pure, Tail, Bits.Wrap, Bits.Pow2, Bits.Xor, Bits.And;
    var x, y := Bits.Wrap(a, 8), Bits.Wrap(b, 8);
    XorAnd8(a, b);
    var p, q := Bits.Xor(x, y), Bits.And(x, y);
    Bits.XorPlusTwiceAnd(x, y);
    Mul8(2, q);
    var e1 := Bits.Wrap(2 * q, 8);
    Wrap8(2 * q);
    Add8(p, e1);
    Wrap8(p + e1);
    Bits.WrapSumRight(p, 2 * q, 8);
    TailIsIdentity(Bits.Wrap(p + e1, 8));
  }

  /** Flipping every bit of a register. */
  lemma Complement(b: int, w: nat)
    ensures Pure(Xor, w, b, -1) == Some(Bits.Pow2(w) - 1 - Bits.Wrap(b, w))
  {
    hide Bits.Wrap, Bits.Pow2, Bits.Xor;
    var m := Bits.Pow2(w);
    Bits.WrapIsMod(-1, w);
    Bits.ModUnique(-1, -1, m - 1, m);
    Bits.XorOnes(Bits.Wrap(b, w), w);
  }

  /** (a + ~b) + 1 is a - b at every width. */
  lemma SubIdentity(a: int, b: int, w: nat)
    ensures Pure(Add, w, Pure(Add, w, a, Pure(Xor, w, b, -1).value).value, 1) == Pure(Sub, w, a, b)
  {
    hide Bits.Wrap, Bits.Pow2, Bits.Xor;
    var m := Bits.Pow2(w);
    var x, y := Bits.Wrap(a, w), Bits.Wrap(b, w);
    var t := m - 1 - y;
    Complement(b, w);
    var u := Pure(Add, w, a, t).value;
    assert u == Bits.Wrap(x + Bits.Wrap(t, w), w);
    assert Pure(Add, w, u, 1) == Some(Bits.Wrap(Bits.Wrap(u, w) + Bits.Wrap(1, w), w));
    assert Pure(Sub, w, a, b) == Some(Bits.Wrap(x - y, w));
    SubWraps(a, y, w);
  }

  lemma SubWraps(a: int, y: nat, w: nat)
    requires y < Bits.Pow2(w)
    ensures var m, x := Bits.Pow2(w), Bits.Wrap(a, w);
            var u := Bits.Wrap(x + Bits.Wrap(m - 1 - y, w), w);
            Bits.Wrap(Bits.Wrap(u, w) + Bits.Wrap(1, w), w) == Bits.Wrap(x - y, w)
  {
    hide Bits.Wrap, Bits.Pow2;
    var m, x := Bits.Pow2(w), Bits.Wrap(a, w);
    var t := m - 1 - y;
    Bits.WrapSumRight(x, t, w);
    Bits.WrapTwice(x + t, w);
    Bits.WrapSum(x + t, 1, w);
    var d: int := x - y;
    assert x + t + 1 == d + 1 * m;
    Bits.WrapShift(d, 1, w);
  }

  // Substitutions run like what they replace

  /** What one arithmetic instruction does. */
  lemma ArithStep(i: Instr, inp: Input, env: Env, w: World)
    requires i.op in {Add, Sub, Mul, And, Or, Xor} && i.ty.Int? && |i.args| == 2 && AllDefined(i.args, env)
    ensures var v := Pure(i.op, i.ty.width, Val(i.args[0], inp, env), Val(i.args[1], inp, env));
            v.Some? && ExecInstr(i, inp, env, w) == Ok(env[i.id := v.value], w)
  {
    assert Vals(i.args, inp, env) == [Val(i.args[0], inp, env), Val(i.args[1], inp, env)];
  }

  lemma ArithFirst(i: Instr, rest: seq<Instr>, inp: Input, env: Env, w: World)
    requires i.op in {Add, Sub, Mul, And, Or, Xor} && i.ty.Int? && |i.args| == 2 && AllDefined(i.args, env)
    ensures var v := Pure(i.op, i.ty.width, Val(i.args[0], inp, env), Val(i.args[1], inp, env));
            v.Some? && ExecBody([i] + rest, inp, env, w) == ExecBody(rest, inp, env[i.id := v.value], w)
  {
    ArithStep(i, inp, env, w);
    assert ([i] + rest)[1..] == rest;
  }

  lemma SubRuns(i: Instr, n: Id, inp: Input, env: Env, w: World) returns (env': Env)
    requires Matches(SubRule, i) && Below(n, i.args) && i.id < n && AllDefined(i.args, env)
    ensures ExecBody(Expand(SubRule, i, n), inp, env, w) == Ok(env', w)
    ensures var v := Pure(Sub, i.ty.width, Val(i.args[0], inp, env), Val(i.args[1], inp, env));
            v.Some? && EnvRel(map[], n, env[i.id := v.value], env')
  {
    hide Pure, ExecInstr, Vals;
    var a, b := i.args[0], i.args[1];
    var xs := Expand(SubRule, i, n);
    var x, y := Val(a, inp, env), Val(b, inp, env);
    var wd := i.ty.width;
    assert xs == [xs[0]] + [xs[1], xs[2]];
    ArithFirst(xs[0], [xs[1], xs[2]], inp, env, w);
    var t := Pure(Xor, wd, y, -1).value;
    var env1 := env[n := t];
    assert [xs[1], xs[2]] == [xs[1]] + [xs[2]];
    assert Defined(a, env1) && Val(a, inp, env1) == x;
    ArithFirst(xs[1], [xs[2]], inp, env1, w);
    var u := Pure(Add, wd, x, t).value;
    var env2 := env1[n + 1 := u];
    assert [xs[2]] == [xs[2]] + [];
    ArithFirst(xs[2], [], inp, env2, w);
    env' := env2[i.id := Pure(Add, wd, u, 1).value];
    SubIdentity(x, y, wd);
  }

  lemma AddRuns(i: Instr, n: Id, inp: Input, env: Env, w: World) returns (env': Env)
    requires Matches(AddRule, i) && Below(n, i.args) && i.id < n && AllDefined(i.args, env)
    ensures ExecBody(Expand(AddRule, i, n), inp, env, w) == Ok(env', w)
    ensures var v := Pure(Add, 8, Val(i.args[0], inp, env), Val(i.args[1], inp, env));
            v.Some? && EnvRel(map[], n, env[i.id := v.value], env')
  {
    hide Pure, ExecInstr, Vals, Tail, AddHead, AddTail, ExecBody;
    var x, y := Val(i.args[0], inp, env), Val(i.args[1], inp, env);
    var env4 := HeadRuns(i, n, inp, env, w);
    env' := TailRuns(i, n, env4[n + 3], inp, env4, w);
    BodyAppend(AddHead(i, n), AddTail(i, n), inp, env, w);
    AddIdentity(x, y);
  }

  lemma HeadRuns(i: Instr, n: Id, inp: Input, env: Env, w: World) returns (env': Env)
    requires Matches(AddRule, i) && Below(n, i.args) && i.id < n && AllDefined(i.args, env)
    ensures ExecBody(AddHead(i, n), inp, env, w) == Ok(env', w)
    ensures EnvRel(map[], n, env, env') && n + 3 in env'
    ensures var x, y := Val(i.args[0], inp, env), Val(i.args[1], inp, env);
            var e1 := Pure(Mul, 8, 2, Pure(And, 8, x, y).value);
            env'[n + 3] == Pure(Add, 8, Pure(Xor, 8, x, y).value, e1.value).value
  {
    hide Pure, ExecInstr, Vals;
    var xs := AddHead(i, n);
    var x, y := Val(i.args[0], inp, env), Val(i.args[1], inp, env);
    assert xs == [xs[0]] + [xs[1], xs[2], xs[3]];
    ArithFirst(xs[0], [xs[1], xs[2], xs[3]], inp, env, w);
    var e0 := Pure(Xor, 8, x, y).value;
    var env1 := env[n := e0];
    assert [xs[1], xs[2], xs[3]] == [xs[1]] + [xs[2], xs[3]];
    ArithFirst(xs[1], [xs[2], xs[3]], inp, env1, w);
    var c := Pure(And, 8, x, y).value;
    var env2 := env1[n + 1 := c];
    env' := SumRuns(i, n, e0, c, inp, env2, w);
  }

  lemma SumRuns(i: Instr, n: Id, e0: int, c: int, inp: Input, env: Env, w: World) returns (env': Env)
    requires Matches(AddRule, i) && n in env && n + 1 in env && env[n] == e0 && env[n + 1] == c
    ensures var xs := AddHead(i, n); ExecBody([xs[2], xs[3]], inp, env, w) == Ok(env', w)
    ensures EnvRel(map[], n, env, env') && n + 3 in env'
    ensures env'[n + 3] == Pure(Add, 8, e0, Pure(Mul, 8, 2, c).value).value
  {
    hide Pure, ExecInstr, Vals;
    var xs := AddHead(i, n);
    assert [xs[2], xs[3]] == [xs[2]] + [xs[3]];
    ArithFirst(xs[2], [xs[3]], inp, env, w);
    var e1 := Pure(Mul, 8, 2, c).value;
    var env1 := env[n + 2 := e1];
    assert [xs[3]] == [xs[3]] + [];
    ArithFirst(xs[3], [], inp, env1, w);
    env' := env1[n + 3 := Pure(Add, 8, e0, e1).value];
  }

  /** The second half of the addition's substitution scrambles e2 and restores it. */
  lemma TailRuns(i: Instr, n: Id, e2: int, inp: Input, env: Env, w: World) returns (env': Env)
    requires Matches(AddRule, i) && n + 3 in env && env[n + 3] == e2 && i.id < n
    ensures ExecBody(AddTail(i, n), inp, env, w) == Ok(env', w)
    ensures EnvRel(map[], n, env[i.id := Tail(e2)], env')
  {
    hide Pure, ExecInstr, Vals;
    var xs := AddTail(i, n);
    assert xs == [xs[0]] + [xs[1], xs[2], xs[3]];
    ArithFirst(xs[0], [xs[1], xs[2], xs[3]], inp, env, w);
    var e3 := Pure(Mul, 8, 39, e2).value;
    var env4 := env[n + 4 := e3];
    assert [xs[1], xs[2], xs[3]] == [xs[1]] + [xs[2], xs[3]];
    ArithFirst(xs[1], [xs[2], xs[3]], inp, env4, w);
    var e4 := Pure(Add, 8, 23, e3).value;
    var env5 := env4[n + 5 := e4];
    assert [xs[2], xs[3]] == [xs[2]] + [xs[3]];
    ArithFirst(xs[2], [xs[3]], inp, env5, w);
    var e5 := Pure(Mul, 8, 151, e4).value;
    var env6 := env5[n + 6 := e5];
    assert [xs[3]] == [xs[3]] + [];
    ArithFirst(xs[3], [], inp, env6, w);
    env' := env6[i.id := Pure(Add, 8, 111, e5).value];
  }

  /** Wherever an operand is missing, both fail before doing anything. */
  lemma ExpandUndefined(r: Rule, i: Instr, n: Id, inp: Input, env: Env, w: World)
    requires Matches(r, i) && Below(n, i.args) && !AllDefined(i.args, env)
    ensures ExecBody(Expand(r, i, n), inp, env, w) == Bad(Undefined, w)
  {
    var xs := Expand(r, i, n);
    if r.AddRule? {
      assert xs[0].args == i.args;
    } else {
      assert xs == [xs[0]] + [xs[1], xs[2]];
      if Defined(i.args[1], env) {
        assert !Defined(i.args[0], env);
        ArithFirst(xs[0], [xs[1], xs[2]], inp, env, w);
        assert !Defined([xs[1], xs[2]][0].args[0], env[n := Pure(Xor, i.ty.width, Val(i.args[1], inp, env), -1).value]);
      } else {
        assert !Defined(xs[0].args[0], env);
      }
    }
  }

  /** One instruction and its substitution leave the same values below n. */
  lemma PieceRuns(r: Rule, i: Instr, n: Id, m: Id, inp: Input, env: Env, w: World)
    requires n <= m && i.id < n && Below(n, i.args)
    ensures StepRel(map[], n, ExecInstr(i, inp, env, w), ExecBody(Piece(r, i, m), inp, env, w))
  {
    if !Matches(r, i) {
      assert [i][1..] == [];
    } else if !AllDefined(i.args, env) {
      ExpandUndefined(r, i, m, inp, env, w);
    } else {
      ArithStep(i, inp, env, w);
      hide Pure, ExecInstr, ExecBody, Expand;
      if r.AddRule? {
        var env' := AddRuns(i, m, inp, env, w);
      } else {
        var env' := SubRuns(i, m, inp, env, w);
      }
    }
  }

  lemma SameInstr(n: Id, i: Instr, inp: Input, env: Env, env': Env, w: World)
    requires EnvRel(map[], n, env, env') && i.id < n && Below(n, i.args)
    ensures StepRel(map[], n, ExecInstr(i, inp, env, w), ExecInstr(i, inp, env', w))
  {
    assert RenArgs(map[], i.args) == i.args;
    InstrSim(map[], n, i, i, inp, env, env', w);
  }

  /** The rewritten body computes every original value, and has the same effects. */
  lemma {:induction false} BodyRewritten(r: Rule, body: seq<Instr>, n: Id, m: Id, inp: Input, env: Env, env': Env, w: World)
    requires n <= m && BodyBelow(n, body) && EnvRel(map[], n, env, env')
    ensures StepRel(map[], n, ExecBody(body, inp, env, w), ExecBody(Rewrite(r, body, m), inp, env', w))
    decreases |body|
  {
    if body != [] {
      var front, last := body[..|body| - 1], body[|body| - 1];
      var m' := After(r, front, m);
      BodyRewritten(r, front, n, m, inp, env, env', w);
      var s, s' := ExecBody(front, inp, env, w), ExecBody(Rewrite(r, front, m), inp, env', w);
      OneMore(r, last, n, m', inp, s, s');
      assert body == front + [last];
      hide Piece, After, ExecInstr, ExecBody, BodyBelow, Below, StepRel;
      BodyAppend(front, [last], inp, env, w);
      BodyAppend(Rewrite(r, front, m), Piece(r, last, m'), inp, env', w);
    }
  }

  function Then(s: Step, body: seq<Instr>, inp: Input): Step {
    if s.Ok? then ExecBody(body, inp, s.env, s.w) else s
  }

  lemma OneMore(r: Rule, i: Instr, n: Id, m: Id, inp: Input, s: Step, s': Step)
    requires n <= m && i.id < n && Below(n, i.args) && StepRel(map[], n, s, s')
    ensures StepRel(map[], n, Then(s, [i], inp), Then(s', Piece(r, i, m), inp))
  {
    if s.Ok? {
      OneInstr(i, inp, s.env, s.w);
      SameInstr(n, i, inp, s.env, s'.env, s.w);
      PieceRuns(r, i, n, m, inp, s'.env, s.w);
    }
  }

  lemma OneInstr(i: Instr, inp: Input, env: Env, w: World)
    ensures ExecBody([i], inp, env, w) == ExecInstr(i, inp, env, w)
  {
    assert [i][1..] == [];
  }

  // Whole functions

  lemma ExpandBelow(r: Rule, i: Instr, n: Id, m: Id)
    requires n <= m && i.id < n && Below(n, i.args)
    ensures BodyBelow(m + if Matches(r, i) then Temps(r) else 0, Piece(r, i, m))
  {
  }

  lemma AfterNext(r: Rule, front: seq<Instr>, last: Instr, m: Id)
    ensures After(r, front + [last], m) == After(r, front, m) + if Matches(r, last) then Temps(r) else 0
  {
    var body := front + [last];
    assert body[..|body| - 1] == front;
    assert Temps(r) * (Count(r, front) + 1) == Temps(r) * Count(r, front) + Temps(r);
  }

  lemma {:induction false} RewriteBelow(r: Rule, body: seq<Instr>, n: Id, m: Id)
    requires n <= m && BodyBelow(n, body)
    ensures BodyBelow(After(r, body, m), Rewrite(r, body, m))
    decreases |body|
  {
    if body != [] {
      var front, last := body[..|body| - 1], body[|body| - 1];
      RewriteBelow(r, front, n, m);
      ExpandBelow(r, last, n, After(r, front, m));
      AfterNext(r, front, last, m);
      assert body == front + [last];
    }
  }

  lemma RewriteFnBelow(r: Rule, f: Fn, l: Label)
    requires NamesBelow(f) && l in f.blocks
    ensures NamesBelow(RewriteFn(r, f, l))
  {
    assert BlockBelow(f.nextId, f.blocks[l]);
    RewriteBelow(r, f.blocks[l].body, f.nextId, f.nextId);
    var g := RewriteFn(r, f, l);
    hide After, Rewrite;
    forall x | x in g.blocks
      ensures BlockBelow(g.nextId, g.blocks[x])
    {
      assert BlockBelow(f.nextId, f.blocks[x]);
    }
  }

  /** Runs agree on every value of the original function. */
  ghost predicate Alike(n: Id, c: Config, c': Config) {
    if c.At? then c'.At? && c'.lbl == c.lbl && c'.prev == c.prev && c'.w == c.w && EnvRel(map[], n, c.env, c'.env)
    else c' == c
  }

  lemma PhisAlike(n: Id, phis: seq<Phi>, prev: Option<Label>, inp: Input, env: Env, env': Env, w: World)
    requires forall k :: 0 <= k < |phis| ==> phis[k].id < n && EdgesBelow(n, phis[k].edges)
    requires EnvRel(map[], n, env, env')
    ensures StepRel(map[], n, ExecPhis(phis, prev, inp, env, env, w), ExecPhis(phis, prev, inp, env', env', w))
  {
    forall k | 0 <= k < |phis|
      ensures RenEdges(map[], map[], phis[k].edges) == phis[k].edges
    {
    }
    assert RenPhis(map[], map[], phis) == phis;
    PhisSim(map[], map[], n, phis, prev, inp, env, env', env, env', w);
  }

  lemma LeaveAlike(n: Id, t: Term, l: Label, inp: Input, env: Env, env': Env, w: World)
    requires EnvRel(map[], n, env, env') && Below(n, TermArgs(t))
    ensures Alike(n, Leave(t, l, inp, env, w), Leave(t, l, inp, env', w))
  {
    assert RenTerm(map[], t) == t;
    TermSim(map[], n, t, inp, env, env');
  }

  lemma BlockRewritten(r: Rule, b: Block, b': Block, n: Id, l: Label, prev: Option<Label>, inp: Input, env: Env, env': Env, w: World)
    requires BlockBelow(n, b) && EnvRel(map[], n, env, env')
    requires b' == b || b' == b.(body := Rewrite(r, b.body, n))
    ensures Alike(n, ExecBlock(b, l, prev, inp, env, w), ExecBlock(b', l, prev, inp, env', w))
  {
    PhisAlike(n, b.phis, prev, inp, env, env', w);
    var s, s' := ExecPhis(b.phis, prev, inp, env, env, w), ExecPhis(b.phis, prev, inp, env', env', w);
    if s.Ok? {
      if b' == b {
        SameBody(n, b.body, inp, s.env, s'.env, s.w);
      } else {
        BodyRewritten(r, b.body, n, n, inp, s.env, s'.env, s.w);
      }
      var t, t' := ExecBody(b.body, inp, s.env, s.w), ExecBody(b'.body, inp, s'.env, s.w);
      if t.Ok? {
        LeaveAlike(n, b.term, l, inp, t.env, t'.env, t.w);
      }
    }
  }

  lemma {:induction false} SameBody(n: Id, body: seq<Instr>, inp: Input, env: Env, env': Env, w: World)
    requires BodyBelow(n, body) && EnvRel(map[], n, env, env')
    ensures StepRel(map[], n, ExecBody(body, inp, env, w), ExecBody(body, inp, env', w))
    decreases |body|
  {
    if body != [] {
      SameInstr(n, body[0], inp, env, env', w);
      var s, s' := ExecInstr(body[0], inp, env, w), ExecInstr(body[0], inp, env', w);
      if s.Ok? {
        SameBody(n, body[1..], inp, s.env, s'.env, s.w);
      }
    }
  }

  /** At every point of every run, every original value is what it was. */
  lemma {:induction false} RewriteKeepsUp(r: Rule, f: Fn, l: Label, inp: Input, k: nat)
    requires NamesBelow(f) && l in f.blocks
    ensures Alike(f.nextId, Run(f, inp, k), Run(RewriteFn(r, f, l), inp, k))
  {
    var g := RewriteFn(r, f, l);
    if k > 0 {
      RewriteKeepsUp(r, f, l, inp, k - 1);
      var c, c' := Run(f, inp, k - 1), Run(g, inp, k - 1);
      if c.At? && c.lbl in f.blocks {
        BlockRewritten(r, f.blocks[c.lbl], g.blocks[c.lbl], f.nextId, c.lbl, c.prev, inp, c.env, c'.env, c.w);
      }
    }
  }

  lemma RewriteSameBehaviour(r: Rule, f: Fn, l: Label)
    requires NamesBelow(f) && l in f.blocks
    ensures SameBehaviour(f, RewriteFn(r, f, l))
  {
    var g := RewriteFn(r, f, l);
    forall inp: Input
      ensures Tracks(f, g, inp)
    {
      forall n: nat
        ensures Matched(f, g, inp, n)
      {
        RewriteKeepsUp(r, f, l, inp, n);
        assert Observe(Run(f, inp, n)) == Observe(Run(g, inp, n));
      }
    }
    TracksGivesSameBehaviour(f, g);
  }

  // What rewriting does to the number of instructions a rule applies to

  lemma {:induction false} CountAppend(r: Rule, a: seq<Instr>, b: seq<Instr>)
    ensures Count(r, a + b) == Count(r, a) + Count(r, b)
    decreases |b|
  {
    if b == [] {
      assert a + b == a;
    } else {
      var front := b[..|b| - 1];
      CountAppend(r, a, front);
      assert (a + b)[..|a + b| - 1] == a + front;
    }
  }

  lemma PieceCount(r: Rule, i: Instr, n: Id)
    ensures Count(r, Piece(r, i, n)) == if Matches(r, i) && r.AddRule? then 3 else 0
  {
    var p := Piece(r, i, n);
    if !Matches(r, i) {
      assert p == [] + [i];
    } else if r.SubRule? {
      assert p == [p[0]] + [p[1]] + [p[2]];
      CountAppend(r, [p[0]] + [p[1]], [p[2]]);
      CountAppend(r, [p[0]], [p[1]]);
    } else {
      var h, t := AddHead(i, n), AddTail(i, n);
      assert h == [h[0]] + [h[1]] + [h[2]] + [h[3]];
      assert t == [t[0]] + [t[1]] + [t[2]] + [t[3]];
      CountAppend(r, h, t);
      CountAppend(r, [h[0]] + [h[1]] + [h[2]], [h[3]]);
      CountAppend(r, [h[0]] + [h[1]], [h[2]]);
      CountAppend(r, [h[0]], [h[1]]);
      CountAppend(r, [t[0]] + [t[1]] + [t[2]], [t[3]]);
      CountAppend(r, [t[0]] + [t[1]], [t[2]]);
      CountAppend(r, [t[0]], [t[1]]);
    }
  }

  /**
   A rewritten block offers three additions for every one substituted, so a pass that revisited what it emits
   would never end; no subtraction is left.
   */
  lemma {:induction false} CountAfterRewrite(r: Rule, body: seq<Instr>, n: Id)
    ensures Count(r, Rewrite(r, body, n)) == if r.AddRule? then 3 * Count(r, body) else 0
    decreases |body|
  {
    if body != [] {
      var front, last := body[..|body| - 1], body[|body| - 1];
      var m := After(r, front, n);
      CountAfterRewrite(r, front, n);
      CountAppend(r, Rewrite(r, front, n), Piece(r, last, m));
      PieceCount(r, last, m);
      hide Piece, Matches, After;
    }
  }
}
