/**
 When the deletion rule is right: the later store must-aliases the earlier one, covers it and post-dominates it,
 and nothing on the paths between them looks at the location or gives its pointer a new value.
 */
module DseStatic {
  import opened Ir
  import opened Semantics
  import opened Ssa
  import opened Memory
  import opened Dse

  /** The k-th instruction of block l. */
  datatype Place = Place(l: Label, k: nat)

  predicate HasPlace(f: Fn, p: Place) {
    p.l in f.blocks && p.k < |f.blocks[p.l].body|
  }

  function InstrAt(f: Fn, p: Place): Instr
    requires HasPlace(f, p)
  {
    f.blocks[p.l].body[p.k]
  }

  predicate StoreAt(f: Fn, p: Place) {
    HasPlace(f, p) && IsStore(InstrAt(f, p))
  }

  // Alias analysis

  datatype Location = Location(addr: Operand, size: nat)

  datatype AliasResult = NoAlias | MayAlias | MustAlias

  /** How the location an access touches lies to another one. The answer is about that access, not about the pointer it uses. */
  type AAResults = (Id, Location) -> AliasResult

  function StoreLocation(i: Instr): Location
    requires IsStore(i)
  {
    Location(i.args[1], i.op.bytes)
  }

  /** What a load or store touches. */
  function AccessLocation(i: Instr): Option<Location> {
    if i.op.Load? && |i.args| == 1 then Some(Location(i.args[0], i.op.bytes))
    else if i.op.Store? && |i.args| == 2 then Some(Location(i.args[1], i.op.bytes))
    else None
  }

  /** The answer about the location i is about to touch and b, if b's pointer has a value by then. */
  ghost predicate AliasHolds(aa: AAResults, i: Instr, b: Location, inp: Input, env: Env) {
    AccessLocation(i).Some? && AllDefined(i.args, env) && Defined(b.addr, env) ==>
      var a := AccessLocation(i).value;
      && (aa(i.id, b).NoAlias? ==> Range(Val(a.addr, inp, env), a.size) !! Range(Val(b.addr, inp, env), b.size))
      && (aa(i.id, b).MustAlias? ==> Val(a.addr, inp, env) == Val(b.addr, inp, env))
  }

  /** The values at hand when the n-th block of the run has executed its PHIs and k instructions. */
  function EnvAt(f: Fn, inp: Input, n: nat, k: nat): Option<Env> {
    var c := Run(f, inp, n);
    if !c.At? || c.lbl !in f.blocks || k > |f.blocks[c.lbl].body| then None
    else
      match ExecPhis(f.blocks[c.lbl].phis, c.prev, inp, c.env, c.env, c.w)
      case Bad(_, _) => None
      case Ok(env, w) =>
        var s := ExecBody(f.blocks[c.lbl].body[..k], inp, env, w);
        if s.Ok? then Some(s.env) else None
  }

  /** The instruction the n-th block of the run executes next, k being done. */
  function Next(f: Fn, inp: Input, n: nat, k: nat): Option<Instr> {
    var c := Run(f, inp, n);
    if c.At? && c.lbl in f.blocks && k < |f.blocks[c.lbl].body| then Some(f.blocks[c.lbl].body[k]) else None
  }

  // Where the earlier store is still exposed

  /** Before instruction k of block l, the store at p may have run without the one at s after it; r holds the blocks entered so. */
  predicate OpenAt(p: Place, s: Place, r: set<Label>, l: Label, k: nat) {
    if k == 0 then l in r
    else if Place(l, k - 1) == p then true
    else if Place(l, k - 1) == s then false
    else OpenAt(p, s, r, l, k - 1)
  }

  /** In the run, the store at p has been executed before the n-th block, and the one at s has not been since. */
  predicate EnteredOpen(f: Fn, p: Place, s: Place, inp: Input, n: nat) {
    n > 0
    && var c := Run(f, inp, n - 1);
       c.At? && c.lbl in f.blocks
       && OpenAt(p, s, if EnteredOpen(f, p, s, inp, n - 1) then {c.lbl} else {}, c.lbl, |f.blocks[c.lbl].body|)
  }

  /** Likewise when k instructions of the n-th block are done. */
  predicate OpenNow(f: Fn, p: Place, s: Place, inp: Input, n: nat, k: nat) {
    var c := Run(f, inp, n);
    c.At? && OpenAt(p, s, if EnteredOpen(f, p, s, inp, n) then {c.lbl} else {}, c.lbl, k)
  }

  lemma EnteredNext(f: Fn, p: Place, s: Place, inp: Input, n: nat)
    ensures var c := Run(f, inp, n);
            EnteredOpen(f, p, s, inp, n + 1) <==> c.At? && c.lbl in f.blocks && OpenNow(f, p, s, inp, n, |f.blocks[c.lbl].body|)
  {
  }

  /** On these inputs, between a store at p and the next at s, what is said of the accesses and p's location is right. */
  ghost predicate AliasRight(ok: Inputs, f: Fn, aa: AAResults, p: Place, s: Place)
    requires StoreAt(f, p)
  {
    forall inp: Input, n: nat, k: nat :: ok(inp) && EnvAt(f, inp, n, k).Some? && Next(f, inp, n, k).Some? && OpenNow(f, p, s, inp, n, k) ==>
      AliasHolds(aa, Next(f, inp, n, k).value, StoreLocation(InstrAt(f, p)), inp, EnvAt(f, inp, n, k).value)
  }

  /** The strongest promise: every answer is right at every access, even about pointers of earlier trips round a loop. */
  ghost predicate AliasAlways(ok: Inputs, f: Fn, aa: AAResults) {
    forall inp: Input, n: nat, k: nat, b: Location :: ok(inp) && EnvAt(f, inp, n, k).Some? && Next(f, inp, n, k).Some? ==>
      AliasHolds(aa, Next(f, inp, n, k).value, b, inp, EnvAt(f, inp, n, k).value)
  }

  lemma AlwaysRight(ok: Inputs, f: Fn, aa: AAResults, p: Place, s: Place)
    requires AliasAlways(ok, f, aa) && StoreAt(f, p)
    ensures AliasRight(ok, f, aa, p, s)
  {
  }

  /** i cannot notice the location and does not change the pointer. */
  predicate QuietInstr(aa: AAResults, loc: Location, i: Instr) {
    && Arity(i.op) == Some(|i.args|)
    && !i.op.UDiv?
    && (i.op.Load? ==> aa(i.id, loc).NoAlias?)
    && (i.ty.Void? || loc.addr != Local(i.id))
  }

  predicate QuietPhis(loc: Location, phis: seq<Phi>) {
    forall k :: 0 <= k < |phis| ==> loc.addr != Local(phis[k].id)
  }

  predicate QuietTerm(t: Term) {
    t.Br? || t.CondBr? || t.Switch?
  }

  /** Nothing the store at p can reach without passing s notices it, and r is closed under control flow. */
  ghost predicate Buried(f: Fn, aa: AAResults, p: Place, s: Place, r: set<Label>)
    requires StoreAt(f, p)
  {
    var loc := StoreLocation(InstrAt(f, p));
    && (forall l :: l in r ==> l in f.blocks && QuietPhis(loc, f.blocks[l].phis))
    && (forall q :: HasPlace(f, q) && q != p && q != s && OpenAt(p, s, r, q.l, q.k) ==> QuietInstr(aa, loc, InstrAt(f, q)))
    && (forall l :: l in f.blocks && OpenAt(p, s, r, l, |f.blocks[l].body|) ==>
          QuietTerm(f.blocks[l].term) && Succs(f.blocks[l].term) <= r)
  }

  /** The rule's own conditions on the two stores, and the size the rule does not compare. */
  ghost predicate Overwrites(f: Fn, aa: AAResults, p: Place, s: Place) {
    && StoreAt(f, p) && StoreAt(f, s) && p != s
    && aa(InstrAt(f, s).id, StoreLocation(InstrAt(f, p))).MustAlias?
    && InstrAt(f, p).op.bytes <= InstrAt(f, s).op.bytes
  }

  // Dirty bytes stay within the store's location, and only where it is exposed

  ghost predicate Owed(d: set<int>, open: bool, loc: Location, inp: Input, env: Env) {
    d == {} || (open && Defined(loc.addr, env) && d <= Range(Val(loc.addr, inp, env), loc.size))
  }

  ghost predicate OnlyAt(f: Fn, p: Place)
    requires HasPlace(f, p)
  {
    forall q :: HasPlace(f, q) && q != p ==> InstrAt(f, q).id != InstrAt(f, p).id
  }

  lemma FaultKinds(i: Instr, inp: Input, env: Env, w: World)
    requires Arity(i.op) == Some(|i.args|) && !i.op.UDiv?
    requires ExecInstr(i, inp, env, w).Bad? ==> Sound(ExecInstr(i, inp, env, w).kind)
    ensures ExecInstr(i, inp, env, w).Ok?
  {
  }

  lemma InstrMarked(f: Fn, aa: AAResults, p: Place, s: Place, r: set<Label>, q: Place, inp: Input, env: Env, w: World, d: set<int>)
    requires Overwrites(f, aa, p, s) && Buried(f, aa, p, s, r) && OnlyAt(f, p) && HasPlace(f, q)
    requires d != {} ==> AliasHolds(aa, InstrAt(f, q), StoreLocation(InstrAt(f, p)), inp, env)
    requires var t := ExecInstr(InstrAt(f, q), inp, env, w); t.Bad? ==> Sound(t.kind)
    requires Owed(d, OpenAt(p, s, r, q.l, q.k), StoreLocation(InstrAt(f, p)), inp, env)
    ensures var i := InstrAt(f, q);
            var t := ExecInstr(i, inp, env, w);
            var m := Mark(InstrAt(f, p).id, i, inp, env, w, d);
            && m.Some? && (m.value != {} ==> q != s && (q == p || d != {}))
            && (if t.Ok? then Owed(m.value, OpenAt(p, s, r, q.l, q.k + 1), StoreLocation(InstrAt(f, p)), inp, t.env) else m.value == {})
  {
    hide HasPlace, InstrAt, Sound;
    var i := InstrAt(f, q);
    var loc := StoreLocation(InstrAt(f, p));
    var t := ExecInstr(i, inp, env, w);
    if q == p || q == s {
      FaultKinds(i, inp, env, w);
      assert t.env == env;
      if q == s && d != {} {
        assert aa(i.id, loc).MustAlias?;
        assert Val(i.args[1], inp, env) == Val(loc.addr, inp, env);
        assert d - Touched(i, inp, env) == {};
      }
    } else if d != {} {
      assert QuietInstr(aa, loc, i);
      FaultKinds(i, inp, env, w);
      if i.op.Load? {
        var at := Location(i.args[0], i.op.bytes);
        assert aa(i.id, loc).NoAlias?;
        assert Range(Val(at.addr, inp, env), at.size) !! Range(Val(loc.addr, inp, env), loc.size);
      }
      assert Val(loc.addr, inp, t.env) == Val(loc.addr, inp, env);
    }
  }

  /** The rest of a block, from instruction k on. */
  lemma {:induction false} BodyMarked(ok: Inputs, f: Fn, aa: AAResults, p: Place, s: Place, r: set<Label>, inp: Input, n: nat, k: nat,
                                      env: Env, w: World, d: set<int>)
    requires Overwrites(f, aa, p, s) && Buried(f, aa, p, s, r) && OnlyAt(f, p) && AliasRight(ok, f, aa, p, s) && ok(inp)
    requires Reaches(f, inp, n, k, env, w)
    requires var t := Run(f, inp, n + 1); t.Stuck? ==> Sound(t.kind)
    requires Owed(d, OpenAt(p, s, r, Run(f, inp, n).lbl, k), StoreLocation(InstrAt(f, p)), inp, env)
    requires d != {} ==> OpenNow(f, p, s, inp, n, k)
    ensures var l := Run(f, inp, n).lbl;
            var body := f.blocks[l].body;
            var m := MarkBody(InstrAt(f, p).id, body[k..], inp, env, w, d);
            var t := ExecBody(body[k..], inp, env, w);
            && m.Some? && (m.value != {} ==> OpenNow(f, p, s, inp, n, |body|))
            && (if t.Ok? then Owed(m.value, OpenAt(p, s, r, l, |body|), StoreLocation(InstrAt(f, p)), inp, t.env) else m.value == {})
    decreases |f.blocks[Run(f, inp, n).lbl].body| - k
  {
    hide Buried, AliasRight, Run, Sound, OpenAt, OpenNow;
    var l := Run(f, inp, n).lbl;
    var body := f.blocks[l].body;
    var id := InstrAt(f, p).id;
    if k < |body| {
      var q := Place(l, k);
      var i := body[k];
      var rest := body[k..];
      assert rest[0] == i && rest[1..] == body[k + 1..];
      var t := ExecInstr(i, inp, env, w);
      ReachesNext(f, inp, n, k, env, w);
      if d != {} {
        AliasHere(ok, f, aa, p, s, inp, n, k, env, w);
      }
      hide Overwrites, Buried, OnlyAt, ExecInstr, Mark, OpenAt, Sound, AliasHolds, EnvAt, AliasRight, Run, Owed;
      InstrMarked(f, aa, p, s, r, q, inp, env, w, d);
      if t.Ok? {
        var d1 := Mark(id, i, inp, env, w, d).value;
        OpenNext(f, p, s, inp, n, k);
        BodyMarked(ok, f, aa, p, s, r, inp, n, k + 1, t.env, t.w, d1);
      }
    } else {
      assert body[k..] == [];
    }
  }

  lemma AliasHere(ok: Inputs, f: Fn, aa: AAResults, p: Place, s: Place, inp: Input, n: nat, k: nat, env: Env, w: World)
    requires StoreAt(f, p) && ok(inp) && AliasRight(ok, f, aa, p, s) && Reaches(f, inp, n, k, env, w) && OpenNow(f, p, s, inp, n, k)
    requires k < |f.blocks[Run(f, inp, n).lbl].body|
    ensures AliasHolds(aa, f.blocks[Run(f, inp, n).lbl].body[k], StoreLocation(InstrAt(f, p)), inp, env)
  {
    assert EnvAt(f, inp, n, k) == Some(env);
  }

  lemma OpenNext(f: Fn, p: Place, s: Place, inp: Input, n: nat, k: nat)
    requires Run(f, inp, n).At?
    ensures var q := Place(Run(f, inp, n).lbl, k);
            OpenNow(f, p, s, inp, n, k + 1) <==> q == p || (q != s && OpenNow(f, p, s, inp, n, k))
  {
  }

  /** The n-th block of the run has executed its PHIs and k instructions. */
  ghost predicate Reaches(f: Fn, inp: Input, n: nat, k: nat, env: Env, w: World) {
    var c := Run(f, inp, n);
    && c.At? && c.lbl in f.blocks && k <= |f.blocks[c.lbl].body|
    && var s := ExecPhis(f.blocks[c.lbl].phis, c.prev, inp, c.env, c.env, c.w);
       s.Ok? && ExecBody(f.blocks[c.lbl].body[..k], inp, s.env, s.w) == Ok(env, w)
  }

  lemma ReachesNext(f: Fn, inp: Input, n: nat, k: nat, env: Env, w: World)
    requires Reaches(f, inp, n, k, env, w) && k < |f.blocks[Run(f, inp, n).lbl].body|
    ensures var t := ExecInstr(f.blocks[Run(f, inp, n).lbl].body[k], inp, env, w);
            if t.Ok? then Reaches(f, inp, n, k + 1, t.env, t.w) else Run(f, inp, n + 1) == Stuck(t.kind, t.w)
  {
    var c := Run(f, inp, n);
    var body := f.blocks[c.lbl].body;
    var s := ExecPhis(f.blocks[c.lbl].phis, c.prev, inp, c.env, c.env, c.w);
    assert body[..k + 1] == body[..k] + [body[k]];
    BodyAppend(body[..k], [body[k]], inp, s.env, s.w);
    assert [body[k]][1..] == [];
    assert body == body[..k + 1] + body[k + 1..];
    BodyAppend(body[..k + 1], body[k + 1..], inp, s.env, s.w);
  }

  lemma {:induction false} PhisKeepPointer(loc: Location, phis: seq<Phi>, prev: Option<Label>, inp: Input, edgeEnv: Env, env: Env, w: World)
    requires QuietPhis(loc, phis)
    ensures var s := ExecPhis(phis, prev, inp, edgeEnv, env, w);
            s.Ok? ==> Val(loc.addr, inp, s.env) == Val(loc.addr, inp, env) && (Defined(loc.addr, env) ==> Defined(loc.addr, s.env))
  {
    var s := ExecPhis(phis, prev, inp, edgeEnv, env, w);
    if phis != [] && s.Ok? {
      var x := Incoming(phis[0].edges, prev.value).value;
      PhisKeepPointer(loc, phis[1..], prev, inp, edgeEnv, env[phis[0].id := Val(x, inp, edgeEnv)], w);
    }
  }

  lemma QuietTermGoes(t: Term, inp: Input, env: Env)
    requires QuietTerm(t) && AllDefined(TermArgs(t), env)
    ensures Transfer(t, inp, env).Goto? && Transfer(t, inp, env).dest in Succs(t)
  {
    TransferIsSucc(t, inp, env);
  }

  /** What is owed on entry to the block the run is at. */
  ghost predicate OwedAt(d: set<int>, r: set<Label>, loc: Location, inp: Input, c: Config) {
    d == {} || (c.At? && c.lbl in r && Defined(loc.addr, c.env) && d <= Range(Val(loc.addr, inp, c.env), loc.size))
  }

  lemma BlockMarked(ok: Inputs, f: Fn, aa: AAResults, p: Place, s: Place, r: set<Label>, inp: Input, n: nat, d: set<int>)
    requires Overwrites(f, aa, p, s) && Buried(f, aa, p, s, r) && OnlyAt(f, p) && AliasRight(ok, f, aa, p, s) && ok(inp)
    requires Run(f, inp, n).At? && Run(f, inp, n).lbl in f.blocks
    requires var t := Run(f, inp, n + 1); t.Stuck? ==> Sound(t.kind)
    requires OwedAt(d, r, StoreLocation(InstrAt(f, p)), inp, Run(f, inp, n)) && (d != {} ==> EnteredOpen(f, p, s, inp, n))
    ensures var m := MarkStep(f, InstrAt(f, p).id, inp, Run(f, inp, n), d);
            && m.Some? && OwedAt(m.value, r, StoreLocation(InstrAt(f, p)), inp, Run(f, inp, n + 1))
            && (m.value != {} ==> EnteredOpen(f, p, s, inp, n + 1))
  {
    var c := Run(f, inp, n);
    var b := f.blocks[c.lbl];
    var loc := StoreLocation(InstrAt(f, p));
    PhisKeepWorld(b.phis, c.prev, inp, c.env, c.env, c.w);
    var s1 := ExecPhis(b.phis, c.prev, inp, c.env, c.env, c.w);
    if s1.Ok? {
      if d != {} {
        PhisKeepPointer(loc, b.phis, c.prev, inp, c.env, c.env, c.w);
      }
      assert b.body[..0] == [] && b.body[0..] == b.body;
      BodyMarked(ok, f, aa, p, s, r, inp, n, 0, s1.env, s1.w, d);
      var d1 := MarkBody(InstrAt(f, p).id, b.body, inp, s1.env, s1.w, d).value;
      var t := ExecBody(b.body, inp, s1.env, s1.w);
      if t.Ok? && d1 != {} {
        TermMarked(f, aa, p, s, r, c.lbl, inp, t.env, t.w);
      }
    } else {
      assert d == {} by {
        PhisFault(b.phis, c.prev, inp, c.env, c.env, c.w);
      }
    }
  }

  /** A block left with bytes owed leads on, into the exposed region. */
  lemma TermMarked(f: Fn, aa: AAResults, p: Place, s: Place, r: set<Label>, l: Label, inp: Input, env: Env, w: World)
    requires StoreAt(f, p) && Buried(f, aa, p, s, r) && l in f.blocks && OpenAt(p, s, r, l, |f.blocks[l].body|)
    requires var t := Leave(f.blocks[l].term, l, inp, env, w); t.Stuck? ==> Sound(t.kind)
    ensures var t := Leave(f.blocks[l].term, l, inp, env, w);
            t.At? && t.lbl in r && t.env == env
  {
    var t := f.blocks[l].term;
    if AllDefined(TermArgs(t), env) {
      QuietTermGoes(t, inp, env);
    }
  }

  lemma {:induction false} RunMarked(ok: Inputs, f: Fn, aa: AAResults, p: Place, s: Place, r: set<Label>, inp: Input, n: nat)
    requires Overwrites(f, aa, p, s) && Buried(f, aa, p, s, r) && OnlyAt(f, p) && AliasRight(ok, f, aa, p, s) && SafeFor(ok, f) && ok(inp)
    ensures var m := MarkRun(f, InstrAt(f, p).id, inp, n);
            && m.Some? && OwedAt(m.value, r, StoreLocation(InstrAt(f, p)), inp, Run(f, inp, n))
            && (m.value != {} ==> EnteredOpen(f, p, s, inp, n))
  {
    hide EnteredOpen, OpenAt, AliasRight, OnlyAt;
    if n > 0 {
      RunMarked(ok, f, aa, p, s, r, inp, n - 1);
      var c := Run(f, inp, n - 1);
      if c.At? && c.lbl in f.blocks {
        BlockMarked(ok, f, aa, p, s, r, inp, n - 1, MarkRun(f, InstrAt(f, p).id, inp, n - 1).value);
      }
    }
  }

  lemma OnlyStore(f: Fn, p: Place)
    requires StoreAt(f, p) && OnlyAt(f, p)
    ensures NamesStore(f, InstrAt(f, p).id)
  {
    forall l, k | l in f.blocks && 0 <= k < |f.blocks[l].body| && f.blocks[l].body[k].id == InstrAt(f, p).id
      ensures IsStore(f.blocks[l].body[k])
    {
      assert InstrAt(f, Place(l, k)) == f.blocks[l].body[k];
    }
  }

  lemma BuriedIsUnread(ok: Inputs, f: Fn, aa: AAResults, p: Place, s: Place, r: set<Label>)
    requires Overwrites(f, aa, p, s) && Buried(f, aa, p, s, r) && OnlyAt(f, p) && AliasRight(ok, f, aa, p, s) && SafeFor(ok, f)
    ensures Unread(ok, f, InstrAt(f, p).id)
  {
    forall inp: Input, n: nat | ok(inp)
      ensures MarkRun(f, InstrAt(f, p).id, inp, n).Some?
    {
      RunMarked(ok, f, aa, p, s, r, inp, n);
    }
  }

  // Post-dominance

  ghost predicate PathFrom(f: Fn, path: seq<Label>, a: Label) {
    && path != []
    && path[0] == a
    && forall k :: 0 < k < |path| ==> IsEdge(f, path[k - 1], path[k])
  }

  ghost predicate PassesAgain(path: seq<Label>, l: Label) {
    exists j :: 1 <= j < |path| && path[j] == l
  }

  /** Every way from the store at p out of the function goes through s. */
  ghost predicate PostDominates(f: Fn, s: Place, p: Place) {
    || (s.l == p.l && p.k < s.k)
    || forall path :: PathFrom(f, path, p.l) && Last(path) in f.blocks && Succs(f.blocks[Last(path)].term) == {} ==>
         PassesAgain(path, s.l)
  }

  /** A path from the end of p's block that has not met s before its last block. */
  ghost predicate Escapes(f: Fn, p: Place, s: Place, path: seq<Label>) {
    && PathFrom(f, path, p.l) && |path| >= 2
    && (s.l == p.l ==> s.k < p.k)
    && !PassesAgain(path[..|path| - 1], s.l)
  }

  ghost predicate Exposed(f: Fn, p: Place, s: Place, l: Label) {
    exists path :: Escapes(f, p, s, path) && Last(path) == l
  }

  /** The blocks that can be entered after the store at p with s still to come. */
  ghost function Region(f: Fn, p: Place, s: Place): set<Label> {
    set l | l in f.blocks && Exposed(f, p, s, l)
  }

  /** Nothing on the way from p to s looks at the location or moves the pointer. */
  ghost predicate NoneBetween(f: Fn, aa: AAResults, p: Place, s: Place)
    requires StoreAt(f, p)
  {
    var loc := StoreLocation(InstrAt(f, p));
    var r := Region(f, p, s);
    && (forall q :: HasPlace(f, q) && q != p && q != s && OpenAt(p, s, r, q.l, q.k) ==> QuietInstr(aa, loc, InstrAt(f, q)))
    && (forall l :: l in r ==> QuietPhis(loc, f.blocks[l].phis))
    && (forall l :: l in f.blocks && OpenAt(p, s, r, l, |f.blocks[l].body|) ==> !f.blocks[l].term.IndirectBr?)
  }

  /** Only p's own block can be left open without being entered open. */
  lemma {:induction false} OpenEnd(p: Place, s: Place, r: set<Label>, l: Label, k: nat)
    requires OpenAt(p, s, r, l, k) && p != s
    ensures l == s.l && s.k < k ==> p.l == l && s.k < p.k < k
    ensures l in r || (l == p.l && p.k < k)
    decreases k
  {
    if k > 0 && Place(l, k - 1) != p && Place(l, k - 1) != s {
      OpenEnd(p, s, r, l, k - 1);
    }
  }

  lemma ExtendPath(f: Fn, path: seq<Label>, a: Label, x: Label)
    requires PathFrom(f, path, a) && IsEdge(f, Last(path), x)
    ensures PathFrom(f, path + [x], a)
  {
    var q := path + [x];
    forall k | 0 < k < |q|
      ensures IsEdge(f, q[k - 1], q[k])
    {
      if k == |path| {
        assert q[k - 1] == Last(path);
      }
    }
  }

  /** A block left open is reached by an escaping path, or is p's own. */
  lemma OpenPath(f: Fn, p: Place, s: Place, l: Label) returns (path: seq<Label>)
    requires HasPlace(f, p) && HasPlace(f, s) && p != s && l in f.blocks
    requires OpenAt(p, s, Region(f, p, s), l, |f.blocks[l].body|)
    ensures PathFrom(f, path, p.l) && Last(path) == l && !PassesAgain(path, s.l)
    ensures s.l == p.l ==> s.k < p.k
  {
    var r := Region(f, p, s);
    OpenEnd(p, s, r, l, |f.blocks[l].body|);
    if l == p.l {
      path := [l];
      if s.l == p.l {
        assert s.k < |f.blocks[l].body|;
      }
    } else {
      assert l in r;
      path :| Escapes(f, p, s, path) && Last(path) == l;
      forall j | 1 <= j < |path|
        ensures path[j] != s.l
      {
        if j < |path| - 1 {
          assert path[..|path| - 1][j] == path[j];
        }
      }
    }
  }

  lemma RegionClosed(f: Fn, p: Place, s: Place, l: Label)
    requires Closed(f) && HasPlace(f, p) && HasPlace(f, s) && p != s && l in f.blocks && PostDominates(f, s, p)
    requires OpenAt(p, s, Region(f, p, s), l, |f.blocks[l].body|)
    ensures Succs(f.blocks[l].term) != {} && Succs(f.blocks[l].term) <= Region(f, p, s)
  {
    var path := OpenPath(f, p, s, l);
    forall x | x in Succs(f.blocks[l].term)
      ensures x in Region(f, p, s)
    {
      assert IsEdge(f, l, x);
      ExtendPath(f, path, p.l, x);
      assert (path + [x])[..|path + [x]| - 1] == path;
      assert Escapes(f, p, s, path + [x]);
      assert Last(path + [x]) == x;
      assert Exposed(f, p, s, x);
    }
  }

  /** What a later store must-aliases, covers and post-dominates is never read, if nothing in between can read it. */
  lemma DeadStoreUnread(ok: Inputs, f: Fn, aa: AAResults, p: Place, s: Place)
    requires Closed(f) && SafeFor(ok, f) && Overwrites(f, aa, p, s) && OnlyAt(f, p) && AliasRight(ok, f, aa, p, s)
    requires PostDominates(f, s, p) && NoneBetween(f, aa, p, s)
    ensures Unread(ok, f, InstrAt(f, p).id)
  {
    var r := Region(f, p, s);
    forall l | l in f.blocks && OpenAt(p, s, r, l, |f.blocks[l].body|)
      ensures QuietTerm(f.blocks[l].term) && Succs(f.blocks[l].term) <= r
    {
      RegionClosed(f, p, s, l);
    }
    BuriedIsUnread(ok, f, aa, p, s, r);
  }

  /**
   Erasing a store that a later one must-aliases, covers and post-dominates changes no run on the inputs the alias
   analysis is right about, provided nothing on the paths between the two looks at the location or moves the pointer.
   */
  lemma DeadStoreSameBehaviour(ok: Inputs, f: Fn, aa: AAResults, p: Place, s: Place)
    requires WellFormed(f) && Overwrites(f, aa, p, s) && OnlyAt(f, p) && AliasRight(ok, f, aa, p, s)
    requires PostDominates(f, s, p) && NoneBetween(f, aa, p, s)
    ensures SameFor(ok, f, Erase(f, InstrAt(f, p).id))
  {
    WellFormedIsSafe(f);
    assert SafeFor(ok, f);
    DeadStoreUnread(ok, f, aa, p, s);
    OnlyStore(f, p);
    UnreadSameBehaviour(ok, f, InstrAt(f, p).id);
  }
}
