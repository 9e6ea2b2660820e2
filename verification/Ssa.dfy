/**
 Well-formedness of a function: the control-flow graph, one definition per id, PHI entries, and
 definitions that dominate their uses, with dominance defined over paths from the entry.
 */
module Ssa {
  import opened Ir
  import opened Semantics

  // Dominance

  predicate IsEdge(f: Fn, a: Label, b: Label) {
    a in f.blocks && b in Succs(f.blocks[a].term)
  }

  function Last(p: seq<Label>): Label
    requires p != []
  {
    p[|p| - 1]
  }

  /** p follows control-flow edges from the entry. */
  ghost predicate Path(f: Fn, p: seq<Label>) {
    && p != []
    && p[0] == f.entry
    && forall k :: 0 < k < |p| ==> IsEdge(f, p[k - 1], p[k])
  }

  /** Every path from the entry to l goes through d. */
  ghost predicate Dominates(f: Fn, d: Label, l: Label) {
    forall p :: Path(f, p) && Last(p) == l ==> d in p
  }

  ghost predicate DefinesIn(f: Fn, d: Label, i: Id) {
    d in f.blocks && i in Defs(f.blocks[d])
  }

  /** Some strict dominator of l defines i. */
  ghost predicate AvailIn(f: Fn, l: Label, i: Id) {
    exists d :: DefinesIn(f, d, i) && d != l && Dominates(f, d, l)
  }

  /** Some dominator of l defines i. */
  ghost predicate AvailOut(f: Fn, l: Label, i: Id) {
    exists d :: DefinesIn(f, d, i) && Dominates(f, d, l)
  }

  // Well-formedness

  datatype Site = PhiSite(l: Label, k: nat) | InstrSite(l: Label, k: nat)

  predicate HasSite(f: Fn, s: Site) {
    && s.l in f.blocks
    && (s.PhiSite? ==> s.k < |f.blocks[s.l].phis|)
    && (s.InstrSite? ==> s.k < |f.blocks[s.l].body|)
  }

  function SiteId(f: Fn, s: Site): Id
    requires HasSite(f, s)
  {
    match s
    case PhiSite(l, k) => f.blocks[l].phis[k].id
    case InstrSite(l, k) => f.blocks[l].body[k].id
  }

  /** One definition per id. */
  ghost predicate Unique(f: Fn) {
    forall s, t :: HasSite(f, s) && HasSite(f, t) && SiteId(f, s) == SiteId(f, t) ==> s == t
  }

  ghost predicate FreshNames(f: Fn) {
    && (forall s :: HasSite(f, s) ==> SiteId(f, s) < f.nextId)
    && (forall l :: l in f.blocks ==> l < f.nextLabel)
  }

  /** The entry has no predecessors and no PHIs, and every jump target exists. */
  ghost predicate Closed(f: Fn) {
    && f.entry in f.blocks
    && f.blocks[f.entry].phis == []
    && forall a, b :: IsEdge(f, a, b) ==> b in f.blocks && b != f.entry
  }

  /** Exactly one entry per predecessor. */
  ghost predicate OneEdgePerPred(f: Fn, l: Label, edges: seq<Edge>) {
    && (forall j, k :: 0 <= j < k < |edges| ==> edges[j].from != edges[k].from)
    && (forall k :: 0 <= k < |edges| ==> IsEdge(f, edges[k].from, l))
    && (forall p :: IsEdge(f, p, l) ==> HasEntry(edges, p))
  }

  predicate HasEntry(edges: seq<Edge>, p: Label) {
    exists k :: 0 <= k < |edges| && edges[k].from == p
  }

  ghost predicate PhisComplete(f: Fn) {
    forall l, k :: l in f.blocks && 0 <= k < |f.blocks[l].phis| ==> OneEdgePerPred(f, l, f.blocks[l].phis[k].edges)
  }

  ghost predicate UseOk(f: Fn, l: Label, k: nat, x: Operand)
    requires l in f.blocks && k <= |f.blocks[l].body|
  {
    x.Local? ==> x.id in DefsUpTo(f.blocks[l], k) || AvailIn(f, l, x.id)
  }

  ghost predicate BodyUsesOk(f: Fn, l: Label)
    requires l in f.blocks
  {
    var body := f.blocks[l].body;
    forall k, a :: 0 <= k < |body| && 0 <= a < |body[k].args| ==> UseOk(f, l, k, body[k].args[a])
  }

  ghost predicate TermUsesOk(f: Fn, l: Label)
    requires l in f.blocks
  {
    var b := f.blocks[l];
    forall a :: 0 <= a < |TermArgs(b.term)| ==> UseOk(f, l, |b.body|, TermArgs(b.term)[a])
  }

  ghost predicate EdgeUseOk(f: Fn, e: Edge) {
    e.val.Local? ==> AvailOut(f, e.from, e.val.id)
  }

  ghost predicate PhiUsesOk(f: Fn, l: Label)
    requires l in f.blocks
  {
    var phis := f.blocks[l].phis;
    forall k, e :: 0 <= k < |phis| && 0 <= e < |phis[k].edges| ==> EdgeUseOk(f, phis[k].edges[e])
  }

  /** Definitions dominate uses. */
  ghost predicate UsesDominated(f: Fn) {
    forall l :: l in f.blocks ==> BodyUsesOk(f, l) && TermUsesOk(f, l) && PhiUsesOk(f, l)
  }

  ghost predicate Structured(f: Fn) {
    Closed(f) && FreshNames(f) && Unique(f) && PhisComplete(f)
  }

  ghost predicate WellFormed(f: Fn) {
    Structured(f) && UsesDominated(f)
  }

  /** An instruction without a value defines nothing. */
  lemma VoidNotDefined(f: Fn, b: Label, j: nat)
    requires Unique(f) && b in f.blocks && j < |f.blocks[b].body| && f.blocks[b].body[j].ty.Void?
    ensures forall d :: !DefinesIn(f, d, f.blocks[b].body[j].id)
  {
    var i := f.blocks[b].body[j].id;
    forall d
      ensures !DefinesIn(f, d, i)
    {
      if d in f.blocks {
        var blk := f.blocks[d];
        assert SiteId(f, InstrSite(b, j)) == i;
        forall k | 0 <= k < |blk.phis|
          ensures blk.phis[k].id != i
        {
          assert SiteId(f, PhiSite(d, k)) == blk.phis[k].id;
        }
        forall k | 0 <= k < |blk.body| && blk.body[k].id == i
          ensures blk.body[k].ty.Void?
        {
          assert SiteId(f, InstrSite(d, k)) == i;
        }
      }
    }
  }

  lemma SiteOf(f: Fn, d: Label, i: Id) returns (s: Site)
    requires DefinesIn(f, d, i)
    ensures HasSite(f, s) && SiteId(f, s) == i && s.l == d
  {
    var b := f.blocks[d];
    if i in PhiDefs(b.phis) {
      var k :| 0 <= k < |b.phis| && b.phis[k].id == i;
      s := PhiSite(d, k);
    } else {
      var k :| 0 <= k < |b.body| && !b.body[k].ty.Void? && b.body[k].id == i;
      s := InstrSite(d, k);
    }
  }

  lemma OneDefBlock(f: Fn, d: Label, e: Label, i: Id)
    requires Unique(f) && DefinesIn(f, d, i) && DefinesIn(f, e, i)
    ensures d == e
  {
    var s := SiteOf(f, d, i);
    var t := SiteOf(f, e, i);
  }

  /** A value is defined in the block of its only definition site. */
  lemma DefSite(f: Fn, d: Label, i: Id, s: Site)
    requires Unique(f) && DefinesIn(f, d, i) && HasSite(f, s) && SiteId(f, s) == i
    ensures d == s.l && (s.InstrSite? ==> i !in PhiDefs(f.blocks[d].phis)) && (s.PhiSite? ==> i in PhiDefs(f.blocks[d].phis))
  {
    var blk := f.blocks[d];
    if i in PhiDefs(blk.phis) {
      var k :| 0 <= k < |blk.phis| && blk.phis[k].id == i;
      assert SiteId(f, PhiSite(d, k)) == i;
    } else {
      var k :| 0 <= k < |blk.body| && !blk.body[k].ty.Void? && blk.body[k].id == i;
      assert SiteId(f, InstrSite(d, k)) == i;
    }
  }

  lemma DefsGrow(b: Block, k: nat)
    requires k <= |b.body|
    ensures DefsUpTo(b, k) <= Defs(b)
  {
  }

  // What a run has computed

  lemma PhiDefsCons(phis: seq<Phi>)
    requires phis != []
    ensures PhiDefs(phis) == {phis[0].id} + PhiDefs(phis[1..])
  {
    assert forall j :: 0 <= j < |phis| ==> phis[j].id == if j == 0 then phis[0].id else phis[1..][j - 1].id;
    forall j | 0 <= j < |phis[1..]|
      ensures phis[1..][j].id in PhiDefs(phis)
    {
      assert phis[1..][j] == phis[j + 1];
    }
  }

  lemma {:induction false} PhisDefine(phis: seq<Phi>, prev: Option<Label>, inp: Input, edgeEnv: Env, env: Env, w: World)
    ensures var s := ExecPhis(phis, prev, inp, edgeEnv, env, w);
            s.Ok? ==> s.env.Keys == env.Keys + PhiDefs(phis)
  {
    var s := ExecPhis(phis, prev, inp, edgeEnv, env, w);
    if phis != [] && s.Ok? {
      var x := Incoming(phis[0].edges, prev.value).value;
      var env' := env[phis[0].id := Val(x, inp, edgeEnv)];
      PhisDefine(phis[1..], prev, inp, edgeEnv, env', w);
      PhiDefsCons(phis);
    }
  }

  lemma BodyDefsCons(body: seq<Instr>)
    requires body != []
    ensures BodyDefs(body, |body|) == BodyDefs(body[1..], |body| - 1) + if body[0].ty.Void? then {} else {body[0].id}
  {
    var rest := body[1..];
    forall i | i in BodyDefs(body, |body|)
      ensures i in BodyDefs(rest, |rest|) + if body[0].ty.Void? then {} else {body[0].id}
    {
      var j :| 0 <= j < |body| && !body[j].ty.Void? && body[j].id == i;
      if j > 0 {
        assert rest[j - 1] == body[j];
      }
    }
    forall i | i in BodyDefs(rest, |rest|)
      ensures i in BodyDefs(body, |body|)
    {
      var j :| 0 <= j < |rest| && !rest[j].ty.Void? && rest[j].id == i;
      assert rest[j] == body[j + 1];
    }
  }

  lemma {:induction false} BodyDefines(body: seq<Instr>, inp: Input, env: Env, w: World)
    ensures var s := ExecBody(body, inp, env, w);
            s.Ok? ==> s.env.Keys == env.Keys + BodyDefs(body, |body|)
  {
    if body != [] {
      var s := ExecInstr(body[0], inp, env, w);
      if s.Ok? {
        BodyDefines(body[1..], inp, s.env, s.w);
        BodyDefsCons(body);
      }
    }
  }

  /** The labels a run goes through form a path, and it has computed everything defined on the way. */
  ghost predicate Visited(f: Fn, p: seq<Label>, c: Config) {
    && c.At?
    && Path(f, p)
    && Last(p) == c.lbl
    && c.prev == (if |p| == 1 then None else Some(p[|p| - 2]))
    && forall k :: 0 <= k < |p| - 1 ==> p[k] in f.blocks && Defs(f.blocks[p[k]]) <= c.env.Keys
  }

  lemma {:induction false} RunVisits(f: Fn, inp: Input, n: nat) returns (p: seq<Label>)
    requires Closed(f)
    requires Run(f, inp, n).At?
    ensures Visited(f, p, Run(f, inp, n))
  {
    if n == 0 {
      p := [f.entry];
    } else {
      var c := Run(f, inp, n - 1);
      hide Visited, ExecBlock, Defs, Succs;
      var p0 := RunVisits(f, inp, n - 1);
      var c' := Run(f, inp, n);
      BlockDefines(f.blocks[c.lbl], c.lbl, c.prev, inp, c.env, c.w);
      p := p0 + [c'.lbl];
      VisitNext(f, p0, c, c');
    }
  }

  lemma VisitNext(f: Fn, p: seq<Label>, c: Config, c': Config)
    requires Visited(f, p, c) && c'.At? && c.lbl in f.blocks && IsEdge(f, c.lbl, c'.lbl)
    requires c'.prev == Some(c.lbl) && c'.env.Keys == c.env.Keys + Defs(f.blocks[c.lbl])
    ensures Visited(f, p + [c'.lbl], c')
  {
  }

  lemma BlockDefines(b: Block, l: Label, prev: Option<Label>, inp: Input, env: Env, w: World)
    ensures var c := ExecBlock(b, l, prev, inp, env, w);
            c.At? ==> c.prev == Some(l) && c.lbl in Succs(b.term) && c.env.Keys == env.Keys + Defs(b)
  {
    var s1 := ExecPhis(b.phis, prev, inp, env, env, w);
    if s1.Ok? {
      PhisDefine(b.phis, prev, inp, env, env, w);
      var s2 := ExecBody(b.body, inp, s1.env, s1.w);
      if s2.Ok? {
        BodyDefines(b.body, inp, s1.env, s1.w);
        TransferIsSucc(b.term, inp, s2.env);
      }
    }
  }

  lemma {:induction false} CaseDestIsCase(cases: seq<Case>, v: int, d: Label)
    ensures CaseDest(cases, v, d) == d || exists k :: 0 <= k < |cases| && cases[k].dest == CaseDest(cases, v, d)
  {
    if cases != [] && cases[0].key != v {
      CaseDestIsCase(cases[1..], v, d);
      if CaseDest(cases, v, d) != d {
        var k :| 0 <= k < |cases[1..]| && cases[1..][k].dest == CaseDest(cases, v, d);
        assert cases[k + 1].dest == CaseDest(cases, v, d);
      }
    }
  }

  lemma TransferIsSucc(t: Term, inp: Input, env: Env)
    ensures Transfer(t, inp, env).Goto? ==> Transfer(t, inp, env).dest in Succs(t)
  {
    if t.Switch? {
      CaseDestIsCase(t.cases, Val(t.on, inp, env), t.default);
    }
  }

  /** A value defined in a strict dominator of the block a run has reached is already computed. */
  lemma AvailableAtRun(f: Fn, inp: Input, n: nat, i: Id)
    requires Closed(f)
    requires Run(f, inp, n).At? && AvailIn(f, Run(f, inp, n).lbl, i)
    ensures i in Run(f, inp, n).env
  {
    var c := Run(f, inp, n);
    var p := RunVisits(f, inp, n);
    var d :| DefinesIn(f, d, i) && d != c.lbl && Dominates(f, d, c.lbl);
    assert d in p;
    var k :| 0 <= k < |p| && p[k] == d;
    assert k < |p| - 1;
  }

  /** A value defined in a dominator of the block a run comes from is already computed. */
  lemma AvailableOnEdge(f: Fn, inp: Input, n: nat, i: Id)
    requires Closed(f)
    requires Run(f, inp, n).At? && Run(f, inp, n).prev.Some? && AvailOut(f, Run(f, inp, n).prev.value, i)
    ensures i in Run(f, inp, n).env
  {
    var c := Run(f, inp, n);
    var p := RunVisits(f, inp, n);
    var d :| DefinesIn(f, d, i) && Dominates(f, d, c.prev.value);
    var q := p[..|p| - 1];
    assert Path(f, q) && Last(q) == c.prev.value;
    assert d in q;
    var k :| 0 <= k < |q| && q[k] == d;
    assert p[k] == d;
  }

  // A well-formed function never reads an undefined value

  lemma {:induction false} IncomingFound(edges: seq<Edge>, p: Label)
    ensures HasEntry(edges, p) <==> Incoming(edges, p).Some?
    ensures HasEntry(edges, p) ==> Edge(p, Incoming(edges, p).value) in edges
  {
    if edges != [] && edges[0].from != p {
      IncomingFound(edges[1..], p);
      if HasEntry(edges, p) {
        var k :| 0 <= k < |edges| && edges[k].from == p;
        assert edges[1..][k - 1].from == p;
      }
      if HasEntry(edges[1..], p) {
        var k :| 0 <= k < |edges[1..]| && edges[1..][k].from == p;
        assert edges[k + 1].from == p;
      }
    }
  }

  ghost predicate Sound(k: FaultKind) {
    k != Undefined && k != MissingEdge
  }

  lemma {:induction false} PhisSound(f: Fn, l: Label, k: nat, prev: Label, inp: Input, edgeEnv: Env, env: Env, w: World)
    requires l in f.blocks && k <= |f.blocks[l].phis|
    requires PhisComplete(f) && PhiUsesOk(f, l) && IsEdge(f, prev, l)
    requires forall i :: AvailOut(f, prev, i) ==> i in edgeEnv
    ensures ExecPhis(f.blocks[l].phis[k..], Some(prev), inp, edgeEnv, env, w).Ok?
    decreases |f.blocks[l].phis| - k
  {
    var phis := f.blocks[l].phis;
    if k < |phis| {
      var phi := phis[k];
      assert OneEdgePerPred(f, l, phi.edges);
      IncomingFound(phi.edges, prev);
      var x := Incoming(phi.edges, prev).value;
      var e :| 0 <= e < |phi.edges| && phi.edges[e] == Edge(prev, x);
      assert EdgeUseOk(f, phi.edges[e]);
      assert phis[k..][1..] == phis[k + 1..];
      PhisSound(f, l, k + 1, prev, inp, edgeEnv, env[phi.id := Val(x, inp, edgeEnv)], w);
    }
  }

  lemma {:induction false} BodySound(f: Fn, l: Label, k: nat, inp: Input, env: Env, w: World)
    requires l in f.blocks && k <= |f.blocks[l].body|
    requires BodyUsesOk(f, l)
    requires DefsUpTo(f.blocks[l], k) <= env.Keys
    requires forall i :: AvailIn(f, l, i) ==> i in env
    ensures var s := ExecBody(f.blocks[l].body[k..], inp, env, w);
            s.Bad? ==> Sound(s.kind)
    decreases |f.blocks[l].body| - k
  {
    var body := f.blocks[l].body;
    if k < |body| {
      var i := body[k];
      assert AllDefined(i.args, env) by {
        forall a | 0 <= a < |i.args|
          ensures Defined(i.args[a], env)
        {
          assert UseOk(f, l, k, body[k].args[a]);
        }
      }
      var s := ExecInstr(i, inp, env, w);
      assert body[k..][1..] == body[k + 1..];
      if s.Ok? {
        BodySound(f, l, k + 1, inp, s.env, s.w);
      }
    }
  }

  lemma TermSound(f: Fn, l: Label, inp: Input, env: Env, w: World)
    requires l in f.blocks && TermUsesOk(f, l)
    requires Defs(f.blocks[l]) <= env.Keys
    requires forall i :: AvailIn(f, l, i) ==> i in env
    ensures var c := Leave(f.blocks[l].term, l, inp, env, w);
            c.Stuck? ==> Sound(c.kind)
  {
    var b := f.blocks[l];
    forall a | 0 <= a < |TermArgs(b.term)|
      ensures Defined(TermArgs(b.term)[a], env)
    {
      assert UseOk(f, l, |b.body|, TermArgs(b.term)[a]);
    }
  }

  lemma BlockPhisSound(f: Fn, inp: Input, n: nat)
    requires WellFormed(f)
    requires Run(f, inp, n).At? && Run(f, inp, n).lbl in f.blocks
    ensures var c := Run(f, inp, n);
            ExecPhis(f.blocks[c.lbl].phis, c.prev, inp, c.env, c.env, c.w).Ok?
  {
    var c := Run(f, inp, n);
    var p := RunVisits(f, inp, n);
    if |p| > 1 {
      assert IsEdge(f, p[|p| - 2], p[|p| - 1]);
      forall i | AvailOut(f, c.prev.value, i)
        ensures i in c.env
      {
        AvailableOnEdge(f, inp, n, i);
      }
      PhisSound(f, c.lbl, 0, c.prev.value, inp, c.env, c.env, c.w);
      assert f.blocks[c.lbl].phis[0..] == f.blocks[c.lbl].phis;
    }
  }

  lemma BlockSound(f: Fn, l: Label, prev: Option<Label>, inp: Input, env: Env, w: World)
    requires l in f.blocks && BodyUsesOk(f, l) && TermUsesOk(f, l)
    requires ExecPhis(f.blocks[l].phis, prev, inp, env, env, w).Ok?
    requires forall i :: AvailIn(f, l, i) ==> i in env
    ensures var c := ExecBlock(f.blocks[l], l, prev, inp, env, w);
            c.Stuck? ==> Sound(c.kind)
  {
    var b := f.blocks[l];
    var s1 := ExecPhis(b.phis, prev, inp, env, env, w);
    PhisDefine(b.phis, prev, inp, env, env, w);
    BodySound(f, l, 0, inp, s1.env, s1.w);
    assert b.body[0..] == b.body;
    var s2 := ExecBody(b.body, inp, s1.env, s1.w);
    if s2.Ok? {
      BodyDefines(b.body, inp, s1.env, s1.w);
      TermSound(f, l, inp, s2.env, s2.w);
    }
  }

  /** Definitions dominate uses, so no run of a well-formed function reads an undefined value or misses a PHI entry. */
  lemma {:induction false} NeverUndefined(f: Fn, inp: Input, n: nat)
    requires WellFormed(f)
    ensures Run(f, inp, n).Stuck? ==> Sound(Run(f, inp, n).kind)
  {
    if n > 0 {
      NeverUndefined(f, inp, n - 1);
      var c := Run(f, inp, n - 1);
      if c.At? && c.lbl in f.blocks {
        BlockPhisSound(f, inp, n - 1);
        forall i | AvailIn(f, c.lbl, i)
          ensures i in c.env
        {
          AvailableAtRun(f, inp, n - 1, i);
        }
        BlockSound(f, c.lbl, c.prev, inp, c.env, c.w);
      }
    }
  }

  /** A function that faults over a missing value or PHI entry behaves like no well-formed function. */
  lemma FaultTellsApart(f: Fn, g: Fn, inp: Input, n: nat)
    requires WellFormed(f) && Run(g, inp, n).Stuck? && !Sound(Run(g, inp, n).kind)
    ensures !SameOn(f, g, inp)
  {
    var c := Run(g, inp, n);
    assert Ends(g, inp, c);
    if Ends(f, inp, c) {
      var m: nat :| Run(f, inp, m) == c;
      NeverUndefined(f, inp, m);
    }
  }

  lemma {:induction false} PhisFault(phis: seq<Phi>, prev: Option<Label>, inp: Input, edgeEnv: Env, env: Env, w: World)
    ensures var s := ExecPhis(phis, prev, inp, edgeEnv, env, w); s.Bad? ==> !Sound(s.kind)
  {
    if phis != [] {
      var x := if prev.Some? then Incoming(phis[0].edges, prev.value) else None;
      if x.Some? && Defined(x.value, edgeEnv) {
        PhisFault(phis[1..], prev, inp, edgeEnv, env[phis[0].id := Val(x.value, inp, edgeEnv)], w);
      }
    }
  }

  /** No run faults over a missing value or PHI entry. */
  ghost predicate Safe(f: Fn) {
    forall inp: Input, n: nat :: Run(f, inp, n).Stuck? ==> Sound(Run(f, inp, n).kind)
  }

  lemma WellFormedIsSafe(f: Fn)
    requires WellFormed(f)
    ensures Safe(f)
  {
    forall inp: Input, n: nat
      ensures Run(f, inp, n).Stuck? ==> Sound(Run(f, inp, n).kind)
    {
      NeverUndefined(f, inp, n);
    }
  }

  ghost predicate SafeFor(ok: Inputs, f: Fn) {
    forall inp: Input, n: nat :: ok(inp) && Run(f, inp, n).Stuck? ==> Sound(Run(f, inp, n).kind)
  }

  lemma SafeForKept(ok: Inputs, f: Fn, g: Fn)
    requires SafeFor(ok, f) && SameFor(ok, f, g)
    ensures SafeFor(ok, g)
  {
    forall inp: Input, n: nat | ok(inp) && Run(g, inp, n).Stuck?
      ensures Sound(Run(g, inp, n).kind)
    {
      var c := Run(g, inp, n);
      assert SameOn(f, g, inp);
      assert Ends(g, inp, c);
      assert Ends(f, inp, c);
    }
  }
}
