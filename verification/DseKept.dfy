/** Erasing a justified dead store leaves the analyses' answers right for what remains. */
module DseKept {
  import opened Ir
  import opened Semantics
  import opened Ssa
  import opened Removal
  import opened Memory
  import opened Dse
  import opened DseStatic

  // Positions

  /** Where an instruction that stays came from; order is kept. */
  lemma PlaceBefore(f: Fn, id: Id, q': Place) returns (q: Place)
    requires HasPlace(Erase(f, id), q')
    ensures HasPlace(f, q) && q.l == q'.l && InstrAt(f, q) == InstrAt(Erase(f, id), q') && InstrAt(f, q).id != id
    ensures |Without(f.blocks[q.l].body[..q.k], {id})| == q'.k
  {
    var k := WithoutPrefix(f.blocks[q'.l].body, {id}, q'.k);
    q := Place(q'.l, k);
  }

  /** The place of an instruction once others are gone. */
  function PlaceAfter(f: Fn, id: Id, q: Place): Place
    requires HasPlace(f, q)
  {
    Place(q.l, |Without(f.blocks[q.l].body[..q.k], {id})|)
  }

  lemma PlaceStays(f: Fn, id: Id, q: Place)
    requires HasPlace(f, q) && InstrAt(f, q).id != id
    ensures HasPlace(Erase(f, id), PlaceAfter(f, id, q)) && InstrAt(Erase(f, id), PlaceAfter(f, id, q)) == InstrAt(f, q)
  {
    var body := f.blocks[q.l].body;
    assert body == body[..q.k] + ([body[q.k]] + body[q.k + 1..]);
    WithoutAppend(body[..q.k], [body[q.k]] + body[q.k + 1..], {id});
    WithoutAppend([body[q.k]], body[q.k + 1..], {id});
    assert [body[q.k]][1..] == [];
  }

  lemma SameOrder(f: Fn, id: Id, p: Place, q: Place)
    requires HasPlace(f, p) && HasPlace(f, q) && InstrAt(f, p).id != id && InstrAt(f, q).id != id
    ensures PlaceAfter(f, id, p) == PlaceAfter(f, id, q) <==> p == q
    ensures p.l == q.l ==> (PlaceAfter(f, id, p).k < PlaceAfter(f, id, q).k <==> p.k < q.k)
  {
    if p.l == q.l {
      if p.k < q.k {
        OrderKept(f.blocks[p.l].body, {id}, p.k, q.k);
      } else if q.k < p.k {
        OrderKept(f.blocks[p.l].body, {id}, q.k, p.k);
      }
    }
  }

  // Control flow and post-dominance

  lemma EdgesKept(f: Fn, id: Id)
    ensures forall a, b :: IsEdge(Erase(f, id), a, b) <==> IsEdge(f, a, b)
    ensures Closed(f) ==> Closed(Erase(f, id))
  {
    forall a, b
      ensures IsEdge(Erase(f, id), a, b) <==> IsEdge(f, a, b)
    {
    }
    if Closed(f) {
      forall a, b | IsEdge(Erase(f, id), a, b)
        ensures b in f.blocks && b != f.entry
      {
        assert IsEdge(f, a, b);
      }
    }
  }

  /** The post-dominator tree, asked by instruction. */
  ghost predicate PdtSound(f: Fn, pdt: (Id, Id) -> bool) {
    forall s, p :: HasPlace(f, s) && HasPlace(f, p) && pdt(InstrAt(f, s).id, InstrAt(f, p).id) ==> PostDominates(f, s, p)
  }

  lemma PostDominatesKept(f: Fn, id: Id, s: Place, p: Place)
    requires HasPlace(f, s) && HasPlace(f, p) && InstrAt(f, s).id != id && InstrAt(f, p).id != id
    ensures PostDominates(Erase(f, id), PlaceAfter(f, id, s), PlaceAfter(f, id, p)) <==> PostDominates(f, s, p)
  {
    var g := Erase(f, id);
    EdgesKept(f, id);
    SameOrder(f, id, p, s);
    forall path
      ensures PathFrom(g, path, p.l) <==> PathFrom(f, path, p.l)
    {
    }
  }

  lemma PdtKept(f: Fn, pdt: (Id, Id) -> bool, id: Id)
    requires PdtSound(f, pdt)
    ensures PdtSound(Erase(f, id), pdt)
  {
    var g := Erase(f, id);
    forall s', p' | HasPlace(g, s') && HasPlace(g, p') && pdt(InstrAt(g, s').id, InstrAt(g, p').id)
      ensures PostDominates(g, s', p')
    {
      var s := PlaceBefore(f, id, s');
      var p := PlaceBefore(f, id, p');
      assert PostDominates(f, s, p);
      PostDominatesKept(f, id, s, p);
    }
  }

  // What lies between two stores

  lemma RegionKept(f: Fn, id: Id, p: Place, s: Place)
    requires HasPlace(f, p) && HasPlace(f, s) && InstrAt(f, p).id != id && InstrAt(f, s).id != id
    ensures Region(Erase(f, id), PlaceAfter(f, id, p), PlaceAfter(f, id, s)) == Region(f, p, s)
  {
    var g, p', s' := Erase(f, id), PlaceAfter(f, id, p), PlaceAfter(f, id, s);
    EdgesKept(f, id);
    SameOrder(f, id, s, p);
    forall l
      ensures Exposed(g, p', s', l) <==> Exposed(f, p, s, l)
    {
      if path :| Escapes(f, p, s, path) && Last(path) == l {
        assert Escapes(g, p', s', path);
      }
      if path :| Escapes(g, p', s', path) && Last(path) == l {
        assert Escapes(f, p, s, path);
      }
    }
  }

  /** Whether the earlier store is exposed does not depend on what else is there. */
  lemma {:induction false} OpenKept(f: Fn, id: Id, p: Place, s: Place, r: set<Label>, l: Label, k: nat)
    requires HasPlace(f, p) && HasPlace(f, s) && InstrAt(f, p).id != id && InstrAt(f, s).id != id
    requires l in f.blocks && k <= |f.blocks[l].body|
    ensures OpenAt(PlaceAfter(f, id, p), PlaceAfter(f, id, s), r, l, |Without(f.blocks[l].body[..k], {id})|) <==> OpenAt(p, s, r, l, k)
    decreases k
  {
    if k > 0 {
      var body := f.blocks[l].body;
      var q := Place(l, k - 1);
      OpenKept(f, id, p, s, r, l, k - 1);
      assert body[..k] == body[..k - 1] + [body[k - 1]];
      WithoutAppend(body[..k - 1], [body[k - 1]], {id});
      assert [body[k - 1]][1..] == [];
      assert InstrAt(f, q) == body[k - 1];
      if body[k - 1].id != id {
        SameOrder(f, id, q, p);
        SameOrder(f, id, q, s);
      }
    }
  }

  /** What is kept of a function between two stores is as quiet as it was. */
  lemma NoneBetweenKept(f: Fn, aa: AAResults, id: Id, p: Place, s: Place)
    requires StoreAt(f, p) && HasPlace(f, s) && InstrAt(f, p).id != id && InstrAt(f, s).id != id && NoneBetween(f, aa, p, s)
    ensures StoreAt(Erase(f, id), PlaceAfter(f, id, p))
    ensures NoneBetween(Erase(f, id), aa, PlaceAfter(f, id, p), PlaceAfter(f, id, s))
  {
    var g, p', s', r := Erase(f, id), PlaceAfter(f, id, p), PlaceAfter(f, id, s), Region(f, p, s);
    PlaceStays(f, id, p);
    RegionKept(f, id, p, s);
    forall q' | HasPlace(g, q') && q' != p' && q' != s' && OpenAt(p', s', r, q'.l, q'.k)
      ensures QuietInstr(aa, StoreLocation(InstrAt(f, p)), InstrAt(g, q'))
    {
      var q := PlaceBefore(f, id, q');
      OpenKept(f, id, p, s, r, q.l, q.k);
      assert q != p && q != s;
    }
    forall l | l in g.blocks && OpenAt(p', s', r, l, |g.blocks[l].body|)
      ensures !g.blocks[l].term.IndirectBr?
    {
      var body := f.blocks[l].body;
      assert body[..|body|] == body;
      OpenKept(f, id, p, s, r, l, |body|);
    }
  }

  /** A store that has been erased was no obstacle. */
  lemma NoneBetweenBefore(f: Fn, aa: AAResults, id: Id, p: Place, s: Place)
    requires StoreAt(f, p) && HasPlace(f, s) && InstrAt(f, p).id != id && InstrAt(f, s).id != id && NamesStore(f, id)
    requires StoreAt(Erase(f, id), PlaceAfter(f, id, p))
    requires NoneBetween(Erase(f, id), aa, PlaceAfter(f, id, p), PlaceAfter(f, id, s))
    ensures NoneBetween(f, aa, p, s)
  {
    var g, p', s', r := Erase(f, id), PlaceAfter(f, id, p), PlaceAfter(f, id, s), Region(f, p, s);
    PlaceStays(f, id, p);
    RegionKept(f, id, p, s);
    forall q | HasPlace(f, q) && q != p && q != s && OpenAt(p, s, r, q.l, q.k)
      ensures QuietInstr(aa, StoreLocation(InstrAt(f, p)), InstrAt(f, q))
    {
      if InstrAt(f, q).id != id {
        PlaceStays(f, id, q);
        OpenKept(f, id, p, s, r, q.l, q.k);
        SameOrder(f, id, q, p);
        SameOrder(f, id, q, s);
      }
    }
    forall l | l in f.blocks && OpenAt(p, s, r, l, |f.blocks[l].body|)
      ensures !f.blocks[l].term.IndirectBr?
    {
      var body := f.blocks[l].body;
      assert body[..|body|] == body;
      OpenKept(f, id, p, s, r, l, |body|);
    }
  }

  // Alias analysis

  /** Marking goes through every prefix of a body it goes through. */
  lemma {:induction false} MarkPrefix(p: Id, body: seq<Instr>, k: nat, inp: Input, env: Env, w: World, d: set<int>)
    requires k <= |body| && MarkBody(p, body, inp, env, w, d).Some?
    ensures MarkBody(p, body[..k], inp, env, w, d).Some?
    decreases k
  {
    if k > 0 {
      assert body[..k][0] == body[0] && body[..k][1..] == body[1..][..k - 1];
      var s := ExecInstr(body[0], inp, env, w);
      if s.Ok? {
        MarkPrefix(p, body[1..], k - 1, inp, s.env, s.w, Mark(p, body[0], inp, env, w, d).value);
      }
    }
  }

  /** Every moment of a run without the store is a moment of the run with it, before the same instruction. */
  lemma MomentBefore(ok: Inputs, f: Fn, p: Id, inp: Input, n: nat, k': nat) returns (k: nat)
    requires NamesStore(f, p) && Unread(ok, f, p) && ok(inp) && EnvAt(Erase(f, p), inp, n, k').Some?
    ensures EnvAt(f, inp, n, k) == EnvAt(Erase(f, p), inp, n, k')
    ensures Run(f, inp, n).At? && Run(f, inp, n).lbl == Run(Erase(f, p), inp, n).lbl && Run(f, inp, n).lbl in f.blocks
    ensures var body := f.blocks[Run(f, inp, n).lbl].body; k <= |body| && |Without(body[..k], {p})| == k'
    ensures Next(Erase(f, p), inp, n, k').Some? ==> Next(f, inp, n, k) == Next(Erase(f, p), inp, n, k')
  {
    var g := Erase(f, p);
    EraseKeepsUp(f, p, inp, n);
    var c, c' := Run(f, inp, n), Run(g, inp, n);
    assert c.At? && c'.lbl == c.lbl && c.env == c'.env;
    var b := f.blocks[c.lbl];
    var d := MarkRun(f, p, inp, n).value;
    assert MarkRun(f, p, inp, n + 1).Some?;
    PhisAnyWorld(b.phis, c.prev, inp, c.env, c.env, c.w, c'.w);
    var s := ExecPhis(b.phis, c.prev, inp, c.env, c.env, c.w);
    k := WithoutPrefix(b.body, {p}, k');
    MarkPrefix(p, b.body, k, inp, s.env, c.w, d);
    BodyErased(p, b.body[..k], inp, s.env, c.w, c'.w, d);
  }

  /** Whether a run has the store still exposed does not depend on what else is there. */
  lemma OpenNowKept(f: Fn, id: Id, p: Place, s: Place, inp: Input, n: nat, k: nat)
    requires HasPlace(f, p) && HasPlace(f, s) && InstrAt(f, p).id != id && InstrAt(f, s).id != id
    requires var c, c' := Run(f, inp, n), Run(Erase(f, id), inp, n);
             c.At? && c'.At? && c.lbl == c'.lbl && c.lbl in f.blocks && k <= |f.blocks[c.lbl].body|
    requires EnteredOpen(Erase(f, id), PlaceAfter(f, id, p), PlaceAfter(f, id, s), inp, n) <==> EnteredOpen(f, p, s, inp, n)
    ensures OpenNow(Erase(f, id), PlaceAfter(f, id, p), PlaceAfter(f, id, s), inp, n, |Without(f.blocks[Run(f, inp, n).lbl].body[..k], {id})|)
            <==> OpenNow(f, p, s, inp, n, k)
  {
    var l := Run(f, inp, n).lbl;
    OpenKept(f, id, p, s, if EnteredOpen(f, p, s, inp, n) then {l} else {}, l, k);
  }

  lemma {:induction false} EnteredOpenKept(f: Fn, id: Id, p: Place, s: Place, inp: Input, n: nat)
    requires NamesStore(f, id) && MarkRun(f, id, inp, n).Some?
    requires HasPlace(f, p) && HasPlace(f, s) && InstrAt(f, p).id != id && InstrAt(f, s).id != id
    ensures EnteredOpen(Erase(f, id), PlaceAfter(f, id, p), PlaceAfter(f, id, s), inp, n) <==> EnteredOpen(f, p, s, inp, n)
  {
    if n > 0 {
      assert MarkRun(f, id, inp, n - 1).Some?;
      hide EnteredOpen, MarkRun, NamesStore, Run, Erase, PlaceAfter;
      EnteredOpenKept(f, id, p, s, inp, n - 1);
      EnteredOpenStep(f, id, p, s, inp, n - 1);
    } else {
      NotEntered(f, p, s, inp);
      NotEntered(Erase(f, id), PlaceAfter(f, id, p), PlaceAfter(f, id, s), inp);
    }
  }

  lemma NotEntered(f: Fn, p: Place, s: Place, inp: Input)
    ensures !EnteredOpen(f, p, s, inp, 0)
  {
  }

  lemma EnteredOpenStep(f: Fn, id: Id, p: Place, s: Place, inp: Input, n: nat)
    requires NamesStore(f, id) && MarkRun(f, id, inp, n).Some?
    requires HasPlace(f, p) && HasPlace(f, s) && InstrAt(f, p).id != id && InstrAt(f, s).id != id
    requires EnteredOpen(Erase(f, id), PlaceAfter(f, id, p), PlaceAfter(f, id, s), inp, n) <==> EnteredOpen(f, p, s, inp, n)
    ensures EnteredOpen(Erase(f, id), PlaceAfter(f, id, p), PlaceAfter(f, id, s), inp, n + 1) <==> EnteredOpen(f, p, s, inp, n + 1)
  {
    var g, c := Erase(f, id), Run(f, inp, n);
    EraseKeepsUp(f, id, inp, n);
    EnteredNext(f, p, s, inp, n);
    EnteredNext(g, PlaceAfter(f, id, p), PlaceAfter(f, id, s), inp, n);
    hide EnteredOpen, OpenNow, MarkRun, Run, PlaceAfter;
    if c.At? && c.lbl in f.blocks {
      var body := f.blocks[c.lbl].body;
      assert body[..|body|] == body;
      OpenNowKept(f, id, p, s, inp, n, |body|);
    }
  }

  /** The pairs of stores for which the rule is right if what the analysis says of them is. */
  ghost predicate Covers(f: Fn, aa: AAResults, p: Place, s: Place) {
    Overwrites(f, aa, p, s) && PostDominates(f, s, p) && NoneBetween(f, aa, p, s)
  }

  /** On these inputs the answers that such a pair relies on are right, from the one store to the other. */
  ghost predicate AliasSound(ok: Inputs, f: Fn, aa: AAResults) {
    forall p, s :: Covers(f, aa, p, s) ==> AliasRight(ok, f, aa, p, s)
  }

  lemma AlwaysSound(ok: Inputs, f: Fn, aa: AAResults)
    requires AliasAlways(ok, f, aa)
    ensures AliasSound(ok, f, aa)
  {
    forall p, s | Covers(f, aa, p, s)
      ensures AliasRight(ok, f, aa, p, s)
    {
      AlwaysRight(ok, f, aa, p, s);
    }
  }

  lemma CoversBefore(f: Fn, aa: AAResults, id: Id, p': Place, s': Place) returns (p: Place, s: Place)
    requires NamesStore(f, id) && Covers(Erase(f, id), aa, p', s')
    ensures Covers(f, aa, p, s) && InstrAt(f, p).id != id && InstrAt(f, s).id != id
    ensures p' == PlaceAfter(f, id, p) && s' == PlaceAfter(f, id, s) && InstrAt(f, p) == InstrAt(Erase(f, id), p')
  {
    p := PlaceBefore(f, id, p');
    s := PlaceBefore(f, id, s');
    PostDominatesKept(f, id, s, p);
    NoneBetweenBefore(f, aa, id, p, s);
  }

  lemma AliasKept(ok: Inputs, f: Fn, aa: AAResults, id: Id)
    requires NamesStore(f, id) && Unread(ok, f, id) && AliasSound(ok, f, aa)
    ensures AliasSound(ok, Erase(f, id), aa)
  {
    var g := Erase(f, id);
    forall p', s' | Covers(g, aa, p', s')
      ensures AliasRight(ok, g, aa, p', s')
    {
      var p, s := CoversBefore(f, aa, id, p', s');
      forall inp: Input, n: nat, k': nat | ok(inp) && EnvAt(g, inp, n, k').Some? && Next(g, inp, n, k').Some? && OpenNow(g, p', s', inp, n, k')
        ensures AliasHolds(aa, Next(g, inp, n, k').value, StoreLocation(InstrAt(g, p')), inp, EnvAt(g, inp, n, k').value)
      {
        AliasHoldsStill(ok, f, aa, id, p, s, inp, n, k');
      }
    }
  }

  lemma AliasHoldsStill(ok: Inputs, f: Fn, aa: AAResults, id: Id, p: Place, s: Place, inp: Input, n: nat, k': nat)
    requires NamesStore(f, id) && Unread(ok, f, id) && ok(inp)
    requires StoreAt(f, p) && HasPlace(f, s) && InstrAt(f, p).id != id && InstrAt(f, s).id != id && AliasRight(ok, f, aa, p, s)
    requires var g := Erase(f, id);
             EnvAt(g, inp, n, k').Some? && Next(g, inp, n, k').Some? && OpenNow(g, PlaceAfter(f, id, p), PlaceAfter(f, id, s), inp, n, k')
    ensures var g := Erase(f, id);
            AliasHolds(aa, Next(g, inp, n, k').value, StoreLocation(InstrAt(f, p)), inp, EnvAt(g, inp, n, k').value)
  {
    var k := MomentBefore(ok, f, id, inp, n, k');
    assert MarkRun(f, id, inp, n).Some?;
    EnteredOpenKept(f, id, p, s, inp, n);
    OpenNowKept(f, id, p, s, inp, n, k);
  }

  // Everything together

  /** Everything the rule relies on: control flow, absence of faults, and right answers from both analyses, on these inputs. */
  ghost predicate AnalysesOk(ok: Inputs, f: Fn, aa: AAResults, pdt: (Id, Id) -> bool) {
    Closed(f) && SafeFor(ok, f) && AliasSound(ok, f, aa) && PdtSound(f, pdt)
  }

  lemma AnalysesKept(ok: Inputs, f: Fn, aa: AAResults, pdt: (Id, Id) -> bool, p: Place, s: Place)
    requires AnalysesOk(ok, f, aa, pdt) && Overwrites(f, aa, p, s) && OnlyAt(f, p)
    requires PostDominates(f, s, p) && NoneBetween(f, aa, p, s)
    ensures AnalysesOk(ok, Erase(f, InstrAt(f, p).id), aa, pdt)
    ensures SameFor(ok, f, Erase(f, InstrAt(f, p).id))
  {
    var id := InstrAt(f, p).id;
    DeadStoreUnread(ok, f, aa, p, s);
    OnlyStore(f, p);
    UnreadSameBehaviour(ok, f, id);
    AliasKept(ok, f, aa, id);
    SafeForKept(ok, f, Erase(f, id));
    EdgesKept(f, id);
    PdtKept(f, pdt, id);
  }
}
