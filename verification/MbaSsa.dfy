/** Substituting arithmetic leaves a well-formed function well formed: the temporaries are fresh and each is defined before it is read. */
module MbaSsa {
  import opened Ir
  import opened Ssa
  import opened Graph
  import opened Removal
  import opened Mba

  // Names

  predicate IdsBelow(n: Id, body: seq<Instr>) {
    forall k :: 0 <= k < |body| ==> body[k].id < n
  }

  /** Whatever has an old id stands for the instruction that had it. */
  ghost predicate OldOrNew(body: seq<Instr>, low: Id, high: Id, i: Instr) {
    (exists k :: 0 <= k < |body| && body[k].id == i.id) || low <= i.id < high
  }

  lemma PieceIds(r: Rule, i: Instr, n: Id, j: nat)
    requires j < |Piece(r, i, n)|
    ensures Piece(r, i, n)[j].id == i.id || n <= Piece(r, i, n)[j].id < n + if Matches(r, i) then Temps(r) else 0
  {
  }

  lemma PieceDistinct(r: Rule, i: Instr, n: Id)
    requires i.id < n
    ensures Distinct(Piece(r, i, n))
  {
  }

  lemma {:induction false} RewriteIds(r: Rule, body: seq<Instr>, n: Id)
    ensures forall q :: 0 <= q < |Rewrite(r, body, n)| ==> OldOrNew(body, n, After(r, body, n), Rewrite(r, body, n)[q])
    decreases |body|
  {
    if body != [] {
      var front, last := body[..|body| - 1], body[|body| - 1];
      var m := After(r, front, n);
      RewriteIds(r, front, n);
      assert body == front + [last];
      AfterNext(r, front, last, n);
      var start := |Rewrite(r, front, n)|;
      hide After, Piece, Matches;
      forall q | 0 <= q < |Rewrite(r, body, n)|
        ensures OldOrNew(body, n, After(r, body, n), Rewrite(r, body, n)[q])
      {
        if q < start {
          FrontIds(front, last, n, m, After(r, body, n), Rewrite(r, front, n)[q]);
        } else {
          PieceIds(r, last, m, q - start);
          assert body[|front|] == last;
        }
      }
    }
  }

  lemma FrontIds(front: seq<Instr>, last: Instr, n: Id, m: Id, m': Id, i: Instr)
    requires OldOrNew(front, n, m, i) && m <= m'
    ensures OldOrNew(front + [last], n, m', i)
  {
    if k :| 0 <= k < |front| && front[k].id == i.id {
      assert (front + [last])[k] == front[k];
    }
  }

  lemma {:induction false} RewriteDistinct(r: Rule, body: seq<Instr>, n: Id)
    requires Distinct(body) && IdsBelow(n, body)
    ensures Distinct(Rewrite(r, body, n))
    decreases |body|
  {
    if body != [] {
      var front, last := body[..|body| - 1], body[|body| - 1];
      var m := After(r, front, n);
      RewriteDistinct(r, front, n);
      PieceDistinct(r, last, m);
      RewriteIds(r, front, n);
      var xs, ys := Rewrite(r, front, n), Piece(r, last, m);
      forall j, k | 0 <= j < |xs| && 0 <= k < |ys|
        ensures xs[j].id != ys[k].id
      {
        PieceIds(r, last, m, k);
        assert OldOrNew(front, n, m, xs[j]);
      }
    }
  }

  // Definitions and uses within a body

  lemma BodyDefsAppend(a: seq<Instr>, b: seq<Instr>, j: nat)
    requires j <= |b|
    ensures BodyDefs(a + b, |a| + j) == BodyDefs(a, |a|) + BodyDefs(b, j)
  {
    forall i | i in BodyDefs(a, |a|) + BodyDefs(b, j)
      ensures i in BodyDefs(a + b, |a| + j)
    {
      if i in BodyDefs(a, |a|) {
        var k :| 0 <= k < |a| && !a[k].ty.Void? && a[k].id == i;
        assert (a + b)[k] == a[k];
      } else {
        var k :| 0 <= k < j && !b[k].ty.Void? && b[k].id == i;
        assert (a + b)[|a| + k] == b[k];
      }
    }
  }

  lemma PieceDefines(r: Rule, i: Instr, n: Id)
    requires !i.ty.Void?
    ensures i.id in BodyDefs(Piece(r, i, n), |Piece(r, i, n)|)
  {
    var p := Piece(r, i, n);
    assert p[|p| - 1].id == i.id && p[|p| - 1].ty == i.ty;
  }

  lemma {:induction false} RewriteDefines(r: Rule, body: seq<Instr>, n: Id)
    ensures BodyDefs(body, |body|) <= BodyDefs(Rewrite(r, body, n), |Rewrite(r, body, n)|)
    decreases |body|
  {
    if body != [] {
      var front, last := body[..|body| - 1], body[|body| - 1];
      var m := After(r, front, n);
      var xs, ys := Rewrite(r, front, n), Piece(r, last, m);
      RewriteDefines(r, front, n);
      assert body == front + [last];
      BodyDefsAppend(front, [last], 1);
      BodyDefsAppend(xs, ys, |ys|);
      if !last.ty.Void? {
        PieceDefines(r, last, m);
      }
    }
  }

  /** Every value read is known or defined earlier in the body. */
  ghost predicate ReadsKnown(body: seq<Instr>, known: iset<Id>) {
    forall k, a :: 0 <= k < |body| && 0 <= a < |body[k].args| ==> ReadKnown(body, k, body[k].args[a], known)
  }

  ghost predicate ReadKnown(body: seq<Instr>, k: nat, x: Operand, known: iset<Id>)
    requires k <= |body|
  {
    x.Local? ==> x.id in BodyDefs(body, k) || x.id in known
  }

  /** A substitution reads what the instruction read and its own temporaries, once they are there. */
  lemma PieceReads(r: Rule, i: Instr, n: Id, j: nat, a: nat)
    requires j < |Piece(r, i, n)| && a < |Piece(r, i, n)[j].args| && Piece(r, i, n)[j].args[a].Local?
    ensures var x := Piece(r, i, n)[j].args[a]; x in i.args || x.id in BodyDefs(Piece(r, i, n), j)
  {
    var p := Piece(r, i, n);
    var x := p[j].args[a];
    if Matches(r, i) && x !in i.args {
      var k := x.id - n;
      assert p[k].id == x.id && !p[k].ty.Void? && k < j;
    }
  }

  lemma {:induction false} RewriteReads(r: Rule, body: seq<Instr>, n: Id, known: iset<Id>)
    requires ReadsKnown(body, known)
    ensures ReadsKnown(Rewrite(r, body, n), known)
    decreases |body|
  {
    hide Matches;
    if body != [] {
      var front, last := body[..|body| - 1], body[|body| - 1];
      var xs, ys := Rewrite(r, front, n), Piece(r, last, After(r, front, n));
      assert body == front + [last];
      FrontReads(front, last, known);
      RewriteReads(r, front, n, known);
      RewriteDefines(r, front, n);
      RewriteStep(r, front, last, n);
      hide Rewrite, After, Piece, BodyDefs;
      var all: seq<Instr> := xs + ys;
      forall k, a | 0 <= k < |all| && 0 <= a < |all[k].args|
        ensures ReadKnown(all, k, all[k].args[a], known)
      {
        if k < |xs| {
          assert ReadKnown(xs, k, xs[k].args[a], known);
          PrefixDefs(xs, ys, k);
        } else {
          BodyDefsAppend(xs, ys, k - |xs|);
          if ys[k - |xs|].args[a].Local? {
            PieceReads(r, last, After(r, front, n), k - |xs|, a);
          }
        }
      }
    }
  }

  lemma RewriteStep(r: Rule, front: seq<Instr>, last: Instr, n: Id)
    ensures Rewrite(r, front + [last], n) == Rewrite(r, front, n) + Piece(r, last, After(r, front, n))
  {
    assert (front + [last])[..|front|] == front;
  }

  lemma PrefixDefs(a: seq<Instr>, b: seq<Instr>, k: nat)
    requires k <= |a|
    ensures BodyDefs(a + b, k) == BodyDefs(a, k)
  {
    assert forall j :: 0 <= j < k ==> (a + b)[j] == a[j];
  }

  lemma FrontReads(front: seq<Instr>, last: Instr, known: iset<Id>)
    requires ReadsKnown(front + [last], known)
    ensures ReadsKnown(front, known)
    ensures forall x :: x in last.args ==> ReadKnown(front, |front|, x, known)
  {
    var body := front + [last];
    forall k, a | 0 <= k < |front| && 0 <= a < |front[k].args|
      ensures ReadKnown(front, k, front[k].args[a], known)
    {
      assert ReadKnown(body, k, body[k].args[a], known);
      PrefixDefs(front, [last], k);
    }
    forall x | x in last.args
      ensures ReadKnown(front, |front|, x, known)
    {
      var a :| 0 <= a < |last.args| && last.args[a] == x;
      assert ReadKnown(body, |front|, body[|front|].args[a], known);
      PrefixDefs(front, [last], |front|);
    }
  }

  // Whole functions

  /** Where an item with an old id stood. */
  lemma SiteBefore(r: Rule, f: Fn, l: Label, s: Site) returns (t: Site)
    requires l in f.blocks && HasSite(RewriteFn(r, f, l), s)
    requires FreshNames(f)
    ensures var i := SiteId(RewriteFn(r, f, l), s);
            if f.nextId <= i then i < RewriteFn(r, f, l).nextId && s.l == l && s.InstrSite?
            else
              && HasSite(f, t) && SiteId(f, t) == i && t.l == s.l && t.PhiSite? == s.PhiSite?
              && (s.PhiSite? || s.l != l ==> t == s)
  {
    t := s;
    if s.InstrSite? && s.l == l {
      var body := f.blocks[l].body;
      RewriteIds(r, body, f.nextId);
      var i := Rewrite(r, body, f.nextId)[s.k];
      assert OldOrNew(body, f.nextId, After(r, body, f.nextId), i);
      if k :| 0 <= k < |body| && body[k].id == i.id {
        t := InstrSite(l, k);
      }
    }
    if HasSite(f, t) {
      assert SiteId(f, t) < f.nextId;
    }
  }

  lemma BodyIdsBelow(f: Fn, l: Label)
    requires FreshNames(f) && l in f.blocks
    ensures IdsBelow(f.nextId, f.blocks[l].body)
  {
    forall k | 0 <= k < |f.blocks[l].body|
      ensures f.blocks[l].body[k].id < f.nextId
    {
      assert SiteId(f, InstrSite(l, k)) < f.nextId;
    }
  }

  lemma RewriteUnique(r: Rule, f: Fn, l: Label)
    requires l in f.blocks && FreshNames(f) && Unique(f)
    ensures FreshNames(RewriteFn(r, f, l)) && Unique(RewriteFn(r, f, l))
  {
    var g := RewriteFn(r, f, l);
    forall s | HasSite(g, s)
      ensures SiteId(g, s) < g.nextId
    {
      var t := SiteBefore(r, f, l, s);
    }
    BodyDistinct(f, l);
    BodyIdsBelow(f, l);
    RewriteDistinct(r, f.blocks[l].body, f.nextId);
    forall s1, s2 | HasSite(g, s1) && HasSite(g, s2) && SiteId(g, s1) == SiteId(g, s2)
      ensures s1 == s2
    {
      var t1 := SiteBefore(r, f, l, s1);
      var t2 := SiteBefore(r, f, l, s2);
      assert SiteId(g, s1) < f.nextId ==> t1 == t2;
      if s1.InstrSite? && s1.l == l {
        assert g.blocks[l].body[s1.k].id == g.blocks[l].body[s2.k].id;
      }
    }
  }

  lemma RewriteKeepsDefs(r: Rule, f: Fn, l: Label, i: Id)
    requires l in f.blocks
    ensures KeepsDef(f, RewriteFn(r, f, l), i)
  {
    RewriteDefines(r, f.blocks[l].body, f.nextId);
  }

  lemma RewriteBlockUses(r: Rule, f: Fn, l: Label, x: Label)
    requires l in f.blocks && x in f.blocks && BodyUsesOk(f, x) && TermUsesOk(f, x)
    ensures BodyUsesOk(RewriteFn(r, f, l), x) && TermUsesOk(RewriteFn(r, f, l), x)
  {
    var g := RewriteFn(r, f, l);
    var b, b' := f.blocks[x], g.blocks[x];
    forall i
      ensures AvailIn(f, x, i) ==> AvailIn(g, x, i)
    {
      RewriteKeepsDefs(r, f, l, i);
      AvailKept(f, g, i);
    }
    RewriteDefines(r, b.body, f.nextId);
    var known := iset i | i in PhiDefs(b.phis) || AvailIn(f, x, i);
    assert ReadsKnown(b.body, known) by {
      forall k, a | 0 <= k < |b.body| && 0 <= a < |b.body[k].args|
        ensures ReadKnown(b.body, k, b.body[k].args[a], known)
      {
        assert UseOk(f, x, k, b.body[k].args[a]);
      }
    }
    RewriteReads(r, b.body, f.nextId, known);
    forall k, a | 0 <= k < |b'.body| && 0 <= a < |b'.body[k].args|
      ensures UseOk(g, x, k, b'.body[k].args[a])
    {
      assert ReadKnown(b'.body, k, b'.body[k].args[a], known);
    }
    forall a | 0 <= a < |TermArgs(b.term)|
      ensures UseOk(g, x, |b'.body|, TermArgs(b.term)[a])
    {
      assert UseOk(f, x, |b.body|, TermArgs(b.term)[a]);
    }
  }

  /** One definition per id, complete PHIs and dominated uses are kept when a block is rewritten. */
  lemma RewriteWellFormed(r: Rule, f: Fn, l: Label)
    requires WellFormed(f) && l in f.blocks
    ensures WellFormed(RewriteFn(r, f, l))
  {
    var g := RewriteFn(r, f, l);
    FrameKept(f, g);
    RewriteUnique(r, f, l);
    forall i
      ensures KeepsDef(f, g, i)
    {
      RewriteKeepsDefs(r, f, l, i);
    }
    forall x | x in g.blocks
      ensures BodyUsesOk(g, x) && TermUsesOk(g, x) && PhiUsesOk(g, x)
    {
      assert BodyUsesOk(f, x) && TermUsesOk(f, x) && PhiUsesOk(f, x);
      RewriteBlockUses(r, f, l, x);
      PhiUsesKept(f, g, x);
    }
  }
}
