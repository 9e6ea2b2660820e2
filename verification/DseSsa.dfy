/** Erasing a store leaves a well-formed function well formed. */
module DseSsa {
  import opened Ir
  import opened Ssa
  import opened Graph
  import opened Removal
  import opened Dse

  /** Where an item that stays stood. */
  lemma SiteBefore(f: Fn, id: Id, s: Site) returns (t: Site)
    requires HasSite(Erase(f, id), s)
    ensures HasSite(f, t) && SiteId(f, t) == SiteId(Erase(f, id), s)
    ensures t.l == s.l && t.PhiSite? == s.PhiSite? && (s.PhiSite? ==> t == s)
  {
    t := s;
    if s.InstrSite? {
      var k := WithoutFrom(f.blocks[s.l].body, {id}, s.k);
      t := InstrSite(s.l, k);
    }
  }

  lemma EraseUnique(f: Fn, id: Id)
    requires Unique(f)
    ensures Unique(Erase(f, id))
  {
    var g := Erase(f, id);
    forall s1, s2 | HasSite(g, s1) && HasSite(g, s2) && SiteId(g, s1) == SiteId(g, s2)
      ensures s1 == s2
    {
      var t1 := SiteBefore(f, id, s1);
      var t2 := SiteBefore(f, id, s2);
      assert t1 == t2;
      if s1.InstrSite? {
        BodyDistinct(f, s1.l);
        WithoutDistinct(f.blocks[s1.l].body, {id});
        var all := Without(f.blocks[s1.l].body, {id});
        assert all[s1.k].id == all[s2.k].id;
      }
    }
  }

  /** A store defines nothing, so nothing that is defined goes. */
  lemma EraseKeepsDefs(f: Fn, id: Id, i: Id)
    requires NamesStore(f, id)
    ensures KeepsDef(f, Erase(f, id), i)
  {
    forall l | DefinesIn(f, l, i)
      ensures DefinesIn(Erase(f, id), l, i)
    {
      var body, body' := f.blocks[l].body, Erase(f, id).blocks[l].body;
      if i in BodyDefs(body, |body|) {
        var k :| 0 <= k < |body| && !body[k].ty.Void? && body[k].id == i;
        var k' := WithoutKeeps(body, {id}, k);
        assert body'[k'] == body[k];
      }
    }
  }

  lemma EraseUse(f: Fn, id: Id, l: Label, k: nat, k': nat, x: Operand)
    requires NamesStore(f, id) && l in f.blocks && k <= |f.blocks[l].body| && UseOk(f, l, k, x)
    requires var body' := Erase(f, id).blocks[l].body;
             k' <= |body'| && forall j :: 0 <= j < k && f.blocks[l].body[j].id != id ==> f.blocks[l].body[j] in body'[..k']
    ensures UseOk(Erase(f, id), l, k', x)
  {
    var body, body' := f.blocks[l].body, Erase(f, id).blocks[l].body;
    if x.Local? {
      if x.id in BodyDefs(body, k) {
        var j :| 0 <= j < k && !body[j].ty.Void? && body[j].id == x.id;
        var m :| 0 <= m < k' && body'[..k'][m] == body[j];
        assert body'[m] == body[j];
      } else if x.id !in PhiDefs(f.blocks[l].phis) {
        EraseKeepsDefs(f, id, x.id);
        AvailKept(f, Erase(f, id), x.id);
      }
    }
  }

  lemma EraseUses(f: Fn, id: Id, l: Label)
    requires NamesStore(f, id) && l in f.blocks && BodyUsesOk(f, l) && TermUsesOk(f, l)
    ensures BodyUsesOk(Erase(f, id), l) && TermUsesOk(Erase(f, id), l)
  {
    var g := Erase(f, id);
    var b, b' := f.blocks[l], g.blocks[l];
    forall k', a | 0 <= k' < |b'.body| && 0 <= a < |b'.body[k'].args|
      ensures UseOk(g, l, k', b'.body[k'].args[a])
    {
      var k := WithoutFrom(b.body, {id}, k');
      assert UseOk(f, l, k, b.body[k].args[a]);
      EraseUse(f, id, l, k, k', b.body[k].args[a]);
    }
    forall j | 0 <= j < |b.body| && b.body[j].id != id
      ensures b.body[j] in b'.body[..|b'.body|]
    {
      WithoutIn(b.body, {id});
      assert b'.body[..|b'.body|] == b'.body;
    }
    forall a | 0 <= a < |TermArgs(b.term)|
      ensures UseOk(g, l, |b'.body|, TermArgs(b.term)[a])
    {
      assert UseOk(f, l, |b.body|, TermArgs(b.term)[a]);
      EraseUse(f, id, l, |b.body|, |b'.body|, TermArgs(b.term)[a]);
    }
  }

  /** One definition per id, complete PHIs and dominated uses are kept when a store is erased. */
  lemma EraseWellFormed(f: Fn, id: Id)
    requires WellFormed(f) && NamesStore(f, id)
    ensures WellFormed(Erase(f, id))
  {
    var g := Erase(f, id);
    FrameKept(f, g);
    EraseUnique(f, id);
    forall s | HasSite(g, s)
      ensures SiteId(g, s) < g.nextId
    {
      var t := SiteBefore(f, id, s);
    }
    forall i
      ensures KeepsDef(f, g, i)
    {
      EraseKeepsDefs(f, id, i);
    }
    forall l | l in g.blocks
      ensures BodyUsesOk(g, l) && TermUsesOk(g, l) && PhiUsesOk(g, l)
    {
      assert BodyUsesOk(f, l) && TermUsesOk(f, l) && PhiUsesOk(f, l);
      EraseUses(f, id, l);
      PhiUsesKept(f, g, l);
    }
  }
}
