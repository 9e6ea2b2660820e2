/** Taking listed instructions out of a body: what stays, where it stood, and in which order. */
module Removal {
  import opened Ir

  /** No id is listed twice. */
  predicate Distinct(list: seq<Instr>) {
    forall j, k :: 0 <= j < |list| && 0 <= k < |list| && list[j].id == list[k].id ==> j == k
  }

  lemma {:induction false} WithoutNone(body: seq<Instr>, ids: set<Id>)
    requires forall k :: 0 <= k < |body| ==> body[k].id !in ids
    ensures Without(body, ids) == body
  {
    if body != [] {
      WithoutNone(body[1..], ids);
    }
  }

  lemma {:induction false} WithoutTwice(body: seq<Instr>, a: set<Id>, b: set<Id>)
    ensures Without(Without(body, a), b) == Without(body, a + b)
    decreases |body|
  {
    if body != [] {
      WithoutTwice(body[1..], a, b);
      var rest := Without(body[1..], a);
      if body[0].id in a {
        assert Without(body, a) == rest;
        assert Without(body, a + b) == Without(body[1..], a + b);
      } else {
        assert Without(body, a)[1..] == rest;
      }
    }
  }

  lemma {:induction false} WithoutAppend(a: seq<Instr>, b: seq<Instr>, ids: set<Id>)
    ensures Without(a + b, ids) == Without(a, ids) + Without(b, ids)
    decreases |a|
  {
    if a == [] {
      assert a + b == b;
    } else {
      assert (a + b)[1..] == a[1..] + b;
      WithoutAppend(a[1..], b, ids);
    }
  }

  lemma {:induction false} WithoutIn(body: seq<Instr>, ids: set<Id>)
    ensures forall i :: i in Without(body, ids) <==> i in body && i.id !in ids
    decreases |body|
  {
    if body != [] {
      WithoutIn(body[1..], ids);
      assert body == [body[0]] + body[1..];
    }
  }

  lemma {:induction false} WithoutShorter(body: seq<Instr>, ids: set<Id>)
    ensures |Without(body, ids)| <= |body|
  {
    if body != [] {
      WithoutShorter(body[1..], ids);
    }
  }

  lemma SplitWithout(body: seq<Instr>, pos: nat, ids: set<Id>)
    requires pos < |body|
    ensures var w := Without(body, ids);
            var k := |Without(body[..pos], ids)|;
            k <= pos && k <= |w| && w[k..] == Without([body[pos]] + body[pos + 1..], ids)
  {
    assert body == body[..pos] + ([body[pos]] + body[pos + 1..]);
    WithoutAppend(body[..pos], [body[pos]] + body[pos + 1..], ids);
    WithoutShorter(body[..pos], ids);
  }

  /** The first k' instructions that stay are what stays of some first k. */
  lemma {:induction false} WithoutPrefix(body: seq<Instr>, ids: set<Id>, k': nat) returns (k: nat)
    requires k' <= |Without(body, ids)|
    ensures k <= |body| && Without(body[..k], ids) == Without(body, ids)[..k']
    ensures k' < |Without(body, ids)| ==> k < |body| && body[k] == Without(body, ids)[k'] && body[k].id !in ids
    decreases |body|
  {
    if body == [] {
      k := 0;
    } else {
      var rest := Without(body[1..], ids);
      var all := Without(body, ids);
      if body[0].id in ids {
        assert all == rest;
        k := WithoutPrefix(body[1..], ids, k');
        k := k + 1;
        assert body[..k][1..] == body[1..][..k - 1];
      } else if k' == 0 {
        k := 0;
      } else {
        assert all[1..] == rest;
        k := WithoutPrefix(body[1..], ids, k' - 1);
        k := k + 1;
        assert body[..k][1..] == body[1..][..k - 1];
        assert all[..k'] == [body[0]] + rest[..k' - 1];
      }
    }
  }

  lemma OrderKept(body: seq<Instr>, ids: set<Id>, j: nat, k: nat)
    requires j < k <= |body| && body[j].id !in ids
    ensures |Without(body[..j], ids)| < |Without(body[..k], ids)|
  {
    assert body[..k] == body[..j] + [body[j]] + body[j + 1..k];
    WithoutAppend(body[..j] + [body[j]], body[j + 1..k], ids);
    WithoutAppend(body[..j], [body[j]], ids);
    assert [body[j]][1..] == [];
  }

  lemma WithoutKeeps(body: seq<Instr>, ids: set<Id>, k: nat) returns (k': nat)
    requires k < |body| && body[k].id !in ids
    ensures k' < |Without(body, ids)| && Without(body, ids)[k'] == body[k]
    ensures forall j :: 0 <= j < k && body[j].id !in ids ==> body[j] in Without(body, ids)[..k']
  {
    k' := |Without(body[..k], ids)|;
    assert body == body[..k] + ([body[k]] + body[k + 1..]);
    WithoutAppend(body[..k], [body[k]] + body[k + 1..], ids);
    assert Without(body, ids)[..k'] == Without(body[..k], ids);
    WithoutIn(body[..k], ids);
    forall j | 0 <= j < k && body[j].id !in ids
      ensures body[j] in Without(body, ids)[..k']
    {
      assert body[..k][j] == body[j];
    }
  }

  lemma WithoutFrom(body: seq<Instr>, ids: set<Id>, k': nat) returns (k: nat)
    requires k' < |Without(body, ids)|
    ensures k < |body| && Without(body, ids)[k'] == body[k] && body[k].id !in ids
    ensures forall j :: 0 <= j < k && body[j].id !in ids ==> body[j] in Without(body, ids)[..k']
  {
    k := WithoutPrefix(body, ids, k');
    WithoutIn(body[..k], ids);
    forall j | 0 <= j < k && body[j].id !in ids
      ensures body[j] in Without(body, ids)[..k']
    {
      assert body[..k][j] == body[j];
    }
  }

  lemma {:induction false} WithoutDistinct(body: seq<Instr>, ids: set<Id>)
    requires Distinct(body)
    ensures Distinct(Without(body, ids))
    decreases |body|
  {
    if body != [] {
      var rest := body[1..];
      assert forall j :: 0 <= j < |rest| ==> rest[j] == body[j + 1];
      WithoutDistinct(rest, ids);
      WithoutIn(rest, ids);
      forall j | 0 <= j < |Without(rest, ids)|
        ensures Without(rest, ids)[j].id != body[0].id
      {
        assert Without(rest, ids)[j] in rest;
        var k :| 0 <= k < |rest| && rest[k] == Without(rest, ids)[j];
        assert rest[k] == body[k + 1];
      }
    }
  }
}
