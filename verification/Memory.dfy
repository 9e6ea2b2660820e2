/** Memories that differ only on some bytes, and when an earlier store cannot be noticed. */
module Memory {
  import Bits
  import opened Semantics

  function Range(a: int, n: nat): (r: set<int>)
    ensures forall x :: x in r <==> a <= x < a + n
    decreases n
  {
    if n == 0 then {} else {a} + Range(a + 1, n - 1)
  }

  /** m and m' hold the same bytes outside d. */
  ghost predicate EqualOff(d: set<int>, m: map<int, int>, m': map<int, int>) {
    forall x :: x !in d ==> (x in m <==> x in m') && (x in m ==> m[x] == m'[x])
  }

  lemma EqualOffNothing(m: map<int, int>, m': map<int, int>)
    requires EqualOff({}, m, m')
    ensures m == m'
  {
    forall x
      ensures (x in m <==> x in m') && (x in m ==> m[x] == m'[x])
    {
      var none: set<int> := {};
      assert x !in none;
    }
    assert m.Keys == m'.Keys;
  }

  lemma {:induction false} ReadOff(d: set<int>, m: map<int, int>, m': map<int, int>, a: int, n: nat)
    requires EqualOff(d, m, m') && Range(a, n) !! d
    ensures ReadBytes(m, a, n) == ReadBytes(m', a, n)
    decreases n
  {
    if n > 0 {
      assert a in Range(a, n);
      assert Range(a + 1, n - 1) <= Range(a, n);
      ReadOff(d, m, m', a + 1, n - 1);
    }
  }

  /** A store through both memories makes its bytes equal. */
  lemma {:induction false} WriteBoth(d: set<int>, m: map<int, int>, m': map<int, int>, a: int, n: nat, v: int)
    requires EqualOff(d, m, m')
    ensures EqualOff(d - Range(a, n), WriteBytes(m, a, n, v), WriteBytes(m', a, n, v))
    decreases n
  {
    if n > 0 {
      var d1 := d - {a};
      WriteBoth(d1, m[a := v % 256], m'[a := v % 256], a + 1, n - 1, v / 256);
      assert d1 - Range(a + 1, n - 1) == d - Range(a, n);
    }
  }

  /** A store through one memory only can change nothing but its bytes. */
  lemma {:induction false} WriteOne(d: set<int>, m: map<int, int>, m': map<int, int>, a: int, n: nat, v: int)
    requires EqualOff(d, m, m')
    ensures EqualOff(d + Range(a, n), WriteBytes(m, a, n, v), m')
    decreases n
  {
    if n > 0 {
      WriteOne(d + {a}, m[a := v % 256], m', a + 1, n - 1, v / 256);
      assert d + {a} + Range(a + 1, n - 1) == d + Range(a, n);
    }
  }

  // When an overwritten store can be erased

  /** A run of loads, by address and size. */
  datatype Access = Access(addr: int, size: nat)

  function Overlap(a: int, n: nat, b: int, m: nat): bool {
    Range(a, n) * Range(b, m) != {}
  }

  /** Storing v first cannot be told from not storing it: the loads see the same, and so does who looks at memory at the end. */
  ghost predicate Unnoticed(a: int, n: nat, v: int, loads: seq<Access>, n2: nat, v2: int, mem: map<int, int>) {
    var mem1 := WriteBytes(mem, a, n, v);
    && (forall k :: 0 <= k < |loads| ==> ReadBytes(mem1, loads[k].addr, loads[k].size) == ReadBytes(mem, loads[k].addr, loads[k].size))
    && WriteBytes(mem1, a, n2, v2) == WriteBytes(mem, a, n2, v2)
  }

  /** What the deletion rule has to check of loads and sizes. */
  predicate Erasable(a: int, n: nat, loads: seq<Access>, n2: nat) {
    n <= n2 && forall k :: 0 <= k < |loads| ==> !Overlap(a, n, loads[k].addr, loads[k].size)
  }

  lemma ErasableIsUnnoticed(a: int, n: nat, v: int, loads: seq<Access>, n2: nat, v2: int, mem: map<int, int>)
    requires Erasable(a, n, loads, n2)
    ensures Unnoticed(a, n, v, loads, n2, v2, mem)
  {
    var mem1 := WriteBytes(mem, a, n, v);
    assert EqualOff({}, mem, mem);
    WriteOne({}, mem, mem, a, n, v);
    assert {} + Range(a, n) == Range(a, n);
    forall k | 0 <= k < |loads|
      ensures ReadBytes(mem1, loads[k].addr, loads[k].size) == ReadBytes(mem, loads[k].addr, loads[k].size)
    {
      assert !Overlap(a, n, loads[k].addr, loads[k].size);
      ReadOff(Range(a, n), mem1, mem, loads[k].addr, loads[k].size);
    }
    WriteBoth(Range(a, n), mem1, mem, a, n2, v2);
    assert Range(a, n) - Range(a, n2) == {};
    EqualOffNothing(WriteBytes(mem1, a, n2, v2), WriteBytes(mem, a, n2, v2));
  }

  function Pow256(j: nat): (p: nat)
    ensures p > 0
  {
    if j == 0 then 1 else 256 * Pow256(j - 1)
  }

  /** The written bytes: those of v, lowest first. */
  lemma {:induction false} WriteKeys(mem: map<int, int>, a: int, n: nat, v: int)
    ensures WriteBytes(mem, a, n, v).Keys == mem.Keys + Range(a, n)
    decreases n
  {
    if n > 0 {
      WriteKeys(mem[a := v % 256], a + 1, n - 1, v / 256);
      assert mem.Keys + {a} + Range(a + 1, n - 1) == mem.Keys + Range(a, n);
    } else {
      assert Range(a, n) == {};
    }
  }

  /** Storing 256^j puts a one into byte j and zeroes elsewhere. */
  lemma {:induction false} WriteOneBit(mem: map<int, int>, a: int, n: nat, j: nat)
    requires j < n && forall x :: x in mem ==> mem[x] == 0
    ensures var m := WriteBytes(mem, a, n, Pow256(j));
            a + j in m && m[a + j] == 1 && forall x :: x in m && x != a + j ==> m[x] == 0
    decreases n
  {
    if j == 0 {
      WriteZero(mem[a := 1], a + 1, n - 1);
      assert WriteBytes(mem, a, n, 1) == WriteBytes(mem[a := 1], a + 1, n - 1, 0);
      assert a in mem[a := 1];
    } else {
      assert Pow256(j) == 256 * Pow256(j - 1);
      WriteOneBit(mem[a := 0], a + 1, n - 1, j - 1);
    }
  }

  lemma {:induction false} WriteZero(mem: map<int, int>, a: int, n: nat)
    ensures forall x :: x in mem ==> x in WriteBytes(mem, a, n, 0)
    ensures forall x :: x in WriteBytes(mem, a, n, 0) ==>
              WriteBytes(mem, a, n, 0)[x] == if x in mem && !(a <= x < a + n) then mem[x] else 0
    decreases n
  {
    if n > 0 {
      assert WriteBytes(mem, a, n, 0) == WriteBytes(mem[a := 0], a + 1, n - 1, 0);
      WriteZero(mem[a := 0], a + 1, n - 1);
    }
  }

  /** A read that covers the one byte that is set does not see zero. */
  lemma {:induction false} ReadBit(mem: map<int, int>, b: int, m: nat, x: int)
    requires x in mem && mem[x] == 1 && forall y :: y in mem && y != x ==> mem[y] == 0
    ensures ReadBytes(mem, b, m) >= 0 && (b <= x < b + m ==> ReadBytes(mem, b, m) > 0)
    decreases m
  {
    if m > 0 {
      ReadBit(mem, b + 1, m - 1, x);
    }
  }

  lemma {:induction false} ReadNothing(b: int, m: nat)
    ensures ReadBytes(map[], b, m) == 0
    decreases m
  {
    if m > 0 {
      ReadNothing(b + 1, m - 1);
    }
  }

  /**
   Between two stores to the same address, the first can be erased for every stored value and every memory
   exactly when no load in between overlaps it and the second store is at least as wide.
   */
  lemma ErasureExact(a: int, n: nat, loads: seq<Access>, n2: nat, v2: int)
    ensures (forall mem: map<int, int>, v: int :: Unnoticed(a, n, v, loads, n2, v2, mem)) <==> Erasable(a, n, loads, n2)
  {
    if Erasable(a, n, loads, n2) {
      forall mem: map<int, int>, v: int
        ensures Unnoticed(a, n, v, loads, n2, v2, mem)
      {
        ErasableIsUnnoticed(a, n, v, loads, n2, v2, mem);
      }
    } else if n2 < n {
      WriteKeys(map[], a, n, 0);
      WriteKeys(map[], a, n2, v2);
      WriteKeys(WriteBytes(map[], a, n, 0), a, n2, v2);
      assert a + n2 in Range(a, n);
      assert !Unnoticed(a, n, 0, loads, n2, v2, map[]);
    } else {
      var k :| 0 <= k < |loads| && Overlap(a, n, loads[k].addr, loads[k].size);
      var x :| x in Range(a, n) * Range(loads[k].addr, loads[k].size);
      var v := Pow256(x - a);
      WriteOneBit(map[], a, n, x - a);
      ReadBit(WriteBytes(map[], a, n, v), loads[k].addr, loads[k].size, x);
      ReadNothing(loads[k].addr, loads[k].size);
      assert !Unnoticed(a, n, v, loads, n2, v2, map[]);
    }
  }
}
