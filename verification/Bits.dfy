/** Fixed-width integer arithmetic: powers of two and bitwise operators on naturals. */
module Bits {

  function Pow2(w: nat): (p: nat)
    ensures p > 0
  {
    if w == 0 then 1 else 2 * Pow2(w - 1)
  }

  /** The value of x in a register of w bits: its w lowest bits, in two's complement. */
  function Wrap(x: int, w: nat): (r: nat)
    ensures r < Pow2(w)
    decreases w, x
  {
    if w == 0 then 0 else x % 2 + 2 * Wrap(x / 2, w - 1)
  }

  function And(a: nat, b: nat): nat
    decreases a
  {
    if a == 0 then 0 else (a % 2) * (b % 2) + 2 * And(a / 2, b / 2)
  }

  function Xor(a: nat, b: nat): nat
    decreases a + b
  {
    if a == 0 && b == 0 then 0 else (if a % 2 == b % 2 then 0 else 1) + 2 * Xor(a / 2, b / 2)
  }

  function Or(a: nat, b: nat): nat
    decreases a + b
  {
    if a == 0 && b == 0 then 0 else (if a % 2 == 0 && b % 2 == 0 then 0 else 1) + 2 * Or(a / 2, b / 2)
  }

  lemma WrapParity(x: int, w: nat)
    requires w > 0
    ensures Wrap(x, w) % 2 == x % 2
  {
  }

  // Identities

  lemma Pow2Of8()
    ensures Pow2(8) == 256
  {
    assert Pow2(2) == 4;
    assert Pow2(4) == 16;
    assert Pow2(6) == 64;
  }

  /** Addition splits into the sum without carries and twice the carries. */
  lemma {:induction false} XorPlusTwiceAnd(a: nat, b: nat)
    ensures Xor(a, b) + 2 * And(a, b) == a + b
    decreases a + b
  {
    if a != 0 || b != 0 {
      XorPlusTwiceAnd(a / 2, b / 2);
      if a == 0 {
        AndZero(b);
        AndZero(b / 2);
      }
      assert a % 2 == 0 || a % 2 == 1;
      assert b % 2 == 0 || b % 2 == 1;
    }
  }

  lemma AndZero(b: nat)
    ensures And(0, b) == 0
  {
  }

  lemma {:induction false} XorBelow(a: nat, b: nat, w: nat)
    requires a < Pow2(w) && b < Pow2(w)
    ensures Xor(a, b) < Pow2(w)
  {
    if w > 0 {
      XorBelow(a / 2, b / 2, w - 1);
    }
  }

  lemma XorStep(a: nat, b: nat)
    ensures Xor(a, b) == (if a % 2 == b % 2 then 0 else 1) + 2 * Xor(a / 2, b / 2)
  {
  }

  /** Complementing a register: x xor all ones is all ones minus x. */
  lemma {:induction false} XorOnes(x: nat, w: nat)
    requires x < Pow2(w)
    ensures Xor(x, Pow2(w) - 1) == Pow2(w) - 1 - x
  {
    if w > 0 {
      var h := Pow2(w - 1);
      XorOnes(x / 2, w - 1);
      XorStep(x, 2 * h - 1);
      assert (2 * h - 1) / 2 == h - 1 && (2 * h - 1) % 2 == 1;
    }
  }

  lemma {:induction false} ModShift(x: int, k: int, m: nat)
    requires m > 0
    ensures (x + k * m) % m == x % m
    decreases if k < 0 then -k else k
  {
    var q := x / m;
    assert x == q * m + x % m;
    assert x + k * m == (q + k) * m + x % m;
    ModUnique(x + k * m, q + k, x % m, m);
  }

  lemma MultipleIsFar(d: int, m: int)
    requires m > 0
    ensures d >= 1 ==> d * m >= m
    ensures d <= -1 ==> d * m <= -m
  {
    assert d >= 1 ==> (d - 1) * m >= 0;
    assert d <= -1 ==> (-1 - d) * m >= 0;
  }

  /** Quotient and remainder are unique. */
  lemma ModUnique(x: int, q: int, r: nat, m: nat)
    requires r < m && x == q * m + r
    ensures x % m == r
  {
    assert x == (x / m) * m + x % m;
    assert (x / m - q) * m == r - x % m;
    MultipleIsFar(x / m - q, m);
  }

  /** Keeping w bits is reducing modulo 2 to the w. */
  lemma {:induction false} WrapIsMod(x: int, w: nat)
    ensures Wrap(x, w) == x % Pow2(w)
    decreases w
  {
    if w > 0 {
      WrapIsMod(x / 2, w - 1);
      HalfMod(x, Pow2(w - 1));
    }
  }

  lemma HalfMod(x: int, h: nat)
    requires h > 0
    ensures x % (2 * h) == x % 2 + 2 * ((x / 2) % h)
  {
    var q, r := (x / 2) / h, (x / 2) % h;
    assert x / 2 == q * h + r;
    assert x == q * (2 * h) + (2 * r + x % 2);
    ModUnique(x, q, 2 * r + x % 2, 2 * h);
  }

  lemma WrapSmall(x: nat, w: nat)
    requires x < Pow2(w)
    ensures Wrap(x, w) == x
  {
    WrapIsMod(x, w);
    ModUnique(x, 0, x, Pow2(w));
  }

  /** Adding multiples of the modulus changes nothing. */
  lemma WrapShift(x: int, k: int, w: nat)
    ensures Wrap(x + k * Pow2(w), w) == Wrap(x, w)
  {
    WrapIsMod(x, w);
    WrapIsMod(x + k * Pow2(w), w);
    ModShift(x, k, Pow2(w));
  }

  lemma WrapTwice(x: int, w: nat)
    ensures Wrap(Wrap(x, w), w) == Wrap(x, w)
  {
    hide Wrap, Pow2;
    WrapSmall(Wrap(x, w), w);
  }

  /** Operands of a sum may be wrapped first. */
  lemma WrapSum(x: int, y: int, w: nat)
    ensures Wrap(Wrap(x, w) + Wrap(y, w), w) == Wrap(x + y, w)
  {
    var m := Pow2(w);
    WrapIsMod(x, w);
    WrapIsMod(y, w);
    hide Wrap, Pow2;
    var a, b, k := Wrap(x, w), Wrap(y, w), x / m + y / m;
    assert x + y == a + b + k * m by {
      assert x == (x / m) * m + a && y == (y / m) * m + b;
    }
    WrapShift(a + b, k, w);
  }

  lemma WrapSumRight(a: int, x: int, w: nat)
    ensures Wrap(a + Wrap(x, w), w) == Wrap(a + x, w)
  {
    hide Wrap, Pow2;
    WrapSum(a, x, w);
    WrapSum(a, Wrap(x, w), w);
    WrapTwice(x, w);
  }

  lemma {:induction false} ProductMod(q: int, r: int, p: int, s: int, m: nat)
    requires m > 0
    ensures ((q * m + r) * (p * m + s)) % m == (r * s) % m
  {
    var y := p * m + s;
    assert (q * m + r) * y == (q * m) * y + r * y;
    assert r * y == (r * p) * m + r * s;
    assert (q * m) * y == (q * y) * m;
    assert (q * m + r) * y == r * s + (q * y + r * p) * m;
    ModShift(r * s, q * y + r * p, m);
  }

  lemma WrapProduct(x: int, y: int, w: nat)
    ensures Wrap(Wrap(x, w) * Wrap(y, w), w) == Wrap(x * y, w)
  {
    var m := Pow2(w);
    WrapIsMod(x, w);
    WrapIsMod(y, w);
    WrapIsMod(x * y, w);
    WrapIsMod(Wrap(x, w) * Wrap(y, w), w);
    hide Wrap, Pow2;
    assert x == (x / m) * m + x % m && y == (y / m) * m + y % m;
    ProductMod(x / m, x % m, y / m, y % m, m);
  }

  lemma WrapProductRight(a: int, x: int, w: nat)
    ensures Wrap(a * Wrap(x, w), w) == Wrap(a * x, w)
  {
    hide Wrap, Pow2;
    WrapProduct(a, x, w);
    WrapProduct(a, Wrap(x, w), w);
    WrapTwice(x, w);
  }
}
