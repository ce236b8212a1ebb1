/** Integer facts shared by the prime-field and the prime-number models:
    congruence modulo a positive number, divisibility and powers. */
module Modular {

  /** `x` and `y` leave the same remainder modulo `m`. */
  predicate Congruent(x: int, y: int, m: int)
    requires m > 0
  {
    (x - y) % m == 0
  }

  /** `d` divides `n`. */
  ghost predicate Divides(d: int, n: int)
  {
    exists k :: n == d * k
  }

  /** `b` to the power `e`. */
  function Power(b: nat, e: nat): nat
    decreases e
  {
    if e == 0 then 1 else b * Power(b, e - 1)
  }

  /** A multiple of `m` leaves no remainder. */
  lemma MultipleModZero(m: int, k: int)
    requires m > 0
    ensures (m * k) % m == 0
  {
    var q, r := (m * k) / m, (m * k) % m;
    assert m * k == m * q + r && 0 <= r < m;
    assert m * (k - q) == r;
    if k - q >= 1 {
      assert false;
    } else if k - q <= -1 {
      assert false;
    }
  }

  /** Congruence is a difference that is a multiple of the modulus. */
  lemma CongruentByMultiple(x: int, y: int, m: int, k: int)
    requires m > 0 && x - y == m * k
    ensures Congruent(x, y, m)
  {
    MultipleModZero(m, k);
  }

  /** The multiple a congruence stands for. */
  lemma CongruentMultiple(x: int, y: int, m: int)
    requires m > 0 && Congruent(x, y, m)
    ensures x - y == m * ((x - y) / m)
  {
  }

  /** Reduction keeps the congruence class. */
  lemma ModCongruent(x: int, m: int)
    requires m > 0
    ensures Congruent(x % m, x, m)
  {
    CongruentByMultiple(x % m, x, m, -(x / m));
  }

  lemma CongruentSymmetric(x: int, y: int, m: int)
    requires m > 0 && Congruent(x, y, m)
    ensures Congruent(y, x, m)
  {
    CongruentMultiple(x, y, m);
    CongruentByMultiple(y, x, m, -((x - y) / m));
  }

  lemma CongruentTransitive(x: int, y: int, z: int, m: int)
    requires m > 0 && Congruent(x, y, m) && Congruent(y, z, m)
    ensures Congruent(x, z, m)
  {
    CongruentMultiple(x, y, m);
    CongruentMultiple(y, z, m);
    CongruentByMultiple(x, z, m, (x - y) / m + (y - z) / m);
  }

  /** Congruences add up. */
  lemma CongruentAdd(x: int, y: int, u: int, v: int, m: int)
    requires m > 0 && Congruent(x, y, m) && Congruent(u, v, m)
    ensures Congruent(x + u, y + v, m)
  {
    CongruentMultiple(x, y, m);
    CongruentMultiple(u, v, m);
    CongruentByMultiple(x + u, y + v, m, (x - y) / m + (u - v) / m);
  }

  /** Congruences multiply. */
  lemma CongruentMul(x: int, y: int, u: int, v: int, m: int)
    requires m > 0 && Congruent(x, y, m) && Congruent(u, v, m)
    ensures Congruent(x * u, y * v, m)
  {
    var k, l := (x - y) / m, (u - v) / m;
    CongruentMultiple(x, y, m);
    CongruentMultiple(u, v, m);
    assert x * u - y * v == (x - y) * u + y * (u - v);
    assert x * u - y * v == m * (k * u + y * l);
    CongruentByMultiple(x * u, y * v, m, k * u + y * l);
  }

  /** Two reduced values in the same class are equal. */
  lemma CongruentReducedEqual(x: int, y: int, m: int)
    requires m > 0 && 0 <= x < m && 0 <= y < m && Congruent(x, y, m)
    ensures x == y
  {
    var k := (x - y) / m;
    CongruentMultiple(x, y, m);
    if k >= 1 {
      assert false;
    } else if k <= -1 {
      assert false;
    }
  }

  /** The reduced value of a class is the remainder of any member. */
  lemma CongruentMod(x: int, y: int, m: int)
    requires m > 0 && Congruent(x, y, m)
    ensures x % m == y % m
  {
    ModCongruent(x, m);
    ModCongruent(y, m);
    CongruentSymmetric(y % m, y, m);
    CongruentTransitive(x % m, x, y, m);
    CongruentTransitive(x % m, y, y % m, m);
    CongruentReducedEqual(x % m, y % m, m);
  }

  /** Powers add their exponents. */
  lemma {:induction false} PowerAdd(b: nat, e1: nat, e2: nat)
    ensures Power(b, e1 + e2) == Power(b, e1) * Power(b, e2)
    decreases e1
  {
    if e1 > 0 {
      PowerAdd(b, e1 - 1, e2);
      var p, q := Power(b, e1 - 1), Power(b, e2);
      assert Power(b, e1 + e2) == b * (p * q);
      MulAssociative(b, p, q);
    }
  }

  lemma MulAssociative(x: int, y: int, z: int)
    ensures x * (y * z) == (x * y) * z
  {
  }

  /** Powers of two are positive. */
  lemma {:induction false} PowerOfTwoPositive(e: nat)
    ensures Power(2, e) >= 1
    decreases e
  {
    if e > 0 {
      PowerOfTwoPositive(e - 1);
    }
  }

  /** Raising congruent bases to the same power keeps them congruent. */
  lemma {:induction false} CongruentPower(x: nat, y: nat, e: nat, m: int)
    requires m > 0 && Congruent(x, y, m)
    ensures Congruent(Power(x, e), Power(y, e), m)
    decreases e
  {
    if e == 0 {
      CongruentByMultiple(1, 1, m, 0);
    } else {
      CongruentPower(x, y, e - 1, m);
      CongruentMul(x, y, Power(x, e - 1), Power(y, e - 1), m);
    }
  }
}
