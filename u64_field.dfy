/** The prime field over `u64` values, `U64Field<MODULUS>`: every operation
    widens its operands to 128 bits, combines them and reduces modulo the
    field's modulus. The modulus is the type's constant parameter; here it is
    the first argument `m` of every operation. */
module U64Field {
  import opened Modular

  /** The values of a `u64`. */
  type U64 = x: int | 0 <= x < 0x1_0000_0000_0000_0000

  /** The values of a `u128`, the width of every intermediate result. */
  type U128 = x: int | 0 <= x < 0x1_0000_0000_0000_0000_0000_0000_0000_0000

  /** The modulus of the field used by the element tests. */
  const Goldilocks: U64 := 18446744069414584321

  /** `add`: the sum fits in 128 bits and is reduced. */
  function Add(m: U64, a: U64, b: U64): (r: U64)
    requires m > 0
    ensures r < m && Congruent(r, a + b, m)
  {
    var sum: U128 := a + b;
    ModCongruent(sum, m);
    sum % m
  }

  /** `sub`: the modulus is added before `b` is taken away, so the 128-bit
      intermediate only underflows when `b` exceeds `a + m`. */
  function Sub(m: U64, a: U64, b: U64): (r: U64)
    requires m > 0 && b <= a + m
    ensures r < m && Congruent(r, a - b, m)
  {
    var difference: U128 := a + m - b;
    ModCongruent(difference, m);
    CongruentByMultiple(difference, a - b, m, 1);
    CongruentTransitive(difference % m, difference, a - b, m);
    difference % m
  }

  /** `neg`: the modulus minus `a` in 64 bits, with no reduction; it
      underflows when `a` exceeds the modulus. */
  function Neg(m: U64, a: U64): (r: U64)
    requires a <= m
    ensures r <= m && a + r == m
  {
    m - a
  }

  /** `mul`: the product of two 64-bit values fits in 128 bits. */
  function Mul(m: U64, a: U64, b: U64): (r: U64)
    requires m > 0
    ensures r < m && Congruent(r, a * b, m)
  {
    ProductFits(a, b);
    var product: U128 := a * b;
    ModCongruent(product, m);
    product % m
  }

  /** The bitwise exclusive or of two 64-bit values. */
  function Xor(a: U64, b: U64): U64
  {
    ((a as bv64) ^ (b as bv64)) as int
  }

  /** `pow`: Rust's `^` is exclusive or, so this reduces `a XOR b`, not `a`
      to the power `b`. */
  function Pow(m: U64, a: U64, b: U64): (r: U64)
    requires m > 0
    ensures r < m && Congruent(r, Xor(a, b), m)
  {
    ModCongruent(Xor(a, b), m);
    Xor(a, b) % m
  }

  /** Exponentiation modulo `m` by repeated `mul`: what a field's `pow`
      computes. */
  function PowMod(m: U64, a: U64, b: nat): (r: U64)
    requires m > 0
    ensures r < m && Congruent(r, Power(a, b), m)
    decreases b
  {
    if b == 0 then
      ModCongruent(1, m);
      1 % m
    else
      var p := PowMod(m, a, b - 1);
      var r := Mul(m, p, a);
      CongruentByMultiple(a, a, m, 0);
      CongruentMul(p, Power(a, b - 1), a, a, m);
      CongruentTransitive(r, p * a, Power(a, b - 1) * a, m);
      assert Power(a, b) == Power(a, b - 1) * a;
      r
  }

  /** `from_u64`: reduce. */
  function FromU64(m: U64, x: U64): (r: U64)
    requires m > 0
    ensures r < m && Congruent(r, x, m)
    ensures x < m ==> r == x
  {
    ModCongruent(x, m);
    x % m
  }

  /** `eq`: the stored values are compared as they are, not reduced. */
  function Eq(a: U64, b: U64): (r: bool)
    ensures r <==> a == b
  {
    a == b
  }

  /** Two values below 2^64 multiply to less than 2^128. */
  lemma ProductFits(a: U64, b: U64)
    ensures a * b < 0x1_0000_0000_0000_0000_0000_0000_0000_0000
  {
    ProductBelow(a, b, 0x1_0000_0000_0000_0000);
    assert 0x1_0000_0000_0000_0000 * 0x1_0000_0000_0000_0000 == 0x1_0000_0000_0000_0000_0000_0000_0000_0000;
  }

  lemma ProductBelow(a: nat, b: nat, n: nat)
    requires a < n && b < n
    ensures a * b < n * n
  {
    assert a * b <= a * n by {
      assert a * (n - b) >= 0;
    }
    assert a * n < n * n by {
      assert (n - a) * n > 0;
    }
  }

  // ---------------------------------------------------------------------
  // The field laws the operations keep, on reduced values

  /** Subtraction undoes addition. */
  lemma SubUndoesAdd(m: U64, a: U64, b: U64)
    requires 0 < m && a < m && b < m
    ensures Sub(m, Add(m, a, b), b) == a
  {
    var s := Add(m, a, b);
    var minusB: int := -(b as int);
    CongruentByMultiple(minusB, minusB, m, 0);
    CongruentAdd(s, a + b, minusB, minusB, m);
    CongruentTransitive(Sub(m, s, b), s - b, a, m);
    CongruentReducedEqual(Sub(m, s, b), a, m);
  }

  /** Addition undoes subtraction. */
  lemma AddUndoesSub(m: U64, a: U64, b: U64)
    requires 0 < m && a < m && b < m
    ensures Add(m, Sub(m, a, b), b) == a
  {
    var d := Sub(m, a, b);
    CongruentByMultiple(b, b, m, 0);
    CongruentAdd(d, a - b, b, b, m);
    CongruentTransitive(Add(m, d, b), d + b, a, m);
    CongruentReducedEqual(Add(m, d, b), a, m);
  }

  /** The negation is an additive inverse. */
  lemma NegIsInverse(m: U64, a: U64)
    requires 0 < m && a <= m
    ensures Add(m, a, Neg(m, a)) == 0
  {
    CongruentByMultiple(a + Neg(m, a), 0, m, 1);
    CongruentTransitive(Add(m, a, Neg(m, a)), a + Neg(m, a), 0, m);
    CongruentReducedEqual(Add(m, a, Neg(m, a)), 0, m);
  }

  /** Addition and multiplication do not depend on the operands' order. */
  lemma Commutative(m: U64, a: U64, b: U64)
    requires m > 0
    ensures Add(m, a, b) == Add(m, b, a)
    ensures Mul(m, a, b) == Mul(m, b, a)
  {
    CongruentSymmetric(Add(m, b, a), b + a, m);
    CongruentTransitive(Add(m, a, b), a + b, Add(m, b, a), m);
    CongruentReducedEqual(Add(m, a, b), Add(m, b, a), m);
    CongruentSymmetric(Mul(m, b, a), b * a, m);
    CongruentTransitive(Mul(m, a, b), a * b, Mul(m, b, a), m);
    CongruentReducedEqual(Mul(m, a, b), Mul(m, b, a), m);
  }

  /** Reducing an operand first does not change a sum or a product. */
  lemma ReducedOperand(m: U64, a: U64, b: U64)
    requires m > 0
    ensures Add(m, FromU64(m, a), b) == Add(m, a, b)
    ensures Mul(m, FromU64(m, a), b) == Mul(m, a, b)
  {
    var x := FromU64(m, a);
    CongruentByMultiple(b, b, m, 0);
    CongruentAdd(x, a, b, b, m);
    CongruentTransitive(Add(m, x, b), x + b, a + b, m);
    CongruentSymmetric(Add(m, a, b), a + b, m);
    CongruentTransitive(Add(m, x, b), a + b, Add(m, a, b), m);
    CongruentReducedEqual(Add(m, x, b), Add(m, a, b), m);
    CongruentMul(x, a, b, b, m);
    CongruentTransitive(Mul(m, x, b), x * b, a * b, m);
    CongruentSymmetric(Mul(m, a, b), a * b, m);
    CongruentTransitive(Mul(m, x, b), a * b, Mul(m, a, b), m);
    CongruentReducedEqual(Mul(m, x, b), Mul(m, a, b), m);
  }

  // ---------------------------------------------------------------------
  // Where the code departs from a field

  /** `pow` of 2 and 3 is 2 XOR 3 = 1, where two to the third is 8. */
  lemma PowIsExclusiveOr()
    ensures Pow(Goldilocks, 2, 3) == 1
    ensures PowMod(Goldilocks, 2, 3) == 8
  {
    assert Xor(2, 3) == 1;
    assert Power(2, 3) == 8;
    CongruentReducedEqual(PowMod(Goldilocks, 2, 3), 8, Goldilocks);
  }

  /** `neg(0)` is the modulus itself, which `eq` tells apart from zero. */
  lemma NegZeroIsUnreduced(m: U64)
    requires m > 0
    ensures Neg(m, 0) == m
    ensures !Eq(Neg(m, 0), FromU64(m, 0))
  {
  }

  /** Negation followed by a reduction, which maps zero to zero. */
  function NegReduced(m: U64, a: U64): (r: U64)
    requires 0 < m && a <= m
    ensures r < m && Add(m, a, r) == 0
    ensures a == 0 ==> r == 0
  {
    var n := Neg(m, a);
    NegIsInverse(m, a);
    ReducedOperand(m, n, a);
    Commutative(m, a, n);
    Commutative(m, FromU64(m, n), a);
    FromU64(m, n)
  }
}
