/** The `Prime` trait as implemented for `BigUint`: the extended Euclidean
    algorithm on signed big integers, the modular inverse built on it, and
    the Miller-Rabin test. The random witnesses of the test are drawn by the
    caller here and passed in. */
module Primes {
  import opened Modular

  datatype Option<T> = None | Some(value: T)

  // ---------------------------------------------------------------------
  // Big-integer division

  /** `BigInt` division: the quotient is rounded toward zero. */
  function TDiv(a: int, b: int): int
    requires b != 0
  {
    if a >= 0 && b > 0 then a / b
    else if a >= 0 then -(a / -b)
    else if b > 0 then -((-a) / b)
    else (-a) / (-b)
  }

  /** `BigInt` remainder: it takes the sign of the dividend. */
  function TMod(a: int, b: int): int
    requires b != 0
  {
    a - b * TDiv(a, b)
  }

  /** The remainder is smaller than the divisor in magnitude, and on
      non-negative operands both operations are Euclid's. */
  lemma TModBounds(a: int, b: int)
    requires b != 0
    ensures Abs(TMod(a, b)) < Abs(b)
    ensures a >= 0 ==> TMod(a, b) >= 0
    ensures a >= 0 && b > 0 ==> TDiv(a, b) == a / b && TMod(a, b) == a % b
  {
    if a >= 0 && b > 0 {
    } else if a >= 0 {
      assert TMod(a, b) == a % -b;
    } else if b > 0 {
      assert TMod(a, b) == -((-a) % b);
    } else {
      assert TMod(a, b) == -((-a) % -b);
    }
  }

  function Abs(a: int): nat
  {
    if a < 0 then -a else a
  }

  // ---------------------------------------------------------------------
  // egcd and mod_inv

  /** `egcd`: returns `(g, x, y)`, the divisor and its Bezout coefficients
      (`EgcdBezout`). */
  function Egcd(a: int, b: int): (int, int, int)
    decreases Abs(a)
  {
    if a == 0 then (b, 0, 1)
    else
      TModBounds(b, a);
      var (g, x, y) := Egcd(TMod(b, a), a);
      (g, y - TDiv(b, a) * x, x)
  }

  /** `a * x + b * y == g`, for all integers. */
  lemma {:induction false} EgcdBezout(a: int, b: int)
    ensures a * Egcd(a, b).1 + b * Egcd(a, b).2 == Egcd(a, b).0
    decreases Abs(a)
  {
    if a != 0 {
      TModBounds(b, a);
      EgcdBezout(TMod(b, a), a);
      var (g, x, y) := Egcd(TMod(b, a), a);
      BezoutStep(a, b, TDiv(b, a), x, y);
    }
  }

  /** The coefficients of the recursive call give coefficients for `a`
      and `b`, where `q` is the quotient of `b` by `a`. */
  lemma BezoutStep(a: int, b: int, q: int, x: int, y: int)
    ensures a * (y - q * x) + b * x == (b - a * q) * x + a * y
  {
    assert a * (y - q * x) == a * y - a * (q * x);
    assert (b - a * q) * x == b * x - (a * q) * x;
    assert a * (q * x) == (a * q) * x;
  }

  /** On non-negative operands the first component is a non-negative common
      divisor of both. */
  lemma {:induction false} EgcdDivides(a: int, b: int)
    requires a >= 0 && b >= 0
    ensures Egcd(a, b).0 >= 0 && Divides(Egcd(a, b).0, a) && Divides(Egcd(a, b).0, b)
    decreases a
  {
    var g := Egcd(a, b).0;
    if a == 0 {
      assert a == g * 0 && b == g * 1;
    } else {
      var q, r := b / a, b % a;
      EgcdDivides(r, a);
      var (g', x, y) := Egcd(r, a);
      EgcdStep(a, b, q, r, g', x, y);
      DividesCombination(g, a, r, q);
    }
  }

  /** A common divisor of `a` and `r` divides `q * a + r`. */
  lemma DividesCombination(g: int, a: int, r: int, q: int)
    requires Divides(g, a) && Divides(g, r)
    ensures Divides(g, q * a + r)
  {
    var ka :| a == g * ka;
    var kr :| r == g * kr;
    assert q * a == g * (q * ka);
    assert q * a + r == g * (q * ka + kr);
  }

  /** Every common divisor divides it: together with `EgcdDivides` this makes
      it the greatest common divisor. */
  lemma EgcdIsGreatest(a: int, b: int, c: int)
    requires Divides(c, a) && Divides(c, b)
    ensures Divides(c, Egcd(a, b).0)
  {
    var (g, x, y) := Egcd(a, b);
    EgcdBezout(a, b);
    var ka :| a == c * ka;
    var kb :| b == c * kb;
    Combination(c, ka, kb, x, y);
    assert g == c * (ka * x + kb * y);
  }

  lemma Combination(c: int, ka: int, kb: int, x: int, y: int)
    ensures (c * ka) * x + (c * kb) * y == c * (ka * x + kb * y)
  {
    assert (c * ka) * x == c * (ka * x);
    assert (c * kb) * y == c * (kb * y);
  }

  /** `egcd(0, b)` is `(b, 0, 1)`. */
  lemma EgcdOfZero(b: int)
    ensures Egcd(0, b) == (b, 0, 1)
  {
  }

  /** `mod_inv`: the Bezout coefficient of `a`, brought into `[0, m)`. When
      `m` is zero and `a` is one the reduction divides by zero, so that call
      is excluded. */
  function ModInv(a: nat, m: nat): Option<nat>
    requires m != 0 || a != 1
  {
    var (g, x, _) := Egcd(a, m);
    if g != 1 then None
    else
      EgcdOfZeroModulus(a);
      Some(Residue(x, m))
  }

  /** `(x % m + m) % m` with `BigInt` remainders: the member of `x`'s class
      in `[0, m)`. */
  function Residue(x: int, m: nat): (r: nat)
    requires m > 0
    ensures r < m && Congruent(r, x, m)
  {
    TModBounds(x, m);
    var t := TMod(x, m) + m;
    TModBounds(t, m);
    CongruentByMultiple(t, x, m, 1 - TDiv(x, m));
    CongruentByMultiple(TMod(t, m), t, m, -TDiv(t, m));
    CongruentTransitive(TMod(t, m), t, x, m);
    TMod(t, m)
  }

  /** With modulus zero the divisor found is `a` itself. */
  lemma EgcdOfZeroModulus(a: nat)
    ensures Egcd(a, 0).0 == a
  {
    if a != 0 {
      TModBounds(0, a);
      assert Egcd(a, 0).0 == Egcd(0, a).0;
    }
  }

  /** `mod_inv` finds nothing exactly when the divisor is not one, and what it
      finds is an inverse of `a` in `[0, m)`. */
  lemma ModInvIsInverse(a: nat, m: nat)
    requires m != 0 || a != 1
    ensures ModInv(a, m).None? <==> Egcd(a, m).0 != 1
    ensures ModInv(a, m).Some? ==> m > 0 && ModInv(a, m).value < m && Congruent(a * ModInv(a, m).value, 1, m)
  {
    var (g, x, y) := Egcd(a, m);
    if g == 1 {
      EgcdOfZeroModulus(a);
      EgcdBezout(a, m);
      BezoutInverse(a, m, x, y);
    }
  }

  /** A Bezout coefficient of `a` against `m`, reduced, is an inverse of `a`. */
  lemma BezoutInverse(a: int, m: int, x: int, y: int)
    requires m > 0 && a * x + m * y == 1
    ensures Congruent(a * Residue(x, m), 1, m)
  {
    var inverse := Residue(x, m);
    CongruentByMultiple(a, a, m, 0);
    CongruentMul(a, a, inverse, x, m);
    CongruentByMultiple(a * x, 1, m, -y);
    CongruentTransitive(a * inverse, a * x, 1, m);
  }

  /** When `mod_inv` finds nothing, `a` has no inverse modulo `m`: a common
      divisor other than one would divide one. */
  lemma NoneMeansNoInverse(a: nat, m: nat, r: int)
    requires m > 0 && ModInv(a, m).None?
    ensures !Congruent(a * r, 1, m)
  {
    var g := Egcd(a, m).0;
    ModInvIsInverse(a, m);
    EgcdDivides(a, m);
    if Congruent(a * r, 1, m) {
      InvertibleHasUnitDivisors(a, m, r, g);
    }
  }

  /** A common divisor of `a` and `m` is one when `a` is invertible modulo
      `m`. */
  lemma InvertibleHasUnitDivisors(a: int, m: int, r: int, g: int)
    requires m > 0 && g >= 0 && Divides(g, a) && Divides(g, m) && Congruent(a * r, 1, m)
    ensures g == 1
  {
    CongruentMultiple(a * r, 1, m);
    var k := (a * r - 1) / m;
    var ka :| a == g * ka;
    var km :| m == g * km;
    assert a * r == g * (ka * r);
    assert m * k == g * (km * k);
    assert 1 == g * (ka * r - km * k);
    UnitDivisor(g, ka * r - km * k);
  }

  /** A non-negative divisor of one is one. */
  lemma UnitDivisor(g: int, k: int)
    requires g >= 0 && g * k == 1
    ensures g == 1
  {
    if g >= 2 {
      if k >= 1 {
        assert false;
      } else {
        assert false;
      }
    }
  }

  /** The test cases of `mod_inv`, each through the recursion of `egcd`:
      5 is its own inverse modulo 12. */
  lemma ModInvFive()
    ensures ModInv(5, 12) == Some(5)
  {
    EgcdStep(1, 2, 2, 0, 1, 0, 1);
    EgcdStep(2, 5, 2, 1, 1, 1, 0);
    EgcdStep(5, 12, 2, 2, 1, -2, 1);
  }

  /** 17 * 5 == 85 == 7 * 12 + 1. */
  lemma ModInvSeventeen()
    ensures ModInv(17, 12) == Some(5)
  {
    EgcdStep(1, 2, 2, 0, 1, 0, 1);
    EgcdStep(2, 5, 2, 1, 1, 1, 0);
    EgcdStep(5, 12, 2, 2, 1, -2, 1);
    EgcdStep(12, 17, 1, 5, 1, 5, -2);
    EgcdStep(17, 12, 0, 12, 1, -7, 5);
  }

  /** 103 * 7 == 721 == 60 * 12 + 1. */
  lemma ModInvHundredThree()
    ensures ModInv(103, 12) == Some(7)
  {
    EgcdStep(1, 2, 2, 0, 1, 0, 1);
    EgcdStep(2, 5, 2, 1, 1, 1, 0);
    EgcdStep(5, 7, 1, 2, 1, -2, 1);
    EgcdStep(7, 12, 1, 5, 1, 3, -2);
    EgcdStep(12, 103, 8, 7, 1, -5, 3);
    EgcdStep(103, 12, 0, 12, 1, 43, -5);
  }

  /** 32 and 4 share the divisor 4. */
  lemma ModInvThirtyTwo()
    ensures ModInv(32, 4) == None
  {
    EgcdStep(4, 32, 8, 0, 4, 0, 1);
    EgcdStep(32, 4, 0, 4, 4, 1, 0);
  }

  /** One level of the recursion on non-negative operands, where
      `b == q * a + r` with `0 <= r < a`. */
  lemma EgcdStep(a: int, b: int, q: int, r: int, g: int, x: int, y: int)
    requires 0 <= q && 0 <= r < a && b == q * a + r && Egcd(r, a) == (g, x, y)
    ensures Egcd(a, b) == (g, y - q * x, x)
  {
    TModBounds(b, a);
    DivisionUnique(a, b, q, r);
    assert TDiv(b, a) == q && TMod(b, a) == r;
  }

  /** Euclid's quotient and remainder are the only ones. */
  lemma DivisionUnique(a: int, b: int, q: int, r: int)
    requires 0 <= r < a && b == q * a + r
    ensures b / a == q && b % a == r
  {
    CongruentByMultiple(r, b % a, a, b / a - q);
    CongruentReducedEqual(r, b % a, a);
  }

  // ---------------------------------------------------------------------
  // is_prime

  /** `BigUint::modpow`. */
  function ModPow(a: nat, e: nat, n: nat): nat
    requires n > 0
  {
    Power(a, e) % n
  }

  /** The odd part `d` of `m` and the number `s` of halvings that reach it. */
  function Halvings(m: nat): (r: (nat, nat))
    requires m > 0
    ensures r.0 % 2 == 1 && m == r.0 * Power(2, r.1)
    decreases m
  {
    if m % 2 == 0 then
      var (d, s) := Halvings(m / 2);
      assert Power(2, s + 1) == 2 * Power(2, s);
      (d, s + 1)
    else (m, 0)
  }

  /** The witness drawn for odd `n` from a random number. */
  function Witness(n: nat, draw: nat): nat
    requires n > 4
  {
    2 + draw % (n - 4)
  }

  /** The squaring loop of one round, with `count` squarings left: it passes
      when it reaches `n - 1` before it reaches one. */
  function Squarings(n: nat, x: nat, count: nat): bool
    requires n > 1
    decreases count
  {
    if count == 0 then x == n - 1
    else
      var y := ModPow(x, 2, n);
      if y == 1 then false
      else if y == n - 1 then true
      else Squarings(n, y, count - 1)
  }

  /** One round of the test, for `n - 1 == d * 2^s`: the witness `a` does not
      show `n` composite. */
  function Passes(n: nat, d: nat, s: nat, a: nat): bool
    requires n > 1 && s >= 1
  {
    var x := ModPow(a, d, n);
    x == 1 || x == n - 1 || Squarings(n, x, s - 1)
  }

  /** The outcome of `is_prime` with the given random draws, one per round:
      `None` when `n - 4` underflows, which happens for `n == 3` as soon as
      one round runs. */
  function IsPrimeSpec(n: nat, draws: seq<nat>): Option<bool>
  {
    if n % 2 == 0 then Some(n == 2)
    else if n == 1 then Some(false)
    else if n == 3 && |draws| > 0 then None
    else
      assert |draws| > 0 ==> n > 4;
      var (d, s) := Halvings(n - 1);
      Some(forall i :: 0 <= i < |draws| ==> Passes(n, d, s, Witness(n, draws[i])))
  }

  /** `is_prime`: even numbers and one are decided at once; otherwise `n - 1`
      is halved to its odd part and one round runs per draw. */
  method IsPrime(n: nat, draws: seq<nat>) returns (result: Option<bool>)
    ensures result == IsPrimeSpec(n, draws)
  {
    if n % 2 == 0 {
      return Some(n == 2);
    }
    if n == 1 {
      return Some(false);
    }
    var d, s := OddPart(n - 1);
    result := Rounds(n, d, s, draws);
  }

  /** The rounds of `is_prime`, one per draw, for odd `n > 1` with
      `n - 1 == d * 2^s`. */
  method Rounds(n: nat, d: nat, s: nat, draws: seq<nat>) returns (result: Option<bool>)
    requires n % 2 == 1 && n > 1 && s >= 1
    ensures result == if n == 3 && |draws| > 0 then None
      else Some(forall j :: 0 <= j < |draws| ==> Passes(n, d, s, Witness(n, draws[j])))
  {
    for i := 0 to |draws|
      invariant i > 0 ==> n > 4
      invariant forall j :: 0 <= j < i ==> Passes(n, d, s, Witness(n, draws[j]))
    {
      if n < 4 {
        return None;
      }
      var a := 2 + draws[i] % (n - 4);
      var pass := Round(n, d, s, a);
      if !pass {
        return Some(false);
      }
    }
    return Some(true);
  }

  /** The halving loop of `is_prime`: `d >>= 1` and `r += 1` while `d` is
      even. */
  method OddPart(m: nat) returns (d: nat, s: nat)
    requires m > 0
    ensures (d, s) == Halvings(m)
  {
    d, s := m, 0;
    while d % 2 == 0
      invariant d > 0 && Halvings(m) == (Halvings(d).0, Halvings(d).1 + s)
      decreases d
    {
      d := d / 2;
      s := s + 1;
    }
  }

  /** One round of `is_prime` for witness `a`: `x = a^d mod n`, then at most
      `s - 1` squarings, stopping at one (composite) or `n - 1` (passed). */
  method Round(n: nat, d: nat, s: nat, a: nat) returns (pass: bool)
    requires n > 1 && s >= 1
    ensures pass == Passes(n, d, s, a)
  {
    var x := ModPow(a, d, n);
    if x == 1 || x == n - 1 {
      return true;
    }
    for k := 0 to s - 1
      invariant Passes(n, d, s, a) == Squarings(n, x, s - 1 - k)
    {
      x := ModPow(x, 2, n);
      if x == 1 {
        return false;
      }
      if x == n - 1 {
        break;
      }
    }
    return x == n - 1;
  }

  // ---------------------------------------------------------------------
  // What the test decides

  /** An even number is judged prime exactly when it is two, and one is not
      judged prime. */
  lemma EvenAndOne(n: nat, draws: seq<nat>)
    ensures n % 2 == 0 ==> IsPrimeSpec(n, draws) == Some(n == 2)
    ensures IsPrimeSpec(1, draws) == Some(false)
  {
  }

  /** `n - 1` splits into an odd part times a power of two. */
  lemma SplitIsExact(n: nat)
    requires n > 1
    ensures Halvings(n - 1).0 % 2 == 1
    ensures n - 1 == Halvings(n - 1).0 * Power(2, Halvings(n - 1).1)
  {
  }

  /** Every witness that passes satisfies Fermat's condition
      `a^(n-1) == 1 (mod n)`: the test is at least as strict as Fermat's. */
  lemma PassedWitnessIsFermat(n: nat, draws: seq<nat>, i: nat)
    requires n > 2 && IsPrimeSpec(n, draws) == Some(true) && i < |draws|
    ensures ModPow(Witness(n, draws[i]), n - 1, n) == 1
  {
    assert n % 2 == 1 && n > 4;
    OddHalvesOnce(n);
    var (d, s) := Halvings(n - 1);
    assert Passes(n, d, s, Witness(n, draws[i]));
    PassesIsFermat(n, d, s, Witness(n, draws[i]));
  }

  /** For odd `n > 1`, `n - 1` is even: it is halved at least once. */
  lemma OddHalvesOnce(n: nat)
    requires n > 2 && n % 2 == 1
    ensures Halvings(n - 1).1 >= 1
  {
  }

  /** A passing round gives `a^(n - 1) == 1 (mod n)` when `n - 1 == d * 2^s`. */
  lemma PassesIsFermat(n: nat, d: nat, s: nat, a: nat)
    requires n > 2 && s >= 1 && n - 1 == d * Power(2, s) && Passes(n, d, s, a)
    ensures ModPow(a, n - 1, n) == 1
  {
    var x := ModPow(a, d, n);
    var e := Power(2, s);
    ReducedBasePower(a, d, e, n);
    RoundIsFermat(n, x, s);
    CongruentTransitive(Power(a, d * e), Power(x, e), 1, n);
    CongruentIsOne(a, d * e, n);
  }

  /** A power congruent to one leaves the remainder one. */
  lemma CongruentIsOne(a: nat, k: nat, n: nat)
    requires n > 1 && Congruent(Power(a, k), 1, n)
    ensures ModPow(a, k, n) == 1
  {
    CongruentMod(Power(a, k), 1, n);
  }

  /** `a^(d * e)` is congruent to `(a^d mod n)^e`. */
  lemma ReducedBasePower(a: nat, d: nat, e: nat, n: nat)
    requires n > 0
    ensures Congruent(Power(a, d * e), Power(ModPow(a, d, n), e), n)
  {
    PowerPower(a, d, e);
    ModCongruent(Power(a, d), n);
    CongruentPower(ModPow(a, d, n), Power(a, d), e, n);
    CongruentSymmetric(Power(ModPow(a, d, n), e), Power(Power(a, d), e), n);
  }

  /** The value `x = a^d mod n` a round starts from, when the round passes,
      satisfies `x^(2^s) == 1 (mod n)`. */
  lemma RoundIsFermat(n: nat, x: nat, s: nat)
    requires n > 2 && s >= 1 && (x == 1 || x == n - 1 || Squarings(n, x, s - 1))
    ensures Congruent(Power(x, Power(2, s)), 1, n)
  {
    if x == 1 {
      PowerOfOne(Power(2, s));
      CongruentByMultiple(1, 1, n, 0);
    } else if x == n - 1 {
      MinusOnePower(n, s);
    } else {
      SquaringsIsFermat(n, x, s - 1);
    }
  }

  /** A squaring run that reaches `n - 1` within `count` squarings shows
      `x^(2^(count + 1)) == 1 (mod n)`. */
  lemma {:induction false} SquaringsIsFermat(n: nat, x: nat, count: nat)
    requires n > 2 && Squarings(n, x, count)
    ensures Congruent(Power(x, Power(2, count + 1)), 1, n)
    decreases count
  {
    if count == 0 {
      assert Power(x, Power(2, 1)) == x * x;
      MinusOneSquared(n);
    } else {
      var y := ModPow(x, 2, n);
      var e := Power(2, count);
      PowerOfTwoPositive(count);
      // x^(2^(count + 1)) is (x^2)^(2^count), congruent to y^(2^count).
      assert Power(2, count + 1) == 2 * e;
      PowerPower(x, 2, e);
      ModCongruent(Power(x, 2), n);
      CongruentPower(y, Power(x, 2), e, n);
      if y == n - 1 {
        MinusOnePower(n, count);
      } else {
        SquaringsIsFermat(n, y, count - 1);
      }
      CongruentSymmetric(Power(y, e), Power(Power(x, 2), e), n);
      CongruentTransitive(Power(x, 2 * e), Power(y, e), 1, n);
    }
  }

  /** Nested powers multiply their exponents. */
  lemma {:induction false} PowerPower(b: nat, e1: nat, e2: nat)
    ensures Power(Power(b, e1), e2) == Power(b, e1 * e2)
    decreases e2
  {
    if e2 > 0 {
      PowerPower(b, e1, e2 - 1);
      assert e1 * e2 == e1 + e1 * (e2 - 1);
      PowerAdd(b, e1, e1 * (e2 - 1));
    }
  }

  lemma {:induction false} PowerOfOne(e: nat)
    ensures Power(1, e) == 1
    decreases e
  {
    if e > 0 {
      PowerOfOne(e - 1);
    }
  }

  /** `(n - 1)^2 == 1 (mod n)`. */
  lemma MinusOneSquared(n: nat)
    requires n > 1
    ensures Congruent((n - 1) * (n - 1), 1, n)
  {
    assert (n - 1) * (n - 1) - 1 == n * (n - 2);
    CongruentByMultiple((n - 1) * (n - 1), 1, n, n - 2);
  }

  /** `(n - 1)` to an even power `2^c`, `c >= 1`, is one modulo `n`. */
  lemma MinusOnePower(n: nat, c: nat)
    requires n > 1 && c >= 1
    ensures Congruent(Power(n - 1, Power(2, c)), 1, n)
  {
    var e := Power(2, c - 1);
    PowerOfTwoPositive(c - 1);
    assert Power(2, c) == 2 * e;
    PowerPower(n - 1, 2, e);
    assert Power(n - 1, 2) == (n - 1) * (n - 1);
    MinusOneSquared(n);
    CongruentPower(Power(n - 1, 2), 1, e, n);
    PowerOfOne(e);
  }

  // ---------------------------------------------------------------------
  // n == 3

  /** With one round or more, three makes `n - 4` underflow although it is
      prime. */
  lemma ThreeUnderflows(draw: nat)
    ensures IsPrimeSpec(3, [draw]) == None
  {
  }

  /** The test with three answered before the rounds. */
  function IsPrimeCorrected(n: nat, draws: seq<nat>): (r: Option<bool>)
    ensures r.Some?
    ensures n == 3 ==> r == Some(true)
    ensures n != 3 ==> r == IsPrimeSpec(n, draws)
  {
    if n == 3 then Some(true) else IsPrimeSpec(n, draws)
  }
}
