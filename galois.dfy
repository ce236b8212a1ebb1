/** GF(2^8) multiplication with the reduction constant 0x1B (the polynomial
    x^8 + x^4 + x^3 + x + 1), as used by the AES diffusion step. */
module Galois {

  /** Multiplication by x: shift left one bit, dropping bit 7, and reduce by
      0x1B when the dropped bit was set. The reduction constant is masked in by
      bit 7 (0 - 1 is all ones), which keeps the definition free of branches. */
  function Xtime(a: bv8): bv8
  {
    (a << 1) ^ (0x1B & (0 - (a >> 7)))
  }

  /** Xtime is the conditional reduction the multiplication loop performs. */
  lemma XtimeCases(a: bv8)
    ensures a & 0x80 == 0 ==> Xtime(a) == a << 1
    ensures a & 0x80 != 0 ==> Xtime(a) == (a << 1) ^ 0x1B
  {
  }

  /** The multiplier update of one iteration: drop its low bit. */
  function Half(b: bv8): bv8
  {
    b >> 1
  }

  /** The accumulator update of one iteration. */
  function Accumulate(p: bv8, a: bv8, b: bv8): bv8
  {
    if b & 1 != 0 then p ^ a else p
  }

  /** The state of the multiplication loop after `n` more iterations, starting
      from accumulator `p`, multiplicand `a` and multiplier `b`. */
  function GfLoop(p: bv8, a: bv8, b: bv8, n: nat): bv8
    decreases n
  {
    if n == 0 then p
    else GfLoop(Accumulate(p, a, b), Xtime(a), Half(b), n - 1)
  }

  /** The product that eight iterations of the loop compute. */
  function GaloisMul(a: bv8, b: bv8): bv8
  {
    GfLoop(0, a, b, 8)
  }

  /** The loop itself: eight iterations updating `p`, `a` and `b`. */
  method GaloisMultiplication(a0: bv8, b0: bv8) returns (p: bv8)
    ensures p == GaloisMul(a0, b0)
  {
    p := 0;
    var a, b := a0, b0;
    for k := 0 to 8
      invariant GfLoop(p, a, b, 8 - k) == GaloisMul(a0, b0)
    {
      GfLoopStep(p, a, b, 8 - k);
      p, a, b := Iteration(p, a, b);
    }
  }

  /** The body of the loop: add `a` when the low bit of `b` is set, multiply
      `a` by x with the reduction, and drop the low bit of `b`. */
  method Iteration(p: bv8, a: bv8, b: bv8) returns (p': bv8, a': bv8, b': bv8)
    ensures p' == Accumulate(p, a, b) && a' == Xtime(a) && b' == Half(b)
  {
    p', a', b' := p, a, b;
    if b' & 1 != 0 {
      p' := p' ^ a';
    }
    var bitSet := a' & 0x80 != 0;
    a' := a' << 1;
    if bitSet {
      a' := a' ^ 0x1B;
    }
    b' := b' >> 1;
    XtimeCases(a);
  }

  /** One iteration of the loop, unfolded. */
  lemma GfLoopStep(p: bv8, a: bv8, b: bv8, n: nat)
    requires n > 0
    ensures GfLoop(p, a, b, n) == GfLoop(Accumulate(p, a, b), Xtime(a), Half(b), n - 1)
  {
  }

  /** Bit-level facts about XOR that the linearity proofs use one at a time. */
  lemma XorShifts(x: bv8, y: bv8)
    ensures (x ^ y) << 1 == (x << 1) ^ (y << 1)
    ensures (x ^ y) >> 1 == (x >> 1) ^ (y >> 1)
    ensures ((x ^ y) & 0x80 != 0) == ((x & 0x80 != 0) != (y & 0x80 != 0))
    ensures ((x ^ y) & 1 != 0) == ((x & 1 != 0) != (y & 1 != 0))
  {
  }

  lemma HalfLinear(x: bv8, y: bv8)
    ensures Half(x ^ y) == Half(x) ^ Half(y)
  {
    XorShifts(x, y);
  }

  lemma XorRearrange(x: bv8, y: bv8, k: bv8)
    ensures (x ^ k) ^ y == (x ^ y) ^ k
    ensures (x ^ k) ^ (y ^ k) == x ^ y
    ensures x ^ (y ^ k) == (x ^ y) ^ k
  {
  }

  /** With a zero multiplier the accumulator never changes. */
  lemma {:induction false} GfLoopZeroMultiplier(p: bv8, a: bv8, n: nat)
    ensures GfLoop(p, a, 0, n) == p
    decreases n
  {
    if n > 0 {
      assert Half(0) == 0;
      GfLoopZeroMultiplier(p, Xtime(a), n - 1);
    }
  }

  /** With a zero multiplicand every term added is zero. */
  lemma {:induction false} GfLoopZeroMultiplicand(p: bv8, b: bv8, n: nat)
    ensures GfLoop(p, 0, b, n) == p
    decreases n
  {
    if n > 0 {
      assert Xtime(0) == 0;
      GfLoopZeroMultiplicand(p, Half(b), n - 1);
    }
  }

  /** The accumulator update is linear in the accumulator and the multiplier. */
  lemma AccumulateLinearInMultiplier(p1: bv8, p2: bv8, a: bv8, b1: bv8, b2: bv8)
    ensures Accumulate(p1 ^ p2, a, b1 ^ b2) == Accumulate(p1, a, b1) ^ Accumulate(p2, a, b2)
  {
    XorShifts(b1, b2);
    XorRearrange(p1, p2, a);
    var c1, c2 := b1 & 1 != 0, b2 & 1 != 0;
    if c1 && c2 {
      assert Accumulate(p1 ^ p2, a, b1 ^ b2) == p1 ^ p2;
    } else if c1 {
      assert Accumulate(p1 ^ p2, a, b1 ^ b2) == (p1 ^ p2) ^ a;
    } else if c2 {
      assert Accumulate(p1 ^ p2, a, b1 ^ b2) == (p1 ^ p2) ^ a;
    }
  }

  /** A run with no iterations left returns its accumulator. */
  lemma GfLoopDone(p: bv8, a: bv8, b: bv8)
    ensures GfLoop(p, a, b, 0) == p
  {
  }

  /** Multiplying by zero gives zero: the low bit of the multiplier is never set. */
  lemma MulZeroRight(a: bv8)
    ensures GaloisMul(a, 0) == 0
  {
    GfLoopZeroMultiplier(0, a, 8);
  }

  /** Multiplying zero gives zero: the multiplicand stays zero and never reduces. */
  lemma MulZeroLeft(b: bv8)
    ensures GaloisMul(0, b) == 0
  {
    GfLoopZeroMultiplicand(0, b, 8);
  }

  /** One is the multiplicative identity on the right. */
  lemma MulOneRight(a: bv8)
    ensures GaloisMul(a, 1) == a
  {
    assert GaloisMul(a, 1) == GfLoop(a, Xtime(a), 0, 7);
    GfLoopZeroMultiplier(a, Xtime(a), 7);
  }

  /** Multiplying by two is Xtime (section 4.2.1 of FIPS 197). */
  lemma MulTwoRight(a: bv8)
    ensures GaloisMul(a, 2) == Xtime(a)
    ensures GaloisMul(a, 2) == ((a << 1) ^ (if a >= 0x80 then 0x1B else 0))
  {
    assert GaloisMul(a, 2) == GfLoop(Xtime(a), Xtime(Xtime(a)), 0, 6);
    GfLoopZeroMultiplier(Xtime(a), Xtime(Xtime(a)), 6);
    assert (a & 0x80 != 0) == (a >= 0x80);
  }

  /** GaloisMul is XOR-linear in its second argument: three runs of the loop,
      on b1, on b2 and on b1 ^ b2, keep their accumulators related by XOR. */
  lemma MulLinearRight(a: bv8, b1: bv8, b2: bv8)
    ensures GaloisMul(a, b1 ^ b2) == GaloisMul(a, b1) ^ GaloisMul(a, b2)
  {
    var p1, p2, x, y1, y2 := 0, 0, a, b1, b2;
    assert (0 as bv8) ^ 0 == 0;
    for k := 0 to 8
      invariant GfLoop(p1 ^ p2, x, y1 ^ y2, 8 - k) == GaloisMul(a, b1 ^ b2)
      invariant GfLoop(p1, x, y1, 8 - k) == GaloisMul(a, b1)
      invariant GfLoop(p2, x, y2, 8 - k) == GaloisMul(a, b2)
    {
      AccumulateLinearInMultiplier(p1, p2, x, y1, y2);
      HalfLinear(y1, y2);
      GfLoopStep(p1 ^ p2, x, y1 ^ y2, 8 - k);
      GfLoopStep(p1, x, y1, 8 - k);
      GfLoopStep(p2, x, y2, 8 - k);
      p1, p2, x, y1, y2 := Accumulate(p1, x, y1), Accumulate(p2, x, y2), Xtime(x), Half(y1), Half(y2);
    }
    GfLoopDone(p1 ^ p2, x, y1 ^ y2);
    GfLoopDone(p1, x, y1);
    GfLoopDone(p2, x, y2);
  }

  /** Multiplying by three is multiplying by two, then adding the operand. */
  lemma MulThreeRight(a: bv8)
    ensures GaloisMul(a, 3) == GaloisMul(a, 2) ^ a
  {
    assert (2 as bv8) ^ 1 == 3;
    MulLinearRight(a, 2, 1);
    MulOneRight(a);
  }

  /* The product as a polynomial product: the loop multiplies `a` by x once
     per iteration and adds it in when the current bit of `b` is set, so the
     product is the XOR, over the set bits j of b, of a times x^j. */

  /** The single-bit value `2^j`. */
  function Bit(j: nat): bv8
    requires j < 8
  {
    if j == 0 then 1 else Bit(j - 1) << 1
  }

  /** The eight bits, one by one. */
  lemma {:induction false} BitTable(j: nat)
    requires j < 8
    ensures Bit(j) == if j == 0 then 1 else if j == 1 then 2 else if j == 2 then 4
      else if j == 3 then 8 else if j == 4 then 16 else if j == 5 then 32
      else if j == 6 then 64 else 128
  {
    if j > 0 {
      BitTable(j - 1);
    }
  }

  /** Bit `j` of `x`, in place: 0 or `2^j`. */
  function Part(x: bv8, j: nat): bv8
    requires j < 8
  {
    x & Bit(j)
  }

  /** `a` multiplied by x, `j` times. */
  function XtimePower(a: bv8, j: nat): bv8
    decreases j
  {
    if j == 0 then a else XtimePower(Xtime(a), j - 1)
  }

  /** Powers of x compose. */
  lemma {:induction false} XtimePowerAdd(a: bv8, i: nat, j: nat)
    ensures XtimePower(XtimePower(a, i), j) == XtimePower(a, i + j)
    decreases i
  {
    if i > 0 {
      XtimePowerAdd(Xtime(a), i - 1, j);
    }
  }

  /** The multiplier after `k` halvings. */
  function HalfPower(b: bv8, k: nat): bv8
    decreases k
  {
    if k == 0 then b else HalfPower(Half(b), k - 1)
  }

  /** One more halving. */
  lemma {:induction false} HalfPowerAdd(b: bv8, k: nat)
    ensures Half(HalfPower(b, k)) == HalfPower(b, k + 1)
    decreases k
  {
    if k > 0 {
      HalfPowerAdd(Half(b), k - 1);
    }
  }

  /** After `k` halvings, the low bit is bit `k` of the original multiplier. */
  lemma {:induction false} HalfPowerLowBit(b: bv8, k: nat)
    requires k < 8
    ensures (HalfPower(b, k) & 1 != 0) == (Part(b, k) != 0)
  {
    BitTable(k);
    if k > 0 {
      BitTable(k - 1);
      HalfPowerLowBit(Half(b), k - 1);
    }
  }

  /** The term bit `j` of `b` contributes: `a` times x^j when the bit is set. */
  function Term(a: bv8, b: bv8, j: nat): bv8
    requires j < 8
  {
    if Part(b, j) == 0 then 0 else XtimePower(a, j)
  }

  /** The XOR of the terms of the low `k` bits of `b`. */
  function ShiftAddSum(a: bv8, b: bv8, k: nat): bv8
    requires k <= 8
  {
    if k == 0 then 0 else ShiftAddSum(a, b, k - 1) ^ Term(a, b, k - 1)
  }

  /** The loop's product is the polynomial product: after `k` iterations the
      accumulator holds the terms of the low `k` bits of `b`. */
  lemma MulIsSum(a: bv8, b: bv8)
    ensures GaloisMul(a, b) == ShiftAddSum(a, b, 8)
  {
    var p, x, y := 0, a, b;
    for k := 0 to 8
      invariant p == ShiftAddSum(a, b, k)
      invariant x == XtimePower(a, k) && y == HalfPower(b, k)
      invariant GfLoop(p, x, y, 8 - k) == GaloisMul(a, b)
    {
      GfLoopStep(p, x, y, 8 - k);
      HalfPowerLowBit(b, k);
      XtimePowerAdd(a, k, 1);
      HalfPowerAdd(b, k);
      p, x, y := Accumulate(p, x, y), Xtime(x), Half(y);
    }
    GfLoopDone(p, x, y);
  }

  /** The eight iterations written out, for multiplicands `a0`..`a7` that
      xtime produces and multipliers `b0`..`b7` that halving produces. */
  lemma Unrolled(a0: bv8, a1: bv8, a2: bv8, a3: bv8, a4: bv8, a5: bv8, a6: bv8, a7: bv8,
                 b0: bv8, b1: bv8, b2: bv8, b3: bv8, b4: bv8, b5: bv8, b6: bv8, b7: bv8)
    requires a1 == Xtime(a0) && a2 == Xtime(a1) && a3 == Xtime(a2) && a4 == Xtime(a3)
    requires a5 == Xtime(a4) && a6 == Xtime(a5) && a7 == Xtime(a6)
    requires b1 == Half(b0) && b2 == Half(b1) && b3 == Half(b2) && b4 == Half(b3)
    requires b5 == Half(b4) && b6 == Half(b5) && b7 == Half(b6)
    ensures GaloisMul(a0, b0) ==
      Accumulate(Accumulate(Accumulate(Accumulate(Accumulate(Accumulate(Accumulate(Accumulate(
        0, a0, b0), a1, b1), a2, b2), a3, b3), a4, b4), a5, b5), a6, b6), a7, b7)
  {
    var p1 := Accumulate(0, a0, b0);
    var p2 := Accumulate(p1, a1, b1);
    var p3 := Accumulate(p2, a2, b2);
    var p4 := Accumulate(p3, a3, b3);
    var p5 := Accumulate(p4, a4, b4);
    var p6 := Accumulate(p5, a5, b5);
    var p7 := Accumulate(p6, a6, b6);
    GfLoopStep(0, a0, b0, 8);
    GfLoopStep(p1, a1, b1, 7);
    GfLoopStep(p2, a2, b2, 6);
    GfLoopStep(p3, a3, b3, 5);
    GfLoopStep(p4, a4, b4, 4);
    GfLoopStep(p5, a5, b5, 3);
    GfLoopStep(p6, a6, b6, 2);
    GfLoopStep(p7, a7, b7, 1);
    GfLoopDone(Accumulate(p7, a7, b7), Xtime(a7), Half(b7));
  }

  /** Two times `b`, with the constant first as MixColumn calls it, is
      xtime(b): the same as `b` times two. */
  lemma MulTwoLeft(b: bv8)
    ensures GaloisMul(2, b) == Xtime(b)
    ensures GaloisMul(2, b) == GaloisMul(b, 2)
  {
    Unrolled(2, 4, 8, 16, 32, 64, 128, 0x1B,
             b, b >> 1, b >> 2, b >> 3, b >> 4, b >> 5, b >> 6, b >> 7);
    MulTwoRight(b);
  }

  /** Three times `b`, constant first, is xtime(b) plus `b`: the same as `b`
      times three. */
  lemma MulThreeLeft(b: bv8)
    ensures GaloisMul(3, b) == Xtime(b) ^ b
    ensures GaloisMul(3, b) == GaloisMul(b, 3)
  {
    Unrolled(3, 6, 12, 24, 48, 96, 0xC0, 0x9B,
             b, b >> 1, b >> 2, b >> 3, b >> 4, b >> 5, b >> 6, b >> 7);
    MulThreeRight(b);
    MulTwoRight(b);
  }
}
