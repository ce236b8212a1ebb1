/** The MD5 message digest of `MessageDigestAlgorithm::hash`, following
    sections 3.1 to 3.5 of RFC 1321: padding, the length field, the buffer
    initialisation, sixty-four steps per 64-byte block with a feed-forward,
    and the little-endian output. All word arithmetic is modulo 2^32, which
    `bv32` gives directly. */
module Md5 {

  // ---------------------------------------------------------------------
  // The auxiliary functions of section 3.4

  function F(x: bv32, y: bv32, z: bv32): bv32
  {
    (x & y) | (!x & z)
  }

  function G(x: bv32, y: bv32, z: bv32): bv32
  {
    (x & z) | (y & !z)
  }

  function H(x: bv32, y: bv32, z: bv32): bv32
  {
    x ^ y ^ z
  }

  function I(x: bv32, y: bv32, z: bv32): bv32
  {
    y ^ (x | !z)
  }

  /** F is a bitwise conditional: where `x` has a one it takes `y`, elsewhere `z`. */
  lemma FSelects(x: bv32, y: bv32, z: bv32)
    ensures F(x, y, z) & x == y & x
    ensures F(x, y, z) & !x == z & !x
  {
  }

  /** G is the same conditional with `z` as the selector. */
  lemma GSelects(x: bv32, y: bv32, z: bv32)
    ensures G(x, y, z) & z == x & z
    ensures G(x, y, z) & !z == y & !z
  {
  }

  /** H is bitwise parity: it is symmetric and undoes itself. */
  lemma HParity(x: bv32, y: bv32, z: bv32)
    ensures H(x, y, z) == H(y, x, z) == H(x, z, y)
    ensures H(H(x, y, z), y, z) == x
  {
  }

  /** I hides `x | !z` under `y`, and so can be undone with `y`. */
  lemma IRecovers(x: bv32, y: bv32, z: bv32)
    ensures I(x, y, z) ^ y == x | !z
  {
  }

  // ---------------------------------------------------------------------
  // The tables

  /** A shift amount: the tables only hold rotations below the word size. */
  type Shift = s: nat | s < 32

  /** A word index into a 16-word block. */
  type WordIndex = k: nat | k < 16

  /** Per-round shift amounts; step `k` of round `r` uses `S[r][k % 4]`. */
  const S: seq<seq<Shift>> := [
    [7, 12, 17, 22],
    [5, 9, 14, 20],
    [4, 11, 16, 23],
    [6, 10, 15, 21]]

  /** The 64 additive constants, the integer part of 2^32 * |sin(k + 1)|;
      step `k` uses `T[k]`. */
  const T: seq<bv32> := [
    0xd76aa478, 0xe8c7b756, 0x242070db, 0xc1bdceee, 0xf57c0faf, 0x4787c62a, 0xa8304613, 0xfd469501,
    0x698098d8, 0x8b44f7af, 0xffff5bb1, 0x895cd7be, 0x6b901122, 0xfd987193, 0xa679438e, 0x49b40821,
    0xf61e2562, 0xc040b340, 0x265e5a51, 0xe9b6c7aa, 0xd62f105d, 0x02441453, 0xd8a1e681, 0xe7d3fbc8,
    0x21e1cde6, 0xc33707d6, 0xf4d50d87, 0x455a14ed, 0xa9e3e905, 0xfcefa3f8, 0x676f02d9, 0x8d2a4c8a,
    0xfffa3942, 0x8771f681, 0x6d9d6122, 0xfde5380c, 0xa4beea44, 0x4bdecfa9, 0xf6bb4b60, 0xbebfbc70,
    0x289b7ec6, 0xeaa127fa, 0xd4ef3085, 0x04881d05, 0xd9d4d039, 0xe6db99e5, 0x1fa27cf8, 0xc4ac5665,
    0xf4292244, 0x432aff97, 0xab9423a7, 0xfc93a039, 0x655b59c3, 0x8f0ccc92, 0xffeff47d, 0x85845dd1,
    0x6fa87e4f, 0xfe2ce6e0, 0xa3014314, 0x4e0811a1, 0xf7537e82, 0xbd3af235, 0x2ad7d2bb, 0xeb86d391]

  /** The word read by step `j` of round `r` is `X[r][j]`. */
  const X: seq<seq<WordIndex>> := [
    [0, 1, 2, 3, 4, 5, 6, 7, 8, 9, 10, 11, 12, 13, 14, 15],
    [1, 6, 11, 0, 5, 10, 15, 4, 9, 14, 3, 8, 13, 2, 7, 12],
    [5, 8, 11, 14, 1, 4, 7, 10, 13, 0, 3, 6, 9, 12, 15, 2],
    [0, 7, 14, 5, 12, 3, 10, 1, 8, 15, 6, 13, 4, 11, 2, 9]]

  // ---------------------------------------------------------------------
  // One step

  /** The rounds' shared shape: add the auxiliary value, the message word and
      the constant to `a`, then rotate left. */
  function Mix(a: bv32, aux: bv32, x: bv32, t: bv32, s: Shift): bv32
  {
    RotateLeft(WrappingAdd(WrappingAdd(WrappingAdd(a, aux), x), t), s)
  }

  /** `u32::wrapping_add`: addition modulo 2^32. */
  function WrappingAdd(x: bv32, y: bv32): bv32
  {
    x + y
  }

  /** `u32::rotate_left`. */
  function RotateLeft(v: bv32, s: Shift): bv32
  {
    v.RotateLeft(s)
  }

  /** `round1` at step `i`: constant `T[i]`, shift `S[0][i % 4]`. */
  function Round1(a: bv32, b: bv32, c: bv32, d: bv32, x: bv32, i: nat): bv32
    requires i < 64
  {
    Mix(a, F(b, c, d), x, T[i], S[0][i % 4])
  }

  /** `round2` at step `i`: constant `T[i]`, shift `S[1][i % 4]`. */
  function Round2(a: bv32, b: bv32, c: bv32, d: bv32, x: bv32, i: nat): bv32
    requires i < 64
  {
    Mix(a, G(b, c, d), x, T[i], S[1][i % 4])
  }

  /** `round3` at step `i`: constant `T[i]`, shift `S[2][i % 4]`. */
  function Round3(a: bv32, b: bv32, c: bv32, d: bv32, x: bv32, i: nat): bv32
    requires i < 64
  {
    Mix(a, H(b, c, d), x, T[i], S[2][i % 4])
  }

  /** `round4` at step `i`: constant `T[i]`, shift `S[3][i % 4]`. */
  function Round4(a: bv32, b: bv32, c: bv32, d: bv32, x: bv32, i: nat): bv32
    requires i < 64
  {
    Mix(a, I(b, c, d), x, T[i], S[3][i % 4])
  }

  /** The MD buffer: the four words A, B, C, D in this order. */
  predicate IsBuffer(buf: seq<bv32>)
  {
    |buf| == 4
  }

  /** The initial buffer of section 3.3. */
  const Init: seq<bv32> := [0x67452301, 0xefcdab89, 0x98badcfe, 0x10325476]

  /** The round function of step `k`: `round1` to `round4` for `k / 16` = 0 to 3. */
  function RoundFor(k: nat, a: bv32, b: bv32, c: bv32, d: bv32, w: bv32): bv32
    requires k < 64
  {
    if k < 16 then Round1(a, b, c, d, w, k)
    else if k < 32 then Round2(a, b, c, d, w, k)
    else if k < 48 then Round3(a, b, c, d, w, k)
    else Round4(a, b, c, d, w, k)
  }

  /** The message word of step `k`. */
  function WordFor(x: seq<bv32>, k: nat): bv32
    requires |x| == 16 && k < 64
  {
    x[X[k / 16][k % 16]]
  }

  /** Step `k` of the 64, reading message word `w`; afterwards the buffer
      turns over `(a, b, c, d) := (d, b + temp, b, c)`. */
  function Step(buf: seq<bv32>, w: bv32, k: nat): (r: seq<bv32>)
    requires IsBuffer(buf) && k < 64
    ensures IsBuffer(r)
  {
    var temp := RoundFor(k, buf[0], buf[1], buf[2], buf[3], w);
    [buf[3], WrappingAdd(buf[1], temp), buf[1], buf[2]]
  }

  /** The buffer after the first `n` steps. */
  function Steps(buf: seq<bv32>, x: seq<bv32>, n: nat): (r: seq<bv32>)
    requires IsBuffer(buf) && |x| == 16 && n <= 64
    ensures IsBuffer(r)
    decreases n
  {
    if n == 0 then buf else Step(Steps(buf, x, n - 1), WordFor(x, n - 1), n - 1)
  }

  /** One block: sixty-four steps, then each word increased by its value
      before the block. */
  function Compress(buf: seq<bv32>, x: seq<bv32>): (r: seq<bv32>)
    requires IsBuffer(buf) && |x| == 16
    ensures IsBuffer(r)
  {
    FeedForward(Steps(buf, x, 64), buf)
  }

  /** The feed-forward: word-wise wrapping addition of two buffers. */
  function FeedForward(out: seq<bv32>, buf: seq<bv32>): (r: seq<bv32>)
    requires IsBuffer(out) && IsBuffer(buf)
    ensures IsBuffer(r)
  {
    [WrappingAdd(out[0], buf[0]), WrappingAdd(out[1], buf[1]), WrappingAdd(out[2], buf[2]), WrappingAdd(out[3], buf[3])]
  }

  /** The auxiliary function of step `k`. */
  function Aux(k: nat, b: bv32, c: bv32, d: bv32): bv32
    requires k < 64
  {
    if k < 16 then F(b, c, d) else if k < 32 then G(b, c, d) else if k < 48 then H(b, c, d) else I(b, c, d)
  }

  /** Every round function is `Mix` with its auxiliary function, the constant
      `T[k]` and the shift `S[k / 16][k % 4]`. */
  lemma RoundForIsMix(k: nat, a: bv32, b: bv32, c: bv32, d: bv32, w: bv32)
    requires k < 64
    ensures RoundFor(k, a, b, c, d, w) == Mix(a, Aux(k, b, c, d), w, T[k], S[k / 16][k % 4])
  {
    if k < 16 {
      assert k / 16 == 0;
    } else if k < 32 {
      assert k / 16 == 1;
    } else if k < 48 {
      assert k / 16 == 2;
    } else {
      assert k / 16 == 3;
    }
  }

  // ---------------------------------------------------------------------
  // Bytes and words

  /** `u32::from_le_bytes`. */
  function WordLe(b0: bv8, b1: bv8, b2: bv8, b3: bv8): bv32
  {
    (b0 as bv32) | ((b1 as bv32) << 8) | ((b2 as bv32) << 16) | ((b3 as bv32) << 24)
  }

  /** `u32::to_le_bytes`. */
  function LeBytes(w: bv32): (r: seq<bv8>)
    ensures |r| == 4
  {
    [(w & 0xFF) as bv8, ((w >> 8) & 0xFF) as bv8, ((w >> 16) & 0xFF) as bv8, ((w >> 24) & 0xFF) as bv8]
  }

  /** The little-endian encodings are inverse to each other. */
  lemma LeBytesWordLe(b0: bv8, b1: bv8, b2: bv8, b3: bv8)
    ensures LeBytes(WordLe(b0, b1, b2, b3)) == [b0, b1, b2, b3]
  {
  }

  lemma WordLeLeBytes(w: bv32)
    ensures WordLe(LeBytes(w)[0], LeBytes(w)[1], LeBytes(w)[2], LeBytes(w)[3]) == w
  {
  }

  /** `u64::to_le_bytes`. */
  function LeBytes64(w: bv64): (r: seq<bv8>)
    ensures |r| == 8
  {
    [(w & 0xFF) as bv8, ((w >> 8) & 0xFF) as bv8, ((w >> 16) & 0xFF) as bv8, ((w >> 24) & 0xFF) as bv8,
     ((w >> 32) & 0xFF) as bv8, ((w >> 40) & 0xFF) as bv8, ((w >> 48) & 0xFF) as bv8, ((w >> 56) & 0xFF) as bv8]
  }

  /** The 16 words of the block starting at byte `i`, each read little-endian. */
  function BlockWords(m: seq<bv8>, i: nat): (x: seq<bv32>)
    requires i + 64 <= |m|
    ensures |x| == 16
  {
    seq(16, j requires 0 <= j < 16 => WordLe(m[i + 4 * j], m[i + 4 * j + 1], m[i + 4 * j + 2], m[i + 4 * j + 3]))
  }

  // ---------------------------------------------------------------------
  // Padding (sections 3.1 and 3.2)

  /** The number of zero bytes after the 0x80 byte: the fewest that bring the
      length to 56 modulo 64. */
  function PadZeros(len: nat): nat
  {
    (55 - len) % 64
  }

  /** The bit length as the 64-bit field of section 3.2: only the low-order
      64 bits of it are kept. */
  function LengthField(len: nat): bv64
  {
    ((len * 8) % 0x1_0000_0000_0000_0000) as bv64
  }

  /** The padded message. */
  function Pad(input: seq<bv8>): seq<bv8>
  {
    input + [0x80] + seq(PadZeros(|input|), _ => 0) + LeBytes64(LengthField(|input|))
  }

  /** The loop condition of the padding: a length of 448 bits modulo 512. */
  predicate AtLengthField(n: nat)
  {
    n * 8 % 512 == 448
  }

  /** The zero bytes bring the length to 448 bits modulo 512, and no shorter
      run of zero bytes does. */
  lemma PadZerosFewest(len: nat)
    ensures PadZeros(len) < 64
    ensures AtLengthField(len + 1 + PadZeros(len))
    ensures forall n :: len + 1 <= n < len + 1 + PadZeros(len) ==> !AtLengthField(n)
  {
    forall n | len + 1 <= n < len + 1 + PadZeros(len)
      ensures !AtLengthField(n)
    {
      BitsModulo(n);
    }
    BitsModulo(len + 1 + PadZeros(len));
  }

  /** The bit-length condition is a byte-length condition. */
  lemma BitsModulo(n: nat)
    ensures AtLengthField(n) <==> n % 64 == 56
  {
  }

  /** The padded message is the input, one 0x80 byte, zero bytes and the
      length field; its length is a multiple of 64 and it is longer than the
      input by 9 to 72 bytes. */
  lemma PadShape(input: seq<bv8>)
    ensures |Pad(input)| % 64 == 0
    ensures |input| + 9 <= |Pad(input)| <= |input| + 72
    ensures Pad(input)[..|input|] == input
    ensures Pad(input)[|input|] == 0x80
    ensures forall k :: |input| < k < |Pad(input)| - 8 ==> Pad(input)[k] == 0
    ensures Pad(input)[|Pad(input)| - 8..] == LeBytes64(LengthField(|input|))
  {
    var z := PadZeros(|input|);
    PadLength(|input|);
    var head := input + [0x80] + seq(z, _ => 0);
    var tail := LeBytes64(LengthField(|input|));
    assert Pad(input) == head + tail;
    assert |Pad(input)| == |input| + 9 + z;
    assert (head + tail)[..|input|] == head[..|input|];
    assert (head + tail)[|head|..] == tail;
  }

  /** The padded length is a multiple of 64. */
  lemma PadLength(len: nat)
    ensures PadZeros(len) < 64
    ensures (len + 9 + PadZeros(len)) % 64 == 0
  {
    PadZerosFewest(len);
  }

  // ---------------------------------------------------------------------
  // The digest

  /** The buffer after the first `n` blocks of `m`. */
  function HashBlocks(buf: seq<bv32>, m: seq<bv8>, n: nat): (r: seq<bv32>)
    requires IsBuffer(buf) && 64 * n <= |m|
    ensures IsBuffer(r)
    decreases n
  {
    if n == 0 then buf else Compress(HashBlocks(buf, m, n - 1), BlockWords(m, 64 * (n - 1)))
  }

  /** The output of section 3.5: a, b, c, d, each little-endian. */
  function Digest(buf: seq<bv32>): (r: seq<bv8>)
    requires IsBuffer(buf)
    ensures |r| == 16
  {
    LeBytes(buf[0]) + LeBytes(buf[1]) + LeBytes(buf[2]) + LeBytes(buf[3])
  }

  /** The MD5 digest of `input`. */
  function Md5(input: seq<bv8>): (r: seq<bv8>)
    ensures |r| == 16
  {
    var m := Pad(input);
    PadShape(input);
    Digest(HashBlocks(Init, m, |m| / 64))
  }

  /** The buffer holds the words `a`, `b`, `c`, `d`. */
  predicate Holds(buf: seq<bv32>, a: bv32, b: bv32, c: bv32, d: bv32)
    requires IsBuffer(buf)
  {
    buf[0] == a && buf[1] == b && buf[2] == c && buf[3] == d
  }

  /** Step `k`, when it is step `j` of round `r`, uses that round's function:
      the buffer turns over and `b` gains the value. */
  lemma StepOfRound(buf: seq<bv32>, w: bv32, r: nat, j: nat, k: nat)
    requires IsBuffer(buf) && r < 4 && j < 16 && k == 16 * r + j
    ensures Step(buf, w, k)[0] == buf[3] && Step(buf, w, k)[2] == buf[1] && Step(buf, w, k)[3] == buf[2]
    ensures r == 0 ==> Step(buf, w, k)[1] == WrappingAdd(buf[1], Round1(buf[0], buf[1], buf[2], buf[3], w, k))
    ensures r == 1 ==> Step(buf, w, k)[1] == WrappingAdd(buf[1], Round2(buf[0], buf[1], buf[2], buf[3], w, k))
    ensures r == 2 ==> Step(buf, w, k)[1] == WrappingAdd(buf[1], Round3(buf[0], buf[1], buf[2], buf[3], w, k))
    ensures r == 3 ==> Step(buf, w, k)[1] == WrappingAdd(buf[1], Round4(buf[0], buf[1], buf[2], buf[3], w, k))
  {
    StepWords(buf, w, k);
    assert k / 16 == r;
    if r == 0 {
      assert RoundFor(k, buf[0], buf[1], buf[2], buf[3], w) == Round1(buf[0], buf[1], buf[2], buf[3], w, k);
    } else if r == 1 {
      assert RoundFor(k, buf[0], buf[1], buf[2], buf[3], w) == Round2(buf[0], buf[1], buf[2], buf[3], w, k);
    } else if r == 2 {
      assert RoundFor(k, buf[0], buf[1], buf[2], buf[3], w) == Round3(buf[0], buf[1], buf[2], buf[3], w, k);
    } else {
      assert RoundFor(k, buf[0], buf[1], buf[2], buf[3], w) == Round4(buf[0], buf[1], buf[2], buf[3], w, k);
    }
  }

  /** A step rotates the buffer and adds the round function's value to `b`. */
  lemma StepWords(buf: seq<bv32>, w: bv32, k: nat)
    requires IsBuffer(buf) && k < 64
    ensures Step(buf, w, k)[0] == buf[3] && Step(buf, w, k)[2] == buf[1] && Step(buf, w, k)[3] == buf[2]
    ensures Step(buf, w, k)[1] == WrappingAdd(buf[1], RoundFor(k, buf[0], buf[1], buf[2], buf[3], w))
  {
  }

  /** Step `j` of round `r` reads word `X[r][j]`. */
  lemma WordOfRound(x: seq<bv32>, r: nat, j: nat, k: nat)
    requires |x| == 16 && r < 4 && j < 16 && k == 16 * r + j
    ensures WordFor(x, k) == x[X[r][j]]
  {
    assert k / 16 == r && k % 16 == j;
  }

  /** The step sequence, one step further. */
  lemma {:induction false} StepsNext(buf: seq<bv32>, x: seq<bv32>, n: nat)
    requires IsBuffer(buf) && |x| == 16 && n < 64
    ensures Steps(buf, x, n + 1) == Step(Steps(buf, x, n), WordFor(x, n), n)
  {
  }

  /** The block sequence, one block further. */
  lemma {:induction false} HashBlocksNext(buf: seq<bv32>, m: seq<bv8>, n: nat)
    requires IsBuffer(buf) && 64 * (n + 1) <= |m|
    ensures HashBlocks(buf, m, n + 1) == Compress(HashBlocks(buf, m, n), BlockWords(m, 64 * n))
  {
  }

  /** The block function is the sixty-four steps fed forward. */
  lemma {:induction false} CompressFeedsForward(buf: seq<bv32>, x: seq<bv32>)
    requires IsBuffer(buf) && |x| == 16
    ensures Compress(buf, x) == FeedForward(Steps(buf, x, 64), buf)
  {
  }

  /** The digest of the input is the output of the buffer after every block
      of the padded input. */
  lemma {:induction false} Md5Blocks(input: seq<bv8>)
    ensures |Pad(input)| % 64 == 0
    ensures Md5(input) == Digest(HashBlocks(Init, Pad(input), |Pad(input)| / 64))
  {
    PadShape(input);
  }

  // ---------------------------------------------------------------------
  // The hash, step by step

  /** `hash`: pad the input (steps 1 and 2 of section 3), run the blocks
      through the buffer words (steps 3 and 4), and write the words out
      little-endian (step 5). */
  method Hash(input: seq<bv8>) returns (digest: seq<bv8>)
    ensures digest == Md5(input)
  {
    var inputVec := Padding(input);
    PadShape(input);
    var a, b, c, d := ProcessBlocks(inputVec, |inputVec| / 64);
    Md5Blocks(input);
    digest := LeBytes(a) + LeBytes(b) + LeBytes(c) + LeBytes(d);
  }

  /** The block loop of `hash`: from the initial buffer, each 64-byte block
      in turn updates `a`, `b`, `c`, `d`. */
  method ProcessBlocks(inputVec: seq<bv8>, ghost blocks: nat) returns (a: bv32, b: bv32, c: bv32, d: bv32)
    requires |inputVec| == 64 * blocks
    ensures Holds(HashBlocks(Init, inputVec, blocks), a, b, c, d)
  {
    a, b, c, d := 0x67452301, 0xefcdab89, 0x98badcfe, 0x10325476;
    var i := 0;
    ghost var n := 0;
    while i < |inputVec|
      invariant i == 64 * n && n <= blocks
      invariant Holds(HashBlocks(Init, inputVec, n), a, b, c, d)
      decreases |inputVec| - i
    {
      assert n < blocks;
      a, b, c, d := NextBlock(inputVec, i, n, a, b, c, d);
      i := i + 64;
      n := n + 1;
    }
    assert n == blocks;
  }

  /** The block at byte `i = 64 * n` takes the buffer after `n` blocks to
      the buffer after `n + 1`. */
  method NextBlock(m: seq<bv8>, i: nat, ghost n: nat, aa: bv32, bb: bv32, cc: bv32, dd: bv32)
    returns (a: bv32, b: bv32, c: bv32, d: bv32)
    requires i == 64 * n && i + 64 <= |m|
    requires Holds(HashBlocks(Init, m, n), aa, bb, cc, dd)
    ensures Holds(HashBlocks(Init, m, n + 1), a, b, c, d)
  {
    HashBlocksNext(Init, m, n);
    a, b, c, d := CompressBlock(m, i, HashBlocks(Init, m, n), aa, bb, cc, dd);
  }

  /** The padding part of `hash`: append 0x80, zero bytes until the length
      is 448 bits modulo 512, then the eight bytes of the bit length. */
  method Padding(input: seq<bv8>) returns (inputVec: seq<bv8>)
    ensures inputVec == Pad(input)
  {
    inputVec := input;
    var length := LengthField(|input|);
    inputVec := inputVec + [0x80];
    PadZerosFewest(|input|);
    ghost var end := |input| + 1 + PadZeros(|input|);
    while !AtLengthField(|inputVec|)
      invariant |input| + 1 <= |inputVec| <= end
      invariant inputVec == input + [0x80] + seq(|inputVec| - |input| - 1, _ => 0)
      decreases end - |inputVec|
    {
      inputVec := inputVec + [0];
    }
    assert |inputVec| == end;
    var lengthBytes := LeBytes64(length);
    inputVec := PushBytes(inputVec, lengthBytes);
  }

  /** Push the bytes of `bytes` one at a time onto `v`. */
  method PushBytes(v: seq<bv8>, bytes: seq<bv8>) returns (r: seq<bv8>)
    ensures r == v + bytes
  {
    r := v;
    for k := 0 to |bytes|
      invariant r == v + bytes[..k]
    {
      assert bytes[..k + 1] == bytes[..k] + [bytes[k]];
      r := r + [bytes[k]];
    }
    assert bytes[..|bytes|] == bytes;
  }

  /** One iteration of the block loop of `hash`: load sixteen words from
      byte `i`, run the four rounds of sixteen steps, and add the buffer
      from before the block. `start` is that buffer as a sequence. */
  method CompressBlock(m: seq<bv8>, i: nat, ghost start: seq<bv32>, aa: bv32, bb: bv32, cc: bv32, dd: bv32)
    returns (a: bv32, b: bv32, c: bv32, d: bv32)
    requires i + 64 <= |m| && IsBuffer(start) && Holds(start, aa, bb, cc, dd)
    ensures Holds(Compress(start, BlockWords(m, i)), a, b, c, d)
  {
    var x := LoadWords(m, i);
    ghost var xs := x[..];
    a, b, c, d := aa, bb, cc, dd;
    for r := 0 to 4
      invariant x[..] == xs
      invariant Holds(Steps(start, xs, 16 * r), a, b, c, d)
    {
      a, b, c, d := RunRound(r, x, start, xs, a, b, c, d);
    }
    CompressFeedsForward(start, xs);
    a := WrappingAdd(a, aa);
    b := WrappingAdd(b, bb);
    c := WrappingAdd(c, cc);
    d := WrappingAdd(d, dd);
  }

  /** The sixteen little-endian words of the block at byte `i`. */
  method LoadWords(m: seq<bv8>, i: nat) returns (x: array<bv32>)
    requires i + 64 <= |m|
    ensures fresh(x) && x[..] == BlockWords(m, i)
  {
    x := new bv32[16];
    for j := 0 to 16
      invariant forall k :: 0 <= k < j ==> x[k] == BlockWords(m, i)[k]
    {
      x[j] := WordLe(m[i + j * 4], m[i + j * 4 + 1], m[i + j * 4 + 2], m[i + j * 4 + 3]);
    }
  }

  /** Round `r` of a block: the `for_each` over `j` in 0..16, each call of
      its closure one step. */
  method RunRound(r: nat, x: array<bv32>, ghost start: seq<bv32>, ghost xs: seq<bv32>,
                  a0: bv32, b0: bv32, c0: bv32, d0: bv32)
    returns (a: bv32, b: bv32, c: bv32, d: bv32)
    requires r < 4 && x.Length == 16 && x[..] == xs && IsBuffer(start)
    requires Holds(Steps(start, xs, 16 * r), a0, b0, c0, d0)
    ensures Holds(Steps(start, xs, 16 * r + 16), a, b, c, d)
  {
    a, b, c, d := a0, b0, c0, d0;
    var step := 16 * r;
    for j := 0 to 16
      invariant step == 16 * r + j
      invariant Holds(Steps(start, xs, step), a, b, c, d)
    {
      a, b, c, d, step := RoundStep(r, j, x, start, xs, a, b, c, d, step);
    }
  }

  /** The closure of round `r` at `j`: compute `temp` with the round's
      function on word `X[r][j]`, then `a = d; d = c; c = b; b = b + temp`
      and count the step. */
  method RoundStep(r: nat, j: nat, x: array<bv32>, ghost start: seq<bv32>, ghost xs: seq<bv32>,
                   a0: bv32, b0: bv32, c0: bv32, d0: bv32, step0: nat)
    returns (a: bv32, b: bv32, c: bv32, d: bv32, step: nat)
    requires r < 4 && j < 16 && step0 == 16 * r + j
    requires x.Length == 16 && x[..] == xs && IsBuffer(start)
    requires Holds(Steps(start, xs, step0), a0, b0, c0, d0)
    ensures step == step0 + 1
    ensures Holds(Steps(start, xs, step), a, b, c, d)
  {
    var xi := X[r][j];
    ghost var cur := Steps(start, xs, step0);
    StepsNext(start, xs, step0);
    WordOfRound(xs, r, j, step0);
    StepOfRound(cur, x[xi], r, j, step0);
    var temp;
    if r == 0 {
      temp := Round1(a0, b0, c0, d0, x[xi], step0);
    } else if r == 1 {
      temp := Round2(a0, b0, c0, d0, x[xi], step0);
    } else if r == 2 {
      temp := Round3(a0, b0, c0, d0, x[xi], step0);
    } else {
      temp := Round4(a0, b0, c0, d0, x[xi], step0);
    }
    a := d0;
    d := c0;
    c := b0;
    b := WrappingAdd(b0, temp);
    step := step0 + 1;
  }
}
