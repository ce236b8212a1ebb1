# A verified model of the `cryptography` crate's core

This project models the small cryptographic routines of the `cryptography`
Rust crate in Dafny and proves what they compute. It covers:

- **AES-128** (`src/ciphers/aes.rs`, module `Aes`). The cipher object holds a
  48-word key table. SubBytes, ShiftRows, MixColumns and AddRoundKey change a
  4x4 byte state (an `array2<bv8>`) in place, each proved against a function
  on grids. `encrypt` loads the state row by row and writes it out column by
  column.
- **GF(2^8) multiplication** (`galois_multiplication` in `src/lib.rs`, module
  `Galois`). It is the eight-iteration shift-and-add loop, with reduction by
  0x1B (section 4.2 of FIPS 197).
- **MD5** (`src/hash/md5.rs`, module `Md5`), per sections 3.1 to 3.5 of
  RFC 1321:
  - the padding loop;
  - little-endian word loading;
  - the 64 steps in four rounds of 16;
  - the feed-forward;
  - the little-endian digest.
- **The 64-bit modular field** (`src/fields/u64_field.rs`, module
  `U64Field`). Every operation is reduced modulo `MODULUS` through 128-bit
  intermediates.
- **`FieldElement`** (`src/fields/element.rs`, module `Element`). This
  element wrapper is a class: the operators build new elements, and the
  `*Assign` forms overwrite the value in place.
- **Number theory over big integers** (`src/primes/prime.rs`, module
  `Primes`):
  - `egcd` on signed integers, with `BigInt`'s truncating `/` and `%`;
  - `mod_inv`;
  - the Miller-Rabin test `is_prime`, with the random witness draws passed
    in as parameters.

  `src/prime/prime.rs` has the same three functions as associated functions
  of an empty struct `Prime`. They are the same algorithm line for line:
  `egcd` 7-14, `mod_inv` 16-25 and `is_prime` 27-62 mirror 12-19, 21-30 and
  32-68. The `Primes` members model both files, and the rows below cite the
  trait version. General modular arithmetic is in module `Modular`.
- **The R1CS program parser** (`src/arithmetization/r1cs.rs`, module `R1cs`).
  `Program` is a class whose variable and constraint lists `parse` grows
  statement by statement. `R1CS.Prove` appends to the witness vector. The
  module `R1csExamples` proves what the parser makes of the program in the
  crate's tests.
- **The RC5 shell** (`src/ciphers/rc5.rs`, module `Rc5`): the constructor's
  checks, the derived fields, `destroy`, and the `encrypt` stub.

A Rust panic is modelled as an explicit outcome where a caller can reach it:

- AES `encrypt` returns an `EncryptOutcome`;
- R1CS `parse` and `prove` return a `panicked` flag;
- `RC5::new` returns `null`;
- `is_prime` returns `None` for the `n - 4` underflow.

Inside helper operations, a panic is a precondition instead: the round-key
range of `add_round_key`, the subtractions of `sub` and `neg`, a zero
modulus, and the division by zero in `mod_inv(1, 0)`. The subtractions
panic only in a debug build. In a release build, `MODULUS - a` in `neg`
(u64_field.rs:18) and the `u128` subtraction in `sub` (u64_field.rs:14)
wrap around instead. The model does not cover the wrapped results.

## Model

| member | source | states |
|---|---|---|
| Galois.GaloisMultiplication | src/lib.rs:66-88 | the eight-iteration loop returns `GaloisMul(a, b)`. `MulIsSum` shows this is the shift-and-add product, reduced by 0x1B at every doubling |
| Galois.Xtime | src/lib.rs:76-82 | the update of `a`: a left shift, then 0x1B added when the top bit was set. `XtimeCases` states both cases |
| Galois.GaloisMul | src/lib.rs:66-88 | the function the loop is proved against: eight iterations of `GfLoop`, starting from `p = 0` |
| Galois.GfLoop | src/lib.rs:71-85 | `n` runs of the loop body from accumulator `p`; `GfLoopStep` unfolds one run, and `GaloisMul` is eight runs from 0 |
| Galois.Accumulate | src/lib.rs:72-74 | `p ^= a` when the low bit of `b` is set, else `p` unchanged |
| Galois.Half | src/lib.rs:84 | `b >>= 1`; `HalfPowerLowBit` shows that the bit tested after `k` halvings is bit `k` of `b` |
| Galois.Iteration | src/lib.rs:72-84 | one iteration adds `a` to `p` when `b`'s low bit is set, replaces `a` by xtime(a) and halves `b` |
| Galois.XtimeCases | src/lib.rs:76-82 | the update of `a` is a left shift, with 0x1B added exactly when the top bit was set |
| Galois.GfLoopStep | src/lib.rs:71-85 | a run of n iterations is one iteration followed by n - 1 more |
| Galois.GfLoopZeroMultiplier | src/lib.rs:71-74 | with multiplier 0 the accumulator never changes |
| Galois.GfLoopZeroMultiplicand | src/lib.rs:76-82 | with multiplicand 0 every added term is 0 |
| Galois.MulZeroRight | src/lib.rs:71-74 | `galois_multiplication(a, 0) == 0` |
| Galois.MulZeroLeft | src/lib.rs:76-82 | `galois_multiplication(0, b) == 0` |
| Galois.MulOneRight | src/lib.rs:71-85 | `galois_multiplication(a, 1) == a` |
| Galois.MulTwoRight | src/lib.rs:76-84 | `galois_multiplication(a, 2)` is xtime: `(a << 1) ^ (0x1B if a >= 0x80 else 0)` |
| Galois.MulThreeRight | src/lib.rs:71-85 | `galois_multiplication(a, 3) == galois_multiplication(a, 2) ^ a` |
| Galois.MulLinearRight | src/lib.rs:71-87 | the product is XOR-linear in the multiplier: `gm(a, b1 ^ b2) == gm(a, b1) ^ gm(a, b2)` |
| Galois.HalfPowerLowBit | src/lib.rs:72-84 | after `k` halvings of `b`, the low bit tested at line 72 is bit `k` of the original `b` |
| Galois.XtimePowerAdd | src/lib.rs:76-82 | doubling `i` times and then `j` times is doubling `i + j` times |
| Galois.MulIsSum | src/lib.rs:71-87 | the product is the XOR, over the set bits `j` of `b`, of `a` doubled `j` times. This is polynomial multiplication modulo x^8 + x^4 + x^3 + x + 1 (section 4.2 of FIPS 197) |
| Galois.Unrolled | src/lib.rs:71-85 | the loop is eight `Accumulate` steps over the successive doublings of `a` and halvings of `b` |
| Galois.MulTwoLeft | src/lib.rs:66-88 | `galois_multiplication(2, b)` is xtime(b), and it equals `galois_multiplication(b, 2)` |
| Galois.MulThreeLeft | src/lib.rs:66-88 | `galois_multiplication(3, b)` is xtime(b) ^ b, and it equals `galois_multiplication(b, 3)` |
| Aes.SBox | src/ciphers/aes.rs:3-21 | the substitution of a byte: `SBOX[b >> 4][b & 0x0F]`. `SBoxExamples` checks entries against the crate's test |
| Aes.SubBytesSpec | src/ciphers/aes.rs:64-75 | SubBytes on a grid: every byte replaced by its substitute. `SubBytes` is proved against it |
| Aes.ShiftRowsSpec | src/ciphers/aes.rs:53-62 | ShiftRows on a grid: `new[i][j] == old[i][(i + j) % 4]`. `ShiftRows` is proved against it |
| Aes.MixColumn | src/ciphers/aes.rs:44-47 | the four sums of constant-first GF(2^8) products that make one output column |
| Aes.MixColumnsSpec | src/ciphers/aes.rs:40-51 | the whole-state MixColumns on a 4x4 grid: byte `[i][c]` is byte `i` of `MixColumn` of column `c` (`MixColumnsAt`), so each output column depends on its own input column only (`MixColumnsColumnLocal`) |
| Aes.Round | src/ciphers/aes.rs:97-102 | one body of the ten-round loop: SubBytes, ShiftRows, MixColumns, then AddRoundKey with the given round key, defined only while that key lies inside the table |
| Aes.Rounds | src/ciphers/aes.rs:97-102 | `n` loop bodies using round keys `first` to `first + n - 1` in order; `Encrypt`'s loop invariant ties the state to it |
| Aes.AddRoundKeySpec | src/ciphers/aes.rs:28-38 | AddRoundKey on a grid: byte `[i][j]` XORed with byte `i` of key word `4 * round + j` |
| Aes.Load | src/ciphers/aes.rs:85-89 | the state read row by row from the first 16 input bytes |
| Aes.Store | src/ciphers/aes.rs:108-112 | the 16 output bytes, written column by column |
| Aes.EncryptAsWritten | src/ciphers/aes.rs:81-115 | `encrypt` as written: a panic for fewer than 16 bytes. Otherwise round key 0, the extra increment, ten rounds with keys 2 to 11, and the panic at key 12 |
| Aes.EncryptCorrected | src/ciphers/aes.rs:81-115 | `encrypt` without the increment at line 95: round keys 0 to 11 in order, then the column-major output |
| Aes.AdvancedEncryptionStandard128Bit.constructor | src/ciphers/aes.rs:23-25 | the cipher object holds the given 48-word key table |
| Aes.AdvancedEncryptionStandard128Bit.AddRoundKey | src/ciphers/aes.rs:28-38 | needs round key words `4*round .. 4*round + 4` inside the 48-word table. It XORs word `4*round + j`, byte `i`, into `state[i][j]`, and returns the round counter plus exactly one |
| Aes.AdvancedEncryptionStandard128Bit.XorRow | src/ciphers/aes.rs:31-35 | row `i` takes byte `i` of each round key word; the other rows are untouched |
| Aes.AdvancedEncryptionStandard128Bit.MixColumns | src/ciphers/aes.rs:40-51 | the state becomes `MixColumnsSpec` of the old state: every column goes through the four GF(2^8) formulas, all computed from the old state |
| Aes.AdvancedEncryptionStandard128Bit.MixColumnInto | src/ciphers/aes.rs:43-48 | column `c` of `temp` becomes the mixed column `c` of the state; the other columns of `temp` are untouched |
| Aes.AdvancedEncryptionStandard128Bit.MixColumnOf | src/ciphers/aes.rs:44-47 | the four sums of GF products equal `MixColumn` of the column |
| Aes.AdvancedEncryptionStandard128Bit.ShiftRows | src/ciphers/aes.rs:53-62 | the state becomes `ShiftRowsSpec` of the old state, with `new[i][j] == old[i][(i + j) % 4]` |
| Aes.AdvancedEncryptionStandard128Bit.RotateRow | src/ciphers/aes.rs:54-61 | row `i` is rotated left by `i` through the temporary row; the other rows are untouched |
| Aes.AdvancedEncryptionStandard128Bit.SubBytes | src/ciphers/aes.rs:64-75 | the state becomes `SubBytesSpec` of the old state: each byte is replaced by its table entry, in place |
| Aes.AdvancedEncryptionStandard128Bit.SubRow | src/ciphers/aes.rs:65-74 | every byte of row `i` is replaced by its substitute; the other rows are untouched |
| Aes.SubByte | src/ciphers/aes.rs:66-73 | one byte is replaced by its substitute; every other byte is untouched |
| Aes.Substitute | src/ciphers/aes.rs:67-72 | the lookup `SBOX[b >> 4][b & 0x0F]` is the substitution of `b` |
| Aes.AdvancedEncryptionStandard128Bit.Encrypt | src/ciphers/aes.rs:81-115 | the result is `EncryptAsWritten`: a panic for fewer than 16 bytes, otherwise round keys 0, 2, ..., 11 and the panic at round key 12 |
| Aes.AdvancedEncryptionStandard128Bit.EncryptFixed | src/ciphers/aes.rs:91-106 | without the extra increment at line 95, the result is `EncryptCorrected`: round keys 0 to 11 in order |
| Aes.AdvancedEncryptionStandard128Bit.Decrypt | src/ciphers/aes.rs:117-121 | `decrypt` returns its input unchanged |
| Aes.LoadState | src/ciphers/aes.rs:85-89 | a fresh state holds `input[4i + j]` at `[i][j]` (row-major) |
| Aes.StoreState | src/ciphers/aes.rs:108-114 | the 16 output bytes hold `state[i][j]` at `4j + i` (column-major) |
| Aes.SetColumn | src/ciphers/aes.rs:44-47 | column `c` of the grid is overwritten; the other columns are untouched |
| Aes.CopyGrid | src/ciphers/aes.rs:50 | `copy_from_slice` copies every byte of `temp` into the state |
| Aes.SBoxExamples | src/ciphers/aes.rs:207-221 | the table maps 0, 3, 69, 180 to 0x63, 0x7b, 0x6e, 0x8d |
| Aes.SubBytesExample | src/ciphers/aes.rs:207-221 | SubBytes maps the test row [0, 3, 69, 180] to [0x63, 0x7b, 0x6e, 0x8d] |
| Aes.SubBytesShiftRowsCommute | src/ciphers/aes.rs:53-75 | substitution and row rotation commute |
| Aes.ShiftRowsRotatesRows | src/ciphers/aes.rs:53-62 | row `i` comes out rotated left by `i`, with the same bytes (as a multiset); row 0 is unchanged |
| Aes.ShiftRowsAt | src/ciphers/aes.rs:57 | byte `[i][j]` after ShiftRows is byte `[i][(i + j) % 4]` before |
| Aes.ShiftRowsExample | src/ciphers/aes.rs:131-157 | the test's state rotates to rows [1,2,3,4], [2,3,4,1], [7,8,5,6], [2,9,0,1] |
| Aes.ShiftRowsFourTimes | src/ciphers/aes.rs:53-62 | applying ShiftRows four times restores the state |
| Aes.MixColumnExample1 | src/ciphers/aes.rs:241 | the column [c6, c6, c6, c6] maps to itself |
| Aes.MixColumnExample2 | src/ciphers/aes.rs:242 | the column [f2, 0a, 22, 5c] maps to [9f, dc, 58, 9d] |
| Aes.MixColumnExample3 | src/ciphers/aes.rs:243 | the column [db, 13, 53, 45] maps to [8e, 4d, a1, bc] |
| Aes.MixColumnExample4 | src/ciphers/aes.rs:244 | the column [2d, 26, 31, 4c] maps to [4d, 7e, bd, f8] |
| Aes.MixColumnCirculant | src/ciphers/aes.rs:44-47 | the four output bytes are one row formula, `{02}s0 + {03}s1 + s2 + s3`, applied to the column rotated by 0, 1, 2 and 3. This is the circulant matrix of section 5.1.3 of FIPS 197 |
| Aes.MixRowXtime | src/ciphers/aes.rs:44 | with the products written out, the row formula is `xtime(s0) ^ xtime(s1) ^ s1 ^ s2 ^ s3`, as in equation (5.6) of FIPS 197 |
| Aes.MixColumnsAt | src/ciphers/aes.rs:43-48 | byte `[i][c]` after MixColumns is byte `i` of the transformed column `c` |
| Aes.MixColumnsColumnLocal | src/ciphers/aes.rs:40-51 | output column `c` depends only on input column `c` |
| Aes.AddRoundKeyInvolution | src/ciphers/aes.rs:28-38 | applying the same round key twice restores the state |
| Aes.AddRoundKeyClears | src/ciphers/aes.rs:33 | a state equal to the transposed round key becomes all zero |
| Aes.AddRoundKeyExample | src/ciphers/aes.rs:179-205 | the test's key words 0 to 3 clear the test's state |
| Aes.LoadReadsSixteenBytes | src/ciphers/aes.rs:85-89 | only the first 16 input bytes are read |
| Aes.StoreLoadTransposes | src/ciphers/aes.rs:85-112 | loading then storing moves byte `4i + j` to position `4j + i` |
| Aes.StoreLoadNotIdentity | src/ciphers/aes.rs:85-112 | loading then storing is not the identity whenever bytes 1 and 4 differ |
| Aes.EncryptAsWrittenNeverSucceeds | src/ciphers/aes.rs:91-106 | `encrypt` as written never yields a ciphertext; on 16 or more bytes it stops at a round key outside the table |
| Aes.EncryptCorrectedBlock | src/ciphers/aes.rs:81-114 | the corrected `encrypt` fails exactly on inputs shorter than 16 bytes; otherwise it yields 16 bytes that depend only on the first 16 input bytes |
| Md5.F | src/hash/md5.rs:10-12 | `f(x, y, z) = (x & y) \| (!x & z)`. `FSelects` states what it selects |
| Md5.G | src/hash/md5.rs:14-16 | `g(x, y, z) = (x & z) \| (y & !z)`. `GSelects` states what it selects |
| Md5.H | src/hash/md5.rs:18-20 | `h(x, y, z) = x ^ y ^ z`. `HParity` states its symmetry |
| Md5.I | src/hash/md5.rs:22-24 | `i(x, y, z) = y ^ (x \| !z)`. `IRecovers` states how it is undone |
| Md5.Round1 | src/hash/md5.rs:53-62 | `a + f(b, c, d) + x + T[i]`, wrapping, rotated left by `S[0][i % 4]` |
| Md5.Round2 | src/hash/md5.rs:64-73 | the same with `g` and `S[1]` |
| Md5.Round3 | src/hash/md5.rs:75-84 | the same with `h` and `S[2]` |
| Md5.Round4 | src/hash/md5.rs:86-95 | the same with `i` and `S[3]` |
| Md5.Mix | src/hash/md5.rs:58-61 | the shared chain of the four round functions: `a + aux + x + t` with wrapping adds, rotated left by `s`; `RoundForIsMix` shows every round function is this chain |
| Md5.WrappingAdd | src/hash/md5.rs:58-60 | `u32::wrapping_add`, addition modulo 2^32 |
| Md5.RotateLeft | src/hash/md5.rs:61 | `u32::rotate_left` by the shift of the step |
| Md5.Aux | src/hash/md5.rs:10-24 | the auxiliary function of step `k`: `f`, `g`, `h`, `i` for `k / 16` = 0 to 3 |
| Md5.RoundFor | src/hash/md5.rs:148-194 | the round function step `k` calls: `round1` to `round4` for `k / 16` = 0 to 3, given the step number as `i`; by `RoundForIsMix` it uses `T[k]` and `S[k / 16][k % 4]` |
| Md5.WordFor | src/hash/md5.rs:150-151 | the message word of step `k` is `x[X[k / 16][k % 16]]` (`WordOfRound`) |
| Md5.Step | src/hash/md5.rs:149-157 | one step turns the buffer over into `(d, b + temp, b, c)` and keeps it four words long |
| Md5.Steps | src/hash/md5.rs:146-194 | the buffer after the first `n` of the 64 steps, taken in step order (`StepsNext`) |
| Md5.Compress | src/hash/md5.rs:131-199 | one block: the 64 steps, then the feed-forward onto the pre-block buffer (`CompressFeedsForward`); `CompressBlock` shows the loop body computes it |
| Md5.FeedForward | src/hash/md5.rs:196-199 | each of a, b, c, d increased by its value before the block, modulo 2^32 |
| Md5.WordLe | src/hash/md5.rs:138-143 | `u32::from_le_bytes`, the inverse of `LeBytes` (`LeBytesWordLe`, `WordLeLeBytes`) |
| Md5.LeBytes | src/hash/md5.rs:203-206 | `u32::to_le_bytes`: four bytes, least significant first |
| Md5.LeBytes64 | src/hash/md5.rs:121-123 | `u64::to_le_bytes` of the bit length: eight bytes, least significant first |
| Md5.BlockWords | src/hash/md5.rs:137-144 | the 16 words of the block at byte `i`, each read little-endian from four consecutive bytes |
| Md5.Pad | src/hash/md5.rs:112-123 | the padded message. `PadShape` and `PadZerosFewest` state its shape |
| Md5.PadZeros | src/hash/md5.rs:116-119 | the number of zero bytes the loop pushes: the fewest that bring the length to 56 modulo 64 (`PadZerosFewest`) |
| Md5.AtLengthField | src/hash/md5.rs:117 | the loop condition `len * 8 % 512 == 448`, the same as `len % 64 == 56` (`BitsModulo`) |
| Md5.LengthField | src/hash/md5.rs:113-121 | the input's bit length as a `u64`, kept modulo 2^64 as section 3.2 of RFC 1321 asks |
| Md5.Md5 | src/hash/md5.rs:110-209 | the digest: 16 bytes, the little-endian output of the buffer after all blocks of the padded message |
| Md5.HashBlocks | src/hash/md5.rs:130-200 | the buffer after the first `n` blocks, each compressed in order (`HashBlocksNext`); `ProcessBlocks` leaves it in a, b, c, d |
| Md5.Digest | src/hash/md5.rs:202-208 | the 16-byte output: a, b, c, d in that order, each little-endian |
| Md5.FSelects | src/hash/md5.rs:10-12 | `f` takes `y` where `x` has ones and `z` elsewhere |
| Md5.GSelects | src/hash/md5.rs:14-16 | `g` takes `x` where `z` has ones and `y` elsewhere |
| Md5.HParity | src/hash/md5.rs:18-20 | `h` is symmetric in its arguments and undoes itself |
| Md5.IRecovers | src/hash/md5.rs:22-24 | XORing `i`'s result with `y` gives back `x \| !z` |
| Md5.RoundForIsMix | src/hash/md5.rs:53-95 | step `k` of `round1` to `round4` is `a + aux(b, c, d) + x + T[k]`, rotated by `S[k / 16][k % 4]`, for the auxiliary function of round `k / 16` |
| Md5.StepOfRound | src/hash/md5.rs:146-194 | step `16r + j` sets `(a, b, c, d)` to `(d, b + round_r(...), b, c)` modulo 2^32 |
| Md5.StepWords | src/hash/md5.rs:149-157 | a step rotates the buffer and adds the round value to `b` |
| Md5.WordOfRound | src/hash/md5.rs:46-51 | step `j` of round `r` reads message word `X[r][j]` |
| Md5.StepsNext | src/hash/md5.rs:146-194 | the 64 steps run one after another in step order |
| Md5.LeBytesWordLe | src/hash/md5.rs:137-144 | reading four bytes little-endian and writing the word back gives the same bytes |
| Md5.WordLeLeBytes | src/hash/md5.rs:202-206 | writing a word little-endian and reading it back gives the same word |
| Md5.PadZerosFewest | src/hash/md5.rs:116-119 | the padding loop pushes the fewest zero bytes (under 64) that reach a length of 448 bits modulo 512 |
| Md5.BitsModulo | src/hash/md5.rs:117 | the bit-length condition `len * 8 % 512 == 448` is `len % 64 == 56` |
| Md5.PadShape | src/hash/md5.rs:112-123 | the padded message is the input, 0x80, zeros, then the bit length as 8 little-endian bytes. Its length is a multiple of 64 and 9 to 72 bytes longer than the input |
| Md5.PadLength | src/hash/md5.rs:112-124 | the padded length is a multiple of 64 bytes |
| Md5.HashBlocksNext | src/hash/md5.rs:130-200 | the blocks are compressed one after another, in order |
| Md5.CompressFeedsForward | src/hash/md5.rs:196-199 | each block's result is the 64 steps added word-wise (mod 2^32) to the buffer from before the block |
| Md5.Md5Blocks | src/hash/md5.rs:110-209 | the digest is the little-endian output of the buffer after all 64-byte blocks of the padded message, starting from 0x67452301, 0xefcdab89, 0x98badcfe, 0x10325476 |
| Md5.Hash | src/hash/md5.rs:110-209 | `hash` returns the MD5 digest of its input |
| Md5.Padding | src/hash/md5.rs:112-123 | the pushing loops build exactly the padded message |
| Md5.PushBytes | src/hash/md5.rs:123 | pushing bytes one at a time appends them in order |
| Md5.ProcessBlocks | src/hash/md5.rs:130-200 | the block loop leaves the buffer after all blocks in `a`, `b`, `c`, `d` |
| Md5.NextBlock | src/hash/md5.rs:131-199 | one pass of the block loop advances the buffer by one block |
| Md5.CompressBlock | src/hash/md5.rs:131-199 | the four rounds and the feed-forward compute the block function |
| Md5.LoadWords | src/hash/md5.rs:135-144 | the 16 words are the block's bytes read little-endian, four at a time |
| Md5.RunRound | src/hash/md5.rs:148-194 | each round's 16 steps advance the buffer by 16 steps |
| Md5.RoundStep | src/hash/md5.rs:149-157 | one closure call performs the next step and counts it |
| U64Field.Add | src/fields/u64_field.rs:9-11 | the result is below the modulus and congruent to `a + b`, with no overflow |
| U64Field.Sub | src/fields/u64_field.rs:13-15 | needs `b <= a + MODULUS` (no `u128` underflow); the result is below the modulus and congruent to `a - b` |
| U64Field.Neg | src/fields/u64_field.rs:17-19 | needs `a <= MODULUS`; the result is at most the modulus and adds to `a` to give exactly the modulus (unreduced) |
| U64Field.Mul | src/fields/u64_field.rs:21-23 | the result is below the modulus and congruent to `a * b` |
| U64Field.ProductFits | src/fields/u64_field.rs:21-23 | the product of two `u64` values fits in `u128` |
| U64Field.Xor | src/fields/u64_field.rs:26 | Rust's `^` on the two operands: bitwise exclusive or |
| U64Field.Pow | src/fields/u64_field.rs:25-27 | `^` is XOR: the result is below the modulus and congruent to `a XOR b`, not to a power |
| U64Field.PowMod | src/fields/u64_field.rs:25-27 | the evidently intended power: below the modulus and congruent to `a` raised to `b` |
| U64Field.FromU64 | src/fields/u64_field.rs:29-31 | the result is below the modulus, congruent to `x`, and equal to `x` when `x` is already reduced |
| U64Field.Eq | src/fields/u64_field.rs:33-35 | equality of the stored values, unreduced |
| U64Field.SubUndoesAdd | src/fields/u64_field.rs:9-15 | `sub(add(a, b), b) == a` for reduced operands |
| U64Field.AddUndoesSub | src/fields/u64_field.rs:9-15 | `add(sub(a, b), b) == a` for reduced operands |
| U64Field.NegIsInverse | src/fields/u64_field.rs:9-19 | `add(a, neg(a)) == 0` |
| U64Field.Commutative | src/fields/u64_field.rs:9-23 | `add` and `mul` ignore the order of their operands |
| U64Field.ReducedOperand | src/fields/u64_field.rs:9-31 | reducing an operand with `from_u64` first changes no sum or product |
| U64Field.PowIsExclusiveOr | src/fields/u64_field.rs:25-27 | `pow(2, 3) == 1` (2 XOR 3), while two to the third is 8 |
| U64Field.NegZeroIsUnreduced | src/fields/u64_field.rs:17-35 | `neg(0)` is the modulus itself, which `eq` tells apart from `from_u64(0)` |
| U64Field.NegReduced | src/fields/u64_field.rs:17-19 | the reduced negation is below the modulus, an additive inverse, and maps zero to zero |
| Element.FieldElement.FromBase | src/fields/element.rs:95-105 | `From<&BaseType>` stores the value as given |
| Element.FieldElement.FromU64 | src/fields/element.rs:107-116 | `From<u64>` stores `from_u64(x)`, the reduced value |
| Element.FieldElement.Plus | src/fields/element.rs:8-19 | `&a + &b` is a fresh element holding `add` of the two values |
| Element.FieldElement.Minus | src/fields/element.rs:21-32 | `&a - &b` is a fresh element holding `sub` of the two values |
| Element.FieldElement.Times | src/fields/element.rs:34-45 | `&a * &b` is a fresh element holding `mul` of the two values |
| Element.FieldElement.Negated | src/fields/element.rs:47-58 | `-&a` is a fresh element holding `neg` of the value |
| Element.FieldElement.AddAssign | src/fields/element.rs:60-69 | `a += &b` overwrites `a`'s value with `add` of the old values |
| Element.FieldElement.SubAssign | src/fields/element.rs:71-80 | `a -= &b` overwrites `a`'s value with `sub` of the old values |
| Element.FieldElement.MulAssign | src/fields/element.rs:83-92 | `a *= &b` overwrites `a`'s value with `mul` of the old values |
| Element.FieldElement.Equals | src/fields/element.rs:118-125 | two elements are equal exactly when their stored values are |
| Element.PlusMatchesAddAssign | src/fields/element.rs:60-69 | `a += &b` leaves `a` equal to what `&a + &b` returned, and `b` unchanged |
| Element.MinusMatchesSubAssign | src/fields/element.rs:71-80 | `a -= &b` leaves `a` equal to what `&a - &b` returned, and `b` unchanged |
| Element.TimesMatchesMulAssign | src/fields/element.rs:83-92 | `a *= &b` leaves `a` equal to what `&a * &b` returned, and `b` unchanged |
| Element.AddTwenty | src/fields/element.rs:136-155 | modulo 18446744069414584321, 10 + 10 is 20 by `+` and by `+=`, and compares equal to `from(20)` |
| Element.SubFive | src/fields/element.rs:157-177 | 10 - 5 is 5 by `-` and by `-=` |
| Element.NegOne | src/fields/element.rs:179-187 | the negation of `MODULUS - 1` is 1 |
| Element.MulSquare | src/fields/element.rs:189-209 | 14 * 14 is 196 by `*` and by `*=` |
| Primes.TModBounds | src/primes/prime.rs:16-17 | `BigInt` remainders are smaller than the divisor in magnitude; on non-negative operands `/` and `%` agree with Euclid's |
| Primes.TDiv | src/primes/prime.rs:17 | `BigInt` division, rounded toward zero; on non-negative operands it is Euclid's (`TModBounds`) |
| Primes.TMod | src/primes/prime.rs:16 | `BigInt` remainder, with the sign of the dividend and smaller than the divisor in magnitude (`TModBounds`) |
| Primes.Egcd | src/primes/prime.rs:12-19 | `egcd` with `BigInt`'s truncating `/` and `%`. `EgcdBezout`, `EgcdDivides` and `EgcdIsGreatest` state what it returns |
| Primes.EgcdOfZero | src/primes/prime.rs:13-14 | `egcd(0, b) == (b, 0, 1)` |
| Primes.EgcdStep | src/primes/prime.rs:16-17 | for non-negative operands, `egcd(a, b)` recurses on `(b % a, a)` and combines the coefficients as `(g, y - (b / a) * x, x)` |
| Primes.EgcdBezout | src/primes/prime.rs:12-19 | for all integers, `a * x + b * y == g` |
| Primes.EgcdDivides | src/primes/prime.rs:12-19 | for `a, b >= 0`, `g` is non-negative and divides both |
| Primes.EgcdIsGreatest | src/primes/prime.rs:12-19 | every common divisor of `a` and `b` divides `g`, so `g` is their greatest common divisor |
| Primes.ModInv | src/primes/prime.rs:21-30 | `mod_inv`: `None` when the divisor is not 1, otherwise the Bezout coefficient of `a` brought into `[0, m)`. `ModInvIsInverse` states its meaning |
| Primes.Residue | src/primes/prime.rs:28 | `(x % m + m) % m` with truncating remainders lands in `[0, m)` in `x`'s class |
| Primes.ModInvIsInverse | src/primes/prime.rs:21-30 | `mod_inv` is `None` exactly when `gcd(a, m) != 1`; `Some(r)` has `0 <= r < m` and `a * r == 1 (mod m)` |
| Primes.NoneMeansNoInverse | src/primes/prime.rs:24-26 | when `mod_inv` is `None`, no inverse exists at all |
| Primes.ModInvFive | src/primes/prime.rs:86-89 | `mod_inv(5, 12) == Some(5)` |
| Primes.ModInvSeventeen | src/primes/prime.rs:90-93 | `mod_inv(17, 12) == Some(5)` |
| Primes.ModInvHundredThree | src/primes/prime.rs:94-97 | `mod_inv(103, 12) == Some(7)` |
| Primes.ModInvThirtyTwo | src/primes/prime.rs:98 | `mod_inv(32, 4) == None` |
| Primes.Halvings | src/primes/prime.rs:39-44 | the halving loop's result has `d` odd and `n - 1 == d * 2^s` |
| Primes.OddPart | src/primes/prime.rs:39-44 | the halving loop computes exactly that split |
| Primes.ModPow | src/primes/prime.rs:49-54 | `modpow`: `a^e mod n` |
| Primes.Witness | src/primes/prime.rs:46-48 | the witness drawn from a random number `draw`: `2 + draw % (n - 4)` |
| Primes.IsPrimeSpec | src/primes/prime.rs:32-68 | the answer of `is_prime` for given draws: even numbers and 1 at once, `None` for the `n - 4` underflow, otherwise whether every witness passes its round |
| Primes.IsPrime | src/primes/prime.rs:32-68 | `is_prime` with the given draws returns `IsPrimeSpec`: even and one answered at once, then one Miller-Rabin round per draw, and `None` where `n - 4` underflows |
| Primes.Rounds | src/primes/prime.rs:45-67 | the round loop yields true exactly when every drawn witness passes |
| Primes.Round | src/primes/prime.rs:46-64 | one round's early exits and squaring loop decide `Passes` for its witness |
| Primes.Squarings | src/primes/prime.rs:53-62 | the squaring loop with `count` squarings left: false on reaching 1, true on reaching `n - 1`, and at the end true only at `n - 1`; `SquaringsIsFermat` gives its meaning |
| Primes.Passes | src/primes/prime.rs:49-64 | one round: `x = a^d mod n` passes at 1 or `n - 1`, otherwise the squaring loop decides; `PassesIsFermat` gives its meaning |
| Primes.EvenAndOne | src/primes/prime.rs:33-38 | even `n` gives `n == 2`, and one gives false |
| Primes.SplitIsExact | src/primes/prime.rs:39-44 | the loop ends with `d` odd and `n - 1 == d * 2^r` |
| Primes.OddHalvesOnce | src/primes/prime.rs:39-44 | for odd `n > 2` the loop halves at least once, so `0..r - 1` does not underflow |
| Primes.PassesIsFermat | src/primes/prime.rs:49-64 | a witness that passes a round satisfies `a^(n-1) == 1 (mod n)` |
| Primes.RoundIsFermat | src/primes/prime.rs:50-64 | a round that ends at 1 or `n - 1` makes `x^(2^s)` congruent to 1 |
| Primes.SquaringsIsFermat | src/primes/prime.rs:53-62 | a squaring loop that reaches `n - 1` makes `x^(2^(count + 1))` congruent to 1 |
| Primes.PassedWitnessIsFermat | src/primes/prime.rs:45-67 | when `is_prime` answers true, every drawn witness satisfies Fermat's congruence |
| Primes.ThreeUnderflows | src/primes/prime.rs:46-48 | for `n == 3`, one round already makes `n - 4` underflow |
| Primes.IsPrimeCorrected | src/primes/prime.rs:32-68 | the test with three answered before the rounds always answers; it answers true on 3 and agrees with `is_prime` elsewhere |
| R1cs.Split | src/arithmetization/r1cs.rs:54 | `str::split` always yields at least one piece |
| R1cs.SplitJoin | src/arithmetization/r1cs.rs:54-56 | joining the pieces with the separator gives back the text |
| R1cs.SplitPieces | src/arithmetization/r1cs.rs:54-56 | no piece holds the separator, and there is one piece more than separators |
| R1cs.JoinSplit | src/arithmetization/r1cs.rs:54-56 | splitting a join of separator-free pieces gives the pieces back |
| R1cs.SplitFirst | src/arithmetization/r1cs.rs:54-56 | the text before the first separator is the first piece |
| R1cs.SplitNone | src/arithmetization/r1cs.rs:56-59 | a text without the separator is one piece |
| R1cs.SplitLast | src/arithmetization/r1cs.rs:54 | a text ending in the separator has an empty last piece |
| R1cs.Trim | src/arithmetization/r1cs.rs:61-66 | `str::trim`: `trim_start`, then `trim_end` |
| R1cs.IsWhitespace | src/arithmetization/r1cs.rs:61-66 | `char::is_whitespace`: the characters with Unicode's White_Space property |
| R1cs.TrimStart | src/arithmetization/r1cs.rs:61-66 | `str::trim_start`: exactly the leading white space is dropped (`TrimStartDrops`) |
| R1cs.TrimEnd | src/arithmetization/r1cs.rs:61-66 | `str::trim_end`: exactly the trailing white space is dropped (`TrimEndDrops`) |
| R1cs.TrimStartDrops | src/arithmetization/r1cs.rs:61-66 | `trim_start` drops exactly the leading white space |
| R1cs.TrimEndDrops | src/arithmetization/r1cs.rs:61-66 | `trim_end` drops exactly the trailing white space |
| R1cs.TrimIsInfix | src/arithmetization/r1cs.rs:61-66 | `trim` keeps a stretch of the text, with only white space around it |
| R1cs.TrimEnds | src/arithmetization/r1cs.rs:61-66 | a trimmed text neither starts nor ends with white space |
| R1cs.TrimSolid | src/arithmetization/r1cs.rs:64-66 | `trim` leaves a text without white space as it is |
| R1cs.ReadStatement | src/arithmetization/r1cs.rs:56-66 | one statement: skipped unless it splits at `=` into exactly two parts. Otherwise it panics with fewer than three space-separated pieces on the right, or yields the trimmed output and operands |
| R1cs.Statements | src/arithmetization/r1cs.rs:54-59 | the program split at `;`, each piece read as a statement in order; the piece after a final `;` is skipped (`TrailingStatementSkipped`) |
| R1cs.WithVariable | src/arithmetization/r1cs.rs:35-41 | `add_variable` on the list: the name is appended with value 0 unless it is present |
| R1cs.ParseStatements | src/arithmetization/r1cs.rs:53-83 | `parse` over the statements in order: one constraint, then the left, right and output names, per entry. It stops at the first panic |
| R1cs.Mentions | src/arithmetization/r1cs.rs:79-81 | the names the processed statements pass to `add_variable`, in call order: left, right, output per statement, up to the first panic |
| R1cs.NewVariables | src/arithmetization/r1cs.rs:35-41 | a zero variable for each name not yet known, once each, in first-appearance order (`NewVariablesExactly`) |
| R1cs.Processed | src/arithmetization/r1cs.rs:53-83 | the number of statements that add a constraint before the parse ends |
| R1cs.ProcessedEntries | src/arithmetization/r1cs.rs:53-83 | the statements that add a constraint, in order; there are `Processed` of them, each an entry |
| R1cs.EntryConstraint | src/arithmetization/r1cs.rs:68-78 | the constraint a statement adds: its left and right operands as variables of value 0, and its operator |
| R1cs.EntryConstraints | src/arithmetization/r1cs.rs:53-83 | the constraints of a run of entries, one each, in order |
| R1cs.Program.Empty | src/arithmetization/r1cs.rs:25-28 | a program starts with no variables and no constraints |
| R1cs.Program.AddVariable | src/arithmetization/r1cs.rs:35-41 | the variable list becomes `WithVariable`: the name is appended with value 0 unless present; the constraints are kept |
| R1cs.Program.AddConstraint | src/arithmetization/r1cs.rs:43-51 | the constraint is pushed at the end; the variables are kept |
| R1cs.Program.Parse | src/arithmetization/r1cs.rs:53-83 | the loop leaves the lists and the panic flag that `ParseStatements` computes from the old lists over the program's statements |
| R1cs.NewProgram | src/arithmetization/r1cs.rs:24-33 | `Program::new` parses into empty lists |
| R1cs.WithVariableKeeps | src/arithmetization/r1cs.rs:35-41 | adding a variable keeps names distinct and values zero, extends the list, and makes the name present |
| R1cs.ParseKeepsVariables | src/arithmetization/r1cs.rs:53-83 | parsing keeps the variable names distinct and the values zero, only appends, makes every name a processed statement mentions present, and adds no variable whose name no processed statement mentions |
| R1cs.NewVariablesExactly | src/arithmetization/r1cs.rs:35-41 | the variables appended for a run of names are zero and named once each, and are exactly those for the names not already known |
| R1cs.WithVariableAppends | src/arithmetization/r1cs.rs:35-41 | on a list of zero variables, `add_variable` appends the variable exactly when its name is new, and the name becomes known |
| R1cs.ParseVariablesInOrder | src/arithmetization/r1cs.rs:53-83 | after parsing, the variables are the earlier ones followed by one zero variable per new name, in the order the processed statements first mention them (left, right, output in each) |
| R1cs.AddsOnlyMentioned | src/arithmetization/r1cs.rs:53-83 | every variable after parsing was there before or is named by a processed statement |
| R1cs.ParseAddsConstraints | src/arithmetization/r1cs.rs:53-83 | parsing appends exactly one constraint per processed statement and keeps the earlier ones |
| R1cs.ParseConstraintsInOrder | src/arithmetization/r1cs.rs:67-79 | the constraints after parsing are the earlier ones followed by the processed statements' constraints in order; the `k`-th holds the `k`-th statement's trimmed left and right operands with value 0 and its operator |
| R1cs.ParsePanics | src/arithmetization/r1cs.rs:63-66 | the parse panics exactly when a statement it reaches has fewer than three space-separated pieces on the right |
| R1cs.TrailingStatementSkipped | src/arithmetization/r1cs.rs:54-59 | the piece after the last `;` is skipped |
| R1cs.ReadWellFormed | src/arithmetization/r1cs.rs:56-66 | `output= left operator right` reads as the trimmed output and the three operands |
| R1cs.R1CS.constructor | src/arithmetization/r1cs.rs:87-93 | a new R1CS holds the program and empty solution and witness vectors |
| R1cs.R1CS.Prove | src/arithmetization/r1cs.rs:95-102 | `prove` panics exactly when the value count differs from the variable count. Otherwise it appends 1 and then the values, in order, to the witness; the solution is untouched |
| R1cs.NewR1cs | src/arithmetization/r1cs.rs:87-93 | `R1CS::new` parses the text into a fresh program and starts with empty vectors |
| R1csExamples.ReadLine | src/arithmetization/r1cs.rs:56-66 | `output = left operator right`, with or without one leading space, reads as its four parts |
| R1csExamples.ExampleProgram | src/arithmetization/r1cs.rs:113-116 | "v = x * x; z = v + y;" (any such names) parses, without a panic, to the variables x, v, y, z and the two constraints (x * x) and (v + y) |
| Rc5.NumberOfRounds | src/ciphers/rc5.rs:17 | `2 * rounds + 2` is defined exactly when it fits a `usize`; it is even and at least 2, and gives back `rounds` |
| Rc5.Panics | src/ciphers/rc5.rs:13-17 | `new` panics on a word size that is not a multiple of 16, or when `2 * rounds + 2` overflows a `usize`; `New` returns null exactly then |
| Rc5.RC5.constructor | src/ciphers/rc5.rs:17-25 | the struct holds the key, the rounds and the word size, with `number_of_rounds == 2 * rounds + 2` and `key_size` the key length |
| Rc5.New | src/ciphers/rc5.rs:12-26 | `new` panics exactly when the word size is not a multiple of 16 or `2 * rounds + 2` overflows; otherwise it returns a fresh, configured cipher |
| Rc5.RC5.Destroy | src/ciphers/rc5.rs:28-34 | `destroy` empties the key and zeroes the rounds, word size, round count and key size |
| Rc5.RC5.Encrypt | src/ciphers/rc5.rs:38-40 | the stub returns no bytes and changes no field |

## Left out

- The `println!` calls in `round1` to `round4` of `md5.rs` (lines 56, 67, 78 and 89) and in `R1CS::prove` (r1cs.rs:104) are output side effects only.
- The traits `Field`, `Cipher`, `HashFunction` and `AdvancedEncryptionStandard` are interfaces only. The methods are modelled as `aes.rs` implements them. The `key_schedule` and `*_inversed` methods declared in `src/lib.rs:44-60` have no implementation and are not part of this model.
- `random_prime` in both prime files, and the `rand::random` draws in `is_prime`: randomness is not modelled. The draws are passed to `IsPrime` as a sequence of numbers, one per round.
- `src/prime/prime.rs` has no members of its own here. Its `egcd`, `mod_inv` and `is_prime` match `src/primes/prime.rs` line for line, so the `Primes` members and their lemmas state its properties as well.
- `is_prime`, `gcd`, `exp` and `inv` of `src/fields/u64_field.rs` are `todo!()` and are not part of this model.
- RC5 `decrypt` is `todo!()` and is not part of this model. The RC5 test (rc5.rs:51-58) expects four ciphertext bytes from the stub that returns none; the model follows the code.
- The tests at r1cs.rs:115 and r1cs.rs:122 contradict the code. `R1csExamples.ExampleProgram` proves that the parser yields four variables, not two. By `R1cs.R1CS.Prove`'s contract, `prove` with two values then panics.
- `Variable` in r1cs.rs derives no `PartialEq`, so `contains` at line 38 does not compile as written. The model compares whole `Variable` values; since every value is 0, this amounts to comparing names.
- `str::trim` is modelled with Unicode's `White_Space` characters. Other Unicode behaviour (grapheme clusters, normalisation) is not modelled, since strings are sequences of characters.
- R1CS values are `i32`; no arithmetic is done on them, so overflow does not arise.
- Md5.Hash: the test vectors of the crate (md5.rs:216-289) and of appendix A.5 of RFC 1321 are not proved. A literal step count makes Dafny unfold `Steps` through all 64 steps at once, and the 32-bit arithmetic of that unfolding exceeds the solver's budget even with the input left symbolic. The step structure, padding, loading and output are proved instead.
- Primes.ModInv: `mod_inv(1, 0)` panics, because `egcd(1, 0)` gives divisor 1 and line 28 then takes a remainder by zero. The model requires `m != 0 || a != 1` and does not model that panic. Every other zero modulus gives `None`, as in the source.
- The MD5 `X` table is used as written; its closed form `(s + t * j) % 16` per round is not proved.
- Galois.GaloisMul: commutativity is proved only for the products `MixColumns` uses, `2 * b` and `3 * b` (`MulTwoLeft`, `MulThreeLeft`), not for all pairs. Linearity in the first operand is not proved either. Both general proofs mix XOR with the unfolded loop, and that goes beyond the solver's budget.
- Linearity of `MixColumn` over XOR is not proved, for the same reason. Its building blocks are proved: `Galois.MulLinearRight`, and `Aes.MixRowXtime` for the row formula.
- `Number`, `Point` and `src/polynomial/lagrange.rs` (floating point), `src/pk/rsa.rs` (randomised keys and `modpow` calls) and `src/commitments/pedersen.rs` (randomised setup and stubs) are outside the modelled core.
- U64Field.Neg: requires `a <= MODULUS`. A debug build panics for larger `a`; a release build wraps `MODULUS - a` modulo 2^64, and that value is not modelled.
- U64Field.Sub: requires `b <= a + MODULUS`. A debug build panics otherwise; a release build wraps the `u128` subtraction modulo 2^128, and that value is not modelled.
- Md5.LengthField: the bit length `len * 8` is a `usize` product; a debug build on a 64-bit target panics for inputs of 2^61 bytes or more, and a release build wraps. Both agree with the model's modulo 2^64 for shorter inputs, and the panic is not modelled.
- Rc5.New: `RC5::new` is modelled on a 64-bit target, with a debug build's overflow check on `2 * rounds + 2`. In a release build that expression wraps instead.

## Findings

| source | as written | input that shows it | evidently intended | confidence | as-written member | corrected member |
|---|---|---|---|---|---|---|
| src/ciphers/aes.rs:95 | after round key 0 the counter is incremented once more, so the rounds use keys 2 to 11 and the final AddRoundKey asks for key 12, words 48 to 51 of a 48-word table | any input of 16 bytes | keys 0 to 11 in order, one per AddRoundKey call, which fills the 48-word table exactly | high; not executed | Aes.EncryptAsWrittenNeverSucceeds | Aes.EncryptCorrectedBlock |
| src/fields/u64_field.rs:26 | `pow` computes `(a ^ b) % MODULUS`, and `^` is bitwise XOR in Rust | `pow(2, 3)` gives 1 | modular exponentiation, `2^3 = 8` | high; not executed | U64Field.PowIsExclusiveOr | U64Field.PowMod |
| src/fields/u64_field.rs:18 | `neg` returns `MODULUS - a` without reduction | `neg(0)` gives `MODULUS`, which `eq` finds different from `from_u64(0)` | `(MODULUS - a) % MODULUS`, so that `-0 == 0` | medium; not executed | U64Field.NegZeroIsUnreduced | U64Field.NegReduced |
| src/primes/prime.rs:48 | the witness range `n - 4` is a `BigUint` subtraction | `is_prime` of 3 with one round or more: `3 - 4` underflows and panics | 3 reported prime (small primes answered before the rounds) | high; not executed | Primes.ThreeUnderflows | Primes.IsPrimeCorrected |
