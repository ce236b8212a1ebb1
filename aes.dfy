/** The AES-128 block pipeline of `AdvancedEncryptionStandard128Bit`: the four
    round steps of section 5.1 of FIPS 197 on a 4x4 byte state, and the
    encryption driver that loads the input, runs the rounds and serialises the
    state. The model follows the implementation where it departs from FIPS 197:
    the state is loaded row by row but serialised column by column, round keys
    are added transposed, the key table holds 48 words, and the round counter
    skips round 1. */
module Aes {
  import opened Galois

  /** A state row or column, or one word of the key table: four bytes. */
  predicate IsRow(r: seq<bv8>)
  {
    |r| == 4
  }

  /** The 4x4 state, indexed `[row][column]`. */
  predicate IsGrid(g: seq<seq<bv8>>)
  {
    |g| == 4 && forall i :: 0 <= i < 4 ==> IsRow(g[i])
  }

  /** The key table of the cipher object: 48 four-byte words. */
  predicate IsKeyTable(key: seq<seq<bv8>>)
  {
    |key| == 48 && forall w :: 0 <= w < 48 ==> IsRow(key[w])
  }

  type TableRow = r: seq<bv8> | |r| == 16 witness seq(16, _ => 0)

  /** The substitution table of section 5.1.1 of FIPS 197, indexed by the high
      and the low nibble of the byte; one constant per row keeps each display
      small. */
  const SBOX: seq<TableRow> := [
    SBOX_0, SBOX_1, SBOX_2, SBOX_3, SBOX_4, SBOX_5, SBOX_6, SBOX_7,
    SBOX_8, SBOX_9, SBOX_A, SBOX_B, SBOX_C, SBOX_D, SBOX_E, SBOX_F]

  const SBOX_0: TableRow := [0x63, 0x7c, 0x77, 0x7b, 0xf2, 0x6b, 0x6f, 0xc5, 0x30, 0x01, 0x67, 0x2b, 0xfe, 0xd7, 0xab, 0x76]
  const SBOX_1: TableRow := [0xca, 0x82, 0xc9, 0x7d, 0xfa, 0x59, 0x47, 0xf0, 0xad, 0xd4, 0xa2, 0xaf, 0x9c, 0xa4, 0x72, 0xc0]
  const SBOX_2: TableRow := [0xb7, 0xfd, 0x93, 0x26, 0x36, 0x3f, 0xf7, 0xcc, 0x34, 0xa5, 0xe5, 0xf1, 0x71, 0xd8, 0x31, 0x15]
  const SBOX_3: TableRow := [0x04, 0xc7, 0x23, 0xc3, 0x18, 0x96, 0x05, 0x9a, 0x07, 0x12, 0x80, 0xe2, 0xeb, 0x27, 0xb2, 0x75]
  const SBOX_4: TableRow := [0x09, 0x83, 0x2c, 0x1a, 0x1b, 0x6e, 0x5a, 0xa0, 0x52, 0x3b, 0xd6, 0xb3, 0x29, 0xe3, 0x2f, 0x84]
  const SBOX_5: TableRow := [0x53, 0xd1, 0x00, 0xed, 0x20, 0xfc, 0xb1, 0x5b, 0x6a, 0xcb, 0xbe, 0x39, 0x4a, 0x4c, 0x58, 0xcf]
  const SBOX_6: TableRow := [0xd0, 0xef, 0xaa, 0xfb, 0x43, 0x4d, 0x33, 0x85, 0x45, 0xf9, 0x02, 0x7f, 0x50, 0x3c, 0x9f, 0xa8]
  const SBOX_7: TableRow := [0x51, 0xa3, 0x40, 0x8f, 0x92, 0x9d, 0x38, 0xf5, 0xbc, 0xb6, 0xda, 0x21, 0x10, 0xff, 0xf3, 0xd2]
  const SBOX_8: TableRow := [0xcd, 0x0c, 0x13, 0xec, 0x5f, 0x97, 0x44, 0x17, 0xc4, 0xa7, 0x7e, 0x3d, 0x64, 0x5d, 0x19, 0x73]
  const SBOX_9: TableRow := [0x60, 0x81, 0x4f, 0xdc, 0x22, 0x2a, 0x90, 0x88, 0x46, 0xee, 0xb8, 0x14, 0xde, 0x5e, 0x0b, 0xdb]
  const SBOX_A: TableRow := [0xe0, 0x32, 0x3a, 0x0a, 0x49, 0x06, 0x24, 0x5c, 0xc2, 0xd3, 0xac, 0x62, 0x91, 0x95, 0xe4, 0x79]
  const SBOX_B: TableRow := [0xe7, 0xc8, 0x37, 0x6d, 0x8d, 0xd5, 0x4e, 0xa9, 0x6c, 0x56, 0xf4, 0xea, 0x65, 0x7a, 0xae, 0x08]
  const SBOX_C: TableRow := [0xba, 0x78, 0x25, 0x2e, 0x1c, 0xa6, 0xb4, 0xc6, 0xe8, 0xdd, 0x74, 0x1f, 0x4b, 0xbd, 0x8b, 0x8a]
  const SBOX_D: TableRow := [0x70, 0x3e, 0xb5, 0x66, 0x48, 0x03, 0xf6, 0x0e, 0x61, 0x35, 0x57, 0xb9, 0x86, 0xc1, 0x1d, 0x9e]
  const SBOX_E: TableRow := [0xe1, 0xf8, 0x98, 0x11, 0x69, 0xd9, 0x8e, 0x94, 0x9b, 0x1e, 0x87, 0xe9, 0xce, 0x55, 0x28, 0xdf]
  const SBOX_F: TableRow := [0x8c, 0xa1, 0x89, 0x0d, 0xbf, 0xe6, 0x42, 0x68, 0x41, 0x99, 0x2d, 0x0f, 0xb0, 0x54, 0xbb, 0x16]

  /** The substitution of one byte. */
  function SBox(b: bv8): bv8
  {
    SBOX[b >> 4][b & 0x0F]
  }

  /** The row or column with bytes `a`, `b`, `c`, `d`. */
  function Row4(a: bv8, b: bv8, c: bv8, d: bv8): (r: seq<bv8>)
    ensures IsRow(r) && r[0] == a && r[1] == b && r[2] == c && r[3] == d
  {
    [a, b, c, d]
  }

  /** Column `c` of the state, top to bottom. */
  function Column(g: seq<seq<bv8>>, c: nat): (col: seq<bv8>)
    requires IsGrid(g) && c < 4
    ensures IsRow(col) && forall i :: 0 <= i < 4 ==> col[i] == g[i][c]
  {
    Row4(g[0][c], g[1][c], g[2][c], g[3][c])
  }

  /** SubBytes: every byte replaced by its substitute, in place. */
  function SubBytesSpec(g: seq<seq<bv8>>): (r: seq<seq<bv8>>)
    requires IsGrid(g)
    ensures IsGrid(r)
  {
    seq(4, i requires 0 <= i < 4 => seq(4, j requires 0 <= j < 4 => SBox(g[i][j])))
  }

  /** ShiftRows: row `i` rotated left by `i` positions. */
  function ShiftRowsSpec(g: seq<seq<bv8>>): (r: seq<seq<bv8>>)
    requires IsGrid(g)
    ensures IsGrid(r)
  {
    seq(4, i requires 0 <= i < 4 => seq(4, j requires 0 <= j < 4 => g[i][(i + j) % 4]))
  }

  /** Addition in GF(2^8) of four terms. */
  function Sum4(a: bv8, b: bv8, c: bv8, d: bv8): bv8
  {
    a ^ b ^ c ^ d
  }

  /** The column transformation of MixColumns. Each product is
      `galois_multiplication(0x02 or 0x03, byte)`: the constant is the first
      operand. */
  function MixColumn(col: seq<bv8>): (r: seq<bv8>)
    requires IsRow(col)
    ensures IsRow(r)
  {
    Row4(Sum4(GaloisMul(2, col[0]), GaloisMul(3, col[1]), col[2], col[3]),
         Sum4(col[0], GaloisMul(2, col[1]), GaloisMul(3, col[2]), col[3]),
         Sum4(col[0], col[1], GaloisMul(2, col[2]), GaloisMul(3, col[3])),
         Sum4(GaloisMul(3, col[0]), col[1], col[2], GaloisMul(2, col[3])))
  }

  /** MixColumns: every column replaced by its transformation. */
  function MixColumnsSpec(g: seq<seq<bv8>>): (r: seq<seq<bv8>>)
    requires IsGrid(g)
    ensures IsGrid(r)
  {
    seq(4, i requires 0 <= i < 4 => seq(4, c requires 0 <= c < 4 => MixColumn(Column(g, c))[i]))
  }

  /** Whether the four words of round key `round` lie inside the key table. */
  predicate RoundKeyInRange(key: seq<seq<bv8>>, round: nat)
  {
    4 * round + 4 <= |key|
  }

  /** AddRoundKey as implemented: byte `[i][j]` is XORed with byte `i` of word
      `4 * round + j`, i.e. with the round key transposed. */
  function AddRoundKeySpec(g: seq<seq<bv8>>, key: seq<seq<bv8>>, round: nat): (r: seq<seq<bv8>>)
    requires IsGrid(g) && IsKeyTable(key) && RoundKeyInRange(key, round)
    ensures IsGrid(r)
  {
    seq(4, i requires 0 <= i < 4 => seq(4, j requires 0 <= j < 4 => g[i][j] ^ key[4 * round + j][i]))
  }

  /** One full round with round key `round`. */
  function Round(g: seq<seq<bv8>>, key: seq<seq<bv8>>, round: nat): (r: seq<seq<bv8>>)
    requires IsGrid(g) && IsKeyTable(key) && RoundKeyInRange(key, round)
    ensures IsGrid(r)
  {
    AddRoundKeySpec(MixColumnsSpec(ShiftRowsSpec(SubBytesSpec(g))), key, round)
  }

  /** `n` full rounds using round keys `first`, `first + 1`, ..., `first + n - 1`. */
  function Rounds(g: seq<seq<bv8>>, key: seq<seq<bv8>>, first: nat, n: nat): (r: seq<seq<bv8>>)
    requires IsGrid(g) && IsKeyTable(key) && first + n <= 12
    ensures IsGrid(r)
    decreases n
  {
    if n == 0 then g else Round(Rounds(g, key, first, n - 1), key, first + n - 1)
  }

  /** The state loaded from the first 16 input bytes row by row. */
  function Load(input: seq<bv8>): (g: seq<seq<bv8>>)
    requires |input| >= 16
    ensures IsGrid(g)
  {
    seq(4, i requires 0 <= i < 4 => seq(4, j requires 0 <= j < 4 => input[4 * i + j]))
  }

  /** The 16 output bytes, written column by column. */
  function Store(g: seq<seq<bv8>>): (r: seq<bv8>)
    requires IsGrid(g)
    ensures |r| == 16
  {
    seq(16, k requires 0 <= k < 16 => g[k % 4][k / 4])
  }

  /** What a call to `encrypt` produces: the ciphertext, or the panic that ends
      it, with the round value and the state at that point. */
  datatype EncryptOutcome =
    | Ciphertext(bytes: seq<bv8>)
    | InputTooShort
    | RoundKeyOutOfRange(round: nat, state: seq<seq<bv8>>)

  /** `encrypt` as written: round key 0, then an extra increment of the
      counter, ten full rounds with keys 2 to 11, and a final round whose
      AddRoundKey asks for key 12, beyond the 48-word table. */
  function EncryptAsWritten(key: seq<seq<bv8>>, input: seq<bv8>): EncryptOutcome
    requires IsKeyTable(key)
  {
    if |input| < 16 then InputTooShort
    else
      var g := Rounds(AddRoundKeySpec(Load(input), key, 0), key, 2, 10);
      RoundKeyOutOfRange(12, ShiftRowsSpec(SubBytesSpec(g)))
  }

  /** `encrypt` without the extra increment: round keys 0 to 11, one per call,
      which is exactly what the 48-word table holds. */
  function EncryptCorrected(key: seq<seq<bv8>>, input: seq<bv8>): EncryptOutcome
    requires IsKeyTable(key)
  {
    if |input| < 16 then InputTooShort
    else
      var g := Rounds(AddRoundKeySpec(Load(input), key, 0), key, 1, 10);
      Ciphertext(Store(AddRoundKeySpec(ShiftRowsSpec(SubBytesSpec(g)), key, 11)))
  }

  /** The state held in a 4x4 array, as a grid. */
  function Contents(state: array2<bv8>): (g: seq<seq<bv8>>)
    requires state.Length0 == 4 && state.Length1 == 4
    reads state
    ensures IsGrid(g)
    ensures forall i, j :: 0 <= i < 4 && 0 <= j < 4 ==> g[i][j] == state[i, j]
  {
    seq(4, i requires 0 <= i < 4 reads state =>
      seq(4, j requires 0 <= j < 4 reads state => state[i, j]))
  }

  /** The cipher object: a table of 48 four-byte key words, fixed at
      construction. The round steps work in place on a 4x4 state array. */
  class AdvancedEncryptionStandard128Bit {
    const key: seq<seq<bv8>>

    predicate Valid()
    {
      IsKeyTable(key)
    }

    constructor (key: seq<seq<bv8>>)
      requires IsKeyTable(key)
      ensures this.key == key && Valid()
    {
      this.key := key;
    }

    /** XOR the transposed round key `round` into the state and advance the
        round counter. The round key is the slice of words `4 * round` to
        `4 * round + 3`; a round past the end of the table is a panic, which
        callers must not reach. */
    method AddRoundKey(state: array2<bv8>, round: nat) returns (next: nat)
      requires Valid() && state.Length0 == 4 && state.Length1 == 4
      requires RoundKeyInRange(key, round)
      modifies state
      ensures Contents(state) == AddRoundKeySpec(old(Contents(state)), key, round)
      ensures next == round + 1
    {
      ghost var g := Contents(state);
      var roundKey := key[round * 4 .. (round + 1) * 4];
      for i := 0 to 4
        invariant forall r, c :: 0 <= r < i && 0 <= c < 4 ==> state[r, c] == g[r][c] ^ key[4 * round + c][r]
        invariant forall r, c :: i <= r < 4 && 0 <= c < 4 ==> state[r, c] == g[r][c]
      {
        XorRow(state, i, roundKey);
      }
      GridExt(Contents(state), AddRoundKeySpec(g, key, round));
      next := round + 1;
    }

    /** XOR byte `i` of each round key word into row `i`. */
    method XorRow(state: array2<bv8>, i: nat, roundKey: seq<seq<bv8>>)
      requires state.Length0 == 4 && state.Length1 == 4 && i < 4
      requires |roundKey| == 4 && forall w :: 0 <= w < 4 ==> |roundKey[w]| == 4
      modifies state
      ensures forall c :: 0 <= c < 4 ==> state[i, c] == old(state[i, c]) ^ roundKey[c][i]
      ensures forall r, c :: 0 <= r < 4 && r != i && 0 <= c < 4 ==> state[r, c] == old(state[r, c])
    {
      for j := 0 to 4
        invariant forall c :: 0 <= c < j ==> state[i, c] == old(state[i, c]) ^ roundKey[c][i]
        invariant forall c :: j <= c < 4 ==> state[i, c] == old(state[i, c])
        invariant forall r, c :: 0 <= r < 4 && r != i && 0 <= c < 4 ==> state[r, c] == old(state[r, c])
      {
        state[i, j] := state[i, j] ^ roundKey[j][i];
      }
    }

    /** Replace every column by its MixColumns transformation, computed into
        a temporary array and copied back. */
    method MixColumns(state: array2<bv8>)
      requires state.Length0 == 4 && state.Length1 == 4
      modifies state
      ensures Contents(state) == MixColumnsSpec(old(Contents(state)))
    {
      ghost var g := Contents(state);
      ghost var want := MixColumnsSpec(g);
      var temp := new bv8[4, 4]((_, _) => 0);
      for c := 0 to 4
        modifies temp
        invariant forall r, k :: 0 <= r < 4 && 0 <= k < c ==> temp[r, k] == want[r][k]
      {
        MixColumnInto(state, temp, c, want);
      }
      CopyGrid(temp, state);
      GridExt(Contents(state), want);
    }

    /** Column `c` of the mixed state, written into `temp`. */
    method MixColumnInto(state: array2<bv8>, temp: array2<bv8>, c: nat, ghost want: seq<seq<bv8>>)
      requires state.Length0 == 4 && state.Length1 == 4 && temp.Length0 == 4 && temp.Length1 == 4
      requires state != temp && c < 4 && want == MixColumnsSpec(Contents(state))
      modifies temp
      ensures forall r :: 0 <= r < 4 ==> temp[r, c] == want[r][c]
      ensures forall r, k :: 0 <= r < 4 && 0 <= k < 4 && k != c ==> temp[r, k] == old(temp[r, k])
    {
      var column := Row4(state[0, c], state[1, c], state[2, c], state[3, c]);
      assert column == Column(Contents(state), c);
      var mixed := MixColumnOf(column);
      forall r | 0 <= r < 4
        ensures mixed[r] == want[r][c]
      {
        MixColumnsAt(Contents(state), r, c);
      }
      SetColumn(temp, c, mixed);
    }

    /** The four sums of products that make up one new column. */
    method MixColumnOf(column: seq<bv8>) returns (mixed: seq<bv8>)
      requires IsRow(column)
      ensures mixed == MixColumn(column)
    {
      var s0, s1, s2, s3 := column[0], column[1], column[2], column[3];
      var a0 := GaloisMultiplication(0x02, s0);
      var a1 := GaloisMultiplication(0x03, s1);
      var b1 := GaloisMultiplication(0x02, s1);
      var b2 := GaloisMultiplication(0x03, s2);
      var c2 := GaloisMultiplication(0x02, s2);
      var c3 := GaloisMultiplication(0x03, s3);
      var d0 := GaloisMultiplication(0x03, s0);
      var d3 := GaloisMultiplication(0x02, s3);
      mixed := Row4(Sum4(a0, a1, s2, s3), Sum4(s0, b1, b2, s3), Sum4(s0, s1, c2, c3), Sum4(d0, s1, s2, d3));
    }

    /** Rotate rows 1 to 3 left by their index. */
    method ShiftRows(state: array2<bv8>)
      requires state.Length0 == 4 && state.Length1 == 4
      modifies state
      ensures Contents(state) == ShiftRowsSpec(old(Contents(state)))
    {
      ghost var g := Contents(state);
      for i := 1 to 4
        invariant forall r, c :: 0 < r < i && 0 <= c < 4 ==> state[r, c] == g[r][RotateLeft(r, c)]
        invariant forall r, c :: (r == 0 || i <= r < 4) && 0 <= c < 4 ==> state[r, c] == g[r][c]
      {
        RotateRow(state, i);
      }
      forall r, c | 0 <= r < 4 && 0 <= c < 4
        ensures state[r, c] == ShiftRowsSpec(g)[r][c]
      {
        ShiftRowsAt(g, r, c);
      }
      GridExt(Contents(state), ShiftRowsSpec(g));
    }

    /** Rotate row `i` left by `i` through a temporary row. */
    method RotateRow(state: array2<bv8>, i: nat)
      requires state.Length0 == 4 && state.Length1 == 4 && i < 4
      modifies state
      ensures forall c :: 0 <= c < 4 ==> state[i, c] == old(state[i, RotateLeft(i, c)])
      ensures forall r, c :: 0 <= r < 4 && r != i && 0 <= c < 4 ==> state[r, c] == old(state[r, c])
    {
      var temp := new bv8[4];
      for ii := 0 to 4
        modifies temp
        invariant forall c :: 0 <= c < ii ==> temp[c] == state[i, RotateLeft(i, c)]
      {
        temp[ii] := state[i, (i + ii) % 4];
      }
      // `copy_from_slice` writes the row back in one go.
      state[i, 0], state[i, 1], state[i, 2], state[i, 3] := temp[0], temp[1], temp[2], temp[3];
    }

    /** Replace every byte by its substitute. */
    method SubBytes(state: array2<bv8>)
      requires state.Length0 == 4 && state.Length1 == 4
      modifies state
      ensures Contents(state) == SubBytesSpec(old(Contents(state)))
    {
      ghost var g := Contents(state);
      for i := 0 to 4
        invariant forall r, c :: 0 <= r < i && 0 <= c < 4 ==> state[r, c] == SBox(g[r][c])
        invariant forall r, c :: i <= r < 4 && 0 <= c < 4 ==> state[r, c] == g[r][c]
      {
        SubRow(state, i);
      }
      GridExt(Contents(state), SubBytesSpec(g));
    }

    /** Substitute every byte of row `i`. */
    method SubRow(state: array2<bv8>, i: nat)
      requires state.Length0 == 4 && state.Length1 == 4 && i < 4
      modifies state
      ensures forall c :: 0 <= c < 4 ==> state[i, c] == SBox(old(state[i, c]))
      ensures forall r, c :: 0 <= r < 4 && r != i && 0 <= c < 4 ==> state[r, c] == old(state[r, c])
    {
      for j := 0 to 4
        invariant forall c :: 0 <= c < j ==> state[i, c] == SBox(old(state[i, c]))
        invariant forall c :: j <= c < 4 ==> state[i, c] == old(state[i, c])
        invariant forall r, c :: 0 <= r < 4 && r != i && 0 <= c < 4 ==> state[r, c] == old(state[r, c])
      {
        SubByte(state, i, j);
      }
    }

    /** `encrypt` as written. Inputs shorter than 16 bytes panic while the
        state is loaded; every other input panics at the last AddRoundKey,
        whose round counter has reached 12. */
    method Encrypt(input: seq<bv8>) returns (r: EncryptOutcome)
      requires Valid()
      ensures r == EncryptAsWritten(key, input)
    {
      if |input| < 16 {
        return InputTooShort;
      }
      var state := LoadState(input);
      var round := AddRoundKey(state, 0);
      round := round + 1;
      ghost var g1 := Contents(state);
      for k := 0 to 10
        invariant round == k + 2
        invariant Contents(state) == Rounds(g1, key, 2, k)
      {
        SubBytes(state);
        ShiftRows(state);
        MixColumns(state);
        round := AddRoundKey(state, round);
      }
      SubBytes(state);
      ShiftRows(state);
      assert !RoundKeyInRange(key, round);
      r := RoundKeyOutOfRange(round, Contents(state));
    }

    /** `encrypt` without the extra increment of the round counter: round
        keys 0 to 11, then the column-by-column serialisation. */
    method EncryptFixed(input: seq<bv8>) returns (r: EncryptOutcome)
      requires Valid()
      ensures r == EncryptCorrected(key, input)
    {
      if |input| < 16 {
        return InputTooShort;
      }
      var state := LoadState(input);
      var round := AddRoundKey(state, 0);
      ghost var g1 := Contents(state);
      for k := 0 to 10
        invariant round == k + 1
        invariant Contents(state) == Rounds(g1, key, 1, k)
      {
        SubBytes(state);
        ShiftRows(state);
        MixColumns(state);
        round := AddRoundKey(state, round);
      }
      SubBytes(state);
      ShiftRows(state);
      round := AddRoundKey(state, round);
      var bytes := StoreState(state);
      r := Ciphertext(bytes);
    }

    /** `decrypt` returns its input unchanged. */
    method Decrypt(input: seq<bv8>) returns (output: seq<bv8>)
      ensures output == input
    {
      output := input;
    }
  }

  /** Fill a fresh state row by row from the first 16 input bytes. */
  method LoadState(input: seq<bv8>) returns (state: array2<bv8>)
    requires |input| >= 16
    ensures fresh(state) && state.Length0 == 4 && state.Length1 == 4
    ensures Contents(state) == Load(input)
  {
    state := new bv8[4, 4]((_, _) => 0);
    for i := 0 to 4
      invariant forall r, c :: 0 <= r < i && 0 <= c < 4 ==> state[r, c] == input[4 * r + c]
    {
      for ii := 0 to 4
        invariant forall r, c :: 0 <= r < 4 && 0 <= c < 4 && (r < i || (r == i && c < ii)) ==>
          state[r, c] == input[4 * r + c]
      {
        state[i, ii] := input[i * 4 + ii];
      }
    }
    GridExt(Contents(state), Load(input));
  }

  /** The substitute of one byte: the high nibble selects the table row and
      the low nibble the column. */
  method Substitute(b: bv8) returns (r: bv8)
    ensures r == SBox(b)
  {
    var row := b >> 4;
    var col := b & 0x0F;
    r := SBOX[row][col];
  }

  /** Substitute the byte at row `i`, column `j` of the state. */
  method SubByte(state: array2<bv8>, i: nat, j: nat)
    requires state.Length0 == 4 && state.Length1 == 4 && i < 4 && j < 4
    modifies state
    ensures state[i, j] == SBox(old(state[i, j]))
    ensures forall r, c :: 0 <= r < 4 && 0 <= c < 4 && (r != i || c != j) ==> state[r, c] == old(state[r, c])
  {
    state[i, j] := Substitute(state[i, j]);
  }

  /** Write `column` into column `c` of `grid`. */
  method SetColumn(grid: array2<bv8>, c: nat, column: seq<bv8>)
    requires grid.Length0 == 4 && grid.Length1 == 4 && c < 4 && IsRow(column)
    modifies grid
    ensures forall r :: 0 <= r < 4 ==> grid[r, c] == column[r]
    ensures forall r, k :: 0 <= r < 4 && 0 <= k < 4 && k != c ==> grid[r, k] == old(grid[r, k])
  {
    grid[0, c] := column[0];
    grid[1, c] := column[1];
    grid[2, c] := column[2];
    grid[3, c] := column[3];
  }

  /** Copy every byte of `src` into `dst`. */
  method CopyGrid(src: array2<bv8>, dst: array2<bv8>)
    requires src.Length0 == 4 && src.Length1 == 4 && dst.Length0 == 4 && dst.Length1 == 4
    requires src != dst
    modifies dst
    ensures forall r, c :: 0 <= r < 4 && 0 <= c < 4 ==> dst[r, c] == src[r, c]
  {
    for i := 0 to 4
      invariant forall r, c :: 0 <= r < i && 0 <= c < 4 ==> dst[r, c] == src[r, c]
    {
      for j := 0 to 4
        invariant forall r, c :: 0 <= r < i && 0 <= c < 4 ==> dst[r, c] == src[r, c]
        invariant forall c :: 0 <= c < j ==> dst[i, c] == src[i, c]
      {
        dst[i, j] := src[i, j];
      }
    }
  }

  /** Write the state out column by column. */
  method StoreState(state: array2<bv8>) returns (bytes: seq<bv8>)
    requires state.Length0 == 4 && state.Length1 == 4
    ensures bytes == Store(Contents(state))
  {
    var result := new bv8[16](_ => 0);
    for i := 0 to 4
      invariant forall k :: 0 <= k < 16 && k % 4 < i ==> result[k] == state[k % 4, k / 4]
    {
      for ii := 0 to 4
        invariant forall k :: 0 <= k < 16 && (k % 4 < i || (k % 4 == i && k / 4 < ii)) ==>
          result[k] == state[k % 4, k / 4]
      {
        result[ii * 4 + i] := state[i, ii];
      }
    }
    bytes := result[..];
  }

  // ---------------------------------------------------------------------
  // Properties of the round steps

  /** Two grids that agree byte by byte are equal. */
  lemma GridExt(g: seq<seq<bv8>>, h: seq<seq<bv8>>)
    requires IsGrid(g) && IsGrid(h)
    requires forall i, j :: 0 <= i < 4 && 0 <= j < 4 ==> g[i][j] == h[i][j]
    ensures g == h
  {
    forall i | 0 <= i < 4
      ensures g[i] == h[i]
    {
    }
  }

  /** The substitutions pinned by the SubBytes test. */
  lemma SBoxExamples()
    ensures SBox(0) == 0x63 && SBox(3) == 0x7b && SBox(69) == 0x6e && SBox(180) == 0x8d
  {
  }

  /** The row pinned by the SubBytes test. */
  lemma SubBytesExample()
    ensures SubBytesSpec([[0, 3, 69, 180], [1, 2, 3, 4], [4, 3, 2, 1], [1, 2, 3, 4]])[0]
         == [0x63, 0x7b, 0x6e, 0x8d]
  {
    var g := [[0, 3, 69, 180], [1, 2, 3, 4], [4, 3, 2, 1], [1, 2, 3, 4]];
    SBoxExamples();
    assert SubBytesSpec(g)[0] == [SBox(0), SBox(3), SBox(69), SBox(180)];
  }

  /** Substituting bytes and moving them around commute: SubBytes works on
      every byte in place and ShiftRows only moves bytes. */
  lemma SubBytesShiftRowsCommute(g: seq<seq<bv8>>)
    requires IsGrid(g)
    ensures SubBytesSpec(ShiftRowsSpec(g)) == ShiftRowsSpec(SubBytesSpec(g))
  {
    GridExt(SubBytesSpec(ShiftRowsSpec(g)), ShiftRowsSpec(SubBytesSpec(g)));
  }

  /** ShiftRows rotates row `i` left by `i`: row 0 is untouched and every row
      keeps its bytes. */
  lemma ShiftRowsRotatesRows(g: seq<seq<bv8>>, i: nat)
    requires IsGrid(g) && i < 4
    ensures ShiftRowsSpec(g)[i] == g[i][i..] + g[i][..i]
    ensures multiset(ShiftRowsSpec(g)[i]) == multiset(g[i])
    ensures ShiftRowsSpec(g)[0] == g[0]
  {
    assert ShiftRowsSpec(g)[0] == g[0];
    var r := g[i][i..] + g[i][..i];
    forall j | 0 <= j < 4
      ensures ShiftRowsSpec(g)[i][j] == r[j]
    {
      if i + j < 4 {
        assert r[j] == g[i][i + j];
      } else {
        assert r[j] == g[i][i + j - 4];
      }
    }
    assert ShiftRowsSpec(g)[i] == r;
    assert g[i] == g[i][..i] + g[i][i..];
  }

  /** The rotations pinned by the ShiftRows test. */
  lemma ShiftRowsExample()
    ensures ShiftRowsSpec([[1, 2, 3, 4], [1, 2, 3, 4], [5, 6, 7, 8], [9, 0, 1, 2]])
         == [[1, 2, 3, 4], [2, 3, 4, 1], [7, 8, 5, 6], [2, 9, 0, 1]]
  {
    var s := ShiftRowsSpec([[1, 2, 3, 4], [1, 2, 3, 4], [5, 6, 7, 8], [9, 0, 1, 2]]);
    assert s[0] == [1, 2, 3, 4] && s[1] == [2, 3, 4, 1] && s[2] == [7, 8, 5, 6] && s[3] == [2, 9, 0, 1];
  }

  /** Four applications of ShiftRows restore the state, so three of them
      undo one. */
  lemma ShiftRowsFourTimes(g: seq<seq<bv8>>)
    requires IsGrid(g)
    ensures ShiftRowsSpec(ShiftRowsSpec(ShiftRowsSpec(ShiftRowsSpec(g)))) == g
  {
    var s4 := ShiftRowsSpec(ShiftRowsSpec(ShiftRowsSpec(ShiftRowsSpec(g))));
    forall i, j | 0 <= i < 4 && 0 <= j < 4
      ensures s4[i][j] == g[i][j]
    {
      ShiftRowsFourTimesAt(g, i, j);
    }
    GridExt(s4, g);
  }

  lemma ShiftRowsFourTimesAt(g: seq<seq<bv8>>, i: nat, j: nat)
    requires IsGrid(g) && i < 4 && j < 4
    ensures ShiftRowsSpec(ShiftRowsSpec(ShiftRowsSpec(ShiftRowsSpec(g))))[i][j] == g[i][j]
  {
    var s1 := ShiftRowsSpec(g);
    var s2 := ShiftRowsSpec(s1);
    var s3 := ShiftRowsSpec(s2);
    var j1, j2, j3 := RotateLeft(i, j), RotateLeft(i, RotateLeft(i, j)), RotateLeft(i, RotateLeft(i, RotateLeft(i, j)));
    RotateFourTimes(i, j);
    ShiftRowsAt(s3, i, j);
    ShiftRowsAt(s2, i, j1);
    ShiftRowsAt(s1, i, j2);
    ShiftRowsAt(g, i, j3);
  }

  /** Byte `[i][j]` after ShiftRows. */
  lemma ShiftRowsAt(g: seq<seq<bv8>>, i: nat, j: nat)
    requires IsGrid(g) && i < 4 && j < 4
    ensures ShiftRowsSpec(g)[i][j] == g[i][RotateLeft(i, j)]
  {
  }

  /** The column that ShiftRows moves to column `j` of row `i`: `(i + j) % 4`
      written without the remainder. */
  function RotateLeft(i: nat, j: nat): (k: nat)
    requires i < 4 && j < 4
    ensures k < 4 && k == (i + j) % 4
  {
    if i + j < 4 then i + j else i + j - 4
  }

  /** Four left rotations by `i` of a four-element row bring index `j` back. */
  lemma RotateFourTimes(i: nat, j: nat)
    requires i < 4 && j < 4
    ensures RotateLeft(i, RotateLeft(i, RotateLeft(i, RotateLeft(i, j)))) == j
  {
  }

  /** The four columns pinned by the MixColumns test. */
  lemma MixColumnExample1()
    ensures MixColumn([0xc6, 0xc6, 0xc6, 0xc6]) == [0xc6, 0xc6, 0xc6, 0xc6]
  {
  }

  lemma MixColumnExample2()
    ensures MixColumn([0xf2, 0x0a, 0x22, 0x5c]) == [0x9f, 0xdc, 0x58, 0x9d]
  {
  }

  lemma MixColumnExample3()
    ensures MixColumn([0xdb, 0x13, 0x53, 0x45]) == [0x8e, 0x4d, 0xa1, 0xbc]
  {
  }

  lemma MixColumnExample4()
    ensures MixColumn([0x2d, 0x26, 0x31, 0x4c]) == [0x4d, 0x7e, 0xbd, 0xf8]
  {
  }

  /** The first output byte of MixColumn as a function of the column; the
      other three are the same function of the column rotated. */
  function MixRow(s0: bv8, s1: bv8, s2: bv8, s3: bv8): bv8
  {
    Sum4(GaloisMul(2, s0), GaloisMul(3, s1), s2, s3)
  }

  /** MixColumn is the circulant matrix product of section 5.1.3 of FIPS 197:
      output byte `i` is `MixRow` of the column rotated up by `i`. */
  lemma MixColumnCirculant(col: seq<bv8>)
    requires IsRow(col)
    ensures MixColumn(col) == [MixRow(col[0], col[1], col[2], col[3]),
                               MixRow(col[1], col[2], col[3], col[0]),
                               MixRow(col[2], col[3], col[0], col[1]),
                               MixRow(col[3], col[0], col[1], col[2])]
  {
  }

  /** With the products written out: {02}s is xtime(s) and {03}s is
      xtime(s) + s, as in equation (5.6) of FIPS 197. */
  lemma MixRowXtime(s0: bv8, s1: bv8, s2: bv8, s3: bv8)
    ensures MixRow(s0, s1, s2, s3) == Xtime(s0) ^ (Xtime(s1) ^ s1) ^ s2 ^ s3
  {
    MulTwoLeft(s0);
    MulThreeLeft(s1);
  }

  /** Byte `[i][c]` after MixColumns is byte `i` of the transformed column `c`. */
  lemma MixColumnsAt(g: seq<seq<bv8>>, i: nat, c: nat)
    requires IsGrid(g) && i < 4 && c < 4
    ensures MixColumnsSpec(g)[i][c] == MixColumn(Column(g, c))[i]
  {
  }

  /** Output column `c` of MixColumns is the transformation of input column
      `c` alone. */
  lemma MixColumnsColumnLocal(g: seq<seq<bv8>>, h: seq<seq<bv8>>, c: nat)
    requires IsGrid(g) && IsGrid(h) && c < 4
    requires Column(g, c) == Column(h, c)
    ensures Column(MixColumnsSpec(g), c) == MixColumn(Column(g, c))
    ensures Column(MixColumnsSpec(h), c) == MixColumn(Column(g, c))
  {
    var m := MixColumn(Column(g, c));
    forall i | 0 <= i < 4
      ensures Column(MixColumnsSpec(g), c)[i] == m[i]
      ensures Column(MixColumnsSpec(h), c)[i] == m[i]
    {
      MixColumnsAt(g, i, c);
      MixColumnsAt(h, i, c);
    }
  }

  /** AddRoundKey undoes itself. */
  lemma AddRoundKeyInvolution(g: seq<seq<bv8>>, key: seq<seq<bv8>>, round: nat)
    requires IsGrid(g) && IsKeyTable(key) && RoundKeyInRange(key, round)
    ensures AddRoundKeySpec(AddRoundKeySpec(g, key, round), key, round) == g
  {
    var h := AddRoundKeySpec(AddRoundKeySpec(g, key, round), key, round);
    forall i, j | 0 <= i < 4 && 0 <= j < 4
      ensures h[i][j] == g[i][j]
    {
      XorTwice(g[i][j], key[4 * round + j][i]);
    }
    GridExt(h, g);
  }

  lemma XorTwice(x: bv8, k: bv8)
    ensures (x ^ k) ^ k == x
  {
  }

  /** A state equal to the transposed round key is cleared. */
  lemma AddRoundKeyClears(g: seq<seq<bv8>>, key: seq<seq<bv8>>, round: nat)
    requires IsGrid(g) && IsKeyTable(key) && RoundKeyInRange(key, round)
    requires forall i, j :: 0 <= i < 4 && 0 <= j < 4 ==> key[4 * round + j][i] == g[i][j]
    ensures AddRoundKeySpec(g, key, round) == ZeroGrid()
  {
    var h := AddRoundKeySpec(g, key, round);
    forall i, j | 0 <= i < 4 && 0 <= j < 4
      ensures h[i][j] == ZeroGrid()[i][j]
    {
      XorSelf(g[i][j]);
    }
    GridExt(h, ZeroGrid());
  }

  lemma XorSelf(x: bv8)
    ensures x ^ x == 0
  {
  }

  function ZeroGrid(): (g: seq<seq<bv8>>)
    ensures IsGrid(g)
  {
    seq(4, _ => [0, 0, 0, 0])
  }

  /** The AddRoundKey test: key words 0 to 3 are the transposed state. */
  lemma AddRoundKeyExample(key: seq<seq<bv8>>)
    requires IsKeyTable(key)
    requires key[0] == [4, 1, 4, 1] && key[1] == [3, 2, 3, 2]
    requires key[2] == [2, 3, 2, 3] && key[3] == [1, 4, 1, 4]
    ensures AddRoundKeySpec([[4, 3, 2, 1], [1, 2, 3, 4], [4, 3, 2, 1], [1, 2, 3, 4]], key, 0) == ZeroGrid()
  {
    AddRoundKeyClears([[4, 3, 2, 1], [1, 2, 3, 4], [4, 3, 2, 1], [1, 2, 3, 4]], key, 0);
  }

  // ---------------------------------------------------------------------
  // Properties of the block pipeline

  /** Only the first 16 input bytes are read. */
  lemma LoadReadsSixteenBytes(input: seq<bv8>)
    requires |input| >= 16
    ensures Load(input) == Load(input[..16])
  {
    GridExt(Load(input), Load(input[..16]));
  }

  /** Loading row by row and storing column by column transposes the block:
      output byte `4 * j + i` is input byte `4 * i + j`. */
  lemma StoreLoadTransposes(input: seq<bv8>, i: nat, j: nat)
    requires |input| >= 16 && i < 4 && j < 4
    ensures Store(Load(input))[4 * j + i] == input[4 * i + j]
  {
    var k := 4 * j + i;
    assert k % 4 == i && k / 4 == j;
  }

  /** So the load and the store are not inverse to each other: byte 1 of the
      input comes out as byte 4. */
  lemma StoreLoadNotIdentity(input: seq<bv8>)
    requires |input| == 16 && input[1] != input[4]
    ensures Store(Load(input)) != input
  {
    StoreLoadTransposes(input, 0, 1);
  }

  /** `encrypt` as written never returns a ciphertext: short inputs panic at
      the load, and every other input panics at the last AddRoundKey, whose
      round key lies past the end of the table. */
  lemma EncryptAsWrittenNeverSucceeds(key: seq<seq<bv8>>, input: seq<bv8>)
    requires IsKeyTable(key)
    ensures !EncryptAsWritten(key, input).Ciphertext?
    ensures |input| >= 16 ==>
              EncryptAsWritten(key, input).RoundKeyOutOfRange? &&
              !RoundKeyInRange(key, EncryptAsWritten(key, input).round)
  {
  }

  /** Without the extra increment every input of at least 16 bytes encrypts to
      a 16-byte block that depends on the first 16 bytes only. */
  lemma EncryptCorrectedBlock(key: seq<seq<bv8>>, input: seq<bv8>)
    requires IsKeyTable(key)
    ensures |input| < 16 <==> EncryptCorrected(key, input) == InputTooShort
    ensures |input| >= 16 ==>
              EncryptCorrected(key, input).Ciphertext? &&
              |EncryptCorrected(key, input).bytes| == 16 &&
              EncryptCorrected(key, input) == EncryptCorrected(key, input[..16])
  {
    if |input| >= 16 {
      LoadReadsSixteenBytes(input);
      assert input[..16][..16] == input[..16];
    }
  }
}
