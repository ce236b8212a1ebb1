/** The RC5 cipher as far as the repository takes it: the key schedule's
    parameters are checked and stored, `destroy` wipes them, and `encrypt`
    is still a stub that returns no bytes. */
module Rc5 {

  /** `usize` on a 64-bit target. */
  const WordLimit := 0x1_0000_0000_0000_0000
  type Usize = x: int | 0 <= x < WordLimit

  datatype Option<T> = None | Some(value: T)

  /** `2 * rounds + 2` in `usize` arithmetic with overflow checks: `None` is
      the overflow panic. */
  function NumberOfRounds(rounds: Usize): (r: Option<Usize>)
    ensures r.Some? <==> 2 * rounds + 2 < WordLimit
    ensures r.Some? ==> r.value >= 2 && r.value % 2 == 0 && (r.value - 2) / 2 == rounds
  {
    if 2 * rounds + 2 < WordLimit then Some(2 * rounds + 2) else None
  }

  /** `new` panics on a word size that is not a multiple of 16, and on a
      round count whose half-round count does not fit a `usize`. */
  predicate Panics(rounds: Usize, wordSize: Usize)
  {
    wordSize % 16 != 0 || NumberOfRounds(rounds).None?
  }

  class RC5 {
    var key: seq<bv8>
    var rounds: Usize
    var wordSize: Usize
    var numberOfRounds: Usize
    var keySize: Usize

    /** The recorded key size is the length of the stored key. */
    predicate KeySizeMatches()
      reads this
    {
      keySize == |key|
    }

    /** The state `new` leaves behind for the given arguments. */
    predicate Configured(key: seq<bv8>, rounds: Usize, wordSize: Usize)
      reads this
    {
      this.key == key && this.rounds == rounds && this.wordSize == wordSize
      && NumberOfRounds(rounds) == Some(numberOfRounds) && KeySizeMatches()
    }

    /** The state `destroy` leaves behind. */
    predicate Destroyed()
      reads this
    {
      key == [] && rounds == 0 && wordSize == 0 && numberOfRounds == 0 && keySize == 0
    }

    /** The struct literal at the end of `new`, reached only when neither
        panic fires. */
    constructor (key: seq<bv8>, rounds: Usize, wordSize: Usize)
      requires |key| < WordLimit && !Panics(rounds, wordSize)
      ensures Configured(key, rounds, wordSize)
    {
      this.key := key;
      this.rounds := rounds;
      this.wordSize := wordSize;
      this.numberOfRounds := 2 * rounds + 2;
      this.keySize := |key|;
    }

    /** Clears the key and zeroes every count; the key size still matches
        the (now empty) key. */
    method Destroy()
      modifies this
      ensures Destroyed() && KeySizeMatches()
    {
      key := [];
      rounds := 0;
      wordSize := 0;
      numberOfRounds := 0;
      keySize := 0;
    }

    /** The stub: no ciphertext bytes, and no field changes. */
    method Encrypt(input: seq<bv8>) returns (output: seq<bv8>)
      ensures output == []
    {
      output := [];
    }
  }

  /** `RC5::new`: `null` stands for the panic. */
  method New(key: seq<bv8>, rounds: Usize, wordSize: Usize) returns (r: RC5?)
    requires |key| < WordLimit
    ensures r == null <==> Panics(rounds, wordSize)
    ensures r != null ==> fresh(r) && r.Configured(key, rounds, wordSize)
  {
    if wordSize % 16 != 0 {
      return null;
    }
    if 2 * rounds + 2 >= WordLimit {
      return null;
    }
    r := new RC5(key, rounds, wordSize);
  }
}
