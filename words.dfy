/**
 * 32-bit words, the parameters of RC5-32/12/16, and the rotations
 * ROL and ROR that every other part of the cipher is built from.
 *
 * A C++ `unsigned int` is a `bv32` here: `+`, `-`, `^`, `<<` and `>>`
 * on `bv32` wrap modulo 2^32 exactly as the unsigned C++ operators do.
 */
module Words {

  /** The magic constants: Odd((e - 2) * 2^32) and Odd((phi - 1) * 2^32). */
  const P32: bv32 := 0xB7E15163
  const Q32: bv32 := 0x9E3779B9

  /** Number of rounds of the block cipher. */
  const Rounds: nat := 12
  /** Bits per word; rotation amounts are taken modulo this. */
  const WordSize: nat := 32
  /** Bits per byte. */
  const ByteSize: nat := 8

  /** b: length of the secret key in bytes. */
  const KeyBytes: nat := 16
  /** u: bytes per word. */
  const BytesPerWord: nat := 4
  /** c: length of the secret key in words. */
  const KeyWords: nat := 4
  /** t: number of words of the expanded key table S. */
  const TableSize: nat := 26
  /** v: number of steps of the key-mixing loop. */
  const MixSteps: nat := 78

  /** The derived parameters are the values the RC5 definitions give them. */
  lemma DerivedParameters()
    ensures BytesPerWord == WordSize / ByteSize
    ensures KeyWords == KeyBytes / BytesPerWord
    ensures TableSize == 2 * (Rounds + 1)
    ensures MixSteps == 3 * (if TableSize >= KeyWords then TableSize else KeyWords)
  {
  }

  /** The rotation amount `x % WORD_SIZE` that the cipher derives from a word. */
  function Amount(x: bv32): (n: bv32)
    ensures n < 32
  {
    x % 32
  }

  /**
   * ROL: x shifted left by n, with the bits shifted out at the top brought
   * back in at the bottom.  For n == 0 the right shift is by WORD_SIZE,
   * which Dafny defines to give 0 (see RolZero).
   */
  function Rol(x: bv32, n: bv32): bv32
    requires n < 32
  {
    (x << n) | (x >> (32 - n))
  }

  /** ROR: the mirror image of ROL, shifting right and bringing the low bits back in at the top. */
  function Ror(x: bv32, n: bv32): bv32
    requires n < 32
  {
    (x >> n) | (x << (32 - n))
  }

  /** ROR undoes ROL for every amount the cipher can use. */
  lemma RorRol(x: bv32, n: bv32)
    requires n < 32
    ensures Ror(Rol(x, n), n) == x
  {
  }

  /** ROL undoes ROR for every amount the cipher can use. */
  lemma RolRor(x: bv32, n: bv32)
    requires n < 32
    ensures Rol(Ror(x, n), n) == x
  {
  }

  /**
   * Rotation by 0 leaves the word unchanged.  The shift by WORD_SIZE this
   * takes is left undefined by C++; Dafny defines it to give 0, which is
   * what makes the formula a rotation at n == 0 as well.
   */
  lemma RolZero(x: bv32)
    ensures Rol(x, 0) == x
    ensures Ror(x, 0) == x
  {
  }
}
