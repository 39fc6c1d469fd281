/**
 * The RC5 block cipher: RC5_Encrypt and RC5_Decrypt on a two-word block
 * under an expanded key table S of TableSize words.
 *
 * The functions describe the computation round by round; the methods
 * mirror the C++ routines, which read M[0..1] and S[0..25] and write only
 * the two output words, and are proved to compute those functions.
 */
module Cipher {
  import opened Words

  /** A block of the cipher: the words A and B. */
  datatype Block = Block(a: bv32, b: bv32)

  /** A table the cipher can read: S[0], S[1] and S[2i], S[2i+1] for each round i. */
  predicate IsTable(S: seq<bv32>)
  {
    |S| >= TableSize
  }

  /*
   * Half-steps.  Line 60 computes A = ROL(A ^ B, B % WORD_SIZE) + S[2i] and
   * line 61 the same with A and B exchanged, so both are EncHalf(x, y, k)
   * with x the word updated, y the other word and k the table entry.  Lines
   * 74 and 75 are DecHalf(x, y, k) in the same sense.
   */

  /** One encryption half-step: x is mixed with y and the key word k. */
  function EncHalf(x: bv32, y: bv32, k: bv32): bv32
  {
    Rol(x ^ y, Amount(y)) + k
  }

  /** One decryption half-step: subtract k, rotate back by y, remove y. */
  function DecHalf(x: bv32, y: bv32, k: bv32): bv32
  {
    Ror(x - k, Amount(y)) ^ y
  }

  /** An exclusive or with w is undone by a second exclusive or with w. */
  lemma XorBack(u: bv32, v: bv32, w: bv32)
    requires u == v ^ w
    ensures u ^ w == v
  {
  }

  /** DecHalf applied to the unfolded result of EncHalf gives back x. */
  lemma DecHalfOfEncHalfTerm(x: bv32, y: bv32, k: bv32)
    ensures DecHalf(Rol(x ^ y, Amount(y)) + k, y, k) == x
  {
    RorRol(x ^ y, Amount(y));
    XorBack(Ror(Rol(x ^ y, Amount(y)), Amount(y)), x, y);
  }

  /** Lines 74/75 undo lines 61/60: a decryption half-step inverts an encryption half-step. */
  lemma DecHalfInvertsEncHalf(x: bv32, y: bv32, k: bv32)
    ensures DecHalf(EncHalf(x, y, k), y, k) == x
  {
    DecHalfOfEncHalfTerm(x, y, k);
  }

  /** Round i of encryption (lines 60-61): A is updated first, and the new A feeds B. */
  function EncRound(a: bv32, b: bv32, S: seq<bv32>, i: nat): Block
    requires IsTable(S) && 1 <= i <= Rounds
  {
    var a' := EncHalf(a, b, S[2 * i]);
    Block(a', EncHalf(b, a', S[2 * i + 1]))
  }

  /** Round i of decryption (lines 74-75): B is restored first, then A from the restored B. */
  function DecRound(a: bv32, b: bv32, S: seq<bv32>, i: nat): Block
    requires IsTable(S) && 1 <= i <= Rounds
  {
    var b' := DecHalf(b, a, S[2 * i + 1]);
    Block(DecHalf(a, b', S[2 * i]), b')
  }

  /** Decryption round i undoes encryption round i. */
  lemma DecRoundInvertsEncRound(a: bv32, b: bv32, S: seq<bv32>, i: nat)
    requires IsTable(S) && 1 <= i <= Rounds
    ensures var e := EncRound(a, b, S, i); DecRound(e.a, e.b, S, i) == Block(a, b)
  {
    DecHalfInvertsEncHalf(a, b, S[2 * i]);
    DecHalfInvertsEncHalf(b, EncHalf(a, b, S[2 * i]), S[2 * i + 1]);
  }

  /**
   * The block after encryption rounds 1..n applied to x.  S never changes
   * in the recursion; it is in the decreases clause only so that the
   * verifier does not unroll all twelve rounds of a call with literal n.
   */
  function EncRounds(x: Block, S: seq<bv32>, n: nat): Block
    requires IsTable(S) && n <= Rounds
    decreases S, n
  {
    if n == 0 then x
    else
      var p := EncRounds(x, S, n - 1);
      EncRound(p.a, p.b, S, n)
  }

  /**
   * The block after decryption rounds hi, hi - 1, ..., lo + 1 applied to y.
   * As for EncRounds, S is in the decreases clause only to stop the
   * verifier unrolling calls with literal bounds.
   */
  function DecRounds(y: Block, S: seq<bv32>, hi: nat, lo: nat): Block
    requires IsTable(S) && lo <= hi <= Rounds
    decreases S, hi - lo
  {
    if lo == hi then y
    else
      var p := DecRounds(y, S, hi, lo + 1);
      DecRound(p.a, p.b, S, lo + 1)
  }

  /** Undoing rounds n down to lo + 1 of an n-round encryption leaves the first lo rounds. */
  lemma {:induction false} DecRoundsInvertEncRounds(x: Block, S: seq<bv32>, n: nat, lo: nat)
    requires IsTable(S) && lo <= n <= Rounds
    ensures DecRounds(EncRounds(x, S, n), S, n, lo) == EncRounds(x, S, lo)
    decreases n - lo
  {
    if lo < n {
      DecRoundsInvertEncRounds(x, S, n, lo + 1);
      var p := EncRounds(x, S, lo);
      DecRoundInvertsEncRound(p.a, p.b, S, lo + 1);
    }
  }

  /** Lines 56-57: the words of the message with the key words k0 = S[0] and k1 = S[1] added. */
  function Whiten(a: bv32, b: bv32, k0: bv32, k1: bv32): Block
  {
    Block(a + k0, b + k1)
  }

  /** Lines 78-79: the words of the block with the key words k0 = S[0] and k1 = S[1] subtracted. */
  function Unwhiten(a: bv32, b: bv32, k0: bv32, k1: bv32): Block
  {
    Block(a - k0, b - k1)
  }

  /** Unwhiten applied to the unfolded result of Whiten gives back the words. */
  lemma UnwhitenOfWhitenTerm(a: bv32, b: bv32, k0: bv32, k1: bv32)
    ensures Unwhiten(a + k0, b + k1, k0, k1) == Block(a, b)
  {
  }

  /** Subtracting the key words undoes adding them. */
  lemma UnwhitenInvertsWhiten(a: bv32, b: bv32, k0: bv32, k1: bv32)
    ensures var w := Whiten(a, b, k0, k1); Unwhiten(w.a, w.b, k0, k1) == Block(a, b)
  {
    UnwhitenOfWhitenTerm(a, b, k0, k1);
  }

  /** RC5_Encrypt (lines 55-66) on the block m under table S. */
  function EncryptBlock(m: Block, S: seq<bv32>): Block
    requires IsTable(S)
  {
    EncRounds(Whiten(m.a, m.b, S[0], S[1]), S, Rounds)
  }

  /** RC5_Decrypt (lines 69-80) on the block c under table S. */
  function DecryptBlock(c: Block, S: seq<bv32>): Block
    requires IsTable(S)
  {
    var p := DecRounds(c, S, Rounds, 0);
    Unwhiten(p.a, p.b, S[0], S[1])
  }

  /** Decryption under the same table gives back the message, for every table. */
  lemma DecryptInvertsEncrypt(m: Block, S: seq<bv32>)
    requires IsTable(S)
    ensures DecryptBlock(EncryptBlock(m, S), S) == m
  {
    DecRoundsInvertEncRounds(Whiten(m.a, m.b, S[0], S[1]), S, Rounds, 0);
    UnwhitenInvertsWhiten(m.a, m.b, S[0], S[1]);
  }

  /* The cipher reads only the words S[0..25] of a table. */

  lemma {:induction false} EncRoundsPrefix(x: Block, S: seq<bv32>, n: nat)
    requires IsTable(S) && n <= Rounds
    ensures EncRounds(x, S, n) == EncRounds(x, S[..TableSize], n)
  {
    if n > 0 {
      EncRoundsPrefix(x, S, n - 1);
    }
  }

  lemma {:induction false} DecRoundsPrefix(y: Block, S: seq<bv32>, hi: nat, lo: nat)
    requires IsTable(S) && lo <= hi <= Rounds
    ensures DecRounds(y, S, hi, lo) == DecRounds(y, S[..TableSize], hi, lo)
    decreases hi - lo
  {
    if lo < hi {
      DecRoundsPrefix(y, S, hi, lo + 1);
    }
  }

  /** Encryption depends on S[0..25] only: words beyond them are never read. */
  lemma EncryptReadsTable(m: Block, S: seq<bv32>)
    requires IsTable(S)
    ensures EncryptBlock(m, S) == EncryptBlock(m, S[..TableSize])
  {
    EncRoundsPrefix(Whiten(m.a, m.b, S[0], S[1]), S, Rounds);
  }

  /** Decryption depends on S[0..25] only: words beyond them are never read. */
  lemma DecryptReadsTable(c: Block, S: seq<bv32>)
    requires IsTable(S)
    ensures DecryptBlock(c, S) == DecryptBlock(c, S[..TableSize])
  {
    DecRoundsPrefix(c, S, Rounds, 0);
  }

  /** One more encryption round, with its key words k0 and k1 as read from the table. */
  lemma EncRoundsStep(x: Block, S: seq<bv32>, i: nat, a: bv32, b: bv32, k0: bv32, k1: bv32)
    requires IsTable(S) && 1 <= i <= Rounds
    requires Block(a, b) == EncRounds(x, S, i - 1)
    requires k0 == S[2 * i] && k1 == S[2 * i + 1]
    ensures EncRounds(x, S, i) == Block(EncHalf(a, b, k0), EncHalf(b, EncHalf(a, b, k0), k1))
  {
  }

  /** One more decryption round, with its key words k0 and k1 as read from the table. */
  lemma DecRoundsStep(y: Block, S: seq<bv32>, i: nat, a: bv32, b: bv32, k0: bv32, k1: bv32)
    requires IsTable(S) && 1 <= i <= Rounds
    requires Block(a, b) == DecRounds(y, S, Rounds, i)
    requires k0 == S[2 * i] && k1 == S[2 * i + 1]
    ensures DecRounds(y, S, Rounds, i - 1) == Block(DecHalf(a, DecHalf(b, a, k1), k0), DecHalf(b, a, k1))
  {
  }

  /**
   * RC5_Encrypt: reads the message words M[0..1] and the table words
   * S[0..25] (both read-only) and writes the encrypted block into C[0..1];
   * nothing else changes.
   */
  method Encrypt(M: seq<bv32>, C: array<bv32>, S: seq<bv32>)
    requires |M| >= 2 && C.Length >= 2 && IsTable(S)
    modifies C
    ensures Block(C[0], C[1]) == EncryptBlock(Block(M[0], M[1]), S)
    ensures forall k :: 2 <= k < C.Length ==> C[k] == old(C[k])
  {
    var start := Whiten(M[0], M[1], S[0], S[1]);
    var a := start.a;
    var b := start.b;
    var i := 1;
    while i <= Rounds
      invariant 1 <= i <= Rounds + 1
      invariant Block(a, b) == EncRounds(start, S, i - 1)
      modifies {}
    {
      var k0, k1 := S[2 * i], S[2 * i + 1];
      EncRoundsStep(start, S, i, a, b, k0, k1);
      a := EncHalf(a, b, k0);
      b := EncHalf(b, a, k1);
      i := i + 1;
    }
    C[0] := a;
    C[1] := b;
  }

  /**
   * RC5_Decrypt: reads the cipher words C[0..1] and the table words
   * S[0..25] (both read-only) and writes the decrypted block into M[0..1];
   * nothing else changes.
   */
  method Decrypt(C: seq<bv32>, M: array<bv32>, S: seq<bv32>)
    requires |C| >= 2 && M.Length >= 2 && IsTable(S)
    modifies M
    ensures Block(M[0], M[1]) == DecryptBlock(Block(C[0], C[1]), S)
    ensures forall k :: 2 <= k < M.Length ==> M[k] == old(M[k])
  {
    ghost var start := Block(C[0], C[1]);
    var a := C[0];
    var b := C[1];
    var i := Rounds;
    while i > 0
      invariant 0 <= i <= Rounds
      invariant Block(a, b) == DecRounds(start, S, Rounds, i)
      modifies {}
    {
      var k0, k1 := S[2 * i], S[2 * i + 1];
      DecRoundsStep(start, S, i, a, b, k0, k1);
      b := DecHalf(b, a, k1);
      a := DecHalf(a, b, k0);
      i := i - 1;
    }
    var m := Unwhiten(a, b, S[0], S[1]);
    M[0] := m.a;
    M[1] := m.b;
  }
}
