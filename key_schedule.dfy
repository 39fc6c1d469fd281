/**
 * RC5_Key_Schedule: expands a 16-byte key into the table S of TableSize
 * words, in three stages.
 *
 *  1. Seeding (lines 31-35): S[0] = P32 and S[i] = S[i-1] + Q32.
 *  2. Packing (lines 37-41): the key bytes, taken from the last to the
 *     first, are shifted into the words L[0..3], which makes each word the
 *     little-endian reading of four consecutive bytes.
 *  3. Mixing (lines 43-51): MixSteps steps, each rewriting one entry of S
 *     and one of L from the running words A and B.
 *
 * Each stage has a functional description that follows its loop; the
 * method KeySchedule works in place on the caller's array and is proved to
 * leave ExpandKey(K) in it.
 */
module KeyExpansion {
  import opened Words

  /* ---------------------------------------------------------------- */
  /* Stage 1: seeding                                                  */
  /* ---------------------------------------------------------------- */

  /** Entry k of the seeded table, by the recurrence of lines 32-35. */
  function SeedWord(k: nat): bv32
  {
    if k == 0 then P32 else SeedWord(k - 1) + Q32
  }

  /** The seeded table. */
  function SeedTable(): (t: seq<bv32>)
    ensures |t| == TableSize
    ensures forall k :: 0 <= k < TableSize ==> t[k] == SeedWord(k)
  {
    seq(TableSize, k requires 0 <= k => SeedWord(k))
  }

  /** The recurrence gives the closed form S[w] = P32 + w * Q32, modulo 2^32. */
  lemma {:induction false} SeedClosedForm(w: bv32)
    requires w < 26
    ensures SeedWord(w as nat) == P32 + w * Q32
    decreases w
  {
    if w > 0 {
      SeedClosedForm(w - 1);
    }
  }

  /** Entry k of the seeded table is P32 + k * Q32, modulo 2^32. */
  lemma SeedTableAt(k: bv32)
    requires k < 26
    ensures SeedTable()[k as nat] == P32 + k * Q32
  {
    SeedClosedForm(k);
  }

  /** One step of the seeding loop, line 34. */
  lemma SeedStep(i: nat, w: bv32)
    requires 0 < i && w == SeedWord(i - 1)
    ensures w + Q32 == SeedWord(i)
  {
  }

  /* ---------------------------------------------------------------- */
  /* Stage 2: packing the key bytes                                    */
  /* ---------------------------------------------------------------- */

  /** Line 40: the word shifted up by one byte with the byte x added in. */
  function PushByte(w: bv32, x: bv8): bv32
  {
    (w << 8) + (x as bv32)
  }

  /** The words L after the packing loop has handled bytes K[|K|-1] down to K[i]. */
  function PackFrom(K: seq<bv8>, i: nat): (L: seq<bv32>)
    requires |K| == KeyBytes && i <= |K|
    ensures |L| == KeyWords
    decreases |K| - i
  {
    if i == |K| then seq(KeyWords, _ => 0)
    else
      var L := PackFrom(K, i + 1);
      L[i / BytesPerWord := PushByte(L[i / BytesPerWord], K[i])]
  }

  /** The words L the packing loop leaves. */
  function KeyWordsOf(K: seq<bv8>): (L: seq<bv32>)
    requires |K| == KeyBytes
    ensures |L| == KeyWords
  {
    PackFrom(K, 0)
  }

  /** Bytes K[lo..hi] pushed into a zero word from the last to the first. */
  function Pack(K: seq<bv8>, lo: nat, hi: nat): bv32
    requires lo <= hi <= |K|
    decreases hi - lo
  {
    if lo == hi then 0 else PushByte(Pack(K, lo + 1, hi), K[lo])
  }

  /** The little-endian word of the four bytes K[p..p+3]. */
  function LittleEndian(K: seq<bv8>, p: nat): bv32
    requires p + 4 <= |K|
  {
    (K[p] as bv32) + ((K[p + 1] as bv32) << 8) + ((K[p + 2] as bv32) << 16) + ((K[p + 3] as bv32) << 24)
  }

  /** Where the packing loop has got to within word w: the bytes of w it has pushed start at this index. */
  function Reached(i: nat, w: nat): nat
  {
    if i < 4 * w then 4 * w else if i > 4 * w + 4 then 4 * w + 4 else i
  }

  /** After handling bytes down to K[i], word w holds the bytes of w from Reached(i, w) on. */
  lemma {:induction false} PackFromWord(K: seq<bv8>, i: nat, w: nat)
    requires |K| == KeyBytes && i <= |K| && w < KeyWords
    ensures PackFrom(K, i)[w] == Pack(K, Reached(i, w), 4 * w + 4)
    decreases |K| - i
  {
    if i < |K| {
      PackFromWord(K, i + 1, w);
    }
  }

  /** Four bytes pushed from the last to the first form the little-endian word. */
  lemma PackIsLittleEndian(K: seq<bv8>, p: nat)
    requires p + 4 <= |K|
    ensures Pack(K, p, p + 4) == LittleEndian(K, p)
  {
    assert Pack(K, p + 3, p + 4) == PushByte(0, K[p + 3]);
    assert Pack(K, p + 2, p + 4) == PushByte(PushByte(0, K[p + 3]), K[p + 2]);
    assert Pack(K, p + 1, p + 4) == PushByte(PushByte(PushByte(0, K[p + 3]), K[p + 2]), K[p + 1]);
  }

  /** Lines 37-41: L[j] is the little-endian word of the key bytes K[4j..4j+3]. */
  lemma KeyWordsLittleEndian(K: seq<bv8>, j: nat)
    requires |K| == KeyBytes && j < KeyWords
    ensures KeyWordsOf(K)[j] == LittleEndian(K, 4 * j)
  {
    PackFromWord(K, 0, j);
    PackIsLittleEndian(K, 4 * j);
  }

  /* ---------------------------------------------------------------- */
  /* Stage 3: mixing                                                   */
  /* ---------------------------------------------------------------- */

  /** The data the mixing loop works on: the tables S and L and the running words A and B. */
  datatype MixState = MixState(S: seq<bv32>, L: seq<bv32>, A: bv32, B: bv32)

  predicate Shaped(st: MixState)
  {
    |st.S| == TableSize && |st.L| == KeyWords
  }

  /** Line 47: the new S[i], and new A, from the old S[i], A and B. */
  function MixA(s: bv32, a: bv32, b: bv32): bv32
  {
    Rol(s + a + b, 3)
  }

  /** Line 48: the new L[j], and new B, from the old L[j], the new A and the old B. */
  function MixB(l: bv32, a: bv32, b: bv32): bv32
  {
    Rol(l + a + b, Amount(a + b))
  }

  /**
   * Step s of the mixing loop, with i = s % TableSize and j = s % KeyWords:
   * S[i] and A get MixA of the old values, then L[j] and B get MixB of
   * L[j], the new A and the old B.  Nothing else changes, and afterwards A
   * and B are the entries just written.
   */
  function MixStep(st: MixState, s: nat): (r: MixState)
    requires Shaped(st)
    ensures Shaped(r)
    ensures r.S == st.S[s % TableSize := r.A]
    ensures r.L == st.L[s % KeyWords := r.B]
  {
    var i := s % TableSize;
    var j := s % KeyWords;
    var a := MixA(st.S[i], st.A, st.B);
    var b := MixB(st.L[j], a, st.B);
    MixState(st.S[i := a], st.L[j := b], a, b)
  }

  /** The state after mixing steps 0..n-1 from st. */
  function Mix(st: MixState, n: nat): (r: MixState)
    requires Shaped(st)
    ensures Shaped(r)
    decreases st, n
  {
    if n == 0 then st else MixStep(Mix(st, n - 1), n - 1)
  }

  /** The state the mixing loop starts from: the seeded table, the packed key and A = B = 0. */
  function MixStart(K: seq<bv8>): (st: MixState)
    requires |K| == KeyBytes
    ensures Shaped(st)
  {
    MixState(SeedTable(), KeyWordsOf(K), 0, 0)
  }

  /** The expanded key table RC5_Key_Schedule leaves in S. */
  function ExpandKey(K: seq<bv8>): (S: seq<bv32>)
    requires |K| == KeyBytes
    ensures |S| == TableSize
  {
    Mix(MixStart(K), MixSteps).S
  }

  /** How many of the steps 0..n-1 use index k of a table of m words. */
  function Writes(k: nat, n: nat, m: nat): nat
    requires m > 0
  {
    if n == 0 then 0 else Writes(k, n - 1, m) + (if (n - 1) % m == k then 1 else 0)
  }

  /** Consecutive step numbers, divided by a table size: the index moves on by one and wraps at the end. */
  lemma NextIndexTable(n: nat)
    ensures (n + 1) / TableSize == n / TableSize + (if n % TableSize == TableSize - 1 then 1 else 0)
    ensures (n + 1) % TableSize == (if n % TableSize == TableSize - 1 then 0 else n % TableSize + 1)
  {
  }

  lemma NextIndexKey(n: nat)
    ensures (n + 1) / KeyWords == n / KeyWords + (if n % KeyWords == KeyWords - 1 then 1 else 0)
    ensures (n + 1) % KeyWords == (if n % KeyWords == KeyWords - 1 then 0 else n % KeyWords + 1)
  {
  }

  /** Index k < m is used once in every m consecutive steps. */
  lemma {:induction false} WritesCount(k: nat, n: nat, m: nat)
    requires m == TableSize || m == KeyWords
    requires k < m
    ensures Writes(k, n, m) == n / m + (if k < n % m then 1 else 0)
  {
    if n > 0 {
      WritesCount(k, n - 1, m);
      if m == TableSize {
        NextIndexTable(n - 1);
      } else {
        NextIndexKey(n - 1);
      }
    }
  }

  /** The mixing loop runs 3 * max(t, c) = 78 steps and rewrites every entry of S exactly three times. */
  lemma EveryEntryMixedThrice(k: nat)
    requires k < TableSize
    ensures MixSteps == 78
    ensures Writes(k, MixSteps, TableSize) == 3
  {
    WritesCount(k, MixSteps, TableSize);
  }

  /** The mixing loop also rewrites L[0] and L[1] twenty times each, and L[2] and L[3] nineteen times. */
  lemma EveryKeyWordMixed(j: nat)
    requires j < KeyWords
    ensures Writes(j, MixSteps, KeyWords) == if j < 2 then 20 else 19
  {
    WritesCount(j, MixSteps, KeyWords);
  }

  /** An entry of S that none of the steps 0..n-1 rewrites keeps its starting value. */
  lemma {:induction false} UnwrittenKept(st: MixState, n: nat, k: nat)
    requires Shaped(st) && k < TableSize && Writes(k, n, TableSize) == 0
    ensures Mix(st, n).S[k] == st.S[k]
  {
    if n > 0 {
      UnwrittenKept(st, n - 1, k);
    }
  }

  /** Steps m..n-1 that all use other entries than k leave S[k] as it was after step m - 1. */
  lemma {:induction false} MixKeeps(st: MixState, m: nat, n: nat, k: nat)
    requires Shaped(st) && m <= n && k < TableSize
    requires forall s :: m <= s < n ==> s % TableSize != k
    ensures Mix(st, n).S[k] == Mix(st, m).S[k]
    decreases n - m
  {
    if m < n {
      MixKeeps(st, m, n - 1, k);
    }
  }

  /** After steps 0..n-1, A and B are the entries the last step wrote. */
  lemma MixWritesAB(st: MixState, n: nat)
    requires Shaped(st) && n > 0
    ensures Mix(st, n).A == Mix(st, n).S[(n - 1) % TableSize]
    ensures Mix(st, n).B == Mix(st, n).L[(n - 1) % KeyWords]
  {
  }

  /**
   * The final S[k] is the word A that step 2t + k computed, the third and
   * last time the loop reached index k.
   */
  lemma FinalEntry(st: MixState, k: nat)
    requires Shaped(st) && k < TableSize
    ensures Mix(st, MixSteps).S[k] == Mix(st, 2 * TableSize + k + 1).A
  {
    forall s | 2 * TableSize + k + 1 <= s < MixSteps
      ensures s % TableSize != k
    {
      ThirdPass(s);
    }
    MixKeeps(st, 2 * TableSize + k + 1, MixSteps, k);
    ThirdPass(2 * TableSize + k);
  }

  /** Steps 2t .. 3t - 1 make the third pass over S, from S[0] to S[t - 1]. */
  lemma ThirdPass(s: nat)
    requires 2 * TableSize <= s < MixSteps
    ensures s % TableSize == s - 2 * TableSize
  {
  }

  /** i + 1 and s + 1 fall on the same entry when i and s do (the index updates of lines 49-50). */
  lemma IndexStep(s: nat, i: nat, j: nat)
    requires i == s % TableSize && j == s % KeyWords
    ensures (i + 1) % TableSize == (s + 1) % TableSize
    ensures (j + 1) % KeyWords == (s + 1) % KeyWords
  {
    NextIndexTable(s);
    NextIndexKey(s);
    WrapTable(i);
    WrapKey(j);
  }

  lemma WrapTable(i: nat)
    requires i < TableSize
    ensures (i + 1) % TableSize == if i == TableSize - 1 then 0 else i + 1
  {
  }

  lemma WrapKey(j: nat)
    requires j < KeyWords
    ensures (j + 1) % KeyWords == if j == KeyWords - 1 then 0 else j + 1
  {
  }

  /** One step of the mixing loop, with the words it reads named. */
  lemma MixStepWords(st: MixState, s: nat, si: bv32, lj: bv32)
    requires Shaped(st)
    requires si == st.S[s % TableSize] && lj == st.L[s % KeyWords]
    ensures MixStep(st, s) ==
      MixState(st.S[s % TableSize := MixA(si, st.A, st.B)],
               st.L[s % KeyWords := MixB(lj, MixA(si, st.A, st.B), st.B)],
               MixA(si, st.A, st.B), MixB(lj, MixA(si, st.A, st.B), st.B))
  {
  }

  /* ---------------------------------------------------------------- */
  /* The routine                                                       */
  /* ---------------------------------------------------------------- */

  /** Lines 31-35: seeds S[0..25] and writes no other entry. */
  method Seed(S: array<bv32>)
    requires S.Length >= TableSize
    modifies S
    ensures S[..TableSize] == SeedTable()
    ensures forall k :: TableSize <= k < S.Length ==> S[k] == old(S[k])
  {
    S[0] := P32;
    var i := 1;
    while i < TableSize
      invariant 1 <= i <= TableSize
      invariant forall k :: 0 <= k < i ==> S[k] == SeedWord(k)
      invariant forall k :: TableSize <= k < S.Length ==> S[k] == old(S[k])
    {
      SeedStep(i, S[i - 1]);
      S[i] := S[i - 1] + Q32;
      i := i + 1;
    }
  }

  /** Lines 37-41: the words L, zero-initialised and then filled from the key bytes. */
  method PackKey(K: seq<bv8>) returns (L: array<bv32>)
    requires |K| == KeyBytes
    ensures fresh(L)
    ensures L[..] == KeyWordsOf(K)
  {
    L := new bv32[KeyWords](_ => 0);
    var i: int := KeyBytes - 1;
    while i >= 0
      invariant -1 <= i < KeyBytes
      invariant L[..] == PackFrom(K, i + 1)
    {
      L[i / BytesPerWord] := PushByte(L[i / BytesPerWord], K[i]);
      i := i - 1;
    }
  }

  /** Lines 47-48: one step of the mixing loop at the indices i and j. */
  method MixOne(S: array<bv32>, L: array<bv32>, i: nat, j: nat, a: bv32, b: bv32) returns (a': bv32, b': bv32)
    requires i < TableSize <= S.Length && j < KeyWords == L.Length && S != L
    modifies S, L
    ensures a' == MixA(old(S[i]), a, b) && b' == MixB(old(L[j]), a', b)
    ensures S[..TableSize] == old(S[..TableSize])[i := a'] && L[..] == old(L[..])[j := b']
    ensures forall k :: TableSize <= k < S.Length ==> S[k] == old(S[k])
  {
    a' := MixA(S[i], a, b);
    S[i] := a';
    b' := MixB(L[j], a', b);
    L[j] := b';
  }

  /**
   * Lines 43-51: MixSteps steps of the mixing loop on S[0..25] and L, from
   * A = B = 0; the indices i and j run round the two tables.
   */
  method MixInto(S: array<bv32>, L: array<bv32>)
    requires S.Length >= TableSize && L.Length == KeyWords && S != L
    modifies S, L
    ensures S[..TableSize] == Mix(MixState(old(S[..TableSize]), old(L[..]), 0, 0), MixSteps).S
    ensures L[..] == Mix(MixState(old(S[..TableSize]), old(L[..]), 0, 0), MixSteps).L
    ensures forall k :: TableSize <= k < S.Length ==> S[k] == old(S[k])
  {
    ghost var start := MixState(S[..TableSize], L[..], 0, 0);
    var a: bv32, b: bv32 := 0, 0;
    var s, i, j := 0, 0, 0;
    while s < MixSteps
      invariant 0 <= s <= MixSteps
      invariant i == s % TableSize && j == s % KeyWords
      invariant MixState(S[..TableSize], L[..], a, b) == Mix(start, s)
      invariant forall k :: TableSize <= k < S.Length ==> S[k] == old(S[k])
    {
      MixStepWords(Mix(start, s), s, S[i], L[j]);
      a, b := MixOne(S, L, i, j, a, b);
      IndexStep(s, i, j);
      i := (i + 1) % TableSize;
      j := (j + 1) % KeyWords;
      s := s + 1;
    }
  }

  /**
   * RC5_Key_Schedule: fills S[0..25] with the expanded key of K and writes
   * no other entry of S.
   */
  method KeySchedule(K: seq<bv8>, S: array<bv32>)
    requires |K| == KeyBytes && S.Length >= TableSize
    modifies S
    ensures S[..TableSize] == ExpandKey(K)
    ensures forall k :: TableSize <= k < S.Length ==> S[k] == old(S[k])
  {
    Seed(S);
    var L := PackKey(K);
    MixInto(S, L);
  }
}
