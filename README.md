# RC5-32/12/16 in Dafny

A model of a small C++ implementation of the RC5 block cipher with 32-bit
words, 12 rounds and a 16-byte key (`Untitled-1.cpp`), and of the routine
`Task1`, which expands a key and then encrypts or decrypts a sequence of
word pairs, printing each result as hexadecimal text.

The project has four modules:

- `Words` (`words.dfy`): the parameters (P32, Q32, 12 rounds, t = 26,
  c = 4, 78 mixing steps) and the rotations `ROL`/`ROR`. An `unsigned int`
  is a `bv32`, so addition, subtraction and shifts wrap modulo 2^32 as in
  C++.
- `Cipher` (`cipher.dfy`): `RC5_Encrypt` and `RC5_Decrypt`.
  - Round-by-round functions (`EncRound`, `EncRounds`, `Whiten`, …)
    describe the computation.
  - The methods `Encrypt` and `Decrypt` mirror the C++ loops. They read
    the input block and the table as values, write the two words of the
    output array, and are proved to compute those functions.
  - Decryption is proved to undo encryption at every level: a half-step,
    a round, a run of rounds, the whitening and the whole block.
  - The cipher reads only `S[0..25]` of whatever table it is given.
- `KeyExpansion` (`key_schedule.dfy`): `RC5_Key_Schedule` in its three
  stages.
  - Seeding, with the closed form `S[w] = P32 + w*Q32`.
  - Packing the key bytes into four little-endian words.
  - The 78 mixing steps.
  - The method `KeySchedule` fills the caller's array in place and is
    proved to leave `ExpandKey(K)` in `S[0..25]` and nothing else changed.
  - Lemmas state what the mixing does: every entry of S is rewritten
    exactly three times, L[0..1] twenty times and L[2..3] nineteen times,
    and the final S[k] is the word A of the last pass over k.
- `Task` (`task.dfy`): `Task1`.
  - The key words are handed to the key schedule as their in-memory bytes
    (`HostBytes`, least significant byte first).
  - The output stream is the string it accumulates.
  - The method `Task1` is proved to return `Task1Text`: every pair of
    source words transformed and rendered as eight-digit uppercase
    hexadecimal fields separated by single spaces.
  - Lemmas give the length and the character layout of that text. They
    show that it can be read back into the blocks, and that decrypting
    what was read back from an encryption gives back the source words.

An odd `sourceSize` is a caller error. The code still runs
`ceil(sourceSize / 2)` iterations and reads `source[i + 1]` in each one, so
for an odd size it also reads the word at index `sourceSize`. The model
follows the code:
- `BlockCount(sourceSize)` is `sourceSize / 2` rounded up;
- the precondition `2 * BlockCount(sourceSize) <= |source|` asks only that
  every word the loop reads exists;
- for an even `sourceSize = 2k` this gives k blocks and `18k - 1`
  characters (`Task1Length`).

## Model

| member | source | states |
|---|---|---|
| Words.DerivedParameters | Untitled-1.cpp:26-29 | u = WORD_SIZE / BYTE_SIZE = 4, c = b / u = 4, t = 2 (ROUNDS + 1) = 26, and the v = 3 max(t, c) = 78 of line 45: the constants of the model are the values the source derives |
| Words.Rol | Untitled-1.cpp:15-17 | ROL: x shifted left by n, or-ed with x shifted right by WORD_SIZE - n (defined only for n < 32) |
| Words.Ror | Untitled-1.cpp:20-22 | ROR: x shifted right by n, or-ed with x shifted left by WORD_SIZE - n (defined only for n < 32) |
| Words.RorRol | Untitled-1.cpp:15-22 | ROR(ROL(x, n), n) == x for every word x and every amount n < 32 |
| Words.RolRor | Untitled-1.cpp:15-22 | ROL(ROR(x, n), n) == x for every word x and every amount n < 32 |
| Words.RolZero | Untitled-1.cpp:15-22 | rotating by 0 (a shift by WORD_SIZE in the formula) leaves the word unchanged |
| Cipher.EncHalf | Untitled-1.cpp:60-61 | one encryption half-step: ROL(x ^ y, y mod 32) + k, with x the word updated, y the other word and k the table word |
| Cipher.DecHalf | Untitled-1.cpp:74-75 | one decryption half-step: ROR(x - k, y mod 32) ^ y |
| Cipher.EncryptBlock | Untitled-1.cpp:55-66 | RC5_Encrypt as a function: S[0], S[1] added, then rounds 1 to 12 |
| Cipher.DecryptBlock | Untitled-1.cpp:69-80 | RC5_Decrypt as a function: rounds 12 down to 1, then S[0], S[1] subtracted |
| Cipher.EncryptReadsTable | Untitled-1.cpp:55-66 | encryption reads only S[0..25]: the result under S equals the result under S[..26] |
| Cipher.DecryptReadsTable | Untitled-1.cpp:69-80 | decryption reads only S[0..25]: the result under S equals the result under S[..26] |
| Cipher.DecHalfInvertsEncHalf | Untitled-1.cpp:60-61 | the decryption half-step of lines 74/75 undoes the encryption half-step of lines 61/60 for every x, y and key word |
| Cipher.DecRoundInvertsEncRound | Untitled-1.cpp:59-62 | decryption round i (B restored first, then A) gives back the block encryption round i started from |
| Cipher.DecRoundsInvertEncRounds | Untitled-1.cpp:73-76 | undoing rounds n down to lo + 1 of an n-round encryption leaves the block after the first lo rounds |
| Cipher.UnwhitenInvertsWhiten | Untitled-1.cpp:56-57 | subtracting S[0], S[1] (lines 78-79) undoes adding them (lines 56-57) |
| Cipher.DecryptInvertsEncrypt | Untitled-1.cpp:55-80 | decrypting an encrypted block under the same table gives back the block, for every table |
| Cipher.Encrypt | Untitled-1.cpp:55-66 | C[0], C[1] hold the encryption of M[0], M[1] under S; the input and the table are read-only, and no other word of C changes |
| Cipher.Decrypt | Untitled-1.cpp:69-80 | M[0], M[1] hold the decryption of C[0], C[1] under S; the input and the table are read-only, and no other word of M changes |
| KeyExpansion.SeedClosedForm | Untitled-1.cpp:31-35 | the recurrence S[0] = P32, S[i] = S[i-1] + Q32 gives S[w] = P32 + w * Q32 modulo 2^32 for every w < 26 |
| KeyExpansion.SeedTableAt | Untitled-1.cpp:31-35 | entry k of the seeded table is P32 + k * Q32 modulo 2^32, for every k < 26 |
| KeyExpansion.Seed | Untitled-1.cpp:31-35 | the seeding loop leaves the seeded table in S[0..25] and no other entry of S changes |
| KeyExpansion.PackFromWord | Untitled-1.cpp:38-41 | after the packing loop has handled bytes 15 down to i, word w holds exactly the bytes of w already pushed, last-pushed lowest |
| KeyExpansion.KeyWordsLittleEndian | Untitled-1.cpp:37-41 | L[j] = K[4j] + K[4j+1] 2^8 + K[4j+2] 2^16 + K[4j+3] 2^24: the key bytes are packed little-endian |
| KeyExpansion.PackKey | Untitled-1.cpp:37-41 | the zero-initialised array L, filled by the loop from byte 15 down to byte 0, holds the packed key words |
| KeyExpansion.MixStep | Untitled-1.cpp:47-50 | a mixing step rewrites S[s mod 26] and L[s mod 4] and nothing else, and leaves A and B equal to the entries just written |
| KeyExpansion.MixA | Untitled-1.cpp:47 | the new S[i] and A: ROL(S[i] + A + B, 3) |
| KeyExpansion.MixB | Untitled-1.cpp:48 | the new L[j] and B: ROL(L[j] + A + B, (A + B) mod 32), with A the value just computed |
| KeyExpansion.EveryEntryMixedThrice | Untitled-1.cpp:45-51 | the loop runs 3 max(t, c) = 78 steps and rewrites every entry of S exactly three times |
| KeyExpansion.EveryKeyWordMixed | Untitled-1.cpp:45-51 | the same loop rewrites L[0] and L[1] twenty times each, and L[2] and L[3] nineteen times each |
| KeyExpansion.WritesCount | Untitled-1.cpp:49-50 | among steps 0..n-1, index k of a table of m words (m = 26 or 4) is used n / m times, plus one if k < n mod m |
| KeyExpansion.UnwrittenKept | Untitled-1.cpp:45-51 | an entry of S that none of the steps 0..n-1 rewrites (Writes = 0) keeps its starting value, which ties the step count of Writes to the table contents |
| KeyExpansion.MixKeeps | Untitled-1.cpp:47-49 | steps that all use entries other than k leave S[k] unchanged |
| KeyExpansion.MixWritesAB | Untitled-1.cpp:47-48 | after any step, A is the entry of S and B the entry of L that the step wrote |
| KeyExpansion.FinalEntry | Untitled-1.cpp:45-51 | the final S[k] is the word A computed at step 2t + k, the last time the loop reached index k |
| KeyExpansion.MixOne | Untitled-1.cpp:47-48 | one step on the arrays: S[i] and A get ROL(S[i] + A + B, 3); then L[j] and B get ROL(L[j] + A + B, (A + B) mod 32), computed from the new A and the old B; no other entry changes |
| KeyExpansion.MixInto | Untitled-1.cpp:43-51 | the mixing loop, with i and j running round the tables, leaves the mixed table of 78 steps in S[0..25] |
| KeyExpansion.ExpandKey | Untitled-1.cpp:25-52 | the expanded table: the 78 mixing steps from the seeded table, the packed key words and A = B = 0; it has t = 26 words |
| KeyExpansion.KeySchedule | Untitled-1.cpp:25-52 | RC5_Key_Schedule leaves ExpandKey(K) in S[0..25] and writes no other entry of S |
| Task.HostWordBytes | Untitled-1.cpp:40 | the bytes the reinterpreting cast reads for key word j are at offsets 4j..4j+3, least significant first |
| Task.HostKeyWords | Untitled-1.cpp:37-41 | on a little-endian host, the words L the key schedule builds from the key's bytes are exactly the key words |
| Task.ParseHexWord | Untitled-1.cpp:99-100 | eight uppercase, zero-filled hexadecimal digits represent every word, and reading them back gives the word |
| Task.HexWord | Untitled-1.cpp:99-100 | a word as the stream prints it with uppercase, hex, setfill('0') and setw(8): exactly eight characters (ParseHexWord says which) |
| Task.HexWordDigits | Untitled-1.cpp:99-100 | every character of a printed word is an uppercase hexadecimal digit 0-9 or A-F |
| Task.JoinLength | Untitled-1.cpp:99-103 | n fields of eight characters separated by single spaces take 9n - 1 characters |
| Task.JoinChar | Untitled-1.cpp:99-103 | character q of the joined fields is a space when q mod 9 = 8 and otherwise character q mod 9 of field q / 9 |
| Task.SplitJoin | Untitled-1.cpp:99-103 | cutting the joined text into nine-character pieces gives back the fields |
| Task.UnrenderRender | Untitled-1.cpp:99-103 | the printed text determines the blocks: reading it back gives them |
| Task.RenderLength | Untitled-1.cpp:99-103 | k blocks print as 18k - 1 characters, and no blocks as the empty text |
| Task.RenderShape | Untitled-1.cpp:99-103 | every character of the text is a space exactly at the positions 9m + 8 and an uppercase hexadecimal digit everywhere else |
| Task.RenderSnoc | Untitled-1.cpp:99-103 | one more block appends a space (unless it is the first) and its two fields separated by one space |
| Task.DecryptAllInvertsEncryptAll | Untitled-1.cpp:93-97 | decrypting every encrypted block under the same table gives back the blocks |
| Task.TransformPair | Untitled-1.cpp:90-98 | the pair {source[i], source[i+1]} through RC5_Encrypt or RC5_Decrypt, as the mode selects, into a zeroed block |
| Task.PrintBlock | Untitled-1.cpp:99-103 | printing one block extends the text of the earlier blocks to the text of all of them, with the trailing space exactly when i + 2 < sourceSize |
| Task.TransformAndPrint | Untitled-1.cpp:89-104 | the loop prints the transformation of the first ceil(sourceSize / 2) pairs in order |
| Task.Task1Text | Untitled-1.cpp:83-107 | the text Task1 returns: the key expanded from the key words' bytes, then the first ceil(sourceSize / 2) pairs transformed and rendered |
| Task.Task1Length | Untitled-1.cpp:89-106 | the output has 18k - 1 characters for k = ceil(sourceSize / 2) pairs, and is empty exactly when sourceSize = 0 |
| Task.Task1RoundTrip | Untitled-1.cpp:83-107 | reading back the text of an encryption and decrypting it under the same key gives back the source pairs |
| Task.Task1 | Untitled-1.cpp:83-107 | Task1 expands the key once into a local table and returns the text of all the transformed pairs |

## Left out

- Cipher: the reverse inverse (encrypting a decrypted block gives it back) is not proved. It needs EncHalf after DecHalf, whose bit-vector proof is far costlier than the forward direction.
- Words.Rol: the shift formula is not proved equal to a rotation operator. Only the inverse laws and the zero case are stated.
- Words.Rol: C++ leaves the shift by WORD_SIZE undefined, and the formula takes it whenever a rotation amount is 0. The model gives that shift Dafny's meaning (the result 0), so rotation by 0 is the identity, as the code intends.
- Task.HostBytes: `reinterpret_cast<const unsigned char*>(K)` reads the key's bytes in host order. Only a little-endian host is modelled. A big-endian host would reverse the bytes within each word.
- KeyExpansion.KeySchedule: the caller's key is modelled as its 16 bytes (a `seq<bv8>`), not as the four words it arrives as. `Task1` passes `HostBytes(key)`.
- The read-only `const unsigned int*` inputs (key, source, M, C) are sequence values. Aliasing between an input and an output buffer is therefore not modelled.
- The `stringstream` and its manipulators (`uppercase`, `hex`, `setfill`, `setw`) are modelled as appending the rendered text to a string. Stream state and failure are not modelled.
- Task.Task1: `sourceSize` is an unbounded `nat`. The C++ `unsigned int` counter `i += 2` would wrap if sourceSize were within 1 of 2^32; that is not modelled.
- Task.Task1: when sourceSize is odd, the C++ reads one word past the size. The model requires that word to exist (`2 * BlockCount(sourceSize) <= |source|`) rather than modelling an out-of-bounds read.
- Timing, side channels and the known-answer test vectors of RC5 are not part of this model. The proofs are over all keys and blocks, not particular values.
- How the ciphertext depends on the key (key sensitivity) is not stated.
