/**
 * Task1: expands the key once, then encrypts or decrypts the source words
 * pair by pair and renders every resulting word as eight uppercase
 * hexadecimal digits, all fields separated by single spaces.
 *
 * The output stream is modelled as the string it accumulates.
 */
module Task {
  import opened Words
  import opened Cipher
  import opened KeyExpansion

  /* ---------------------------------------------------------------- */
  /* The key in memory                                                 */
  /* ---------------------------------------------------------------- */

  /** Byte n (0 = least significant) of the word w. */
  function ByteOf(w: bv32, n: bv32): bv8
    requires n < 4
  {
    ((w >> (8 * n)) & 0xFF) as bv8
  }

  /** The four bytes of a word in memory, least significant first. */
  function WordBytes(w: bv32): (bs: seq<bv8>)
    ensures |bs| == BytesPerWord
  {
    [ByteOf(w, 0), ByteOf(w, 1), ByteOf(w, 2), ByteOf(w, 3)]
  }

  /**
   * The 16 bytes the key schedule reads from the four key words, on a host
   * that stores the least significant byte of a word first.
   */
  function HostBytes(key: seq<bv32>): (K: seq<bv8>)
    ensures |K| == BytesPerWord * |key|
  {
    if |key| == 0 then [] else HostBytes(key[..|key| - 1]) + WordBytes(key[|key| - 1])
  }

  /** The little-endian reading of the four bytes of a word is the word. */
  lemma WordBytesBack(w: bv32)
    ensures LittleEndian(WordBytes(w), 0) == w
  {
  }

  /** The little-endian word at p depends only on the four bytes there. */
  lemma LittleEndianOfSlice(K: seq<bv8>, p: nat, bs: seq<bv8>)
    requires p + 4 <= |K| && K[p .. p + 4] == bs
    ensures LittleEndian(K, p) == LittleEndian(bs, 0)
  {
    assert K[p] == bs[0] && K[p + 1] == bs[1] && K[p + 2] == bs[2] && K[p + 3] == bs[3];
  }

  /** The bytes of key word j sit at the offsets 4j .. 4j + 3, least significant first. */
  lemma {:induction false} HostWordBytes(key: seq<bv32>, j: nat)
    requires j < |key|
    ensures HostBytes(key)[4 * j .. 4 * j + 4] == WordBytes(key[j])
  {
    var front := key[..|key| - 1];
    var A := HostBytes(front);
    assert HostBytes(key) == A + WordBytes(key[|key| - 1]);
    if j < |key| - 1 {
      HostWordBytes(front, j);
      assert HostBytes(key)[4 * j .. 4 * j + 4] == A[4 * j .. 4 * j + 4];
    } else {
      assert HostBytes(key)[4 * j .. 4 * j + 4] == HostBytes(key)[|A|..];
    }
  }

  /** Packing the bytes of key word j gives back key word j. */
  lemma HostKeyWord(key: seq<bv32>, j: nat)
    requires |key| == KeyWords && j < KeyWords
    ensures KeyWordsOf(HostBytes(key))[j] == key[j]
  {
    var K := HostBytes(key);
    HostWordBytes(key, j);
    KeyWordsLittleEndian(K, j);
    LittleEndianOfSlice(K, 4 * j, WordBytes(key[j]));
    WordBytesBack(key[j]);
  }

  /** On such a host the words L of the key schedule are exactly the key words. */
  lemma HostKeyWords(key: seq<bv32>)
    requires |key| == KeyWords
    ensures KeyWordsOf(HostBytes(key)) == key
  {
    forall j | 0 <= j < KeyWords
      ensures KeyWordsOf(HostBytes(key))[j] == key[j]
    {
      HostKeyWord(key, j);
    }
  }

  /* ---------------------------------------------------------------- */
  /* Hexadecimal fields                                                */
  /* ---------------------------------------------------------------- */

  /** The uppercase digit of value d. */
  function Digit(d: nat): char
    requires d < 16
  {
    "0123456789ABCDEF"[d]
  }

  predicate IsHexDigit(c: char)
  {
    '0' <= c <= '9' || 'A' <= c <= 'F'
  }

  /** The value of a hexadecimal digit; 0 for any other character. */
  function DigitValue(c: char): (d: nat)
    ensures d < 16
  {
    if '0' <= c <= '9' then c as nat - '0' as nat
    else if 'A' <= c <= 'F' then c as nat - 'A' as nat + 10
    else 0
  }

  lemma DigitRoundTrip(d: nat)
    requires d < 16
    ensures IsHexDigit(Digit(d)) && DigitValue(Digit(d)) == d
  {
  }

  function Pow16(n: nat): (p: nat)
    ensures p > 0
  {
    if n == 0 then 1 else 16 * Pow16(n - 1)
  }

  /** The n low hexadecimal digits of x, most significant first, padded with '0'. */
  function Hex(x: nat, n: nat): (s: string)
    ensures |s| == n
    ensures forall k :: 0 <= k < n ==> IsHexDigit(s[k])
  {
    if n == 0 then []
    else
      DigitRoundTrip(x % 16);
      Hex(x / 16, n - 1) + [Digit(x % 16)]
  }

  /** The value of a string of hexadecimal digits. */
  function Parse(s: string): nat
  {
    if s == [] then 0 else 16 * Parse(s[..|s| - 1]) + DigitValue(s[|s| - 1])
  }

  lemma HexLast(x: nat, n: nat)
    requires n > 0 && x < Pow16(n)
    ensures x / 16 < Pow16(n - 1)
    ensures Hex(x, n)[..n - 1] == Hex(x / 16, n - 1)
    ensures DigitValue(Hex(x, n)[n - 1]) == x % 16
  {
    DigitRoundTrip(x % 16);
  }

  /** n digits are enough for any x < 16^n, and reading them back gives x. */
  lemma {:induction false} ParseHex(x: nat, n: nat)
    requires x < Pow16(n)
    ensures Parse(Hex(x, n)) == x
  {
    if n > 0 {
      HexLast(x, n);
      ParseHex(x / 16, n - 1);
    }
  }

  /** A word as the stream prints it: uppercase, hexadecimal, width 8, fill '0'. */
  function HexWord(w: bv32): (s: string)
    ensures |s| == 8
  {
    Hex(w as nat, 8)
  }

  /** Every character of a printed word is an uppercase hexadecimal digit. */
  lemma HexWordDigits(w: bv32, k: nat)
    requires k < 8
    ensures IsHexDigit(HexWord(w)[k])
  {
    var s := Hex(w as nat, 8);
    assert IsHexDigit(s[k]);
  }

  lemma ParseHexWord(w: bv32)
    ensures Parse(HexWord(w)) == w as nat
  {
    assert Pow16(8) == 0x1_0000_0000;
    ParseHex(w as nat, 8);
  }

  /** A number read from a field, as a word (fields of eight digits always fit). */
  function ToWord(x: nat): bv32
  {
    if x < 0x1_0000_0000 then x as bv32 else 0
  }

  /** Every word printed as a field. */
  function HexFields(ws: seq<bv32>): (fs: seq<string>)
    ensures |fs| == |ws|
    ensures forall k :: 0 <= k < |ws| ==> fs[k] == HexWord(ws[k])
  {
    seq(|ws|, k requires 0 <= k < |ws| => HexWord(ws[k]))
  }

  /** Every field read back as a word. */
  function ParseFields(fs: seq<string>): (ws: seq<bv32>)
    ensures |ws| == |fs|
  {
    seq(|fs|, k requires 0 <= k < |fs| => ToWord(Parse(fs[k])))
  }

  /** Reading the printed fields gives back the words. */
  lemma ParseHexFields(ws: seq<bv32>)
    ensures ParseFields(HexFields(ws)) == ws
  {
    forall k | 0 <= k < |ws|
      ensures ParseFields(HexFields(ws))[k] == ws[k]
    {
      ParseHexWord(ws[k]);
    }
  }

  /** Printed fields are eight hexadecimal digits each. */
  lemma HexFieldsShape(ws: seq<bv32>)
    ensures IsFields(HexFields(ws))
    ensures forall k, r :: 0 <= k < |ws| && 0 <= r < 8 ==> IsHexDigit(HexFields(ws)[k][r])
  {
  }

  /* ---------------------------------------------------------------- */
  /* The output text                                                   */
  /* ---------------------------------------------------------------- */

  /** Fields of the width the stream pads every word to. */
  predicate IsFields(fs: seq<string>)
  {
    forall k :: 0 <= k < |fs| ==> |fs[k]| == 8
  }

  /** The fields separated by single spaces, with no space after the last. */
  function Join(fs: seq<string>): string
  {
    if |fs| == 0 then ""
    else if |fs| == 1 then fs[0]
    else Join(fs[..|fs| - 1]) + " " + fs[|fs| - 1]
  }

  /** n fields of width 8 take 9n - 1 characters. */
  lemma {:induction false} JoinLength(fs: seq<string>)
    requires IsFields(fs)
    ensures |Join(fs)| == if |fs| == 0 then 0 else 9 * |fs| - 1
  {
    if |fs| > 1 {
      JoinLength(fs[..|fs| - 1]);
    }
  }

  /** One more field: a space, if anything came before, and the field. */
  lemma JoinSnoc(fs: seq<string>, x: string)
    ensures Join(fs + [x]) == (if |fs| == 0 then "" else Join(fs) + " ") + x
  {
    assert (fs + [x])[..|fs|] == fs;
  }

  lemma ModNine(m: nat, r: nat)
    requires r < 9
    ensures (9 * m + r) % 9 == r && (9 * m + r) / 9 == m
  {
  }

  /**
   * Character q is a space when q % 9 == 8, and otherwise character
   * q % 9 of field q / 9.
   */
  lemma {:induction false} JoinChar(fs: seq<string>, q: nat)
    requires IsFields(fs) && q < |Join(fs)|
    ensures q / 9 < |fs|
    ensures q % 9 == 8 ==> Join(fs)[q] == ' '
    ensures q % 9 != 8 ==> Join(fs)[q] == fs[q / 9][q % 9]
    decreases |fs|
  {
    var n := |fs|;
    JoinLength(fs);
    if n == 1 {
      ModNine(0, q);
    } else {
      var front := Join(fs[..n - 1]);
      JoinLength(fs[..n - 1]);
      assert Join(fs) == front + " " + fs[n - 1];
      if q < |front| {
        JoinChar(fs[..n - 1], q);
        assert Join(fs)[q] == front[q];
      } else if q == |front| {
        ModNine(n - 2, 8);
      } else {
        ModNine(n - 1, q - |front| - 1);
        assert Join(fs)[q] == fs[n - 1][q - |front| - 1];
      }
    }
  }

  /** Field k occupies the characters 9k .. 9k + 7. */
  lemma {:induction false} JoinField(fs: seq<string>, k: nat)
    requires IsFields(fs) && k < |fs|
    ensures 9 * k + 8 <= |Join(fs)|
    ensures Join(fs)[9 * k .. 9 * k + 8] == fs[k]
    decreases |fs|
  {
    var n := |fs|;
    JoinLength(fs);
    if n > 1 {
      var front := Join(fs[..n - 1]);
      JoinLength(fs[..n - 1]);
      assert Join(fs) == front + " " + fs[n - 1];
      if k < n - 1 {
        JoinField(fs[..n - 1], k);
        assert Join(fs)[..|front|] == front;
      } else {
        assert Join(fs)[9 * k ..] == fs[k];
      }
    }
  }

  /** The fields of a text: the characters 9k .. 9k + 7 for each k. */
  function Split(s: string): (fs: seq<string>)
    ensures |fs| == (|s| + 1) / 9
  {
    seq((|s| + 1) / 9, k requires 0 <= k < (|s| + 1) / 9 => s[9 * k .. 9 * k + 8])
  }

  /** Splitting the joined fields gives back the fields. */
  lemma SplitJoin(fs: seq<string>)
    requires IsFields(fs)
    ensures Split(Join(fs)) == fs
  {
    JoinLength(fs);
    forall k | 0 <= k < |fs|
      ensures Split(Join(fs))[k] == fs[k]
    {
      JoinField(fs, k);
    }
  }

  /** The words of the blocks, in order: A then B of each. */
  function BlockWords(bs: seq<Block>): (ws: seq<bv32>)
    ensures |ws| == 2 * |bs|
  {
    if |bs| == 0 then [] else BlockWords(bs[..|bs| - 1]) + [bs[|bs| - 1].a, bs[|bs| - 1].b]
  }

  /** Consecutive words taken two at a time as blocks. */
  function Pairs(ws: seq<bv32>): (bs: seq<Block>)
    ensures |bs| == |ws| / 2
  {
    seq(|ws| / 2, p requires 0 <= p < |ws| / 2 => Block(ws[2 * p], ws[2 * p + 1]))
  }

  /** Block p supplies the words 2p and 2p + 1. */
  lemma {:induction false} BlockWordsAt(bs: seq<Block>, p: nat)
    requires p < |bs|
    ensures BlockWords(bs)[2 * p] == bs[p].a && BlockWords(bs)[2 * p + 1] == bs[p].b
    decreases |bs|
  {
    if p < |bs| - 1 {
      BlockWordsAt(bs[..|bs| - 1], p);
    }
  }

  lemma PairsBlockWords(bs: seq<Block>)
    ensures Pairs(BlockWords(bs)) == bs
  {
    forall p | 0 <= p < |bs|
      ensures Pairs(BlockWords(bs))[p] == bs[p]
    {
      BlockWordsAt(bs, p);
    }
  }

  /** The output text of the blocks: every word as a field, single spaces between fields. */
  function Render(bs: seq<Block>): string
  {
    Join(HexFields(BlockWords(bs)))
  }

  /** The blocks of an output text. */
  function Unrender(s: string): seq<Block>
  {
    Pairs(ParseFields(Split(s)))
  }

  /** The output text determines the blocks: reading it back gives them. */
  lemma UnrenderRender(bs: seq<Block>)
    ensures Unrender(Render(bs)) == bs
  {
    HexFieldsShape(BlockWords(bs));
    SplitJoin(HexFields(BlockWords(bs)));
    ParseHexFields(BlockWords(bs));
    PairsBlockWords(bs);
  }

  /** k blocks take 18k - 1 characters, and none take none. */
  lemma RenderLength(bs: seq<Block>)
    ensures |Render(bs)| == if |bs| == 0 then 0 else 18 * |bs| - 1
  {
    HexFieldsShape(BlockWords(bs));
    JoinLength(HexFields(BlockWords(bs)));
  }

  /** Every character is a space exactly at the positions 9m + 8, and an uppercase hexadecimal digit elsewhere. */
  lemma RenderShape(bs: seq<Block>, q: nat)
    requires q < |Render(bs)|
    ensures q % 9 == 8 ==> Render(bs)[q] == ' '
    ensures q % 9 != 8 ==> IsHexDigit(Render(bs)[q])
  {
    var ws := BlockWords(bs);
    HexFieldsShape(ws);
    JoinChar(HexFields(ws), q);
  }

  /** No blocks, no text. */
  lemma RenderNone(bs: seq<Block>)
    requires |bs| == 0
    ensures Render(bs) == ""
  {
    assert HexFields(BlockWords(bs)) == [];
  }

  /** Two more words give two more fields at the end. */
  lemma HexFieldsSnoc(ws: seq<bv32>, x: bv32, y: bv32)
    ensures HexFields(ws + [x, y]) == HexFields(ws) + [HexWord(x)] + [HexWord(y)]
  {
    var fs := HexFields(ws + [x, y]);
    var gs := HexFields(ws) + [HexWord(x)] + [HexWord(y)];
    assert |fs| == |gs|;
    forall k | 0 <= k < |fs|
      ensures fs[k] == gs[k]
    {
      if k < |ws| {
        assert (ws + [x, y])[k] == ws[k];
      }
    }
  }

  /** The words of one more block: its two fields follow a space, if anything came before. */
  lemma RenderSnoc(bs: seq<Block>, c: Block)
    ensures Render(bs + [c]) == (if |bs| == 0 then "" else Render(bs) + " ") + HexWord(c.a) + " " + HexWord(c.b)
  {
    assert (bs + [c])[..|bs|] == bs;
    var fs := HexFields(BlockWords(bs));
    HexFieldsSnoc(BlockWords(bs), c.a, c.b);
    JoinSnoc(fs, HexWord(c.a));
    JoinSnoc(fs + [HexWord(c.a)], HexWord(c.b));
  }

  /* ---------------------------------------------------------------- */
  /* The blocks                                                        */
  /* ---------------------------------------------------------------- */

  /** The first p blocks of the source: the words 2q and 2q + 1 for each q < p. */
  function Blocks(source: seq<bv32>, p: nat): (bs: seq<Block>)
    requires 2 * p <= |source|
    ensures |bs| == p
  {
    if p == 0 then [] else Blocks(source, p - 1) + [Block(source[2 * p - 2], source[2 * p - 1])]
  }

  /** Lines 94-98: one block through RC5_Encrypt or RC5_Decrypt. */
  function Transform(m: Block, S: seq<bv32>, encrypt: bool): Block
    requires IsTable(S)
  {
    if encrypt then EncryptBlock(m, S) else DecryptBlock(m, S)
  }

  /** Every block transformed on its own, in order. */
  function TransformAll(bs: seq<Block>, S: seq<bv32>, encrypt: bool): (cs: seq<Block>)
    requires IsTable(S)
    ensures |cs| == |bs|
    ensures forall p :: 0 <= p < |bs| ==> cs[p] == Transform(bs[p], S, encrypt)
  {
    seq(|bs|, p requires 0 <= p < |bs| => Transform(bs[p], S, encrypt))
  }

  /** Decrypting the encrypted blocks under the same table gives back the blocks. */
  lemma DecryptAllInvertsEncryptAll(bs: seq<Block>, S: seq<bv32>)
    requires IsTable(S)
    ensures TransformAll(TransformAll(bs, S, true), S, false) == bs
  {
    forall p | 0 <= p < |bs|
      ensures TransformAll(TransformAll(bs, S, true), S, false)[p] == bs[p]
    {
      DecryptInvertsEncrypt(bs[p], S);
    }
  }

  /**
   * The number of iterations of the loop i = 0, 2, 4, ... while i < sourceSize:
   * sourceSize / 2 rounded up.  An odd sourceSize makes the last iteration
   * read the word source[sourceSize] as well.
   */
  function BlockCount(sourceSize: nat): (k: nat)
    ensures sourceSize <= 2 * k <= sourceSize + 1
  {
    (sourceSize + 1) / 2
  }

  /** While 2p < sourceSize, the pair of words 2p, 2p + 1 is one of the blocks Task1 reads. */
  lemma NextPair(p: nat, sourceSize: nat, n: nat)
    requires 2 * p < sourceSize && 2 * BlockCount(sourceSize) <= n
    ensures p + 1 <= BlockCount(sourceSize) && 2 * p + 2 <= n
  {
  }

  /** What Task1 returns. */
  function Task1Text(source: seq<bv32>, sourceSize: nat, key: seq<bv32>, encryptionMode: bool): string
    requires |key| == KeyWords && 2 * BlockCount(sourceSize) <= |source|
  {
    Render(TransformAll(Blocks(source, BlockCount(sourceSize)), ExpandKey(HostBytes(key)), encryptionMode))
  }

  /**
   * The shape of the output: one block of 17 characters per pair of
   * source words, 18k - 1 characters for k blocks, and nothing when
   * sourceSize is 0.
   */
  lemma Task1Length(source: seq<bv32>, sourceSize: nat, key: seq<bv32>, encryptionMode: bool)
    requires |key| == KeyWords && 2 * BlockCount(sourceSize) <= |source|
    ensures var k := BlockCount(sourceSize);
      |Task1Text(source, sourceSize, key, encryptionMode)| == if k == 0 then 0 else 18 * k - 1
    ensures sourceSize == 0 <==> Task1Text(source, sourceSize, key, encryptionMode) == ""
  {
    RenderLength(TransformAll(Blocks(source, BlockCount(sourceSize)), ExpandKey(HostBytes(key)), encryptionMode));
  }

  /** Decrypting the blocks read back from an encryption's output gives the source words back. */
  lemma Task1RoundTrip(source: seq<bv32>, sourceSize: nat, key: seq<bv32>)
    requires |key| == KeyWords && 2 * BlockCount(sourceSize) <= |source|
    ensures var S := ExpandKey(HostBytes(key));
      TransformAll(Unrender(Task1Text(source, sourceSize, key, true)), S, false)
        == Blocks(source, BlockCount(sourceSize))
  {
    var S := ExpandKey(HostBytes(key));
    var bs := Blocks(source, BlockCount(sourceSize));
    UnrenderRender(TransformAll(bs, S, true));
    DecryptAllInvertsEncryptAll(bs, S);
  }

  /* ---------------------------------------------------------------- */
  /* The routine                                                       */
  /* ---------------------------------------------------------------- */

  /** Lines 90-98: the pair M through RC5_Encrypt or RC5_Decrypt into a zeroed block C. */
  method TransformPair(M: seq<bv32>, S: seq<bv32>, encryptionMode: bool) returns (c: Block)
    requires |M| == 2 && IsTable(S)
    ensures c == Transform(Block(M[0], M[1]), S, encryptionMode)
  {
    var C := new bv32[2](_ => 0);
    if encryptionMode {
      Encrypt(M, C, S);
    } else {
      Decrypt(M, C, S);
    }
    c := Block(C[0], C[1]);
  }

  /** One more pair of source words gives one more transformed block at the end. */
  lemma TransformNext(source: seq<bv32>, p: nat, S: seq<bv32>, encrypt: bool, x: bv32, y: bv32, c: Block)
    requires 2 * p + 2 <= |source| && IsTable(S)
    requires x == source[2 * p] && y == source[2 * p + 1]
    requires c == Transform(Block(x, y), S, encrypt)
    ensures TransformAll(Blocks(source, p + 1), S, encrypt) == TransformAll(Blocks(source, p), S, encrypt) + [c]
  {
  }

  /** The text printed for the blocks outs, with the separating space if more blocks follow. */
  function Printed(outs: seq<Block>, more: bool): string
  {
    Render(outs) + (if more && |outs| > 0 then " " else "")
  }

  /**
   * Lines 99-103: the two words of c as eight-digit fields separated by a
   * space, and a space after them if another block follows.
   */
  method PrintBlock(output: string, ghost outs: seq<Block>, c: Block, more: bool) returns (output': string)
    requires output == Printed(outs, true)
    ensures output' == Printed(outs + [c], more)
  {
    RenderSnoc(outs, c);
    if |outs| == 0 {
      RenderNone(outs);
    }
    output' := output + HexWord(c.a) + " " + HexWord(c.b);
    if more {
      output' := output' + " ";
    }
  }

  /**
   * Lines 89-104: every pair of source words below sourceSize through the
   * cipher under the table, each result printed as it is produced.
   */
  method TransformAndPrint(source: seq<bv32>, sourceSize: nat, table: seq<bv32>, encryptionMode: bool)
    returns (output: string)
    requires IsTable(table) && 2 * BlockCount(sourceSize) <= |source|
    ensures output == Render(TransformAll(Blocks(source, BlockCount(sourceSize)), table, encryptionMode))
  {
    ghost var outs: seq<Block> := [];
    ghost var p := 0;
    output := "";
    var i := 0;
    RenderNone(outs);
    while i < sourceSize
      invariant i == 2 * p && p <= BlockCount(sourceSize)
      invariant outs == TransformAll(Blocks(source, p), table, encryptionMode)
      invariant output == Printed(outs, i < sourceSize)
    {
      NextPair(p, sourceSize, |source|);
      var x, y := source[i], source[i + 1];
      var c := TransformPair([x, y], table, encryptionMode);
      TransformNext(source, p, table, encryptionMode, x, y, c);
      output := PrintBlock(output, outs, c, i + 2 < sourceSize);
      outs := outs + [c];
      i := i + 2;
      p := p + 1;
    }
    assert p == BlockCount(sourceSize);
  }

  /**
   * Task1 (lines 83-107).  The table S and the blocks M and C are local
   * arrays, as in the source; source and key are read-only inputs.
   */
  method Task1(source: seq<bv32>, sourceSize: nat, key: seq<bv32>, encryptionMode: bool) returns (output: string)
    requires |key| == KeyWords && 2 * BlockCount(sourceSize) <= |source|
    ensures output == Task1Text(source, sourceSize, key, encryptionMode)
  {
    var S := new bv32[TableSize];
    KeySchedule(HostBytes(key), S);
    output := TransformAndPrint(source, sourceSize, S[..TableSize], encryptionMode);
  }
}
