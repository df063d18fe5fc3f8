/**
 Disk blocks of BSIZE bytes, the little-endian 32-bit words stored in them, and
 the compile-time limits of param.h and fs.h.
 */
module Blocks {

  const BSIZE: nat := 512
  const WORDS: nat := 128        // 32-bit words per block
  const MAXOPBLOCKS: nat := 10
  const LOGSIZE: nat := 30       // MAXOPBLOCKS * 3
  const NBUF: nat := 30          // MAXOPBLOCKS * 3

  type byte = b: int | 0 <= b < 256
  type word = w: int | 0 <= w < 0x1_0000_0000
  type Block = b: seq<byte> | |b| == BSIZE witness seq(BSIZE, _ => 0)

  /** The i-th 32-bit word of a block. */
  function Word(b: Block, i: nat): (w: word)
    requires i < WORDS
  {
    var b0: int, b1: int, b2: int, b3: int := b[4 * i], b[4 * i + 1], b[4 * i + 2], b[4 * i + 3];
    b0 + 0x100 * b1 + 0x1_0000 * b2 + 0x100_0000 * b3
  }

  /** The block with its i-th 32-bit word replaced. */
  function PutWord(b: Block, i: nat, w: word): (r: Block)
    requires i < WORDS
  {
    b[4 * i := w % 0x100]
     [4 * i + 1 := w / 0x100 % 0x100]
     [4 * i + 2 := w / 0x1_0000 % 0x100]
     [4 * i + 3 := w / 0x100_0000]
  }

  /** Storing one word is read back, and every other word and byte keeps its value. */
  lemma PutWordGet(b: Block, i: nat, w: word)
    requires i < WORDS
    ensures Word(PutWord(b, i, w), i) == w
    ensures forall j: nat :: j < WORDS && j != i ==> Word(PutWord(b, i, w), j) == Word(b, j)
    ensures forall k: nat :: k < BSIZE && k / 4 != i ==> PutWord(b, i, w)[k] == b[k]
  {
    var r := PutWord(b, i, w);
    assert w / 0x1_0000 == w / 0x100 / 0x100 && w / 0x100_0000 == w / 0x1_0000 / 0x100;
    assert r[4 * i] == w % 0x100 && r[4 * i + 1] == w / 0x100 % 0x100;
    assert r[4 * i + 2] == w / 0x1_0000 % 0x100 && r[4 * i + 3] == w / 0x100_0000;
  }
}
