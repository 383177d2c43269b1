/** Disk blocks as bytes, and the little-endian 32-bit words that the log header and the
    indirect blocks keep in them. */
module Blocks {

  const BSIZE := 1024
  const WORDS := 256  // 32-bit words per block

  type Byte = x: int | 0 <= x < 256
  type Word = x: int | 0 <= x < 0x1_0000_0000
  type Block = s: seq<Byte> | |s| == BSIZE witness seq(BSIZE, _ => 0)

  const ZeroBlock: Block := seq(BSIZE, _ => 0)

  /** The word at word-index i, low byte first. */
  function WordAt(b: Block, i: nat): Word
    requires i < WORDS
  {
    var b0: int, b1: int, b2: int, b3: int := b[4 * i], b[4 * i + 1], b[4 * i + 2], b[4 * i + 3];
    b0 + 0x100 * b1 + 0x1_0000 * b2 + 0x100_0000 * b3
  }

  /** b with the word at word-index i replaced by w. */
  function WithWord(b: Block, i: nat, w: Word): Block
    requires i < WORDS
  {
    b[4 * i := w % 0x100][4 * i + 1 := w / 0x100 % 0x100]
     [4 * i + 2 := w / 0x1_0000 % 0x100][4 * i + 3 := w / 0x100_0000]
  }

  /** Storing a word and loading any word: the stored one at i, the old one elsewhere. */
  lemma WordAfterStore(b: Block, i: nat, w: Word, j: nat)
    requires i < WORDS && j < WORDS
    ensures WordAt(WithWord(b, i, w), j) == if i == j then w else WordAt(b, j)
  {
    var low, mid, high, top := w % 0x100, w / 0x100 % 0x100, w / 0x1_0000 % 0x100, w / 0x100_0000;
    assert w / 0x1_0000 == w / 0x100 / 0x100;
    assert w / 0x100_0000 == w / 0x1_0000 / 0x100;
    assert w == low + 0x100 * mid + 0x1_0000 * high + 0x100_0000 * top;
  }

  lemma ZeroWord(i: nat)
    requires i < WORDS
    ensures WordAt(ZeroBlock, i) == 0
  {
  }
}
