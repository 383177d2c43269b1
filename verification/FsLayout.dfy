/** The on-disk structures of kernel/fs.h: bitmap bits, inodes and their block slots. */
module FsLayout {
  import opened Blocks

  const ROOTINO: nat := 1
  const T_DIR := 1
  const T_FILE := 2
  const T_DEVICE := 3
  const NDIRECT: nat := 12
  const NINDIRECT: nat := 256
  const MAXFILE: nat := NDIRECT + NINDIRECT
  const BPB: nat := 8 * BSIZE  // bitmap bits per block
  const IPB: nat := 16         // inodes per block

  /** The superblock, and the first data block (nmeta in mkfs). */
  datatype Super = Super(size: nat, ninodes: nat, inodestart: nat, bmapstart: nat, nmeta: nat) {
    /** boot, super, log, inode blocks, bitmap, then data. */
    predicate Valid() {
      && 2 <= inodestart
      && inodestart + ninodes / IPB < bmapstart
      && bmapstart + size / BPB < nmeta <= size < 0x1_0000_0000
    }

    function IBLOCK(i: nat): nat {
      i / IPB + inodestart
    }

    function BBLOCK(b: nat): nat {
      b / BPB + bmapstart
    }
  }

  /** Every inode has its own place of 64 bytes in a block between the log and the bitmap. */
  lemma InodePlaces(sb: Super, i: nat, j: nat)
    requires sb.Valid() && i < sb.ninodes && j < sb.ninodes
    ensures sb.inodestart <= sb.IBLOCK(i) < sb.bmapstart
    ensures 64 * (i % IPB) + 64 <= BSIZE
    ensures sb.IBLOCK(i) == sb.IBLOCK(j) && i % IPB == j % IPB ==> i == j
    ensures sb.IBLOCK(i) == sb.IBLOCK(j) <==> i - i % 16 == j - j % 16
  {
    assert i / IPB <= sb.ninodes / IPB;
    assert i - i % IPB == IPB * (i / IPB) && j - j % IPB == IPB * (j / IPB);
  }

  // ---- bits

  /** (x & (1 << k)) != 0 */
  predicate Bit(x: nat, k: nat) {
    if k == 0 then x % 2 == 1 else Bit(x / 2, k - 1)
  }

  /** With the bit on, x | (1 << k); with it off, x & ~(1 << k). */
  function PutBit(x: nat, k: nat, on: bool): nat {
    if k == 0 then x / 2 * 2 + (if on then 1 else 0) else PutBit(x / 2, k - 1, on) * 2 + x % 2
  }

  lemma {:induction false} BitAfterPut(x: nat, k: nat, on: bool, j: nat)
    ensures Bit(PutBit(x, k, on), j) <==> if j == k then on else Bit(x, j)
  {
    if k > 0 && j > 0 {
      BitAfterPut(x / 2, k - 1, on, j - 1);
    }
  }

  lemma {:induction false} PutBitBound(x: nat, k: nat, on: bool, n: nat)
    requires k < n && x < Pow2(n)
    ensures PutBit(x, k, on) < Pow2(n)
  {
    if k > 0 {
      PutBitBound(x / 2, k - 1, on, n - 1);
    }
  }

  function Pow2(n: nat): nat {
    if n == 0 then 1 else 2 * Pow2(n - 1)
  }

  function PutByteBit(x: Byte, k: nat, on: bool): Byte
    requires k < 8
  {
    PutBitBound(x, k, on, 8);
    assert Pow2(8) == 256;
    PutBit(x, k, on)
  }

  lemma BitOfZero(k: nat)
    ensures !Bit(0, k)
  {
  }

  // ---- the bitmap

  /** Is block b marked in use? */
  predicate InUse(sb: Super, disk: seq<Block>, b: nat)
    requires sb.Valid() && |disk| == sb.size && b < sb.size
  {
    Bit(disk[sb.BBLOCK(b)][b % BPB / 8], b % BPB % 8)
  }

  /** The disk with block b marked or unmarked. */
  function Mark(sb: Super, disk: seq<Block>, b: nat, on: bool): (d: seq<Block>)
    requires sb.Valid() && |disk| == sb.size && b < sb.size
    ensures |d| == |disk|
  {
    var bb := sb.BBLOCK(b);
    disk[bb := disk[bb][b % BPB / 8 := PutByteBit(disk[bb][b % BPB / 8], b % BPB % 8, on)]]
  }

  lemma BitmapRange(sb: Super, b: nat)
    requires sb.Valid() && b < sb.size
    ensures sb.bmapstart <= sb.BBLOCK(b) < sb.nmeta <= sb.size
  {
    assert b / BPB <= sb.size / BPB;
  }

  /** Marking a block changes that block's bit, no other bit, and nothing but the bitmap. */
  lemma MarkEffect(sb: Super, disk: seq<Block>, b: nat, on: bool)
    requires sb.Valid() && |disk| == sb.size && b < sb.size
    ensures forall c :: 0 <= c < sb.size ==>
          (InUse(sb, Mark(sb, disk, b, on), c) <==> if c == b then on else InUse(sb, disk, c))
    ensures sb.bmapstart <= sb.BBLOCK(b) < sb.nmeta
    ensures forall c :: 0 <= c < sb.size && c != sb.BBLOCK(b) ==> Mark(sb, disk, b, on)[c] == disk[c]
  {
    forall c | 0 <= c < sb.size
      ensures InUse(sb, Mark(sb, disk, b, on), c) <==> if c == b then on else InUse(sb, disk, c)
    {
      BitAfterPut(disk[sb.BBLOCK(b)][b % BPB / 8], b % BPB % 8, on, c % BPB % 8);
      SameBit(b, c);
    }
  }

  /** Two blocks have the same bitmap block, byte and bit only if they are the same block. */
  lemma SameBit(b: nat, c: nat)
    ensures b / BPB == c / BPB && b % BPB / 8 == c % BPB / 8 && b % BPB % 8 == c % BPB % 8 ==> b == c
  {
  }

  /** Writes outside the bitmap leave every block's mark alone. */
  lemma BitsKept(sb: Super, disk: seq<Block>, disk': seq<Block>)
    requires sb.Valid() && |disk| == |disk'| == sb.size
    requires forall c :: sb.bmapstart <= c < sb.nmeta ==> disk'[c] == disk[c]
    ensures forall c :: 0 <= c < sb.size ==> (InUse(sb, disk', c) <==> InUse(sb, disk, c))
  {
  }
}
