/** The inode case of kernel/file.c: reading and writing at a file's offset, with writes cut into
    chunks that each fit into one log operation. */
module File {
  import opened Blocks
  import opened Common
  import opened FsLayout
  import opened FsOwner
  import opened Fs
  import LogSpec

  /** The most bytes written in one operation. */
  const MAXCHUNK: nat := (LogSpec.MAXOPBLOCKS - 1 - 1 - 2) / 2 * BSIZE

  /** Wherever a chunk starts, it keeps within the blocks an operation reserves in the log. */
  lemma ChunkBudget(off: nat, n: nat)
    requires n <= MAXCHUNK
    ensures WriteBudget(off, n) <= LogSpec.MAXOPBLOCKS
  {
    if n != 0 {
      assert off == off / BSIZE * BSIZE + off % BSIZE;
      if off % BSIZE == 0 {
        assert (off + n - 1) / BSIZE <= off / BSIZE + 2;
      } else {
        assert (off + n - 1) / BSIZE <= off / BSIZE + 3;
      }
    }
  }

  /** How many of the next n bytes a file of that size has at an offset; offsets are 32 bits. */
  function Ahead(size: nat, off: nat, n: nat): nat {
    if off > size || off + n >= 0x1_0000_0000 then 0 else if off + n <= size then n else size - off
  }

  class OpenFile {
    const fs: FileSystem
    const ip: nat
    var off: nat   // a 32-bit unsigned field

    ghost predicate Valid()
      reads this, fs
    {
      fs.Settled() && ip < |fs.mem| && off < 0x1_0000_0000
    }

    constructor (fs: FileSystem, ip: nat)
      requires fs.Settled() && ip < |fs.mem|
      ensures Valid() && this.fs == fs && this.ip == ip && off == 0
    {
      this.fs, this.ip, off := fs, ip, 0;
    }

    /** fileread: the next n bytes of the file, or as many as there are; a failure exactly if the user's buffer
        does not take them. */
    method Read(n: nat, writable: nat) returns (r: Option<seq<Byte>>)
      requires Valid() && n < 0x8000_0000
      modifies this`off, fs
      ensures fs.disk == old(fs.disk) && fs.mem == old(fs.mem) && Valid()
      ensures r.None? <==> Ahead(fs.mem[ip].size, old(off), n) > writable
      ensures r == None ==> off == old(off)
      ensures r.Some? ==>
                && |r.value| == Ahead(fs.mem[ip].size, old(off), n) && off == old(off) + |r.value|
                && (r.value != [] ==> off <= fs.mem[ip].size && r.value == Content(fs.disk, fs.mem[ip])[old(off)..off])
    {
      r := fs.Readi(ip, off, n, writable);
      if r.Some? && |r.value| > 0 {
        assert fs.mem[ip].size <= MAXFILE * BSIZE;
        off := off + |r.value|;
      }
    }

    /** One round of filewrite, a log operation of its own: it logs every block it changes, and stays within the
        operation's reservation. */
    method WriteChunk(src: seq<Byte>, readable: nat) returns (r: int)
      requires Valid() && 0 < |src| <= MAXCHUNK
      modifies this`off, fs
      ensures Valid() && |fs.logged| <= LogSpec.MAXOPBLOCKS && Passed(old(fs.disk), fs.disk, {}, fs.logged)
      ensures r == -1 <==> old(off) > old(fs.mem)[ip].size || old(off) + |src| > MAXFILE * BSIZE
      ensures r == -1 ==> off == old(off) && fs.disk == old(fs.disk) && fs.mem == old(fs.mem)
      ensures r != -1 ==>
                && 0 <= r <= |src| && off == old(off) + r
                && Written(old(fs.disk), old(fs.mem), fs.disk, fs.mem, ip, old(off), src[..r])
      ensures r <= readable && (0 <= r < |src| ==> Unread(old(off), |src|, r, readable) || DiskFull(fs.sb, fs.disk))
    {
      hide DiskFull, FsValid, Written, WriteBudget, Passed;
      ghost var mem := fs.mem;
      fs.logged := {};
      r := fs.Writei(ip, off, src, readable);
      assert fs.logged - {} == fs.logged;
      ChunkBudget(off, |src|);
      if r > 0 {
        off := off + r;
      }
      assert r != -1 ==> fs.mem == fs.dinodes by {
        if r != -1 {
          SameInodes(mem, fs.dinodes, fs.mem, old(fs.disk), fs.disk, ip, old(off), src[..r]);
        }
      }
    }

    /** filewrite: all of src goes in at the offset, or a prefix of it and -1. With the disk not full and
        src readable, it fails exactly for a start beyond the end or an end beyond the largest file. */
    method Write(src: seq<Byte>, readable: nat) returns (ret: int, ghost done: nat)
      requires Valid() && |src| < 0x8000_0000
      modifies this`off, fs
      ensures Valid() && done <= |src| && off == old(off) + done
      ensures ret == if done == |src| then |src| else -1
      ensures old(off) <= old(fs.mem)[ip].size ==>
                Written(old(fs.disk), old(fs.mem), fs.disk, fs.mem, ip, old(off), src[..done])
      ensures old(off) > old(fs.mem)[ip].size ==> fs.disk == old(fs.disk) && fs.mem == old(fs.mem) && done == 0
      ensures done <= readable
      ensures old(off) <= old(fs.mem)[ip].size && done < |src| ==>
                || DiskFull(fs.sb, fs.disk) || readable < done + BSIZE
                || old(off) + done + (if |src| - done < MAXCHUNK then |src| - done else MAXCHUNK) > MAXFILE * BSIZE
      ensures ret == -1 && readable >= |src| && !DiskFull(fs.sb, fs.disk) ==>
                old(off) > old(fs.mem)[ip].size || old(off) + |src| > MAXFILE * BSIZE
      ensures src != [] && (old(off) > old(fs.mem)[ip].size || old(off) + |src| > MAXFILE * BSIZE) ==> ret == -1
    {
      hide DiskFull, FsValid, Written, Content, Unread;
      ghost var d0, m0, off0 := fs.disk, fs.mem, off;
      ghost var fits := off <= fs.mem[ip].size;
      if fits {
        WrittenNothing(fs.disk, fs.mem, ip, off);
      }
      var i := 0;
      done := 0;
      while i < |src|
        invariant Valid() && 0 <= i <= |src| && done == i && off == off0 + i
        invariant fits ==> Written(d0, m0, fs.disk, fs.mem, ip, off0, src[..i])
        invariant !fits ==> fs.disk == d0 && fs.mem == m0 && i == 0
        invariant i > 0 ==> off0 + i <= MAXFILE * BSIZE
        invariant i <= readable
      {
        var n1 := |src| - i;
        if n1 > MAXCHUNK {
          n1 := MAXCHUNK;
        }
        ghost var d1, m1 := fs.disk, fs.mem;
        if fits {
          WrittenReach(d0, m0, d1, m1, ip, off0, src[..i]);
        }
        var r := WriteChunk(src[i..i + n1], readable - i);
        if fits && r != -1 {
          WrittenTwice(d0, m0, d1, m1, fs.disk, fs.mem, ip, off0, src[..i], src[i..i + n1][..r]);
          assert src[..i] + src[i..i + n1][..r] == src[..i + r];
          done := i + r;
        }
        if r != n1 {
          if r != -1 && Unread(off0 + i, n1, r, readable - i) {
            UnreadSoon(off0 + i, n1, r, readable - i);
          }
          break;
        }
        i := i + r;
      }
      ret := if i == |src| then |src| else -1;
    }
  }

  lemma UnreadSoon(off: nat, n: nat, tot: nat, readable: nat)
    requires tot <= n && Unread(off, n, tot, readable)
    ensures readable < n && readable < tot + BSIZE
  {
  }

  /** A write leaves the inode table in memory and on disk the same. */
  lemma SameInodes(mem: seq<Inode>, dinodes: seq<Inode>, mem': seq<Inode>, d: seq<Block>, d': seq<Block>, i: nat,
                   off: nat, bytes: seq<Byte>)
    requires Written(d, mem, d', mem', i, off, bytes) && dinodes == mem[i := mem'[i]]
    ensures mem' == dinodes
  {
    hide Content, Splice;
  }
}
