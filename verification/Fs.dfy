/** kernel/fs.c above the log: the disk here is the newest contents of every block, and `logged`
    collects the blocks an operation has passed to log_write. */
module Fs {
  import opened Blocks
  import opened Common
  import opened FsLayout
  import opened FsOwner

  /** The block, if there is one. */
  function Some0(b: nat): set<int> {
    if b == 0 then {} else {b}
  }

  /** Every block is marked in use. */
  predicate DiskFull(sb: Super, disk: seq<Block>) {
    sb.Valid() && |disk| == sb.size && forall c :: 0 <= c < sb.size ==> InUse(sb, disk, c)
  }

  /** The discipline of log_write: every block that was changed has been passed to it. */
  ghost predicate Passed(was: seq<Block>, now: seq<Block>, l: set<int>, l': set<int>) {
    |was| == |now| && l <= l' && forall c :: 0 <= c < |was| && now[c] != was[c] ==> c in l'
  }

  lemma PassedNone(d: seq<Block>, l: set<int>, l': set<int>)
    requires l <= l'
    ensures Passed(d, d, l, l')
  {
  }

  lemma PassedOne(d: seq<Block>, l: set<int>, b: nat, data: Block)
    requires b < |d|
    ensures Passed(d, d[b := data], l, l + {b})
  {
  }

  lemma PassedThen(d0: seq<Block>, d1: seq<Block>, d2: seq<Block>, l0: set<int>, l1: set<int>, l2: set<int>)
    requires Passed(d0, d1, l0, l1) && Passed(d1, d2, l1, l2)
    ensures Passed(d0, d2, l0, l2)
  {
  }

  class FileSystem {
    const sb: Super
    var disk: seq<Block>
    var mem: seq<Inode>       // the in-memory copy of each inode
    var dinodes: seq<Inode>   // the inode blocks
    ghost var owner: Owner
    ghost var logged: set<int>

    ghost predicate Valid()
      reads this
    {
      FsValid(sb, disk, mem, owner) && |dinodes| == |mem|
    }

    /** The state at the beginning and end of an operation: every change is on disk. */
    ghost predicate Settled()
      reads this
    {
      Valid() && mem == dinodes
    }

    /** A mounted file system, such as mkfs makes. */
    constructor (sb: Super, disk: seq<Block>, dinodes: seq<Inode>, ghost owner: Owner)
      requires FsValid(sb, disk, dinodes, owner)
      ensures Settled()
      ensures this.sb == sb && this.disk == disk && mem == dinodes && this.owner == owner && logged == {}
    {
      this.sb, this.disk, this.mem, this.dinodes := sb, disk, dinodes, dinodes;
      this.owner, logged := owner, {};
    }

    // ---- blocks

    /** The inner loop of balloc: the first free block that one bitmap block, the one of b, speaks for. */
    method FindInBlock(b: nat) returns (bi: nat)
      requires sb.Valid() && |disk| == sb.size && b < sb.size && b % BPB == 0
      ensures bi <= BPB
      ensures forall c :: b <= c < b + bi && c < sb.size ==> InUse(sb, disk, c)
      ensures bi < BPB && b + bi < sb.size ==> !InUse(sb, disk, b + bi)
    {
      hide InUse, Super.BBLOCK, Bit;
      BitmapRange(sb, b);
      var bp := disk[sb.BBLOCK(b)];
      bi := 0;
      while bi < BPB && b + bi < sb.size
        invariant bi <= BPB
        invariant forall c :: b <= c < b + bi && c < sb.size ==> InUse(sb, disk, c)
      {
        InUseBit(sb, disk, b, bi);
        if !Bit(bp[bi / 8], bi % 8) {
          return;
        }
        bi := bi + 1;
      }
    }

    /** The outer loop of balloc: the first block that is not in use. */
    method FindFree() returns (r: Option<nat>)
      requires sb.Valid() && |disk| == sb.size
      ensures r.None? ==> DiskFull(sb, disk)
      ensures r.Some? ==> r.value < sb.size && !InUse(sb, disk, r.value)
                          && forall c :: 0 <= c < r.value ==> InUse(sb, disk, c)
    {
      hide InUse, Super.Valid;
      var b := 0;
      while b < sb.size
        invariant 0 <= b && b % BPB == 0
        invariant forall c :: 0 <= c < b && c < sb.size ==> InUse(sb, disk, c)
      {
        var bi := FindInBlock(b);
        if bi < BPB && b + bi < sb.size {
          return Some(b + bi);
        }
        NextGroup(b);
        b := b + BPB;
      }
      return None;
    }

    /** balloc: a zeroed block that was free before, never a metadata block; 0 when the disk is full.
        `held` are the data blocks marked in use. */
    method Balloc(ghost held: set<int>) returns (b: Word)
      requires Marked(sb, disk, held)
      modifies this`disk, this`logged
      ensures Passed(old(disk), disk, old(logged), logged)
      ensures b == 0 ==> disk == old(disk) && logged == old(logged)
                         && DiskFull(sb, disk)
      ensures b != 0 ==> && sb.nmeta <= b < sb.size && b !in held
                         && Marked(sb, disk, held + {b})
                         && disk[b] == ZeroBlock
                         && logged == old(logged) + {sb.BBLOCK(b), b}
                         && sb.BBLOCK(b) < sb.nmeta
                         && forall c :: 0 <= c < sb.size && c != b && c != sb.BBLOCK(b) ==> disk[c] == old(disk)[c]
    {
      var free := FindFree();
      if free.None? {
        return 0;
      }
      b := free.value;
      MarkEffect(sb, disk, b, true);
      disk := Mark(sb, disk, b, true);
      ghost var marked := disk;
      disk := disk[b := ZeroBlock];
      BitsKept(sb, marked, disk);
      logged := logged + {sb.BBLOCK(b), b};
    }

    /** bfree: false is the "freeing free block" panic. */
    method Bfree(b: nat, ghost held: set<int>) returns (ok: bool)
      requires Marked(sb, disk, held) && sb.nmeta <= b < sb.size
      modifies this`disk, this`logged
      ensures Passed(old(disk), disk, old(logged), logged)
      ensures ok <==> b in held
      ensures ok ==> && Marked(sb, disk, held - {b})
                     && logged == old(logged) + {sb.BBLOCK(b)}
                     && forall c :: sb.nmeta <= c < sb.size ==> disk[c] == old(disk)[c]
      ensures !ok ==> disk == old(disk) && logged == old(logged)
    {
      if !InUse(sb, disk, b) {
        return false;
      }
      MarkEffect(sb, disk, b, false);
      disk := Mark(sb, disk, b, false);
      logged := logged + {sb.BBLOCK(b)};
      return true;
    }

    // ---- inode contents

    /** Allocate a block for an empty direct slot, or for the indirect block (s == IND). */
    method AllocPointer(i: nat, s: nat) returns (b: Word)
      requires Valid() && i < |mem| && (s < NDIRECT || s == IND) && Ref(disk, mem[i], s) == 0
      modifies this`disk, this`mem, this`owner, this`logged
      ensures Valid() && Grown(old(disk), old(mem), old(owner), disk, mem, owner, i)
      ensures Passed(old(disk), disk, old(logged), logged)
      ensures b == 0 ==> disk == old(disk) && mem == old(mem) && owner == old(owner) && logged == old(logged)
                         && DiskFull(sb, disk)
      ensures b != 0 ==> && OnlySlot(old(disk), old(mem), disk, mem, i, s, b)
                         && b < |disk| && disk[b] == ZeroBlock && b !in old(owner)
                         && logged == old(logged) + {sb.BBLOCK(b), b}
    {
      hide InUse, Marked, Mapped, DiskFull, Grown, Owned, Passed;
      OwnedData(sb, disk, mem, owner);
      GrownSelf(disk, mem, owner, i);
      b := Balloc(owner.Keys);
      if b != 0 {
        PointerSet(sb, old(disk), mem, owner, disk, i, s, b);
        var k := if s == IND then NDIRECT else s;
        mem := mem[i := mem[i].(addrs := mem[i].addrs[k := b])];
        owner := owner[b := Slot(i, s)];
        assert owner.Keys == old(owner).Keys + {b};
        StillValid(sb, old(disk), old(mem), old(owner), disk, mem, owner, i, s, b);
      }
    }

    /** Allocate a block for an empty slot behind the indirect block. */
    method AllocWord(i: nat, s: nat) returns (b: Word)
      requires Valid() && i < |mem| && NDIRECT <= s < IND && Ref(disk, mem[i], s) == 0 && Ref(disk, mem[i], IND) != 0
      modifies this`disk, this`owner, this`logged
      ensures Valid() && Grown(old(disk), old(mem), old(owner), disk, mem, owner, i)
      ensures Passed(old(disk), disk, old(logged), logged)
      ensures b == 0 ==> disk == old(disk) && owner == old(owner) && logged == old(logged)
                         && DiskFull(sb, disk)
      ensures b != 0 ==> && OnlySlot(old(disk), old(mem), disk, mem, i, s, b)
                         && b < |disk| && disk[b] == ZeroBlock && b !in old(owner)
                         && logged == old(logged) + {sb.BBLOCK(b), b, Ref(old(disk), mem[i], IND)}
    {
      hide InUse, FsValid, DiskFull, Grown, Ref, OnlySlot, WithWord, Passed;
      assert Marked(sb, disk, owner.Keys) && Ref(disk, mem[i], IND) == mem[i].addrs[NDIRECT] by {
        IndirectSlot(sb, disk, mem, owner, i);
      }
      hide Marked;
      GrownSelf(disk, mem, owner, i);
      b := Balloc(owner.Keys);
      if b != 0 {
        WordAllocated(sb, old(disk), mem, owner, disk, i, s, b);
        var ind := mem[i].addrs[NDIRECT];
        PassedOne(disk, logged, ind, WithWord(disk[ind], s - NDIRECT, b));
        ghost var d, l := disk, logged;
        disk := disk[ind := WithWord(disk[ind], s - NDIRECT, b)];
        logged := logged + {ind};
        PassedThen(old(disk), d, disk, old(logged), l, logged);
        owner := owner[b := Slot(i, s)];
      }
    }

    /** bmap: the block of file block bn, allocating it and the indirect block if need be; 0 when the
        disk is full. Mapped blocks are returned as they are, and no file's contents change. The
        blocks logged are the ones allocated, the indirect block, and the bitmap blocks `bits`. */
    method Bmap(i: nat, bn: nat) returns (addr: Word, ghost bits: set<int>)
      requires Valid() && i < |mem| && bn < MAXFILE
      modifies this`disk, this`mem, this`owner, this`logged
      ensures Valid() && Grown(old(disk), old(mem), old(owner), disk, mem, owner, i)
      ensures Passed(old(disk), disk, old(logged), logged)
      ensures old(Ref(disk, mem[i], bn)) != 0 ==>
                addr == old(Ref(disk, mem[i], bn)) && disk == old(disk) && mem == old(mem) && owner == old(owner)
                && logged == old(logged) && bits == {}
      ensures addr == 0 ==> Ref(disk, mem[i], bn) == 0 && DiskFull(sb, disk)
      ensures addr != 0 ==> Ref(disk, mem[i], bn) == addr < |disk|
                            && (old(Ref(disk, mem[i], bn)) == 0 ==> disk[addr] == ZeroBlock)
      ensures forall t :: 0 <= t < IND && t != bn ==> Ref(disk, mem[i], t) == Ref(old(disk), old(mem)[i], t)
      ensures logged <= old(logged) + Some0(Ref(disk, mem[i], bn)) + bits + Some0(Ref(disk, mem[i], IND))
      ensures |bits| <= 1 + (if old(Ref(disk, mem[i], IND)) == 0 && Ref(disk, mem[i], IND) != 0 then 1 else 0)
      ensures old(Ref(disk, mem[i], IND)) != 0 ==> Ref(disk, mem[i], IND) == old(Ref(disk, mem[i], IND))
    {
      hide Shape, Marked, InUse, DiskFull, Grown, WordAt, Passed;
      GrownSelf(disk, mem, owner, i);
      PassedNone(disk, logged, logged);
      RefInRange(sb, disk, mem, owner, i, bn);
      RefInRange(sb, disk, mem, owner, i, IND);
      bits := {};
      if bn < NDIRECT {
        addr := mem[i].addrs[bn];
        if addr == 0 {
          addr := AllocPointer(i, bn);
          if addr != 0 {
            bits := {sb.BBLOCK(addr)};
          }
        }
        return;
      }
      addr := mem[i].addrs[NDIRECT];
      if addr == 0 {
        addr := AllocPointer(i, IND);
        if addr == 0 {
          return;
        }
        bits := {sb.BBLOCK(addr)};
      }
      RefInRange(sb, disk, mem, owner, i, IND);
      ghost var d, m, o, l := disk, mem, owner, logged;
      addr := WordAt(disk[mem[i].addrs[NDIRECT]], bn - NDIRECT);
      if addr == 0 {
        addr := AllocWord(i, bn);
        if addr != 0 {
          bits := bits + {sb.BBLOCK(addr)};
        }
        GrownTwice(old(disk), old(mem), old(owner), d, m, o, disk, mem, owner, i);
        PassedThen(old(disk), d, disk, old(logged), l, logged);
      }
    }

    /** iupdate. */
    method Iupdate(i: nat)
      requires |dinodes| == |mem| && i < |mem|
      modifies this`dinodes, this`logged
      ensures dinodes == old(dinodes)[i := mem[i]] && logged == old(logged) + {sb.IBLOCK(i)}
    {
      dinodes := dinodes[i := mem[i]];
      logged := logged + {sb.IBLOCK(i)};
    }

    /** One round of writei's loop; 0 means stop. `readable` is how much of src the kernel can copy
        in, a whole piece at a time. */
    method WriteStep(i: nat, off: nat, src: seq<Byte>, tot: nat, readable: nat,
                     ghost d0: seq<Block>, ghost m0: seq<Inode>) returns (m: nat, ghost bits: set<int>)
      requires Valid() && Writing(d0, m0, disk, mem, i, off, src, tot)
      requires tot < |src| && off + |src| <= MAXFILE * BSIZE
      modifies this`disk, this`mem, this`owner, this`logged
      ensures Valid() && tot + m <= |src| && Writing(d0, m0, disk, mem, i, off, src, tot + m)
      ensures Passed(old(disk), disk, old(logged), logged)
      ensures m == 0 ==> Unread(off, |src|, tot, readable) || DiskFull(sb, disk)
      ensures m != 0 ==> tot + m <= readable
      ensures m != 0 ==> m <= BSIZE - (off + tot) % BSIZE && (tot + m == |src| || (off + tot + m) % BSIZE == 0)
      ensures var bn := (off + tot) / BSIZE;
              && logged <= old(logged) + Some0(Ref(disk, mem[i], bn)) + bits + Some0(Ref(disk, mem[i], IND))
              && (old(Ref(disk, mem[i], IND)) != 0 ==> Ref(disk, mem[i], IND) == old(Ref(disk, mem[i], IND)))
              && (old(Ref(disk, mem[i], bn)) != 0 ==> bits == {})
              && |bits| <= 1 + (if old(Ref(disk, mem[i], IND)) == 0 && Ref(disk, mem[i], IND) != 0 then 1 else 0)
    {
      hide DiskFull, InUse, Shape, Marked, Writing, Grown, Ref, Patch, Passed;
      ghost var d, mm, o := disk, mem, owner;
      var bn := (off + tot) / BSIZE;
      WritingInode(d0, m0, disk, mem, i, off, src, tot);
      var addr;
      addr, bits := Bmap(i, bn);
      WritingGrown(sb, d0, m0, d, mm, o, disk, mem, owner, i, off, src, tot);
      if addr == 0 {
        return 0, bits;
      }
      m := if |src| - tot < BSIZE - (off + tot) % BSIZE then |src| - tot else BSIZE - (off + tot) % BSIZE;
      if tot + m > readable {
        return 0, bits;
      }
      ghost var before, l := disk, logged;
      StorePiece(i, off, src, tot, m, addr, d0, m0);
      PassedThen(old(disk), before, disk, old(logged), l, logged);
    }

    /** The piece goes into its block, which is logged. */
    method StorePiece(i: nat, off: nat, src: seq<Byte>, tot: nat, m: nat, addr: nat,
                      ghost d0: seq<Block>, ghost m0: seq<Inode>)
      requires Valid() && Writing(d0, m0, disk, mem, i, off, src, tot) && tot + m <= |src|
      requires 0 < m <= BSIZE - (off + tot) % BSIZE && off + |src| <= MAXFILE * BSIZE && i < |mem|
      requires addr == Ref(disk, mem[i], (off + tot) / BSIZE) != 0
      modifies this`disk, this`logged
      ensures Valid() && Writing(d0, m0, disk, mem, i, off, src, tot + m)
      ensures Passed(old(disk), disk, old(logged), logged) && logged == old(logged) + {addr}
      ensures forall t :: 0 <= t <= IND ==> Ref(disk, mem[i], t) == old(Ref(disk, mem[i], t))
    {
      hide DiskFull, InUse, Shape, Marked, Writing, Grown, Ref, Patch, Passed;
      ghost var before := disk;
      WritingMore(sb, d0, m0, disk, mem, owner, i, off, src, tot, m);
      RefInRange(sb, disk, mem, owner, i, (off + tot) / BSIZE);
      PassedOne(disk, logged, addr, Patch(disk[addr], (off + tot) % BSIZE, src[tot..tot + m]));
      disk := disk[addr := Patch(disk[addr], (off + tot) % BSIZE, src[tot..tot + m])];
      MarkedKept(sb, before, disk, owner.Keys);
      logged := logged + {addr};
    }

    /** Where writei's loop stands. */
    ghost predicate WriteInv(d0: seq<Block>, m0: seq<Inode>, l0: set<int>, i: nat, off: nat, src: seq<Byte>,
                             tot: nat, more: bool, data: set<int>, bits: set<int>, rounds: nat)
      reads this
    {
      && Valid() && i < |mem| == |m0|
      && Writing(d0, m0, disk, mem, i, off, src, tot) && Passed(d0, disk, l0, logged)
      && Pace(off, |src|, tot, more, rounds)
      && LogRounds(l0, logged, Ref(d0, m0[i], IND), Ref(disk, mem[i], IND), off, data, bits, rounds)
    }

    method WriteRound(i: nat, off: nat, src: seq<Byte>, tot: nat, readable: nat, ghost d0: seq<Block>,
                      ghost m0: seq<Inode>,
                      ghost l0: set<int>, ghost data: set<int>, ghost bits: set<int>, ghost rounds: nat)
      returns (m: nat, ghost data': set<int>, ghost bits': set<int>)
      requires WriteInv(d0, m0, l0, i, off, src, tot, true, data, bits, rounds)
      requires tot < |src| && off + |src| <= MAXFILE * BSIZE
      modifies this`disk, this`mem, this`owner, this`logged
      ensures tot + m <= |src| && WriteInv(d0, m0, l0, i, off, src, tot + m, m != 0, data', bits', rounds + 1)
      ensures m == 0 ==> Unread(off, |src|, tot, readable) || DiskFull(sb, disk)
      ensures m != 0 ==> tot + m <= readable
    {
      hide DiskFull, Unread, InUse, Shape, Marked, Writing, LogRounds, Pace, Ref, Passed;
      ghost var d1 := disk;
      FirstMapped(sb, d0, m0, disk, mem, owner, i, off, src, tot);
      ghost var bn, logged1, ind := (off + tot) / BSIZE, logged, Ref(disk, mem[i], IND);
      PaceFirst(off, |src|, tot, rounds);
      ghost var newBits;
      m, newBits := WriteStep(i, off, src, tot, readable, d0, m0);
      WritingInode(d0, m0, disk, mem, i, off, src, tot + m);
      MoreRounds(l0, logged1, logged, Ref(d0, m0[i], IND), ind, Ref(disk, mem[i], IND), off, data, bits, rounds,
                 Ref(disk, mem[i], bn), newBits);
      PaceNext(off, |src|, tot, rounds, m);
      PassedThen(d0, d1, disk, l0, logged1, logged);
      data', bits' := data + Some0(Ref(disk, mem[i], bn)), bits + newBits;
    }

    /** The loop of writei. */
    method WriteLoop(i: nat, off: nat, src: seq<Byte>, readable: nat) returns (tot: nat)
      requires Valid() && i < |mem| && off <= mem[i].size && off + |src| <= MAXFILE * BSIZE
      modifies this`disk, this`mem, this`owner, this`logged
      ensures Valid() && Writing(old(disk), old(mem), disk, mem, i, off, src, tot)
      ensures Passed(old(disk), disk, old(logged), logged)
      ensures tot <= readable && (tot < |src| ==> Unread(off, |src|, tot, readable) || DiskFull(sb, disk))
      ensures |logged - old(logged)| <= WriteBudget(off, |src|) - 1
    {
      hide DiskFull, Unread, InUse, Shape, Marked, Writing, LogRounds, Pace, Ref, WriteBudget, Touched, Passed;
      ghost var d0, m0, l0 := disk, mem, logged;
      PassedNone(disk, logged, logged);
      WritingStart(sb, disk, mem, owner, i, off, src);
      tot := 0;
      var more := true;
      ghost var data, bits, rounds := {}, {}, 0;
      NoRounds(l0, Ref(d0, m0[i], IND), off);
      PaceStart(off, |src|);
      while more && tot < |src|
        invariant tot <= |src| && tot <= readable
        invariant WriteInv(d0, m0, l0, i, off, src, tot, more, data, bits, rounds)
        invariant !more ==> Unread(off, |src|, tot, readable) || DiskFull(sb, disk)
        decreases more, |src| - tot
      {
        var m;
        m, data, bits := WriteRound(i, off, src, tot, readable, d0, m0, l0, data, bits, rounds);
        rounds := rounds + 1;
        more := m != 0;
        tot := tot + m;
      }
      PaceEnd(off, |src|, tot, more, rounds);
      AllRounds(l0, logged, Ref(d0, m0[i], IND), Ref(disk, mem[i], IND), off, |src|, data, bits, rounds);
    }

    /** writei. It fails outright exactly when the write would start beyond the end or reach past the
        largest file; otherwise the r bytes it returns are spliced in at off, no other file changes,
        and it stops short only for unreadable source or a full disk. */
    method Writei(i: nat, off: nat, src: seq<Byte>, readable: nat) returns (r: int)
      requires Valid() && i < |mem| && off < 0x1_0000_0000 && |src| < 0x1_0000_0000
      modifies this
      ensures Valid()
      ensures r == -1 <==> off > old(mem)[i].size || off + |src| > MAXFILE * BSIZE
      ensures r == -1 ==> disk == old(disk) && mem == old(mem) && dinodes == old(dinodes) && logged == old(logged)
      ensures r != -1 ==> 0 <= r <= |src| && Written(old(disk), old(mem), disk, mem, i, off, src[..r])
                          && dinodes == old(dinodes)[i := mem[i]]
      ensures r <= readable && (0 <= r < |src| ==> Unread(off, |src|, r, readable) || DiskFull(sb, disk))
      ensures Passed(old(disk), disk, old(logged), logged)
      ensures r != -1 ==> sb.IBLOCK(i) in logged
      ensures |logged - old(logged)| <= WriteBudget(off, |src|)
    {
      if off > mem[i].size || (off + |src|) % 0x1_0000_0000 < off {
        return -1;
      }
      if off + |src| > MAXFILE * BSIZE {
        return -1;
      }
      hide DiskFull, InUse, Shape, Marked, Writing, Written, WriteBudget, Passed;
      var tot := WriteLoop(i, off, src, readable);
      WritingDone(sb, old(disk), old(mem), disk, mem, owner, i, off, src, tot);
      if off + tot > mem[i].size {
        mem := mem[i := mem[i].(size := off + tot)];
      }
      ghost var l := logged;
      Iupdate(i);
      LoggedMore(old(logged), l, sb.IBLOCK(i));
      PassedNone(disk, l, logged);
      PassedThen(old(disk), disk, disk, old(logged), l, logged);
      return tot;
    }

    /** readi: the bytes of the file in the range, as far as the file goes; nothing is allocated, logged
        or changed. None is a failed copy to the user, of whom `writable` bytes can be written. */
    method Readi(i: nat, off: nat, n: nat, writable: nat) returns (r: Option<seq<Byte>>)
      requires Valid() && i < |mem| && off < 0x1_0000_0000 && n < 0x1_0000_0000
      modifies this`disk, this`mem, this`owner, this`logged
      ensures disk == old(disk) && mem == old(mem) && owner == old(owner) && logged == old(logged)
      ensures off > mem[i].size || off + n >= 0x1_0000_0000 ==> r == Some([])
      ensures off <= mem[i].size && off + n < 0x1_0000_0000 ==>
                var n := if off + n > mem[i].size then mem[i].size - off else n;
                r == if n <= writable then Some(Content(disk, mem[i])[off..off + n]) else None
    {
      if off > mem[i].size || (off + n) % 0x1_0000_0000 < off {
        return Some([]);
      }
      r := ReadLoop(i, off, if off + n > mem[i].size then mem[i].size - off else n, writable);
    }

    /** One round of readi's loop: the piece of the file from cur to the end of its block, or n bytes. */
    method ReadStep(i: nat, cur: nat, n: nat) returns (piece: seq<Byte>)
      requires Valid() && i < |mem| && cur + n <= mem[i].size && 0 < n
      modifies this`disk, this`mem, this`owner, this`logged
      ensures disk == old(disk) && mem == old(mem) && owner == old(owner) && logged == old(logged)
      ensures 0 < |piece| <= n && piece == Content(disk, mem[i])[cur..cur + |piece|]
    {
      hide DiskFull, InUse, Shape, Marked, Mapped, Content, Grown, Ref;
      SizeMapped(sb, disk, mem, owner, i, cur);
      var addr, _ := Bmap(i, cur / BSIZE);
      var at := cur % BSIZE;
      var m := if n < BSIZE - at then n else BSIZE - at;
      ContentPiece(sb, disk, mem, owner, i, cur, m);
      piece := disk[addr][at..at + m];
    }

    /** The loop of readi. */
    method ReadLoop(i: nat, off: nat, n: nat, writable: nat) returns (r: Option<seq<Byte>>)
      requires Valid() && i < |mem| && off + n <= mem[i].size
      modifies this`disk, this`mem, this`owner, this`logged
      ensures disk == old(disk) && mem == old(mem) && owner == old(owner) && logged == old(logged)
      ensures r == if n <= writable then Some(Content(disk, mem[i])[off..off + n]) else None
    {
      hide Shape, Marked, Content;
      ghost var content := Content(disk, mem[i]);
      var dst, tot := [], 0;
      while tot < n
        invariant 0 <= tot <= n && Valid()
        invariant disk == old(disk) && mem == old(mem) && owner == old(owner) && logged == old(logged)
        invariant tot <= writable && dst == content[off..off + tot]
      {
        var piece := ReadStep(i, off + tot, n - tot);
        if tot + |piece| > writable {
          return None;
        }
        assert content[off..off + tot + |piece|] == content[off..off + tot] + content[off + tot..off + tot + |piece|];
        dst := dst + piece;
        tot := tot + |piece|;
      }
      return Some(dst);
    }

    /** bfree on what slot k of inode i held when truncation began, if anything. */
    method FreeSlot(i: nat, k: nat, b: nat, ghost d0: seq<Block>, ghost m0: seq<Inode>, ghost o0: Owner)
      returns (ok: bool)
      requires FsValid(sb, d0, m0, o0) && i < |m0| && k <= IND && b == Ref(d0, m0[i], k)
      requires Marked(sb, disk, Remaining(o0, i, k)) && SameData(sb, d0, disk)
      modifies this`disk, this`logged
      ensures ok && Marked(sb, disk, Remaining(o0, i, k + 1)) && SameData(sb, d0, disk)
      ensures Passed(old(disk), disk, old(logged), logged)
    {
      hide InUse, Shape, Marked, Ref, Passed;
      PassedNone(disk, logged, logged);
      RemainNext(sb, d0, m0, o0, i, k);
      ok := true;
      if b != 0 {
        ok := Bfree(b, Remaining(o0, i, k));
      }
      assert b == 0 ==> Remaining(o0, i, k + 1) == Remaining(o0, i, k);
    }

    /** The two loops of itrunc; the "freeing free block" panic is never reached. */
    method FreeBlocks(i: nat) returns (ok: bool)
      requires Valid() && i < |mem|
      modifies this`disk, this`mem, this`logged
      ensures ok && Marked(sb, disk, Remaining(owner, i, IND + 1)) && SameData(sb, old(disk), disk)
      ensures Passed(old(disk), disk, old(logged), logged)
      ensures mem == old(mem)[i := old(mem)[i].(addrs := NoAddrs)]
    {
      hide InUse, Shape, Marked, Remaining, Passed;
      ghost var d0, m0, o0, l0 := disk, mem, owner, logged;
      RemainNone(owner, i);
      PassedNone(disk, logged, logged);
      RefInRange(sb, disk, mem, owner, i, IND);
      for k := 0 to NDIRECT
        invariant Marked(sb, disk, Remaining(o0, i, k)) && SameData(sb, d0, disk) && Passed(d0, disk, l0, logged)
        invariant |mem| == |m0| && mem == m0[i := m0[i].(addrs := mem[i].addrs)]
        invariant forall t :: 0 <= t <= NDIRECT ==> mem[i].addrs[t] == if t < k then 0 else m0[i].addrs[t]
      {
        ghost var d, l := disk, logged;
        ok := FreeSlot(i, k, mem[i].addrs[k], d0, m0, o0);
        PassedThen(d0, d, disk, l0, l, logged);
        mem := mem[i := mem[i].(addrs := mem[i].addrs[k := 0])];
      }
      var ind := mem[i].addrs[NDIRECT];
      ok := true;
      if ind != 0 {
        RefInRange(sb, d0, m0, o0, i, IND);
        var a := disk[ind];
        ghost var m1 := mem;
        for j := 0 to NINDIRECT
          invariant mem == m1
          invariant Marked(sb, disk, Remaining(o0, i, NDIRECT + j)) && SameData(sb, d0, disk)
          invariant disk[ind] == a && Passed(d0, disk, l0, logged)
        {
          ghost var d, l := disk, logged;
          ok := FreeSlot(i, NDIRECT + j, WordAt(a, j), d0, m0, o0);
          PassedThen(d0, d, disk, l0, l, logged);
        }
        ghost var d, l := disk, logged;
        ok := FreeSlot(i, IND, ind, d0, m0, o0);
        PassedThen(d0, d, disk, l0, l, logged);
        mem := mem[i := mem[i].(addrs := mem[i].addrs[NDIRECT := 0])];
      } else {
        NoIndirect(sb, d0, m0, o0, i);
      }
      assert mem[i].addrs == NoAddrs;
    }

    /** itrunc: the file becomes empty, all its blocks and no others are free again, and no other file
        changes. */
    method Itrunc(i: nat) returns (ok: bool)
      requires Valid() && i < |mem|
      modifies this
      ensures ok && Valid()
      ensures Passed(old(disk), disk, old(logged), logged)
      ensures sb.IBLOCK(i) in logged
      ensures mem == old(mem)[i := old(mem)[i].(addrs := NoAddrs, size := 0)]
      ensures owner == map b | b in old(owner) && old(owner)[b].inum != i :: old(owner)[b]
      ensures dinodes == old(dinodes)[i := mem[i]]
      ensures forall j :: 0 <= j < |mem| && j != i ==> Content(disk, mem[j]) == Content(old(disk), old(mem)[j])
    {
      hide InUse, Shape, Marked, Remaining, Passed;
      ok := FreeBlocks(i);
      ghost var l := logged;
      mem := mem[i := mem[i].(size := 0)];
      owner := map b | b in owner && owner[b].inum != i :: owner[b];
      Truncated(sb, old(disk), old(mem), old(owner), disk, i);
      assert mem == old(mem)[i := old(mem)[i].(addrs := NoAddrs, size := 0)];
      assert owner.Keys == Remaining(old(owner), i, IND + 1);
      Iupdate(i);
      PassedNone(disk, l, logged);
      PassedThen(old(disk), disk, disk, old(logged), l, logged);
    }

    /** ialloc: the first free inode, marked as allocated, or 0. */
    method Ialloc(typ: int) returns (inum: nat)
      requires Settled() && FreeEmpty(mem) && typ != 0
      modifies this`dinodes, this`mem, this`logged
      ensures Settled() && FreeEmpty(mem)
      ensures inum == 0 ==> mem == old(mem) && logged == old(logged)
                            && forall j :: 1 <= j < sb.ninodes ==> mem[j].typ != 0
      ensures inum != 0 ==> && inum < sb.ninodes && old(mem)[inum].typ == 0
                            && (forall j :: 1 <= j < inum ==> old(mem)[j].typ != 0)
                            && mem == old(mem)[inum := Inode(typ, 0, 0, NoAddrs)]
                            && logged == old(logged) + {sb.IBLOCK(inum)}
      ensures forall j :: 0 <= j < |mem| && j != inum ==> Content(disk, mem[j]) == Content(disk, old(mem)[j])
    {
      hide Shape, Marked, FreeEmpty, Content, Super.IBLOCK;
      ShapeParts(sb, disk, mem, owner);
      inum := 1;
      while inum < sb.ninodes
        invariant 1 <= inum
        invariant forall j :: 1 <= j < inum && j < sb.ninodes ==> mem[j].typ != 0
      {
        if dinodes[inum].typ == 0 {
          dinodes := dinodes[inum := Inode(typ, 0, 0, NoAddrs)];
          logged := logged + {sb.IBLOCK(inum)};
          Claimed(sb, disk, mem, owner, inum, typ);
          mem := mem[inum := dinodes[inum]];
          return;
        }
        inum := inum + 1;
      }
      inum := 0;
    }

    /** The end of iput's last reference to an unlinked inode: truncate, then free the inode. */
    method FreeInode(i: nat) returns (ok: bool)
      requires Settled() && FreeEmpty(mem) && i < |mem|
      modifies this
      ensures ok && Settled() && FreeEmpty(mem)
      ensures Passed(old(disk), disk, old(logged), logged)
      ensures sb.IBLOCK(i) in logged
      ensures mem == old(mem)[i := Inode(0, old(mem)[i].nlink, 0, NoAddrs)]
      ensures owner == map b | b in old(owner) && old(owner)[b].inum != i :: old(owner)[b]
      ensures forall j :: 0 <= j < |mem| && j != i ==> Content(disk, mem[j]) == Content(old(disk), old(mem)[j])
    {
      hide InUse;
      ok := Itrunc(i);
      ghost var l := logged;
      Retyped(sb, disk, mem, owner, i, mem[i].(typ := 0));
      mem := mem[i := mem[i].(typ := 0)];
      Iupdate(i);
      PassedNone(disk, l, logged);
      PassedThen(old(disk), disk, disk, old(logged), l, logged);
    }
  }

  lemma IndirectSlot(sb: Super, disk: seq<Block>, inodes: seq<Inode>, owner: Owner, i: nat)
    requires FsValid(sb, disk, inodes, owner) && i < |inodes|
    ensures Marked(sb, disk, owner.Keys) && Ref(disk, inodes[i], IND) == inodes[i].addrs[NDIRECT]
  {
  }

  /** From disk, a fresh block b was allocated (giving disk1) and then entered into the indirect block. */
  lemma WordAllocated(sb: Super, disk: seq<Block>, inodes: seq<Inode>, owner: Owner, disk1: seq<Block>, i: nat,
                      s: nat, b: Word)
    requires FsValid(sb, disk, inodes, owner) && i < |inodes| && NDIRECT <= s < IND
    requires Ref(disk, inodes[i], s) == 0 && Ref(disk, inodes[i], IND) != 0
    requires sb.nmeta <= b < sb.size && b !in owner && Marked(sb, disk1, owner.Keys + {b}) && disk1[b] == ZeroBlock
    requires |disk1| == |disk| && forall c :: sb.nmeta <= c < sb.size && c != b ==> disk1[c] == disk[c]
    ensures 0 < inodes[i].addrs[NDIRECT] < |disk1|
    ensures var ind := inodes[i].addrs[NDIRECT];
            var disk2 := disk1[ind := WithWord(disk1[ind], s - NDIRECT, b)];
            && FsValid(sb, disk2, inodes, owner[b := Slot(i, s)])
            && OnlySlot(disk, inodes, disk2, inodes, i, s, b)
            && Grown(disk, inodes, owner, disk2, inodes, owner[b := Slot(i, s)], i)
            && disk2[b] == ZeroBlock
  {
    hide InUse, Marked, Mapped, Grown, Owned, Ref, OnlySlot, WithWord, Shape, Super.Valid;
    var ind := inodes[i].addrs[NDIRECT];
    ShapeParts(sb, disk, inodes, owner);
    IndirectOwned(sb, disk, inodes, owner, i);
    OwnedData(sb, disk, inodes, owner);
    var disk2 := disk1[ind := WithWord(disk1[ind], s - NDIRECT, b)];
    MarkedKept(sb, disk1, disk2, owner.Keys + {b});
    WordSet(sb, disk, inodes, owner, disk2, i, s, b);
    assert owner[b := Slot(i, s)].Keys == owner.Keys + {b};
    StillValid(sb, disk, inodes, owner, disk2, inodes, owner[b := Slot(i, s)], i, s, b);
  }

  predicate Empty(ip: Inode) {
    ip.addrs == NoAddrs && ip.size == 0
  }

  /** A free inode has no blocks. */
  predicate FreeEmpty(inodes: seq<Inode>) {
    forall i :: 0 <= i < |inodes| ==> inodes[i].typ == 0 ==> Empty(inodes[i])
  }

  /** An empty inode may be replaced by another empty one. */
  lemma Retyped(sb: Super, d: seq<Block>, m: seq<Inode>, o: Owner, i: nat, ip: Inode)
    requires Shape(sb, d, m, o) && i < |m| && m[i].addrs == ip.addrs == NoAddrs && m[i].size == ip.size == 0
    ensures Shape(sb, d, m[i := ip], o)
  {
    var m' := m[i := ip];
    forall j, t | 0 <= j < |m| && 0 <= t <= IND
      ensures Ref(d, m'[j], t) == Ref(d, m[j], t)
    {
    }
    forall b | b in o
      ensures SlotHas(d, m', o[b], b)
    {
      assert SlotHas(d, m, o[b], b);
    }
  }

  /** A free inode may be put to use. */
  lemma Claimed(sb: Super, d: seq<Block>, m: seq<Inode>, o: Owner, i: nat, typ: int)
    requires Shape(sb, d, m, o) && FreeEmpty(m) && i < |m| && m[i].typ == 0 && typ != 0
    ensures Shape(sb, d, m[i := Inode(typ, 0, 0, NoAddrs)], o) && FreeEmpty(m[i := Inode(typ, 0, 0, NoAddrs)])
  {
    hide Shape;
    Retyped(sb, d, m, o, i, Inode(typ, 0, 0, NoAddrs));
  }

  /** Files depend on the data blocks only. */
  lemma SameDataRefs(sb: Super, d: seq<Block>, m: seq<Inode>, o: Owner, d': seq<Block>, j: nat, t: nat)
    requires Shape(sb, d, m, o) && SameData(sb, d, d') && j < |m| && t <= IND
    ensures Ref(d', m[j], t) == Ref(d, m[j], t)
  {
    RefInRange(sb, d, m, o, j, IND);
  }

  lemma SameDataByte(sb: Super, d: seq<Block>, m: seq<Inode>, o: Owner, d': seq<Block>, j: nat, k: nat)
    requires Shape(sb, d, m, o) && SameData(sb, d, d') && j < |m|
    requires k / BSIZE < MAXFILE && Ref(d, m[j], k / BSIZE) != 0
    ensures ByteAt(d', m[j], k) == ByteAt(d, m[j], k)
  {
    RefInRange(sb, d, m, o, j, k / BSIZE);
    SameDataRefs(sb, d, m, o, d', j, k / BSIZE);
  }

  lemma SameDataContent(sb: Super, d: seq<Block>, m: seq<Inode>, o: Owner, d': seq<Block>, j: nat)
    requires Shape(sb, d, m, o) && SameData(sb, d, d') && j < |m|
    ensures Content(d', m[j]) == Content(d, m[j])
  {
    forall k | 0 <= k < m[j].size
      ensures ByteAt(d', m[j], k) == ByteAt(d, m[j], k)
    {
      MappedAt(d, m[j], m[j].size, k);
      SameDataByte(sb, d, m, o, d', j, k);
    }
  }

  lemma SameDataShape(sb: Super, d: seq<Block>, m: seq<Inode>, o: Owner, d': seq<Block>)
    requires Shape(sb, d, m, o) && SameData(sb, d, d')
    ensures Shape(sb, d', m, o)
  {
    hide Ref;
    forall j, t | 0 <= j < |m| && 0 <= t <= IND
      ensures Ref(d', m[j], t) == Ref(d, m[j], t)
    {
      SameDataRefs(sb, d, m, o, d', j, t);
    }
    forall b | b in o
      ensures SlotHas(d', m, o[b], b)
    {
      assert SlotHas(d, m, o[b], b);
    }
  }

  /** The slots after an inode lost all its pointers and data blocks kept their contents. */
  lemma TruncatedRefs(sb: Super, d: seq<Block>, m: seq<Inode>, o: Owner, d': seq<Block>, i: nat, j: nat, t: nat)
    requires Shape(sb, d, m, o) && i < |m| && SameData(sb, d, d') && j < |m| && t <= IND
    ensures Ref(d', m[i := m[i].(addrs := NoAddrs, size := 0)][j], t) == if j == i then 0 else Ref(d, m[j], t)
  {
    SameDataRefs(sb, d, m, o, d', j, t);
  }

  /** With its blocks unmarked and its pointers gone, an inode is validly empty. */
  lemma Truncated(sb: Super, d: seq<Block>, m: seq<Inode>, o: Owner, d': seq<Block>, i: nat)
    requires Shape(sb, d, m, o) && i < |m|
    requires SameData(sb, d, d')
    ensures Shape(sb, d', m[i := m[i].(addrs := NoAddrs, size := 0)], map b | b in o && o[b].inum != i :: o[b])
    ensures forall j :: 0 <= j < |m| && j != i ==> Content(d', m[j]) == Content(d, m[j])
    ensures Remaining(o, i, IND + 1) == (map b | b in o && o[b].inum != i :: o[b]).Keys
  {
    hide Ref;
    var m', o' := m[i := m[i].(addrs := NoAddrs, size := 0)], map b | b in o && o[b].inum != i :: o[b];
    assert o'.Keys == Remaining(o, i, IND + 1) by {
      forall b | b in o
        ensures SlotHas(d, m, o[b], b)
      {
      }
    }
    forall j, t | 0 <= j < |m| && 0 <= t <= IND
      ensures Ref(d', m'[j], t) == if j == i then 0 else Ref(d, m[j], t)
    {
      TruncatedRefs(sb, d, m, o, d', i, j, t);
    }
    forall j | 0 <= j < |m| && j != i
      ensures Content(d', m[j]) == Content(d, m[j])
    {
      SameDataContent(sb, d, m, o, d', j);
    }
    forall b | b in o'
      ensures SlotHas(d', m', o'[b], b)
    {
      assert SlotHas(d, m, o[b], b);
    }
  }

  lemma ShapeParts(sb: Super, d: seq<Block>, m: seq<Inode>, o: Owner)
    requires Shape(sb, d, m, o)
    ensures sb.Valid() && |d| == sb.size && |m| == sb.ninodes && Owned(sb, d, m, o)
  {
  }

  /** The part of the source for the next block, after tot bytes, reaches beyond what can be copied in. */
  predicate Unread(off: nat, n: nat, tot: nat, readable: nat)
    requires tot <= n
  {
    readable < tot + if n - tot < BSIZE - (off + tot) % BSIZE then n - tot else BSIZE - (off + tot) % BSIZE
  }

  /** The owned blocks except those in the first k slots of inode i. */
  ghost function Remaining(o: Owner, i: nat, k: nat): set<int> {
    set b: int | b in o && !(o[b].inum == i && o[b].s < k)
  }

  ghost predicate SameData(sb: Super, d: seq<Block>, d': seq<Block>) {
    |d| == |d'| == sb.size && forall b :: sb.nmeta <= b < sb.size ==> d'[b] == d[b]
  }

  lemma RemainNone(o: Owner, i: nat)
    ensures Remaining(o, i, 0) == o.Keys
  {
    forall b | b in o
      ensures b in Remaining(o, i, 0)
    {
      assert o[b].s >= 0;
    }
  }

  lemma RemainStep(o: Owner, i: nat, k: nat, b: nat)
    requires b != 0 ==> b in o && o[b] == Slot(i, k)
    requires forall c :: c in o ==> c != 0 && (o[c] == Slot(i, k) ==> c == b)
    ensures Remaining(o, i, k + 1) == Remaining(o, i, k) - {b}
    ensures (b in Remaining(o, i, k) <==> b != 0) && 0 !in Remaining(o, i, k)
  {
    forall c | c in o
      ensures c in Remaining(o, i, k + 1) <==> c in Remaining(o, i, k) && c != b
    {
      assert o[c] == Slot(o[c].inum, o[c].s);
    }
  }

  /** Slot k's block is still marked when its turn comes, and it is the only one to go. */
  lemma RemainNext(sb: Super, d: seq<Block>, m: seq<Inode>, o: Owner, i: nat, k: nat)
    requires Shape(sb, d, m, o) && i < |m| && k <= IND
    ensures var b := Ref(d, m[i], k);
            && (b != 0 ==> b in Remaining(o, i, k) && sb.nmeta <= b < sb.size)
            && Remaining(o, i, k + 1) == Remaining(o, i, k) - {b}
            && 0 !in Remaining(o, i, k)
  {
    hide Mapped, Ref, Remaining;
    forall c | c in o
      ensures c != 0 && (o[c] == Slot(i, k) ==> c == Ref(d, m[i], k))
    {
      assert SlotHas(d, m, o[c], c);
    }
    RemainStep(o, i, k, Ref(d, m[i], k));
  }

  lemma NoIndirect(sb: Super, d: seq<Block>, m: seq<Inode>, o: Owner, i: nat)
    requires Shape(sb, d, m, o) && i < |m| && m[i].addrs[NDIRECT] == 0
    ensures Remaining(o, i, IND + 1) == Remaining(o, i, NDIRECT)
  {
    hide Mapped;
    assert 0 < sb.nmeta;
    forall b | b in o && o[b].inum == i
      ensures o[b].s < NDIRECT
    {
      assert SlotHas(d, m, o[b], b);
    }
  }

  lemma SizeMapped(sb: Super, d: seq<Block>, m: seq<Inode>, o: Owner, i: nat, k: nat)
    requires Shape(sb, d, m, o) && i < |m| && k < m[i].size
    ensures k / BSIZE < MAXFILE && Ref(d, m[i], k / BSIZE) != 0
  {
    MappedAt(d, m[i], m[i].size, k);
  }

  /** A piece of a file that lies in one block is a piece of that block. */
  lemma ContentPiece(sb: Super, d: seq<Block>, m: seq<Inode>, o: Owner, i: nat, cur: nat, n: nat)
    requires Shape(sb, d, m, o) && i < |m| && cur + n <= m[i].size && cur % BSIZE + n <= BSIZE && 0 < n
    ensures cur / BSIZE < MAXFILE && Ref(d, m[i], cur / BSIZE) < |d|
    ensures d[Ref(d, m[i], cur / BSIZE)][cur % BSIZE..cur % BSIZE + n] == Content(d, m[i])[cur..cur + n]
  {
    hide Shape;
    SizeMapped(sb, d, m, o, i, cur);
    RefInRange(sb, d, m, o, i, cur / BSIZE);
    var piece := d[Ref(d, m[i], cur / BSIZE)][cur % BSIZE..cur % BSIZE + n];
    forall x | 0 <= x < n
      ensures piece[x] == Content(d, m[i])[cur + x]
    {
      assert (cur + x) / BSIZE == cur / BSIZE && (cur + x) % BSIZE == cur % BSIZE + x;
    }
  }

  /** One more block logged. */
  lemma LoggedMore(l0: set<int>, l: set<int>, b: nat)
    ensures |l + {b} - l0| <= |l - l0| + 1
  {
    SubsetSize(l + {b} - l0, (l - l0) + {b});
    OneMore(l - l0, b);
  }

  /** File i has the bytes spliced in at off; type and links are the same, and so are all other files. */
  ghost predicate Written(d0: seq<Block>, m0: seq<Inode>, d: seq<Block>, m: seq<Inode>, i: nat, off: nat,
                          bytes: seq<Byte>) {
    && i < |m| == |m0| && off <= m0[i].size
    && Content(d, m[i]) == Splice(Content(d0, m0[i]), off, bytes)
    && m[i].typ == m0[i].typ && m[i].nlink == m0[i].nlink
    && forall j :: 0 <= j < |m| && j != i ==> m[j] == m0[j] && Content(d, m[j]) == Content(d0, m0[j])
  }

  /** Two writes in a row are one write of both. */
  lemma SpliceTwice(c: seq<Byte>, off: nat, a: seq<Byte>, b: seq<Byte>)
    requires off <= |c|
    ensures off + |a| <= |Splice(c, off, a)|
    ensures Splice(Splice(c, off, a), off + |a|, b) == Splice(c, off, a + b)
  {
  }

  lemma WrittenTwice(d0: seq<Block>, m0: seq<Inode>, d1: seq<Block>, m1: seq<Inode>, d: seq<Block>, m: seq<Inode>,
                     i: nat, off: nat, a: seq<Byte>, b: seq<Byte>)
    requires Written(d0, m0, d1, m1, i, off, a) && Written(d1, m1, d, m, i, off + |a|, b)
    ensures Written(d0, m0, d, m, i, off, a + b)
  {
    hide Content, Splice;
    SpliceTwice(Content(d0, m0[i]), off, a, b);
    forall j | 0 <= j < |m| && j != i
      ensures m[j] == m0[j] && Content(d, m[j]) == Content(d0, m0[j])
    {
      assert m[j] == m1[j];
    }
  }

  lemma WrittenNothing(d: seq<Block>, m: seq<Inode>, i: nat, off: nat)
    requires i < |m| && off <= m[i].size
    ensures Written(d, m, d, m, i, off, [])
  {
  }

  /** The file reaches at least as far as the write. */
  lemma WrittenReach(d0: seq<Block>, m0: seq<Inode>, d: seq<Block>, m: seq<Inode>, i: nat, off: nat, bytes: seq<Byte>)
    requires Written(d0, m0, d, m, i, off, bytes)
    ensures i < |m| && off + |bytes| <= m[i].size
  {
    assert |Content(d, m[i])| == m[i].size;
  }

  /** A size may be set as far as blocks are mapped. */
  lemma Resized(sb: Super, d: seq<Block>, m: seq<Inode>, o: Owner, i: nat, size: nat)
    requires Shape(sb, d, m, o) && i < |m| && Mapped(d, m[i], size)
    ensures Shape(sb, d, m[i := m[i].(size := size)], o)
  {
    var m' := m[i := m[i].(size := size)];
    forall j, t | 0 <= j < |m| && 0 <= t <= IND
      ensures Ref(d, m'[j], t) == Ref(d, m[j], t)
    {
    }
    forall b | b in o
      ensures SlotHas(d, m', o[b], b)
    {
      assert SlotHas(d, m, o[b], b);
    }
    forall bn | 0 <= bn < MAXFILE && bn * BSIZE < size
      ensures Ref(d, m'[i], bn) != 0
    {
      assert Ref(d, m'[i], bn) == Ref(d, m[i], bn);
    }
  }

  /** Setting the size completes a write. */
  lemma WritingDone(sb: Super, d0: seq<Block>, m0: seq<Inode>, d: seq<Block>, m: seq<Inode>, o: Owner,
                    i: nat, off: nat, src: seq<Byte>, tot: nat)
    requires Shape(sb, d, m, o) && Writing(d0, m0, d, m, i, off, src, tot) && i < |m0| && off <= m0[i].size
    ensures i < |m| && tot <= |src|
    ensures var m' := if off + tot > m[i].size then m[i := m[i].(size := off + tot)] else m;
            Shape(sb, d, m', o) && Written(d0, m0, d, m', i, off, src[..tot])
  {
    hide Shape, Mapped, ByteAt;
    Resized(sb, d, m, o, i, off + tot);
    var m' := if off + tot > m[i].size then m[i := m[i].(size := off + tot)] else m;
    forall k: nat
      ensures ByteAt(d, m'[i], k) == ByteAt(d, m[i], k)
    {
      SizeFreeByte(d, m[i], m'[i].size, k);
    }
    SpliceContent(d, m'[i], Content(d0, m0[i]), off, src[..tot]);
    forall j | 0 <= j < |m| && j != i
      ensures Content(d, m'[j]) == Content(d0, m0[j])
    {
      assert forall k :: 0 <= k < m[j].size ==> ByteAt(d, m[j], k) == ByteAt(d0, m0[j], k);
    }
  }

  lemma SizeFreeByte(d: seq<Block>, ip: Inode, size: nat, k: nat)
    ensures ByteAt(d, ip.(size := size), k) == ByteAt(d, ip, k)
  {
    if k / BSIZE < MAXFILE {
      assert Ref(d, ip.(size := size), k / BSIZE) == Ref(d, ip, k / BSIZE);
    }
  }

  lemma SpliceContent(d: seq<Block>, ip: Inode, c: seq<Byte>, off: nat, bytes: seq<Byte>)
    requires off <= |c| && ip.size == if off + |bytes| > |c| then off + |bytes| else |c|
    requires forall k: nat :: k < ip.size ==>
          ByteAt(d, ip, k) == if off <= k < off + |bytes| then bytes[k - off] else c[k]
    ensures Content(d, ip) == Splice(c, off, bytes)
  {
    hide ByteAt;
    var spliced := Splice(c, off, bytes);
    assert |spliced| == ip.size;
    forall k | 0 <= k < ip.size
      ensures Content(d, ip)[k] == spliced[k]
    {
    }
  }

  /** The blocks logged so far: one data block a round, bitmap blocks, and the indirect block. */
  ghost predicate LogRounds(l0: set<int>, logged: set<int>, ind0: nat, ind: nat, off: nat,
                            data: set<int>, bits: set<int>, rounds: nat) {
    && logged <= l0 + data + bits + Some0(ind)
    && |data| <= rounds
    && |bits| <= rounds - Saved(off, rounds) + (if ind0 == 0 && ind != 0 then 1 else 0)
    && (ind0 != 0 ==> ind == ind0)
    && (rounds == 0 ==> logged == l0)
  }

  lemma NoRounds(l0: set<int>, ind0: nat, off: nat)
    ensures LogRounds(l0, l0, ind0, ind0, off, {}, {}, 0)
  {
  }

  lemma MoreRounds(l0: set<int>, logged: set<int>, logged': set<int>, ind0: nat, ind: nat, ind': nat, off: nat,
                   data: set<int>, bits: set<int>, rounds: nat, addr: nat, newBits: set<int>)
    requires LogRounds(l0, logged, ind0, ind, off, data, bits, rounds)
    requires logged' <= logged + Some0(addr) + newBits + Some0(ind') && (ind != 0 ==> ind' == ind)
    requires |newBits| <= 1 + (if ind == 0 && ind' != 0 then 1 else 0)
    requires off % BSIZE != 0 && rounds == 0 ==> newBits == {}
    ensures LogRounds(l0, logged', ind0, ind', off, data + Some0(addr), bits + newBits, rounds + 1)
  {
  }

  lemma AllRounds(l0: set<int>, logged: set<int>, ind0: nat, ind: nat, off: nat, n: nat,
                  data: set<int>, bits: set<int>, rounds: nat)
    requires LogRounds(l0, logged, ind0, ind, off, data, bits, rounds) && rounds <= Touched(off, n)
    ensures |logged - l0| <= WriteBudget(off, n) - 1
  {
    var all := data + bits + Some0(ind);
    assert logged - l0 <= all;
    SubsetSize(logged - l0, all);
    assert |all| <= |data| + |bits| + 1;
  }

  /** Each round of writei but the last ends at a block boundary, so the rounds count blocks. */
  ghost predicate Pace(off: nat, n: nat, tot: nat, more: bool, rounds: nat) {
    && rounds <= Touched(off, n)
    && (more && tot == 0 ==> rounds == 0)
    && (more && 0 < tot < n ==> rounds > 0)
    && (more && tot < n ==> (off + tot) / BSIZE == off / BSIZE + rounds)
  }

  lemma PaceStart(off: nat, n: nat)
    ensures Pace(off, n, 0, true, 0)
  {
  }

  lemma PaceNext(off: nat, n: nat, tot: nat, rounds: nat, m: nat)
    requires Pace(off, n, tot, true, rounds) && tot < n && tot + m <= n
    requires m != 0 ==> m <= BSIZE - (off + tot) % BSIZE && (tot + m == n || (off + tot + m) % BSIZE == 0)
    ensures Pace(off, n, tot + m, m != 0, rounds + 1)
    ensures off % BSIZE != 0 && rounds == 0 ==> tot == 0
  {
    assert (off + tot) / BSIZE <= (off + n - 1) / BSIZE;
  }

  lemma PaceFirst(off: nat, n: nat, tot: nat, rounds: nat)
    requires Pace(off, n, tot, true, rounds) && tot < n
    ensures rounds == 0 ==> tot == 0
  {
  }

  lemma PaceEnd(off: nat, n: nat, tot: nat, more: bool, rounds: nat)
    requires Pace(off, n, tot, more, rounds)
    ensures rounds <= Touched(off, n)
  {
  }

  /** c with the bytes at offset off replaced, and extended if they reach past its end. */
  function Splice(c: seq<Byte>, off: nat, bytes: seq<Byte>): seq<Byte>
    requires off <= |c|
  {
    c[..off] + bytes + (if off + |bytes| < |c| then c[off + |bytes|..] else [])
  }

  /** How many file blocks the range meets. */
  function Touched(off: nat, n: nat): nat {
    if n == 0 then 0 else (off + n - 1) / BSIZE - off / BSIZE + 1
  }

  /** A first block that the range does not start is mapped already. */
  function Saved(off: nat, rounds: nat): nat {
    if rounds > 0 && off % BSIZE != 0 then 1 else 0
  }

  /** The most blocks one writei can log: data blocks, their bitmap blocks, the indirect block and its
      bitmap block, and the inode block. */
  function WriteBudget(off: nat, n: nat): nat {
    2 * Touched(off, n) - Saved(off, Touched(off, n)) + 3
  }

  lemma WritingStart(sb: Super, d: seq<Block>, m: seq<Inode>, o: Owner, i: nat, off: nat, src: seq<Byte>)
    requires Shape(sb, d, m, o) && i < |m| && off <= m[i].size
    ensures Writing(d, m, d, m, i, off, src, 0)
  {
  }

  /** The block in which an unaligned write starts is mapped. */
  lemma FirstMapped(sb: Super, d0: seq<Block>, m0: seq<Inode>, d: seq<Block>, m: seq<Inode>, o: Owner,
                    i: nat, off: nat, src: seq<Byte>, tot: nat)
    requires Shape(sb, d, m, o) && Writing(d0, m0, d, m, i, off, src, tot) && off <= MAXFILE * BSIZE
    ensures i < |m|
    ensures off % BSIZE != 0 && tot == 0 ==> Ref(d, m[i], off / BSIZE) != 0
  {
    if off % BSIZE != 0 && tot == 0 {
      MappedAt(d, m[i], off, off - 1);
      assert (off - 1) / BSIZE == off / BSIZE;
    }
  }

  lemma WritingInode(d0: seq<Block>, m0: seq<Inode>, d: seq<Block>, m: seq<Inode>, i: nat, off: nat, src: seq<Byte>,
                     tot: nat)
    requires Writing(d0, m0, d, m, i, off, src, tot)
    ensures i < |m| && tot <= |src|
  {
  }

  /** Storing into a mapped data block: ownership stays, and only that file block changes. */
  lemma StoreBlock(sb: Super, disk: seq<Block>, inodes: seq<Inode>, owner: Owner, i: nat, bn: nat, data: Block)
    requires Shape(sb, disk, inodes, owner) && i < |inodes| && bn < MAXFILE && Ref(disk, inodes[i], bn) != 0
    ensures Ref(disk, inodes[i], bn) < |disk|
    ensures Shape(sb, disk[Ref(disk, inodes[i], bn) := data], inodes, owner)
    ensures forall j, t :: 0 <= j < |inodes| && 0 <= t <= IND ==>
              Ref(disk[Ref(disk, inodes[i], bn) := data], inodes[j], t) == Ref(disk, inodes[j], t)
  {
    var a := Ref(disk, inodes[i], bn);
    assert a in owner && owner[a] == Slot(i, bn);
    var disk' := disk[a := data];
    forall j, t | 0 <= j < |inodes| && 0 <= t <= IND
      ensures Ref(disk', inodes[j], t) == Ref(disk, inodes[j], t)
    {
      assert Ref(disk, inodes[j], IND) == inodes[j].addrs[NDIRECT];
      RefsKept(disk, disk', inodes[j], t);
    }
    forall b | b in owner
      ensures SlotHas(disk', inodes, owner[b], b)
    {
      assert SlotHas(disk, inodes, owner[b], b);
    }
  }

  lemma StoreByte(sb: Super, disk: seq<Block>, inodes: seq<Inode>, owner: Owner, i: nat, bn: nat, data: Block,
                  j: nat, k: nat)
    requires Shape(sb, disk, inodes, owner) && i < |inodes| && bn < MAXFILE && Ref(disk, inodes[i], bn) != 0
    requires j < |inodes| && k / BSIZE < MAXFILE && Ref(disk, inodes[j], k / BSIZE) != 0
    ensures Ref(disk, inodes[i], bn) < |disk|
    ensures ByteAt(disk[Ref(disk, inodes[i], bn) := data], inodes[j], k)
         == if j == i && k / BSIZE == bn then data[k % BSIZE] else ByteAt(disk, inodes[j], k)
  {
    StoreBlock(sb, disk, inodes, owner, i, bn, data);
    var a, c := Ref(disk, inodes[i], bn), Ref(disk, inodes[j], k / BSIZE);
    assert a in owner && owner[a] == Slot(i, bn) && c in owner && owner[c] == Slot(j, k / BSIZE);
  }

  /** The state of a write in progress: tot bytes of src are in file i from offset off on, every other
      byte of it and of every other file is what it was, and sizes have not changed yet. */
  ghost predicate Writing(d0: seq<Block>, m0: seq<Inode>, d: seq<Block>, m: seq<Inode>,
                          i: nat, off: nat, src: seq<Byte>, tot: nat) {
    && |m| == |m0| && i < |m| && tot <= |src|
    && m[i] == m0[i].(addrs := m[i].addrs) && (forall j :: 0 <= j < |m| && j != i ==> m[j] == m0[j])
    && Mapped(d, m[i], off + tot)
    && (forall k: nat :: k < m[i].size || k < off + tot ==>
          ByteAt(d, m[i], k) == if off <= k < off + tot then src[k - off] else ByteAt(d0, m0[i], k))
    && (forall j, k :: 0 <= j < |m| && j != i && 0 <= k < m[j].size ==> ByteAt(d, m[j], k) == ByteAt(d0, m0[j], k))
  }

  /** Mapping more blocks does not disturb a write in progress. */
  lemma WritingGrown(sb: Super, d0: seq<Block>, m0: seq<Inode>, d: seq<Block>, m: seq<Inode>, o: Owner,
                     d': seq<Block>, m': seq<Inode>, o': Owner, i: nat, off: nat, src: seq<Byte>, tot: nat)
    requires Shape(sb, d, m, o) && Writing(d0, m0, d, m, i, off, src, tot)
    requires Grown(d, m, o, d', m', o', i)
    ensures Writing(d0, m0, d', m', i, off, src, tot)
  {
    GrownMapped(d, m, o, d', m', o', i, i, off + tot);
    forall j | 0 <= j < |m| && j != i
      ensures m'[j] == m[j]
    {
      GrownOthers(d, m, o, d', m', o', i, j);
    }
    forall k: nat | k < m[i].size || k < off + tot
      ensures ByteAt(d', m'[i], k) == ByteAt(d, m[i], k)
    {
      MappedAt(d, m[i], if k < m[i].size then m[i].size else off + tot, k);
      GrownByte(sb, d, m, o, d', m', o', i, i, k);
    }
    forall j, k | 0 <= j < |m| && j != i && 0 <= k < m[j].size
      ensures ByteAt(d', m'[j], k) == ByteAt(d, m[j], k)
    {
      MappedAt(d, m[j], m[j].size, k);
      GrownByte(sb, d, m, o, d', m', o', i, j, k);
    }
  }

  /** Growing one inode leaves the others as they were. */
  lemma GrownOthers(d: seq<Block>, m: seq<Inode>, o: Owner, d': seq<Block>, m': seq<Inode>, o': Owner, i: nat, j: nat)
    requires Grown(d, m, o, d', m', o', i) && j < |m| && j != i
    ensures m'[j] == m[j]
  {
    forall t | 0 <= t <= NDIRECT
      ensures m'[j].addrs[t] == m[j].addrs[t]
    {
      var s := if t == NDIRECT then IND else t;
      assert Ref(d', m'[j], s) == Ref(d, m[j], s);
    }
    assert m'[j].addrs == m[j].addrs;
  }

  lemma MappedAt(d: seq<Block>, ip: Inode, end: nat, k: nat)
    requires Mapped(d, ip, end) && k < end
    ensures k / BSIZE < MAXFILE && Ref(d, ip, k / BSIZE) != 0
  {
  }

  /** The block contents after a copy of some bytes into it. */
  function Patch(b: Block, at: nat, bytes: seq<Byte>): Block
    requires at + |bytes| <= BSIZE
  {
    b[..at] + bytes + b[at + |bytes|..]
  }

  lemma PatchByte(b: Block, cur: nat, bytes: seq<Byte>, k: nat)
    requires cur % BSIZE + |bytes| <= BSIZE && k / BSIZE == cur / BSIZE
    ensures Patch(b, cur % BSIZE, bytes)[k % BSIZE] == if cur <= k < cur + |bytes| then bytes[k - cur] else b[k % BSIZE]
  {
    assert k - cur == k % BSIZE - cur % BSIZE;
  }

  /** One byte of the file being written, after the next piece of src is stored. */
  lemma WrittenByte(sb: Super, d0: seq<Block>, m0: seq<Inode>, d: seq<Block>, m: seq<Inode>, o: Owner,
                    i: nat, off: nat, src: seq<Byte>, tot: nat, n: nat, k: nat)
    requires Shape(sb, d, m, o) && Writing(d0, m0, d, m, i, off, src, tot)
    requires tot + n <= |src| && (off + tot) % BSIZE + n <= BSIZE && off + tot + n <= MAXFILE * BSIZE
    requires (k < m[i].size || k < off + tot + n) && k / BSIZE < MAXFILE && Ref(d, m[i], k / BSIZE) != 0
    requires Ref(d, m[i], (off + tot) / BSIZE) != 0 && (off + tot) / BSIZE < MAXFILE
    ensures Ref(d, m[i], (off + tot) / BSIZE) < |d|
    ensures var a := Ref(d, m[i], (off + tot) / BSIZE);
            var d' := d[a := Patch(d[a], (off + tot) % BSIZE, src[tot..tot + n])];
            ByteAt(d', m[i], k) == if off <= k < off + tot + n then src[k - off] else ByteAt(d0, m0[i], k)
  {
    hide Shape, Mapped, Ref, Patch;
    var cur := off + tot;
    RefInRange(sb, d, m, o, i, cur / BSIZE);
    RefInRange(sb, d, m, o, i, k / BSIZE);
    var a := Ref(d, m[i], cur / BSIZE);
    var data := Patch(d[a], cur % BSIZE, src[tot..tot + n]);
    StoreByte(sb, d, m, o, i, cur / BSIZE, data, i, k);
    if k / BSIZE == cur / BSIZE {
      PatchByte(d[a], cur, src[tot..tot + n], k);
      assert ByteAt(d, m[i], k) == d[a][k % BSIZE];
    }
  }

  /** Storing the next piece of src into its block advances the write by that piece. */
  lemma WritingMore(sb: Super, d0: seq<Block>, m0: seq<Inode>, d: seq<Block>, m: seq<Inode>, o: Owner,
                    i: nat, off: nat, src: seq<Byte>, tot: nat, n: nat)
    requires Shape(sb, d, m, o) && Writing(d0, m0, d, m, i, off, src, tot)
    requires tot + n <= |src| && (off + tot) % BSIZE + n <= BSIZE && off + tot + n <= MAXFILE * BSIZE && 0 < n
    requires Ref(d, m[i], (off + tot) / BSIZE) != 0
    ensures Ref(d, m[i], (off + tot) / BSIZE) < |d|
    ensures var a := Ref(d, m[i], (off + tot) / BSIZE);
            var d' := d[a := Patch(d[a], (off + tot) % BSIZE, src[tot..tot + n])];
            Shape(sb, d', m, o) && Writing(d0, m0, d', m, i, off, src, tot + n)
            && forall t :: 0 <= t <= IND ==> Ref(d', m[i], t) == Ref(d, m[i], t)
  {
    hide Owned;
    var cur := off + tot;
    var bn := cur / BSIZE;
    RefInRange(sb, d, m, o, i, bn);
    var a := Ref(d, m[i], bn);
    var data := Patch(d[a], cur % BSIZE, src[tot..tot + n]);
    var d' := d[a := data];
    StoreBlock(sb, d, m, o, i, bn, data);
    assert Mapped(d', m[i], cur + n) by {
      forall x | 0 <= x < MAXFILE && x * BSIZE < cur + n
        ensures Ref(d', m[i], x) != 0
      {
        assert Ref(d', m[i], x) == Ref(d, m[i], x);
        assert x * BSIZE < cur || x == bn;
      }
    }
    forall k: nat | k < m[i].size || k < cur + n
      ensures ByteAt(d', m[i], k) == if off <= k < cur + n then src[k - off] else ByteAt(d0, m0[i], k)
    {
      MappedAt(d', m[i], if k < m[i].size then m[i].size else cur + n, k);
      WrittenByte(sb, d0, m0, d, m, o, i, off, src, tot, n, k);
    }
    forall j, k | 0 <= j < |m| && j != i && 0 <= k < m[j].size
      ensures ByteAt(d', m[j], k) == ByteAt(d0, m0[j], k)
    {
      MappedAt(d, m[j], m[j].size, k);
      StoreByte(sb, d, m, o, i, bn, data, j, k);
    }
  }

  lemma RefInRange(sb: Super, disk: seq<Block>, inodes: seq<Inode>, owner: Owner, i: nat, s: nat)
    requires Shape(sb, disk, inodes, owner) && i < |inodes| && s <= IND
    ensures |disk| == sb.size
    ensures Ref(disk, inodes[i], s) != 0 ==> sb.nmeta <= Ref(disk, inodes[i], s) < sb.size
  {
  }

  /** Filling one empty slot with a fresh block keeps the file system valid. */
  lemma StillValid(sb: Super, disk: seq<Block>, inodes: seq<Inode>, owner: Owner,
                   disk': seq<Block>, inodes': seq<Inode>, owner': Owner, i: nat, s: nat, b: nat)
    requires Shape(sb, disk, inodes, owner) && i < |inodes| && s <= IND && Ref(disk, inodes[i], s) == 0
    requires b !in owner && owner' == owner[b := Slot(i, s)]
    requires OnlySlot(disk, inodes, disk', inodes', i, s, b) && Owned(sb, disk', inodes', owner')
    requires |disk'| == |disk|
    requires forall j :: 0 <= j < |inodes| ==> inodes'[j] == inodes[j].(addrs := inodes'[j].addrs)
    requires forall c :: c in owner && owner[c].s != IND ==> disk'[c] == disk[c]
    ensures Shape(sb, disk', inodes', owner')
    ensures Grown(disk, inodes, owner, disk', inodes', owner', i)
  {
    forall j | 0 <= j < |inodes|
      ensures Mapped(disk', inodes'[j], inodes'[j].size)
    {
      GrownMapped(disk, inodes, owner, disk', inodes', owner', i, j, inodes[j].size);
    }
  }

  lemma NextGroup(b: nat)
    requires b % BPB == 0
    ensures (b + BPB) % BPB == 0
  {
  }

  /** The bit of block b + bi, for b at a multiple of BPB. */
  lemma InUseBit(sb: Super, disk: seq<Block>, b: nat, bi: nat)
    requires sb.Valid() && |disk| == sb.size && b + bi < sb.size && b % BPB == 0 && bi < BPB
    ensures InUse(sb, disk, b + bi) <==> Bit(disk[sb.BBLOCK(b)][bi / 8], bi % 8)
  {
    assert (b + bi) / BPB == b / BPB && (b + bi) % BPB == bi;
  }
}
