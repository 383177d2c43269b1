/** mkfs/mkfs.c: the image it builds starts in the file system's invariant, except for one rounding. */
module Mkfs {
  import opened Blocks
  import opened FsLayout
  import opened FsOwner
  import opened Fs
  import LogSpec

  const DIRSIZ: nat := 14

  type Name = s: seq<Byte> | |s| <= DIRSIZ witness []

  /** A file to put into the image. */
  datatype Source = Source(name: Name, bytes: seq<Byte>)

  /** Boot block, superblock, log, inode blocks, bitmap, data. */
  function Layout(size: nat, ninodes: nat, nlog: nat): Super {
    var bmapstart := 2 + nlog + ninodes / IPB + 1;
    Super(size, ninodes, 2 + nlog, bmapstart, bmapstart + size / BPB + 1)
  }

  /** The parts of the image do not overlap: the log is between the superblock and the inode blocks, these before
      the bitmap, and that before the data. */
  lemma LayoutApart(size: nat, ninodes: nat, nlog: nat, i: nat, b: nat, l: nat)
    requires Layout(size, ninodes, nlog).Valid() && i < ninodes && b < size && LogSpec.Area(2, nlog).Contains(l)
    ensures var sb := Layout(size, ninodes, nlog);
            && sb.size == size && sb.ninodes == ninodes
            && 1 < l < sb.IBLOCK(i) < sb.BBLOCK(b) < sb.nmeta <= size
  {
    assert i / IPB <= ninodes / IPB && b / BPB <= size / BPB;
  }

  /** A directory entry as bytes. */
  function Dirent(inum: nat, name: Name): (e: seq<Byte>)
    requires inum < 0x1_0000
    ensures |e| == 16
  {
    [inum % 256, inum / 256] + name + seq(DIRSIZ - |name|, _ => 0)
  }

  /** The root directory's entries: itself twice, then the files in order. */
  function Entries(files: seq<Source>): (es: seq<Byte>)
    requires |files| + 2 <= 0x1_0000
    ensures |es| == 16 * (|files| + 2)
  {
    if files == [] then Dirent(ROOTINO, [46]) + Dirent(ROOTINO, [46, 46])
    else Entries(files[..|files| - 1]) + Dirent(|files| + 1, files[|files| - 1].name)
  }

  /** The blocks a file of this size takes up, the indirect block included. */
  function Need(size: nat): nat {
    (size + BSIZE - 1) / BSIZE + if size > NDIRECT * BSIZE then 1 else 0
  }

  function NeedAll(files: seq<Source>): nat {
    if files == [] then 0 else NeedAll(files[..|files| - 1]) + Need(|files[|files| - 1].bytes|)
  }

  /** The first block that is free after these files went in. */
  function BlocksUsed(sb: Super, files: seq<Source>): nat {
    sb.nmeta + Need(16 * (|files| + 2)) + NeedAll(files)
  }

  /** The root directory lists the files, and they are there with their contents. */
  ghost predicate Built(d: seq<Block>, m: seq<Inode>, files: seq<Source>) {
    && |files| + 2 <= |m| && |files| + 2 <= 0x1_0000
    && m[ROOTINO].typ == T_DIR && m[ROOTINO].nlink == 1 && Content(d, m[ROOTINO]) == Entries(files)
    && forall f :: 0 <= f < |files| ==> IsFile(d, m[f + 2], files[f])
  }

  ghost predicate IsFile(d: seq<Block>, ip: Inode, src: Source) {
    ip.typ == T_FILE && ip.nlink == 1 && Content(d, ip) == src.bytes
  }

  // ---- blocks handed out in order

  /** Data blocks below fb are owned; those from fb on and the bitmap are untouched. */
  ghost predicate Fresh(sb: Super, d: seq<Block>, m: seq<Inode>, o: Owner, fb: nat) {
    && Shape(sb, d, m, o) && sb.nmeta <= fb <= sb.size
    && (forall b :: b in o <==> sb.nmeta <= b < fb)
    && forall b: nat :: sb.bmapstart <= b < sb.nmeta || fb <= b < sb.size ==> Zeroed(d[b])
  }

  ghost predicate Zeroed(b: Block) {
    forall x :: 0 <= x < BSIZE ==> b[x] == 0
  }

  /** The file has exactly the blocks for its first `mapped` bytes, and zeros from `from` on. */
  ghost predicate Tidy(d: seq<Block>, ip: Inode, mapped: nat, from: nat) {
    && (forall bn :: 0 <= bn < MAXFILE ==> (Ref(d, ip, bn) != 0 <==> bn * BSIZE < mapped))
    && (Ref(d, ip, IND) != 0 <==> mapped > NDIRECT * BSIZE)
    && (forall k: nat :: k >= from && k / BSIZE < MAXFILE && Ref(d, ip, k / BSIZE) != 0 ==> ByteAt(d, ip, k) == 0)
  }

  /** Tidy files all, with inode i possibly in the middle of an append. */
  ghost predicate AllTidy(d: seq<Block>, m: seq<Inode>, i: nat, mapped: nat, from: nat) {
    forall j :: 0 <= j < |m| ==>
      if j == i then Tidy(d, m[j], mapped, from) else Tidy(d, m[j], m[j].size, m[j].size)
  }

  /** Giving the next block to a direct slot or to the indirect slot. */
  lemma TakePointer(sb: Super, d: seq<Block>, m: seq<Inode>, o: Owner, fb: nat, i: nat, s: nat)
    requires Fresh(sb, d, m, o, fb) && fb < sb.size && i < |m| && (s < NDIRECT || s == IND) && Ref(d, m[i], s) == 0
    ensures var m' := m[i := m[i].(addrs := m[i].addrs[if s == IND then NDIRECT else s := fb])];
            var o' := o[fb := Slot(i, s)];
            Fresh(sb, d, m', o', fb + 1) && OnlySlot(d, m, d, m', i, s, fb) && Grown(d, m, o, d, m', o', i)
  {
    hide Owned, Ref, Mapped, OnlySlot, Grown;
    assert Zeroed(d[fb]) && d[fb] == ZeroBlock;
    PointerSet(sb, d, m, o, d, i, s, fb);
    var m' := m[i := m[i].(addrs := m[i].addrs[if s == IND then NDIRECT else s := fb])];
    StillValid(sb, d, m, o, d, m', o[fb := Slot(i, s)], i, s, fb);
  }

  /** Giving the next block to a slot behind the indirect block. */
  lemma TakeWord(sb: Super, d: seq<Block>, m: seq<Inode>, o: Owner, fb: nat, i: nat, s: nat)
    requires Fresh(sb, d, m, o, fb) && fb < sb.size && i < |m| && NDIRECT <= s < IND
    requires Ref(d, m[i], s) == 0 && Ref(d, m[i], IND) != 0
    ensures 0 < m[i].addrs[NDIRECT] < |d|
    ensures var d' := d[m[i].addrs[NDIRECT] := WithWord(d[m[i].addrs[NDIRECT]], s - NDIRECT, fb)];
            var o' := o[fb := Slot(i, s)];
            Fresh(sb, d', m, o', fb + 1) && OnlySlot(d, m, d', m, i, s, fb) && Grown(d, m, o, d', m, o', i)
  {
    hide Owned, Ref, Mapped, OnlySlot, Grown, WithWord;
    var ind := m[i].addrs[NDIRECT];
    IndirectOwned(sb, d, m, o, i);
    var d' := d[ind := WithWord(d[ind], s - NDIRECT, fb)];
    WordSet(sb, d, m, o, d', i, s, fb);
    StillValid(sb, d, m, o, d', m, o[fb := Slot(i, s)], i, s, fb);
  }

  /** Growth of one file leaves the others tidy. */
  lemma GrownTidy(sb: Super, d: seq<Block>, m: seq<Inode>, o: Owner, d': seq<Block>, m': seq<Inode>, o': Owner,
                  i: nat, j: nat)
    requires Shape(sb, d, m, o) && Grown(d, m, o, d', m', o', i) && j < |m| && j != i
    requires Tidy(d, m[j], m[j].size, m[j].size)
    ensures Tidy(d', m'[j], m'[j].size, m'[j].size)
  {
    hide Mapped;
    forall k: nat | k >= m[j].size && k / BSIZE < MAXFILE && Ref(d', m'[j], k / BSIZE) != 0
      ensures ByteAt(d', m'[j], k) == 0
    {
      GrownByte(sb, d, m, o, d', m', o', i, j, k);
    }
  }

  /** After the block at `cur` is mapped, the file is tidy one byte further, still zero from cur on. */
  lemma MapTidy(sb: Super, d: seq<Block>, m: seq<Inode>, o: Owner, d': seq<Block>, m': seq<Inode>, o': Owner, i: nat,
                cur: nat, x: nat)
    requires Shape(sb, d, m, o) && Grown(d, m, o, d', m', o', i) && i < |m| && cur < MAXFILE * BSIZE
    requires Tidy(d, m[i], cur, cur) && 0 < x < |d'|
    requires forall t :: 0 <= t < IND ==> Ref(d', m'[i], t) == if t == cur / BSIZE then x else Ref(d, m[i], t)
    requires Ref(d', m'[i], IND) != 0 <==> cur + 1 > NDIRECT * BSIZE
    requires Ref(d, m[i], cur / BSIZE) == 0 ==> Zeroed(d'[x])
    ensures Tidy(d', m'[i], cur + 1, cur)
  {
    hide Mapped;
    forall k: nat | k >= cur && k / BSIZE < MAXFILE && Ref(d', m'[i], k / BSIZE) != 0
      ensures ByteAt(d', m'[i], k) == 0
    {
      if Ref(d, m[i], k / BSIZE) != 0 {
        GrownByte(sb, d, m, o, d', m', o', i, i, k);
      }
    }
    forall bn | 0 <= bn < MAXFILE
      ensures Ref(d', m'[i], bn) != 0 <==> bn * BSIZE < cur + 1
    {
      assert Ref(d, m[i], bn) != 0 <==> bn * BSIZE < cur;
    }
  }

  class Image {
    const sb: Super
    var disk: seq<Block>
    var inodes: seq<Inode>
    var freeinode: nat
    var freeblock: nat
    ghost var owner: Owner

    ghost predicate Valid()
      reads this
    {
      && Fresh(sb, disk, inodes, owner, freeblock)
      && AllTidy(disk, inodes, |inodes|, 0, 0)
      && 1 <= freeinode <= |inodes|
      && inodes[0] == Inode(0, 0, 0, NoAddrs)
      && forall i :: freeinode <= i < |inodes| ==> inodes[i] == Inode(0, 0, 0, NoAddrs)
    }

    /** The zeroed image. */
    constructor (size: nat, ninodes: nat, nlog: nat)
      requires Layout(size, ninodes, nlog).Valid() && 1 <= ninodes
      ensures Valid() && sb == Layout(size, ninodes, nlog)
      ensures freeinode == 1 && freeblock == sb.nmeta && inodes == seq(ninodes, _ => Inode(0, 0, 0, NoAddrs))
    {
      sb := Layout(size, ninodes, nlog);
      disk := seq(size, _ => ZeroBlock);
      inodes := seq(ninodes, _ => Inode(0, 0, 0, NoAddrs));
      freeinode, freeblock, owner := 1, Layout(size, ninodes, nlog).nmeta, map[];
    }

    /** The next block goes into an empty direct slot or the empty indirect slot. */
    method Point(i: nat, s: nat)
      requires Fresh(sb, disk, inodes, owner, freeblock) && freeblock < sb.size && i < |inodes|
      requires (s < NDIRECT || s == IND) && Ref(disk, inodes[i], s) == 0
      modifies this`inodes, this`freeblock, this`owner
      ensures freeblock == old(freeblock) + 1 && Fresh(sb, disk, inodes, owner, freeblock)
      ensures Taken(old(disk), old(inodes), old(owner), disk, inodes, owner, i, s, old(freeblock))
    {
      hide Fresh, OnlySlot, Grown, Ref;
      TakePointer(sb, disk, inodes, owner, freeblock, i, s);
      FreshAt(sb, disk, inodes, owner, freeblock);
      inodes := inodes[i := inodes[i].(addrs := inodes[i].addrs[if s == IND then NDIRECT else s := freeblock])];
      owner := owner[freeblock := Slot(i, s)];
      freeblock := freeblock + 1;
    }

    /** The next block goes into an empty slot behind the indirect block. */
    method PointIndirect(i: nat, s: nat)
      requires Fresh(sb, disk, inodes, owner, freeblock) && freeblock < sb.size && i < |inodes|
      requires NDIRECT <= s < IND && Ref(disk, inodes[i], s) == 0 && Ref(disk, inodes[i], IND) != 0
      modifies this`disk, this`freeblock, this`owner
      ensures freeblock == old(freeblock) + 1 && Fresh(sb, disk, inodes, owner, freeblock)
      ensures Taken(old(disk), old(inodes), old(owner), disk, inodes, owner, i, s, old(freeblock))
    {
      TakeWord(sb, disk, inodes, owner, freeblock, i, s);
      FreshAt(sb, disk, inodes, owner, freeblock);
      IndirectInRange(sb, disk, inodes, owner, freeblock, i);
      hide Fresh, OnlySlot, Grown, Ref, WithWord;
      var ind := inodes[i].addrs[NDIRECT];
      disk := disk[ind := WithWord(disk[ind], s - NDIRECT, freeblock)];
      owner := owner[freeblock := Slot(i, s)];
      freeblock := freeblock + 1;
    }

    /** The part of iappend that finds or takes the block for offset cur; false means mkfs died, for
        want of blocks. */
    method MapBlock(i: nat, cur: nat) returns (ok: bool, x: Word)
      requires Fresh(sb, disk, inodes, owner, freeblock) && i < |inodes| && cur < MAXFILE * BSIZE
      requires AllTidy(disk, inodes, i, cur, cur)
      modifies this`disk, this`inodes, this`freeblock, this`owner
      ensures ok <==> old(freeblock) + Need(cur + 1) - Need(cur) <= sb.size
      ensures ok ==> && Fresh(sb, disk, inodes, owner, freeblock)
                     && Grown(old(disk), old(inodes), old(owner), disk, inodes, owner, i)
                     && AllTidy(disk, inodes, i, cur + 1, cur)
                     && x == Ref(disk, inodes[i], cur / BSIZE) && x != 0
                     && freeblock == old(freeblock) + Need(cur + 1) - Need(cur)
    {
      hide AllTidy, Tidy, Need, Grown, Fresh, Shape, WordAt, Zeroed;
      NeedStep(cur);
      TidyAt(disk, inodes, i, cur);
      ghost var d, m, o := disk, inodes, owner;
      FreshLimit(sb, disk, inodes, owner, freeblock);
      var fbn := cur / BSIZE;
      x := 0;
      if fbn < NDIRECT {
        GrownSelf(d, m, o, i);
        if inodes[i].addrs[fbn] == 0 {
          if freeblock >= sb.size {
            return false, x;
          }
          Point(i, fbn);
        }
        x := inodes[i].addrs[fbn];
      } else {
        ok, x := MapIndirect(i, cur);
        if !ok {
          return;
        }
      }
      MapAllTidy(sb, d, m, o, disk, inodes, owner, freeblock, i, cur, x);
      return true, x;
    }

    /** MapBlock beyond the direct blocks. */
    method MapIndirect(i: nat, cur: nat) returns (ok: bool, x: Word)
      requires Fresh(sb, disk, inodes, owner, freeblock) && i < |inodes| && NDIRECT * BSIZE <= cur < MAXFILE * BSIZE
      requires Ref(disk, inodes[i], cur / BSIZE) != 0 <==> cur % BSIZE != 0
      requires Ref(disk, inodes[i], IND) != 0 <==> cur > NDIRECT * BSIZE
      modifies this`disk, this`inodes, this`freeblock, this`owner
      ensures ok <==>
            old(freeblock) + (if cur % BSIZE == 0 then 1 else 0) + (if cur == NDIRECT * BSIZE then 1 else 0) <= sb.size
      ensures ok ==> && Fresh(sb, disk, inodes, owner, freeblock)
                     && Onto(old(disk), old(inodes), old(owner), disk, inodes, owner, i, cur, x)
                     && freeblock == old(freeblock)
                          + (if cur % BSIZE == 0 then 1 else 0) + (if cur == NDIRECT * BSIZE then 1 else 0)
    {
      hide Grown, Fresh, Shape, WordAt, Zeroed;
      ghost var d, m, o := disk, inodes, owner;
      FreshLimit(sb, disk, inodes, owner, freeblock);
      GrownSelf(d, m, o, i);
      IndirectInRange(sb, disk, inodes, owner, freeblock, i);
      x := 0;
      if inodes[i].addrs[NDIRECT] == 0 {
        if freeblock >= sb.size {
          return false, x;
        }
        Point(i, IND);
      }
      IndirectInRange(sb, disk, inodes, owner, freeblock, i);
      if WordAt(disk[inodes[i].addrs[NDIRECT]], cur / BSIZE - NDIRECT) == 0 {
        if freeblock >= sb.size {
          return false, x;
        }
        ghost var d1, m1, o1 := disk, inodes, owner;
        PointIndirect(i, cur / BSIZE);
        GrownTwice(d, m, o, d1, m1, o1, disk, inodes, owner, i);
      }
      IndirectInRange(sb, disk, inodes, owner, freeblock, i);
      x := WordAt(disk[inodes[i].addrs[NDIRECT]], cur / BSIZE - NDIRECT);
      return true, x;
    }

    /** One round of iappend's loop. */
    method AppendStep(i: nat, off: nat, bytes: seq<Byte>, tot: nat, ghost d0: seq<Block>, ghost m0: seq<Inode>)
      returns (ok: bool, n1: nat)
      requires Fresh(sb, disk, inodes, owner, freeblock) && i < |inodes|
      requires AllTidy(disk, inodes, i, off + tot, off + tot)
      requires Writing(d0, m0, disk, inodes, i, off, bytes, tot) && tot < |bytes|
      modifies this`disk, this`inodes, this`freeblock, this`owner
      ensures ok <==> off + tot < MAXFILE * BSIZE && old(freeblock) + Need(off + tot + 1) - Need(off + tot) <= sb.size
      ensures ok ==> && 0 < n1 <= |bytes| - tot && |inodes| == old(|inodes|)
                     && Fresh(sb, disk, inodes, owner, freeblock)
                     && AllTidy(disk, inodes, i, off + tot + n1, off + tot + n1)
                     && Writing(d0, m0, disk, inodes, i, off, bytes, tot + n1)
                     && Need(off + tot + n1) == Need(off + tot + 1)
                     && freeblock == old(freeblock) + Need(off + tot + n1) - Need(off + tot)
    {
      hide AllTidy, Need, Grown, Ref, Writing, Shape, Zeroed, Patch;
      ghost var d, m, o := disk, inodes, owner;
      var cur := off + tot;
      n1 := 0;
      if cur / BSIZE >= MAXFILE {
        return false, n1;
      }
      var x;
      ok, x := MapBlock(i, cur);
      if !ok {
        return;
      }
      GrownLength(d, m, o, disk, inodes, owner, i);
      WritingGrown(sb, d0, m0, d, m, o, disk, inodes, owner, i, off, bytes, tot);
      n1 := if |bytes| - tot < BSIZE - cur % BSIZE then |bytes| - tot else BSIZE - cur % BSIZE;
      WritingMore(sb, d0, m0, disk, inodes, owner, i, off, bytes, tot, n1);
      StoredTidy(sb, disk, inodes, owner, freeblock, i, cur, bytes[tot..tot + n1]);
      NeedSame(cur, n1);
      disk := disk[x := Patch(disk[x], cur % BSIZE, bytes[tot..tot + n1])];
    }

    /** iappend: the bytes go to the end of file i, nothing else changes. It fails (an assertion, or no
        more blocks) exactly when the file would get too large or the blocks do not suffice. */
    method Iappend(i: nat, bytes: seq<Byte>) returns (ok: bool)
      requires Valid() && 0 < i < freeinode
      modifies this
      ensures ok <==> && old(inodes)[i].size + |bytes| <= MAXFILE * BSIZE
                      && old(freeblock) + Need(old(inodes)[i].size + |bytes|) - Need(old(inodes)[i].size) <= sb.size
      ensures ok ==> && Valid() && freeinode == old(freeinode)
                     && Written(old(disk), old(inodes), disk, inodes, i, old(inodes)[i].size, bytes)
                     && freeblock == old(freeblock) + Need(old(inodes)[i].size + |bytes|) - Need(old(inodes)[i].size)
    {
      hide AllTidy, Need, Writing, Fresh, Written;
      ghost var d0, m0 := disk, inodes;
      var off, tot := inodes[i].size, 0;
      FreshSize(sb, disk, inodes, owner, freeblock, i, bytes);
      OneTidy(disk, inodes, i);
      while tot < |bytes|
        invariant 0 <= tot <= |bytes| && |inodes| == |m0| && freeinode == old(freeinode)
        invariant off + tot <= MAXFILE * BSIZE && freeblock <= sb.size
        invariant Fresh(sb, disk, inodes, owner, freeblock) && AllTidy(disk, inodes, i, off + tot, off + tot)
        invariant Writing(d0, m0, disk, inodes, i, off, bytes, tot)
        invariant freeblock == old(freeblock) + Need(off + tot) - Need(off)
      {
        NeedGrows(off + tot + 1, off + |bytes|);
        var n1;
        ok, n1 := AppendStep(i, off, bytes, tot, d0, m0);
        if !ok {
          return;
        }
        tot := tot + n1;
        FreshLimit(sb, disk, inodes, owner, freeblock);
        AppendLimit(d0, m0, disk, inodes, i, off, bytes, tot);
      }
      AppendDone(sb, d0, m0, disk, inodes, owner, freeblock, i, off, bytes);
      inodes := inodes[i := inodes[i].(size := off + |bytes|)];
      return true;
    }

    /** ialloc: the next inode. */
    method Ialloc(typ: int) returns (inum: nat)
      requires Valid() && freeinode < |inodes|
      modifies this`inodes, this`freeinode
      ensures Valid() && inum == old(freeinode) && freeinode == inum + 1
      ensures inodes == old(inodes)[inum := Inode(typ, 1, 0, NoAddrs)]
    {
      hide Shape, AllTidy, Zeroed;
      inum := freeinode;
      Retyped(sb, disk, inodes, owner, inum, Inode(typ, 1, 0, NoAddrs));
      RetypedTidy(disk, inodes, inum, Inode(typ, 1, 0, NoAddrs));
      freeinode := freeinode + 1;
      inodes := inodes[inum := Inode(typ, 1, 0, NoAddrs)];
    }

    /** Copying a file in, a buffer at a time. */
    method AppendFile(i: nat, bytes: seq<Byte>) returns (ok: bool)
      requires Valid() && 0 < i < freeinode && inodes[i].size == 0
      modifies this
      ensures ok <==> |bytes| <= MAXFILE * BSIZE && old(freeblock) + Need(|bytes|) <= sb.size
      ensures ok ==> && Valid() && freeinode == old(freeinode)
                     && Written(old(disk), old(inodes), disk, inodes, i, 0, bytes)
                     && freeblock == old(freeblock) + Need(|bytes|)
    {
      hide Fresh, AllTidy, Need, Written;
      ghost var d0, m0 := disk, inodes;
      WrittenNothing(disk, inodes, i, 0);
      FreshRange(sb, disk, inodes, owner, freeblock);
      NeedNothing();
      var at := 0;
      while at < |bytes|
        invariant Valid() && 0 <= at <= |bytes| && freeinode == old(freeinode)
        invariant i < |inodes| && inodes[i].size == at <= MAXFILE * BSIZE
        invariant Written(d0, m0, disk, inodes, i, 0, bytes[..at])
        invariant freeblock == old(freeblock) + Need(at) <= sb.size
      {
        ghost var d, m := disk, inodes;
        var cc := if |bytes| - at < BSIZE then |bytes| - at else BSIZE;
        NeedGrows(at + cc, |bytes|);
        ok := Iappend(i, bytes[at..at + cc]);
        if !ok {
          return;
        }
        WrittenTwice(d0, m0, d, m, disk, inodes, i, 0, bytes[..at], bytes[at..at + cc]);
        assert bytes[..at] + bytes[at..at + cc] == bytes[..at + cc];
        at := at + cc;
        WrittenSize(d0, m0, disk, inodes, i, bytes[..at]);
      }
      assert bytes[..at] == bytes;
      return true;
    }

    /** The root directory with its two entries for itself. */
    method MakeRoot() returns (ok: bool)
      requires Valid() && freeinode == 1 && freeblock == sb.nmeta && 2 <= |inodes|
      modifies this
      ensures ok <==> BlocksUsed(sb, []) <= sb.size
      ensures ok ==> && Valid() && freeinode == 2 && |inodes| == old(|inodes|)
                     && Built(disk, inodes, []) && freeblock == BlocksUsed(sb, [])
    {
      hide Fresh, AllTidy, Need;
      NeedNothing();
      NeedGrows(16, 32);
      var rootino := Ialloc(T_DIR);
      ok := Iappend(rootino, Dirent(rootino, [46]));
      if !ok {
        return;
      }
      ok := Iappend(rootino, Dirent(rootino, [46, 46]));
    }

    /** One file of the command line, and its entry. */
    method AddFile(file: Source, ghost files: seq<Source>) returns (ok: bool)
      requires Valid() && freeinode == |files| + 2 < |inodes| <= 0x1_0000
      requires Built(disk, inodes, files) && freeblock == BlocksUsed(sb, files)
      modifies this
      ensures ok <==> && 16 * (|files| + 3) <= MAXFILE * BSIZE && |file.bytes| <= MAXFILE * BSIZE
                      && BlocksUsed(sb, files + [file]) <= sb.size
      ensures ok ==> && Valid() && freeinode == |files| + 3 && |inodes| == old(|inodes|)
                     && Built(disk, inodes, files + [file]) && freeblock == BlocksUsed(sb, files + [file])
    {
      hide Fresh, AllTidy, Need, Content, Written;
      ghost var m0 := inodes;
      ContentSize(disk, inodes[ROOTINO]);
      UsedNext(sb, files, file);
      var inum := Ialloc(T_FILE);
      ghost var d1, m1 := disk, inodes;
      ok := Iappend(ROOTINO, Dirent(inum, file.name));
      if !ok {
        return;
      }
      ghost var d2, m2 := disk, inodes;
      AppendedRoot(d1, m1, d2, m2, files, Dirent(inum, file.name));
      WrittenOthers(d1, m1, d2, m2, ROOTINO, m1[ROOTINO].size, Dirent(inum, file.name));
      ok := AppendFile(inum, file.bytes);
      if ok {
        WrittenOthers(d2, m2, disk, inodes, inum, 0, file.bytes);
        BuiltMore(d1, m0, d2, m2, disk, inodes, files, file);
      }
    }

    /** The root directory and all files. */
    method AddAll(files: seq<Source>) returns (ok: bool)
      requires Valid() && freeinode == 1 && freeblock == sb.nmeta && |files| + 2 <= |inodes| <= 0x1_0000
      modifies this
      ensures ok <==> && 16 * (|files| + 2) <= MAXFILE * BSIZE && BlocksUsed(sb, files) <= sb.size
                      && forall f :: 0 <= f < |files| ==> |files[f].bytes| <= MAXFILE * BSIZE
      ensures ok ==> && Valid() && |inodes| == old(|inodes|) && freeinode == |files| + 2
                     && Built(disk, inodes, files) && freeblock == BlocksUsed(sb, files)
    {
      hide Fresh, AllTidy, BlocksUsed, Built;
      UsedGrows(sb, files, 0);
      ghost var n := |inodes|;
      ok := MakeRoot();
      if !ok {
        assert files[..0] == [];
        return;
      }
      var i := 0;
      assert files[..i] == [];
      while i < |files|
        invariant 0 <= i <= |files| && Valid() && |inodes| == n
        invariant freeinode == i + 2 && Built(disk, inodes, files[..i]) && freeblock == BlocksUsed(sb, files[..i])
        invariant freeblock <= sb.size && 16 * (i + 2) <= MAXFILE * BSIZE
        invariant forall f :: 0 <= f < i ==> |files[f].bytes| <= MAXFILE * BSIZE
      {
        assert files[..i] + [files[i]] == files[..i + 1];
        UsedGrows(sb, files, i + 1);
        ok := AddFile(files[i], files[..i]);
        if !ok {
          return;
        }
        i := i + 1;
      }
      assert files[..i] == files;
      ok := true;
    }

    /** The size of the root directory is rounded up. */
    method FixRoot()
      requires ROOTINO < |inodes|
      modifies this`inodes
      ensures var ip := old(inodes)[ROOTINO];
              inodes == old(inodes)[ROOTINO := ip.(size := (ip.size / BSIZE + 1) * BSIZE)]
    {
      var off := inodes[ROOTINO].size;
      off := (off / BSIZE + 1) * BSIZE;
      inodes := inodes[ROOTINO := inodes[ROOTINO].(size := off)];
    }

    /** balloc: the first `used` blocks are marked, all in one bitmap block; false is its assertion. */
    method Balloc(used: nat) returns (ok: bool)
      requires sb.Valid() && |disk| == sb.size && used <= sb.size
      requires forall b :: sb.bmapstart <= b < sb.nmeta ==> Zeroed(disk[b])
      modifies this`disk
      ensures ok <==> used < BPB
      ensures ok ==> |disk| == sb.size && forall b :: 0 <= b < sb.size ==> (InUse(sb, disk, b) <==> b < used)
      ensures forall b :: 0 <= b < |disk| == sb.size && b != sb.bmapstart ==> disk[b] == old(disk)[b]
    {
      hide PutBit;
      if used >= BPB {
        return false;
      }
      var buf := ZeroBlock;
      var i := 0;
      NoBits();
      while i < used
        invariant 0 <= i <= used && disk == old(disk)
        invariant forall c :: 0 <= c < BPB ==> (Bit(buf[c / 8], c % 8) <==> c < i)
      {
        ghost var buf0 := buf;
        buf := buf[i / 8 := PutByteBit(buf[i / 8], i % 8, true)];
        OneBit(buf0, i);
        i := i + 1;
      }
      disk := disk[sb.bmapstart := buf];
      AllBits(sb, old(disk), disk, buf, used);
      return true;
    }
  }

  /** One more bit of the bitmap being built. */
  lemma OneBit(buf: Block, i: nat)
    requires i < BPB && forall c :: 0 <= c < BPB ==> (Bit(buf[c / 8], c % 8) <==> c < i)
    ensures var buf' := buf[i / 8 := PutByteBit(buf[i / 8], i % 8, true)];
            forall c :: 0 <= c < BPB ==> (Bit(buf'[c / 8], c % 8) <==> c < i + 1)
  {
    forall c | 0 <= c < BPB
      ensures Bit(buf[i / 8 := PutByteBit(buf[i / 8], i % 8, true)][c / 8], c % 8) <==> c < i + 1
    {
      BitAfterPut(buf[i / 8], i % 8, true, c % 8);
      assert c / 8 == i / 8 && c % 8 == i % 8 ==> c == i;
    }
  }

  lemma NoBits()
    ensures forall c :: 0 <= c < BPB ==> !Bit(ZeroBlock[c / 8], c % 8)
  {
    forall c | 0 <= c < BPB
      ensures !Bit(ZeroBlock[c / 8], c % 8)
    {
      BitOfZero(c % 8);
    }
  }

  lemma AllBits(sb: Super, d: seq<Block>, d': seq<Block>, buf: Block, used: nat)
    requires sb.Valid() && |d| == sb.size && used < BPB && d' == d[sb.bmapstart := buf]
    requires forall b :: sb.bmapstart <= b < sb.nmeta ==> Zeroed(d[b])
    requires forall c :: 0 <= c < BPB ==> (Bit(buf[c / 8], c % 8) <==> c < used)
    ensures forall b :: 0 <= b < sb.size ==> (InUse(sb, d', b) <==> b < used)
  {
    forall b | 0 <= b < sb.size
      ensures InUse(sb, d', b) <==> b < used
    {
      if b >= BPB {
        assert sb.bmapstart < sb.BBLOCK(b) < sb.nmeta;
        assert Zeroed(d[sb.BBLOCK(b)]);
        BitOfZero(b % BPB % 8);
      } else {
        assert b % BPB == b;
      }
    }
  }

  lemma ContentSize(d: seq<Block>, ip: Inode)
    ensures |Content(d, ip)| == ip.size
  {
  }

  lemma UsedNext(sb: Super, files: seq<Source>, file: Source)
    ensures BlocksUsed(sb, files + [file]) == sb.nmeta + Need(16 * (|files| + 3)) + NeedAll(files) + Need(|file.bytes|)
    ensures BlocksUsed(sb, files + [file]) >= BlocksUsed(sb, files)
  {
    assert (files + [file])[..|files|] == files;
    NeedGrows(16 * (|files| + 2), 16 * (|files| + 3));
  }

  /** The root directory with one more entry. */
  lemma AppendedRoot(d: seq<Block>, m: seq<Inode>, d': seq<Block>, m': seq<Inode>, files: seq<Source>, e: seq<Byte>)
    requires |files| + 2 <= 0x1_0000 && ROOTINO < |m| && Content(d, m[ROOTINO]) == Entries(files)
    requires Written(d, m, d', m', ROOTINO, m[ROOTINO].size, e)
    ensures ROOTINO < |m'| && Content(d', m'[ROOTINO]) == Entries(files) + e
  {
    hide Content, Entries;
    ContentSize(d, m[ROOTINO]);
    SpliceEnd(Entries(files), e);
  }

  lemma SpliceEnd(c: seq<Byte>, e: seq<Byte>)
    ensures Splice(c, |c|, e) == c + e
  {
  }

  lemma BuiltMore(d: seq<Block>, m: seq<Inode>, d1: seq<Block>, m1: seq<Inode>, d2: seq<Block>, m2: seq<Inode>,
                  files: seq<Source>, file: Source)
    requires Built(d, m, files) && |files| + 2 < |m| <= 0x1_0000
    requires Written(d, m[|files| + 2 := Inode(T_FILE, 1, 0, NoAddrs)], d1, m1, ROOTINO, m[ROOTINO].size,
                     Dirent(|files| + 2, file.name))
    requires Content(d1, m1[ROOTINO]) == Entries(files) + Dirent(|files| + 2, file.name)
    requires Written(d1, m1, d2, m2, |files| + 2, 0, file.bytes)
    ensures Built(d2, m2, files + [file])
  {
    hide Content, Splice, Dirent;
    var all, last := files + [file], |files| + 2;
    assert Entries(all) == Entries(files) + Dirent(last, file.name) by {
      assert all[..|files|] == files;
    }
    WrittenOthers(d, m[last := Inode(T_FILE, 1, 0, NoAddrs)], d1, m1, ROOTINO, m[ROOTINO].size,
                  Dirent(last, file.name));
    WrittenOthers(d1, m1, d2, m2, last, 0, file.bytes);
    ContentSize(d1, m1[last]);
    SpliceEnd([], file.bytes);
    assert Content(d2, m2[last]) == file.bytes;
    hide Written, Entries;
    forall f | 0 <= f < |all|
      ensures IsFile(d2, m2[f + 2], all[f])
    {
      if f < |files| {
        assert IsFile(d, m[f + 2], files[f]);
      }
    }
  }

  /** What a write to file i leaves alone. */
  lemma WrittenOthers(d: seq<Block>, m: seq<Inode>, d': seq<Block>, m': seq<Inode>, i: nat, off: nat, bytes: seq<Byte>)
    requires Written(d, m, d', m', i, off, bytes)
    ensures i < |m'| == |m| && m'[i].typ == m[i].typ && m'[i].nlink == m[i].nlink
    ensures forall j :: 0 <= j < |m| && j != i ==> m'[j] == m[j] && Content(d', m'[j]) == Content(d, m[j])
  {
    hide Content, Splice;
  }

  /** What mkfs can put into an image: no file is too large, the blocks suffice, and one bitmap block
      can mark them. */
  predicate Fits(sb: Super, files: seq<Source>) {
    && 16 * (|files| + 2) <= MAXFILE * BSIZE
    && (forall f :: 0 <= f < |files| ==> |files[f].bytes| <= MAXFILE * BSIZE)
    && BlocksUsed(sb, files) <= sb.size && BlocksUsed(sb, files) < BPB
  }

  /** mkfs. It succeeds just when the files fit. Then every file is there, and the image is a valid file
      system if and only if the directory entries do not fill their blocks exactly (64 to a block): if
      they do, the rounded-up root directory has a hole. */
  method Mkfs(size: nat, ninodes: nat, nlog: nat, files: seq<Source>) returns (ok: bool, img: Image)
    requires Layout(size, ninodes, nlog).Valid() && |files| + 2 <= ninodes <= 0x1_0000
    ensures fresh(img) && img.sb == Layout(size, ninodes, nlog)
    ensures ok <==> Fits(img.sb, files)
    ensures ok ==> && |img.inodes| == ninodes
                   && img.inodes[ROOTINO].typ == T_DIR && img.inodes[ROOTINO].nlink == 1
                   && (forall f :: 0 <= f < |files| ==> IsFile(img.disk, img.inodes[f + 2], files[f]))
                   && (forall i :: 0 <= i < ninodes && (i == 0 || |files| + 2 <= i) ==>
                         img.inodes[i] == Inode(0, 0, 0, NoAddrs))
                   && FreeEmpty(img.inodes)
    ensures ok && (|files| + 2) % 64 != 0 ==>
              && FsValid(img.sb, img.disk, img.inodes, img.owner)
              && Content(img.disk, img.inodes[ROOTINO]) == Entries(files) + Zeros(BSIZE - 16 * (|files| + 2) % BSIZE)
    ensures ok && (|files| + 2) % 64 == 0 ==> forall o :: !FsValid(img.sb, img.disk, img.inodes, o)
  {
    hide Fresh, AllTidy, Need, Entries, Built, BlocksUsed, Zeros, IsFile, FsValid, Content, Zeroed;
    img := new Image(size, ninodes, nlog);
    ok := img.AddAll(files);
    if !ok {
      return;
    }
    ghost var d, m, o, fb := img.disk, img.inodes, img.owner, img.freeblock;
    FreshBitmap(img.sb, d, m, o, fb);
    img.FixRoot();
    ok := img.Balloc(img.freeblock);
    if ok {
      Finished(img.sb, d, m, o, fb, img.disk, img.inodes, files);
      RestFree(img.disk, img.inodes, files);
    }
  }

  /** The inodes that are not the root's or a file's are free, and have no blocks. */
  lemma RestFree(d: seq<Block>, m: seq<Inode>, files: seq<Source>)
    requires |files| + 2 <= |m| && m[ROOTINO].typ == T_DIR
    requires forall f :: 0 <= f < |files| ==> IsFile(d, m[f + 2], files[f])
    requires forall i :: 0 <= i < |m| && (i == 0 || |files| + 2 <= i) ==> m[i] == Inode(0, 0, 0, NoAddrs)
    ensures FreeEmpty(m)
  {
    hide Content;
    forall i | 0 <= i < |m| && m[i].typ == 0
      ensures Empty(m[i])
    {
      if 2 <= i < |files| + 2 {
        assert IsFile(d, m[(i - 2) + 2], files[i - 2]);
      }
    }
  }

  function Zeros(n: nat): seq<Byte> {
    seq(n, _ => 0)
  }

  lemma FreshBitmap(sb: Super, d: seq<Block>, m: seq<Inode>, o: Owner, fb: nat)
    requires Fresh(sb, d, m, o, fb)
    ensures sb.Valid() && |d| == sb.size && fb <= sb.size
    ensures forall b :: sb.bmapstart <= b < sb.nmeta ==> Zeroed(d[b])
  {
    hide Shape, Zeroed;
    assert sb.Valid() && |d| == sb.size by {
      ShapeSizes(sb, d, m, o);
    }
  }

  lemma ShapeSizes(sb: Super, d: seq<Block>, m: seq<Inode>, o: Owner)
    requires Shape(sb, d, m, o)
    ensures sb.Valid() && |d| == sb.size
  {
  }

  lemma {:induction false} UsedGrows(sb: Super, files: seq<Source>, k: nat)
    requires k <= |files|
    ensures BlocksUsed(sb, files[..k]) <= BlocksUsed(sb, files)
    decreases |files| - k
  {
    if k == |files| {
      assert files[..k] == files;
    } else {
      assert files[..k + 1] == files[..k] + [files[k]];
      UsedNext(sb, files[..k], files[k]);
      UsedGrows(sb, files, k + 1);
    }
  }

  /** The rounding of the root directory's size and the bitmap make the image what Mkfs promises. */
  lemma Finished(sb: Super, d: seq<Block>, m: seq<Inode>, o: Owner, fb: nat, d': seq<Block>, m': seq<Inode>,
                 files: seq<Source>)
    requires Fresh(sb, d, m, o, fb) && AllTidy(d, m, |m|, 0, 0) && Built(d, m, files)
    requires |d'| == |d| && forall b :: 0 <= b < sb.size && b != sb.bmapstart ==> d'[b] == d[b]
    requires sb.Valid() && |d'| == sb.size && forall b :: 0 <= b < sb.size ==> (InUse(sb, d', b) <==> b < fb)
    requires m' == m[ROOTINO := m[ROOTINO].(size := (m[ROOTINO].size / BSIZE + 1) * BSIZE)]
    ensures forall f :: 0 <= f < |files| ==> IsFile(d', m'[f + 2], files[f])
    ensures |files| + 2 <= |m| && m'[ROOTINO].typ == T_DIR && m'[ROOTINO].nlink == 1
    ensures (|files| + 2) % 64 != 0 ==>
              && FsValid(sb, d', m', o)
              && Content(d', m'[ROOTINO]) == Entries(files) + Zeros(BSIZE - 16 * (|files| + 2) % BSIZE)
    ensures (|files| + 2) % 64 == 0 ==> forall o :: !FsValid(sb, d', m', o)
  {
    hide Marked, InUse, Zeroed, Zeros, Entries, Fresh, AllTidy, Tidy, Content, Built, IsFile, Shape, SameData;
    BuiltLength(d, m, files);
    FinishedBits(sb, d, m, o, fb, d');
    RootSize(d, m, files);
    FinishedFiles(sb, d, m, o, d', m', files);
    SameDataShape(sb, d, m, o, d');
    SameDataContent(sb, d, m, o, d', ROOTINO);
    SameDataTidy(sb, d, m, o, d', ROOTINO);
    FinishedRoot(sb, d', m, o, m', |files| + 2);
  }

  lemma BuiltLength(d: seq<Block>, m: seq<Inode>, files: seq<Source>)
    requires Built(d, m, files)
    ensures |files| + 2 <= |m|
  {
  }

  /** The root directory of n entries after rounding. */
  lemma FinishedRoot(sb: Super, d: seq<Block>, m: seq<Inode>, o: Owner, m': seq<Inode>, n: nat)
    requires Shape(sb, d, m, o) && ROOTINO < |m| && m[ROOTINO].size == 16 * n
    requires Tidy(d, m[ROOTINO], m[ROOTINO].size, m[ROOTINO].size)
    requires m' == m[ROOTINO := m[ROOTINO].(size := (m[ROOTINO].size / BSIZE + 1) * BSIZE)]
    ensures n % 64 != 0 ==>
              Shape(sb, d, m', o) && Content(d, m'[ROOTINO]) == Content(d, m[ROOTINO]) + Zeros(BSIZE - 16 * n % BSIZE)
    ensures n % 64 == 0 ==> forall o :: !FsValid(sb, d, m', o)
  {
    hide Content, Zeros, Tidy, Shape, FsValid, Mapped;
    PadBytes(n);
    if n % 64 != 0 {
      RootRounded(sb, d, m, o, ROOTINO);
    } else {
      RootHole(d, m[ROOTINO]);
      forall o
        ensures !FsValid(sb, d, m', o)
      {
        ValidMapped(sb, d, m', o, ROOTINO);
      }
    }
  }

  lemma ValidMapped(sb: Super, d: seq<Block>, m: seq<Inode>, o: Owner, i: nat)
    requires i < |m|
    ensures FsValid(sb, d, m, o) ==> Mapped(d, m[i], m[i].size)
  {
    hide Owned, Marked, Mapped;
  }

  lemma PadBytes(n: nat)
    ensures BSIZE - 16 * n % BSIZE == 16 * (64 - n % 64)
  {
    assert 16 * n == BSIZE * (n / 64) + 16 * (n % 64);
    Remainder(16 * n, n / 64, 16 * (n % 64));
  }

  lemma Remainder(x: nat, q: nat, r: nat)
    requires x == BSIZE * q + r && r < BSIZE
    ensures x % BSIZE == r
  {
  }

  lemma FinishedBits(sb: Super, d: seq<Block>, m: seq<Inode>, o: Owner, fb: nat, d': seq<Block>)
    requires Fresh(sb, d, m, o, fb)
    requires |d'| == |d| && forall b :: 0 <= b < sb.size && b != sb.bmapstart ==> d'[b] == d[b]
    requires sb.Valid() && |d'| == sb.size && forall b :: 0 <= b < sb.size ==> (InUse(sb, d', b) <==> b < fb)
    ensures Shape(sb, d, m, o) && SameData(sb, d, d') && Marked(sb, d', o.Keys)
  {
    hide InUse, Shape, Zeroed;
  }

  lemma RootSize(d: seq<Block>, m: seq<Inode>, files: seq<Source>)
    requires Built(d, m, files)
    ensures m[ROOTINO].size == 16 * (|files| + 2) && Content(d, m[ROOTINO]) == Entries(files)
    ensures m[ROOTINO].typ == T_DIR && m[ROOTINO].nlink == 1
  {
    hide Content;
    ContentSize(d, m[ROOTINO]);
  }

  lemma FinishedFiles(sb: Super, d: seq<Block>, m: seq<Inode>, o: Owner, d': seq<Block>, m': seq<Inode>,
                      files: seq<Source>)
    requires Shape(sb, d, m, o) && SameData(sb, d, d') && Built(d, m, files)
    requires |m'| == |m| && forall j :: 0 <= j < |m| && j != ROOTINO ==> m'[j] == m[j]
    ensures forall f :: 0 <= f < |files| ==> IsFile(d', m'[f + 2], files[f])
  {
    hide Shape, SameData, Content, Entries;
    forall f | 0 <= f < |files|
      ensures IsFile(d', m'[f + 2], files[f])
    {
      assert IsFile(d, m[f + 2], files[f]);
      SameDataContent(sb, d, m, o, d', f + 2);
    }
  }

  lemma SameDataTidy(sb: Super, d: seq<Block>, m: seq<Inode>, o: Owner, d': seq<Block>, j: nat)
    requires Shape(sb, d, m, o) && SameData(sb, d, d') && j < |m| && AllTidy(d, m, |m|, 0, 0)
    ensures Tidy(d', m[j], m[j].size, m[j].size)
  {
    hide Shape, Ref;
    assert Tidy(d, m[j], m[j].size, m[j].size);
    forall t | 0 <= t <= IND
      ensures Ref(d', m[j], t) == Ref(d, m[j], t)
    {
      SameDataRefs(sb, d, m, o, d', j, t);
    }
    forall k: nat | k >= m[j].size && k / BSIZE < MAXFILE && Ref(d', m[j], k / BSIZE) != 0
      ensures ByteAt(d', m[j], k) == 0
    {
      SameDataByte(sb, d, m, o, d', j, k);
    }
  }

  /** Rounding up a size that is inside a block: the rest of the block is zeros. */
  lemma RootRounded(sb: Super, d: seq<Block>, m: seq<Inode>, o: Owner, i: nat)
    requires Shape(sb, d, m, o) && i < |m| && Tidy(d, m[i], m[i].size, m[i].size) && m[i].size % BSIZE != 0
    ensures var ip := m[i].(size := (m[i].size / BSIZE + 1) * BSIZE);
            && Shape(sb, d, m[i := ip], o)
            && Content(d, ip) == Content(d, m[i]) + Zeros(BSIZE - m[i].size % BSIZE)
  {
    hide Shape, Mapped;
    var ip := m[i].(size := (m[i].size / BSIZE + 1) * BSIZE);
    RoundedMapped(sb, d, m, o, i);
    Resized(sb, d, m, o, i, ip.size);
    var all := Content(d, m[i]) + Zeros(BSIZE - m[i].size % BSIZE);
    assert |all| == ip.size;
    forall k | 0 <= k < ip.size
      ensures Content(d, ip)[k] == all[k]
    {
      MappedAt(d, m[i], ip.size, k);
      SizeFreeByte(d, m[i], ip.size, k);
    }
  }

  lemma RoundedMapped(sb: Super, d: seq<Block>, m: seq<Inode>, o: Owner, i: nat)
    requires Shape(sb, d, m, o) && i < |m| && m[i].size % BSIZE != 0
    ensures Mapped(d, m[i], (m[i].size / BSIZE + 1) * BSIZE)
  {
    hide Owned;
    assert Mapped(d, m[i], m[i].size);
  }

  /** Rounding up a size at the end of a block: the next block is missing. */
  lemma RootHole(d: seq<Block>, ip: Inode)
    requires Tidy(d, ip, ip.size, ip.size) && ip.size % BSIZE == 0
    ensures !Mapped(d, ip.(size := (ip.size / BSIZE + 1) * BSIZE), (ip.size / BSIZE + 1) * BSIZE)
  {
    var bn := ip.size / BSIZE;
    var ip' := ip.(size := (bn + 1) * BSIZE);
    if bn < MAXFILE {
      assert Ref(d, ip', bn) == Ref(d, ip, bn) == 0;
    }
  }

  lemma FreshRange(sb: Super, d: seq<Block>, m: seq<Inode>, o: Owner, fb: nat)
    requires Fresh(sb, d, m, o, fb)
    ensures fb <= sb.size
  {
  }

  lemma NeedNothing()
    ensures Need(0) == 0
  {
  }

  lemma WrittenSize(d0: seq<Block>, m0: seq<Inode>, d: seq<Block>, m: seq<Inode>, i: nat, bytes: seq<Byte>)
    requires Written(d0, m0, d, m, i, 0, bytes) && m0[i].size == 0
    ensures i < |m| && m[i].size == |bytes|
  {
    assert |Content(d, m[i])| == m[i].size;
  }

  lemma RetypedTidy(d: seq<Block>, m: seq<Inode>, i: nat, ip: Inode)
    requires AllTidy(d, m, |m|, 0, 0) && i < |m| && m[i].addrs == ip.addrs == NoAddrs && m[i].size == ip.size == 0
    ensures AllTidy(d, m[i := ip], |m|, 0, 0)
  {
    assert Tidy(d, ip, 0, 0);
  }

  /** Where an append to file i starts. */
  lemma FreshSize(sb: Super, d: seq<Block>, m: seq<Inode>, o: Owner, fb: nat, i: nat, bytes: seq<Byte>)
    requires Fresh(sb, d, m, o, fb) && i < |m|
    ensures m[i].size <= MAXFILE * BSIZE && fb <= sb.size && Writing(d, m, d, m, i, m[i].size, bytes, 0)
  {
    hide Zeroed, Writing;
    assert Mapped(d, m[i], m[i].size);
    hide Mapped;
    WritingStart(sb, d, m, o, i, m[i].size, bytes);
  }

  lemma FreshLimit(sb: Super, d: seq<Block>, m: seq<Inode>, o: Owner, fb: nat)
    requires Fresh(sb, d, m, o, fb)
    ensures 0 < fb <= sb.size && Shape(sb, d, m, o) && |d| == sb.size
  {
  }

  lemma AppendLimit(d0: seq<Block>, m0: seq<Inode>, d: seq<Block>, m: seq<Inode>, i: nat, off: nat, bytes: seq<Byte>,
                    tot: nat)
    requires Writing(d0, m0, d, m, i, off, bytes, tot)
    ensures off + tot <= MAXFILE * BSIZE
  {
  }

  lemma OneTidy(d: seq<Block>, m: seq<Inode>, i: nat)
    requires i < |m| && AllTidy(d, m, |m|, 0, 0)
    ensures AllTidy(d, m, i, m[i].size, m[i].size)
  {
  }

  lemma NeedSame(cur: nat, n: nat)
    requires 0 < n <= BSIZE - cur % BSIZE
    ensures Need(cur + n) == Need(cur + 1)
  {
    assert (cur + n + BSIZE - 1) / BSIZE == cur / BSIZE + 1;
  }

  lemma NeedGrows(a: nat, b: nat)
    requires a <= b
    ensures Need(a) <= Need(b)
  {
  }

  /** Setting the size completes an append. */
  lemma AppendDone(sb: Super, d0: seq<Block>, m0: seq<Inode>, d: seq<Block>, m: seq<Inode>, o: Owner, fb: nat,
                   i: nat, off: nat, bytes: seq<Byte>)
    requires Fresh(sb, d, m, o, fb) && i < |m0| && off == m0[i].size && AllTidy(d, m, i, off + |bytes|, off + |bytes|)
    requires Writing(d0, m0, d, m, i, off, bytes, |bytes|)
    ensures i < |m| == |m0|
    ensures var m' := m[i := m[i].(size := off + |bytes|)];
            && Fresh(sb, d, m', o, fb) && AllTidy(d, m', |m'|, 0, 0)
            && Written(d0, m0, d, m', i, off, bytes)
            && forall j :: 0 <= j < |m| && j != i ==> m'[j] == m0[j]
  {
    hide Shape, Written, Writing, Zeroed, Tidy;
    WritingDone(sb, d0, m0, d, m, o, i, off, bytes, |bytes|);
    WritingOthers(d0, m0, d, m, i, off, bytes, |bytes|);
    assert bytes[..|bytes|] == bytes;
    var m' := m[i := m[i].(size := off + |bytes|)];
    assert m[i].size == off ==> (bytes == [] ==> m' == m);
    SizedTidy(d, m[i], off + |bytes|);
  }

  lemma WritingOthers(d0: seq<Block>, m0: seq<Inode>, d: seq<Block>, m: seq<Inode>, i: nat, off: nat,
                      bytes: seq<Byte>, tot: nat)
    requires Writing(d0, m0, d, m, i, off, bytes, tot)
    ensures i < |m| == |m0| && m[i].size == m0[i].size && forall j :: 0 <= j < |m| && j != i ==> m[j] == m0[j]
  {
  }

  lemma SizedTidy(d: seq<Block>, ip: Inode, size: nat)
    requires Tidy(d, ip, size, size)
    ensures Tidy(d, ip.(size := size), size, size)
  {
    var ip' := ip.(size := size);
    forall t | 0 <= t <= IND
      ensures Ref(d, ip', t) == Ref(d, ip, t)
    {
    }
    forall k: nat | k >= size && k / BSIZE < MAXFILE && Ref(d, ip', k / BSIZE) != 0
      ensures ByteAt(d, ip', k) == 0
    {
      SizeFreeByte(d, ip, size, k);
    }
  }

  /** Storing a piece at cur into its block. */
  lemma StoredTidy(sb: Super, d: seq<Block>, m: seq<Inode>, o: Owner, fb: nat, i: nat, cur: nat, piece: seq<Byte>)
    requires Fresh(sb, d, m, o, fb) && i < |m| && AllTidy(d, m, i, cur + 1, cur)
    requires cur < MAXFILE * BSIZE && Ref(d, m[i], cur / BSIZE) != 0 && 0 < |piece| <= BSIZE - cur % BSIZE
    ensures Ref(d, m[i], cur / BSIZE) < |d|
    ensures var a := Ref(d, m[i], cur / BSIZE);
            var d' := d[a := Patch(d[a], cur % BSIZE, piece)];
            Fresh(sb, d', m, o, fb) && AllTidy(d', m, i, cur + |piece|, cur + |piece|)
  {
    var a := Ref(d, m[i], cur / BSIZE);
    assert a in o;
    var data := Patch(d[a], cur % BSIZE, piece);
    var d' := d[a := data];
    StoreBlock(sb, d, m, o, i, cur / BSIZE, data);
    forall j | 0 <= j < |m|
      ensures if j == i then Tidy(d', m[j], cur + |piece|, cur + |piece|) else Tidy(d', m[j], m[j].size, m[j].size)
    {
      StoredTidyOne(sb, d, m, o, i, cur, piece, j);
    }
  }

  lemma StoredTidyOne(sb: Super, d: seq<Block>, m: seq<Inode>, o: Owner, i: nat, cur: nat, piece: seq<Byte>, j: nat)
    requires Shape(sb, d, m, o) && i < |m| && AllTidy(d, m, i, cur + 1, cur) && j < |m|
    requires cur < MAXFILE * BSIZE && 0 < Ref(d, m[i], cur / BSIZE) < |d| && 0 < |piece| <= BSIZE - cur % BSIZE
    ensures var d' := d[Ref(d, m[i], cur / BSIZE) := Patch(d[Ref(d, m[i], cur / BSIZE)], cur % BSIZE, piece)];
            if j == i then Tidy(d', m[j], cur + |piece|, cur + |piece|) else Tidy(d', m[j], m[j].size, m[j].size)
  {
    hide Shape, Patch;
    var a := Ref(d, m[i], cur / BSIZE);
    var data := Patch(d[a], cur % BSIZE, piece);
    var d' := d[a := data];
    StoreBlock(sb, d, m, o, i, cur / BSIZE, data);
    var end := if j == i then cur + |piece| else m[j].size;
    forall k: nat | k >= end && k / BSIZE < MAXFILE && Ref(d', m[j], k / BSIZE) != 0
      ensures ByteAt(d', m[j], k) == 0
    {
      StoreByte(sb, d, m, o, i, cur / BSIZE, data, j, k);
      if j == i && k / BSIZE == cur / BSIZE {
        PatchByte(d[a], cur, piece, k);
        assert ByteAt(d, m[i], k) == d[a][k % BSIZE];
      }
    }
    if j == i {
      forall bn | 0 <= bn < MAXFILE
        ensures Ref(d', m[i], bn) != 0 <==> bn * BSIZE < end
      {
        assert Ref(d, m[i], bn) != 0 <==> bn * BSIZE < cur + 1;
      }
    } else {
      assert Tidy(d, m[j], m[j].size, m[j].size);
      forall bn | 0 <= bn < MAXFILE
        ensures Ref(d', m[j], bn) != 0 <==> bn * BSIZE < end
      {
        assert Ref(d', m[j], bn) == Ref(d, m[j], bn);
      }
    }
  }

  /** Of inode i's data slots only the one of offset cur may have changed, from empty to a zeroed
      block; it holds x. */
  ghost predicate Onto(d: seq<Block>, m: seq<Inode>, o: Owner, d': seq<Block>, m': seq<Inode>, o': Owner, i: nat,
                       cur: nat, x: nat)
    requires i < |m|
  {
    && Grown(d, m, o, d', m', o', i) && x != 0
    && (forall t :: 0 <= t < IND ==> Ref(d', m'[i], t) == if t == cur / BSIZE then x else Ref(d, m[i], t))
    && (Ref(d', m'[i], IND) != 0 <==> cur + 1 > NDIRECT * BSIZE)
    && (cur / BSIZE < IND && Ref(d, m[i], cur / BSIZE) == 0 ==> x < |d'| && Zeroed(d'[x]))
  }

  /** Slot (i, s) has got the untouched block b. */
  ghost predicate Taken(d: seq<Block>, m: seq<Inode>, o: Owner, d': seq<Block>, m': seq<Inode>, o': Owner, i: nat,
                        s: nat, b: nat) {
    && OnlySlot(d, m, d', m', i, s, b)
    && Grown(d, m, o, d', m', o', i)
    && b < |d'| && Zeroed(d'[b])
  }

  lemma NeedStep(cur: nat)
    ensures Need(cur + 1) == Need(cur) + (if cur % BSIZE == 0 then 1 else 0) + (if cur == NDIRECT * BSIZE then 1 else 0)
  {
  }

  lemma TidyAt(d: seq<Block>, m: seq<Inode>, i: nat, cur: nat)
    requires AllTidy(d, m, i, cur, cur) && i < |m| && cur < MAXFILE * BSIZE
    ensures Tidy(d, m[i], cur, cur)
    ensures Ref(d, m[i], cur / BSIZE) != 0 <==> cur % BSIZE != 0
    ensures Ref(d, m[i], IND) != 0 <==> cur > NDIRECT * BSIZE
  {
    assert cur / BSIZE * BSIZE < cur <==> cur % BSIZE != 0;
  }

  lemma FreshAt(sb: Super, d: seq<Block>, m: seq<Inode>, o: Owner, fb: nat)
    requires Fresh(sb, d, m, o, fb) && fb < sb.size
    ensures |d| == sb.size < 0x1_0000_0000 && Zeroed(d[fb])
  {
  }

  lemma IndirectInRange(sb: Super, d: seq<Block>, m: seq<Inode>, o: Owner, fb: nat, i: nat)
    requires Fresh(sb, d, m, o, fb) && i < |m|
    ensures m[i].addrs[NDIRECT] == Ref(d, m[i], IND) < |d|
  {
    RefInRange(sb, d, m, o, i, IND);
  }

  lemma MapAllTidy(sb: Super, d: seq<Block>, m: seq<Inode>, o: Owner, d': seq<Block>, m': seq<Inode>, o': Owner,
                   fb': nat,
                   i: nat, cur: nat, x: nat)
    requires Shape(sb, d, m, o) && Fresh(sb, d', m', o', fb')
    requires i < |m| && cur < MAXFILE * BSIZE && AllTidy(d, m, i, cur, cur) && Onto(d, m, o, d', m', o', i, cur, x)
    ensures AllTidy(d', m', i, cur + 1, cur)
  {
    hide Shape, Tidy, Grown, Ref;
    GrownLength(d, m, o, d', m', o', i);
    RefInRange(sb, d', m', o', i, cur / BSIZE);
    forall j | 0 <= j < |m'|
      ensures if j == i then Tidy(d', m'[j], cur + 1, cur) else Tidy(d', m'[j], m'[j].size, m'[j].size)
    {
      if j == i {
        MapTidy(sb, d, m, o, d', m', o', i, cur, x);
      } else {
        GrownTidy(sb, d, m, o, d', m', o', i, j);
      }
    }
  }

  lemma GrownLength(d: seq<Block>, m: seq<Inode>, o: Owner, d': seq<Block>, m': seq<Inode>, o': Owner, i: nat)
    requires Grown(d, m, o, d', m', o', i)
    ensures |m'| == |m| && |d'| == |d|
  {
  }

  lemma {:induction false} NoBytesNeeded(files: seq<Source>)
    requires forall f :: 0 <= f < |files| ==> files[f].bytes == []
    ensures NeedAll(files) == 0
  {
    if files != [] {
      NoBytesNeeded(files[..|files| - 1]);
      NeedNothing();
    }
  }

  /** Such an input: 62 files and the two entries for itself fill one block of the root directory. mkfs with
      its usual sizes succeeds, and leaves a hole. */
  method HoleyImage() returns (img: Image)
    ensures forall o :: !FsValid(img.sb, img.disk, img.inodes, o)
  {
    hide FsValid, NeedAll, IsFile, FreeEmpty, Content;
    var files := seq(62, k requires 0 <= k < 62 => Source([k + 65], []));
    NoBytesNeeded(files);
    assert Need(16 * 64) == 1;
    assert Fits(Layout(2000, 200, 30), files);
    var ok;
    ok, img := Mkfs(2000, 200, 30, files);
  }
}
