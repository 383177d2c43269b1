/** Which block belongs to which slot of which inode. */
module FsOwner {
  import opened Blocks
  import opened FsLayout

  type Addrs = s: seq<Word> | |s| == NDIRECT + 1 witness seq(NDIRECT + 1, _ => 0)

  /** The fields of an inode that live on disk (device numbers apart). */
  datatype Inode = Inode(typ: int, nlink: int, size: nat, addrs: Addrs)

  const NoAddrs: Addrs := [0, 0, 0, 0, 0, 0, 0, 0, 0, 0, 0, 0, 0]

  /** The slots of an inode: its data blocks by file block number, then its indirect block. */
  const IND: nat := MAXFILE

  datatype Slot = Slot(inum: nat, s: nat)

  /** The block in a slot, or 0. */
  function Ref(disk: seq<Block>, ip: Inode, s: nat): Word
    requires s <= IND
  {
    if s < NDIRECT then ip.addrs[s]
    else if s == IND then ip.addrs[NDIRECT]
    else if ip.addrs[NDIRECT] == 0 || ip.addrs[NDIRECT] >= |disk| then 0
    else WordAt(disk[ip.addrs[NDIRECT]], s - NDIRECT)
  }

  type Owner = map<int, Slot>

  ghost predicate SlotHas(disk: seq<Block>, inodes: seq<Inode>, slot: Slot, b: nat) {
    slot.inum < |inodes| && slot.s <= IND && Ref(disk, inodes[slot.inum], slot.s) == b
  }

  /** `owner` tells for every referenced block the one slot that refers to it; all referenced
      blocks are data blocks. */
  ghost predicate Owned(sb: Super, disk: seq<Block>, inodes: seq<Inode>, owner: Owner) {
    && (forall i, s :: 0 <= i < |inodes| && 0 <= s <= IND && Ref(disk, inodes[i], s) != 0 ==>
          Ref(disk, inodes[i], s) in owner && owner[Ref(disk, inodes[i], s)] == Slot(i, s))
    && (forall b :: b in owner ==> sb.nmeta <= b < sb.size && SlotHas(disk, inodes, owner[b], b))
  }

  /** The bitmap marks the metadata blocks and exactly the given data blocks. */
  ghost predicate Marked(sb: Super, disk: seq<Block>, blocks: set<int>) {
    && sb.Valid() && |disk| == sb.size
    && forall b :: 0 <= b < sb.size ==> (InUse(sb, disk, b) <==> b < sb.nmeta || b in blocks)
  }

  /** No block is referenced from two slots. */
  lemma NotTwice(sb: Super, disk: seq<Block>, inodes: seq<Inode>, owner: Owner, a: Slot, b: Slot, bn: nat)
    requires Owned(sb, disk, inodes, owner) && bn != 0
    requires SlotHas(disk, inodes, a, bn) && SlotHas(disk, inodes, b, bn)
    ensures a == b
  {
    assert Ref(disk, inodes[a.inum], a.s) == bn && Ref(disk, inodes[b.inum], b.s) == bn;
  }

  /** Owned blocks are data blocks. */
  lemma OwnedData(sb: Super, disk: seq<Block>, inodes: seq<Inode>, owner: Owner)
    requires Owned(sb, disk, inodes, owner)
    ensures forall b :: b in owner ==> sb.nmeta <= b < sb.size
  {
  }

  lemma IndirectOwned(sb: Super, disk: seq<Block>, inodes: seq<Inode>, owner: Owner, i: nat)
    requires Owned(sb, disk, inodes, owner) && i < |inodes| && Ref(disk, inodes[i], IND) != 0
    ensures var ind := inodes[i].addrs[NDIRECT];
            ind == Ref(disk, inodes[i], IND) && ind in owner && owner[ind] == Slot(i, IND) && sb.nmeta <= ind < sb.size
  {
  }

  /** Two disks agree on the blocks of a set. */
  ghost predicate Agree(a: seq<Block>, b: seq<Block>, blocks: set<int>) {
    |a| == |b| && forall x :: x in blocks && 0 <= x < |a| ==> a[x] == b[x]
  }

  /** The slots of one inode after a direct pointer or the indirect pointer is set. */
  lemma RefsAfterPointer(disk: seq<Block>, disk': seq<Block>, ip: Inode, s: nat, b: Word, t: nat)
    requires s < NDIRECT || s == IND
    requires t <= IND && |disk'| == |disk| && b < |disk|
    requires s < NDIRECT && 0 < ip.addrs[NDIRECT] < |disk| ==> disk'[ip.addrs[NDIRECT]] == disk[ip.addrs[NDIRECT]]
    requires s == IND ==> ip.addrs[NDIRECT] == 0 && disk'[b] == ZeroBlock
    ensures var ip' := ip.(addrs := ip.addrs[if s == IND then NDIRECT else s := b]);
            Ref(disk', ip', t) == if t == s then b else Ref(disk, ip, t)
  {
    if s == IND && NDIRECT <= t < IND {
      ZeroWord(t - NDIRECT);
    }
  }

  /** ... and after a word of its indirect block is set. */
  lemma RefsAfterWord(disk: seq<Block>, disk': seq<Block>, ip: Inode, s: nat, b: Word, t: nat)
    requires NDIRECT <= s < IND && t <= IND && |disk'| == |disk|
    requires 0 < ip.addrs[NDIRECT] < |disk|
    requires disk'[ip.addrs[NDIRECT]] == WithWord(disk[ip.addrs[NDIRECT]], s - NDIRECT, b)
    ensures Ref(disk', ip, t) == if t == s then b else Ref(disk, ip, t)
  {
    if NDIRECT <= t < IND {
      WordAfterStore(disk[ip.addrs[NDIRECT]], s - NDIRECT, b, t - NDIRECT);
    }
  }

  /** An inode whose indirect block is untouched keeps its slots. */
  lemma RefsKept(disk: seq<Block>, disk': seq<Block>, ip: Inode, t: nat)
    requires t <= IND && |disk'| == |disk|
    requires 0 < ip.addrs[NDIRECT] < |disk| ==> disk'[ip.addrs[NDIRECT]] == disk[ip.addrs[NDIRECT]]
    ensures Ref(disk', ip, t) == Ref(disk, ip, t)
  {
  }

  /** Every slot keeps its block, except slot (i, s), which gets b. */
  ghost predicate OnlySlot(disk: seq<Block>, inodes: seq<Inode>, disk': seq<Block>, inodes': seq<Inode>, i: nat,
                           s: nat, b: nat) {
    && |inodes'| == |inodes|
    && forall j, t :: 0 <= j < |inodes| && 0 <= t <= IND ==>
         Ref(disk', inodes'[j], t) == if j == i && t == s then b else Ref(disk, inodes[j], t)
  }

  /** A block nobody owned becomes the block of an empty slot. */
  lemma OwnerAdd(sb: Super, disk: seq<Block>, inodes: seq<Inode>, owner: Owner,
                 disk': seq<Block>, inodes': seq<Inode>, i: nat, s: nat, b: nat)
    requires Owned(sb, disk, inodes, owner) && i < |inodes| && s <= IND
    requires b !in owner && sb.nmeta <= b < sb.size && 0 < sb.nmeta
    requires Ref(disk, inodes[i], s) == 0
    requires OnlySlot(disk, inodes, disk', inodes', i, s, b)
    ensures Owned(sb, disk', inodes', owner[b := Slot(i, s)])
  {
    var owner' := owner[b := Slot(i, s)];
    forall c | c in owner'
      ensures sb.nmeta <= c < sb.size && SlotHas(disk', inodes', owner'[c], c)
    {
      if c != b {
        assert SlotHas(disk, inodes, owner[c], c);
      }
    }
  }

  /** Setting a pointer of one inode, with every owned block untouched. */
  lemma PointerSet(sb: Super, disk: seq<Block>, inodes: seq<Inode>, owner: Owner,
                   disk': seq<Block>, i: nat, s: nat, b: Word)
    requires Owned(sb, disk, inodes, owner) && i < |inodes| && |disk| == sb.size && 0 < sb.nmeta
    requires b !in owner && sb.nmeta <= b < sb.size
    requires |disk'| == |disk| && Agree(disk', disk, owner.Keys)
    requires s < NDIRECT || (s == IND && disk'[b] == ZeroBlock)
    requires Ref(disk, inodes[i], s) == 0
    ensures var inodes' := inodes[i := inodes[i].(addrs := inodes[i].addrs[if s == IND then NDIRECT else s := b])];
            OnlySlot(disk, inodes, disk', inodes', i, s, b)
            && Owned(sb, disk', inodes', owner[b := Slot(i, s)])
  {
    var inodes' := inodes[i := inodes[i].(addrs := inodes[i].addrs[if s == IND then NDIRECT else s := b])];
    forall j, t | 0 <= j < |inodes| && 0 <= t <= IND
      ensures Ref(disk', inodes'[j], t) == if j == i && t == s then b else Ref(disk, inodes[j], t)
    {
      assert Ref(disk, inodes[j], IND) == inodes[j].addrs[NDIRECT];
      if j == i {
        RefsAfterPointer(disk, disk', inodes[i], s, b, t);
      } else {
        RefsKept(disk, disk', inodes[j], t);
      }
    }
    OwnerAdd(sb, disk, inodes, owner, disk', inodes', i, s, b);
  }

  /** Setting a word of one inode's indirect block, with every other owned block untouched. */
  lemma WordSet(sb: Super, disk: seq<Block>, inodes: seq<Inode>, owner: Owner,
                disk': seq<Block>, i: nat, s: nat, b: Word)
    requires Owned(sb, disk, inodes, owner) && i < |inodes| && |disk| == sb.size && 0 < sb.nmeta
    requires NDIRECT <= s < IND && 0 < inodes[i].addrs[NDIRECT] < |disk|
    requires b !in owner && sb.nmeta <= b < sb.size && Ref(disk, inodes[i], s) == 0
    requires |disk'| == |disk| && Agree(disk', disk, owner.Keys - {inodes[i].addrs[NDIRECT]})
    requires disk'[inodes[i].addrs[NDIRECT]] == WithWord(disk[inodes[i].addrs[NDIRECT]], s - NDIRECT, b)
    ensures OnlySlot(disk, inodes, disk', inodes, i, s, b)
    ensures Owned(sb, disk', inodes, owner[b := Slot(i, s)])
  {
    assert Ref(disk, inodes[i], IND) == inodes[i].addrs[NDIRECT];
    forall j, t | 0 <= j < |inodes| && 0 <= t <= IND
      ensures Ref(disk', inodes[j], t) == if j == i && t == s then b else Ref(disk, inodes[j], t)
    {
      assert Ref(disk, inodes[j], IND) == inodes[j].addrs[NDIRECT];
      if j == i {
        RefsAfterWord(disk, disk', inodes[i], s, b, t);
      } else {
        RefsKept(disk, disk', inodes[j], t);
      }
    }
    OwnerAdd(sb, disk, inodes, owner, disk', inodes, i, s, b);
  }

  // ---- file contents

  /** The byte at offset k of a file (0 where the file cannot have one). */
  function ByteAt(disk: seq<Block>, ip: Inode, k: nat): Byte {
    if k / BSIZE < MAXFILE && Ref(disk, ip, k / BSIZE) < |disk|
    then disk[Ref(disk, ip, k / BSIZE)][k % BSIZE] else 0
  }

  /** The file as a byte string. */
  function Content(disk: seq<Block>, ip: Inode): (s: seq<Byte>)
    ensures |s| == ip.size
  {
    seq(ip.size, k requires 0 <= k => ByteAt(disk, ip, k))
  }

  /** Every block below an offset is mapped. */
  ghost predicate Mapped(disk: seq<Block>, ip: Inode, end: nat) {
    end <= MAXFILE * BSIZE && forall bn :: 0 <= bn < MAXFILE && bn * BSIZE < end ==> Ref(disk, ip, bn) != 0
  }

  /** Every block has at most one owner, and no file has holes below its size. */
  ghost predicate Shape(sb: Super, disk: seq<Block>, inodes: seq<Inode>, owner: Owner) {
    && sb.Valid() && |disk| == sb.size && |inodes| == sb.ninodes
    && Owned(sb, disk, inodes, owner)
    && forall i :: 0 <= i < |inodes| ==> Mapped(disk, inodes[i], inodes[i].size)
  }

  /** The file system's invariant: ownership, no holes, and a bitmap that says so. */
  ghost predicate FsValid(sb: Super, disk: seq<Block>, inodes: seq<Inode>, owner: Owner) {
    Shape(sb, disk, inodes, owner) && Marked(sb, disk, owner.Keys)
  }

  /** The bitmap is exact: a block is marked just when it is metadata or some inode refers to it. */
  lemma BitmapExact(sb: Super, disk: seq<Block>, inodes: seq<Inode>, owner: Owner, b: nat)
    requires FsValid(sb, disk, inodes, owner) && b < sb.size
    ensures InUse(sb, disk, b) <==> b < sb.nmeta || exists slot :: SlotHas(disk, inodes, slot, b)
  {
    if b in owner {
      assert SlotHas(disk, inodes, owner[b], b);
    }
    if slot :| SlotHas(disk, inodes, slot, b) && b >= sb.nmeta {
      assert Ref(disk, inodes[slot.inum], slot.s) == b;
    }
  }

  /** Writes outside the bitmap leave it alone. */
  lemma MarkedKept(sb: Super, disk: seq<Block>, disk': seq<Block>, blocks: set<int>)
    requires Marked(sb, disk, blocks) && |disk'| == |disk|
    requires forall c :: sb.bmapstart <= c < sb.nmeta ==> disk'[c] == disk[c]
    ensures Marked(sb, disk', blocks)
  {
    hide InUse;
    BitsKept(sb, disk, disk');
  }

  /** Slots may have been filled, all of inode i; nothing else about any file changed. */
  ghost predicate Grown(disk: seq<Block>, inodes: seq<Inode>, owner: Owner,
                        disk': seq<Block>, inodes': seq<Inode>, owner': Owner, i: nat) {
    && |inodes'| == |inodes| && |disk'| == |disk|
    && (forall j :: 0 <= j < |inodes| ==> inodes'[j] == inodes[j].(addrs := inodes'[j].addrs))
    && (forall j, t :: 0 <= j < |inodes| && 0 <= t <= IND && (j != i || Ref(disk, inodes[j], t) != 0) ==>
          Ref(disk', inodes'[j], t) == Ref(disk, inodes[j], t))
    && (forall b :: b in owner ==>
          b in owner' && owner'[b] == owner[b] && (owner[b].s != IND && 0 <= b < |disk| ==> disk'[b] == disk[b]))
  }

  lemma GrownSelf(disk: seq<Block>, inodes: seq<Inode>, owner: Owner, i: nat)
    ensures Grown(disk, inodes, owner, disk, inodes, owner, i)
  {
  }

  lemma GrownTwice(disk: seq<Block>, inodes: seq<Inode>, owner: Owner,
                   disk1: seq<Block>, inodes1: seq<Inode>, owner1: Owner,
                   disk2: seq<Block>, inodes2: seq<Inode>, owner2: Owner, i: nat)
    requires Grown(disk, inodes, owner, disk1, inodes1, owner1, i)
    requires Grown(disk1, inodes1, owner1, disk2, inodes2, owner2, i)
    ensures Grown(disk, inodes, owner, disk2, inodes2, owner2, i)
  {
    forall j, t | 0 <= j < |inodes| && 0 <= t <= IND && (j != i || Ref(disk, inodes[j], t) != 0)
      ensures Ref(disk2, inodes2[j], t) == Ref(disk, inodes[j], t)
    {
      assert Ref(disk1, inodes1[j], t) == Ref(disk, inodes[j], t);
    }
  }

  /** Growing leaves every mapped byte of every file alone. */
  lemma GrownByte(sb: Super, disk: seq<Block>, inodes: seq<Inode>, owner: Owner,
                  disk': seq<Block>, inodes': seq<Inode>, owner': Owner, i: nat, j: nat, k: nat)
    requires Owned(sb, disk, inodes, owner) && |disk| == sb.size
    requires Grown(disk, inodes, owner, disk', inodes', owner', i)
    requires j < |inodes| && k / BSIZE < MAXFILE && Ref(disk, inodes[j], k / BSIZE) != 0
    ensures ByteAt(disk', inodes'[j], k) == ByteAt(disk, inodes[j], k)
  {
    var b := Ref(disk, inodes[j], k / BSIZE);
    assert b in owner && owner[b] == Slot(j, k / BSIZE);
  }

  lemma GrownMapped(disk: seq<Block>, inodes: seq<Inode>, owner: Owner,
                    disk': seq<Block>, inodes': seq<Inode>, owner': Owner, i: nat, j: nat, end: nat)
    requires Grown(disk, inodes, owner, disk', inodes', owner', i)
    requires j < |inodes| && Mapped(disk, inodes[j], end)
    ensures Mapped(disk', inodes'[j], end)
  {
    forall bn | 0 <= bn < MAXFILE && bn * BSIZE < end
      ensures Ref(disk', inodes'[j], bn) != 0
    {
      assert Ref(disk, inodes[j], bn) != 0;
    }
  }
}
