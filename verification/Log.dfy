/** The log of kernel/log.c over the buffer cache. The ghost journal `bc.writes` records every
    block write, so that a crash between two writes is a prefix of the journal. A method that
    returns false has hit the cache's "no buffers" panic and the machine has stopped. */
module Log {
  import opened Blocks
  import opened Common
  import opened Bio
  import opened LogSpec
  import LogCrash

  function Elems(s: seq<nat>): set<nat> {
    set bn | bn in s
  }

  predicate PinnedBlock(bn: nat, bufs: seq<Buf>, pins: seq<nat>, index: map<nat, nat>) {
    bn in index && index[bn] < |bufs| == |pins|
    && Holds(bufs[index[bn]], bn) && bufs[index[bn]].valid && pins[index[bn]] == 1
  }

  predicate HeldBlock(bn: nat, bufs: seq<Buf>, index: map<nat, nat>) {
    bn in index && index[bn] < |bufs| && Holds(bufs[index[bn]], bn) && bufs[index[bn]].locked
  }

  predicate PinnedBlocks(blocks: seq<nat>, bufs: seq<Buf>, pins: seq<nat>, index: map<nat, nat>) {
    && |bufs| == |pins|
    && (forall k :: 0 <= k < |blocks| ==> PinnedBlock(blocks[k], bufs, pins, index))
    && (forall i :: 0 <= i < |pins| && pins[i] > 0 ==> bufs[i].blockno in blocks)
  }

  /** Referenced buffers keep their blocks, and held ones stay held. */
  predicate Stays(was: seq<Buf>, now: seq<Buf>) {
    |was| == |now| && forall i :: 0 <= i < |now| ==> StaysBuf(was[i], now[i])
  }

  predicate StaysBuf(was: Buf, now: Buf) {
    was.refcnt > 0 ==> now.dev == was.dev && now.blockno == was.blockno && (was.valid ==> now.valid)
  }

  /** Pins survive any use of the cache that keeps references: nothing pinned is recycled. */
  lemma PinsSurvive(blocks: seq<nat>, bufs: seq<Buf>, pins: seq<nat>, index: map<nat, nat>,
                    view: seq<Block>, bufs': seq<Buf>, view': seq<Block>, index': map<nat, nat>)
    requires PinnedBlocks(blocks, bufs, pins, index) && Stays(bufs, bufs')
    requires forall i :: 0 <= i < |bufs| ==> BufValid(i, bufs[i], pins[i], view, index)
    requires forall i :: 0 <= i < |bufs'| ==> BufValid(i, bufs'[i], pins[i], view', index')
    ensures PinnedBlocks(blocks, bufs', pins, index')
  {
    forall k | 0 <= k < |blocks|
      ensures PinnedBlock(blocks[k], bufs', pins, index')
    {
      var i := index[blocks[k]];
      assert BufValid(i, bufs[i], pins[i], view, index);
      assert StaysBuf(bufs[i], bufs'[i]) && BufValid(i, bufs'[i], pins[i], view', index');
    }
  }

  lemma KeptStays(was: seq<Buf>, now: seq<Buf>)
    requires Kept(was, now)
    ensures Stays(was, now)
  {
    assert forall i :: 0 <= i < |now| ==> KeptBuf(was[i], now[i]);
  }

  /** Unpinning the first of the pinned blocks leaves the others pinned. */
  lemma UnpinFirst(blocks: seq<nat>, bufs: seq<Buf>, pins: seq<nat>, index: map<nat, nat>, view: seq<Block>,
                   bufs': seq<Buf>, pins': seq<nat>, view': seq<Block>, index': map<nat, nat>)
    requires PinnedBlocks(blocks, bufs, pins, index) && blocks != [] && |bufs'| == |bufs|
    requires forall j, k :: 0 <= j < k < |blocks| ==> blocks[j] != blocks[k]
    requires forall i :: 0 <= i < |bufs| ==> BufValid(i, bufs[i], pins[i], view, index)
    requires blocks[0] in index && index[blocks[0]] < |bufs| && bufs[index[blocks[0]]].refcnt > 0
    requires var b := index[blocks[0]];
             pins' == pins[b := 0] && Kept(bufs[b := bufs[b].(refcnt := bufs[b].refcnt - 1)], bufs')
    requires forall i :: 0 <= i < |bufs'| ==> BufValid(i, bufs'[i], pins'[i], view', index')
    ensures PinnedBlocks(blocks[1..], bufs', pins', index')
  {
    var b := index[blocks[0]];
    assert PinnedBlock(blocks[0], bufs, pins, index);
    var unpinned := bufs[b := bufs[b].(refcnt := bufs[b].refcnt - 1)];
    forall k | 1 <= k < |blocks|
      ensures PinnedBlock(blocks[k], bufs', pins', index')
    {
      assert PinnedBlock(blocks[k], bufs, pins, index);
      var i := index[blocks[k]];
      assert i != b && BufValid(i, bufs[i], pins[i], view, index);
      assert KeptBuf(unpinned[i], bufs'[i]) && BufValid(i, bufs'[i], pins'[i], view', index');
    }
    forall i | 0 <= i < |pins'| && pins'[i] > 0
      ensures bufs'[i].blockno in blocks[1..]
    {
      assert i != b && pins[i] > 0 && bufs[i].blockno in blocks;
      assert BufValid(i, bufs[i], pins[i], view, index) && BufValid(b, bufs[b], pins[b], view, index);
      assert KeptBuf(unpinned[i], bufs'[i]);
    }
  }

  /** While the log alone holds references and has pinned fewer blocks than there are buffers,
      some buffer is free. */
  lemma FreeBuffer(blocks: seq<nat>, bufs: seq<Buf>, pins: seq<nat>, view: seq<Block>, index: map<nat, nat>)
    requires PinnedBlocks(blocks, bufs, pins, index) && |blocks| < |bufs|
    requires forall i :: 0 <= i < |bufs| ==> bufs[i].refcnt == pins[i]
    requires forall i :: 0 <= i < |bufs| ==> BufValid(i, bufs[i], pins[i], view, index)
    ensures exists i :: 0 <= i < |bufs| && bufs[i].refcnt == 0
  {
    if forall i :: 0 <= i < |bufs| ==> bufs[i].refcnt > 0 {
      var held := seq(|bufs|, i requires 0 <= i < |bufs| => bufs[i].blockno);
      forall i, j | 0 <= i < j < |bufs|
        ensures held[i] != held[j]
      {
        assert BufValid(i, bufs[i], pins[i], view, index) && BufValid(j, bufs[j], pins[j], view, index);
      }
      forall i | 0 <= i < |bufs|
        ensures held[i] in blocks
      {
        assert pins[i] > 0;
      }
      Pigeonhole(held, blocks);
      assert false;
    }
  }

  lemma RoomToRecover(bufs: seq<Buf>, pins: seq<nat>, index: map<nat, nat>, bn: nat)
    requires PinnedBlocks([], bufs, pins, index) && |bufs| >= 2
    requires forall i :: 0 <= i < |bufs| ==> bufs[i].refcnt == pins[i]
    ensures Room(bufs, bn)
  {
    assert pins[0] == 0 && pins[1] == 0;
    assert bufs[0].refcnt == 0 && bufs[1].refcnt == 0;
  }

  /** A header names distinct blocks outside the log, and the log area has room for them. */
  predicate Names(area: Area, lh: seq<nat>, diskSize: nat) {
    && |lh| <= LOGSIZE && |lh| < area.size
    && (forall k :: 0 <= k < |lh| ==> lh[k] < diskSize && !area.Contains(lh[k]))
    && (forall j, k :: 0 <= j < k < |lh| ==> lh[j] != lh[k])
  }

  /** What a process outside any operation does to the cache: bread a block, or brelse a buffer. */
  datatype Access = Look(bn: nat) | Leave(b: nat)

  /** What the other processes do while commit has made a number of its writes. */
  type Crowd = nat -> seq<Access>

  ghost predicate Alone(others: Crowd) {
    forall p: nat :: others(p) == []
  }

  /** Each of these reads of a home block returned the contents it has in `view`. */
  ghost predicate Newest(area: Area, seen: seq<Write>, view: seq<Block>) {
    forall k :: 0 <= k < |seen| && !area.Contains(seen[k].blockno) ==>
      seen[k].blockno < |view| && seen[k].data == view[seen[k].blockno]
  }

  lemma NewestSame(area: Area, seen: seq<Write>, more: seq<Write>, view: seq<Block>, view': seq<Block>)
    requires Newest(area, seen, view) && Newest(area, more, view') && SameHome(area, view', view)
    ensures Newest(area, seen + more, view)
  {
  }

  /** Commit can go on: some buffer is unreferenced, and nobody holds the header, a log block or a block to be
      committed, whatever else is held. */
  ghost predicate Fine(area: Area, lh: seq<nat>, bufs: seq<Buf>) {
    && !NoSpare(bufs) && Unheld(bufs, area.start)
    && forall k :: 0 <= k < |lh| ==> NotHeld(area, lh[k], bufs, k)
  }

  /** Nobody holds block bn or the log block for place k. */
  predicate NotHeld(area: Area, bn: nat, bufs: seq<Buf>, k: nat) {
    Unheld(bufs, area.start + 1 + k) && Unheld(bufs, bn)
  }

  /** Holds and references of blocks in use are as before, or fewer references. */
  predicate Eased(was: seq<Buf>, now: seq<Buf>) {
    |was| == |now| && forall i :: 0 <= i < |now| ==> EasedBuf(was[i], now[i])
  }

  predicate EasedBuf(was: Buf, now: Buf) {
    && now.refcnt <= was.refcnt && (now.locked ==> was.locked)
    && (now.locked ==> now.dev == was.dev && now.blockno == was.blockno)
  }

  lemma UnheldEased(was: seq<Buf>, now: seq<Buf>, bn: nat)
    requires Eased(was, now) && Unheld(was, bn)
    ensures Unheld(now, bn)
  {
    forall i | 0 <= i < |now| && Holds(now[i], bn)
      ensures !now[i].locked
    {
      assert EasedBuf(was[i], now[i]);
    }
  }

  /** What commit does to the cache keeps it fine. */
  lemma FineEased(area: Area, lh: seq<nat>, was: seq<Buf>, now: seq<Buf>)
    requires Fine(area, lh, was) && Eased(was, now)
    ensures Fine(area, lh, now)
  {
    hide Unheld;
    UnheldEased(was, now, area.start);
    forall k | 0 <= k < |lh|
      ensures NotHeld(area, lh[k], now, k)
    {
      assert NotHeld(area, lh[k], was, k);
      UnheldEased(was, now, area.start + 1 + k);
      UnheldEased(was, now, lh[k]);
    }
    var i :| 0 <= i < |was| && was[i].refcnt == 0;
    assert EasedBuf(was[i], now[i]);
  }

  lemma FineHeader(area: Area, lh: seq<nat>, bufs: seq<Buf>)
    ensures Fine(area, lh, bufs) ==> !NoSpare(bufs) && Unheld(bufs, area.start)
  {
  }

  lemma FineBlocks(area: Area, lh: seq<nat>, bufs: seq<Buf>, k: nat)
    requires k < |lh|
    ensures Fine(area, lh, bufs) ==>
              !NoSpare(bufs) && Unheld(bufs, area.start + 1 + k) && Unheld(bufs, lh[k])
  {
    if Fine(area, lh, bufs) {
      assert NotHeld(area, lh[k], bufs, k);
    }
  }

  lemma RoomSpare(bufs: seq<Buf>, bn: nat)
    requires Room(bufs, bn)
    ensures !NoSpare(bufs)
  {
  }

  /** After an operation that used one buffer, commit can still go on. */
  lemma FineChanged(area: Area, lh: seq<nat>, lh': seq<nat>, was: seq<Buf>, now: seq<Buf>, b: nat, bn: nat)
    requires Fine(area, lh, was) && Room(was, bn) && |lh'| <= |lh| && lh' == lh[..|lh'|]
    requires b < |was| && |now| == |was| && now == was[b := now[b]] && Holds(now[b], bn) && !now[b].locked
    requires forall j :: 0 <= j < |was| && j != b ==> !Holds(was[j], bn)
    ensures Fine(area, lh', now)
  {
    var i, j :| 0 <= i < |was| && 0 <= j < |was| && i != j && was[i].refcnt == 0
                && (was[j].refcnt == 0 || Holds(was[j], bn));
    assert now[if i == b then j else i].refcnt == 0;
    forall k | 0 <= k < |lh'|
      ensures NotHeld(area, lh'[k], now, k)
    {
      assert NotHeld(area, lh[k], was, k);
    }
  }

  lemma KeptEased(was: seq<Buf>, now: seq<Buf>, pins: seq<nat>, view: seq<Block>, index: map<nat, nat>)
    requires Kept(was, now) && |pins| == |was|
    requires forall i :: 0 <= i < |was| ==> BufValid(i, was[i], pins[i], view, index)
    ensures Eased(was, now)
  {
    forall i | 0 <= i < |now|
      ensures EasedBuf(was[i], now[i])
    {
      assert KeptBuf(was[i], now[i]) && BufValid(i, was[i], pins[i], view, index);
    }
  }

  lemma UnpinEased(was: seq<Buf>, now: seq<Buf>, pins: seq<nat>, view: seq<Block>, index: map<nat, nat>, b: nat)
    requires b < |was| == |pins| && pins[b] > 0 && was[b].refcnt > 0
    requires Kept(was[b := was[b].(refcnt := was[b].refcnt - 1)], now)
    requires forall i :: 0 <= i < |was| ==> BufValid(i, was[i], pins[i], view, index)
    ensures Eased(was, now)
  {
    var mid := was[b := was[b].(refcnt := was[b].refcnt - 1)];
    forall i | 0 <= i < |now|
      ensures EasedBuf(was[i], now[i])
    {
      assert KeptBuf(mid[i], now[i]) && BufValid(i, was[i], pins[i], view, index);
    }
  }

  /** A block that the log pins is cached. */
  lemma PinnedCached(blocks: seq<nat>, bufs: seq<Buf>, pins: seq<nat>, view: seq<Block>, index: map<nat, nat>, k: nat)
    requires PinnedBlocks(blocks, bufs, pins, index) && k < |blocks|
    requires forall i :: 0 <= i < |bufs| ==> BufValid(i, bufs[i], pins[i], view, index)
    ensures Cached(bufs, blocks[k])
  {
    assert PinnedBlock(blocks[k], bufs, pins, index);
    var i := index[blocks[k]];
    assert BufValid(i, bufs[i], pins[i], view, index);
  }

  class Log {
    const bc: BufferCache
    const area: Area
    var lh: seq<nat>  // lh.block[0..lh.n]
    var outstanding: nat
    var committing: bool

    ghost predicate HeaderFits()
      reads this, bc
    {
      area.Fits(bc.disk) && Names(area, lh, |bc.disk|)
    }

    /** The log has pinned exactly the buffers of the blocks it names from position t on. */
    ghost predicate Pinned(t: nat)
      reads this, bc
    {
      && bc.Valid()
      && |bc.view| == |bc.disk|
      && HeaderFits()
      && t <= |lh|
      && PinnedBlocks(lh[t..], bc.bufs, bc.pins, bc.index)
    }

    /** ... and blocks newer than the disk are among these, or still held by the process that
        changed them. */
    ghost predicate Working(t: nat)
      reads this, bc
    {
      && Pinned(t)
      && forall bn :: bn in bc.dirty ==> !area.Contains(bn) && (bn in lh[t..] || HeldBlock(bn, bc.bufs, bc.index))
    }

    /** Between commits. */
    ghost predicate Valid()
      reads this, bc
    {
      && Working(0)
      && Clear(area, bc.disk)
      && (committing ==> outstanding == 0)
    }

    /** Nobody but the log references any buffer. */
    ghost predicate Quiet()
      reads bc
    {
      |bc.bufs| == |bc.pins| && forall i :: 0 <= i < |bc.bufs| ==> bc.bufs[i].refcnt == bc.pins[i]
    }

    /** initlog up to recovery; see Recover. */
    constructor (bc: BufferCache, area: Area)
      requires bc.Valid() && area.Fits(bc.disk) && forall i :: 0 <= i < NBUF ==> bc.pins[i] == 0
      ensures this.bc == bc && this.area == area && Pinned(0) && lh == []
      ensures outstanding == 0 && !committing
    {
      this.bc, this.area := bc, area;
      lh, outstanding, committing := [], 0, false;
    }

    /** As Working, with no change left to log: whoever holds a buffer now only reads it. */
    ghost predicate Ready(t: nat)
      reads this, bc
    {
      Pinned(t) && forall bn :: bn in bc.dirty ==> bn in lh[t..]
    }

    lemma ReadyWorks(t: nat)
      requires Ready(t)
      ensures Working(t) && |bc.bufs| == NBUF && forall bn :: bn in bc.dirty ==> !area.Contains(bn)
    {
      hide BufferCache.RingValid, BufferCache.DirtyValid, BufValid, PinnedBlocks;
      assert forall bn :: bn in lh[t..] ==> bn in lh;
    }

    // ---- other processes

    /** bread, by any process: the newest contents of the block. */
    method Read(bn: nat, ghost t: nat) returns (r: Option<nat>)
      requires Working(t) && bn < |bc.disk| && Unheld(bc.bufs, bn)
      modifies bc`bufs, bc`index
      ensures Working(t)
      ensures r.None? ==> bc.bufs == old(bc.bufs)
                          && forall i :: 0 <= i < |bc.bufs| ==> bc.bufs[i].refcnt > 0 && !Holds(bc.bufs[i], bn)
      ensures r.Some? ==> r.value < NBUF && bc.bufs == old(bc.bufs)[r.value := bc.bufs[r.value]]
                          && bc.bufs[r.value].locked && bc.bufs[r.value].valid
                          && Holds(bc.bufs[r.value], bn) && bc.bufs[r.value].data == bc.view[bn]
    {
      hide BufferCache.RingValid, BufferCache.DirtyValid, PinnedBlocks, Names;
      ghost var bufs, pins, view, index := bc.bufs, bc.pins, bc.view, bc.index;
      r := bc.Bread(bn);
      PinsSurvive(lh[t..], bufs, pins, index, view, bc.bufs, bc.view, bc.index);
      forall x | x in bc.dirty
        ensures x in lh[t..] || HeldBlock(x, bc.bufs, bc.index)
      {
        assert x in lh[t..] || HeldBlock(x, bufs, index);
        if x !in lh[t..] {
          assert BufValid(index[x], bc.bufs[index[x]], pins[index[x]], bc.view, bc.index);
        }
      }
    }

    /** brelse, by any process: a block it changed has been passed to log_write. */
    method Release(b: nat, ghost t: nat)
      requires Working(t) && b < NBUF && bc.bufs[b].locked
      requires bc.bufs[b].blockno in bc.dirty ==> bc.bufs[b].blockno in lh[t..]
      modifies bc`bufs, bc`next, bc`prev, bc`order
      ensures Working(t)
      ensures bc.bufs == old(bc.bufs)[b := old(bc.bufs)[b].(locked := false, refcnt := old(bc.bufs)[b].refcnt - 1)]
    {
      hide BufferCache.RingValid, BufferCache.DirtyValid, PinnedBlocks, Names;
      ghost var bn, bufs, pins, view, index := bc.bufs[b].blockno, bc.bufs, bc.pins, bc.view, bc.index;
      PinnedIfNamed(lh[t..], bufs, pins, view, index, b);
      bc.Brelse(b);
      PinsSurvive(lh[t..], bufs, pins, index, view, bc.bufs, bc.view, bc.index);
      forall x | x in bc.dirty
        ensures x in lh[t..] || HeldBlock(x, bc.bufs, bc.index)
      {
        assert x in lh[t..] || HeldBlock(x, bufs, index);
        assert x == bn ==> x in lh[t..];
      }
    }

    /** One access by another process; one that would have to wait does not happen. */
    method OtherAccess(a: Access, ghost t: nat) returns (ok: bool, ghost seen: seq<Write>)
      requires Ready(t)
      modifies bc`bufs, bc`index, bc`next, bc`prev, bc`order
      ensures Ready(t) && Newest(area, seen, bc.view)
      ensures !ok ==> NoSpare(bc.bufs)
      ensures a.Leave? && a.b < |old(bc.bufs)| && old(bc.bufs)[a.b].locked ==> !bc.bufs[a.b].locked
    {
      hide BufferCache.Valid, PinnedBlocks, Names;
      ReadyWorks(t);
      ok, seen := true, [];
      match a
      case Look(bn) =>
        var held := bc.IsHeld(bn);
        if bn < |bc.disk| && !held {
          var r := Read(bn, t);
          ok := r.Some?;
          seen := if ok then [Write(bn, bc.bufs[r.value].data)] else [];
        }
      case Leave(b) =>
        if b < |bc.bufs| && bc.bufs[b].locked {
          Release(b, t);
        }
    }

    /** Other processes use the cache, and then two blocks are free to be read, or else the caller
        sleeps on. */
    method Wait(acts: seq<Access>, first: nat, second: nat, ghost t: nat) returns (ok: bool, ghost seen: seq<Write>)
      requires Ready(t)
      modifies bc`bufs, bc`index, bc`next, bc`prev, bc`order
      ensures Ready(t) && Newest(area, seen, bc.view)
      ensures ok ==> Unheld(bc.bufs, first) && Unheld(bc.bufs, second)
      ensures acts == [] ==> bc.bufs == old(bc.bufs) && seen == []
      ensures !ok ==> NoSpare(bc.bufs) || !Unheld(bc.bufs, first) || !Unheld(bc.bufs, second)
      ensures acts == [] && Unheld(old(bc.bufs), first) && Unheld(old(bc.bufs), second) ==> ok
      ensures acts == [] && old(Quiet()) ==> Quiet()
    {
      hide BufferCache.Valid, PinnedBlocks, Names, Newest, Unheld, NoSpare;
      seen := [];
      NewestNone();
      for i := 0 to |acts|
        invariant Ready(t) && Newest(area, seen, bc.view)
        invariant i == 0 ==> bc.bufs == old(bc.bufs) && seen == []
      {
        ghost var more;
        ok, more := OtherAccess(acts[i], t);
        NewestSame(area, seen, more, bc.view, bc.view);
        seen := seen + more;
        if !ok { return; }
      }
      var held1 := bc.IsHeld(first);
      var held2 := bc.IsHeld(second);
      ok := !held1 && !held2;
    }

    lemma NewestNone()
      ensures Newest(area, [], bc.view)
    {
    }

    lemma QuietUnheld(t: nat, bn: nat)
      requires Ready(t) && Quiet()
      ensures Unheld(bc.bufs, bn)
    {
      hide BufferCache.RingValid, BufferCache.DirtyValid, PinnedBlocks, Names;
    }

    /** One round of write_log. */
    method WriteLogBlock(k: nat) returns (ok: bool)
      requires Ready(0) && k < |lh| && Unheld(bc.bufs, area.start + 1 + k) && Unheld(bc.bufs, lh[k])
      modifies bc
      ensures !ok ==> bc.disk == old(bc.disk) && bc.writes == old(bc.writes)
      ensures ok ==> Ready(0) && bc.dirty == old(bc.dirty) && (old(Quiet()) ==> Quiet())
      ensures ok ==> && bc.view == old(bc.view)[area.start + 1 + k := old(bc.view)[lh[k]]]
                     && bc.disk == old(bc.disk)[area.start + 1 + k := old(bc.view)[lh[k]]]
                     && bc.writes == old(bc.writes) + [Write(area.start + 1 + k, old(bc.view)[lh[k]])]
      ensures ok ==> Eased(old(bc.bufs), bc.bufs)
      ensures !ok ==> bc.bufs == old(bc.bufs) && NoSpare(bc.bufs)
    {
      hide BufferCache.RingValid, BufferCache.DirtyValid, BufValid, PinnedBlocks, Names, Room, Cached, Eased;
      WriteFacts(k);
      ghost var bufs, pins, view, index := bc.bufs, bc.pins, bc.view, bc.index;
      ok := bc.LogBlock(area.start + 1 + k, lh[k]);
      if ok {
        KeptStays(bufs, bc.bufs);
        KeptEased(bufs, bc.bufs, pins, view, index);
        PinsSurvive(lh, bufs, pins, index, view, bc.bufs, bc.view, bc.index);
      }
    }

    /** What a round of write_log starts from. */
    lemma WriteFacts(k: nat)
      requires k < |lh| && Ready(0)
      ensures lh[0..] == lh && lh[k] < |bc.disk| && !area.Contains(lh[k]) && area.start + 1 + k < |bc.disk|
      ensures area.Contains(area.start + 1 + k) && area.start + 1 + k !in bc.dirty
      ensures Cached(bc.bufs, lh[k])
    {
      hide BufferCache.RingValid, BufferCache.DirtyValid, PinnedBlocks, Cached, BufValid;
      ReadyWorks(0);
      assert lh[0..] == lh;
      PinnedCached(lh, bc.bufs, bc.pins, bc.view, bc.index, k);
    }

    /** write_log, with other processes at work before each of its writes. */
    method WriteLog(others: Crowd) returns (ok: bool, ghost done: nat, ghost seen: seq<Write>)
      requires Ready(0)
      modifies bc
      ensures Did(old(bc.disk), old(bc.writes), LogWrites(area, TxnOf(lh, old(bc.view))), done, bc.disk, bc.writes)
      ensures Newest(area, seen, old(bc.view))
      ensures ok ==> && done == |lh| && Ready(0)
                     && bc.dirty == old(bc.dirty)
                     && SameHome(area, bc.view, old(bc.view))
      ensures !ok ==> !Fine(area, lh, bc.bufs)
      ensures Alone(others) && Fine(area, lh, old(bc.bufs)) ==> ok && Fine(area, lh, bc.bufs)
      ensures ok && Alone(others) && old(Quiet()) ==> Quiet()
    {
      hide BufferCache.Valid, PinnedBlocks, Did, Newest, Fine, Eased, NoSpare, Unheld;
      ghost var ws := LogWrites(area, TxnOf(lh, bc.view));
      DidNone(bc.disk, bc.writes, ws);
      NewestNone();
      done, seen := 0, [];
      var tail := 0;
      while tail < |lh|
        invariant 0 <= tail == done <= |lh|
        invariant Ready(0)
        invariant bc.dirty == old(bc.dirty)
        invariant old(Quiet()) && Alone(others) ==> Quiet()
        invariant Alone(others) && Fine(area, lh, old(bc.bufs)) ==> Fine(area, lh, bc.bufs)
        invariant SameHome(area, bc.view, old(bc.view))
        invariant Newest(area, seen, old(bc.view))
        invariant Did(old(bc.disk), old(bc.writes), ws, done, bc.disk, bc.writes)
      {
        DidOne(old(bc.disk), old(bc.writes), ws, done, bc.disk, bc.writes);
        assert ws[tail] == Write(area.start + 1 + tail, bc.view[lh[tail]]);
        ghost var more;
        ok, more := Wait(others(tail), area.start + 1 + tail, lh[tail], 0);
        NewestSame(area, seen, more, old(bc.view), bc.view);
        seen := seen + more;
        FineBlocks(area, lh, bc.bufs, tail);
        if !ok { return; }
        ghost var bufs := bc.bufs;
        ok := WriteLogBlock(tail);
        if !ok { return; }
        if Fine(area, lh, bufs) {
          FineEased(area, lh, bufs, bc.bufs);
        }
        done := done + 1;
        tail := tail + 1;
      }
      ok := true;
    }

    /** The header block with lh.n and lh.block stored into it word by word. */
    method FormatHeader(b: Block) returns (hb: Block)
      requires HeaderFits()
      ensures hb == HeaderBlock(b, lh)
    {
      hb := WithWord(b, 0, |lh|);
      for i := 0 to |lh|
        invariant hb == StoreHeader(b, |lh|, lh[..i])
      {
        assert lh[..i + 1][..i] == lh[..i];
        hb := WithWord(hb, i + 1, lh[i]);
      }
      assert lh[..|lh|] == lh;
    }

    /** write_head, while the blocks from position t on are pinned. */
    method WriteHead(ghost t: nat) returns (ok: bool)
      requires Ready(t) && Unheld(bc.bufs, area.start)
      modifies bc
      ensures !ok ==> bc.disk == old(bc.disk) && bc.writes == old(bc.writes)
      ensures ok ==> Ready(t) && bc.dirty == old(bc.dirty) && (old(Quiet()) ==> Quiet())
      ensures ok ==> var hb := HeaderBlock(old(bc.disk)[area.start], lh);
                     && bc.view == old(bc.view)[area.start := hb]
                     && bc.disk == old(bc.disk)[area.start := hb]
                     && bc.writes == old(bc.writes) + [Write(area.start, hb)]
      ensures ok ==> Eased(old(bc.bufs), bc.bufs)
      ensures !ok ==> bc.bufs == old(bc.bufs) && NoSpare(bc.bufs)
    {
      hide BufferCache.RingValid, BufferCache.DirtyValid, BufValid, PinnedBlocks, HeaderBlock, Names, Eased;
      ReadyWorks(t);
      ghost var bufs, pins, view, index := bc.bufs, bc.pins, bc.view, bc.index;
      var b := bc.Bread(area.start);
      if b.None? { return false; }
      var hb := FormatHeader(bc.bufs[b.value].data);
      bc.FinishWrite(b.value, hb);
      assert Kept(bufs, bc.bufs);
      KeptStays(bufs, bc.bufs);
      KeptEased(bufs, bc.bufs, pins, view, index);
      PinsSurvive(lh[t..], bufs, pins, index, view, bc.bufs, bc.view, bc.index);
      return true;
    }

    /** The log blocks hold the data of these writes to the named blocks. */
    ghost predicate LogHolds(pending: seq<Write>)
      reads this, bc
    {
      && |pending| == |lh|
      && area.start + |lh| < |bc.view|
      && forall k :: 0 <= k < |lh| ==> pending[k] == Write(lh[k], bc.view[area.start + 1 + k])
    }

    /** One round of install_trans; during recovery nothing is pinned. */
    method InstallRound(k: nat, recovering: bool, ghost pending: seq<Write>) returns (ok: bool)
      requires k < |lh| && Ready(if recovering then |lh| else k) && LogHolds(pending)
      requires Unheld(bc.bufs, area.start + 1 + k) && Unheld(bc.bufs, lh[k])
      modifies bc
      ensures !ok ==> bc.disk == old(bc.disk) && bc.writes == old(bc.writes)
      ensures ok ==> && Ready(if recovering then |lh| else k + 1)
                     && bc.dirty == old(bc.dirty) - {lh[k]} && (old(Quiet()) ==> Quiet())
                     && bc.view == old(bc.view)[lh[k] := pending[k].data]
                     && bc.disk == old(bc.disk)[lh[k] := pending[k].data]
                     && bc.writes == old(bc.writes) + [pending[k]]
      ensures ok && old(NoneHeld(bc.bufs)) ==> NoneHeld(bc.bufs)
      ensures ok ==> Eased(old(bc.bufs), bc.bufs)
      ensures !ok && !recovering ==> bc.bufs == old(bc.bufs) && NoSpare(bc.bufs)
      ensures old(Quiet()) && recovering ==> ok
    {
      hide BufferCache.RingValid, BufferCache.DirtyValid, PinnedBlocks, Names, BufValid, Room, Cached, Eased;
      InstallFacts(k, recovering);
      ghost var bufs, pins, view, index := bc.bufs, bc.pins, bc.view, bc.index;
      ok := bc.InstallBlock(area.start + 1 + k, lh[k], recovering);
      if ok {
        if recovering {
          KeptStays(bufs, bc.bufs);
          KeptEased(bufs, bc.bufs, pins, view, index);
          PinsSurvive(lh[|lh|..], bufs, pins, index, view, bc.bufs, bc.view, bc.index);
        } else {
          UnpinEased(bufs, bc.bufs, pins, view, index, index[lh[k]]);
          UnpinFirst(lh[k..], bufs, pins, index, view, bc.bufs, bc.pins, bc.view, bc.index);
        }
      }
    }

    /** What a round of install_trans starts from. */
    lemma InstallFacts(k: nat, recovering: bool)
      requires k < |lh| && Ready(if recovering then |lh| else k)
      ensures lh[k] < |bc.disk| && !area.Contains(lh[k])
      ensures area.Contains(area.start + 1 + k) && area.start + 1 + k < |bc.disk| && area.start + 1 + k !in bc.dirty
      ensures lh[k..][1..] == lh[k + 1..] && lh[k..] != [] && lh[k..][0] == lh[k]
      ensures forall i, j :: 0 <= i < j < |lh[k..]| ==> lh[k..][i] != lh[k..][j]
      ensures !recovering ==> && lh[k] in bc.index && bc.index[lh[k]] < NBUF
                              && var b := bc.index[lh[k]];
                              Holds(bc.bufs[b], lh[k]) && bc.pins[b] == 1 && bc.bufs[b].refcnt > 0
      ensures !recovering ==> Cached(bc.bufs, lh[k])
      ensures Quiet() && recovering ==> Room(bc.bufs, lh[k])
    {
      hide BufferCache.RingValid, BufferCache.DirtyValid;
      ReadyWorks(if recovering then |lh| else k);
      assert !recovering ==> PinnedBlock(lh[k..][0], bc.bufs, bc.pins, bc.index);
      if recovering && Quiet() {
        assert lh[|lh|..] == [];
        RoomToRecover(bc.bufs, bc.pins, bc.index, lh[k]);
      }
    }

    /** Other processes, and then a round of install_trans. */
    method InstallNext(acts: seq<Access>, k: nat, recovering: bool, ghost pending: seq<Write>)
      returns (ok: bool, ghost seen: seq<Write>)
      requires k < |lh| && Ready(if recovering then |lh| else k) && LogHolds(pending)
      modifies bc
      ensures Newest(area, seen, old(bc.view))
      ensures !ok ==> bc.disk == old(bc.disk) && bc.writes == old(bc.writes)
      ensures ok ==> && Ready(if recovering then |lh| else k + 1) && LogHolds(pending)
                     && bc.dirty == old(bc.dirty) - {lh[k]}
                     && bc.view == old(bc.view)[lh[k] := pending[k].data]
                     && bc.disk == old(bc.disk)[lh[k] := pending[k].data]
                     && bc.writes == old(bc.writes) + [pending[k]]
      ensures ok && acts == [] && old(NoneHeld(bc.bufs)) ==> NoneHeld(bc.bufs)
      ensures ok && acts == [] && old(Quiet()) ==> Quiet()
      ensures !ok && !recovering ==> !Fine(area, lh, bc.bufs)
      ensures !recovering && acts == [] && Fine(area, lh, old(bc.bufs)) ==> ok && Fine(area, lh, bc.bufs)
      ensures recovering && acts == [] && old(Quiet()) ==> ok
    {
      hide BufferCache.Valid, PinnedBlocks, Newest, NoneHeld, Unheld, Quiet, Fine, NoSpare, Eased;
      ghost var t := if recovering then |lh| else k;
      assert lh[k] < |bc.disk| && !area.Contains(lh[k]);
      if Quiet() {
        QuietUnheld(t, area.start + 1 + k);
        QuietUnheld(t, lh[k]);
      }
      FineBlocks(area, lh, bc.bufs, k);
      ok, seen := Wait(acts, area.start + 1 + k, lh[k], t);
      FineBlocks(area, lh, bc.bufs, k);
      if ok {
        ghost var bufs := bc.bufs;
        ok := InstallRound(k, recovering, pending);
        if ok && Fine(area, lh, bufs) {
          FineEased(area, lh, bufs, bc.bufs);
        }
      }
    }

    /** install_trans, with other processes at work before each of its writes unless the machine
        is still booting. Outside recovery the blocks are in the cache already. */
    method InstallTrans(recovering: bool, others: Crowd, base: nat, ghost pending: seq<Write>)
      returns (ok: bool, ghost done: nat, ghost seen: seq<Write>)
      requires Ready(if recovering then |lh| else 0) && LogHolds(pending) && (recovering ==> Alone(others))
      requires !recovering ==> forall k :: 0 <= k < |lh| ==> pending[k].data == bc.view[lh[k]]
      modifies bc
      ensures Did(old(bc.disk), old(bc.writes), pending, done, bc.disk, bc.writes)
      ensures !recovering ==> Newest(area, seen, old(bc.view))
      ensures ok ==> && done == |lh| && Ready(|lh|)
                     && bc.dirty == old(bc.dirty) - Elems(lh)
                     && bc.view == (if recovering then Apply(old(bc.view), pending) else old(bc.view))
      ensures ok && Alone(others) && old(NoneHeld(bc.bufs)) ==> NoneHeld(bc.bufs)
      ensures !ok && !recovering ==> !Fine(area, lh, bc.bufs)
      ensures !recovering && Alone(others) && Fine(area, lh, old(bc.bufs)) ==> ok && Fine(area, lh, bc.bufs)
      ensures ok && Alone(others) && old(Quiet()) ==> Quiet()
      ensures recovering && old(Quiet()) ==> ok
    {
      hide BufferCache.Valid, PinnedBlocks, Did, Apply, Newest, NoneHeld, Unheld, Quiet, Fine;
      DidNone(bc.disk, bc.writes, pending);
      ApplyNone(bc.view);
      NewestNone();
      done, seen := 0, [];
      var tail := 0;
      assert pending[..0] == [];
      while tail < |lh|
        invariant 0 <= tail == done <= |lh|
        invariant Ready(if recovering then |lh| else tail)
        invariant LogHolds(pending)
        invariant bc.dirty == old(bc.dirty) - Elems(lh[..tail])
        invariant old(Quiet()) && Alone(others) ==> Quiet()
        invariant bc.view == if recovering then Apply(old(bc.view), pending[..tail]) else old(bc.view)
        invariant Alone(others) && old(NoneHeld(bc.bufs)) ==> NoneHeld(bc.bufs)
        invariant !recovering && Alone(others) && Fine(area, lh, old(bc.bufs)) ==> Fine(area, lh, bc.bufs)
        invariant !recovering ==> Newest(area, seen, old(bc.view))
        invariant Did(old(bc.disk), old(bc.writes), pending, done, bc.disk, bc.writes)
      {
        DidOne(old(bc.disk), old(bc.writes), pending, tail, bc.disk, bc.writes);
        ApplyOne(old(bc.view), pending, tail);
        assert lh[tail] < |bc.disk| && !area.Contains(lh[tail]);
        assert lh[..tail + 1] == lh[..tail] + [lh[tail]];
        ghost var more;
        ghost var view := bc.view;
        ok, more := InstallNext(others(base + tail), tail, recovering, pending);
        if !recovering {
          NewestSame(area, seen, more, old(bc.view), view);
        }
        seen := seen + more;
        if !ok { return; }
        done := done + 1;
        tail := tail + 1;
      }
      assert pending[..|lh|] == pending && lh[..|lh|] == lh;
      ok := true;
    }

    lemma LogClean(t: nat)
      requires Ready(t)
      ensures |bc.view| == |bc.disk|
      ensures forall bn :: 0 <= bn < |bc.disk| && area.Contains(bn) ==> bc.view[bn] == bc.disk[bn]
    {
      hide BufferCache.RingValid, BufferCache.DirtyValid, BufValid, PinnedBlocks, Names;
      ReadyWorks(t);
    }

    /** The first half of commit: the group is in the log and the header names it. */
    method LogGroup(others: Crowd) returns (ok: bool, ghost done: nat, ghost seen: seq<Write>)
      requires Ready(0)
      modifies bc
      ensures Did(old(bc.disk), old(bc.writes), HeaderWritten(area, old(bc.disk), TxnOf(lh, old(bc.view))),
                  done, bc.disk, bc.writes)
      ensures Newest(area, seen, old(bc.view))
      ensures ok ==> && done == |lh| + 1 && Ready(0) && LogHolds(TxnOf(lh, old(bc.view)))
                     && bc.dirty == old(bc.dirty)
                     && SameHome(area, bc.view, old(bc.view))
      ensures !ok ==> !Fine(area, lh, bc.bufs)
      ensures Alone(others) && Fine(area, lh, old(bc.bufs)) ==> ok && Fine(area, lh, bc.bufs)
      ensures ok && Alone(others) && old(Quiet()) ==> Quiet()
    {
      hide BufferCache.Valid, PinnedBlocks, Did, LogWrites, HeaderWritten, HeaderBlock, GoodTxn, BlockNos, TxnOf, Names,
           Newest, Fine, NoSpare, Unheld, Eased;
      NamesGood(area, lh, bc.view);
      ghost var d, w, txn := bc.disk, bc.writes, TxnOf(lh, bc.view);
      ok, done, seen := WriteLog(others);
      LogWritesFirst(area, d, w, txn, done, bc.disk, bc.writes);
      if !ok { return; }
      GroupLogged(area, d, w, txn, bc.disk, bc.writes);
      LogClean(0);
      ghost var more;
      FineHeader(area, lh, bc.bufs);
      ok, more := Wait(others(|lh|), area.start, area.start, 0);
      FineHeader(area, lh, bc.bufs);
      NewestSame(area, seen, more, old(bc.view), bc.view);
      seen := seen + more;
      if !ok { return; }
      ghost var bufs := bc.bufs;
      ok := WriteHead(0);
      if ok {
        done := done + 1;
        if Fine(area, lh, bufs) {
          FineEased(area, lh, bufs, bc.bufs);
        }
      }
    }

    /** The second half of commit: install the logged group, then clear the header. */
    method InstallGroup(others: Crowd, ghost d: Disk, ghost w: seq<Write>, ghost txn: seq<Write>)
      returns (ok: bool, ghost done: nat, ghost seen: seq<Write>)
      requires Ready(0) && LogHolds(txn) && txn != []
      requires forall k :: 0 <= k < |lh| ==> txn[k].data == bc.view[lh[k]]
      requires area.Fits(d) && GoodTxn(area, txn, |d|) && BlockNos(txn) == lh
      requires Did(d, w, HeaderWritten(area, d, txn), |txn| + 1, bc.disk, bc.writes)
      modifies this`lh, bc
      ensures Did(d, w, CommitWrites(area, d, txn), done, bc.disk, bc.writes)
      ensures Newest(area, seen, old(bc.view))
      ensures ok ==> && done == |CommitWrites(area, d, txn)| && Ready(0) && lh == []
                     && bc.dirty == old(bc.dirty) - Elems(old(lh))
                     && SameHome(area, bc.view, old(bc.view))
      ensures !ok ==> !Fine(area, old(lh), bc.bufs)
      ensures Alone(others) && Fine(area, old(lh), old(bc.bufs)) ==> ok && Fine(area, old(lh), bc.bufs)
      ensures ok && Alone(others) && old(Quiet()) ==> Quiet()
    {
      hide BufferCache.Valid, PinnedBlocks, Did, HeaderWritten, CommitWrites, HeaderBlock, GoodTxn, BlockNos, Names,
           Apply, Newest, Fine, NoSpare, Unheld, Eased;
      var n := |lh|;
      ghost var d1, w1 := bc.disk, bc.writes;
      assert |lh| == |txn|;
      ok, done, seen := InstallTrans(false, others, n + 1, txn);
      InstallPart(area, d, w, txn, d1, w1, done, bc.disk, bc.writes);
      done := |txn| + 1 + done;
      if !ok { return; }
      InstallDone(area, d, w, txn, bc.disk, bc.writes);
      lh := [];
      assert old(lh)[n..] == [] && lh[0..] == [];
      NamesNone(area, |bc.disk|);
      ghost var more;
      FineHeader(area, old(lh), bc.bufs);
      ok, more := Wait(others(2 * n + 1), area.start, area.start, 0);
      FineHeader(area, old(lh), bc.bufs);
      NewestSame(area, seen, more, old(bc.view), bc.view);
      seen := seen + more;
      if !ok { return; }
      ghost var bufs := bc.bufs;
      ok := WriteHead(0);
      if ok {
        done := done + 1;
        if Fine(area, old(lh), bufs) {
          FineEased(area, old(lh), bufs, bc.bufs);
        }
      }
    }

    /** commit(), while processes outside any operation read and release buffers before each of its
        writes; `seen` is what they read. The journal shows a prefix of CommitWrites, all of it if
        commit returned; then the home blocks on disk are the newest contents, and the log is empty
        again. */
    method Commit(others: Crowd) returns (ok: bool, ghost done: nat, ghost seen: seq<Write>)
      requires Valid() && bc.dirty <= Elems(lh)
      modifies this`lh, bc
      ensures GoodTxn(area, TxnOf(old(lh), old(bc.view)), |old(bc.disk)|)
      ensures Did(old(bc.disk), old(bc.writes), CommitWrites(area, old(bc.disk), TxnOf(old(lh), old(bc.view))),
                  done, bc.disk, bc.writes)
      ensures Newest(area, seen, old(bc.view))
      ensures ok ==> && done == |CommitWrites(area, old(bc.disk), TxnOf(old(lh), old(bc.view)))|
                     && Valid() && lh == [] && bc.dirty == {}
                     && SameHome(area, bc.view, old(bc.view))
                     && bc.disk == bc.view
      ensures !ok ==> !Fine(area, old(lh), bc.bufs)
      ensures Alone(others) && Fine(area, old(lh), old(bc.bufs)) ==> ok && Fine(area, old(lh), bc.bufs)
      ensures Alone(others) && old(Quiet()) && |old(lh)| < NBUF ==> ok && Quiet()
    {
      hide BufferCache.Valid, PinnedBlocks, Did, HeaderWritten, CommitWrites, GoodTxn, BlockNos, Names, Apply, TxnOf,
           HeaderBlock, Newest, Fine, Quiet;
      QuietFine();
      NamesGood(area, lh, bc.view);
      ghost var d, w, txn := bc.disk, bc.writes, TxnOf(lh, bc.view);
      assert lh[0..] == lh;
      if |lh| > 0 {
        ok, done, seen := LogGroup(others);
        HeaderFirst(area, d, w, txn, done, bc.disk, bc.writes);
        if !ok { return; }
        ghost var more;
        ghost var view := bc.view;
        ok, done, more := InstallGroup(others, d, w, txn);
        NewestSame(area, seen, more, old(bc.view), view);
        seen := seen + more;
        if !ok { return; }
        AllWritten(area, d, w, txn, bc.disk, bc.writes);
        NothingDirty(0);
      } else {
        ok, done, seen := true, 0, [];
        NothingToDo(area, d, w);
        NothingDirty(0);
        NewestNone();
      }
    }

    /** With nobody but the log at the buffers, commit can go on. */
    lemma QuietFine()
      requires Ready(0)
      ensures Quiet() && |lh| < NBUF ==> Fine(area, lh, bc.bufs)
    {
      hide BufferCache.RingValid, BufferCache.DirtyValid, PinnedBlocks, Names, BufValid;
      if Quiet() && |lh| < NBUF {
        assert lh[0..] == lh;
        FreeBuffer(lh, bc.bufs, bc.pins, bc.view, bc.index);
        QuietUnheld(0, area.start);
        forall k | 0 <= k < |lh|
          ensures NotHeld(area, lh[k], bc.bufs, k)
        {
          QuietUnheld(0, area.start + 1 + k);
          QuietUnheld(0, lh[k]);
        }
      }
    }

    lemma NothingDirty(t: nat)
      requires Ready(t) && bc.dirty == {}
      ensures bc.disk == bc.view
    {
      hide BufferCache.RingValid, BufferCache.DirtyValid, BufValid, PinnedBlocks, Names;
    }

    /** The state at boot: nothing is cached as changed, pinned or held. */
    ghost predicate Booting()
      reads this, bc
    {
      bc.Valid() && |bc.view| == |bc.disk| && NoneHeld(bc.bufs) && bc.dirty == {}
      && PinnedBlocks([], bc.bufs, bc.pins, bc.index)
    }

    /** read_head. */
    method ReadHead() returns (ok: bool)
      requires Booting() && GoodHeader(area, bc.disk)
      modifies this`lh, bc`bufs, bc`index, bc`next, bc`prev, bc`order
      ensures ok ==> Booting() && lh == HeaderOf(bc.disk[area.start]) && (old(Quiet()) ==> Quiet())
      ensures old(Quiet()) ==> ok
    {
      hide BufferCache.RingValid, BufferCache.DirtyValid, BufValid, PinnedBlocks, GoodHeader, HeaderOf, WordAt;
      HeaderCount(area, bc.disk);
      ghost var bufs, pins, view, index := bc.bufs, bc.pins, bc.view, bc.index;
      if Quiet() {
        RoomToRecover(bc.bufs, bc.pins, bc.index, area.start);
      }
      assert bc.view == bc.disk;
      var buf := bc.Bread(area.start);
      if buf.None? { return false; }
      lh := ParseHeader(bc.bufs[buf.value].data);
      bc.Brelse(buf.value);
      assert Kept(bufs, bc.bufs);
      KeptStays(bufs, bc.bufs);
      PinsSurvive([], bufs, pins, index, view, bc.bufs, bc.view, bc.index);
      return true;
    }

    /** recover_from_log(). The journal shows a prefix of RecoverWrites, all of it if recovery
        finished; then cache and disk agree and the log is empty. */
    method Recover() returns (ok: bool, ghost done: nat)
      requires Booting() && GoodHeader(area, bc.disk) && outstanding == 0
      modifies this`lh, bc
      ensures Did(old(bc.disk), old(bc.writes), RecoverWrites(area, old(bc.disk)), done, bc.disk, bc.writes)
      ensures ok ==> && done == |RecoverWrites(area, old(bc.disk))|
                     && Valid() && lh == [] && bc.dirty == {} && bc.disk == bc.view
      ensures old(Quiet()) ==> ok && Quiet()
    {
      hide BufferCache.Valid, PinnedBlocks, Did, RecoverWrites, Pending, GoodTxn, Names, Apply, HeaderBlock;
      ghost var d, w := bc.disk, bc.writes;
      DidNone(d, w, RecoverWrites(area, d));
      done := 0;
      ok := ReadHead();
      if !ok { return; }
      HeaderNames(area, d);
      assert lh[|lh|..] == [];
      BootClean();
      ghost var pending := Pending(area, d);
      ghost var seen;
      ok, done, seen := InstallTrans(true, _ => [], 0, pending);
      RecoverPart(area, d, w, done, bc.disk, bc.writes);
      if !ok { return; }
      ghost var named := lh;
      lh := [];
      assert named[|named|..] == [] && lh[0..] == [];
      NamesNone(area, |bc.disk|);
      ReadyWorks(0);
      if Quiet() {
        RoomToRecover(bc.bufs, bc.pins, bc.index, area.start);
      }
      ok := WriteHead(0);
      if !ok { return; }
      done := done + 1;
      LogCrash.RecoveredClear(area, d);
      AllRecovered(area, d, w, bc.disk, bc.writes);
      NothingDirty(0);
    }

    lemma BootClean()
      requires Booting()
      ensures bc.view == bc.disk
    {
      hide BufferCache.RingValid, BufferCache.DirtyValid, BufValid, PinnedBlocks;
    }

    // ---- the interface of file-system code

    /** begin_op: false means the caller sleeps and tries again. */
    method BeginOp() returns (entered: bool)
      requires Valid()
      modifies this`outstanding
      ensures Valid()
      ensures entered <==> !committing && |lh| + (old(outstanding) + 1) * MAXOPBLOCKS <= LOGSIZE
      ensures outstanding == if entered then old(outstanding) + 1 else old(outstanding)
    {
      if committing {
        return false;
      } else if |lh| + (outstanding + 1) * MAXOPBLOCKS > LOGSIZE {
        return false;
      } else {
        outstanding := outstanding + 1;
        return true;
      }
    }

    /** end_op: the last operation out commits everything that was logged, and nothing is ever
        committed while an operation is in progress. By then every change has been logged. */
    method EndOp(others: Crowd) returns (ok: bool, ghost done: nat, ghost seen: seq<Write>)
      requires Valid() && outstanding >= 1
      requires outstanding == 1 ==> bc.dirty <= Elems(lh)
      modifies this`outstanding, this`committing, this`lh, bc
      ensures old(outstanding) > 1 ==> ok && bc.disk == old(bc.disk) && bc.writes == old(bc.writes) && lh == old(lh)
                                       && bc.view == old(bc.view) && bc.bufs == old(bc.bufs)
      ensures old(outstanding) == 1 ==>
                && GoodTxn(area, TxnOf(old(lh), old(bc.view)), |old(bc.disk)|)
                && Did(old(bc.disk), old(bc.writes),
                       CommitWrites(area, old(bc.disk), TxnOf(old(lh), old(bc.view))), done, bc.disk, bc.writes)
                && (ok ==> && done == |CommitWrites(area, old(bc.disk), TxnOf(old(lh), old(bc.view)))|
                           && lh == [] && bc.disk == bc.view && SameHome(area, bc.view, old(bc.view)))
      ensures Newest(area, seen, old(bc.view))
      ensures ok ==> Valid() && !committing && outstanding == old(outstanding) - 1
      ensures !ok ==> !Fine(area, old(lh), bc.bufs)
      ensures Alone(others) && Fine(area, old(lh), old(bc.bufs)) ==> ok
    {
      hide BufferCache.Valid, PinnedBlocks, Did, CommitWrites, GoodTxn, TxnOf, Names, Newest, Fine;
      ok, done, seen := true, 0, [];
      NewestNone();
      outstanding := outstanding - 1;
      assert !committing;
      if outstanding == 0 {
        committing := true;
        ok, done, seen := Commit(others);
        committing := false;
      }
    }

    /** The holder of a home block changes its contents. */
    method Update(b: nat, data: Block)
      requires Valid() && b < NBUF && bc.bufs[b].locked && bc.bufs[b].valid && !area.Contains(bc.bufs[b].blockno)
      modifies bc`bufs, bc`view, bc`dirty
      ensures Valid()
      ensures bc.bufs == old(bc.bufs)[b := old(bc.bufs)[b].(data := data)]
      ensures bc.bufs[b].blockno < |bc.view| && bc.view == old(bc.view)[bc.bufs[b].blockno := data]
      ensures bc.dirty == old(bc.dirty) + {bc.bufs[b].blockno}
    {
      hide BufferCache.RingValid, BufferCache.DirtyValid, PinnedBlocks, Names;
      ghost var bufs, pins, view, index := bc.bufs, bc.pins, bc.view, bc.index;
      assert BufValid(b, bufs[b], pins[b], view, index);
      bc.Modify(b, data);
      PinsSurvive(lh[0..], bufs, pins, index, view, bc.bufs, bc.view, bc.index);
      forall x | x in bc.dirty
        ensures !area.Contains(x) && (x in lh || HeldBlock(x, bc.bufs, bc.index))
      {
        if x != bc.bufs[b].blockno {
          assert x in lh || HeldBlock(x, bufs, index);
        }
      }
    }

    /** log_write. False is one of its two panics: the log is full, or no operation is open. */
    method LogWrite(b: nat) returns (ok: bool)
      requires Valid() && b < NBUF && bc.bufs[b].locked && bc.bufs[b].valid && !area.Contains(bc.bufs[b].blockno)
      modifies this`lh, bc`bufs, bc`pins
      ensures Valid()
      ensures ok <==> old(|lh|) < LOGSIZE && old(|lh|) < area.size - 1 && outstanding >= 1
      ensures lh == if !ok || bc.bufs[b].blockno in old(lh) then old(lh) else old(lh) + [bc.bufs[b].blockno]
      ensures ok ==> bc.bufs[b].blockno in lh
      ensures bc.bufs == old(bc.bufs)[b := bc.bufs[b]] && bc.bufs[b].data == old(bc.bufs)[b].data
              && bc.bufs[b].locked && bc.bufs[b].blockno == old(bc.bufs)[b].blockno
              && bc.bufs[b].dev == old(bc.bufs)[b].dev
    {
      hide BufferCache.RingValid, BufferCache.DirtyValid, BufValid, PinnedBlocks, Names, HeldBlock;
      if |lh| >= LOGSIZE || |lh| >= area.size - 1 {
        return false;
      }
      if outstanding < 1 {
        return false;
      }
      ghost var bufs, pins, view, index := bc.bufs, bc.pins, bc.view, bc.index;
      assert BufValid(b, bufs[b], pins[b], view, index) && lh[0..] == lh;
      HeldIsCached(b, bufs[b], pins[b], view, index);
      var i := FindLogged(bc.bufs[b].blockno);
      if i < |lh| {
        lh := lh[i := bc.bufs[b].blockno];
        assert lh == old(lh);
      } else {
        PinMore(lh, bufs, pins, index, view, b);
        NamesMore(area, lh, bufs[b].blockno, |view|);
        bc.Bpin(b);
        lh := lh + [bc.bufs[b].blockno];
        assert lh[0..] == lh;
        HeldStill(old(lh), lh, bc.dirty, bufs, bc.bufs, index, b);
      }
      return true;
    }

    /** The absorption loop of log_write: where the block is logged, or lh.n. */
    method FindLogged(bn: nat) returns (i: nat)
      ensures i <= |lh|
      ensures i < |lh| ==> lh[i] == bn
      ensures i == |lh| ==> bn !in lh
    {
      i := 0;
      while i < |lh|
        invariant i <= |lh|
        invariant bn !in lh[..i]
      {
        if lh[i] == bn { return; }
        i := i + 1;
      }
    }

    /** No other buffer has the block. */
    lemma OneBuffer(b: nat, bn: nat)
      requires bc.Valid() && b < NBUF && Holds(bc.bufs[b], bn)
      ensures forall j :: 0 <= j < |bc.bufs| && j != b ==> !Holds(bc.bufs[j], bn)
    {
      hide BufferCache.RingValid, BufferCache.DirtyValid;
    }

    /** The typical use in log_write's comment: bread, a change, log_write and brelse, inside an operation. */
    method LogChange(bn: nat, data: Block) returns (ok: bool)
      requires Valid() && outstanding >= 1 && |lh| < LOGSIZE && |lh| < area.size - 1
      requires bn < |bc.disk| && !area.Contains(bn) && Unheld(bc.bufs, bn)
      modifies this`lh, bc
      ensures !ok ==> NoSpare(old(bc.bufs))
      ensures ok ==> && Valid() && lh == (if bn in old(lh) then old(lh) else old(lh) + [bn])
                     && bc.view == old(bc.view)[bn := data] && bc.disk == old(bc.disk)
                     && bc.dirty == old(bc.dirty) + {bn}
      ensures ok && Room(old(bc.bufs), bn) && Fine(area, old(lh) + [bn], old(bc.bufs)) ==> Fine(area, lh, bc.bufs)
    {
      hide BufferCache.RingValid, BufferCache.DirtyValid, BufValid, PinnedBlocks, Names, Clear, HeldBlock, Fine, Room;
      var b := Read(bn, 0);
      if b.None? { return false; }
      OneBuffer(b.value, bn);
      Update(b.value, data);
      ok := LogWrite(b.value);
      assert lh[0..] == lh;
      Release(b.value, 0);
      if Room(old(bc.bufs), bn) && Fine(area, old(lh) + [bn], old(bc.bufs)) {
        assert lh == (old(lh) + [bn])[..|lh|];
        FineChanged(area, old(lh) + [bn], lh, old(bc.bufs), bc.bufs, b.value, bn);
      }
    }

    /** A whole operation that changes a block: begin_op, the change, end_op, while nobody else is in an operation
        but others may read. If it returns, the change is on disk; and it returns if the others leave buffers. */
    method ChangeBlock(bn: nat, data: Block, others: Crowd) returns (ok: bool, ghost seen: seq<Write>)
      requires Valid() && outstanding == 0 && !committing && |lh| + MAXOPBLOCKS <= LOGSIZE && |lh| < area.size - 1
      requires bc.dirty <= Elems(lh) && bn < |bc.disk| && !area.Contains(bn) && Unheld(bc.bufs, bn)
      modifies this`outstanding, this`committing, this`lh, bc
      ensures ok ==> && Valid() && lh == [] && outstanding == 0 && bc.disk == bc.view
                     && SameHome(area, bc.disk, old(bc.view)[bn := data])
      ensures ok ==> Newest(area, seen, old(bc.view)[bn := data])
      ensures Alone(others) && Room(old(bc.bufs), bn) && Fine(area, old(lh) + [bn], old(bc.bufs)) ==> ok
    {
      hide BufferCache.Valid, BufValid, PinnedBlocks, Did, CommitWrites, GoodTxn, TxnOf, Names, Newest, Clear,
           HeldBlock, Fine, Room, NoSpare, Cached;
      seen := [];
      if Room(bc.bufs, bn) {
        RoomSpare(bc.bufs, bn);
      }
      var entered := BeginOp();
      ok := LogChange(bn, data);
      if !ok { return; }
      ghost var done;
      ok, done, seen := EndOp(others);
    }
  }

  /** A buffer whose block is named is the pinned one. */
  lemma PinnedIfNamed(blocks: seq<nat>, bufs: seq<Buf>, pins: seq<nat>, view: seq<Block>, index: map<nat, nat>, b: nat)
    requires PinnedBlocks(blocks, bufs, pins, index) && b < |bufs| && bufs[b].dev == ROOTDEV
    requires BufValid(b, bufs[b], pins[b], view, index)
    ensures bufs[b].blockno in blocks ==> pins[b] == 1
    ensures bufs[b].blockno !in blocks ==> pins[b] == 0
  {
    if bufs[b].blockno in blocks {
      var k :| 0 <= k < |blocks| && blocks[k] == bufs[b].blockno;
      assert PinnedBlock(blocks[k], bufs, pins, index);
    }
  }

  lemma HeldIsCached(b: nat, buf: Buf, pins: nat, view: seq<Block>, index: map<nat, nat>)
    requires BufValid(b, buf, pins, view, index) && buf.locked
    ensures buf.dev == ROOTDEV && buf.blockno < |view|
  {
  }

  lemma NamesMore(area: Area, lh: seq<nat>, bn: nat, n: nat)
    requires Names(area, lh, n) && |lh| < LOGSIZE && |lh| < area.size - 1
    requires bn < n && !area.Contains(bn) && bn !in lh
    ensures Names(area, lh + [bn], n)
  {
  }

  lemma HeldStill(lh: seq<nat>, lh': seq<nat>, dirty: set<nat>, bufs: seq<Buf>, bufs': seq<Buf>,
                  index: map<nat, nat>, b: nat)
    requires lh <= lh' && b < |bufs| && bufs' == bufs[b := bufs[b].(refcnt := bufs[b].refcnt + 1)]
    requires forall bn :: bn in dirty ==> bn in lh || HeldBlock(bn, bufs, index)
    ensures forall bn :: bn in dirty ==> bn in lh' || HeldBlock(bn, bufs', index)
  {
  }

  lemma PinMore(blocks: seq<nat>, bufs: seq<Buf>, pins: seq<nat>, index: map<nat, nat>, view: seq<Block>, b: nat)
    requires PinnedBlocks(blocks, bufs, pins, index) && b < |bufs| && bufs[b].dev == ROOTDEV && bufs[b].valid
    requires BufValid(b, bufs[b], pins[b], view, index)
    requires bufs[b].blockno !in blocks
    ensures PinnedBlocks(blocks + [bufs[b].blockno], bufs[b := bufs[b].(refcnt := bufs[b].refcnt + 1)],
                         pins[b := pins[b] + 1], index)
  {
    PinnedIfNamed(blocks, bufs, pins, view, index, b);
    var bufs', pins' := bufs[b := bufs[b].(refcnt := bufs[b].refcnt + 1)], pins[b := pins[b] + 1];
    forall k | 0 <= k < |blocks|
      ensures PinnedBlock(blocks[k], bufs', pins', index)
    {
      assert PinnedBlock(blocks[k], bufs, pins, index);
    }
  }

  lemma HeaderCount(area: Area, d: Disk)
    requires GoodHeader(area, d)
    ensures area.start < |d| && WordAt(d[area.start], 0) <= LOGSIZE
  {
  }

  /** The copying loop of read_head. */
  method ParseHeader(data: Block) returns (blocks: seq<nat>)
    requires WordAt(data, 0) <= LOGSIZE
    ensures blocks == HeaderOf(data)
  {
    var n := WordAt(data, 0);
    blocks := [];
    for i := 0 to n
      invariant blocks == HeaderOf(data)[..i]
    {
      blocks := blocks + [WordAt(data, i + 1)];
    }
  }

  lemma NamesGood(area: Area, lh: seq<nat>, view: Disk)
    requires Names(area, lh, |view|)
    ensures forall k :: 0 <= k < |lh| ==> lh[k] < |view|
    ensures GoodTxn(area, TxnOf(lh, view), |view|) && BlockNos(TxnOf(lh, view)) == lh
    ensures |TxnOf(lh, view)| == |lh| <= LOGSIZE
    ensures forall k :: 0 <= k < |lh| ==> TxnOf(lh, view)[k] == Write(lh[k], view[lh[k]])
  {
  }

  lemma NamesNone(area: Area, diskSize: nat)
    requires 0 < area.size
    ensures Names(area, [], diskSize)
  {
  }

  lemma LogWritesFirst(area: Area, d: Disk, w: seq<Write>, txn: seq<Write>, k: nat, d': Disk, w': seq<Write>)
    requires area.Fits(d) && GoodTxn(area, txn, |d|) && Did(d, w, LogWrites(area, txn), k, d', w')
    ensures Did(d, w, HeaderWritten(area, d, txn), k, d', w')
  {
    DidFirst(d, w, LogWrites(area, txn), [Write(area.start, HeaderBlock(d[area.start], BlockNos(txn)))], k, d', w');
  }

  /** After all of write_log the log blocks hold the group, the old header is still in place, and
      write_head completes the first half of a commit. */
  lemma GroupLogged(area: Area, d: Disk, w: seq<Write>, txn: seq<Write>, d': Disk, w': seq<Write>)
    requires area.Fits(d) && GoodTxn(area, txn, |d|) && Did(d, w, LogWrites(area, txn), |txn|, d', w')
    ensures |d'| == |d| && forall k :: 0 <= k < |txn| ==> d'[area.start + 1 + k] == txn[k].data
    ensures |BlockNos(txn)| < WORDS
    ensures var head := HeaderBlock(d'[area.start], BlockNos(txn));
            Did(d, w, HeaderWritten(area, d, txn), |txn| + 1, d'[area.start := head], w' + [Write(area.start, head)])
  {
    var lw := LogWrites(area, txn);
    assert lw[..|txn|] == lw;
    ApplyAt(d, lw, area.start);
    FinalNone(lw, area.start);
    forall k | 0 <= k < |txn|
      ensures d'[area.start + 1 + k] == txn[k].data
    {
      LogCrash.LogWriteAt(area, d, txn, k);
    }
    LogWritesFirst(area, d, w, txn, |txn|, d', w');
    DidOne(d, w, HeaderWritten(area, d, txn), |txn|, d', w');
  }

  /** A part of install_trans, as part of a commit whose header is written. */
  lemma InstallPart(area: Area, d: Disk, w: seq<Write>, txn: seq<Write>, d1: Disk, w1: seq<Write>,
                    k: nat, d2: Disk, w2: seq<Write>)
    requires area.Fits(d) && GoodTxn(area, txn, |d|) && txn != []
    requires Did(d, w, HeaderWritten(area, d, txn), |txn| + 1, d1, w1) && Did(d1, w1, txn, k, d2, w2)
    ensures Did(d, w, CommitWrites(area, d, txn), |txn| + 1 + k, d2, w2)
  {
    var head := HeaderWritten(area, d, txn);
    assert |head| == |txn| + 1;
    DidBoth(d, w, head, txn, k, d1, w1, d2, w2);
    var full := HeaderBlock(d[area.start], BlockNos(txn));
    DidFirst(d, w, head + txn, [Write(area.start, HeaderBlock(full, []))], |head| + k, d2, w2);
  }

  /** With everything installed, clearing the header completes the commit. */
  lemma InstallDone(area: Area, d: Disk, w: seq<Write>, txn: seq<Write>, d2: Disk, w2: seq<Write>)
    requires area.Fits(d) && GoodTxn(area, txn, |d|) && txn != []
    requires Did(d, w, CommitWrites(area, d, txn), 2 * |txn| + 1, d2, w2)
    ensures |CommitWrites(area, d, txn)| == 2 * |txn| + 2 && |d2| == |d|
    ensures var clear := HeaderBlock(d2[area.start], []);
            Did(d, w, CommitWrites(area, d, txn), 2 * |txn| + 2, d2[area.start := clear],
                w2 + [Write(area.start, clear)])
  {
    var ws, head := CommitWrites(area, d, txn), HeaderWritten(area, d, txn);
    assert ws[..2 * |txn| + 1] == head + txn;
    ApplyConcat(d, head, txn);
    LogCrash.HomeOnly(area, Apply(d, head), txn);
    assert d2[area.start] == Apply(d, head)[area.start];
    assert Apply(d, head)[area.start] == HeaderBlock(d[area.start], BlockNos(txn));
    DidOne(d, w, ws, 2 * |txn| + 1, d2, w2);
  }

  lemma HeaderFirst(area: Area, d: Disk, w: seq<Write>, txn: seq<Write>, k: nat, d': Disk, w': seq<Write>)
    requires area.Fits(d) && GoodTxn(area, txn, |d|) && txn != []
    requires Did(d, w, HeaderWritten(area, d, txn), k, d', w')
    ensures Did(d, w, CommitWrites(area, d, txn), k, d', w')
  {
    var full := HeaderBlock(d[area.start], BlockNos(txn));
    var head, clear := HeaderWritten(area, d, txn), [Write(area.start, HeaderBlock(full, []))];
    DidFirst(d, w, head, txn, k, d', w');
    DidFirst(d, w, head + txn, clear, k, d', w');
  }

  lemma AllWritten(area: Area, d: Disk, w: seq<Write>, txn: seq<Write>, d': Disk, w': seq<Write>)
    requires Clear(area, d) && GoodTxn(area, txn, |d|)
    requires Did(d, w, CommitWrites(area, d, txn), |CommitWrites(area, d, txn)|, d', w')
    ensures Clear(area, d')
  {
    var ws := CommitWrites(area, d, txn);
    assert ws[..|ws|] == ws;
    LogCrash.CommitDone(area, d, txn);
  }

  lemma NothingToDo(area: Area, d: Disk, w: seq<Write>)
    requires area.Fits(d)
    ensures GoodTxn(area, TxnOf([], d), |d|) && CommitWrites(area, d, TxnOf([], d)) == []
    ensures Did(d, w, [], 0, d, w)
  {
  }

  lemma HeaderNames(area: Area, d: Disk)
    requires GoodHeader(area, d)
    ensures Names(area, HeaderOf(d[area.start]), |d|)
    ensures |Pending(area, d)| == |HeaderOf(d[area.start])|
    ensures forall k :: 0 <= k < |Pending(area, d)| ==>
              Pending(area, d)[k] == Write(HeaderOf(d[area.start])[k], d[area.start + 1 + k])
  {
    var blocks := HeaderOf(d[area.start]);
    assert forall k :: 0 <= k < |blocks| ==> Pending(area, d)[k].blockno == blocks[k];
  }

  /** A part of install_trans is a part of recovery, and clearing the header completes it. */
  lemma RecoverPart(area: Area, d: Disk, w: seq<Write>, k: nat, d': Disk, w': seq<Write>)
    requires GoodHeader(area, d) && Did(d, w, Pending(area, d), k, d', w')
    ensures Did(d, w, RecoverWrites(area, d), k, d', w') && |d'| == |d|
    ensures |RecoverWrites(area, d)| == |Pending(area, d)| + 1
    ensures k == |Pending(area, d)| ==>
              var clear := HeaderBlock(d'[area.start], []);
              Did(d, w, RecoverWrites(area, d), k + 1, d'[area.start := clear], w' + [Write(area.start, clear)])
  {
    var pending := Pending(area, d);
    DidFirst(d, w, pending, [Write(area.start, HeaderBlock(d[area.start], []))], k, d', w');
    if k == |pending| {
      LogCrash.HomeOnly(area, d, pending[..k]);
      DidOne(d, w, RecoverWrites(area, d), k, d', w');
    }
  }

  lemma AllRecovered(area: Area, d: Disk, w: seq<Write>, d': Disk, w': seq<Write>)
    requires GoodHeader(area, d) && Did(d, w, RecoverWrites(area, d), |RecoverWrites(area, d)|, d', w')
    ensures d' == Recovered(area, d)
  {
    assert RecoverWrites(area, d)[..|RecoverWrites(area, d)|] == RecoverWrites(area, d);
  }
}
