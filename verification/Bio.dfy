/** The circular doubly-linked list that orders the buffers by how recently they were used:
    `next` and `prev` hold list positions, `head` is the list head, and `order` is the sequence
    of elements met when following `next` from the head. */
module LruRing {

  /** Position k of the cycle head, order[0], order[1], ..., back to head. */
  function At(head: nat, order: seq<nat>, k: nat): nat {
    if 0 < k <= |order| then order[k - 1] else head
  }

  ghost predicate Link(next: seq<nat>, prev: seq<nat>, head: nat, order: seq<nat>, k: nat) {
    && At(head, order, k) < |next| && At(head, order, k + 1) < |prev|
    && next[At(head, order, k)] == At(head, order, k + 1)
    && prev[At(head, order, k + 1)] == At(head, order, k)
  }

  ghost predicate Elements(n: nat, head: nat, order: seq<nat>) {
    && head < n
    && (forall i :: 0 <= i < |order| ==> order[i] < n && order[i] != head)
    && (forall i, j :: 0 <= i < j < |order| ==> order[i] != order[j])
  }

  ghost predicate Linked(next: seq<nat>, prev: seq<nat>, head: nat, order: seq<nat>) {
    && |next| == |prev|
    && Elements(|next|, head, order)
    && forall k: nat :: k <= |order| ==> Link(next, prev, head, order, k)
  }

  function Without(order: seq<nat>, p: nat): seq<nat>
    requires p < |order|
  {
    order[..p] + order[p + 1..]
  }

  /** Two positions of the cycle hold the same element only if they are the same position,
      or both are the head. */
  lemma AtDistinct(n: nat, head: nat, order: seq<nat>, i: nat, j: nat)
    requires Elements(n, head, order)
    requires i <= |order| + 1 && j <= |order| + 1
    ensures At(head, order, i) == At(head, order, j) ==>
              i == j || (i in {0, |order| + 1} && j in {0, |order| + 1})
  {
  }

  /** Rewiring the neighbours of one element takes exactly that element out of the cycle. */
  lemma Unlink(next: seq<nat>, prev: seq<nat>, head: nat, order: seq<nat>, p: nat)
    requires Linked(next, prev, head, order) && p < |order|
    ensures next[order[p]] < |next| && prev[order[p]] < |next|
    ensures Linked(next[prev[order[p]] := next[order[p]]], prev[next[order[p]] := prev[order[p]]],
                   head, Without(order, p))
  {
    var b, rest := order[p], Without(order, p);
    assert Link(next, prev, head, order, p) && Link(next, prev, head, order, p + 1);
    var next', prev' := next[prev[b] := next[b]], prev[next[b] := prev[b]];
    forall k: nat | k <= |rest|
      ensures Link(next', prev', head, rest, k)
    {
      assert At(head, rest, k) == At(head, order, if k <= p then k else k + 1);
      assert At(head, rest, k + 1) == At(head, order, if k < p then k + 1 else k + 2);
      if k != p {
        var m := if k <= p then k else k + 1;
        assert Link(next, prev, head, order, m);
        AtDistinct(|next|, head, order, m, p);
        AtDistinct(|next|, head, order, m + 1, p + 2);
      }
    }
  }

  /** Inserting b right after the head puts it first in the order. */
  lemma PushFront(next: seq<nat>, prev: seq<nat>, head: nat, order: seq<nat>, b: nat)
    requires Linked(next, prev, head, order)
    requires b < |next| && b != head && b !in order
    ensures next[head] < |next|
    ensures Linked(next[b := next[head]][head := b], prev[b := head][next[head] := b], head, [b] + order)
  {
    assert Link(next, prev, head, order, 0);
    var next', prev' := next[b := next[head]][head := b], prev[b := head][next[head] := b];
    var order' := [b] + order;
    forall k: nat | k <= |order'|
      ensures Link(next', prev', head, order', k)
    {
      if k >= 1 {
        assert Link(next, prev, head, order, k - 1);
        assert At(head, order', k + 1) == At(head, order, k);
        assert k >= 2 ==> At(head, order', k) == At(head, order, k - 1);
        AtDistinct(|next|, head, order, k, 1);
      }
    }
  }
}

/** The buffer cache, over one disk whose block writes are atomic and recorded in order.
    Methods are the critical sections of the source: interleavings of processes are sequences
    of calls. A call that would put its process to sleep is not enabled (a `requires`), and a
    panic is a returned None. */
module Bio {
  import opened Blocks
  import opened Common
  import opened LruRing

  const NBUF: nat := 30
  const HEAD: nat := NBUF  // the ring position of bcache.head
  const ROOTDEV: nat := 1

  datatype Buf = Buf(valid: bool, dev: nat, blockno: nat, locked: bool, refcnt: nat, data: Block)

  /** One completed block write. */
  datatype Write = Write(blockno: nat, data: Block)

  predicate Holds(b: Buf, bn: nat) {
    b.dev == ROOTDEV && b.blockno == bn
  }

  /** Buffer i is the only one for its block, is referenced while held or pinned, and holds the
      newest contents once valid. */
  predicate BufValid(i: nat, b: Buf, pins: nat, view: seq<Block>, index: map<nat, nat>) {
    && b.refcnt >= pins + (if b.locked then 1 else 0)
    && (b.locked || pins > 0 ==> b.dev == ROOTDEV)
    && (b.dev == ROOTDEV ==> && b.blockno < |view|
                             && b.blockno in index && index[b.blockno] == i
                             && (b.valid ==> b.data == view[b.blockno]))
  }

  /** Between two moments: no reference or hold was gained or lost, and referenced buffers still
      have their blocks. */
  predicate Kept(was: seq<Buf>, now: seq<Buf>) {
    && |was| == |now|
    && forall i :: 0 <= i < |now| ==> KeptBuf(was[i], now[i])
  }

  predicate KeptBuf(was: Buf, now: Buf) {
    && now.refcnt == was.refcnt
    && now.locked == was.locked
    && (was.refcnt > 0 ==> now.dev == was.dev && now.blockno == was.blockno && (was.valid ==> now.valid))
  }

  predicate NoneHeld(bufs: seq<Buf>) {
    forall i :: 0 <= i < |bufs| ==> !bufs[i].locked
  }

  /** Nobody holds the buffer of block bn. */
  predicate Unheld(bufs: seq<Buf>, bn: nat) {
    forall i :: 0 <= i < |bufs| && Holds(bufs[i], bn) ==> !bufs[i].locked
  }

  /** There is an unreferenced buffer, and besides it another one or one that has block bn. */
  ghost predicate Room(bufs: seq<Buf>, bn: nat) {
    exists i, j :: 0 <= i < |bufs| && 0 <= j < |bufs| && i != j && bufs[i].refcnt == 0
                   && (bufs[j].refcnt == 0 || Holds(bufs[j], bn))
  }

  /** Every buffer is referenced: reading a block that is not cached would panic. */
  predicate NoSpare(bufs: seq<Buf>) {
    forall i :: 0 <= i < |bufs| ==> bufs[i].refcnt > 0
  }

  /** Some buffer in use has block bn. */
  ghost predicate Cached(bufs: seq<Buf>, bn: nat) {
    exists j :: 0 <= j < |bufs| && Holds(bufs[j], bn) && bufs[j].refcnt > 0
  }

  class BufferCache {
    var bufs: seq<Buf>
    var next: seq<nat>
    var prev: seq<nat>
    var disk: seq<Block>

    ghost var writes: seq<Write>    // every block write so far, in order
    ghost var order: seq<nat>       // the buffers, most recently used first
    ghost var view: seq<Block>      // the newest contents of every block
    ghost var pins: seq<nat>        // how many of a buffer's references are log pins
    ghost var index: map<nat, nat>  // the buffer that holds, or last held, a block
    ghost var dirty: set<nat>       // blocks that may be newer in the cache than on disk

    ghost predicate RingValid()
      reads this`next, this`prev, this`order
    {
      && |next| == NBUF + 1
      && Linked(next, prev, HEAD, order)
      && |order| == NBUF
      && forall i :: 0 <= i < NBUF ==> i in order
    }

    ghost predicate DirtyValid(bn: nat)
      requires |pins| == |bufs|
      reads this
    {
      && bn in index
      && var i := index[bn];
      i < |bufs| && Holds(bufs[i], bn) && bn < |disk| && bufs[i].valid && (bufs[i].locked || pins[i] > 0)
    }

    ghost predicate Valid()
      reads this
    {
      && |bufs| == |pins| == NBUF
      && |view| == |disk|
      && RingValid()
      && (forall i :: 0 <= i < NBUF ==> BufValid(i, bufs[i], pins[i], view, index))
      && (forall bn :: 0 <= bn < |disk| && bn !in dirty ==> view[bn] == disk[bn])
      && (forall bn :: bn in dirty ==> DirtyValid(bn))
    }

    /** binit: every buffer starts as device 0, block 0, in the ring. */
    constructor (disk: seq<Block>)
      ensures Valid()
      ensures this.disk == disk && view == disk && writes == [] && dirty == {}
      ensures forall i :: 0 <= i < NBUF ==> bufs[i].refcnt == 0 && pins[i] == 0 && bufs[i].dev != ROOTDEV
    {
      this.disk, view, writes, dirty, index := disk, disk, [], {}, map[];
      bufs := seq(NBUF, _ => Buf(false, 0, 0, false, 0, ZeroBlock));
      pins := seq(NBUF, _ => 0);
      next, prev := seq(NBUF + 1, _ => HEAD), seq(NBUF + 1, _ => HEAD);
      order := [];
      new;
      for b := 0 to NBUF
        invariant |next| == NBUF + 1
        invariant Linked(next, prev, HEAD, order)
        invariant |order| == b
        invariant forall i :: i in order <==> 0 <= i < b
        invariant this.disk == disk && view == disk && writes == [] && dirty == {}
        invariant |bufs| == |pins| == NBUF
        invariant forall i :: 0 <= i < NBUF ==> bufs[i] == Buf(false, 0, 0, false, 0, ZeroBlock) && pins[i] == 0
      {
        PushFront(next, prev, HEAD, order, b);
        next := next[b := next[HEAD]];
        prev := prev[b := HEAD];
        prev := prev[next[HEAD] := b];
        next := next[HEAD := b];
        order := [b] + order;
      }
    }

    /** The first loop of bget: the buffer of a block, if it is cached. */
    method FindCached(bn: nat) returns (r: Option<nat>)
      requires Valid()
      ensures r.None? ==> forall i :: 0 <= i < NBUF ==> !Holds(bufs[i], bn)
      ensures r.Some? ==> r.value < NBUF && Holds(bufs[r.value], bn)
    {
      var b := next[HEAD];
      assert Link(next, prev, HEAD, order, 0);
      ghost var k := 0;
      while b != HEAD
        invariant 0 <= k <= NBUF && b == At(HEAD, order, k + 1)
        invariant forall j :: 0 <= j < k ==> !Holds(bufs[order[j]], bn)
        decreases NBUF - k
      {
        if bufs[b].dev == ROOTDEV && bufs[b].blockno == bn {
          return Some(b);
        }
        assert Link(next, prev, HEAD, order, k + 1);
        b := next[b];
        k := k + 1;
      }
      forall i | 0 <= i < NBUF
        ensures !Holds(bufs[i], bn)
      {
        assert i in order;
      }
      return None;
    }

    /** Whether bread of a block would sleep: some process holds its buffer. */
    method IsHeld(bn: nat) returns (held: bool)
      requires Valid()
      ensures held <==> !Unheld(bufs, bn)
    {
      hide RingValid, DirtyValid;
      var r := FindCached(bn);
      if r.None? { return false; }
      assert forall i :: 0 <= i < NBUF && Holds(bufs[i], bn) ==> i == index[bn];
      return bufs[r.value].locked;
    }

    /** Buffer b is unreferenced, and every buffer used less recently is referenced. */
    ghost predicate LeastRecentUnused(b: nat)
      requires |order| == |bufs| == NBUF && forall q :: 0 <= q < NBUF ==> order[q] < NBUF
      reads this
    {
      b < NBUF && bufs[b].refcnt == 0
      && exists p :: 0 <= p < NBUF && order[p] == b
                     && forall q :: p < q < NBUF ==> bufs[order[q]].refcnt > 0
    }

    /** The second loop of bget: the buffer to recycle. */
    method FindUnused() returns (r: Option<nat>)
      requires Valid()
      ensures r.None? ==> forall i :: 0 <= i < NBUF ==> bufs[i].refcnt > 0
      ensures r.Some? ==> LeastRecentUnused(r.value)
    {
      var b := prev[HEAD];
      assert Link(next, prev, HEAD, order, NBUF);
      ghost var k := NBUF;
      while b != HEAD
        invariant 0 <= k <= NBUF && b == At(HEAD, order, k)
        invariant forall j :: k <= j < NBUF ==> bufs[order[j]].refcnt > 0
        decreases k
      {
        if bufs[b].refcnt == 0 {
          return Some(b);
        }
        k := k - 1;
        assert Link(next, prev, HEAD, order, k);
        b := prev[b];
      }
      forall i | 0 <= i < NBUF
        ensures bufs[i].refcnt > 0
      {
        assert i in order;
      }
      return None;
    }

    /** The part of bget under bcache.lock: find the block's buffer, or recycle the least
        recently used buffer that nobody references. None is the "no buffers" panic. */
    method Lookup(bn: nat) returns (r: Option<nat>)
      requires Valid() && bn < |disk|
      modifies this`bufs, this`index
      ensures Valid()
      ensures r.None? ==> bufs == old(bufs)
                          && forall i :: 0 <= i < NBUF ==> bufs[i].refcnt > 0 && !Holds(bufs[i], bn)
      ensures r.Some? ==> r.value < NBUF
                          && bufs == old(bufs)[r.value := bufs[r.value]]
                          && Holds(bufs[r.value], bn)
      ensures r.Some? && Holds(old(bufs)[r.value], bn) ==>
                bufs[r.value] == old(bufs)[r.value].(refcnt := old(bufs)[r.value].refcnt + 1)
      ensures r.Some? && !Holds(old(bufs)[r.value], bn) ==>
                && (forall i :: 0 <= i < NBUF ==> !Holds(old(bufs)[i], bn))
                && old(LeastRecentUnused(r.value))
                && bufs[r.value] == Buf(false, ROOTDEV, bn, false, 1, old(bufs)[r.value].data)
    {
      hide RingValid;
      r := FindCached(bn);
      if r.Some? {
        bufs := bufs[r.value := bufs[r.value].(refcnt := bufs[r.value].refcnt + 1)];
        return;
      }
      assert bn !in dirty by {
        assert bn in dirty ==> DirtyValid(bn);
      }
      r := FindUnused();
      if r.Some? {
        bufs := bufs[r.value := bufs[r.value].(dev := ROOTDEV, blockno := bn, valid := false, refcnt := 1)];
        index := index[bn := r.value];
      }
    }

    /** acquiresleep on a buffer the caller has referenced, once nobody else holds it. */
    method Acquire(b: nat)
      requires Valid() && b < NBUF && bufs[b].dev == ROOTDEV
      requires !bufs[b].locked && bufs[b].refcnt > pins[b]
      modifies this`bufs
      ensures Valid()
      ensures bufs == old(bufs)[b := old(bufs)[b].(locked := true)]
    {
      hide RingValid;
      bufs := bufs[b := bufs[b].(locked := true)];
    }

    /** The end of bread: read the block in if the buffer does not hold it yet. */
    method Fill(b: nat)
      requires Valid() && b < NBUF && bufs[b].locked
      modifies this`bufs
      ensures Valid()
      ensures old(bufs)[b].blockno < |view|
      ensures bufs == old(bufs)[b := old(bufs)[b].(valid := true, data := view[old(bufs)[b].blockno])]
    {
      hide RingValid;
      if !bufs[b].valid {
        bufs := bufs[b := bufs[b].(valid := true, data := disk[bufs[b].blockno])];
      }
    }

    /** bread: the returned buffer is locked and holds the newest contents of the block. */
    method Bread(bn: nat) returns (r: Option<nat>)
      requires Valid() && bn < |disk|
      requires Unheld(bufs, bn)
      modifies this`bufs, this`index
      ensures Valid()
      ensures r.None? ==> bufs == old(bufs)
                          && forall i :: 0 <= i < NBUF ==> bufs[i].refcnt > 0 && !Holds(bufs[i], bn)
      ensures r.Some? ==> && r.value < NBUF
                          && (var refs := old(bufs)[r.value].refcnt + 1;
                              bufs == old(bufs)[r.value := Buf(true, ROOTDEV, bn, true, refs, view[bn])])
                          && !old(bufs)[r.value].locked
                          && (old(bufs)[r.value].refcnt > 0 ==> Holds(old(bufs)[r.value], bn))
                          && (bn in dirty ==> pins[r.value] > 0)
    {
      hide RingValid;
      assert bn in dirty ==> DirtyValid(bn);
      r := Lookup(bn);
      if r.Some? {
        Acquire(r.value);
        Fill(r.value);
      }
    }

    /** The holder of a buffer changes its contents. */
    method Modify(b: nat, data: Block)
      requires Valid() && b < NBUF && bufs[b].locked && bufs[b].valid
      modifies this`bufs, this`view, this`dirty
      ensures Valid()
      ensures bufs == old(bufs)[b := old(bufs)[b].(data := data)]
      ensures bufs[b].blockno < |view| && view == old(view)[bufs[b].blockno := data]
      ensures dirty == old(dirty) + {bufs[b].blockno}
    {
      hide RingValid;
      bufs := bufs[b := bufs[b].(data := data)];
      view := view[bufs[b].blockno := data];
      dirty := dirty + {bufs[b].blockno};
    }

    /** bwrite: one atomic block write, after which disk and cache agree on the block. */
    method Bwrite(b: nat)
      requires Valid() && b < NBUF && bufs[b].locked && bufs[b].valid
      modifies this`disk, this`writes, this`dirty
      ensures Valid()
      ensures bufs[b].blockno < |old(disk)| && disk == old(disk)[bufs[b].blockno := bufs[b].data]
      ensures writes == old(writes) + [Write(bufs[b].blockno, bufs[b].data)]
      ensures dirty == old(dirty) - {bufs[b].blockno}
    {
      hide RingValid;
      disk := disk[bufs[b].blockno := bufs[b].data];
      writes := writes + [Write(bufs[b].blockno, bufs[b].data)];
      dirty := dirty - {bufs[b].blockno};
    }

    /** The pointer assignments of brelse. */
    method ToFront(b: nat)
      requires RingValid() && b < NBUF
      modifies this`next, this`prev, this`order
      ensures RingValid()
      ensures exists p :: 0 <= p < NBUF && old(order)[p] == b && order == [b] + Without(old(order), p)
    {
      assert b in order;
      ghost var p :| 0 <= p < NBUF && order[p] == b;
      MoveToFront(next, prev, order, p);
      prev := prev[next[b] := prev[b]];
      next := next[prev[b] := next[b]];
      next := next[b := next[HEAD]];
      prev := prev[b := HEAD];
      prev := prev[next[HEAD] := b];
      next := next[HEAD := b];
      order := [b] + Without(order, p);
    }

    /** brelse: a buffer newer than the disk must have been pinned by the log first; the last
        reference moves the buffer to the front of the ring. */
    method Brelse(b: nat)
      requires Valid() && b < NBUF && bufs[b].locked
      requires bufs[b].blockno in dirty ==> pins[b] > 0
      modifies this`bufs, this`next, this`prev, this`order
      ensures Valid()
      ensures bufs == old(bufs)[b := old(bufs)[b].(locked := false, refcnt := old(bufs)[b].refcnt - 1)]
      ensures bufs[b].refcnt > 0 ==> order == old(order)
      ensures bufs[b].refcnt == 0 ==>
                exists p :: 0 <= p < NBUF && old(order)[p] == b && order == [b] + Without(old(order), p)
    {
      hide RingValid;
      bufs := bufs[b := bufs[b].(locked := false)];
      bufs := bufs[b := bufs[b].(refcnt := bufs[b].refcnt - 1)];
      if bufs[b].refcnt == 0 {
        ToFront(b);
      }
    }

    /** bpin: the log keeps the buffer from being recycled. */
    method Bpin(b: nat)
      requires Valid() && b < NBUF && bufs[b].locked
      modifies this`bufs, this`pins
      ensures Valid()
      ensures bufs == old(bufs)[b := old(bufs)[b].(refcnt := old(bufs)[b].refcnt + 1)]
      ensures pins == old(pins)[b := old(pins)[b] + 1]
    {
      hide RingValid;
      bufs := bufs[b := bufs[b].(refcnt := bufs[b].refcnt + 1)];
      pins := pins[b := pins[b] + 1];
    }

    /** bunpin. The caller holds the buffer, so a block it leaves dirty stays cached. */
    method Bunpin(b: nat)
      requires Valid() && b < NBUF && bufs[b].locked && pins[b] > 0
      modifies this`bufs, this`pins
      ensures Valid()
      ensures bufs == old(bufs)[b := old(bufs)[b].(refcnt := old(bufs)[b].refcnt - 1)]
      ensures pins == old(pins)[b := old(pins)[b] - 1]
    {
      hide RingValid;
      bufs := bufs[b := bufs[b].(refcnt := bufs[b].refcnt - 1)];
      pins := pins[b := pins[b] - 1];
    }

    /** Read two blocks, first and second, that nobody holds. */
    method BreadTwo(first: nat, second: nat) returns (ok: bool, a: nat, b: nat)
      requires Valid() && Unheld(bufs, first) && Unheld(bufs, second)
      requires first < |disk| && second < |disk| && first != second
      modifies this`bufs, this`index
      ensures Valid()
      ensures ok ==> && a < NBUF && b < NBUF && a != b
                     && bufs == old(bufs)[a := Buf(true, ROOTDEV, first, true, old(bufs)[a].refcnt + 1, view[first])]
                                         [b := Buf(true, ROOTDEV, second, true, old(bufs)[b].refcnt + 1, view[second])]
                     && (old(bufs)[a].refcnt > 0 ==> Holds(old(bufs)[a], first))
                     && (old(bufs)[b].refcnt > 0 ==> Holds(old(bufs)[b], second))
                     && !old(bufs)[a].locked && !old(bufs)[b].locked
                     && (first in dirty ==> pins[a] > 0) && (second in dirty ==> pins[b] > 0)
      ensures old(Room(bufs, second)) ==> ok
      ensures !ok && Cached(old(bufs), second) ==> bufs == old(bufs) && NoSpare(bufs)
    {
      hide RingValid, DirtyValid, BufValid;
      a, b := 0, 0;
      var r := Bread(first);
      if r.None? { return false, a, b; }
      a := r.value;
      r := Bread(second);
      if r.None? { return false, a, b; }
      return true, a, r.value;
    }

    /** memmove into a held buffer, then bwrite. */
    method Overwrite(b: nat, data: Block)
      requires Valid() && b < NBUF && bufs[b].locked && bufs[b].valid
      modifies this`bufs, this`view, this`dirty, this`disk, this`writes
      ensures Valid()
      ensures bufs == old(bufs)[b := old(bufs)[b].(data := data)]
      ensures bufs[b].blockno < |view| && view == old(view)[bufs[b].blockno := data]
      ensures disk == old(disk)[bufs[b].blockno := data]
      ensures writes == old(writes) + [Write(bufs[b].blockno, data)]
      ensures dirty == old(dirty) - {bufs[b].blockno}
    {
      hide RingValid, DirtyValid, BufValid;
      Modify(b, data);
      Bwrite(b);
    }

    /** Overwrite and release one block that nobody holds, given what it held before. */
    method FinishWrite(b: nat, data: Block)
      requires Valid() && b < NBUF && bufs[b].locked && bufs[b].valid
      modifies this
      ensures Valid() && pins == old(pins)
      ensures bufs == old(bufs)[b := old(bufs)[b].(data := data, locked := false, refcnt := old(bufs)[b].refcnt - 1)]
      ensures bufs[b].blockno < |view| && view == old(view)[bufs[b].blockno := data]
      ensures disk == old(disk)[bufs[b].blockno := data]
      ensures writes == old(writes) + [Write(bufs[b].blockno, data)]
      ensures dirty == old(dirty) - {bufs[b].blockno}
    {
      hide RingValid, DirtyValid, BufValid;
      Overwrite(b, data);
      Brelse(b);
    }

    method BrelseTwo(a: nat, b: nat)
      requires Valid() && a < NBUF && b < NBUF && a != b && bufs[a].locked && bufs[b].locked
      requires bufs[a].blockno in dirty ==> pins[a] > 0
      requires bufs[b].blockno in dirty ==> pins[b] > 0
      modifies this`bufs, this`next, this`prev, this`order
      ensures Valid()
      ensures bufs == old(bufs)[a := old(bufs)[a].(locked := false, refcnt := old(bufs)[a].refcnt - 1)]
                               [b := old(bufs)[b].(locked := false, refcnt := old(bufs)[b].refcnt - 1)]
    {
      hide RingValid, DirtyValid, BufValid;
      Brelse(a);
      Brelse(b);
    }

    /** One round of write_log: copy a home block as cached into its log block, and write that. */
    method LogBlock(log: nat, home: nat) returns (ok: bool)
      requires Valid() && Unheld(bufs, log) && Unheld(bufs, home)
      requires log < |disk| && home < |disk| && log != home && log !in dirty
      modifies this
      ensures !ok ==> disk == old(disk) && writes == old(writes)
      ensures ok ==> Valid() && Kept(old(bufs), bufs) && pins == old(pins) && dirty == old(dirty)
      ensures ok ==> && view == old(view)[log := old(view)[home]]
                     && disk == old(disk)[log := old(view)[home]]
                     && writes == old(writes) + [Write(log, old(view)[home])]
      ensures old(Room(bufs, home)) ==> ok
      ensures !ok && Cached(old(bufs), home) ==> bufs == old(bufs) && NoSpare(bufs)
    {
      hide RingValid, DirtyValid;
      var to, from;
      ok, to, from := BreadTwo(log, home);
      if ok {
        Overwrite(to, bufs[from].data);
        BrelseTwo(from, to);
      }
    }

    /** The end of a round of install_trans. */
    method ReleaseInstalled(lbuf: nat, dbuf: nat, recovering: bool)
      requires Valid() && lbuf < NBUF && dbuf < NBUF && lbuf != dbuf && bufs[lbuf].locked && bufs[dbuf].locked
      requires bufs[lbuf].blockno !in dirty && bufs[dbuf].blockno !in dirty
      requires !recovering ==> pins[dbuf] > 0
      modifies this`bufs, this`next, this`prev, this`order, this`pins
      ensures Valid()
      ensures pins == if recovering then old(pins) else old(pins)[dbuf := old(pins)[dbuf] - 1]
      ensures var d := old(bufs)[dbuf];
              bufs == old(bufs)[lbuf := old(bufs)[lbuf].(locked := false, refcnt := old(bufs)[lbuf].refcnt - 1)]
                               [dbuf := d.(locked := false,
                                           refcnt := if recovering then d.refcnt - 1 else d.refcnt - 2)]
    {
      hide RingValid, DirtyValid;
      if !recovering {
        Bunpin(dbuf);
      }
      BrelseTwo(lbuf, dbuf);
    }

    /** One round of install_trans: copy a log block over its home block, and write that. */
    method InstallBlock(log: nat, home: nat, recovering: bool) returns (ok: bool)
      requires Valid() && Unheld(bufs, log) && Unheld(bufs, home)
      requires log < |disk| && home < |disk| && log != home && log !in dirty
      requires !recovering ==>
                 home in index && index[home] < NBUF && Holds(bufs[index[home]], home) && pins[index[home]] > 0
      modifies this
      ensures !ok ==> disk == old(disk) && writes == old(writes)
      ensures ok ==> Valid() && dirty == old(dirty) - {home}
      ensures ok && recovering ==> Kept(old(bufs), bufs) && pins == old(pins)
      ensures ok && !recovering ==>
                var b := old(index)[home];
                && pins == old(pins)[b := old(pins)[b] - 1]
                && Kept(old(bufs)[b := old(bufs)[b].(refcnt := old(bufs)[b].refcnt - 1)], bufs)
      ensures ok ==> && view == old(view)[home := old(view)[log]]
                     && disk == old(disk)[home := old(view)[log]]
                     && writes == old(writes) + [Write(home, old(view)[log])]
      ensures old(Room(bufs, home)) ==> ok
      ensures !ok && Cached(old(bufs), home) ==> bufs == old(bufs) && NoSpare(bufs)
    {
      hide RingValid, DirtyValid;
      var lbuf, dbuf;
      ok, lbuf, dbuf := BreadTwo(log, home);
      if ok {
        Overwrite(dbuf, bufs[lbuf].data);
        assert dbuf == index[home];
        ReleaseInstalled(lbuf, dbuf, recovering);
      }
    }
  }

  /** brelse's six pointer assignments on a ring of all buffers keep it a ring of all buffers. */
  lemma MoveToFront(next: seq<nat>, prev: seq<nat>, order: seq<nat>, p: nat)
    requires |next| == NBUF + 1 && Linked(next, prev, HEAD, order) && |order| == NBUF && p < NBUF
    requires forall i :: 0 <= i < NBUF ==> i in order
    ensures var b := order[p];
            && next[b] <= NBUF && prev[b] <= NBUF
            && var prev1 := prev[next[b] := prev[b]];
            && prev1[b] <= NBUF
            && var next1 := next[prev1[b] := next[b]];
            && next1[HEAD] <= NBUF
            && Linked(next1[b := next1[HEAD]][HEAD := b], prev1[b := HEAD][next1[HEAD] := b], HEAD,
                      [b] + Without(order, p))
    ensures |Without(order, p)| == NBUF - 1
    ensures forall i :: 0 <= i < NBUF ==> i in [order[p]] + Without(order, p)
  {
    var b, rest := order[p], Without(order, p);
    Unlink(next, prev, HEAD, order, p);
    assert Link(next, prev, HEAD, order, p) && Link(next, prev, HEAD, order, p + 1);
    AtDistinct(NBUF + 1, HEAD, order, p + 1, p + 2);
    PushFront(next[prev[b] := next[b]], prev[next[b] := prev[b]], HEAD, rest, b);
    forall i | 0 <= i < NBUF
      ensures i in [b] + rest
    {
      assert i in order;
      var q :| 0 <= q < NBUF && order[q] == i;
      assert q < p ==> rest[q] == i;
      assert q > p ==> rest[q - 1] == i;
    }
  }
}
