/** kernel/vm.c and kernel/kalloc.c: page tables built and taken down over a pool of frames. */
module Vm {
  import opened Blocks
  import opened Common
  import opened VmSpec

  datatype WalkResult = BadAddress | NoTable | At(t: int, i: int)
  datatype MapResult = Mapped | NoMemory | Panicked

  predicate Filled(p: Page, b: Byte) {
    forall x :: 0 <= x < PGSIZE ==> p[x] == b
  }

  function Fill(b: Byte): (p: Page)
    ensures Filled(p, b)
  {
    seq(PGSIZE, _ => b)
  }

  lemma PopFrame(lo: int, hi: int, free: seq<int>, use: Uses)
    requires Frames(lo, hi, free, use) && free != []
    ensures var f := free[|free| - 1];
            f in use && use[f].Free? && 0 < f && Frames(lo, hi, free[..|free| - 1], use[f := Held])
  {
  }

  lemma PushFrame(lo: int, hi: int, free: seq<int>, use: Uses, f: int)
    requires Frames(lo, hi, free, use) && f in use && use[f] == Held
    ensures Frames(lo, hi, free + [f], use[f := Free(|free|)])
  {
  }

  ghost predicate AllFrames(lo: int, hi: int, mem: map<int, Page>) {
    forall f :: f in mem <==> lo <= f < hi
  }

  /** Frames that no tree refers to may change hands between the free list and the kernel. */
  lemma HandOver(ts: Tables, use: Uses, f: int, u: Use)
    requires Tree(ts, use) && f in use && (use[f].Free? || use[f].Held?) && (u.Free? || u.Held?)
    ensures Tree(ts, use[f := u]) && (Whole(use) ==> Whole(use[f := u]))
  {
    hide R, W, X, U;
    var use' := use[f := u];
    forall t, i | t in ts && 0 <= i < ENTRIES
      ensures EntryOk(ts, use', t, i)
    {
      assert EntryOk(ts, use, t, i);
    }
    forall g | g in use'
      ensures UseOk(ts, use', g)
    {
      assert UseOk(ts, use, g);
    }
  }

  /** Page-table pages may have been added, with no effect on any page of any root and on nothing in use. */
  ghost predicate Grew(ts: Tables, use: Uses, mem: map<int, Page>, ts': Tables, use': Uses, mem': map<int, Page>) {
    && SameMaps(ts, ts', use)
    && (forall f :: f in use <==> f in use')
    && (forall f :: f in use ==> use'[f] == use[f] || (use[f].Free? && Inner(use'[f])))
    && (forall f :: f in mem <==> f in mem')
    && (forall f :: f in use && f in mem && !use[f].Free? ==> mem'[f] == mem[f])
  }

  lemma GrewTwice(ts: Tables, use: Uses, mem: map<int, Page>, ts1: Tables, use1: Uses, mem1: map<int, Page>,
                  ts2: Tables, use2: Uses, mem2: map<int, Page>)
    requires Grew(ts, use, mem, ts1, use1, mem1) && Grew(ts1, use1, mem1, ts2, use2, mem2)
    ensures Grew(ts, use, mem, ts2, use2, mem2)
  {
    forall r, v | IsRoot(use, r) && 0 <= v < MAXPAGE
      ensures Leaf(ts2, r, v) == Leaf(ts, r, v)
    {
      assert IsRoot(use1, r);
      assert Leaf(ts1, r, v) == Leaf(ts, r, v);
    }
  }

  class Memory {
    const lo: int   // the first frame after the kernel
    const hi: int   // PHYSTOP
    var free: seq<int>   // the free list, its head last
    var ts: Tables
    var mem: map<int, Page>
    ghost var use: Uses

    ghost predicate Valid()
      reads this
    {
      Frames(lo, hi, free, use) && Tree(ts, use) && AllFrames(lo, hi, mem) && Whole(use)
    }

    /** Valid, except that a subtree may be detached. */
    ghost predicate Sound()
      reads this
    {
      Frames(lo, hi, free, use) && Tree(ts, use) && AllFrames(lo, hi, mem)
    }

    /** kinit and freerange: every whole page between `end` and `top` goes to the free list. */
    constructor (end: nat, top: nat)
      requires 0 < end
      ensures Valid() && ts == map[] && forall f :: f in use ==> use[f].Free?
      ensures forall f :: f in use <==> end <= f * PGSIZE && (f + 1) * PGSIZE <= top
    {
      lo := (end + PGSIZE - 1) / PGSIZE;
      hi := top / PGSIZE;
      ts := map[];
      var p := (end + PGSIZE - 1) / PGSIZE;
      var fr: seq<int> := [];
      var m: map<int, Page> := map[];
      ghost var u: Uses := map[];
      while p < top / PGSIZE
        invariant (end + PGSIZE - 1) / PGSIZE <= p
        invariant forall f :: f in u <==> (end + PGSIZE - 1) / PGSIZE <= f < p && f < top / PGSIZE
        invariant forall f :: f in u ==> u[f].Free? && 0 <= u[f].pos < |fr| && fr[u[f].pos] == f
        invariant forall k :: 0 <= k < |fr| ==> fr[k] in u && u[fr[k]] == Free(k)
        invariant forall f :: f in m <==> (end + PGSIZE - 1) / PGSIZE <= f < p && f < top / PGSIZE
      {
        m := m[p := Fill(1)];
        u := u[p := Free(|fr|)];
        fr := fr + [p];
        p := p + 1;
      }
      free, mem, use := fr, m, u;
    }

    /** kalloc: a frame off the free list, filled with junk; NONE when there is none. */
    method Kalloc() returns (f: int)
      requires Valid()
      modifies this`free, this`mem, this`use
      ensures Valid()
      ensures f == NONE <==> old(free) == []
      ensures f == NONE ==> free == old(free) && mem == old(mem) && use == old(use)
      ensures f != NONE ==> && f in old(use) && old(use)[f].Free? && 0 < f && f in mem
                            && free == old(free)[..|old(free)| - 1]
                            && use == old(use)[f := Held] && mem == old(mem)[f := Fill(5)]
    {
      hide Tree, Whole;
      if free == [] {
        return NONE;
      }
      PopFrame(lo, hi, free, use);
      f := free[|free| - 1];
      HandOver(ts, use, f, Held);
      free := free[..|free| - 1];
      use := use[f := Held];
      mem := mem[f := Fill(5)];
    }

    /** kfree: false is its panic. */
    method Kfree(pa: int) returns (ok: bool)
      requires Sound()
      requires pa % PGSIZE == 0 && lo <= pa / PGSIZE < hi ==> pa / PGSIZE in use && use[pa / PGSIZE] == Held
      modifies this`free, this`mem, this`use
      ensures ok <==> pa % PGSIZE == 0 && lo <= pa / PGSIZE < hi
      ensures ok ==> && Sound() && (Whole(old(use)) ==> Whole(use)) && free == old(free) + [pa / PGSIZE]
                     && use == old(use)[pa / PGSIZE := Free(|old(free)|)] && mem == old(mem)[pa / PGSIZE := Fill(1)]
      ensures !ok ==> free == old(free) && mem == old(mem) && use == old(use)
    {
      hide Tree, Whole;
      if pa % PGSIZE != 0 || pa / PGSIZE < lo || pa / PGSIZE >= hi {
        return false;
      }
      var f := pa / PGSIZE;
      PushFrame(lo, hi, free, use, f);
      HandOver(ts, use, f, Free(|free|));
      use := use[f := Free(|free|)];
      free := free + [f];
      mem := mem[f := Fill(1)];
      return true;
    }

    /** One level of walk: the table below table t, allocated if need be; NONE if there is none. */
    method WalkStep(root: int, v: int, t: int, level: nat, alloc: bool) returns (n: int)
      requires Valid() && IsRoot(use, root) && 0 <= v < MAXPAGE && 1 <= level <= 2
      requires t == TableAt(ts, root, v, level) != NONE
      modifies this`free, this`ts, this`mem, this`use
      ensures Valid() && IsRoot(use, root) && Grew(old(ts), old(use), old(mem), ts, use, mem)
      ensures n == TableAt(ts, root, v, level - 1)
      ensures !alloc ==> ts == old(ts) && free == old(free) && mem == old(mem) && use == old(use)
      ensures old(TableAt(ts, root, v, level - 1)) != NONE ==>
            n == old(TableAt(ts, root, v, level - 1)) && ts == old(ts) && use == old(use)
      ensures alloc && n == NONE ==> free == []
    {
      TableLevel(ts, use, root, v, level);
      var i := PX(level, v);
      TableEntry(ts, use, t, i);
      EntryNext(ts, use, t, i);
      assert TableAt(ts, root, v, level - 1) == Next(ts, t, i);
      hide Tree, Whole, Frames, AllFrames, Grew, SameMaps, EntryOk, TableAt, Frame, V, PX;
      GrewSelf(ts, use, mem);
      var pte := ts[t][i];
      if V(pte) {
        return Frame(pte);
      }
      if !alloc {
        return NONE;
      }
      n := Kalloc();
      if n == NONE {
        return;
      }
      PutTable(root, v, t, level, n, old(use), old(mem));
    }

    /** A fresh frame becomes the table below t. */
    method PutTable(root: int, v: int, t: int, level: nat, n: int, ghost use0: Uses, ghost mem0: map<int, Page>)
      requires Valid() && IsRoot(use, root) && 0 <= v < MAXPAGE && 1 <= level <= 2
      requires t == TableAt(ts, root, v, level) != NONE && TableAt(ts, root, v, level - 1) == NONE
      requires n in use0 && n in mem0 && 0 < n && use0[n].Free? && use == use0[n := Held] && mem == mem0[n := Fill(5)]
      modifies this`ts, this`use
      ensures Valid() && IsRoot(use, root) && Grew(old(ts), use0, mem0, ts, use, mem)
      ensures n == TableAt(ts, root, v, level - 1)
    {
      var i := PX(level, v);
      assert 0 <= i < ENTRIES;
      hide Tree, Whole, Frames, AllFrames, Grew, SameMaps, EntryOk, TableAt, Frame, V, PX;
      TableAdded(ts, use, root, v, level, n);
      FramesUse(lo, hi, free, use, n, Table(t, i, level - 1));
      StepGrew(ts, use0, mem0, ts[t := ts[t][i := n * 1024 + 1]][n := ZeroTable()], n, Table(t, i, level - 1));
      use := use[n := Table(t, i, level - 1)];
      ts := ts[t := ts[t][i := n * 1024 + 1]][n := ZeroTable()];
    }

    /** walk: the place of page v's entry. Tables that are missing are allocated if asked for; that
        changes no mapping. It fails for lack of memory only. */
    method Walk(root: int, va: nat, alloc: bool) returns (r: WalkResult)
      requires Valid() && IsRoot(use, root)
      modifies this`free, this`ts, this`mem, this`use
      ensures Valid() && IsRoot(use, root) && Grew(old(ts), old(use), old(mem), ts, use, mem)
      ensures r.BadAddress? <==> va / PGSIZE >= MAXPAGE
      ensures !alloc ==> ts == old(ts) && free == old(free) && mem == old(mem) && use == old(use)
      ensures old(TableAt(ts, root, va / PGSIZE, 0)) != NONE ==> ts == old(ts) && use == old(use)
      ensures r.NoTable? ==> TableAt(ts, root, va / PGSIZE, 0) == NONE && (alloc ==> free == [])
      ensures r.At? ==> r.t == TableAt(ts, root, va / PGSIZE, 0) != NONE && r.i == PX(0, va / PGSIZE)
    {
      hide Tree, Whole, Frames, AllFrames, Leaf, PX;
      GrewSelf(ts, use, mem);
      RootTable(ts, use, root);
      if va >= MAXPAGE * PGSIZE {
        return BadAddress;
      }
      var v := va / PGSIZE;
      var t, level := root, 2;
      ghost var ts0, use0, mem0 := ts, use, mem;
      while level > 0
        invariant 0 <= level <= 2 && Valid() && IsRoot(use, root) && Grew(ts0, use0, mem0, ts, use, mem)
        invariant t == TableAt(ts, root, v, level) != NONE
        invariant !alloc ==> ts == ts0 && free == old(free) && mem == mem0 && use == use0
        invariant TableAt(ts0, root, v, 0) != NONE ==> ts == ts0 && use == use0
      {
        ghost var ts1, use1, mem1 := ts, use, mem;
        ghost var was := TableAt(ts, root, v, level - 1);
        t := WalkStep(root, v, t, level, alloc);
        GrewTwice(ts0, use0, mem0, ts1, use1, mem1, ts, use, mem);
        assert TableAt(ts0, root, v, 0) != NONE ==> ts == ts0 && use == use0 by {
          if was == NONE && TableAt(ts0, root, v, 0) != NONE {
            NoWay(ts0, use0, root, v, level - 1);
          }
        }
        if t == NONE {
          NoWay(ts, use, root, v, level - 1);
          return NoTable;
        }
        level := level - 1;
      }
      return At(t, PX(0, v));
    }

    /** One round of mappages. A frame that becomes a user page must be held (`own`); others must not be
        user pages. */
    method MapOne(root: int, v: nat, f: nat, perm: nat, ghost own: bool) returns (r: MapResult)
      requires Valid() && IsRoot(use, root) && MayMap(use, f, perm, own)
      modifies this`free, this`ts, this`mem, this`use
      ensures Valid() && IsRoot(use, root)
      ensures r.Panicked? <==> v >= MAXPAGE || Leaf(old(ts), root, v) != 0
      ensures r.NoMemory? ==> free == [] && Grew(old(ts), old(use), old(mem), ts, use, mem) && NoTableFor(ts, root, v)
      ensures r.Mapped? ==> && OnePage(old(ts), ts, old(use), root, v, Entry(f, perm))
                            && Took(old(use), old(mem), use, mem, f, if own then 1 else 0)
    {
      hide Tree, Whole, Frames, AllFrames, Grew, PX, MayMap, Entry, R, W, X, U, V, Leaf, TableAt, OnePage, Took,
           Level, IsRoot;
      MayMapSmall(use, f, perm, own);
      PageOfPage(v);
      var w := Walk(root, v * PGSIZE, true);
      if w.BadAddress? {
        return Panicked;
      }
      WalkedLeaf(old(ts), old(use), old(mem), ts, use, mem, root, v);
      if w.NoTable? {
        return NoMemory;
      }
      if V(ts[w.t][w.i]) {
        return Panicked;
      }
      MayMapStill(old(ts), old(use), old(mem), ts, use, mem, f, perm, own);
      MapDone(lo, hi, free, ts, use, root, v, f, perm, own);
      GrewThenOne(old(ts), old(use), old(mem), ts, use, mem, ts[w.t := ts[w.t][w.i := Entry(f, perm)]], root, v, f,
                  perm, own,
                  User(w.t, w.i));
      ts := ts[w.t := ts[w.t][w.i := Entry(f, perm)]];
      use := if own then use[f := User(w.t, w.i)] else use;
      return Mapped;
    }

    /** mappages: after success exactly the pages asked for are mapped, to consecutive frames; running out
        of memory leaves the first k of them mapped. It panics only for a range that is empty, unaligned,
        too high, or meets a page that is mapped already. */
    method Mappages(root: int, va: nat, size: nat, pa: nat, perm: nat, ghost own: bool)
      returns (r: MapResult, ghost k: nat)
      requires Valid() && IsRoot(use, root)
      requires forall g: nat :: pa / PGSIZE <= g < pa / PGSIZE + size / PGSIZE ==> MayMap(use, g, perm, own)
      requires perm < 1024
      modifies this`free, this`ts, this`mem, this`use
      ensures Valid() && IsRoot(use, root)
      ensures r.Panicked? ==> va % PGSIZE != 0 || size % PGSIZE != 0 || size == 0
                              || !Clear(old(ts), root, va / PGSIZE, size / PGSIZE)
      ensures !r.Panicked? ==> && va % PGSIZE == 0 && size % PGSIZE == 0 && size != 0
                               && Clear(old(ts), root, va / PGSIZE, k)
                               && PagesSet(old(ts), ts, old(use), root, va / PGSIZE, k, pa / PGSIZE, perm)
                               && Took(old(use), old(mem), use, mem, pa / PGSIZE, if own then k else 0)
      ensures r.Mapped? ==> k == size / PGSIZE
      ensures r.NoMemory? ==> k < size / PGSIZE && free == [] && NoTableFor(ts, root, va / PGSIZE + k)
    {
      hide Memory.Valid, Tree, Whole, Frames, AllFrames, MayMap, PagesSet, Took, Clear, IsRoot, NoTableFor;
      k := 0;
      if va % PGSIZE != 0 || size % PGSIZE != 0 || size == 0 {
        return Panicked, k;
      }
      ghost var ts0, use0, mem0 := ts, use, mem;
      var first, n, f := va / PGSIZE, size / PGSIZE, pa / PGSIZE;
      assert n >= 1;
      var i := 0;
      NothingSet(ts, use, mem, root, first, f, perm);
      while true
        invariant 0 <= i < n && k == i
        invariant MapInv(ts0, use0, mem0, root, first, i, f, n, perm, own)
        decreases n - i
      {
        r := MapRound(root, first, i, f, n, perm, own, ts0, use0, mem0);
        if !r.Mapped? {
          return;
        }
        i := i + 1;
        k := i;
        if i == n {
          return;
        }
      }
    }

    /** Where mappages stands after i pages. */
    ghost predicate MapInv(ts0: Tables, use0: Uses, mem0: map<int, Page>, root: int, first: nat, i: nat, f: nat,
                           n: nat, perm: nat, own: bool)
      reads this
    {
      && Valid() && IsRoot(use, root) && IsRoot(use0, root) && perm < 1024
      && (forall g: nat :: f + i <= g < f + n ==> MayMap(use, g, perm, own))
      && Clear(ts0, root, first, i)
      && PagesSet(ts0, ts, use0, root, first, i, f, perm)
      && Took(use0, mem0, use, mem, f, if own then i else 0)
    }

    method MapRound(root: int, first: nat, i: nat, f: nat, n: nat, perm: nat, ghost own: bool,
                    ghost ts0: Tables, ghost use0: Uses, ghost mem0: map<int, Page>) returns (r: MapResult)
      requires MapInv(ts0, use0, mem0, root, first, i, f, n, perm, own) && i < n
      modifies this`free, this`ts, this`mem, this`use
      ensures Valid() && IsRoot(use, root) && perm < 1024
      ensures r.Panicked? ==> !Clear(ts0, root, first, n)
      ensures r.NoMemory? ==>
            && free == [] && Clear(ts0, root, first, i) && PagesSet(ts0, ts, use0, root, first, i, f, perm)
            && Took(use0, mem0, use, mem, f, if own then i else 0) && NoTableFor(ts, root, first + i)
      ensures r.Mapped? ==> && Clear(ts0, root, first, i + 1) && PagesSet(ts0, ts, use0, root, first, i + 1, f, perm)
                            && Took(use0, mem0, use, mem, f, if own then i + 1 else 0)
                            && (i + 1 < n ==> MapInv(ts0, use0, mem0, root, first, i + 1, f, n, perm, own))
    {
      hide Tree, Whole, Frames, AllFrames, MayMap, PagesSet, OnePage, Took, Leaf, Grew, Entry, Clear, NoTableFor;
      ghost var ts1, use1, mem1 := ts, use, mem;
      r := MapOne(root, first + i, f + i, perm, own);
      NextUnset(ts0, ts1, use0, root, first, i, f, perm);
      if r.NoMemory? {
        SetGrew(ts0, use0, mem0, ts1, use1, mem1, ts, use, mem, root, first, i, f, perm, if own then i else 0);
      } else if r.Panicked? {
        NotClear(ts0, root, first, n, first + i);
      } else {
        ClearNext(ts0, root, first, i);
        SetOne(ts0, use0, mem0, ts1, use1, mem1, ts, use, mem, root, first, i, f, perm, own);
        if i + 1 < n {
          forall g: nat | f + i < g < f + n
            ensures MayMap(use, g, perm, own)
          {
            MayMapTook(use1, mem1, use, mem, f + i, g, perm, own);
          }
        }
      }
    }

    /** One round of uvmunmap; false is one of its panics. (The entry is cleared before its frame goes to
        the free list.) */
    method UnmapOne(root: int, v: nat, doFree: bool) returns (ok: bool)
      requires Valid() && IsRoot(use, root) && MayUnmap(ts, use, root, v, doFree)
      modifies this`free, this`ts, this`mem, this`use
      ensures ok <==> v < MAXPAGE && Leaf(old(ts), root, v) != 0
      ensures ok ==> && Valid() && IsRoot(use, root) && OnePage(old(ts), ts, old(use), root, v, 0)
                     && Gave(old(use), old(mem), use, mem, Frame(Leaf(old(ts), root, v)), doFree)
                     && |free| == |old(free)| + (if doFree then 1 else 0) && SameTables(old(ts), ts, root)
    {
      hide Tree, Whole, Frames, AllFrames, Grew, PX, R, W, X, U, V, TableAt, OnePage, Leaf, MayUnmap, Gave, Frame,
           Flags, EntryOk, SameTables;
      PageOfPage(v);
      var w := Walk(root, v * PGSIZE, false);
      if w.BadAddress? {
        return false;
      }
      GrewSelf(ts, use, mem);
      WalkedLeaf(ts, use, mem, ts, use, mem, root, v);
      if w.NoTable? {
        return false;
      }
      var pte := ts[w.t][w.i];
      if !V(pte) {
        return false;
      }
      LeafUse(ts, use, root, v);
      NotInner(pte);
      if Flags(pte) == 1 {
        return false;
      }
      UnmapDone(lo, hi, free, ts, use, root, v, doFree);
      SameTablesAfter(ts, use, root, v);
      ts := ts[w.t := ts[w.t][w.i := 0]];
      ok := true;
      if doFree {
        InPool(lo, hi, free, use, mem, Frame(pte));
        GaveFrame(use, mem, Frame(pte), |free|);
        use := use[Frame(pte) := Held];
        ok := Kfree(Frame(pte) * PGSIZE);
      } else {
        GaveNone(use, mem, Frame(pte));
      }
    }

    /** Where uvmunmap stands after i pages. */
    ghost predicate UnmapInv(ts0: Tables, use0: Uses, mem0: map<int, Page>, root: int, first: nat, i: nat, n: nat,
                             doFree: bool)
      reads this
    {
      && i <= n && Valid() && IsRoot(use, root) && IsRoot(use0, root)
      && AllMapped(ts0, root, first, i)
      && Cleared(ts0, ts, use0, root, first, i)
      && Freed(ts0, use0, mem0, use, mem, root, first, i, doFree)
      && MayUnmapAll(ts, use, root, first + i, n - i, doFree)
      && SameTables(ts0, ts, root)
    }

    method UnmapRound(root: int, first: nat, i: nat, n: nat, doFree: bool, ghost ts0: Tables, ghost use0: Uses,
                      ghost mem0: map<int, Page>)
      returns (ok: bool)
      requires UnmapInv(ts0, use0, mem0, root, first, i, n, doFree) && i < n
      modifies this`free, this`ts, this`mem, this`use
      ensures ok ==> UnmapInv(ts0, use0, mem0, root, first, i + 1, n, doFree)
      ensures ok ==> |free| == |old(free)| + if doFree then 1 else 0
      ensures !ok ==> !AllMapped(ts0, root, first, n)
    {
      hide Tree, Whole, Frames, AllFrames, Cleared, Freed, Gave, OnePage, Leaf, AllMapped, MayUnmap, TableAt;
      MayUnmapNext(ts, use, root, first + i, n - i, doFree);
      ClearedNext(ts0, ts, use0, root, first, i);
      ghost var ts1, use1, mem1 := ts, use, mem;
      ok := UnmapOne(root, first + i, doFree);
      if ok {
        MoreMapped(ts0, root, first, i);
        MoreFreed(ts0, use0, mem0, ts1, use1, mem1, ts, use, mem, root, first, i, n, doFree);
      } else {
        NotAllMapped(ts0, root, first, n, first + i);
      }
    }

    /** uvmunmap: exactly the pages asked for are unmapped, and with doFree exactly their frames are freed.
        False is a panic: the range is unaligned or has a page that is not mapped. */
    method Uvmunmap(root: int, va: nat, npages: nat, doFree: bool) returns (ok: bool)
      requires Valid() && IsRoot(use, root) && MayUnmapAll(ts, use, root, va / PGSIZE, npages, doFree)
      modifies this`free, this`ts, this`mem, this`use
      ensures ok <==> va % PGSIZE == 0 && AllMapped(old(ts), root, va / PGSIZE, npages)
      ensures ok ==> && Valid() && IsRoot(use, root)
                     && Cleared(old(ts), ts, old(use), root, va / PGSIZE, npages)
                     && Freed(old(ts), old(use), old(mem), use, mem, root, va / PGSIZE, npages, doFree)
                     && |free| == |old(free)| + (if doFree then npages else 0) && SameTables(old(ts), ts, root)
    {
      hide Tree, Whole, Frames, AllFrames, Cleared, Freed, AllMapped, MayUnmapAll, TableAt;
      if va % PGSIZE != 0 {
        return false;
      }
      ghost var ts0, use0, mem0 := ts, use, mem;
      var first, i := va / PGSIZE, 0;
      NothingFreed(ts, use, mem, root, first, doFree);
      while i < npages
        invariant i <= npages && UnmapInv(ts0, use0, mem0, root, first, i, npages, doFree)
        invariant |free| == |old(free)| + if doFree then i else 0
      {
        ok := UnmapRound(root, first, i, npages, doFree, ts0, use0, mem0);
        if !ok {
          return;
        }
        i := i + 1;
      }
      return true;
    }

    /** The loop body that uvmalloc and uvmcopy share: a fresh frame with the given contents becomes page v.
        When memory runs out everything but page tables is as before. */
    method AddPage(root: int, v: nat, page: Page, perm: nat) returns (ok: bool)
      requires Valid() && IsRoot(use, root) && Unmapped(ts, root, v) && perm < 1024 && (R(perm) || W(perm) || X(perm))
      modifies this`free, this`ts, this`mem, this`use
      ensures Valid() && IsRoot(use, root) && SameOwners(old(use), use) && MemKept(old(use), old(mem), use, mem)
      ensures ok ==> Added(old(ts), ts, old(use), use, mem, root, v, [Want(perm, page)])
      ensures !ok ==> SameMaps(old(ts), ts, old(use)) && OutOfFrames(ts, root, v, free)
    {
      hide Tree, Whole, Frames, Leaf, R, W, X, U, Took, PagesSet, SameMaps, NoTableFor;
      var f := Kalloc();
      if f == NONE {
        NothingSame(ts, use, mem);
        return false;
      }
      mem := mem[f := page];
      assert MayMap(use, f, perm, true) && f * PGSIZE / PGSIZE == f && v * PGSIZE / PGSIZE == v;
      assert PGSIZE / PGSIZE == 1 && v * PGSIZE % PGSIZE == 0;
      ghost var use1, mem1 := use, mem;
      var r;
      ghost var k;
      r, k := Mappages(root, v * PGSIZE, PGSIZE, f * PGSIZE, perm, true);
      if r.Panicked? {
        ClearOne(old(ts), root, v);
        assert false;
      }
      if r.NoMemory? {
        PageNotAdded(old(ts), ts, old(use), old(mem), use1, mem1, use, mem, root, v, f, page, perm, |free|);
        ok := Kfree(f * PGSIZE);
        return false;
      }
      PageAdded(old(ts), ts, old(use), old(mem), use1, mem1, use, mem, root, v, f, page, perm);
      return true;
    }

    /** uvmdealloc: the pages above newsz go, and their frames are free. */
    method Uvmdealloc(root: int, oldsz: nat, newsz: nat) returns (ok: bool, r: nat)
      requires Valid() && IsRoot(use, root) && (newsz < oldsz ==> UserPages(ts, use, root, Pages(newsz), Pages(oldsz)))
      modifies this`free, this`ts, this`mem, this`use
      ensures ok && r == if newsz >= oldsz then oldsz else newsz
      ensures Valid() && IsRoot(use, root)
      ensures newsz >= oldsz ==> ts == old(ts) && use == old(use) && mem == old(mem) && free == old(free)
      ensures newsz < oldsz ==>
                && Pages(newsz) <= Pages(oldsz)
                && Cleared(old(ts), ts, old(use), root, Pages(newsz), Pages(oldsz) - Pages(newsz))
                && Freed(old(ts), old(use), old(mem), use, mem, root, Pages(newsz), Pages(oldsz) - Pages(newsz), true)
                && |free| == |old(free)| + Pages(oldsz) - Pages(newsz)
    {
      hide Tree, Whole, Frames, AllFrames;
      if newsz >= oldsz {
        return true, oldsz;
      }
      ok := true;
      UserPagesUnmap(ts, use, root, Pages(newsz), Pages(oldsz));
      if Pages(newsz) < Pages(oldsz) {
        var npages := Pages(oldsz) - Pages(newsz);
        assert Pages(newsz) * PGSIZE / PGSIZE == Pages(newsz) && Pages(newsz) * PGSIZE % PGSIZE == 0;
        ok := Uvmunmap(root, Pages(newsz) * PGSIZE, npages, true);
      } else {
        NothingFreed(ts, use, mem, root, Pages(newsz), true);
      }
      return ok, newsz;
    }

    /** Where uvmalloc and uvmcopy stand: the pages of ws are there. */
    ghost predicate AddInv(ts0: Tables, use0: Uses, mem0: map<int, Page>, root: int, first: nat, ws: seq<Want>)
      reads this
    {
      && Valid() && IsRoot(use, root) && IsRoot(use0, root)
      && SameOwners(use0, use) && MemKept(use0, mem0, use, mem)
      && Added(ts0, ts, use0, use, mem, root, first, ws)
    }

    /** Adding the next page to those of ws. */
    method AddNext(root: int, first: nat, v: nat, page: Page, perm: nat, ghost ws: seq<Want>,
                   ghost ts0: Tables, ghost use0: Uses, ghost mem0: map<int, Page>) returns (ok: bool)
      requires AddInv(ts0, use0, mem0, root, first, ws)
      requires v == first + |ws| && Unmapped(ts0, root, v) && perm < 1024 && (R(perm) || W(perm) || X(perm))
      modifies this`free, this`ts, this`mem, this`use
      ensures ok ==> AddInv(ts0, use0, mem0, root, first, ws + [Want(perm, page)])
      ensures !ok ==> AddInv(ts0, use0, mem0, root, first, ws) && OutOfFrames(ts, root, v, free)
    {
      hide OutOfFrames, Tree, Whole, Frames, AllFrames, Leaf, R, W, X, U, SameOwners, MemKept, SameMaps, HasPage;
      NextFree(ts0, ts, use0, use, mem, root, first, ws);
      hide Added;
      ghost var ts1, use1, mem1 := ts, use, mem;
      ok := AddPage(root, v, page, perm);
      OwnersTwice(use0, mem0, use1, mem1, use, mem);
      if ok {
        AddedMore(ts0, ts1, ts, use0, use1, use, mem1, mem, root, first, ws, Want(perm, page));
      } else {
        AddedStill(ts0, ts1, ts, use0, use1, use, mem1, mem, root, first, ws);
      }
    }

    /** The failure path of uvmalloc and uvmcopy: unmapping what was added restores every mapping, and
        everything in use but page tables. */
    method RollBack(root: int, first: nat, n: nat, ghost ws: seq<Want>, ghost ts0: Tables, ghost use0: Uses,
                    ghost mem0: map<int, Page>)
      requires AddInv(ts0, use0, mem0, root, first, ws) && |ws| == n && Clear(ts0, root, first, n) && Tree(ts0, use0)
      requires Whole(use0)
      modifies this`free, this`ts, this`mem, this`use
      ensures Valid() && IsRoot(use, root) && |free| == |old(free)| + n && SameTables(old(ts), ts, root)
      ensures SameMaps(ts0, ts, use0) && SameOwners(use0, use) && MemKept(use0, mem0, use, mem)
    {
      hide SameTables, Tree, Whole, Frames, AllFrames, Leaf, SameOwners, MemKept, SameMaps, HasPage, Added, Clear,
           AllMapped, MayUnmapAll, Cleared, Freed;
      AddedUnmap(ts0, ts, use0, use, mem, root, first, ws);
      assert first * PGSIZE / PGSIZE == first && first * PGSIZE % PGSIZE == 0;
      ghost var ts1, use1, mem1 := ts, use, mem;
      var ok := Uvmunmap(root, first * PGSIZE, n, true);
      RolledBack(ts0, use0, mem0, ts1, use1, mem1, ts, use, mem, root, first, ws);
    }

    /** uvmalloc: zeroed user pages up to newsz, or, out of memory, every mapping and everything in use but
        page tables as before. It gives up only when no more frames are free than pages were asked for. */
    method Uvmalloc(root: int, oldsz: nat, newsz: nat, xperm: nat) returns (r: Option<nat>)
      requires Valid() && IsRoot(use, root) && xperm in {0, 4, 8, 12}
      requires oldsz <= newsz ==>
            Pages(oldsz) <= Pages(newsz) && Clear(ts, root, Pages(oldsz), Pages(newsz) - Pages(oldsz))
      modifies this`free, this`ts, this`mem, this`use
      ensures Valid() && IsRoot(use, root)
      ensures newsz < oldsz ==>
            r == Some(oldsz) && ts == old(ts) && use == old(use) && mem == old(mem) && free == old(free)
      ensures SameOwners(old(use), use) && MemKept(old(use), old(mem), use, mem)
      ensures newsz >= oldsz ==>
                var n := Pages(newsz) - Pages(oldsz);
                && (r == None || r == Some(newsz))
                && (r.Some? ==> Added(old(ts), ts, old(use), use, mem, root, Pages(oldsz), Zeroed(n, xperm)))
                && (r.None? ==> SameMaps(old(ts), ts, old(use)) && Short(ts, root, Pages(oldsz), n, free))
      ensures r == Some(newsz) ==>
                forall a: nat :: Pages(oldsz) * PGSIZE <= a < newsz ==> NewByte(ts, mem, root, a, W(xperm), X(xperm))
    {
      hide Tree, Whole, Frames, AllFrames, Added, SameOwners, MemKept, SameMaps, W, X, U, Unmapped, NewByte,
           Short, SameTables, OutOfFrames, HasTables;
      NothingSame(ts, use, mem);
      if newsz < oldsz {
        return Some(oldsz);
      }
      var first, n, perm := Pages(oldsz), Pages(newsz) - Pages(oldsz), 18 + xperm;
      ghost var ts0, use0, mem0 := ts, use, mem;
      var i := 0;
      AddedNone(ts, use, mem, root, first);
      assert Zeroed(0, xperm) == [];
      assert R(perm);
      hide R;
      while i < n
        invariant 0 <= i <= n && AddInv(ts0, use0, mem0, root, first, Zeroed(i, xperm))
      {
        assert Unmapped(ts0, root, first + i);
        var ok := AddNext(root, first, first + i, Fill(0), perm, Zeroed(i, xperm), ts0, use0, mem0);
        if !ok {
          ClearLess(ts0, root, first, n, i);
          ghost var ts1, free1 := ts, free;
          AddedTables(ts0, ts, use0, use, mem, root, first, Zeroed(i, xperm));
          RollBack(root, first, i, Zeroed(i, xperm), ts0, use0, mem0);
          UnmappedLow(ts0, root, first + i);
          RanShort(ts1, ts, root, first, i, n, free1, free);
          return None;
        }
        assert Zeroed(i + 1, xperm) == Zeroed(i, xperm) + [Want(perm, Fill(0))];
        i := i + 1;
      }
      forall a: nat | first * PGSIZE <= a < newsz
        ensures NewByte(ts, mem, root, a, W(xperm), X(xperm))
      {
        AddedByte(ts0, ts, use0, use, mem, root, first, n, xperm, a);
      }
      return Some(newsz);
    }

    /** uvmcopy: the child gets pages of its own with the parent's flags and contents; out of memory, every
        mapping and everything in use but page tables is as before. Its panics are never reached. */
    method Uvmcopy(parent: int, child: int, sz: nat) returns (ok: bool)
      requires Valid() && IsRoot(use, parent) && IsRoot(use, child) && parent != child
      requires UserPages(ts, use, parent, 0, Pages(sz)) && Clear(ts, child, 0, Pages(sz))
      modifies this`free, this`ts, this`mem, this`use
      ensures Valid() && IsRoot(use, child) && SameOwners(old(use), use) && MemKept(old(use), old(mem), use, mem)
      ensures ok ==> Added(old(ts), ts, old(use), use, mem, child, 0, Copies(old(ts), old(mem), parent, Pages(sz)))
      ensures ok ==> forall a: nat :: a < sz ==> SameByte(old(ts), old(mem), parent, ts, mem, child, a)
      ensures !ok ==> SameMaps(old(ts), ts, old(use)) && Short(ts, child, 0, Pages(sz), free)
    {
      hide Tree, Whole, Frames, AllFrames, Added, SameOwners, MemKept, SameMaps, Unmapped, UserPages, CopyOf, Clear,
           Copies, Pages, SameByte, Short, SameTables, OutOfFrames, HasTables;
      ghost var ts0, use0, mem0 := ts, use, mem;
      var i, n := 0, Pages(sz);
      PoolMem(lo, hi, free, use, mem);
      NothingSame(ts, use, mem);
      AddedNone(ts, use, mem, child, 0);
      NoCopies(ts0, mem0, parent);
      while i < n
        invariant 0 <= i <= n && AddInv(ts0, use0, mem0, child, 0, Copies(ts0, mem0, parent, i))
      {
        ClearLess(ts0, child, 0, n, i);
        CopiesNext(ts0, mem0, parent, i);
        ok := CopyNext(parent, child, i, n, Copies(ts0, mem0, parent, i), ts0, use0, mem0);
        if !ok {
          ghost var ts1, free1 := ts, free;
          AddedTables(ts0, ts, use0, use, mem, child, 0, Copies(ts0, mem0, parent, i));
          RollBack(child, 0, i, Copies(ts0, mem0, parent, i), ts0, use0, mem0);
          UnmappedLow(ts0, child, i);
          RanShort(ts1, ts, child, 0, i, n, free1, free);
          return false;
        }
        i := i + 1;
      }
      forall a: nat | a < sz
        ensures SameByte(ts0, mem0, parent, ts, mem, child, a)
      {
        CopiedByte(ts0, ts, use0, use, mem0, mem, parent, child, n, a);
      }
      return true;
    }

    /** One round of uvmcopy. */
    method CopyNext(parent: int, child: int, i: nat, n: nat, ghost ws: seq<Want>,
                    ghost ts0: Tables, ghost use0: Uses, ghost mem0: map<int, Page>) returns (ok: bool)
      requires AddInv(ts0, use0, mem0, child, 0, ws) && |ws| == i < n
      requires IsRoot(use0, parent) && parent != child && UserPages(ts0, use0, parent, 0, n) && Unmapped(ts0, child, i)
      requires forall f :: f in use0 <==> f in mem0
      modifies this`free, this`ts, this`mem, this`use
      ensures ok ==> AddInv(ts0, use0, mem0, child, 0, ws + [CopyOf(ts0, mem0, parent, i)])
      ensures !ok ==> AddInv(ts0, use0, mem0, child, 0, ws) && OutOfFrames(ts, child, i, free)
    {
      hide Tree, Whole, Frames, AllFrames, Added, SameOwners, MemKept, Grew, R, W, X, U, V, Unmapped, UserPages,
           Leaf, TableAt, CopyOf, Frame, Flags, PX, OutOfFrames;
      assert i * PGSIZE / PGSIZE == i;
      ParentPage(ts0, use0, mem0, ts, use, mem, parent, child, ws, i, n);
      ParentRoot(use0, use, parent);
      var w := Walk(parent, i * PGSIZE, false);
      GrewSelf(ts, use, mem);
      WalkedLeaf(ts, use, mem, ts, use, mem, parent, i);
      LeafUse(ts, use, parent, i);
      var pte := ts[w.t][w.i];
      FlagBits(pte);
      ok := AddNext(child, 0, i, mem[Frame(pte)], Flags(pte), ws, ts0, use0, mem0);
    }

    /** Where freewalk stands before entry i of table t. */
    ghost predicate WalkInv(ts0: Tables, use0: Uses, mem0: map<int, Page>, t: int, l: int, i: int)
      reads this
    {
      && Sound() && Tree(ts0, use0) && t in use0 && use0[t] == Table(NONE, 0, l) && 0 <= i <= ENTRIES
      && Pruned(ts0, use0, ts, use, t, i) && NoLeaves(ts0, use0, t, i)
      && MemApart(use0, mem0, mem, t) && Covers(use0, mem0)
    }

    /** freewalk: frees the whole tree of page tables below t and touches nothing else. False is its panic,
        exactly when there is a leaf in the tree. (An entry is cleared before the subtree behind it is freed.) */
    method Freewalk(t: int, ghost l: int) returns (ok: bool)
      requires Sound() && t in use && use[t] == Table(NONE, 0, l)
      modifies this`free, this`ts, this`mem, this`use
      ensures ok <==> NoLeaves(old(ts), old(use), t, ENTRIES)
      ensures ok ==> Sound() && Felled(old(ts), old(use), ts, use, t) && MemApart(old(use), old(mem), mem, t)
      decreases l, 2
    {
      hide Tree, Frames, AllFrames, Pruned, NoLeaves, Felled, MemApart, Level;
      ghost var ts0, use0, mem0 := ts, use, mem;
      PruneNone(ts, use, mem, t);
      PoolMem(lo, hi, free, use, mem);
      assert Covers(use, mem);
      hide Covers;
      var i := 0;
      while i < ENTRIES
        invariant WalkInv(ts0, use0, mem0, t, l, i)
      {
        ok := FreeEntry(t, i, l, ts0, use0, mem0);
        if !ok {
          return;
        }
        i := i + 1;
      }
      PruneAll(lo, hi, free, ts0, use0, mem0, ts, use, mem, t);
      use := use[t := Held];
      ts := ts - {t};
      assert t * PGSIZE / PGSIZE == t && t * PGSIZE % PGSIZE == 0;
      ok := Kfree(t * PGSIZE);
    }

    /** One round of freewalk. */
    method FreeEntry(t: int, i: int, ghost l: int, ghost ts0: Tables, ghost use0: Uses, ghost mem0: map<int, Page>)
      returns (ok: bool)
      requires WalkInv(ts0, use0, mem0, t, l, i) && i < ENTRIES
      modifies this`free, this`ts, this`mem, this`use
      ensures ok ==> WalkInv(ts0, use0, mem0, t, l, i + 1)
      ensures !ok ==> !NoLeaves(ts0, use0, t, ENTRIES)
      decreases l, 1
    {
      assert Level(use0[t]) == l;
      hide Tree, Frames, AllFrames, Covers, Pruned, NoLeaves, Felled, MemApart, V, R, W, X, Level, Frame;
      PrunedEntry(ts0, use0, ts, use, t, i);
      EntryKind(ts, use, t, i);
      var pte := ts[t][i];
      if V(pte) && !R(pte) && !W(pte) && !X(pte) {
        ok := FreeChild(t, i, l, ts0, use0, mem0);
      } else if V(pte) {
        LeafThere(ts0, use0, t, i);
        return false;
      } else {
        PruneEmpty(ts0, use0, ts, use, t, i);
        return true;
      }
    }

    /** The recursive call of freewalk. */
    method FreeChild(t: int, i: int, ghost l: int, ghost ts0: Tables, ghost use0: Uses, ghost mem0: map<int, Page>)
      returns (ok: bool)
      requires WalkInv(ts0, use0, mem0, t, l, i) && 0 <= i < ENTRIES && l > 0
      requires t in ts && t in ts0 && |ts[t]| == |ts0[t]| == ENTRIES && ts[t][i] == ts0[t][i] != 0 && t in use
      requires use[t] == use0[t]
      modifies this`free, this`ts, this`mem, this`use
      ensures ok ==> WalkInv(ts0, use0, mem0, t, l, i + 1)
      ensures !ok ==> !NoLeaves(ts0, use0, t, ENTRIES)
      decreases l, 0
    {
      assert Level(use[t]) == l && IsTop(use0[t]);
      hide Tree, Frames, AllFrames, Covers, Pruned, NoLeaves, Felled, MemApart, Frame, Level, Under;
      Detach(ts, use, t, i);
      ChildUse(ts0, use0, t, i);
      LeavesChild(ts0, use0, ts, use, t, i);
      var c := Frame(ts[t][i]);
      FramesUse(lo, hi, free, use, c, Table(NONE, 0, l - 1));
      ghost var ts1, use1, mem1 := ts, use, mem;
      use := use[c := Table(NONE, 0, l - 1)];
      ts := ts[t := ts[t][i := 0]];
      ok := Freewalk(c, l - 1);
      if ok {
        PruneChild(ts0, use0, ts1, use1, t, i, ts, use);
        ApartChild(ts0, use0, mem0, ts1, use1, mem1, mem, t, i);
      } else {
        LeavesMore(ts0, use0, t, i + 1);
      }
    }

    /** uvmcreate: a root with no pages, NONE when out of memory. */
    method Uvmcreate() returns (root: int)
      requires Valid()
      modifies this`free, this`ts, this`mem, this`use
      ensures Valid() && (root == NONE <==> old(free) == [])
      ensures root == NONE ==> ts == old(ts) && use == old(use) && mem == old(mem)
      ensures root != NONE ==> && root in old(use) && old(use)[root].Free? && use == old(use)[root := Table(NONE, 0, 2)]
                               && mem == old(mem)[root := Fill(5)] && Bare(ts, root, 0)
                               && SameMaps(old(ts), ts, old(use))
    {
      hide Tree, Frames, AllFrames, SameMaps;
      root := Kalloc();
      if root == NONE {
        return;
      }
      NewRoot(ts, use, root);
      FramesUse(lo, hi, free, use, root, Table(NONE, 0, 2));
      RootsStill(ts, ts[root := ZeroTable()], old(use), root);
      ts := ts[root := ZeroTable()];
      use := use[root := Table(NONE, 0, 2)];
    }

    /** uvmfree: every frame of the page table, its user pages and its tables, is free; every other frame,
        and every page of every other root, is as before. */
    method Uvmfree(root: int, sz: nat) returns (ok: bool)
      requires Valid() && IsRoot(use, root)
      requires UserPages(ts, use, root, 0, Pages(sz)) && Bare(ts, root, Pages(sz))
      modifies this`free, this`ts, this`mem, this`use
      ensures ok && Valid()
      ensures forall g :: g in old(use) <==> g in use
      ensures forall g :: g in old(use) ==>
                if Belongs(old(use), root, g) then use[g].Free? else use[g] == old(use)[g]
      ensures forall g :: g in old(mem) && g in old(use) && !Belongs(old(use), root, g) ==>
            g in mem && mem[g] == old(mem)[g]
      ensures forall r, v :: IsRoot(old(use), r) && r != root && 0 <= v < MAXPAGE ==>
            Leaf(ts, r, v) == Leaf(old(ts), r, v)
    {
      hide Tree, Whole, Frames, AllFrames, UserPages, Cleared, Freed, Felled, MemApart, NoLeaves, Leaf, Bare, Belongs;
      ghost var ts0, use0, mem0 := ts, use, mem;
      UserPagesUnmap(ts, use, root, 0, Pages(sz));
      PoolMem(lo, hi, free, use, mem);
      ok := true;
      if sz > 0 {
        ok := Uvmunmap(root, 0, Pages(sz), true);
      } else {
        NothingFreed(ts, use, mem, root, 0, true);
      }
      ghost var ts1, use1, mem1 := ts, use, mem;
      AllUnmapped(ts0, ts1, use0, root, Pages(sz));
      BareNoLeaves(ts1, use1, root);
      ok := Freewalk(root, 2);
      RootFreed(ts0, use0, mem0, ts1, use1, mem1, ts, use, mem, root, Pages(sz));
    }
  }

  lemma RootsStill(ts: Tables, ts': Tables, use: Uses, n: int)
    requires n in use && use[n].Free? && SameMaps(ts, ts', use[n := Held])
    ensures SameMaps(ts, ts', use) && forall r :: IsRoot(use, r) ==> IsRoot(use[n := Table(NONE, 0, 2)], r)
  {
    hide Leaf;
    forall r, v | IsRoot(use, r) && 0 <= v < MAXPAGE
      ensures Leaf(ts', r, v) == Leaf(ts, r, v)
    {
      assert IsRoot(use[n := Held], r);
    }
  }

  lemma AllUnmapped(ts0: Tables, ts: Tables, use0: Uses, root: int, n: nat)
    requires Bare(ts0, root, n) && Cleared(ts0, ts, use0, root, 0, n) && IsRoot(use0, root)
    ensures Bare(ts, root, 0)
  {
    hide Leaf;
  }

  /** Which frames unmapping the first n pages freed: those of the root's user pages. */
  lemma UsersFreed(ts0: Tables, use0: Uses, mem0: map<int, Page>, ts1: Tables, use1: Uses, mem1: map<int, Page>,
                   root: int, n: nat, g: int)
    requires Tree(ts0, use0) && Whole(use0) && Tree(ts1, use1) && IsRoot(use0, root) && Bare(ts0, root, n)
    requires Cleared(ts0, ts1, use0, root, 0, n) && Freed(ts0, use0, mem0, use1, mem1, root, 0, n, true)
    requires g in use0
    ensures g in use1 && if use0[g].User? && Under(use0, use0[g].table, root) then use1[g].Free? else use1[g] == use0[g]
  {
    if use0[g].User? {
      hide Leaf;
      var r, v := UserMapped(ts0, use0, g);
      assert IsRoot(use1, r);
      if Under(use0, use0[g].table, root) {
        OneRoot(use0, use0[g].table, r, root);
        assert v < n;
        assert FreedFrame(use0, use1, Frame(Leaf(ts0, root, v)));
      } else {
        assert r != root;
        assert Leaf(ts1, r, v) == Leaf(ts0, r, v);
        LeafUse(ts1, use1, r, v);
      }
    }
  }

  /** The state after uvmfree. */
  lemma RootFreed(ts0: Tables, use0: Uses, mem0: map<int, Page>, ts1: Tables, use1: Uses, mem1: map<int, Page>,
                  ts: Tables, use: Uses, mem: map<int, Page>, root: int, n: nat)
    requires Tree(ts0, use0) && Whole(use0) && Tree(ts1, use1) && Tree(ts, use) && IsRoot(use0, root)
    requires IsRoot(use1, root)
    requires Bare(ts0, root, n) && (forall f :: f in use0 <==> f in mem0)
    requires Cleared(ts0, ts1, use0, root, 0, n) && Freed(ts0, use0, mem0, use1, mem1, root, 0, n, true)
    requires Felled(ts1, use1, ts, use, root) && MemApart(use1, mem1, mem, root)
    ensures Whole(use)
    ensures forall g :: g in use0 <==> g in use
    ensures forall g :: g in use0 ==> if Belongs(use0, root, g) then use[g].Free? else use[g] == use0[g]
    ensures forall g :: g in mem0 && g in use0 && !Belongs(use0, root, g) ==> g in mem && mem[g] == mem0[g]
    ensures forall r, v :: IsRoot(use0, r) && r != root && 0 <= v < MAXPAGE ==> Leaf(ts, r, v) == Leaf(ts0, r, v)
  {
    hide Tree, Leaf, Bare;
    forall g | g in use0
      ensures g in use && if Belongs(use0, root, g) then use[g].Free? else use[g] == use0[g]
      ensures !Belongs(use0, root, g) ==> g in mem && mem[g] == mem0[g]
    {
      OneFreed(ts0, use0, mem0, ts1, use1, mem1, ts, use, mem, root, n, g);
    }
    forall r, v | IsRoot(use0, r) && r != root && 0 <= v < MAXPAGE
      ensures Leaf(ts, r, v) == Leaf(ts0, r, v)
    {
      assert IsRoot(use1, r);
      FelledLeaf(ts1, use1, ts, use, root, r, v);
    }
  }

  lemma OneFreed(ts0: Tables, use0: Uses, mem0: map<int, Page>, ts1: Tables, use1: Uses, mem1: map<int, Page>,
                 ts: Tables, use: Uses, mem: map<int, Page>, root: int, n: nat, g: int)
    requires Tree(ts0, use0) && Whole(use0) && Tree(ts1, use1) && IsRoot(use0, root) && Bare(ts0, root, n)
    requires Cleared(ts0, ts1, use0, root, 0, n) && Freed(ts0, use0, mem0, use1, mem1, root, 0, n, true)
    requires Felled(ts1, use1, ts, use, root) && MemApart(use1, mem1, mem, root)
    requires g in use0 && g in mem0
    ensures g in use && if Belongs(use0, root, g) then use[g].Free? else use[g] == use0[g]
    ensures !Belongs(use0, root, g) ==> g in mem && mem[g] == mem0[g]
  {
    hide Tree, Whole, Bare, Cleared;
    UsersFreed(ts0, use0, mem0, ts1, use1, mem1, root, n, g);
    assert Under(use1, g, root) <==> Under(use0, g, root);
  }

  lemma ChildUse(ts: Tables, use: Uses, t: int, i: int)
    requires Tree(ts, use) && t in ts && t in use && Level(use[t]) > 0 && 0 <= i < ENTRIES && ts[t][i] != 0
    ensures var c := Frame(ts[t][i]); c in use && c != t && use[c] == Table(t, i, Level(use[t]) - 1)
  {
    assert EntryOk(ts, use, t, i);
  }

  ghost predicate Covers(use: Uses, mem: map<int, Page>) {
    forall g :: g in mem ==> g in use
  }

  /** Memory outside the tree of t is unchanged. */
  ghost predicate MemApart(use: Uses, mem: map<int, Page>, mem': map<int, Page>, t: int) {
    forall g :: g in mem && !Under(use, g, t) ==> g in mem' && mem'[g] == mem[g]
  }

  lemma PruneNone(ts: Tables, use: Uses, mem: map<int, Page>, t: int)
    requires Tree(ts, use) && t in use && IsTop(use[t])
    ensures Pruned(ts, use, ts, use, t, 0) && NoLeaves(ts, use, t, 0) && MemApart(use, mem, mem, t)
  {
    forall x | x in use && x != t
      ensures !Cut(use, x, t, 0)
    {
      if Under(use, x, t) {
        BranchRange(ts, use, t, x);
      }
    }
  }

  lemma PrunedEntry(ts0: Tables, use0: Uses, ts: Tables, use: Uses, t: int, i: int)
    requires Pruned(ts0, use0, ts, use, t, i) && 0 <= i < ENTRIES
    ensures t in ts && t in ts0 && t in use && t in use0 && |ts[t]| == |ts0[t]| == ENTRIES && ts[t][i] == ts0[t][i]
    ensures use[t] == use0[t]
  {
  }

  lemma EntryKind(ts: Tables, use: Uses, t: int, i: int)
    requires Tree(ts, use) && t in ts && t in use && 0 <= i < ENTRIES
    ensures |ts[t]| == ENTRIES && 0 <= Level(use[t])
    ensures V(ts[t][i]) <==> ts[t][i] != 0
    ensures V(ts[t][i]) ==> ((R(ts[t][i]) || W(ts[t][i]) || X(ts[t][i])) <==> Level(use[t]) == 0)
    ensures V(ts[t][i]) && Level(use[t]) > 0 ==>
          Frame(ts[t][i]) in use && use[Frame(ts[t][i])] == Table(t, i, Level(use[t]) - 1)
  {
    assert EntryOk(ts, use, t, i);
    var e := ts[t][i];
    if e != 0 && Level(use[t]) > 0 {
      assert e == 1024 * Frame(e) + 1;
      assert e / 2 == 512 * Frame(e) && e / 4 == 256 * Frame(e) && e / 8 == 128 * Frame(e);
    }
  }

  lemma LeavesMore(ts: Tables, use: Uses, t: int, k: int)
    requires !NoLeaves(ts, use, t, k) && k <= ENTRIES
    ensures !NoLeaves(ts, use, t, ENTRIES)
  {
    hide Under, Branch;
  }

  lemma LeafThere(ts: Tables, use: Uses, t: int, i: int)
    requires t in ts && t in use && Level(use[t]) == 0 && 0 <= i < |ts[t]| == ENTRIES && ts[t][i] != 0
    ensures !NoLeaves(ts, use, t, ENTRIES)
  {
  }

  lemma ApartChild(ts0: Tables, use0: Uses, mem0: map<int, Page>, ts: Tables, use: Uses, mem: map<int, Page>,
                   mem': map<int, Page>, t: int, i: int)
    requires Tree(ts0, use0) && Pruned(ts0, use0, ts, use, t, i) && 0 <= i < ENTRIES && ts0[t][i] != 0
    requires Level(use0[t]) > 0
    requires MemApart(use0, mem0, mem, t) && IsTop(use0[t]) && Covers(use0, mem0)
    requires var c := Frame(ts0[t][i]);
             MemApart(use[c := Table(NONE, 0, Level(use0[t]) - 1)], mem, mem', c)
    ensures MemApart(use0, mem0, mem', t)
  {
    var c := Frame(ts0[t][i]);
    forall g | g in mem0 && !Under(use0, g, t)
      ensures !Under(use[c := Table(NONE, 0, Level(use0[t]) - 1)], g, c)
    {
      UnderChild(ts0, use0, ts, use, t, i, g);
    }
  }

  lemma PruneAll(lo: int, hi: int, free: seq<int>, ts0: Tables, use0: Uses, mem0: map<int, Page>, ts: Tables,
                 use: Uses, mem: map<int, Page>, t: int)
    requires Tree(ts0, use0) && Tree(ts, use) && Frames(lo, hi, free, use) && Pruned(ts0, use0, ts, use, t, ENTRIES)
    requires IsTop(use0[t])
    requires MemApart(use0, mem0, mem, t)
    ensures t in use && lo <= t < hi
    ensures Tree(ts - {t}, use[t := Held]) && Frames(lo, hi, free, use[t := Held])
    ensures Felled(ts0, use0, ts - {t}, use[t := Held][t := Free(|free|)], t)
    ensures MemApart(use0, mem0, mem[t := Fill(1)], t)
  {
    hide Tree, Frames, Felled, Under;
    Drop(ts, use, t);
    FramesUse(lo, hi, free, use, t, Held);
    PoolUses(lo, hi, free, use);
    AllFelled(ts0, use0, ts, use, t, Free(|free|));
    UnderSelf(use0, t);
  }

  lemma UnderSelf(use: Uses, t: int)
    ensures Under(use, t, t)
  {
  }

  lemma AllFelled(ts0: Tables, use0: Uses, ts: Tables, use: Uses, t: int, u: Use)
    requires Tree(ts0, use0) && Pruned(ts0, use0, ts, use, t, ENTRIES) && u.Free?
    ensures Felled(ts0, use0, ts - {t}, use[t := Held][t := u], t)
  {
    hide Tree, Under, Cut;
    UnderSelf(use0, t);
    forall x | x in use0 && x != t
      ensures Under(use0, x, t) <==> Cut(use0, x, t, ENTRIES)
    {
      AllCut(ts0, use0, t, x);
    }
  }

  lemma AllCut(ts: Tables, use: Uses, t: int, x: int)
    requires Tree(ts, use) && x in use && x != t
    ensures Under(use, x, t) <==> Cut(use, x, t, ENTRIES)
  {
    hide Tree, Branch;
    if Under(use, x, t) {
      BranchRange(ts, use, t, x);
    }
  }

  /** n zeroed pages, readable by the user. */
  function Zeroed(n: nat, xperm: nat): seq<Want> {
    seq(n, _ => Want(18 + xperm, Fill(0)))
  }

  /** The way to page v ends before its last table. */
  predicate NoTableFor(ts: Tables, root: int, v: int) {
    TableAt(ts, root, v, 0) == NONE
  }

  /** There is no frame for page v, or one but none for a table on the way to it. */
  predicate OutOfFrames(ts: Tables, root: int, v: int, free: seq<int>) {
    free == [] || (|free| == 1 && NoTableFor(ts, root, v))
  }

  ghost predicate HasTables(ts: Tables, root: int, first: int, k: nat) {
    forall v :: first <= v < first + k ==> !NoTableFor(ts, root, v)
  }

  ghost predicate SameTables(ts: Tables, ts': Tables, root: int) {
    forall v :: 0 <= v < MAXPAGE ==> TableAt(ts', root, v, 0) == TableAt(ts, root, v, 0)
  }

  /** Too few free frames for n pages: after i of them, for which the tables are all there, no frame is left for
      the next page or for a table it needs. */
  ghost predicate Short(ts: Tables, root: int, first: nat, n: nat, free: seq<int>) {
    exists i: nat :: i < n && ShortAt(ts, root, first, i, free)
  }

  ghost predicate ShortAt(ts: Tables, root: int, first: nat, i: nat, free: seq<int>) {
    HasTables(ts, root, first, i) && (|free| == i || (|free| == i + 1 && NoTableFor(ts, root, first + i)))
  }

  lemma SameTablesAfter(ts: Tables, use: Uses, root: int, v: nat)
    requires Tree(ts, use) && IsRoot(use, root) && v < MAXPAGE && Leaf(ts, root, v) != 0
    ensures TableAt(ts, root, v, 0) in ts && PX(0, v) < |ts[TableAt(ts, root, v, 0)]|
    ensures var t, i := TableAt(ts, root, v, 0), PX(0, v);
            SameTables(ts, ts[t := ts[t][i := 0]], root)
  {
    hide Tree;
    LeafUse(ts, use, root, v);
    TableLevel(ts, use, root, v, 0);
    NoneNoTable(ts, use);
    var t, i := TableAt(ts, root, v, 0), PX(0, v);
    var ts' := ts[t := ts[t][i := 0]];
    hide TableAt;
    forall w | 0 <= w < MAXPAGE
      ensures TableAt(ts', root, w, 0) == TableAt(ts, root, w, 0)
    {
      WalkKept(ts, use, ts', t, root, w, 0);
    }
  }

  lemma UnmappedLow(ts: Tables, root: int, v: int)
    requires Unmapped(ts, root, v)
    ensures v < MAXPAGE
  {
  }

  lemma NoneNoTable(ts: Tables, use: Uses)
    requires Tree(ts, use)
    ensures NONE !in ts
  {
  }

  lemma AddedTables(ts: Tables, ts': Tables, use: Uses, use': Uses, mem': map<int, Page>, root: int, first: nat,
                    ws: seq<Want>)
    requires Added(ts, ts', use, use', mem', root, first, ws) && Tree(ts', use')
    ensures HasTables(ts', root, first, |ws|)
  {
    hide Tree, TableAt;
    NoneNoTable(ts', use');
    forall v | first <= v < first + |ws|
      ensures !NoTableFor(ts', root, v)
    {
      assert HasPage(ts', use', mem', root, first + (v - first), ws[v - first]);
    }
  }

  lemma RanShort(ts: Tables, ts': Tables, root: int, first: nat, i: nat, n: nat, free: seq<int>, free': seq<int>)
    requires HasTables(ts, root, first, i) && OutOfFrames(ts, root, first + i, free) && i < n && first + i < MAXPAGE
    requires SameTables(ts, ts', root) && |free'| == |free| + i
    ensures Short(ts', root, first, n, free')
  {
    hide TableAt;
    forall v | first <= v < first + i
      ensures !NoTableFor(ts', root, v)
    {
      assert !NoTableFor(ts, root, v);
    }
    assert ShortAt(ts', root, first, i, free');
  }

  /** New memory: the user may read the byte, which is 0, and write or run it as asked. */
  predicate NewByte(ts: Tables, mem: map<int, Page>, root: int, a: nat, w: bool, x: bool) {
    && Readable(ts, root, a) && R(Leaf(ts, root, a / PGSIZE)) && Peek(ts, mem, root, a) == 0
    && (Writable(ts, root, a) <==> w) && (Executable(ts, root, a) <==> x)
  }

  lemma AddedByte(ts: Tables, ts': Tables, use: Uses, use': Uses, mem': map<int, Page>, root: int, first: nat, n: nat,
                  xperm: nat, a: nat)
    requires Added(ts, ts', use, use', mem', root, first, Zeroed(n, xperm)) && xperm in {0, 4, 8, 12}
    requires first * PGSIZE <= a < (first + n) * PGSIZE
    ensures NewByte(ts', mem', root, a, W(xperm), X(xperm))
  {
    hide Leaf, R, V, W, X, U;
    var v := a / PGSIZE;
    assert HasPage(ts', use', mem', root, first + (v - first), Zeroed(n, xperm)[v - first]);
    var e := Leaf(ts', root, v);
    FlagsOf(Frame(e), 18 + xperm + 1);
    assert e == Frame(e) * 1024 + Flags(e);
    UserFlags(xperm);
  }

  lemma UserFlags(xperm: nat)
    requires xperm in {0, 4, 8, 12}
    ensures R(19 + xperm) && U(19 + xperm) && (W(19 + xperm) <==> W(xperm)) && (X(19 + xperm) <==> X(xperm))
    ensures (18 + xperm) / 2 * 2 + 1 == 19 + xperm
  {
  }

  function CopyOf(ts: Tables, mem: map<int, Page>, root: int, v: int): Want {
    var e := Leaf(ts, root, v);
    Want(Flags(e), if Frame(e) in mem then mem[Frame(e)] else Fill(0))
  }

  /** The user sees the same at an address of two address spaces. */
  predicate SameByte(ts: Tables, mem: map<int, Page>, root: int, ts': Tables, mem': map<int, Page>, root': int,
                     a: nat) {
    && Peek(ts', mem', root', a) == Peek(ts, mem, root, a)
    && (Readable(ts', root', a) <==> Readable(ts, root, a)) && (Writable(ts', root', a) <==> Writable(ts, root, a))
    && (Executable(ts', root', a) <==> Executable(ts, root, a))
  }

  lemma CopiedByte(ts: Tables, ts': Tables, use: Uses, use': Uses, mem: map<int, Page>, mem': map<int, Page>,
                   parent: int, child: int, n: nat, a: nat)
    requires Added(ts, ts', use, use', mem', child, 0, Copies(ts, mem, parent, n))
    requires UserPages(ts, use, parent, 0, n) && a < n * PGSIZE && forall f :: f in use ==> f in mem
    ensures SameByte(ts, mem, parent, ts', mem', child, a)
  {
    hide R, V, W, X, U, TableAt;
    var v := a / PGSIZE;
    assert UserPage(ts, use, parent, v);
    assert HasPage(ts', use', mem', child, 0 + v, Copies(ts, mem, parent, n)[v]);
    var e, e' := Leaf(ts, parent, v), Leaf(ts', child, v);
    LowBit(e);
    FlagsOf(Frame(e), Flags(e));
    FlagsOf(Frame(e'), Flags(e));
  }

  lemma LowBit(e: int)
    requires V(e)
    ensures Flags(e) / 2 * 2 + 1 == Flags(e)
  {
    FlagsOf(e / 1024, e % 1024);
  }

  /** The first n pages of a root. */
  function Copies(ts: Tables, mem: map<int, Page>, root: int, n: nat): seq<Want> {
    seq(n, v => CopyOf(ts, mem, root, v))
  }

  lemma NoCopies(ts: Tables, mem: map<int, Page>, root: int)
    ensures Copies(ts, mem, root, 0) == []
  {
  }

  lemma CopiesNext(ts: Tables, mem: map<int, Page>, root: int, i: nat)
    ensures |Copies(ts, mem, root, i)| == i
    ensures Copies(ts, mem, root, i + 1) == Copies(ts, mem, root, i) + [CopyOf(ts, mem, root, i)]
  {
    hide CopyOf;
  }

  lemma AddedNone(ts: Tables, use: Uses, mem: map<int, Page>, root: int, first: nat)
    ensures Added(ts, ts, use, use, mem, root, first, [])
  {
    hide Leaf;
  }

  lemma ClearLess(ts: Tables, root: int, first: nat, n: nat, i: nat)
    requires Clear(ts, root, first, n) && i <= n
    ensures Clear(ts, root, first, i) && (i < n ==> Unmapped(ts, root, first + i))
  {
  }

  lemma PoolUses(lo: int, hi: int, free: seq<int>, use: Uses)
    requires Frames(lo, hi, free, use)
    ensures forall f :: f in use <==> lo <= f < hi
    ensures 0 < lo
  {
  }

  lemma PoolMem(lo: int, hi: int, free: seq<int>, use: Uses, mem: map<int, Page>)
    requires Frames(lo, hi, free, use) && AllFrames(lo, hi, mem)
    ensures forall f :: f in use <==> f in mem
  {
  }

  lemma ParentRoot(use0: Uses, use: Uses, root: int)
    requires SameOwners(use0, use) && IsRoot(use0, root)
    ensures IsRoot(use, root)
  {
  }

  lemma FlagBits(e: int)
    requires e > 0 && V(e) && (R(e) || W(e) || X(e))
    ensures 0 <= Flags(e) < 1024 && (R(Flags(e)) || W(Flags(e)) || X(Flags(e)))
  {
    FlagsOf(Frame(e), Flags(e));
    assert e == Frame(e) * 1024 + Flags(e);
  }

  /** The parent's page is still what it was when the copy began. */
  lemma ParentPage(ts0: Tables, use0: Uses, mem0: map<int, Page>, ts: Tables, use: Uses, mem: map<int, Page>,
                   parent: int, child: int, ws: seq<Want>, v: nat, n: nat)
    requires Added(ts0, ts, use0, use, mem, child, 0, ws) && MemKept(use0, mem0, use, mem) && IsRoot(use0, parent)
    requires parent != child
    requires UserPages(ts0, use0, parent, 0, n) && v < n && (forall f :: f in use0 <==> f in mem0)
    ensures v < MAXPAGE && Leaf(ts, parent, v) == Leaf(ts0, parent, v) != 0
    ensures Frame(Leaf(ts, parent, v)) in mem
    ensures CopyOf(ts0, mem0, parent, v) == Want(Flags(Leaf(ts, parent, v)), mem[Frame(Leaf(ts, parent, v))])
  {
    hide Leaf, Frame, Flags;
    assert UserPage(ts0, use0, parent, v);
  }

  /** Pages of different roots never share a frame. */
  lemma Disjoint(ts: Tables, use: Uses, r: int, v: int, r': int, v': int)
    requires Tree(ts, use) && IsRoot(use, r) && IsRoot(use, r') && r != r'
    requires UserPage(ts, use, r, v) && UserPage(ts, use, r', v')
    ensures Frame(Leaf(ts, r, v)) != Frame(Leaf(ts, r', v'))
  {
    if Frame(Leaf(ts, r, v)) == Frame(Leaf(ts, r', v')) {
      MappedOnce(ts, use, r, v, r', v');
    }
  }

  /** PGROUNDUP(sz) / PGSIZE */
  function Pages(sz: nat): (n: nat)
    ensures n * PGSIZE - PGSIZE < sz <= n * PGSIZE
  {
    (sz + PGSIZE - 1) / PGSIZE
  }

  ghost predicate UserPage(ts: Tables, use: Uses, root: int, v: int) {
    IsMapped(ts, root, v) && Frame(Leaf(ts, root, v)) in use && use[Frame(Leaf(ts, root, v))].User?
  }

  ghost predicate UserPages(ts: Tables, use: Uses, root: int, from: int, to: int) {
    forall v :: from <= v < to ==> UserPage(ts, use, root, v)
  }

  lemma UserPagesUnmap(ts: Tables, use: Uses, root: int, from: nat, to: nat)
    requires UserPages(ts, use, root, from, to) && from <= to
    ensures MayUnmapAll(ts, use, root, from, to - from, true) && AllMapped(ts, root, from, to - from)
  {
    hide Leaf;
    forall v: nat | from <= v < to
      ensures MayUnmap(ts, use, root, v, true) && IsMapped(ts, root, v)
    {
      assert UserPage(ts, use, root, v);
    }
  }

  lemma NextFree(ts0: Tables, ts: Tables, use0: Uses, use: Uses, mem: map<int, Page>, root: int, first: nat,
                 ws: seq<Want>)
    requires Added(ts0, ts, use0, use, mem, root, first, ws) && IsRoot(use0, root) && Unmapped(ts0, root, first + |ws|)
    ensures Unmapped(ts, root, first + |ws|)
  {
    hide Leaf;
  }

  lemma OwnersTwice(use: Uses, mem: map<int, Page>, use1: Uses, mem1: map<int, Page>, use2: Uses, mem2: map<int, Page>)
    requires SameOwners(use, use1) && MemKept(use, mem, use1, mem1) && SameOwners(use1, use2)
    requires MemKept(use1, mem1, use2, mem2)
    ensures SameOwners(use, use2) && MemKept(use, mem, use2, mem2)
  {
  }

  /** A page survives whatever keeps its entry and its frame. */
  lemma PageKept(ts: Tables, ts': Tables, use: Uses, use': Uses, mem: map<int, Page>, mem': map<int, Page>,
                 root: int, v: int, w: Want)
    requires HasPage(ts, use, mem, root, v, w) && Leaf(ts', root, v) == Leaf(ts, root, v)
    requires MemKept(use, mem, use', mem')
    ensures HasPage(ts', use', mem', root, v, w)
  {
    hide Leaf, Frame, Flags;
  }

  lemma AddedMore(ts0: Tables, ts1: Tables, ts: Tables, use0: Uses, use1: Uses, use: Uses, mem1: map<int, Page>,
                  mem: map<int, Page>,
                  root: int, first: nat, ws: seq<Want>, w: Want)
    requires Added(ts0, ts1, use0, use1, mem1, root, first, ws)
    requires Added(ts1, ts, use1, use, mem, root, first + |ws|, [w])
    requires SameOwners(use0, use1) && MemKept(use1, mem1, use, mem) && IsRoot(use0, root)
    ensures Added(ts0, ts, use0, use, mem, root, first, ws + [w])
  {
    hide Leaf, HasPage, MemKept;
    forall r, v | IsRoot(use0, r) && 0 <= v < MAXPAGE && !(r == root && first <= v < first + |ws| + 1)
      ensures Leaf(ts, r, v) == Leaf(ts0, r, v)
    {
      assert IsRoot(use1, r);
      assert Leaf(ts1, r, v) == Leaf(ts0, r, v);
    }
    forall i | 0 <= i < |ws| + 1
      ensures HasPage(ts, use, mem, root, first + i, (ws + [w])[i])
    {
      if i < |ws| {
        assert HasPage(ts1, use1, mem1, root, first + i, ws[i]);
        HasMapped(ts1, use1, mem1, root, first + i, ws[i]);
        assert IsRoot(use1, root);
        assert Leaf(ts, root, first + i) == Leaf(ts1, root, first + i);
        PageKept(ts1, ts, use1, use, mem1, mem, root, first + i, ws[i]);
      } else {
        assert HasPage(ts, use, mem, root, first + |ws| + 0, [w][0]);
      }
    }
  }

  lemma HasMapped(ts: Tables, use: Uses, mem: map<int, Page>, root: int, v: int, w: Want)
    requires HasPage(ts, use, mem, root, v, w)
    ensures UserPage(ts, use, root, v)
  {
    hide Leaf;
  }

  lemma AddedStill(ts0: Tables, ts1: Tables, ts: Tables, use0: Uses, use1: Uses, use: Uses, mem1: map<int, Page>,
                   mem: map<int, Page>,
                   root: int, first: nat, ws: seq<Want>)
    requires Added(ts0, ts1, use0, use1, mem1, root, first, ws) && SameMaps(ts1, ts, use1)
    requires SameOwners(use0, use1) && MemKept(use1, mem1, use, mem) && IsRoot(use0, root)
    ensures Added(ts0, ts, use0, use, mem, root, first, ws)
  {
    hide Leaf, HasPage, MemKept;
    forall r, v | IsRoot(use0, r) && 0 <= v < MAXPAGE && !(r == root && first <= v < first + |ws|)
      ensures Leaf(ts, r, v) == Leaf(ts0, r, v)
    {
      assert IsRoot(use1, r);
      assert Leaf(ts1, r, v) == Leaf(ts0, r, v);
    }
    forall i | 0 <= i < |ws|
      ensures HasPage(ts, use, mem, root, first + i, ws[i])
    {
      assert HasPage(ts1, use1, mem1, root, first + i, ws[i]);
      HasMapped(ts1, use1, mem1, root, first + i, ws[i]);
      assert IsRoot(use1, root);
      assert Leaf(ts, root, first + i) == Leaf(ts1, root, first + i);
      PageKept(ts1, ts, use1, use, mem1, mem, root, first + i, ws[i]);
    }
  }

  lemma AddedUnmap(ts0: Tables, ts: Tables, use0: Uses, use: Uses, mem: map<int, Page>, root: int, first: nat,
                   ws: seq<Want>)
    requires Added(ts0, ts, use0, use, mem, root, first, ws)
    ensures MayUnmapAll(ts, use, root, first, |ws|, true) && AllMapped(ts, root, first, |ws|)
  {
    hide Leaf, HasPage;
    forall v | first <= v < first + |ws|
      ensures UserPage(ts, use, root, v)
    {
      assert HasPage(ts, use, mem, root, first + (v - first), ws[v - first]);
      HasMapped(ts, use, mem, root, v, ws[v - first]);
    }
    UserPagesUnmap(ts, use, root, first, first + |ws|);
  }

  lemma RolledBack(ts0: Tables, use0: Uses, mem0: map<int, Page>, ts1: Tables, use1: Uses, mem1: map<int, Page>,
                   ts: Tables, use: Uses, mem: map<int, Page>, root: int, first: nat, ws: seq<Want>)
    requires Tree(ts0, use0) && Whole(use0) && Tree(ts, use) && Clear(ts0, root, first, |ws|) && IsRoot(use0, root)
    requires SameOwners(use0, use1) && MemKept(use0, mem0, use1, mem1)
    requires Added(ts0, ts1, use0, use1, mem1, root, first, ws)
    requires Cleared(ts1, ts, use1, root, first, |ws|) && Freed(ts1, use1, mem1, use, mem, root, first, |ws|, true)
    ensures SameMaps(ts0, ts, use0) && SameOwners(use0, use) && MemKept(use0, mem0, use, mem)
  {
    hide Tree, Leaf, HasPage;
    forall r, v | IsRoot(use0, r) && 0 <= v < MAXPAGE
      ensures Leaf(ts, r, v) == Leaf(ts0, r, v)
    {
      assert IsRoot(use1, r);
      if r == root && first <= v < first + |ws| {
        assert Unmapped(ts0, root, v);
      } else {
        assert Leaf(ts1, r, v) == Leaf(ts0, r, v);
      }
    }
    assert SameOwners(use0, use);
    forall g | g in use0 && g in mem0 && (use0[g].User? || use0[g].Other? || use0[g].Held?)
      ensures g in use && use[g] == use0[g] && g in mem && mem[g] == mem0[g]
    {
      SameUsers(ts0, use0, ts, use, g);
    }
  }

  datatype Want = Want(perm: nat, page: Page)

  /** Page v is a user page with these flags and contents. */
  ghost predicate HasPage(ts: Tables, use: Uses, mem: map<int, Page>, root: int, v: int, w: Want) {
    && IsMapped(ts, root, v)
    && var e := Leaf(ts, root, v);
       Flags(e) == w.perm / 2 * 2 + 1 && Frame(e) in use && use[Frame(e)].User? && Frame(e) in mem
       && mem[Frame(e)] == w.page
  }

  /** The pages from `first` on are user pages as wanted; all other pages have what they had. */
  ghost predicate Added(ts: Tables, ts': Tables, use: Uses, use': Uses, mem': map<int, Page>, root: int, first: int,
                        ws: seq<Want>) {
    && (forall r, v :: IsRoot(use, r) && 0 <= v < MAXPAGE && !(r == root && first <= v < first + |ws|) ==>
          Leaf(ts', r, v) == Leaf(ts, r, v))
    && (forall i :: 0 <= i < |ws| ==> HasPage(ts', use', mem', root, first + i, ws[i]))
  }

  /** Frames in use by pages or the kernel still are, with the same contents. */
  ghost predicate MemKept(use: Uses, mem: map<int, Page>, use': Uses, mem': map<int, Page>) {
    forall g :: g in use && g in mem && (use[g].User? || use[g].Other? || use[g].Held?) ==>
      g in use' && use'[g] == use[g] && g in mem' && mem'[g] == mem[g]
  }

  lemma NothingSame(ts: Tables, use: Uses, mem: map<int, Page>)
    ensures SameMaps(ts, ts, use) && SameOwners(use, use) && MemKept(use, mem, use, mem)
  {
    hide Leaf;
  }

  lemma ClearOne(ts: Tables, root: int, v: nat)
    requires Unmapped(ts, root, v)
    ensures Clear(ts, root, v, 1)
  {
  }

  lemma PageNotAdded(ts: Tables, ts': Tables, use: Uses, mem: map<int, Page>, use1: Uses, mem1: map<int, Page>,
                     use': Uses, mem': map<int, Page>, root: int, v: nat, f: nat, page: Page, perm: nat, pos: int)
    requires perm < 1024 && f in use && use[f].Free? && use1 == use[f := Held] && mem1 == mem[f := Fill(5)][f := page]
    requires PagesSet(ts, ts', use1, root, v, 0, f, perm) && Took(use1, mem1, use', mem', f, 0)
    ensures f in use' && use'[f] == Held
    ensures SameMaps(ts, ts', use)
    ensures SameOwners(use, use'[f := Free(pos)]) && MemKept(use, mem, use'[f := Free(pos)], mem'[f := Fill(1)])
  {
    hide Leaf, Entry;
    forall r, w | IsRoot(use, r) && 0 <= w < MAXPAGE
      ensures Leaf(ts', r, w) == Leaf(ts, r, w)
    {
      assert IsRoot(use1, r);
    }
  }

  lemma PageAdded(ts: Tables, ts': Tables, use: Uses, mem: map<int, Page>, use1: Uses, mem1: map<int, Page>,
                  use': Uses, mem': map<int, Page>, root: int, v: nat, f: nat, page: Page, perm: nat)
    requires perm < 1024 && f in use && use[f].Free? && use1 == use[f := Held] && mem1 == mem[f := Fill(5)][f := page]
    requires IsRoot(use, root) && v < MAXPAGE
    requires PagesSet(ts, ts', use1, root, v, 1, f, perm) && Took(use1, mem1, use', mem', f, 1)
    ensures Added(ts, ts', use, use', mem', root, v, [Want(perm, page)])
    ensures SameOwners(use, use') && MemKept(use, mem, use', mem')
  {
    EntryFacts(f, perm);
    TookFresh(use, mem, use1, mem1, use', mem', f, page);
    assert OnePage(ts, ts', use, root, v, Entry(f, perm)) by {
      hide Leaf, Entry;
      forall r, w | IsRoot(use, r) && 0 <= w < MAXPAGE
        ensures Leaf(ts', r, w) == if r == root && w == v then Entry(f, perm) else Leaf(ts, r, w)
      {
        assert IsRoot(use1, r);
      }
    }
    hide Leaf, Entry, Flags, Frame, R, W, X, U, V, Took, SameOwners, MemKept, PagesSet;
    assert Leaf(ts', root, v) == Entry(f, perm);
    AddedOne(ts, ts', use, use', mem', root, v, Entry(f, perm), Want(perm, page));
  }

  lemma AddedOne(ts: Tables, ts': Tables, use: Uses, use': Uses, mem': map<int, Page>, root: int, v: nat, e: int,
                 w: Want)
    requires OnePage(ts, ts', use, root, v, e) && HasPage(ts', use', mem', root, v, w)
    ensures Added(ts, ts', use, use', mem', root, v, [w])
  {
    hide Leaf, HasPage;
    assert HasPage(ts', use', mem', root, v + 0, [w][0]);
  }

  lemma TookFresh(use: Uses, mem: map<int, Page>, use1: Uses, mem1: map<int, Page>, use': Uses, mem': map<int, Page>,
                  f: nat, page: Page)
    requires f in use && use[f].Free? && use1 == use[f := Held] && mem1 == mem[f := Fill(5)][f := page]
    requires Took(use1, mem1, use', mem', f, 1)
    ensures f in use' && use'[f].User? && f in mem' && mem'[f] == page
    ensures SameOwners(use, use') && MemKept(use, mem, use', mem')
  {
  }

  predicate IsMapped(ts: Tables, root: int, v: int) {
    0 <= v < MAXPAGE && Leaf(ts, root, v) != 0
  }

  ghost predicate AllMapped(ts: Tables, root: int, first: int, k: nat) {
    forall v :: first <= v < first + k ==> IsMapped(ts, root, v)
  }

  ghost predicate MayUnmapAll(ts: Tables, use: Uses, root: int, first: nat, k: nat, doFree: bool) {
    forall v: nat :: first <= v < first + k ==> MayUnmap(ts, use, root, v, doFree)
  }

  /** k pages from `first` on are unmapped; all other pages have what they had. */
  ghost predicate Cleared(ts: Tables, ts': Tables, use: Uses, root: int, first: int, k: nat) {
    forall r, v :: IsRoot(use, r) && 0 <= v < MAXPAGE ==>
      Leaf(ts', r, v) == if r == root && first <= v < first + k then 0 else Leaf(ts, r, v)
  }

  /** The frames of those pages are free, everything else is as it was. */
  ghost predicate Freed(ts: Tables, use: Uses, mem: map<int, Page>, use': Uses, mem': map<int, Page>,
                        root: int, first: int, k: nat, freed: bool) {
    && (forall g :: g in use <==> g in use')
    && (forall g :: g in use ==> use'[g] == use[g] || (freed && use[g].User? && use'[g].Free?))
    && (freed ==> forall v :: first <= v < first + k ==> FreedFrame(use, use', Frame(Leaf(ts, root, v))))
    && (forall g :: g in mem <==> g in mem')
    && (forall g :: g in use && g in mem && use'[g] == use[g] ==> mem'[g] == mem[g])
    && (!freed ==> use' == use && mem' == mem)
  }

  ghost predicate FreedFrame(use: Uses, use': Uses, f: int) {
    f in use && f in use' && use[f].User? && use'[f].Free?
  }

  lemma NothingFreed(ts: Tables, use: Uses, mem: map<int, Page>, root: int, first: int, freed: bool)
    ensures Cleared(ts, ts, use, root, first, 0) && Freed(ts, use, mem, use, mem, root, first, 0, freed)
    ensures AllMapped(ts, root, first, 0)
  {
    hide Leaf;
  }

  lemma MayUnmapNext(ts: Tables, use: Uses, root: int, first: nat, k: nat, doFree: bool)
    requires MayUnmapAll(ts, use, root, first, k, doFree) && k > 0
    ensures MayUnmap(ts, use, root, first, doFree)
  {
  }

  lemma ClearedNext(ts0: Tables, ts: Tables, use0: Uses, root: int, first: nat, i: nat)
    requires IsRoot(use0, root) && Cleared(ts0, ts, use0, root, first, i)
    ensures first + i < MAXPAGE ==> Leaf(ts, root, first + i) == Leaf(ts0, root, first + i)
  {
    hide Leaf;
  }

  lemma MoreMapped(ts: Tables, root: int, first: int, k: nat)
    requires AllMapped(ts, root, first, k) && IsMapped(ts, root, first + k)
    ensures AllMapped(ts, root, first, k + 1)
  {
  }

  lemma NotAllMapped(ts: Tables, root: int, first: int, k: nat, v: int)
    requires first <= v < first + k && !IsMapped(ts, root, v)
    ensures !AllMapped(ts, root, first, k)
  {
  }

  lemma MoreFreed(ts0: Tables, use0: Uses, mem0: map<int, Page>, ts1: Tables, use1: Uses, mem1: map<int, Page>,
                  ts: Tables, use: Uses, mem: map<int, Page>, root: int, first: nat, i: nat, n: nat, freed: bool)
    requires Cleared(ts0, ts1, use0, root, first, i) && Freed(ts0, use0, mem0, use1, mem1, root, first, i, freed)
    requires IsRoot(use0, root) && IsRoot(use1, root) && i < n && IsMapped(ts0, root, first + i) && Tree(ts1, use1)
    requires Leaf(ts1, root, first + i) == Leaf(ts0, root, first + i)
    requires OnePage(ts1, ts, use1, root, first + i, 0)
    requires Gave(use1, mem1, use, mem, Frame(Leaf(ts1, root, first + i)), freed)
    requires MayUnmapAll(ts1, use1, root, first + i, n - i, freed)
    ensures Cleared(ts0, ts, use0, root, first, i + 1) && Freed(ts0, use0, mem0, use, mem, root, first, i + 1, freed)
    ensures MayUnmapAll(ts, use, root, first + i + 1, n - i - 1, freed)
  {
    hide Leaf, Frame, Tree, Borrowed;
    forall r, v | IsRoot(use0, r) && 0 <= v < MAXPAGE
      ensures Leaf(ts, r, v) == if r == root && first <= v < first + i + 1 then 0 else Leaf(ts0, r, v)
    {
      assert IsRoot(use1, r);
      assert Leaf(ts1, r, v) == if r == root && first <= v < first + i then 0 else Leaf(ts0, r, v);
    }
    forall v: nat | first + i + 1 <= v < first + n
      ensures MayUnmap(ts, use, root, v, freed)
    {
      assert MayUnmap(ts1, use1, root, v, freed);
      if v < MAXPAGE && Leaf(ts1, root, v) != 0 && freed
          && Frame(Leaf(ts1, root, v)) == Frame(Leaf(ts1, root, first + i)) {
        MappedOnce(ts1, use1, root, v, root, first + i);
      }
    }
  }

  lemma GaveNone(use: Uses, mem: map<int, Page>, f: int)
    ensures Gave(use, mem, use, mem, f, false)
  {
  }

  lemma GaveFrame(use: Uses, mem: map<int, Page>, f: int, pos: int)
    requires f in use && use[f].User? && f in mem
    ensures Gave(use, mem, use[f := Held][f := Free(pos)], mem[f := Fill(1)], f, true)
  {
  }

  /** A page that is to be freed is a user page; one that is only to be unmapped is not. */
  ghost predicate MayUnmap(ts: Tables, use: Uses, root: int, v: nat, doFree: bool) {
    v < MAXPAGE && Leaf(ts, root, v) != 0 ==>
      if doFree then Frame(Leaf(ts, root, v)) in use && use[Frame(Leaf(ts, root, v))].User?
      else Borrowed(use, Leaf(ts, root, v))
  }

  /** Only f changed hands, if it was freed. */
  ghost predicate Gave(use: Uses, mem: map<int, Page>, use': Uses, mem': map<int, Page>, f: int, freed: bool) {
    && (forall g :: g in use <==> g in use')
    && (forall g :: g in use && g != f ==> use'[g] == use[g])
    && (freed ==> f in use && use[f].User? && use'[f].Free?)
    && (!freed ==> use' == use && mem' == mem)
    && (forall g :: g in mem <==> g in mem')
    && (forall g :: g in mem && g != f ==> mem'[g] == mem[g])
  }

  lemma NotInner(e: int)
    requires R(e) || W(e) || X(e)
    ensures Flags(e) != 1
  {
    FlagsOf(Frame(e), Flags(e));
    assert e == Frame(e) * 1024 + Flags(e);
  }

  lemma InPool(lo: int, hi: int, free: seq<int>, use: Uses, mem: map<int, Page>, f: int)
    requires Frames(lo, hi, free, use) && AllFrames(lo, hi, mem) && f in use
    ensures lo <= f < hi && f > 0 && f in mem
  {
  }

  /** Clearing a leaf entry. */
  lemma UnmapDone(lo: int, hi: int, free: seq<int>, ts: Tables, use: Uses, root: int, v: nat, doFree: bool)
    requires Frames(lo, hi, free, use) && Tree(ts, use) && IsRoot(use, root) && v < MAXPAGE
    requires MayUnmap(ts, use, root, v, doFree) && Leaf(ts, root, v) != 0
    ensures TableAt(ts, root, v, 0) in ts
    ensures |ts[TableAt(ts, root, v, 0)]| == ENTRIES
    ensures var t, i, f := TableAt(ts, root, v, 0), PX(0, v), Frame(Leaf(ts, root, v));
            var ts', use' := ts[t := ts[t][i := 0]], if doFree then use[f := Held] else use;
            && OnePage(ts, ts', use, root, v, 0) && Tree(ts', use') && Frames(lo, hi, free, use')
            && (doFree ==> f in use && use[f].User? && lo <= f < hi) && (Whole(use) ==> Whole(use'))
  {
    TableLevel(ts, use, root, v, 0);
    var t, i, f := TableAt(ts, root, v, 0), PX(0, v), Frame(Leaf(ts, root, v));
    TableEntry(ts, use, t, i);
    LeafUse(ts, use, root, v);
    LeafSet(ts, use, root, v, 0);
    hide Tree, Leaf, TableAt, PX, EntryOk, R, W, X, U, V, Frames, OnePage;
    if doFree {
      assert lo <= f < hi && f > 0 by {
        PoolUses(lo, hi, free, use);
      }
      OwnSet(ts, use, t, i, 0, f, Held);
      FramesUse(lo, hi, free, use, f, Held);
    } else {
      BorrowSet(ts, use, t, i, 0);
    }
  }

  /** The pages are below MAXVA and unmapped. */
  ghost predicate Clear(ts: Tables, root: int, first: int, k: nat) {
    forall v :: first <= v < first + k ==> Unmapped(ts, root, v)
  }

  predicate Unmapped(ts: Tables, root: int, v: int) {
    0 <= v < MAXPAGE && Leaf(ts, root, v) == 0
  }

  lemma NotClear(ts: Tables, root: int, first: int, k: nat, v: int)
    requires first <= v < first + k && (v < 0 || v >= MAXPAGE || Leaf(ts, root, v) != 0)
    ensures !Clear(ts, root, first, k)
  {
    assert !Unmapped(ts, root, v);
  }

  lemma ClearNext(ts: Tables, root: int, first: int, k: nat)
    requires Clear(ts, root, first, k) && 0 <= first + k < MAXPAGE && Leaf(ts, root, first + k) == 0
    ensures Clear(ts, root, first, k + 1)
  {
  }

  /** k pages from `first` on have entries for consecutive frames; all others have what they had. */
  ghost predicate PagesSet(ts: Tables, ts': Tables, use: Uses, root: int, first: nat, k: nat, f: nat, perm: nat)
    requires perm < 1024
  {
    forall r, v :: IsRoot(use, r) && 0 <= v < MAXPAGE ==>
      Leaf(ts', r, v) == if r == root && first <= v < first + k then Entry(f + v - first, perm) else Leaf(ts, r, v)
  }

  lemma NothingSet(ts: Tables, use: Uses, mem: map<int, Page>, root: int, first: nat, f: nat, perm: nat)
    requires perm < 1024
    ensures PagesSet(ts, ts, use, root, first, 0, f, perm) && Took(use, mem, use, mem, f, 0)
    ensures Clear(ts, root, first, 0)
  {
    hide Leaf;
  }

  /** The next page is as it was at first. */
  lemma NextUnset(ts0: Tables, ts: Tables, use0: Uses, root: int, first: nat, k: nat, f: nat, perm: nat)
    requires perm < 1024 && IsRoot(use0, root) && PagesSet(ts0, ts, use0, root, first, k, f, perm)
    ensures first + k < MAXPAGE ==> Leaf(ts, root, first + k) == Leaf(ts0, root, first + k)
  {
    hide Leaf;
  }

  lemma MayMapTook(use: Uses, mem: map<int, Page>, use': Uses, mem': map<int, Page>, f: nat, g: nat, perm: nat,
                   own: bool)
    requires Took(use, mem, use', mem', f, if own then 1 else 0) && MayMap(use, g, perm, own) && g != f
    ensures MayMap(use', g, perm, own)
  {
  }

  lemma SetGrew(ts0: Tables, use0: Uses, mem0: map<int, Page>, ts1: Tables, use1: Uses, mem1: map<int, Page>,
                ts: Tables, use: Uses, mem: map<int, Page>, root: int, first: nat, k: nat, f: nat, perm: nat,
                took: nat)
    requires perm < 1024 && PagesSet(ts0, ts1, use0, root, first, k, f, perm) && Took(use0, mem0, use1, mem1, f, took)
    requires Grew(ts1, use1, mem1, ts, use, mem)
    ensures PagesSet(ts0, ts, use0, root, first, k, f, perm) && Took(use0, mem0, use, mem, f, took)
  {
    hide Leaf, Entry;
    forall r, v | IsRoot(use0, r) && 0 <= v < MAXPAGE
      ensures Leaf(ts, r, v) == if r == root && first <= v < first + k then Entry(f + v - first, perm)
          else Leaf(ts0, r, v)
    {
      assert IsRoot(use1, r);
      assert Leaf(ts1, r, v) == if r == root && first <= v < first + k then Entry(f + v - first, perm)
          else Leaf(ts0, r, v);
    }
  }

  lemma SetOne(ts0: Tables, use0: Uses, mem0: map<int, Page>, ts1: Tables, use1: Uses, mem1: map<int, Page>,
               ts: Tables, use: Uses, mem: map<int, Page>, root: int, first: nat, k: nat, f: nat, perm: nat, own: bool)
    requires perm < 1024 && PagesSet(ts0, ts1, use0, root, first, k, f, perm)
    requires OnePage(ts1, ts, use1, root, first + k, Entry(f + k, perm))
    requires Took(use0, mem0, use1, mem1, f, if own then k else 0)
    requires Took(use1, mem1, use, mem, f + k, if own then 1 else 0)
    ensures PagesSet(ts0, ts, use0, root, first, k + 1, f, perm)
    ensures Took(use0, mem0, use, mem, f, if own then k + 1 else 0)
  {
    hide Leaf, Entry;
    forall r, v | IsRoot(use0, r) && 0 <= v < MAXPAGE
      ensures Leaf(ts, r, v) == if r == root && first <= v < first + k + 1 then Entry(f + v - first, perm)
          else Leaf(ts0, r, v)
    {
      assert IsRoot(use1, r);
      assert Leaf(ts1, r, v) == if r == root && first <= v < first + k then Entry(f + v - first, perm)
          else Leaf(ts0, r, v);
    }
  }

  /** The frame may be mapped with these flags. */
  ghost predicate MayMap(use: Uses, f: nat, perm: nat, own: bool) {
    && perm < 1024 && (R(perm) || W(perm) || X(perm))
    && (own ==> f in use && use[f] == Held && f > 0)
    && (!own ==> !U(perm) && (f in use ==> use[f] == Other))
  }

  /** Apart from new tables, only the k frames from f on changed hands, to user pages. */
  ghost predicate Took(use: Uses, mem: map<int, Page>, use': Uses, mem': map<int, Page>, f: int, k: nat) {
    && (forall g :: g in use <==> g in use')
    && (forall g :: g in use ==>
          use'[g] == use[g] || (use[g].Free? && Inner(use'[g])) || (f <= g < f + k && use'[g].User?))
    && (forall g :: f <= g < f + k ==> g in use && use[g] == Held && use'[g].User?)
    && (forall g :: g in mem <==> g in mem')
    && (forall g :: g in use && g in mem && !use[g].Free? ==> mem'[g] == mem[g])
  }

  lemma EntryFacts(f: nat, perm: nat)
    requires perm < 1024
    ensures var e := Entry(f, perm);
            e > 0 && V(e) && Frame(e) == f && Flags(e) == perm / 2 * 2 + 1
            && (R(e) <==> R(perm)) && (W(e) <==> W(perm)) && (X(e) <==> X(perm)) && (U(e) <==> U(perm))
  {
    FlagsOf(f, perm / 2 * 2 + 1);
    OddFlags(perm);
  }

  lemma OddFlags(p: nat)
    ensures var q := p / 2 * 2 + 1;
            (R(q) <==> R(p)) && (W(q) <==> W(p)) && (X(q) <==> X(p)) && (U(q) <==> U(p)) && V(q)
  {
    var q := p / 2 * 2 + 1;
    assert q / 2 == p / 2;
    assert q / 4 == q / 2 / 2 && p / 4 == p / 2 / 2;
    assert q / 8 == q / 4 / 2 && p / 8 == p / 4 / 2;
    assert q / 16 == q / 8 / 2 && p / 16 == p / 8 / 2;
  }

  lemma WalkedLeaf(ts: Tables, use: Uses, mem: map<int, Page>, ts': Tables, use': Uses, mem': map<int, Page>,
                   root: int, v: int)
    requires Grew(ts, use, mem, ts', use', mem') && IsRoot(use, root) && 0 <= v < MAXPAGE && Tree(ts', use')
    ensures Leaf(ts', root, v) == Leaf(ts, root, v)
    ensures var t := TableAt(ts', root, v, 0);
            && (t == NONE ==> Leaf(ts, root, v) == 0)
            && (t != NONE ==>
                  t in ts' && t in use' && |ts'[t]| == ENTRIES && Level(use'[t]) == 0 && 0 <= PX(0, v) < ENTRIES
                              && (Leaf(ts, root, v) != 0 <==> V(ts'[t][PX(0, v)]))
                              && (!V(ts'[t][PX(0, v)]) ==> ts'[t][PX(0, v)] == 0))
  {
    assert Leaf(ts', root, v) == Leaf(ts, root, v);
    assert IsRoot(use', root);
    TableLevel(ts', use', root, v, 0);
    var t := TableAt(ts', root, v, 0);
    if t != NONE {
      assert EntryOk(ts', use', t, PX(0, v));
    }
  }

  lemma MayMapStill(ts: Tables, use: Uses, mem: map<int, Page>, ts': Tables, use': Uses, mem': map<int, Page>,
                    f: nat, perm: nat, own: bool)
    requires Grew(ts, use, mem, ts', use', mem') && MayMap(use, f, perm, own)
    ensures MayMap(use', f, perm, own)
  {
  }

  lemma MayMapSmall(use: Uses, f: nat, perm: nat, own: bool)
    requires MayMap(use, f, perm, own)
    ensures perm < 1024
  {
  }

  lemma PageOfPage(v: nat)
    ensures v * PGSIZE / PGSIZE == v
  {
  }

  /** Filling an empty leaf entry. */
  lemma MapDone(lo: int, hi: int, free: seq<int>, ts: Tables, use: Uses, root: int, v: int, f: nat, perm: nat,
                own: bool)
    requires Frames(lo, hi, free, use) && Tree(ts, use) && IsRoot(use, root) && 0 <= v < MAXPAGE
    requires MayMap(use, f, perm, own)
    requires TableAt(ts, root, v, 0) != NONE && Leaf(ts, root, v) == 0
    ensures TableAt(ts, root, v, 0) in ts
    ensures |ts[TableAt(ts, root, v, 0)]| == ENTRIES
    ensures var t, i := TableAt(ts, root, v, 0), PX(0, v);
            var ts', use' := ts[t := ts[t][i := Entry(f, perm)]], if own then use[f := User(t, i)] else use;
            && OnePage(ts, ts', use, root, v, Entry(f, perm)) && Tree(ts', use') && Frames(lo, hi, free, use')
            && (Whole(use) ==> Whole(use')) && IsRoot(use', root)
  {
    EntryFacts(f, perm);
    TableLevel(ts, use, root, v, 0);
    var t, i := TableAt(ts, root, v, 0), PX(0, v);
    TableEntry(ts, use, t, i);
    assert ts[t][i] == 0;
    LeafSet(ts, use, root, v, Entry(f, perm));
    hide Tree, Leaf, TableAt, PX, EntryOk, R, W, X, U, V, Entry, Frames, OnePage;
    if own {
      OwnSet(ts, use, t, i, Entry(f, perm), f, User(t, i));
      FramesUse(lo, hi, free, use, f, User(t, i));
    } else {
      BorrowSet(ts, use, t, i, Entry(f, perm));
    }
  }

  lemma GrewThenOne(ts: Tables, use: Uses, mem: map<int, Page>, ts1: Tables, use1: Uses, mem1: map<int, Page>,
                    ts2: Tables,
                    root: int, v: int, f: nat, perm: nat, own: bool, u: Use)
    requires Grew(ts, use, mem, ts1, use1, mem1) && MayMap(use1, f, perm, own) && MayMap(use, f, perm, own) && u.User?
    requires OnePage(ts1, ts2, use1, root, v, Entry(f, perm))
    ensures OnePage(ts, ts2, use, root, v, Entry(f, perm))
    ensures Took(use, mem, if own then use1[f := u] else use1, mem1, f, if own then 1 else 0)
  {
    hide Leaf, Entry;
    forall r, w | IsRoot(use, r) && 0 <= w < MAXPAGE
      ensures Leaf(ts2, r, w) == if r == root && w == v then Entry(f, perm) else Leaf(ts, r, w)
    {
      assert IsRoot(use1, r);
      assert Leaf(ts1, r, w) == Leaf(ts, r, w);
    }
  }

  lemma RootTable(ts: Tables, use: Uses, root: int)
    requires Tree(ts, use) && IsRoot(use, root)
    ensures root in ts && 0 < root
  {
  }

  /** What an entry of an existing table refers to. */
  lemma EntryNext(ts: Tables, use: Uses, t: int, i: int)
    requires Tree(ts, use) && t in ts && t in use && 0 <= i < ENTRIES
    ensures |ts[t]| == ENTRIES
    ensures Next(ts, t, i) == if V(ts[t][i]) then Frame(ts[t][i]) else NONE
    ensures V(ts[t][i]) ==> Next(ts, t, i) != NONE
  {
    assert EntryOk(ts, use, t, i);
  }

  lemma FramesUse(lo: int, hi: int, free: seq<int>, use: Uses, f: int, u: Use)
    requires Frames(lo, hi, free, use) && f in use && !use[f].Free? && !u.Free?
    ensures Frames(lo, hi, free, use[f := u])
  {
  }

  lemma StepGrew(ts: Tables, use: Uses, mem: map<int, Page>, ts': Tables, n: int, u: Use)
    requires n in use && n in mem && use[n].Free? && Inner(u) && SameMaps(ts, ts', use[n := Held])
    ensures Grew(ts, use, mem, ts', use[n := Held][n := u], mem[n := Fill(5)])
  {
    hide Leaf;
    forall r, v | IsRoot(use, r) && 0 <= v < MAXPAGE
      ensures Leaf(ts', r, v) == Leaf(ts, r, v)
    {
      assert IsRoot(use[n := Held], r);
    }
  }

  lemma GrewSelf(ts: Tables, use: Uses, mem: map<int, Page>)
    ensures Grew(ts, use, mem, ts, use, mem)
  {
  }

  /** Where a table is missing, all tables below it are. */
  lemma NoWay(ts: Tables, use: Uses, root: int, v: int, level: nat)
    requires Tree(ts, use) && IsRoot(use, root) && level <= 2 && TableAt(ts, root, v, level) == NONE
    ensures TableAt(ts, root, v, 0) == NONE
  {
    if level == 1 {
      assert TableAt(ts, root, v, 0) == Next(ts, NONE, PX(1, v));
    }
  }

  lemma TableEntry(ts: Tables, use: Uses, t: int, i: int)
    requires Tree(ts, use) && t in ts && t in use && 0 <= i < ENTRIES
    ensures |ts[t]| == ENTRIES && EntryOk(ts, use, t, i) && 0 < t
  {
  }

  /** A fresh table at an empty entry on the way to page v. */
  lemma TableAdded(ts: Tables, use: Uses, root: int, v: int, level: nat, n: int)
    requires Tree(ts, use) && IsRoot(use, root) && 0 <= v < MAXPAGE && 1 <= level <= 2
    requires TableAt(ts, root, v, level) != NONE && TableAt(ts, root, v, level - 1) == NONE
    requires n in use && use[n] == Held && n > 0
    ensures TableAt(ts, root, v, level) in ts && TableAt(ts, root, v, level) in use
    ensures |ts[TableAt(ts, root, v, level)]| == ENTRIES
    ensures var t, i := TableAt(ts, root, v, level), PX(level, v);
            var ts', use' := ts[t := ts[t][i := n * 1024 + 1]][n := ZeroTable()], use[n := Table(t, i, level - 1)];
            && Tree(ts', use') && (Whole(use) ==> Whole(use')) && SameMaps(ts, ts', use)
            && TableAt(ts', root, v, level - 1) == n && Level(use[t]) == level
  {
    hide Tree, V, Frame, PX;
    var t, i := TableAt(ts, root, v, level), PX(level, v);
    TableLevel(ts, use, root, v, level);
    PxRange(level, v);
    EmptyEntry(ts, use, t, i);
    HeldApart(ts, use, n);
    TableEntryBits(n);
    AddTable(ts, use, t, i, n);
    var ts' := ts[t := ts[t][i := n * 1024 + 1]][n := ZeroTable()];
    WalkKept(ts, use, ts', t, root, v, level);
    assert Next(ts', t, i) == n;
  }

  lemma HeldApart(ts: Tables, use: Uses, f: int)
    requires Tree(ts, use) && f in use && use[f] == Held
    ensures f !in ts
  {
  }

  lemma PxRange(level: nat, v: int)
    requires level <= 2 && 0 <= v < MAXPAGE
    ensures 0 <= PX(level, v) < ENTRIES && (level == 2 ==> PX(level, v) < 256)
  {
  }

  /** Where a walk ends early, the entry is empty. */
  lemma EmptyEntry(ts: Tables, use: Uses, t: int, i: int)
    requires Tree(ts, use) && t in ts && t in use && Level(use[t]) > 0 && 0 <= i < ENTRIES && Next(ts, t, i) == NONE
    ensures |ts[t]| == ENTRIES && ts[t][i] == 0 && NONE !in ts && use[t].Table?
  {
    hide R, W, X, U, Frame, UseOk;
    assert EntryOk(ts, use, t, i);
  }
}
