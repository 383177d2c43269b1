/** user/umalloc.c: the first-fit allocator over a circular, address-ordered free list. Addresses count
    header-sized units. */
module Umalloc {

  /** Every obtained unit belongs to a block: `own` gives its header. */
  type Owner = map<int, int>

  /** The links of the list, which starts at the lowest address. */
  ghost predicate Chain(list: seq<int>, ptr: map<int, int>) {
    && list != []
    && forall i :: 0 <= i < |list| ==> list[i] in ptr && ptr[list[i]] == list[if i + 1 == |list| then 0 else i + 1]
  }

  /** The list begins with the empty block `base`, goes up in address, and no block touches the next one
      (except that block `loose` may). */
  ghost predicate Ordered(list: seq<int>, size: map<int, int>, base: int, loose: int) {
    && list != [] && list[0] == base && base in size && size[base] == 0
    && (forall i :: 1 <= i < |list| ==> list[i] in size && size[list[i]] > 0)
    && (forall i :: 0 <= i < |list| - 1 ==> Below(list, size, loose, i))
  }

  ghost predicate Below(list: seq<int>, size: map<int, int>, loose: int, i: int)
    requires 0 <= i < |list| - 1
  {
    && list[i] in size && list[i] < list[i + 1] && list[i] + size[list[i]] <= list[i + 1]
    && (i != loose ==> list[i] + size[list[i]] < list[i + 1])
  }

  ghost predicate IsFree(list: seq<int>, b: int) {
    exists i :: 1 <= i < |list| && list[i] == b
  }

  /** The block at b has these units. */
  ghost predicate Has(own: Owner, b: int, n: int) {
    forall c :: b <= c < b + n ==> c in own && own[c] == b
  }

  /** Every obtained unit is in exactly one block, which is on the free list or allocated. */
  ghost predicate Owned(list: seq<int>, live: map<int, int>, size: map<int, int>, own: Owner) {
    && (forall i :: 1 <= i < |list| ==> list[i] in size && Has(own, list[i], size[list[i]]) && list[i] !in live)
    && (forall b :: b in live ==> b in size && size[b] == live[b] > 0 && Has(own, b, live[b]))
    && (forall c :: c in own ==>
          own[c] in size && own[c] <= c < own[c] + size[own[c]] && (own[c] in live || IsFree(list, own[c])))
  }

  /** Addresses in the list increase. */
  lemma {:induction false} Increasing(list: seq<int>, size: map<int, int>, base: int, loose: int, i: nat, j: nat)
    requires Ordered(list, size, base, loose) && i < j < |list|
    ensures list[i] < list[j]
    decreases j
  {
    assert Below(list, size, loose, j - 1);
    if i < j - 1 {
      Increasing(list, size, base, loose, i, j - 1);
    }
  }

  /** Two blocks that both own a unit are the same. */
  lemma NoOverlap(own: Owner, a: int, n: int, b: int, m: int)
    requires Has(own, a, n) && Has(own, b, m) && a < b && m > 0
    ensures a + n <= b
  {
    assert b in own && own[b] == b;
  }

  ghost predicate IsBlock(list: seq<int>, live: map<int, int>, b: int) {
    b in live || IsFree(list, b)
  }

  /** Blocks do not overlap, whether free or allocated. */
  lemma BlocksApart(list: seq<int>, live: map<int, int>, size: map<int, int>, own: Owner, base: int, a: int, b: int)
    requires Sound(list, live, size, own, base, -1) && IsBlock(list, live, a) && IsBlock(list, live, b) && a < b
    ensures a in size && b in size && a + size[a] <= b
  {
    BlockHas(list, live, size, own, base, a);
    BlockHas(list, live, size, own, base, b);
    NoOverlap(own, a, size[a], b, size[b]);
  }

  /** Conservation: the units obtained from sbrk are those of the blocks, free and allocated. */
  lemma Conserved(list: seq<int>, live: map<int, int>, size: map<int, int>, own: Owner, base: int, c: int)
    requires Sound(list, live, size, own, base, -1)
    ensures c in own <==> exists b :: IsBlock(list, live, b) && b in size && b <= c < b + size[b]
  {
    if c in own {
      assert IsBlock(list, live, own[c]);
    }
    if b :| IsBlock(list, live, b) && b in size && b <= c < b + size[b] {
      BlockHas(list, live, size, own, base, b);
    }
  }

  lemma BlockHas(list: seq<int>, live: map<int, int>, size: map<int, int>, own: Owner, base: int, b: int)
    requires Sound(list, live, size, own, base, -1) && IsBlock(list, live, b)
    ensures b in size && size[b] > 0 && Has(own, b, size[b])
  {
    if b !in live {
      var i :| 1 <= i < |list| && list[i] == b;
    }
  }

  /** Where a block goes into the list. */
  ghost predicate Gap(list: seq<int>, j: int, b: int) {
    0 <= j < |list| && list[j] < b && (j + 1 < |list| ==> b < list[j + 1])
  }

  /** The list with b put in behind position j; a block that b touches is taken into b. */
  ghost function Linked(list: seq<int>, size: map<int, int>, j: int, b: int): seq<int>
    requires 0 <= j < |list| && b in size
  {
    list[..j + 1] + [b] + list[if Touches(list, size, j, b) then j + 2 else j + 1..]
  }

  /** b ends where the next block begins. */
  ghost predicate Touches(list: seq<int>, size: map<int, int>, j: int, b: int)
    requires 0 <= j < |list| && b in size
  {
    j + 1 < |list| && b + size[b] == list[j + 1]
  }

  ghost function Grown(list: seq<int>, size: map<int, int>, j: int, b: int): map<int, int>
    requires 0 <= j < |list| && b in size
  {
    if Touches(list, size, j, b) && list[j + 1] in size then size[b := size[b] + size[list[j + 1]]] else size
  }

  ghost function Reown(own: Owner, a: int, b: int): Owner {
    map c | c in own :: if own[c] == a then b else own[c]
  }

  ghost function OwnLinked(list: seq<int>, size: map<int, int>, own: Owner, j: int, b: int): Owner
    requires 0 <= j < |list| && b in size
  {
    if Touches(list, size, j, b) then Reown(own, list[j + 1], b) else own
  }

  ghost predicate Sound(list: seq<int>, live: map<int, int>, size: map<int, int>, own: Owner, base: int, loose: int) {
    Ordered(list, size, base, loose) && Owned(list, live, size, own) && forall c :: c in own ==> base < c
  }

  /** Linking a block that was allocated keeps everything in order, but it may touch the block before it. */
  lemma LinkedOrdered(list: seq<int>, live: map<int, int>, size: map<int, int>, own: Owner, base: int, j: int, b: int)
    requires Sound(list, live, size, own, base, -1) && b in live && Gap(list, j, b)
    ensures b in size && Ordered(Linked(list, size, j, b), Grown(list, size, j, b), base, j)
  {
    var list', size' := Linked(list, size, j, b), Grown(list, size, j, b);
    if j > 0 {
      NoOverlap(own, list[j], size[list[j]], b, size[b]);
    }
    if j + 1 < |list| {
      NoOverlap(own, b, size[b], list[j + 1], size[list[j + 1]]);
    }
    var k := if Touches(list, size, j, b) then j + 2 else j + 1;
    forall i | 0 <= i < |list'| - 1
      ensures Below(list', size', j, i)
    {
      if i < j {
        assert Below(list, size, -1, i);
      } else if i > j + 1 {
        assert Below(list, size, -1, k + i - j - 2);
      } else if i == j + 1 && k == j + 2 {
        assert Below(list, size, -1, j + 1);
      }
    }
  }

  lemma LinkedFree(list: seq<int>, live: map<int, int>, size: map<int, int>, own: Owner, base: int, j: int, b: int,
                   i: int)
    requires Sound(list, live, size, own, base, -1) && b in live && Gap(list, j, b)
    requires 1 <= i < |Linked(list, size, j, b)|
    ensures var x, size' := Linked(list, size, j, b)[i], Grown(list, size, j, b);
            x in size' && Has(OwnLinked(list, size, own, j, b), x, size'[x]) && x !in live - {b}
  {
    var list' := Linked(list, size, j, b);
    var k := if Touches(list, size, j, b) then j + 2 else j + 1;
    if i != j + 1 {
      var o := if i <= j then i else k + i - j - 2;
      assert list'[i] == list[o] && Has(own, list[o], size[list[o]]);
      if k == j + 2 && o != j + 1 {
        Distinct(list, size, base, -1, o, j + 1);
      }
    }
  }

  lemma UnitFacts(list: seq<int>, live: map<int, int>, size: map<int, int>, own: Owner, base: int, j: int, b: int,
                  c: int)
    requires Sound(list, live, size, own, base, -1) && b in live && 0 <= j < |list| && c in own
    ensures own[c] in size && own[c] <= c < own[c] + size[own[c]] && (own[c] in live || IsFree(list, own[c]))
    ensures b in size && size[b] > 0
    ensures j + 1 < |list| ==> list[j + 1] in size && size[list[j + 1]] > 0 && list[j + 1] !in live
  {
    hide IsFree, Has, Below;
  }

  lemma LinkedUnit(list: seq<int>, live: map<int, int>, size: map<int, int>, own: Owner, base: int, j: int, b: int,
                   c: int)
    requires Sound(list, live, size, own, base, -1) && b in live && Gap(list, j, b)
    requires c in OwnLinked(list, size, own, j, b)
    ensures var x, size' := OwnLinked(list, size, own, j, b)[c], Grown(list, size, j, b);
            x in size' && x <= c < x + size'[x] && (x in live - {b} || IsFree(Linked(list, size, j, b), x))
  {
    hide Sound;
    UnitFacts(list, live, size, own, base, j, b, c);
    var list' := Linked(list, size, j, b);
    var k := if Touches(list, size, j, b) then j + 2 else j + 1;
    var x := own[c];
    if x == b || (k == j + 2 && x == list[j + 1]) {
      assert list'[j + 1] == b;
    } else if x !in live {
      var o :| 1 <= o < |list| && list[o] == x;
      assert list'[if o <= j then o else o - k + j + 2] == x;
    }
  }

  lemma LinkedLive(list: seq<int>, live: map<int, int>, size: map<int, int>, own: Owner, base: int, j: int, b: int,
                   x: int)
    requires Sound(list, live, size, own, base, -1) && b in live && Gap(list, j, b) && x in live && x != b
    ensures var size' := Grown(list, size, j, b);
            x in size' && size'[x] == live[x] > 0 && Has(OwnLinked(list, size, own, j, b), x, live[x])
  {
    assert Has(own, x, live[x]);
  }

  lemma LinkedOwned(list: seq<int>, live: map<int, int>, size: map<int, int>, own: Owner, base: int, j: int, b: int)
    requires Sound(list, live, size, own, base, -1) && b in live && Gap(list, j, b)
    ensures Owned(Linked(list, size, j, b), live - {b}, Grown(list, size, j, b), OwnLinked(list, size, own, j, b))
  {
    hide Ordered, Linked, Grown, OwnLinked, Has, IsFree;
    var list', size' := Linked(list, size, j, b), Grown(list, size, j, b);
    var own', live' := OwnLinked(list, size, own, j, b), live - {b};
    forall i | 1 <= i < |list'|
      ensures list'[i] in size' && Has(own', list'[i], size'[list'[i]]) && list'[i] !in live'
    {
      LinkedFree(list, live, size, own, base, j, b, i);
    }
    forall x | x in live'
      ensures x in size' && size'[x] == live'[x] > 0 && Has(own', x, live'[x])
    {
      LinkedLive(list, live, size, own, base, j, b, x);
    }
    forall c | c in own'
      ensures own'[c] in size' && own'[c] <= c < own'[c] + size'[own'[c]]
      ensures (own'[c] in live' || IsFree(list', own'[c]))
    {
      LinkedUnit(list, live, size, own, base, j, b, c);
    }
  }

  lemma Distinct(list: seq<int>, size: map<int, int>, base: int, loose: int, i: nat, j: nat)
    requires Ordered(list, size, base, loose) && i < |list| && j < |list| && i != j
    ensures list[i] != list[j]
  {
    if i < j {
      Increasing(list, size, base, loose, i, j);
    } else {
      Increasing(list, size, base, loose, j, i);
    }
  }

  /** The list with the block at j + 1 taken into the one before it. */
  ghost function Merged(list: seq<int>, j: int): seq<int>
    requires 0 <= j < |list| - 1
  {
    list[..j + 1] + list[j + 2..]
  }

  lemma MergedSound(list: seq<int>, live: map<int, int>, size: map<int, int>, own: Owner, base: int, j: int)
    requires Ordered(list, size, base, j) && Owned(list, live, size, own) && 1 <= j < |list| - 1
    requires list[j] + size[list[j]] == list[j + 1]
    ensures var b := list[j + 1];
            var size' := size[list[j] := size[list[j]] + size[b]];
            Ordered(Merged(list, j), size', base, -1) && Owned(Merged(list, j), live, size', Reown(own, b, list[j]))
  {
    hide Owned;
    forall i, o | 0 <= i < |list| && 0 <= o < |list| && i != o
      ensures list[i] != list[o]
    {
      Distinct(list, size, base, j, i, o);
    }
    OrderedSizes(list, size, base, j);
    hide Ordered;
    MergedOrdered(list, size, base, j);
    MergedOwned(list, live, size, own, j);
  }

  lemma OrderedSizes(list: seq<int>, size: map<int, int>, base: int, j: int)
    requires Ordered(list, size, base, j)
    ensures forall i :: 1 <= i < |list| ==> list[i] in size && size[list[i]] > 0
  {
  }

  lemma MergedOrdered(list: seq<int>, size: map<int, int>, base: int, j: int)
    requires Ordered(list, size, base, j) && 1 <= j < |list| - 1 && list[j] + size[list[j]] == list[j + 1]
    requires forall i, o :: 0 <= i < |list| && 0 <= o < |list| && i != o ==> list[i] != list[o]
    ensures Ordered(Merged(list, j), size[list[j] := size[list[j]] + size[list[j + 1]]], base, -1)
  {
    var a, b := list[j], list[j + 1];
    var list', size' := Merged(list, j), size[a := size[a] + size[b]];
    forall i | 0 <= i < |list'| - 1
      ensures Below(list', size', -1, i)
    {
      assert Below(list, size, j, if i <= j then i else i + 1);
      if i == j {
        assert Below(list, size, j, j + 1);
      }
    }
  }

  lemma MergedOwned(list: seq<int>, live: map<int, int>, size: map<int, int>, own: Owner, j: int)
    requires Owned(list, live, size, own) && 1 <= j < |list| - 1 && list[j] + size[list[j]] == list[j + 1]
    requires forall i :: 1 <= i < |list| ==> size[list[i]] > 0
    requires forall i :: 0 <= i < |list| && i != j ==> list[i] != list[j]
    requires forall i :: 0 <= i < |list| && i != j + 1 ==> list[i] != list[j + 1]
    ensures var b := list[j + 1];
            Owned(Merged(list, j), live, size[list[j] := size[list[j]] + size[b]], Reown(own, b, list[j]))
  {
    hide Has, IsFree, Reown, Merged;
    var a, b := list[j], list[j + 1];
    var list', size', own' := Merged(list, j), size[a := size[a] + size[b]], Reown(own, b, a);
    MergedHas(own, a, size[a], b, size[b]);
    MergedIndex(list, j);
    forall i | 1 <= i < |list'|
      ensures list'[i] in size' && Has(own', list'[i], size'[list'[i]]) && list'[i] !in live
    {
      var o := if i <= j then i else i + 1;
      if o != j {
        OtherHas(own, a, b, list[o], size[list[o]]);
      }
    }
    forall x | x in live
      ensures x in size' && size'[x] == live[x] > 0 && Has(own', x, live[x])
    {
      OtherHas(own, a, b, x, live[x]);
    }
    MergedUnits(list, live, size, own, j);
  }

  lemma MergedIndex(list: seq<int>, j: int)
    requires 0 <= j < |list| - 1
    ensures |Merged(list, j)| == |list| - 1
    ensures forall i :: 0 <= i < |list| - 1 ==> Merged(list, j)[i] == list[if i <= j then i else i + 1]
  {
  }

  lemma MergedHas(own: Owner, a: int, n: int, b: int, m: int)
    requires Has(own, a, n) && Has(own, b, m) && a + n == b && n > 0
    ensures Has(Reown(own, b, a), a, n + m)
  {
  }

  lemma OtherHas(own: Owner, a: int, b: int, x: int, n: int)
    requires Has(own, x, n) && x != b
    ensures Has(Reown(own, b, a), x, n)
  {
  }

  lemma MergedUnits(list: seq<int>, live: map<int, int>, size: map<int, int>, own: Owner, j: int)
    requires Owned(list, live, size, own) && 1 <= j < |list| - 1 && list[j] + size[list[j]] == list[j + 1]
    requires size[list[j]] > 0 && size[list[j + 1]] > 0
    ensures var a, b := list[j], list[j + 1];
            var size', own' := size[a := size[a] + size[b]], Reown(own, b, a);
            forall c :: c in own' ==>
              own'[c] in size' && own'[c] <= c < own'[c] + size'[own'[c]]
              && (own'[c] in live || IsFree(Merged(list, j), own'[c]))
  {
    hide Has;
    var a, b := list[j], list[j + 1];
    var list', size', own' := Merged(list, j), size[a := size[a] + size[b]], Reown(own, b, a);
    forall c | c in own'
      ensures own'[c] in size' && own'[c] <= c < own'[c] + size'[own'[c]] && (own'[c] in live || IsFree(list', own'[c]))
    {
      var x := own[c];
      if x == b || x == a {
        assert list'[j] == a;
      } else if x !in live {
        var o :| 1 <= o < |list| && list[o] == x;
        assert list'[if o <= j then o else o - 1] == x;
      }
    }
  }

  /** Linking b behind position j, as free does it: b points past what it took in, list[j] points to b. */
  lemma ChainLinked(list: seq<int>, ptr: map<int, int>, size: map<int, int>, base: int, j: int, b: int)
    requires Chain(list, ptr) && Ordered(list, size, base, -1) && Gap(list, j, b) && b in size && size[b] > 0
    requires !IsFree(list, b)
    ensures var next := ptr[list[j]];
            && next in ptr && (b + size[b] == next <==> Touches(list, size, j, b))
            && Chain(Linked(list, size, j, b), ptr[b := if b + size[b] == next then ptr[next] else next][list[j] := b])
  {
    var next, k := ptr[list[j]], if Touches(list, size, j, b) then j + 2 else j + 1;
    var list' := Linked(list, size, j, b);
    var ptr' := ptr[b := if b + size[b] == next then ptr[next] else next][list[j] := b];
    if j > 0 {
      Increasing(list, size, base, -1, 0, j);
    }
    assert base < b;
    forall i | 0 <= i < |list'|
      ensures list'[i] in ptr' && ptr'[list'[i]] == list'[if i + 1 == |list'| then 0 else i + 1]
    {
      if i != j && i != j + 1 {
        var o := if i < j then i else k + i - j - 2;
        assert list'[i] == list[o];
        Distinct(list, size, base, -1, o, j);
        assert list[o] != b;
      }
    }
  }

  lemma ChainMerged(list: seq<int>, ptr: map<int, int>, size: map<int, int>, base: int, j: int)
    requires Chain(list, ptr) && Ordered(list, size, base, j) && 0 <= j < |list| - 1
    ensures list[j + 1] in ptr && Chain(Merged(list, j), ptr[list[j] := ptr[list[j + 1]]])
  {
    var list', ptr' := Merged(list, j), ptr[list[j] := ptr[list[j + 1]]];
    forall i | 0 <= i < |list'|
      ensures list'[i] in ptr' && ptr'[list'[i]] == list'[if i + 1 == |list'| then 0 else i + 1]
    {
      var o := if i <= j then i else i + 1;
      assert o < |list|;
      assert i > j ==> list'[i] == list[j + 2..][i - j - 1];
      if o != j {
        Distinct(list, size, base, j, o, j);
      }
    }
  }

  /** A block that is not in the list has a place in it. */
  lemma {:induction false} FindGap(list: seq<int>, size: map<int, int>, base: int, b: int, n: nat) returns (j: nat)
    requires Ordered(list, size, base, -1) && base < b && !IsFree(list, b) && 1 <= n <= |list|
    ensures j < n && list[j] < b && (j + 1 < n ==> b < list[j + 1])
  {
    if n == 1 || list[n - 1] < b {
      j := n - 1;
    } else {
      assert list[n - 1] != b;
      j := FindGap(list, size, base, b, n - 1);
    }
  }

  class Allocator {
    const base: int          // the static header; free blocks are above it
    var ptr: map<int, int>   // the headers in memory
    var size: map<int, int>
    var freep: int           // 0 before the first malloc
    ghost var list: seq<int>
    ghost var live: map<int, int>   // the allocated blocks and their sizes
    ghost var own: Owner

    ghost predicate Valid()
      reads this
    {
      && 0 < base
      && if freep == 0 then list == [] && live == map[] && own == map[]
         else freep in list && Chain(list, ptr) && Sound(list, live, size, own, base, -1)
    }

    constructor (base: int)
      requires 0 < base
      ensures Valid() && this.base == base && live == map[] && own == map[]
    {
      this.base, ptr, size, freep, list, live, own := base, map[], map[], 0, [], map[], map[];
    }

    /** The search of free: the place of b in the list. It ends although the list has none. */
    method FindPlace(b: int) returns (p: int, ghost j: nat)
      requires Valid() && b in live
      ensures Gap(list, j, b) && p == list[j] && freep != 0 && 0 < p
    {
      assert b in own && base < b && !IsFree(list, b);
      ghost var goal := FindGap(list, size, base, b, |list|);
      p := freep;
      j :| 0 <= j < |list| && list[j] == freep;
      while !(b > p && b < ptr[p])
        invariant j < |list| && p == list[j]
        decreases if j <= goal then goal - j else goal + |list| - j
      {
        NextOf(list, ptr, size, base, j);
        GapIs(list, size, base, b, j, goal);
        if p >= ptr[p] && (b > p || b < ptr[p]) {
          break;
        }
        p := ptr[p];
        j := if j + 1 == |list| then 0 else j + 1;
      }
      NextOf(list, ptr, size, base, j);
      GapIs(list, size, base, b, j, goal);
    }

    /** free: the block joins the free list, merged with the neighbours it touches. The other allocated
        blocks and the memory in hand stay what they are. */
    method Free(ap: int) returns (ghost i: nat)
      requires Valid() && ap - 1 in live
      modifies this`ptr, this`size, this`freep, this`list, this`live, this`own
      ensures Valid() && live == old(live) - {ap - 1} && own.Keys == old(own).Keys && freep != 0
      ensures 1 <= i < |list| && list[i] in size
      ensures list[i] <= ap - 1 && ap - 1 + old(live)[ap - 1] <= list[i] + size[list[i]]
    {
      hide Ordered, Owned, Chain, IsFree;
      var bp := ap - 1;
      var p;
      ghost var j;
      p, j := FindPlace(bp);
      ghost var ptr0, size0 := ptr, size;
      FreeFacts(list, live, size, own, base, bp);
      NextOf(list, ptr, size, base, j);
      var next := ptr[p];
      if bp + size[bp] == next {
        size := size[bp := size[bp] + size[next]];
        ptr := ptr[bp := ptr[next]];
      } else {
        ptr := ptr[bp := next];
      }
      if p + size[p] == bp {
        size := size[p := size[p] + size[bp]];
        ptr := ptr[p := ptr[bp]];
      } else {
        ptr := ptr[p := bp];
      }
      list, own, i := FreeDone(list, live, ptr0, size0, own, base, j, bp, ptr, size);
      live := live - {bp};
      freep := p;
    }

    /** morecore: memory from sbrk, which is at brk (NONE if there is none), goes to the free list as one block,
        merged with the block it touches. */
    method Morecore(nu: nat, brk: int) returns (ok: bool, ghost i: nat)
      requires Valid() && freep != 0 && SbrkAt(base, own, brk)
      modifies this`ptr, this`size, this`freep, this`list, this`live, this`own
      ensures ok <==> brk != NONE
      ensures !ok ==>
            freep == old(freep) && ptr == old(ptr) && size == old(size) && list == old(list) && live == old(live)
            && own == old(own)
      ensures ok ==> && Valid() && freep != 0 && live == old(live)
                     && own.Keys == old(own).Keys + Cells(brk, Request(nu))
                     && 1 <= i < |list| && list[i] in size && size[list[i]] >= Request(nu)
    {
      hide Ordered, Owned, Chain, Request;
      i := 0;
      if brk == NONE {
        return false, i;
      }
      var hp, n := brk, Request(nu);
      NewBlock(list, live, size, own, base, hp, n);
      hide Sound;
      assert live[hp := n] - {hp} == live;
      size := size[hp := n];
      live, own := live[hp := n], OwnNew(own, hp, n);
      i := Free(hp + 1);
      return true, i;
    }

    /** Taking block p = list[k] off the list as a whole, or n units off its end. */
    method Take(prevp: int, p: int, n: nat, ghost k: nat) returns (b: int)
      requires Valid() && freep != 0 && n > 0 && 1 <= k < |list| && list[k - 1] == prevp && list[k] == p && p in size
      requires size[p] >= n
      modifies this`ptr, this`size, this`freep, this`list, this`live, this`own
      ensures Valid() && freep == prevp && b !in old(live) && live == old(live)[b := n] && own.Keys == old(own).Keys
      ensures 0 < b
    {
      hide Ordered, Owned, Chain;
      ListFacts(list, ptr, size, base, k - 1);
      ListFacts(list, ptr, size, base, k);
      if size[p] == n {
        Unlinked(list, live, ptr, size, own, base, k);
        ptr := ptr[prevp := ptr[p]];
        list := Merged(list, k - 1);
        b := p;
      } else {
        ghost var size0, own0 := size, own;
        FreeHas(list, live, size, own, k);
        size := size[p := size[p] - n];
        b := p + size[p];
        size := size[b := n];
        own := OwnDivided(own, b, n);
        Divided(list, live, size0, own0, base, k, n, b, live[b := n], size, own);
      }
      live := live[b := n];
      freep := prevp;
    }

    /** The first malloc makes the list, of base alone. */
    method Start()
      requires Valid() && freep == 0
      modifies this`ptr, this`size, this`freep, this`list
      ensures Valid() && freep != 0 && list == [base]
    {
      ptr, size := ptr[base := base], size[base := 0];
      freep, list := base, [base];
    }

    /** Where the search stands: it began behind freep = list[f], and m blocks were too small. */
    ghost predicate Searching(prevp: int, p: int, f: nat, m: nat, n: nat)
      reads this
    {
      && Valid() && freep != 0 && f < |list| && list[f] == freep && m < |list|
      && p == list[Around(f, m + 1, |list|)] && prevp == list[Around(f, m, |list|)]
      && Tried(list, size, f, m, n)
    }

    /** malloc's loop for one turn around the list, from behind freep to freep: the first block of at least n
        units. */
    method Search(n: nat) returns (found: bool, prevp: int, p: int, ghost k: nat)
      requires Valid() && freep != 0 && n > 0
      ensures found ==> 1 <= k < |list| && list[k - 1] == prevp && list[k] == p && p in size && size[p] >= n
      ensures found <==> !NoFit(list, size, n)
    {
      hide Ordered, Owned, Chain, NoFit, Tried;
      ghost var f :| 0 <= f < |list| && list[f] == freep;
      NextOf(list, ptr, size, base, f);
      NoneTried(list, size, f, n);
      prevp, p := freep, ptr[freep];
      ghost var m := 0;
      while true
        invariant Searching(prevp, p, f, m, n)
        decreases |list| - m
      {
        SearchFacts(list, ptr, size, base, f, m, n);
        k := Around(f, m + 1, |list|);
        if size[p] >= n {
          return true, prevp, p, k;
        }
        if p == freep {
          return false, prevp, p, k;
        }
        m, prevp, p := m + 1, p, ptr[p];
      }
    }

    /** malloc: a block of enough units, apart from all other blocks. Memory is asked for only if no free
        block is large enough, and malloc fails only if then there is none. What is asked for has to fit an
        int, see SbrkFits. */
    method Malloc(nbytes: nat, brk: int) returns (r: int)
      requires Valid() && nbytes < 0x1_0000_0000 && SbrkAt(base, own, brk)
      requires nbytes <= MAXBYTES || brk == NONE || !NoFit(list, size, Units(nbytes))
      modifies this`ptr, this`size, this`freep, this`list, this`live, this`own
      ensures Valid()
      ensures r == 0 <==> NoFit(old(list), old(size), Units(nbytes)) && brk == NONE
      ensures r == 0 ==> live == old(live)
      ensures r != 0 ==> r - 1 !in old(live) && live == old(live)[r - 1 := Units(nbytes)]
      ensures r != 0 ==> r - 1 in live && nbytes <= 16 * (live[r - 1] - 1) < nbytes + 16
      ensures var asks := NoFit(old(list), old(size), Units(nbytes)) && brk != NONE;
              own.Keys == old(own).Keys + if asks then Cells(brk, Request(Units(nbytes))) else {}
    {
      hide Ordered, Owned, Chain, Units, Request, Sound;
      var n := Units(nbytes);
      Enough(nbytes);
      if freep == 0 {
        Start();
      }
      assert NoFit(list, size, n) == NoFit(old(list), old(size), n);
      hide NoFit;
      var found, prevp, p;
      ghost var k;
      found, prevp, p, k := Search(n);
      if !found {
        var ok;
        ghost var i;
        ok, i := Morecore(n, brk);
        if !ok {
          return 0;
        }
        FitsNow(list, size, i, n);
        found, prevp, p, k := Search(n);
      }
      var b := Take(prevp, p, n, k);
      return b + 1;
    }
  }

  /** What the next block in the circle, at position k, can tell. */
  lemma SearchFacts(list: seq<int>, ptr: map<int, int>, size: map<int, int>, base: int, f: nat, m: nat, n: nat)
    requires Chain(list, ptr) && Ordered(list, size, base, -1) && f < |list| && m < |list| && n > 0
    requires Tried(list, size, f, m, n)
    ensures var k := Around(f, m + 1, |list|);
            && 0 <= k < |list| && list[k] in size && list[k] in ptr
            && (size[list[k]] >= n ==> 1 <= k && Around(f, m, |list|) == k - 1 && !NoFit(list, size, n))
            && (list[k] == list[f] <==> m + 1 == |list|)
            && (size[list[k]] < n && m + 1 < |list| ==>
                  ptr[list[k]] == list[Around(f, m + 2, |list|)] && Tried(list, size, f, m + 1, n))
            && (size[list[k]] < n && m + 1 == |list| ==> NoFit(list, size, n))
  {
    var k := Around(f, m + 1, |list|);
    if k != f {
      Distinct(list, size, base, -1, k, f);
    }
    if size[list[k]] >= n {
      assert !TooSmall(list, size, k, n);
    } else if m + 1 == |list| {
      forall i | 1 <= i < |list|
        ensures TooSmall(list, size, i, n)
      {
        if i != f {
          assert TooSmall(list, size, Around(f, if i > f then i - f else i - f + |list|, |list|), n);
        }
      }
    }
  }

  /** The units of a block for nbytes, with its header. */
  function Units(nbytes: nat): nat {
    (nbytes + 15) / 16 + 1
  }

  /** An unsigned 32-bit value as the int that sbrk takes. */
  function AsInt(x: nat): int {
    var y := x % 0x1_0000_0000;
    if y < 0x8000_0000 then y else y - 0x1_0000_0000
  }

  const MAXBYTES := 0x7FFF_FFE0

  /** sbrk is asked for the bytes that morecore needs exactly for requests up to MAXBYTES. For any larger one
      it is asked for a unit at most, or to take memory back, while morecore frees a block of 2 GB or more. */
  lemma SbrkFits(nbytes: nat)
    requires nbytes < 0x1_0000_0000
    ensures AsInt(16 * Request(Units(nbytes))) == 16 * Request(Units(nbytes)) <==> nbytes <= MAXBYTES
    ensures nbytes > MAXBYTES ==>
          AsInt(16 * Request(Units(nbytes))) <= 16 && 0x8000_0000 <= 16 * Request(Units(nbytes))
  {
    assert nbytes <= MAXBYTES <==> (nbytes + 15) / 16 + 1 < 0x800_0000;
  }

  /** The largest malloc: sbrk would be asked for 16 bytes, one unit, for a block of 2^28 + 1 units. */
  lemma SbrkTruncates()
    ensures Units(0xFFFF_FFFF) == 0x1000_0001 && AsInt(16 * Request(Units(0xFFFF_FFFF))) == 16
  {
  }

  /** The bytes of such a block behind its header are enough. */
  lemma Enough(nbytes: nat)
    ensures nbytes <= 16 * (Units(nbytes) - 1) < nbytes + 16 && Units(nbytes) > 0
  {
  }

  /** Position f + i in the circle. */
  function Around(f: nat, i: nat, n: nat): int {
    if f + i < n then f + i else f + i - n
  }

  ghost predicate TooSmall(list: seq<int>, size: map<int, int>, i: int, n: nat) {
    0 <= i < |list| && list[i] in size && size[list[i]] < n
  }

  lemma FitsNow(list: seq<int>, size: map<int, int>, i: nat, n: nat)
    requires 1 <= i < |list| && list[i] in size && size[list[i]] >= n
    ensures !NoFit(list, size, n)
  {
    assert !TooSmall(list, size, i, n);
  }

  /** The m blocks behind position f are too small. */
  ghost predicate Tried(list: seq<int>, size: map<int, int>, f: nat, m: nat, n: nat) {
    forall i :: 1 <= i <= m ==> TooSmall(list, size, Around(f, i, |list|), n)
  }

  lemma NoneTried(list: seq<int>, size: map<int, int>, f: nat, n: nat)
    ensures Tried(list, size, f, 0, n)
  {
  }

  /** No free block has n units. */
  ghost predicate NoFit(list: seq<int>, size: map<int, int>, n: nat) {
    forall i :: 1 <= i < |list| ==> TooSmall(list, size, i, n)
  }

  lemma FreeHas(list: seq<int>, live: map<int, int>, size: map<int, int>, own: Owner, k: nat)
    requires Owned(list, live, size, own) && 1 <= k < |list|
    ensures list[k] in size && Has(own, list[k], size[list[k]]) && list[k] !in live
  {
  }

  lemma ListFacts(list: seq<int>, ptr: map<int, int>, size: map<int, int>, base: int, k: nat)
    requires Chain(list, ptr) && Ordered(list, size, base, -1) && k < |list|
    ensures list[k] in ptr && list[k] in size && base <= list[k] && (k > 0 ==> base < list[k])
  {
    if k > 0 {
      Increasing(list, size, base, -1, 0, k);
    }
  }

  lemma Loosened(list: seq<int>, size: map<int, int>, base: int, j: int)
    requires Ordered(list, size, base, -1)
    ensures Ordered(list, size, base, j)
  {
    assert forall i :: 0 <= i < |list| - 1 ==> Below(list, size, -1, i) ==> Below(list, size, j, i);
  }

  lemma UnlinkedOrdered(list: seq<int>, size: map<int, int>, base: int, k: nat)
    requires Ordered(list, size, base, -1) && 1 <= k < |list|
    ensures Ordered(Merged(list, k - 1), size, base, -1)
  {
    var list' := Merged(list, k - 1);
    forall i | 0 <= i < |list'| - 1
      ensures Below(list', size, -1, i)
    {
      assert Below(list, size, -1, if i < k then i else i + 1);
      if i == k - 1 {
        assert Below(list, size, -1, k);
      }
    }
  }

  lemma UnlinkedOwned(list: seq<int>, live: map<int, int>, size: map<int, int>, own: Owner, base: int, k: nat)
    requires Sound(list, live, size, own, base, -1) && 1 <= k < |list| && list[k] in size
    ensures Owned(Merged(list, k - 1), live[list[k] := size[list[k]]], size, own)
  {
    hide Has;
    var p, list', live' := list[k], Merged(list, k - 1), live[list[k] := size[list[k]]];
    forall i | 1 <= i < |list'|
      ensures list'[i] in size && Has(own, list'[i], size[list'[i]]) && list'[i] !in live'
    {
      Distinct(list, size, base, -1, if i < k then i else i + 1, k);
    }
    hide Ordered;
    forall c | c in own
      ensures own[c] in live' || IsFree(list', own[c])
    {
      if own[c] !in live && own[c] != p {
        var o :| 1 <= o < |list| && list[o] == own[c];
        assert list'[if o < k then o else o - 1] == own[c];
      }
    }
  }

  lemma FreeNotLive(list: seq<int>, live: map<int, int>, size: map<int, int>, own: Owner, k: nat)
    requires Owned(list, live, size, own) && 1 <= k < |list|
    ensures list[k] !in live
  {
  }

  /** A whole free block becomes an allocated one. */
  lemma Unlinked(list: seq<int>, live: map<int, int>, ptr: map<int, int>, size: map<int, int>, own: Owner, base: int,
                 k: nat)
    requires Chain(list, ptr) && Sound(list, live, size, own, base, -1) && 1 <= k < |list| && list[k] in size
    ensures list[k] in ptr && list[k] !in live && list[k - 1] in Merged(list, k - 1)
    ensures Chain(Merged(list, k - 1), ptr[list[k - 1] := ptr[list[k]]])
    ensures Sound(Merged(list, k - 1), live[list[k] := size[list[k]]], size, own, base, -1)
  {
    hide Owned, Ordered, Chain, Merged;
    FreeNotLive(list, live, size, own, k);
    Loosened(list, size, base, k - 1);
    ChainMerged(list, ptr, size, base, k - 1);
    MergedAt(list, own, k - 1, list[k], list[k]);
    UnlinkedOrdered(list, size, base, k);
    UnlinkedOwned(list, live, size, own, base, k);
  }

  /** Its header is the first unit of a block. */
  lemma First(own: Owner, b: int, n: int)
    requires Has(own, b, n) && n > 0
    ensures b in own && own[b] == b
  {
  }

  ghost function OwnDivided(own: Owner, b: int, n: nat): (r: Owner)
    ensures r.Keys == own.Keys
  {
    map c: int | c in own :: if b <= c < b + n then b else own[c]
  }

  /** b begins the last n units of the free block p, of m units; the primed maps are what becomes of them. */
  ghost predicate Division(live: map<int, int>, size: map<int, int>, own: Owner, p: int, n: nat,
                           b: int, live': map<int, int>, size': map<int, int>, own': Owner) {
    && p in size && 0 < n < size[p] && b == p + size[p] - n && Has(own, p, size[p]) && p !in live
    && live' == live[b := n] && size' == size[p := size[p] - n][b := n] && own' == OwnDivided(own, b, n)
  }

  lemma DivisionFacts(live: map<int, int>, size: map<int, int>, own: Owner, p: int, n: nat,
                      b: int, live': map<int, int>, size': map<int, int>, own': Owner)
    requires Division(live, size, own, p, n, b, live', size', own')
    ensures b in own && own[b] == p && own'.Keys == own.Keys
    ensures Has(own', b, n) && Has(own', p, size[p] - n)
    ensures forall c :: c in own ==> own'[c] == if b <= c < b + n then b else own[c]
  {
  }

  /** Other blocks keep their units. */
  lemma DividedHas(live: map<int, int>, size: map<int, int>, own: Owner, p: int, n: nat,
                   b: int, live': map<int, int>, size': map<int, int>, own': Owner, x: int, l: int)
    requires Division(live, size, own, p, n, b, live', size', own') && Has(own, x, l) && x != p && l > 0
    ensures x != b && Has(own', x, l)
  {
    First(own, x, l);
    DivisionFacts(live, size, own, p, n, b, live', size', own');
    forall c | x <= c < x + l
      ensures c in own' && own'[c] == x
    {
      assert c in own && own[c] == x;
    }
  }

  lemma DividedOrdered(list: seq<int>, live: map<int, int>, size: map<int, int>, own: Owner, base: int, k: nat, n: nat,
                       b: int, live': map<int, int>, size': map<int, int>, own': Owner)
    requires Ordered(list, size, base, -1) && 1 <= k < |list|
    requires Division(live, size, own, list[k], n, b, live', size', own')
    requires forall i :: 0 <= i < |list| ==> list[i] != b
    ensures Ordered(list, size', base, -1)
  {
    hide Has, OwnDivided;
    forall i | 0 <= i < |list| && i != k
      ensures list[i] != list[k]
    {
      Distinct(list, size, base, -1, i, k);
    }
    forall i | 0 <= i < |list| - 1
      ensures Below(list, size', -1, i)
    {
      assert Below(list, size, -1, i);
    }
  }

  lemma DividedFree(list: seq<int>, live: map<int, int>, size: map<int, int>, own: Owner, base: int, k: nat, n: nat,
                    b: int, live': map<int, int>, size': map<int, int>, own': Owner)
    requires Sound(list, live, size, own, base, -1) && 1 <= k < |list|
    requires Division(live, size, own, list[k], n, b, live', size', own')
    ensures forall i :: 0 <= i < |list| ==> list[i] != b
    ensures forall i :: 1 <= i < |list| ==> list[i] in size' && Has(own', list[i], size'[list[i]])
  {
    hide Has;
    DivisionFacts(live, size, own, list[k], n, b, live', size', own');
    assert base < b;
    forall i | 1 <= i < |list|
      ensures list[i] != b && list[i] in size' && Has(own', list[i], size'[list[i]])
    {
      if i != k {
        Distinct(list, size, base, -1, i, k);
        DividedHas(live, size, own, list[k], n, b, live', size', own', list[i], size[list[i]]);
      }
    }
  }

  lemma DividedLive(list: seq<int>, live: map<int, int>, size: map<int, int>, own: Owner, p: int, n: nat,
                    b: int, live': map<int, int>, size': map<int, int>, own': Owner)
    requires Owned(list, live, size, own) && Division(live, size, own, p, n, b, live', size', own')
    ensures b !in live
    ensures forall x :: x in live' ==> x in size' && size'[x] == live'[x] > 0 && Has(own', x, live'[x])
  {
    hide Has, IsFree;
    DivisionFacts(live, size, own, p, n, b, live', size', own');
    forall x | x in live
      ensures x != b && x != p && Has(own', x, live[x])
    {
      DividedHas(live, size, own, p, n, b, live', size', own', x, live[x]);
    }
  }

  lemma DividedUnits(list: seq<int>, live: map<int, int>, size: map<int, int>, own: Owner, k: nat, n: nat,
                     b: int, live': map<int, int>, size': map<int, int>, own': Owner)
    requires Owned(list, live, size, own) && 1 <= k < |list|
    requires Division(live, size, own, list[k], n, b, live', size', own')
    ensures forall c :: c in own' ==>
          own'[c] in size' && own'[c] <= c < own'[c] + size'[own'[c]] && (own'[c] in live' || IsFree(list, own'[c]))
  {
    hide Has, IsFree, OwnDivided;
    var p := list[k];
    DivisionFacts(live, size, own, p, n, b, live', size', own');
    assert IsFree(list, p);
    forall c | c in own'
      ensures own'[c] in size' && own'[c] <= c < own'[c] + size'[own'[c]] && (own'[c] in live' || IsFree(list, own'[c]))
    {
      assert own[c] in size && own[c] <= c < own[c] + size[own[c]];
      assert own[b] == p && own[c] != b by {
        NotHeader(list, live, size, own, b, c);
      }
    }
  }

  /** A unit that belongs to another block is nobody's header. */
  lemma NotHeader(list: seq<int>, live: map<int, int>, size: map<int, int>, own: Owner, b: int, c: int)
    requires Owned(list, live, size, own) && b in own && own[b] != b && c in own
    ensures own[c] != b
  {
    if own[c] in live {
      First(own, own[c], live[own[c]]);
    } else {
      var i :| 1 <= i < |list| && list[i] == own[c];
      assert Has(own, list[i], size[list[i]]);
      assert own[c] <= c < own[c] + size[own[c]];
      First(own, list[i], size[list[i]]);
    }
  }

  /** The last n units of a free block become an allocated one. */
  lemma Divided(list: seq<int>, live: map<int, int>, size: map<int, int>, own: Owner, base: int, k: nat, n: nat,
                b: int, live': map<int, int>, size': map<int, int>, own': Owner)
    requires Sound(list, live, size, own, base, -1) && 1 <= k < |list|
    requires Division(live, size, own, list[k], n, b, live', size', own')
    ensures b !in live && 0 < b - base && own'.Keys == own.Keys
    ensures Sound(list, live', size', own', base, -1)
  {
    hide Has, IsFree, OwnDivided, Ordered;
    DivisionFacts(live, size, own, list[k], n, b, live', size', own');
    DividedFree(list, live, size, own, base, k, n, b, live', size', own');
    DividedLive(list, live, size, own, list[k], n, b, live', size', own');
    DividedUnits(list, live, size, own, k, n, b, live', size', own');
    DividedOrdered(list, live, size, own, base, k, n, b, live', size', own');
  }

  const NONE := -1

  /** What morecore asks sbrk for, in units. */
  function Request(nu: nat): (n: nat)
    ensures n >= nu && n >= 4096 && (n == nu || n == 4096)
  {
    if nu < 4096 then 4096 else nu
  }

  function Cells(a: int, n: nat): (s: set<int>)
    ensures forall c :: c in s <==> a <= c < a + n
  {
    if n == 0 then {} else Cells(a, n - 1) + {a + n - 1}
  }

  /** sbrk fails, or returns an address above all memory obtained before. */
  ghost predicate SbrkAt(base: int, own: Owner, brk: int) {
    brk == NONE || (base < brk && forall c :: c in own ==> c < brk)
  }

  ghost function OwnNew(own: Owner, b: int, n: nat): (r: Owner)
    ensures r.Keys == own.Keys + Cells(b, n)
  {
    own + map c: int | c in Cells(b, n) :: b
  }

  lemma NewHas(own: Owner, base: int, b: int, n: nat, x: int, l: int)
    requires SbrkAt(base, own, b) && b != NONE && Has(own, x, l) && l > 0
    ensures x != b && Has(OwnNew(own, b, n), x, l)
  {
    First(own, x, l);
  }

  lemma NewUnits(list: seq<int>, live: map<int, int>, size: map<int, int>, own: Owner, base: int, b: int, n: nat)
    requires Owned(list, live, size, own) && SbrkAt(base, own, b) && b != NONE && n > 0
    requires forall i :: 1 <= i < |list| ==> list[i] != b
    ensures var size', own' := size[b := n], OwnNew(own, b, n);
            forall c :: c in own' ==>
                  own'[c] in size' && own'[c] <= c < own'[c] + size'[own'[c]]
                  && (own'[c] in live[b := n] || IsFree(list, own'[c]))
  {
    hide Has;
    var size', own' := size[b := n], OwnNew(own, b, n);
    forall c | c in own'
      ensures own'[c] in size' && own'[c] <= c < own'[c] + size'[own'[c]]
      ensures (own'[c] in live[b := n] || IsFree(list, own'[c]))
    {
      if c in Cells(b, n) {
        assert own'[c] == b;
      } else {
        assert own'[c] == own[c] && own[c] <= c < b;
      }
    }
  }

  lemma NewOwned(list: seq<int>, live: map<int, int>, size: map<int, int>, own: Owner, base: int, b: int, n: nat)
    requires Owned(list, live, size, own) && SbrkAt(base, own, b) && b != NONE && n > 0
    requires forall i :: 1 <= i < |list| ==> list[i] in size && size[list[i]] > 0
    ensures b !in live && (forall i :: 1 <= i < |list| ==> list[i] != b)
    ensures Owned(list, live[b := n], size[b := n], OwnNew(own, b, n))
  {
    assert Has(OwnNew(own, b, n), b, n);
    hide Has, IsFree, OwnNew;
    forall i | 1 <= i < |list|
      ensures list[i] != b && Has(OwnNew(own, b, n), list[i], size[list[i]])
    {
      NewHas(own, base, b, n, list[i], size[list[i]]);
    }
    forall x | x in live
      ensures x != b && Has(OwnNew(own, b, n), x, live[x])
    {
      NewHas(own, base, b, n, x, live[x]);
    }
    NewUnits(list, live, size, own, base, b, n);
  }

  /** Memory from sbrk as an allocated block. */
  lemma NewBlock(list: seq<int>, live: map<int, int>, size: map<int, int>, own: Owner, base: int, b: int, n: nat)
    requires Sound(list, live, size, own, base, -1) && SbrkAt(base, own, b) && b != NONE && n > 0
    ensures b !in live
    ensures Sound(list, live[b := n], size[b := n], OwnNew(own, b, n), base, -1)
  {
    hide Owned, OwnNew;
    NewOwned(list, live, size, own, base, b, n);
    var size' := size[b := n];
    forall i | 0 <= i < |list| - 1
      ensures Below(list, size', -1, i)
    {
      assert Below(list, size, -1, i);
    }
  }

  lemma LinkedAt(list: seq<int>, size: map<int, int>, own: Owner, j: int, b: int)
    requires 0 <= j < |list| && b in size
    ensures var list' := Linked(list, size, j, b);
            |list'| >= j + 2 && list'[j] == list[j] && list'[j + 1] == b && list[j] in list'
    ensures OwnLinked(list, size, own, j, b).Keys == own.Keys
    ensures forall c :: c in OwnLinked(list, size, own, j, b) ==> c in own
  {
    assert Linked(list, size, j, b)[j] == list[j];
  }

  lemma MergedAt(list: seq<int>, own: Owner, j: int, b: int, p: int)
    requires 0 <= j < |list| - 1
    ensures |Merged(list, j)| > j && Merged(list, j)[j] == list[j] && list[j] in Merged(list, j)
    ensures Reown(own, b, p).Keys == own.Keys
    ensures forall c :: c in Reown(own, b, p) ==> c in own
  {
    assert Merged(list, j)[j] == list[j];
  }

  /** What free makes of the list. */
  lemma FreeDone(list: seq<int>, live: map<int, int>, ptr: map<int, int>, size: map<int, int>, own: Owner, base: int,
                 j: int, b: int,
                 ptr': map<int, int>, size': map<int, int>) returns (list': seq<int>, own': Owner, i: nat)
    requires Chain(list, ptr) && Sound(list, live, size, own, base, -1) && b in live && Gap(list, j, b)
    requires b in size && list[j] in ptr && ptr[list[j]] in ptr && list[j] in size && ptr[list[j]] in size
    requires var p, next := list[j], ptr[list[j]];
             var size1 := if b + size[b] == next then size[b := size[b] + size[next]] else size;
             var ptr1 := ptr[b := if b + size[b] == next then ptr[next] else next];
             if p + size1[p] == b then size' == size1[p := size1[p] + size1[b]] && ptr' == ptr1[p := ptr1[b]]
             else size' == size1 && ptr' == ptr1[p := b]
    ensures list[j] in list' && Chain(list', ptr') && Sound(list', live - {b}, size', own', base, -1)
    ensures own'.Keys == own.Keys
    ensures 1 <= i < |list'| && list'[i] in size' && list'[i] <= b && b + live[b] <= list'[i] + size'[list'[i]]
  {
    hide Owned, Ordered, Chain, IsFree, Linked, Merged, Reown, OwnLinked;
    FreeFacts(list, live, size, own, base, b);
    NextOf(list, ptr, size, base, j);
    LinkedOrdered(list, live, size, own, base, j, b);
    LinkedOwned(list, live, size, own, base, j, b);
    ChainLinked(list, ptr, size, base, j, b);
    LinkedAt(list, size, own, j, b);
    var p, next := list[j], ptr[list[j]];
    var list1, size1, own1 := Linked(list, size, j, b), Grown(list, size, j, b), OwnLinked(list, size, own, j, b);
    var ptr1 := ptr[b := if b + size[b] == next then ptr[next] else next];
    assert list1[j] == p && list1[j + 1] == b;
    assert size1 == if b + size[b] == next then size[b := size[b] + size[next]] else size;
    MergeFacts(list1, size1, base, j);
    if p + size1[p] == b {
      MergedSound(list1, live - {b}, size1, own1, base, j);
      ChainMerged(list1, ptr1[p := b], size1, base, j);
      list', own', i := Merged(list1, j), Reown(own1, b, p), j;
      MergedAt(list1, own1, j, b, p);
      assert ptr1[p := b][p := ptr1[b]] == ptr1[p := ptr1[b]];
    } else {
      list', own', i := list1, own1, j + 1;
      Tight(list1, size1, base, j);
    }
  }

  lemma FreeFacts(list: seq<int>, live: map<int, int>, size: map<int, int>, own: Owner, base: int, b: int)
    requires Sound(list, live, size, own, base, -1) && b in live
    ensures b in size && size[b] == live[b] > 0 && base < b && !IsFree(list, b)
    ensures forall i :: 0 <= i < |list| ==> list[i] in size && size[list[i]] >= 0
  {
    assert b in own;
  }

  /** Before the last step of free, with list[j + 1] perhaps touching list[j]. */
  lemma MergeFacts(list: seq<int>, size: map<int, int>, base: int, j: int)
    requires Ordered(list, size, base, j) && 0 <= j < |list| - 1
    ensures list[j] in size && list[j + 1] in size && list[j] < list[j + 1] && size[list[j + 1]] > 0
    ensures list[j] + size[list[j]] == list[j + 1] ==> 1 <= j && size[list[j]] > 0
  {
    assert Below(list, size, j, j);
  }

  lemma Tight(list: seq<int>, size: map<int, int>, base: int, j: int)
    requires Ordered(list, size, base, j) && 0 <= j < |list| - 1 && list[j] + size[list[j]] != list[j + 1]
    ensures Ordered(list, size, base, -1)
  {
    forall i | 0 <= i < |list| - 1
      ensures Below(list, size, -1, i)
    {
      assert Below(list, size, j, i);
    }
  }

  /** A link goes up, except at the end of the list, where it goes back to base. */
  lemma NextOf(list: seq<int>, ptr: map<int, int>, size: map<int, int>, base: int, j: nat)
    requires Chain(list, ptr) && Ordered(list, size, base, -1) && j < |list|
    ensures list[0] == base && list[j] in ptr && ptr[list[j]] in ptr && ptr[list[j]] in list && base <= list[j]
    ensures j + 1 < |list| ==> ptr[list[j]] == list[j + 1] > list[j]
    ensures j + 1 == |list| ==> ptr[list[j]] == base <= list[j]
  {
    if j + 1 < |list| {
      Increasing(list, size, base, -1, j, j + 1);
    }
    if j > 0 {
      Increasing(list, size, base, -1, 0, j);
    }
  }

  /** There is one gap for a block, and it is where the tests of free stop. */
  lemma GapIs(list: seq<int>, size: map<int, int>, base: int, b: int, j: nat, goal: nat)
    requires Ordered(list, size, base, -1) && j < |list| && Gap(list, goal, b) && base < b
    ensures Gap(list, j, b) <==> j == goal
    ensures j < goal ==> list[j + 1] < b
    ensures j > goal ==> list[j] > b
  {
    if j < goal {
      if j + 1 < goal {
        Increasing(list, size, base, -1, j + 1, goal);
      }
    } else if j > goal {
      if goal + 1 < j {
        Increasing(list, size, base, -1, goal + 1, j);
      }
    }
  }
}
