/** Sv39 page tables as kernel/vm.c keeps them, and who uses each physical frame. Addresses are page
    numbers here: frame f is the page at f * PGSIZE, page v the one at virtual address v * PGSIZE. */
module VmSpec {
  import opened Blocks

  const PGSIZE := 4096
  const ENTRIES := 512
  const MAXPAGE := 0x400_0000            // MAXVA / PGSIZE

  type Page = s: seq<Byte> | |s| == PGSIZE witness seq(PGSIZE, _ => 0)

  // ---- page-table entries: frame number times 1024, plus ten flag bits

  predicate V(e: int) { e % 2 == 1 }
  predicate R(e: int) { e / 2 % 2 == 1 }
  predicate W(e: int) { e / 4 % 2 == 1 }
  predicate X(e: int) { e / 8 % 2 == 1 }
  predicate U(e: int) { e / 16 % 2 == 1 }

  function Frame(e: int): int { e / 1024 }
  function Flags(e: int): int { e % 1024 }

  /** PA2PTE(pa) | perm | PTE_V */
  function Entry(f: nat, perm: nat): nat
    requires perm < 1024
  {
    f * 1024 + perm / 2 * 2 + 1
  }

  /** The index into the table of a level. */
  function PX(level: nat, v: int): int
    requires level <= 2
  {
    if level == 2 then v / 0x4_0000 % 512 else if level == 1 then v / 512 % 512 else v % 512
  }

  // ---- the radix tree

  type Tables = map<int, seq<int>>

  const NONE := -1

  /** The frame that entry i of table t refers to. */
  function Next(ts: Tables, t: int, i: int): int {
    if t in ts && 0 <= i < |ts[t]| && V(ts[t][i]) then Frame(ts[t][i]) else NONE
  }

  /** The table of a level on the way to page v. */
  function TableAt(ts: Tables, root: int, v: int, level: nat): int
    requires level <= 2
    decreases 2 - level
  {
    if level == 2 then root else Next(ts, TableAt(ts, root, v, level + 1), PX(level + 1, v))
  }

  /** The flat map: the valid entry of page v, or 0. */
  function Leaf(ts: Tables, root: int, v: int): int {
    var t := TableAt(ts, root, v, 0);
    if t in ts && PX(0, v) < |ts[t]| && V(ts[t][PX(0, v)]) then ts[t][PX(0, v)] else 0
  }

  // ---- what the user sees

  /** The user may read this address ... */
  predicate Readable(ts: Tables, root: int, a: nat) {
    a / PGSIZE < MAXPAGE && Leaf(ts, root, a / PGSIZE) != 0 && U(Leaf(ts, root, a / PGSIZE))
  }

  /** ... or write it ... */
  predicate Writable(ts: Tables, root: int, a: nat) {
    Readable(ts, root, a) && W(Leaf(ts, root, a / PGSIZE))
  }

  /** ... or run what is there. */
  predicate Executable(ts: Tables, root: int, a: nat) {
    Readable(ts, root, a) && X(Leaf(ts, root, a / PGSIZE))
  }

  /** The byte at a user address. */
  function Peek(ts: Tables, mem: map<int, Page>, root: int, a: nat): Byte {
    var f := Frame(Leaf(ts, root, a / PGSIZE));
    if f in mem then mem[f][a % PGSIZE] else 0
  }

  // ---- frames

  /** What a frame is used for: on the free list (at this place), a page-table page (below this entry, or
      a top page), a user page (mapped by this entry), held by the kernel and mapped nowhere, or something
      else, such as a trapframe. */
  datatype Use = Free(pos: int) | Table(up: int, at: int, level: int) | User(table: int, i: int) | Held | Other

  type Uses = map<int, Use>

  function Level(u: Use): int {
    if u.Table? then u.level else -1
  }

  /** Every frame has one use, and the free list is the frames with use Free. */
  ghost predicate Frames(lo: int, hi: int, free: seq<int>, use: Uses) {
    && 0 < lo
    && (forall f :: f in use <==> lo <= f < hi)
    && (forall f :: f in use && use[f].Free? ==> 0 <= use[f].pos < |free| && free[use[f].pos] == f)
    && (forall k :: 0 <= k < |free| ==> free[k] in use && use[free[k]] == Free(k))
  }

  ghost predicate EntryOk(ts: Tables, use: Uses, t: int, i: int)
    requires t in ts && t in use && 0 <= i < |ts[t]|
  {
    var e, l := ts[t][i], Level(use[t]);
    e == 0
    || (&& l > 0 && (l == 2 ==> i < 256) && e > 0 && Flags(e) == 1
        && Frame(e) in use && use[Frame(e)] == Table(t, i, l - 1))
    || (l == 0 && e > 0 && V(e) && (R(e) || W(e) || X(e))
        && (Frame(e) in use ==> use[Frame(e)] == User(t, i) || use[Frame(e)] == Other)
        && (U(e) ==> Frame(e) in use && use[Frame(e)] == User(t, i)))
  }

  /** The table frames form trees: every valid interior entry refers to a table that has that entry as
      its only parent, and every user frame is mapped by exactly one leaf entry. */
  ghost predicate Tree(ts: Tables, use: Uses) {
    && (forall t :: t in ts <==> t in use && use[t].Table?)
    && (forall t :: t in ts ==> t > 0 && |ts[t]| == ENTRIES && 0 <= Level(use[t]) <= 2)
    && (forall t, i :: t in ts && 0 <= i < ENTRIES ==> EntryOk(ts, use, t, i))
    && (forall f :: f in use ==> UseOk(ts, use, f))
  }

  /** An inner table and a user page are what their entry says. */
  ghost predicate UseOk(ts: Tables, use: Uses, f: int)
    requires f in use
  {
    match use[f]
    case Table(t, i, l) => t == NONE || (t in ts && t in use && Level(use[t]) == l + 1 && 0 <= i < |ts[t]|
        && ts[t][i] == f * 1024 + 1)
    case User(t, i) => t in ts && t in use && Level(use[t]) == 0 && 0 <= i < |ts[t]| && ts[t][i] > 0 && V(ts[t][i])
        && Frame(ts[t][i]) == f
    case _ => true
  }

  ghost predicate IsRoot(use: Uses, r: int) {
    r in use && use[r] == Table(NONE, 0, 2)
  }

  predicate IsTop(u: Use) {
    u.Table? && u.up == NONE
  }

  predicate Inner(u: Use) {
    u.Table? && u.up != NONE
  }

  /** No subtree is detached. */
  ghost predicate Whole(use: Uses) {
    forall f :: f in use && IsTop(use[f]) ==> use[f] == Table(NONE, 0, 2)
  }

  /** The tables on the way to a page have the right levels. */
  lemma TableLevel(ts: Tables, use: Uses, root: int, v: int, level: nat)
    requires Tree(ts, use) && IsRoot(use, root) && level <= 2
    ensures var t := TableAt(ts, root, v, level); t == NONE || (t in ts && t in use && Level(use[t]) == level)
    decreases 2 - level
  {
    if level < 2 {
      TableLevel(ts, use, root, v, level + 1);
      var p, i := TableAt(ts, root, v, level + 1), PX(level + 1, v);
      if p != NONE {
        assert EntryOk(ts, use, p, i);
      }
    }
  }

  /** Two walks meet in a table of a level only if they agree on everything above it. */
  lemma WalksMeet(ts: Tables, use: Uses, root: int, v: int, root': int, v': int, level: nat)
    requires Tree(ts, use) && IsRoot(use, root) && IsRoot(use, root') && level <= 2
    requires TableAt(ts, root, v, level) == TableAt(ts, root', v', level) != NONE
    ensures root == root'
    ensures level <= 1 ==> PX(2, v) == PX(2, v')
    ensures level == 0 ==> PX(1, v) == PX(1, v')
    decreases 2 - level
  {
    if level < 2 {
      TableLevel(ts, use, root, v, level + 1);
      TableLevel(ts, use, root', v', level + 1);
      var p, i := TableAt(ts, root, v, level + 1), PX(level + 1, v);
      var p', i' := TableAt(ts, root', v', level + 1), PX(level + 1, v');
      assert EntryOk(ts, use, p, i) && EntryOk(ts, use, p', i');
      WalksMeet(ts, use, root, v, root', v', level + 1);
    }
  }

  /** A page is its three indices. */
  lemma SamePage(v: int, v': int)
    requires 0 <= v < MAXPAGE && 0 <= v' < MAXPAGE
    requires PX(2, v) == PX(2, v') && PX(1, v) == PX(1, v') && PX(0, v) == PX(0, v')
    ensures v == v'
  {
    PageIs(v);
    PageIs(v');
  }

  lemma PageIs(v: int)
    requires 0 <= v < MAXPAGE
    ensures v == PX(2, v) * 0x4_0000 + PX(1, v) * 512 + PX(0, v)
  {
    var q := v / 512;
    assert v == 512 * q + v % 512;
    assert q == 512 * (q / 512) + q % 512;
    assert v / 0x4_0000 == q / 512;
  }

  /** The entry for a table. */
  lemma TableEntryBits(f: int)
    ensures V(f * 1024 + 1) && Frame(f * 1024 + 1) == f && Flags(f * 1024 + 1) == 1
  {
    FlagsOf(f, 1);
  }

  /** The flag bits of an entry are those of its low ten bits. */
  lemma FlagsOf(f: int, p: nat)
    requires p < 1024
    ensures var e := f * 1024 + p;
            && (R(e) <==> R(p)) && (W(e) <==> W(p)) && (X(e) <==> X(p)) && (U(e) <==> U(p)) && (V(e) <==> V(p))
            && Frame(e) == f && Flags(e) == p
  {
    var e := f * 1024 + p;
    assert e / 2 == f * 512 + p / 2;
    assert e / 4 == f * 256 + p / 4;
    assert e / 8 == f * 128 + p / 8;
    assert e / 16 == f * 64 + p / 16;
    EvenPlus(f * 512, p);
    EvenPlus(f * 256, p / 2);
    EvenPlus(f * 128, p / 4);
    EvenPlus(f * 64, p / 8);
    EvenPlus(f * 32, p / 16);
  }

  lemma EvenPlus(a: int, b: int)
    ensures (2 * a + b) % 2 == b % 2
  {
  }

  /** The walk does not change when a table's entry changes below or beside it. */
  lemma WalkKept(ts: Tables, use: Uses, ts': Tables, t: int, root: int, v: int, level: nat)
    requires Tree(ts, use) && IsRoot(use, root) && level <= 2 && t in ts && t in use && level >= Level(use[t])
    requires forall x :: x in ts && x != t ==> x in ts' && ts'[x] == ts[x]
    requires t in ts'
    requires NONE !in ts'
    ensures TableAt(ts', root, v, level) == TableAt(ts, root, v, level)
    decreases 2 - level
  {
    if level < 2 {
      WalkKept(ts, use, ts', t, root, v, level + 1);
      TableLevel(ts, use, root, v, level + 1);
    }
  }

  // ---- changing the tree

  function ZeroTable(): seq<int> {
    seq(ENTRIES, _ => 0)
  }

  /** Every page of every root has the entry it had. */
  ghost predicate SameMaps(ts: Tables, ts': Tables, use: Uses) {
    forall r, v :: IsRoot(use, r) && 0 <= v < MAXPAGE ==> Leaf(ts', r, v) == Leaf(ts, r, v)
  }

  /** Page v of one root has the entry e; every other page of every root has the entry it had. */
  ghost predicate OnePage(ts: Tables, ts': Tables, use: Uses, root: int, v: int, e: int) {
    forall r, w :: IsRoot(use, r) && 0 <= w < MAXPAGE ==>
          Leaf(ts', r, w) == if r == root && w == v then e else Leaf(ts, r, w)
  }

  /** A fresh zeroed table below an empty interior entry. */
  lemma AddTable(ts: Tables, use: Uses, t: int, i: int, n: int)
    requires Tree(ts, use) && t in ts && t in use && Level(use[t]) > 0 && 0 <= i < ENTRIES && ts[t][i] == 0
    requires n in use && use[n] == Held && n > 0 && (Level(use[t]) == 2 ==> i < 256)
    ensures var ts' := ts[t := ts[t][i := n * 1024 + 1]][n := ZeroTable()];
            Tree(ts', use[n := Table(t, i, Level(use[t]) - 1)]) && SameMaps(ts, ts', use)
  {
    var ts' := ts[t := ts[t][i := n * 1024 + 1]][n := ZeroTable()];
    var use' := use[n := Table(t, i, Level(use[t]) - 1)];
    assert n !in ts;
    forall x, j | x in ts' && 0 <= j < ENTRIES
      ensures EntryOk(ts', use', x, j)
    {
      if x != n {
        assert EntryOk(ts, use, x, j);
      }
    }
    forall f | f in use'
      ensures UseOk(ts', use', f)
    {
      assert UseOk(ts, use, f);
    }
    forall r, v | IsRoot(use, r) && 0 <= v < MAXPAGE
      ensures Leaf(ts', r, v) == Leaf(ts, r, v)
    {
      AddTableLeaf(ts, use, t, i, n, r, v);
    }
  }

  lemma AddTableLeaf(ts: Tables, use: Uses, t: int, i: int, n: int, r: int, v: int)
    requires Tree(ts, use) && t in ts && t in use && Level(use[t]) > 0 && 0 <= i < ENTRIES && ts[t][i] == 0
    requires n > 0 && n !in ts && IsRoot(use, r)
    ensures Leaf(ts[t := ts[t][i := n * 1024 + 1]][n := ZeroTable()], r, v) == Leaf(ts, r, v)
  {
    var ts' := ts[t := ts[t][i := n * 1024 + 1]][n := ZeroTable()];
    var l := Level(use[t]);
    TableEntryBits(n);
    assert !V(0);
    hide EntryOk, UseOk, V, Frame, PX;
    forall x, j
      ensures Next(ts', x, j) == if x == t && j == i then n else if x == n then NONE else Next(ts, x, j)
    {
    }
    WalkKept(ts, use, ts', t, r, v, l);
    TableLevel(ts, use, r, v, l);
    TableLevel(ts, use, r, v, l - 1);
    hide Next, Tree;
    var p := TableAt(ts, r, v, l);
    if l == 1 {
      assert TableAt(ts', r, v, 0) == Next(ts', p, PX(1, v));
    } else {
      TableLevel(ts, use, r, v, 0);
      assert TableAt(ts', r, v, 1) == Next(ts', p, PX(2, v));
      assert TableAt(ts', r, v, 0) == Next(ts', TableAt(ts', r, v, 1), PX(1, v));
    }
  }

  /** Writing a leaf entry changes one page. */
  lemma LeafSet(ts: Tables, use: Uses, root: int, v: int, e: int)
    requires Tree(ts, use) && IsRoot(use, root) && 0 <= v < MAXPAGE && (e == 0 || V(e))
    requires TableAt(ts, root, v, 0) != NONE
    ensures TableAt(ts, root, v, 0) in ts
    ensures |ts[TableAt(ts, root, v, 0)]| == ENTRIES
    ensures var t := TableAt(ts, root, v, 0);
            OnePage(ts, ts[t := ts[t][PX(0, v) := e]], use, root, v, e)
  {
    TableLevel(ts, use, root, v, 0);
    var t := TableAt(ts, root, v, 0);
    var ts' := ts[t := ts[t][PX(0, v) := e]];
    forall r, w | IsRoot(use, r) && 0 <= w < MAXPAGE
      ensures Leaf(ts', r, w) == if r == root && w == v then e else Leaf(ts, r, w)
    {
      WalkKept(ts, use, ts', t, r, w, 0);
      if TableAt(ts, r, w, 0) == t && PX(0, w) == PX(0, v) {
        WalksMeet(ts, use, r, w, root, v, 0);
        SamePage(v, w);
      }
    }
  }

  /** A leaf entry comes to own a held frame, or gives up the frame it owned. */
  lemma OwnSet(ts: Tables, use: Uses, t: int, i: int, e: int, f: int, u: Use)
    requires Tree(ts, use) && t in ts && t in use && Level(use[t]) == 0 && 0 <= i < ENTRIES && f in use && f > 0
    requires (use[f] == Held && ts[t][i] == 0) || use[f] == User(t, i)
    requires (u == Held && e == 0)
             || (u == User(t, i) && e > 0 && Frame(e) == f && V(e) && (R(e) || W(e) || X(e)))
    ensures Tree(ts[t := ts[t][i := e]], use[f := u])
  {
    hide R, W, X, U;
    var ts', use' := ts[t := ts[t][i := e]], use[f := u];
    forall x, j | x in ts' && 0 <= j < ENTRIES
      ensures EntryOk(ts', use', x, j)
    {
      assert EntryOk(ts, use, x, j);
    }
    forall g | g in use'
      ensures UseOk(ts', use', g)
    {
      assert UseOk(ts, use, g);
    }
  }

  /** A leaf entry comes to refer to, or no longer refers to, a frame that is not a user page. */
  lemma BorrowSet(ts: Tables, use: Uses, t: int, i: int, e: int)
    requires Tree(ts, use) && t in ts && t in use && Level(use[t]) == 0 && 0 <= i < ENTRIES
    requires Borrowed(use, ts[t][i]) && Borrowed(use, e)
    ensures Tree(ts[t := ts[t][i := e]], use)
  {
    hide R, W, X, U;
    var ts' := ts[t := ts[t][i := e]];
    forall x, j | x in ts' && 0 <= j < ENTRIES
      ensures EntryOk(ts', use, x, j)
    {
      assert EntryOk(ts, use, x, j);
    }
    forall g | g in use
      ensures UseOk(ts', use, g)
    {
      assert UseOk(ts, use, g);
    }
  }

  /** No entry, or one without the user bit to a frame that is not a user page. */
  ghost predicate Borrowed(use: Uses, e: int) {
    e == 0 || (e > 0 && V(e) && !U(e) && (R(e) || W(e) || X(e)) && (Frame(e) in use ==> use[Frame(e)] == Other))
  }

  // ---- what the flat maps say about frames

  lemma PageNumber(a: int, b: int, c: int)
    requires 0 <= a < 256 && 0 <= b < ENTRIES && 0 <= c < ENTRIES
    ensures var v := a * 0x4_0000 + b * 512 + c;
            0 <= v < MAXPAGE && PX(2, v) == a && PX(1, v) == b && PX(0, v) == c
  {
    var v := a * 0x4_0000 + b * 512 + c;
    assert v / 512 == a * 512 + b;
    assert v / 0x4_0000 == a;
  }

  lemma ParentOf(ts: Tables, use: Uses, t: int)
    requires Tree(ts, use) && t in ts && t in use && use[t].Table? && use[t].up != NONE
    ensures var p, i := use[t].up, use[t].at;
            && p in ts && p in use && Level(use[p]) == Level(use[t]) + 1
            && 0 <= i < ENTRIES && (Level(use[p]) == 2 ==> i < 256) && Next(ts, p, i) == t
  {
    hide V, R, W, X, U, Frame, Flags;
    TableEntryBits(t);
    assert UseOk(ts, use, t);
    assert EntryOk(ts, use, use[t].up, use[t].at);
  }

  /** The page whose walk ends at entry i of a level-0 table. */
  lemma PageOf(ts: Tables, use: Uses, t: int, i: int) returns (root: int, v: int)
    requires Tree(ts, use) && Whole(use) && t in ts && t in use && Level(use[t]) == 0 && 0 <= i < ENTRIES
    ensures IsRoot(use, root) && 0 <= v < MAXPAGE && TableAt(ts, root, v, 0) == t && PX(0, v) == i
    ensures Under(use, t, root)
  {
    ParentOf(ts, use, t);
    var p := use[t].up;
    assert use[p].Table? && use[p].up != NONE;
    ParentOf(ts, use, p);
    root := use[p].up;
    assert IsTop(use[root]);
    v := use[p].at * 0x4_0000 + use[t].at * 512 + i;
    PageNumber(use[p].at, use[t].at, i);
    hide PX, Tree, Next;
    assert TableAt(ts, root, v, 2) == root;
    assert TableAt(ts, root, v, 1) == p;
  }

  /** No user page is lost: each is mapped by some page of some root. */
  lemma UserMapped(ts: Tables, use: Uses, f: int) returns (root: int, v: int)
    requires Tree(ts, use) && Whole(use) && f in use && use[f].User?
    ensures IsRoot(use, root) && 0 <= v < MAXPAGE && Leaf(ts, root, v) != 0 && Frame(Leaf(ts, root, v)) == f
    ensures Under(use, use[f].table, root)
  {
    assert UseOk(ts, use, f);
    root, v := PageOf(ts, use, use[f].table, use[f].i);
  }

  /** A valid entry belongs to a user page or refers to a frame outside the pool or in other use. */
  lemma LeafUse(ts: Tables, use: Uses, root: int, v: int)
    requires Tree(ts, use) && IsRoot(use, root) && Leaf(ts, root, v) != 0
    ensures var e, t := Leaf(ts, root, v), TableAt(ts, root, v, 0);
            && e > 0 && V(e) && (R(e) || W(e) || X(e)) && t in ts && PX(0, v) < |ts[t]| && e == ts[t][PX(0, v)]
            && (Frame(e) in use ==> use[Frame(e)] == User(t, PX(0, v)) || use[Frame(e)] == Other)
            && (U(e) ==> Frame(e) in use && use[Frame(e)] == User(t, PX(0, v)))
  {
    TableLevel(ts, use, root, v, 0);
    assert EntryOk(ts, use, TableAt(ts, root, v, 0), PX(0, v));
  }

  /** No user page is mapped twice. */
  lemma MappedOnce(ts: Tables, use: Uses, root: int, v: int, root': int, v': int)
    requires Tree(ts, use) && IsRoot(use, root) && IsRoot(use, root') && 0 <= v < MAXPAGE && 0 <= v' < MAXPAGE
    requires Leaf(ts, root, v) != 0 && Leaf(ts, root', v') != 0
    requires Frame(Leaf(ts, root, v)) == Frame(Leaf(ts, root', v'))
    requires Frame(Leaf(ts, root, v)) in use && use[Frame(Leaf(ts, root, v))].User?
    ensures root == root' && v == v'
  {
    LeafUse(ts, use, root, v);
    LeafUse(ts, use, root', v');
    TableLevel(ts, use, root, v, 0);
    WalksMeet(ts, use, root, v, root', v', 0);
    SamePage(v, v');
  }

  /** The frames that are roots, held, or in other use are the same. */
  ghost predicate SameOwners(use: Uses, use': Uses) {
    && (forall f :: f in use <==> f in use')
    && forall f :: f in use ==>
          && (IsTop(use'[f]) <==> IsTop(use[f])) && (IsTop(use[f]) ==> use'[f] == use[f])
          && (use'[f].Held? <==> use[f].Held?) && (use'[f].Other? <==> use[f].Other?)
  }

  /** With the same flat maps, the same frames are user pages: what left them became free or a table. */
  lemma SameUsers(ts: Tables, use: Uses, ts': Tables, use': Uses, f: int)
    requires Tree(ts, use) && Tree(ts', use') && Whole(use) && SameOwners(use, use') && SameMaps(ts, ts', use)
    requires f in use
    ensures use[f].User? <==> use'[f].User?
  {
    if use[f].User? {
      var r, v := UserMapped(ts, use, f);
      assert Leaf(ts', r, v) == Leaf(ts, r, v);
      LeafUse(ts', use', r, v);
    }
    if use'[f].User? {
      var r, v := UserMapped(ts', use', f);
      assert Leaf(ts', r, v) == Leaf(ts, r, v);
      LeafUse(ts, use, r, v);
    }
  }

  // ---- subtrees

  /** x is in the tree below t. */
  ghost predicate Under(use: Uses, x: int, t: int) {
    || x == t
    || (&& x in use && Inner(use[x])
        && (use[x].up == t || (use[x].up in use && Inner(use[use[x].up]) && use[use[x].up].up == t)))
  }

  /** The entry of t that x is below. */
  ghost function Branch(use: Uses, x: int, t: int): int
    requires Under(use, x, t) && x != t
  {
    if use[x].up == t then use[x].at else use[use[x].up].at
  }

  /** Cutting off the subtree at an entry. */
  lemma Detach(ts: Tables, use: Uses, t: int, i: int)
    requires Tree(ts, use) && t in ts && t in use && 0 <= i < ENTRIES && Level(use[t]) > 0 && ts[t][i] != 0
    ensures var c := Frame(ts[t][i]);
            && c in use && use[c] == Table(t, i, Level(use[t]) - 1) && c != t
            && Tree(ts[t := ts[t][i := 0]], use[c := Table(NONE, 0, Level(use[t]) - 1)])
  {
    hide R, W, X, U;
    assert EntryOk(ts, use, t, i);
    var c := Frame(ts[t][i]);
    var ts', use' := ts[t := ts[t][i := 0]], use[c := Table(NONE, 0, Level(use[t]) - 1)];
    forall x, j | x in ts' && 0 <= j < ENTRIES
      ensures EntryOk(ts', use', x, j)
    {
      assert EntryOk(ts, use, x, j);
    }
    forall g | g in use'
      ensures UseOk(ts', use', g)
    {
      assert UseOk(ts, use, g);
    }
  }

  /** Dropping a top table that has no entries left. */
  lemma Drop(ts: Tables, use: Uses, t: int)
    requires Tree(ts, use) && t in ts && t in use && IsTop(use[t]) && forall j :: 0 <= j < ENTRIES ==> ts[t][j] == 0
    ensures Tree(ts - {t}, use[t := Held])
  {
    hide R, W, X, U;
    var ts', use' := ts - {t}, use[t := Held];
    forall x, j | x in ts' && 0 <= j < ENTRIES
      ensures EntryOk(ts', use', x, j)
    {
      assert EntryOk(ts, use, x, j);
    }
    forall g | g in use'
      ensures UseOk(ts', use', g)
    {
      assert UseOk(ts, use, g);
    }
  }

  /** Table x is a lowest one behind the first k entries of t. */
  ghost predicate BelowFirst(ts: Tables, use: Uses, t: int, k: int, x: int) {
    x in ts && x in use && x != t && Under(use, x, t) && Branch(use, x, t) < k && Level(use[x]) == 0
  }

  /** There are no leaves below t behind its first k entries. */
  ghost predicate NoLeaves(ts: Tables, use: Uses, t: int, k: int) {
    && (forall x, j :: BelowFirst(ts, use, t, k, x) && 0 <= j < |ts[x]| ==> ts[x][j] == 0)
    && (t in ts && t in use && Level(use[t]) == 0 ==> forall j :: 0 <= j < k && j < |ts[t]| ==> ts[t][j] == 0)
  }

  /** The tables behind the first k entries of t are freed and those entries cleared; nothing else has
      changed. */
  ghost predicate Pruned(ts: Tables, use: Uses, ts': Tables, use': Uses, t: int, k: int) {
    && t in ts && t in ts' && t in use && t in use' && use'[t] == use[t] && |ts'[t]| == |ts[t]| == ENTRIES
    && (forall j :: 0 <= j < ENTRIES ==> ts'[t][j] == if j < k then 0 else ts[t][j])
    && (forall x :: x in use <==> x in use')
    && (forall x :: x in use && x != t && Cut(use, x, t, k) ==> use'[x].Free? && x !in ts')
    && (forall x :: x in use && x != t && !Cut(use, x, t, k) ==>
          use'[x] == use[x] && (x in ts <==> x in ts') && (x in ts ==> ts'[x] == ts[x]))
  }

  ghost predicate Cut(use: Uses, x: int, t: int, k: int)
    requires x != t
  {
    Under(use, x, t) && Branch(use, x, t) < k
  }

  /** The whole tree of t is freed, and nothing else has changed. */
  ghost predicate Felled(ts: Tables, use: Uses, ts': Tables, use': Uses, t: int) {
    && (forall x :: x in use <==> x in use')
    && (forall x :: x in use && Under(use, x, t) ==> use'[x].Free? && x !in ts')
    && (forall x :: x in use && !Under(use, x, t) ==>
          use'[x] == use[x] && (x in ts <==> x in ts') && (x in ts ==> ts'[x] == ts[x]))
  }

  /** Nothing hangs from an empty entry. */
  lemma NothingThere(ts: Tables, use: Uses, t: int, i: int, x: int)
    requires Tree(ts, use) && t in ts && t in use && 0 <= i < ENTRIES && x in use && x != t && Under(use, x, t)
    requires Branch(use, x, t) == i
    ensures ts[t][i] != 0 && Level(use[t]) > 0
  {
    assert UseOk(ts, use, x);
    if use[x].up != t {
      assert UseOk(ts, use, use[x].up);
    }
  }

  lemma BranchRange(ts: Tables, use: Uses, t: int, x: int)
    requires Tree(ts, use) && x in use && x != t && Under(use, x, t)
    ensures 0 <= Branch(use, x, t) < ENTRIES && x in ts && 0 <= Level(use[x]) < Level(use[t]) <= 2 && t in ts
    ensures t in use
  {
    assert UseOk(ts, use, x);
    if use[x].up != t {
      assert UseOk(ts, use, use[x].up);
    }
  }

  /** An empty entry has nothing to prune. */
  lemma PruneEmpty(ts0: Tables, use0: Uses, ts: Tables, use: Uses, t: int, i: int)
    requires Tree(ts0, use0) && Pruned(ts0, use0, ts, use, t, i) && 0 <= i < ENTRIES && ts0[t][i] == 0
    ensures Pruned(ts0, use0, ts, use, t, i + 1)
    ensures NoLeaves(ts0, use0, t, i) ==> NoLeaves(ts0, use0, t, i + 1)
  {
    hide Tree, Under, Branch;
    forall x | x in use0 && x != t
      ensures Cut(use0, x, t, i + 1) <==> Cut(use0, x, t, i)
    {
      if Under(use0, x, t) && Branch(use0, x, t) == i {
        NothingThere(ts0, use0, t, i, x);
      }
    }
  }

  /** After cutting off c, the tree below c is what hung from its entry. */
  lemma UnderChild(ts0: Tables, use0: Uses, ts: Tables, use: Uses, t: int, i: int, x: int)
    requires Tree(ts0, use0) && Pruned(ts0, use0, ts, use, t, i) && 0 <= i < ENTRIES && ts0[t][i] != 0
    requires Level(use0[t]) > 0
    requires x in use0 && x != t
    ensures var c := Frame(ts0[t][i]);
            Under(use[c := Table(NONE, 0, Level(use0[t]) - 1)], x, c) <==> Under(use0, x, t) && Branch(use0, x, t) == i
  {
    var c := Frame(ts0[t][i]);
    var use1 := use[c := Table(NONE, 0, Level(use0[t]) - 1)];
    assert EntryOk(ts0, use0, t, i);
    assert c in use0 && use0[c] == Table(t, i, Level(use0[t]) - 1);
    if Under(use0, x, t) && Branch(use0, x, t) == i {
      assert UseOk(ts0, use0, x);
      if use0[x].up != t {
        assert UseOk(ts0, use0, use0[x].up);
        assert use0[x].up == c;
        assert !Cut(use0, x, t, i);
      }
    }
    if Under(use1, x, c) && x != c {
      BelowChild(ts0, use0, ts, use, t, i, x);
    }
  }

  lemma BelowChild(ts0: Tables, use0: Uses, ts: Tables, use: Uses, t: int, i: int, x: int)
    requires Tree(ts0, use0) && Pruned(ts0, use0, ts, use, t, i) && 0 <= i < ENTRIES && ts0[t][i] != 0
    requires Level(use0[t]) > 0
    requires x in use0 && x != t
    requires var c := Frame(ts0[t][i]);
             c in use0 && use0[c] == Table(t, i, Level(use0[t]) - 1) && x != c
             && Under(use[c := Table(NONE, 0, Level(use0[t]) - 1)], x, c)
    ensures Under(use0, x, t) && Branch(use0, x, t) == i
  {
    var c := Frame(ts0[t][i]);
    var use1 := use[c := Table(NONE, 0, Level(use0[t]) - 1)];
    assert use0[x] == use1[x];
    assert UseOk(ts0, use0, x);
  }

  /** Felling the subtree at an entry prunes one entry more. */
  lemma PruneChild(ts0: Tables, use0: Uses, ts: Tables, use: Uses, t: int, i: int, ts2: Tables, use2: Uses)
    requires Tree(ts0, use0) && Pruned(ts0, use0, ts, use, t, i) && 0 <= i < ENTRIES && ts0[t][i] != 0
    requires Level(use0[t]) > 0
    requires var c := Frame(ts0[t][i]);
             c in use0 && c != t && use0[c] == Table(t, i, Level(use0[t]) - 1)
             && Felled(ts[t := ts[t][i := 0]], use[c := Table(NONE, 0, Level(use0[t]) - 1)], ts2, use2, c)
    requires IsTop(use0[t])
    ensures Pruned(ts0, use0, ts2, use2, t, i + 1)
  {
    var c := Frame(ts0[t][i]);
    var ts1, use1 := ts[t := ts[t][i := 0]], use[c := Table(NONE, 0, Level(use0[t]) - 1)];
    assert !Under(use1, t, c);
    hide Tree, Branch, Under, Frame;
    forall x | x in use0 && x != t
      ensures Cut(use0, x, t, i + 1) <==> Cut(use0, x, t, i) || Under(use1, x, c)
      ensures x != c && !Cut(use0, x, t, i) ==>
            use1[x] == use0[x] && (x in ts1 <==> x in ts0) && (x in ts0 ==> ts1[x] == ts0[x])
    {
      UnderChild(ts0, use0, ts, use, t, i, x);
    }
    assert Under(use1, c, c) by {
      UnderSelf(use1, c);
    }
  }

  lemma UnderSelf(use: Uses, c: int)
    ensures Under(use, c, c)
  {
  }

  /** ... and its leaves are those of one entry more. */
  lemma LeavesChild(ts0: Tables, use0: Uses, ts: Tables, use: Uses, t: int, i: int)
    requires Tree(ts0, use0) && Pruned(ts0, use0, ts, use, t, i) && 0 <= i < ENTRIES && ts0[t][i] != 0
    requires Level(use0[t]) > 0
    requires IsTop(use0[t]) && NoLeaves(ts0, use0, t, i)
    requires var c := Frame(ts0[t][i]);
             c in use0 && c != t && use0[c] == Table(t, i, Level(use0[t]) - 1)
             && Tree(ts[t := ts[t][i := 0]], use[c := Table(NONE, 0, Level(use0[t]) - 1)])
    ensures var c := Frame(ts0[t][i]);
            NoLeaves(ts[t := ts[t][i := 0]], use[c := Table(NONE, 0, Level(use0[t]) - 1)], c, ENTRIES) <==>
              NoLeaves(ts0, use0, t, i + 1)
  {
    var c := Frame(ts0[t][i]);
    var ts1, use1 := ts[t := ts[t][i := 0]], use[c := Table(NONE, 0, Level(use0[t]) - 1)];
    assert Under(use0, c, t) && Branch(use0, c, t) == i;
    assert !Under(use1, t, c) && !Cut(use0, c, t, i);
    forall x | x in use0 && x != t
      ensures Under(use1, x, c) <==> Under(use0, x, t) && Branch(use0, x, t) == i
      ensures Under(use1, x, c) ==>
            (x in ts1 <==> x in ts0) && (x in ts0 ==> ts1[x] == ts0[x]) && Level(use1[x]) == Level(use0[x])
      ensures Under(use1, x, c) && x != c ==> Branch(use1, x, c) < ENTRIES
    {
      UnderChild(ts0, use0, ts, use, t, i, x);
      if Under(use1, x, c) && x != c {
        BranchRange(ts1, use1, c, x);
      }
    }
    hide Under, Branch, Frame;
    LeavesSame(ts0, use0, ts1, use1, t, c, i);
  }

  lemma LeavesSame(ts0: Tables, use0: Uses, ts1: Tables, use1: Uses, t: int, c: int, i: int)
    requires Tree(ts0, use0) && Tree(ts1, use1) && (forall x :: x in use0 <==> x in use1) && t in use0 && c in use0
    requires c != t && t in ts0
    requires NoLeaves(ts0, use0, t, i) && Level(use0[t]) > 0 && !Under(use1, t, c)
    requires forall x :: x in use0 && x != t ==> (Under(use1, x, c) <==> Under(use0, x, t) && Branch(use0, x, t) == i)
    requires forall x :: x in use0 && x != t && Under(use1, x, c) ==>
               (x in ts1 <==> x in ts0) && (x in ts0 ==> ts1[x] == ts0[x]) && Level(use1[x]) == Level(use0[x])
    requires forall x :: x in use0 && x != t && Under(use1, x, c) && x != c ==> Branch(use1, x, c) < ENTRIES
    ensures NoLeaves(ts1, use1, c, ENTRIES) <==> NoLeaves(ts0, use0, t, i + 1)
  {
    hide Branch;
    assert Under(use1, c, c);
    hide Under;
    if NoLeaves(ts1, use1, c, ENTRIES) {
      forall x, j | x in ts0 && x in use0 && x != t && Under(use0, x, t) && Branch(use0, x, t) < i + 1
      && Level(use0[x]) == 0 && 0 <= j < |ts0[x]|
        ensures ts0[x][j] == 0
      {
        if Branch(use0, x, t) == i {
          assert Under(use1, x, c) && ts1[x] == ts0[x];
          assert ts1[x][j] == 0;
        }
      }
    }
    if NoLeaves(ts0, use0, t, i + 1) {
      forall x, j | x in ts1 && x in use1 && Under(use1, x, c) && Level(use1[x]) == 0 && 0 <= j < |ts1[x]|
        ensures ts1[x][j] == 0
      {
        assert x != t && Branch(use0, x, t) == i;
        assert ts0[x][j] == 0;
      }
    }
  }

  /** A table is below one root only. */
  lemma OneRoot(use: Uses, t: int, r: int, r': int)
    requires IsRoot(use, r) && IsRoot(use, r') && Under(use, t, r) && Under(use, t, r')
    ensures r == r'
  {
  }

  /** The tables of a walk are below its root. */
  lemma WalkUnder(ts: Tables, use: Uses, root: int, v: int, level: nat)
    requires Tree(ts, use) && IsRoot(use, root) && level <= 2 && TableAt(ts, root, v, level) != NONE
    ensures TableAt(ts, root, v, level) in use && Under(use, TableAt(ts, root, v, level), root)
    ensures level == 1 ==> use[TableAt(ts, root, v, level)].up == root
    decreases 2 - level
  {
    if level < 2 {
      TableLevel(ts, use, root, v, level + 1);
      var p, i := TableAt(ts, root, v, level + 1), PX(level + 1, v);
      WalkUnder(ts, use, root, v, level + 1);
      assert EntryOk(ts, use, p, i);
    }
  }

  /** Felling one tree leaves the walks in the others. */
  lemma FelledWalk(ts: Tables, use: Uses, ts': Tables, use': Uses, root: int, r: int, v: int, level: nat)
    requires Tree(ts, use) && Felled(ts, use, ts', use', root) && IsRoot(use, root) && IsRoot(use, r) && r != root
    requires level <= 2
    requires NONE !in ts' && forall x :: x in ts' ==> x in use
    ensures TableAt(ts', r, v, level) == TableAt(ts, r, v, level)
    decreases 2 - level
  {
    if level < 2 {
      FelledWalk(ts, use, ts', use', root, r, v, level + 1);
      var p := TableAt(ts, r, v, level + 1);
      if p != NONE {
        WalkUnder(ts, use, r, v, level + 1);
        if Under(use, p, root) {
          OneRoot(use, p, r, root);
        }
      } else {
        assert p !in ts;
      }
    }
  }

  lemma FelledLeaf(ts: Tables, use: Uses, ts': Tables, use': Uses, root: int, r: int, v: int)
    requires Tree(ts, use) && Tree(ts', use') && Felled(ts, use, ts', use', root) && IsRoot(use, root)
    requires IsRoot(use, r) && r != root
    ensures Leaf(ts', r, v) == Leaf(ts, r, v)
  {
    FelledWalk(ts, use, ts', use', root, r, v, 0);
    var t := TableAt(ts, r, v, 0);
    if t != NONE {
      WalkUnder(ts, use, r, v, 0);
      if Under(use, t, root) {
        OneRoot(use, t, r, root);
      }
    } else {
      assert t !in ts && t !in ts';
    }
  }

  /** A new root: the pages of all other roots are as before, its own are all unmapped. */
  lemma NewRoot(ts: Tables, use: Uses, n: int)
    requires Tree(ts, use) && n in use && use[n] == Held && n > 0
    ensures var ts', use' := ts[n := ZeroTable()], use[n := Table(NONE, 0, 2)];
            && Tree(ts', use') && SameMaps(ts, ts', use) && forall v :: Leaf(ts', n, v) == 0
  {
    var ts', use' := ts[n := ZeroTable()], use[n := Table(NONE, 0, 2)];
    assert n !in ts;
    forall x, j | x in ts' && 0 <= j < ENTRIES
      ensures EntryOk(ts', use', x, j)
    {
      if x != n {
        assert EntryOk(ts, use, x, j);
      }
    }
    forall g | g in use'
      ensures UseOk(ts', use', g)
    {
      assert UseOk(ts, use, g);
    }
    hide R, W, X, U, EntryOk, UseOk, V;
    forall r, v | IsRoot(use, r) && 0 <= v < MAXPAGE
      ensures Leaf(ts', r, v) == Leaf(ts, r, v)
    {
      TableLevel(ts, use, r, v, 1);
      TableLevel(ts, use, r, v, 0);
      assert TableAt(ts', r, v, 2) == r;
      assert TableAt(ts', r, v, 1) == TableAt(ts, r, v, 1);
    }
    forall v
      ensures Leaf(ts', n, v) == 0
    {
      NoEntries(ts', n, v);
    }
  }

  lemma NoEntries(ts: Tables, root: int, v: int)
    requires root in ts && ts[root] == ZeroTable() && NONE !in ts
    ensures Leaf(ts, root, v) == 0
  {
    assert TableAt(ts, root, v, 2) == root;
    assert TableAt(ts, root, v, 1) == NONE;
    assert TableAt(ts, root, v, 0) == NONE;
  }

  // ---- what a page table owns

  /** The frame is a page-table page or a user page of this root. */
  ghost predicate Belongs(use: Uses, root: int, f: int)
    requires f in use
  {
    Under(use, f, root) || (use[f].User? && Under(use, use[f].table, root))
  }

  /** Every page of the root from n on is unmapped. */
  ghost predicate Bare(ts: Tables, root: int, n: int) {
    forall v :: n <= v < MAXPAGE ==> Leaf(ts, root, v) == 0
  }

  /** A root with no page mapped has no leaves. */
  lemma BareNoLeaves(ts: Tables, use: Uses, root: int)
    requires Tree(ts, use) && Whole(use) && IsRoot(use, root) && Bare(ts, root, 0)
    ensures NoLeaves(ts, use, root, ENTRIES)
  {
    forall x, j | x in ts && x in use && x != root && Under(use, x, root) && Level(use[x]) == 0 && 0 <= j < |ts[x]|
      ensures ts[x][j] == 0
    {
      var r, v := PageOf(ts, use, x, j);
      OneRoot(use, x, r, root);
      assert EntryOk(ts, use, x, j);
      assert Leaf(ts, root, v) == 0;
    }
  }
}
