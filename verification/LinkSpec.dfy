/**
 * Link counts (kernel/sysfile.c, kernel/fs.c): what the count in an inode has to
 * do with the directory entries that name it, and which changes keep it so.
 *
 * A directory is the list of its entries.  `pending` counts, for each inode, the
 * link calls that have raised its count and not yet written or given up the
 * entry; it is 0 between calls.
 */
module LinkSpec {
  import opened Blocks
  import opened Common
  import opened FsLayout

  const SHRT_MAX := 32767
  const DIRMAX := MAXFILE * BSIZE / 16  // entries in the largest directory

  datatype Entry = Entry(inum: int, name: string)
  datatype Node = Node(kind: int, nlink: int, entries: seq<Entry>)

  // A count is a 16-bit signed integer.
  function Short(x: int): int { (x + 32768) % 65536 - 32768 }

  // ---------- who names whom

  // A directory some name still leads to.
  predicate Linked(ns: seq<Node>, d: int) { 0 <= d < |ns| && ns[d].kind == T_DIR && ns[d].nlink > 0 }

  predicate Slot(ns: seq<Node>, d: int, k: int) { Linked(ns, d) && 0 <= k < |ns[d].entries| }

  // Slot `k` of the linked directory `d` names `i`; "." does not count.
  predicate Named(ns: seq<Node>, d: int, k: int, i: int) {
    Slot(ns, d, k) && ns[d].entries[k].inum == i && ns[d].entries[k].name != "."
  }

  ghost function Names(ns: seq<Node>, i: int): set<(int, int)> {
    set d, k | 0 <= d < |ns| && 0 <= k < |ns[d].entries| && Named(ns, d, k, i) :: (d, k)
  }

  // ---------- the invariant

  ghost predicate Counted(ns: seq<Node>, pending: seq<int>, i: int) {
    && 0 <= i < |ns| == |pending|
    && 0 <= pending[i]
    && ns[i].nlink == |Names(ns, i)| + pending[i]
    && ns[i].nlink <= SHRT_MAX
    && (ns[i].kind == 0 ==> ns[i].nlink == 0)
    && (ns[i].kind == T_DIR ==> pending[i] == 0)
  }

  predicate Dot(name: string) { name == "." || name == ".." }

  function Parent(ns: seq<Node>, d: int): int {
    if 0 <= d < |ns| && |ns[d].entries| >= 2 then ns[d].entries[1].inum else 0
  }

  // Slot `k` of the linked directory `q`, after its dots, names `d`.
  predicate Hangs(ns: seq<Node>, d: int, q: int, k: int) {
    Slot(ns, q, k) && k >= 2 && ns[q].entries[k].inum == d
  }

  // Where a linked directory hangs in its parent, and how far below the root.
  datatype Place = Place(slot: int, depth: int)

  // A linked directory starts with itself and its parent, and hangs in its parent at `place`.
  predicate DirOk(ns: seq<Node>, place: seq<Place>, d: int)
    requires |place| == |ns|
  {
    Linked(ns, d) ==>
      && |ns[d].entries| >= 2
      && ns[d].entries[0] == Entry(d, ".")
      && ns[d].entries[1].name == ".."
      && Linked(ns, Parent(ns, d))
      && 0 <= place[d].depth
      && if d == ROOTINO then Parent(ns, d) == d
         else Hangs(ns, d, Parent(ns, d), place[d].slot) && place[Parent(ns, d)].depth < place[d].depth
  }

  // Its other slots name inodes, and a linked directory only where that hangs.
  predicate SlotOk(ns: seq<Node>, place: seq<Place>, q: int, k: int)
    requires |place| == |ns|
  {
    Slot(ns, q, k) && k >= 2 && ns[q].entries[k].inum != 0 ==>
      var i := ns[q].entries[k].inum;
      && 0 < i < |ns|
      && !Dot(ns[q].entries[k].name)
      && (Linked(ns, i) ==> i != ROOTINO && Parent(ns, i) == q && place[i].slot == k)
  }

  // Two slots of a directory never hold the same name.
  predicate Apart(es: seq<Entry>) {
    forall j, k :: 0 <= j < k < |es| && es[j].inum != 0 && es[k].inum != 0 ==> es[j].name != es[k].name
  }

  // A directory that no name leads to has no names left but its dots.
  predicate Bare(es: seq<Entry>) { forall k :: 0 <= k < |es| && es[k].inum != 0 ==> Dot(es[k].name) }

  predicate Ranged(es: seq<Entry>, m: int) { forall k :: 0 <= k < |es| ==> 0 <= es[k].inum < m }

  predicate NodeOk(n: Node, m: int) {
    n.kind == T_DIR ==>
      |n.entries| <= DIRMAX && Apart(n.entries) && Ranged(n.entries, m) && (n.nlink <= 0 ==> Bare(n.entries))
  }

  // The linked directories form a tree.
  ghost predicate Tree(ns: seq<Node>, place: seq<Place>) {
    && |place| == |ns|
    && Linked(ns, ROOTINO)
    && ns[0].kind == 0
    && (forall d :: 0 <= d < |ns| ==> NodeOk(ns[d], |ns|))
    && (forall d :: DirOk(ns, place, d))
    && (forall q, k :: SlotOk(ns, place, q, k))
  }

  ghost predicate Counts(ns: seq<Node>, pending: seq<int>) {
    |pending| == |ns| && forall i :: 0 < i < |ns| ==> Counted(ns, pending, i)
  }

  // ---------- counting names

  lemma NamesSame(a: seq<Node>, b: seq<Node>, i: int)
    requires forall d, k :: Named(b, d, k, i) <==> Named(a, d, k, i)
    ensures Names(b, i) == Names(a, i)
  {
    forall p | p in Names(a, i) ensures p in Names(b, i) {
      assert Named(b, p.0, p.1, i);
    }
    forall p | p in Names(b, i) ensures p in Names(a, i) {
      assert Named(a, p.0, p.1, i);
    }
  }

  lemma NamesMore(a: seq<Node>, b: seq<Node>, i: int, d0: int, k0: int)
    requires !Named(a, d0, k0, i)
    requires forall d, k :: Named(b, d, k, i) <==> Named(a, d, k, i) || (d == d0 && k == k0)
    ensures |Names(b, i)| == |Names(a, i)| + 1
  {
    forall p | p in Names(b, i) ensures p in Names(a, i) + {(d0, k0)} {
      assert Named(b, p.0, p.1, i);
    }
    forall p | p in Names(a, i) ensures p in Names(b, i) {
      assert Named(a, p.0, p.1, i) && Named(b, p.0, p.1, i);
    }
    assert Named(b, d0, k0, i);
    assert (d0, k0) in Names(b, i) && (d0, k0) !in Names(a, i);
    assert Names(b, i) == Names(a, i) + {(d0, k0)};
  }

  // ---------- the changes

  function PutAt(es: seq<Entry>, k: int, e: Entry): (r: seq<Entry>)
    requires 0 <= k <= |es|
    ensures |r| == (if k == |es| then k + 1 else |es|) && r[k] == e
    ensures forall j :: 0 <= j < |es| && j != k ==> r[j] == es[j]
  {
    if k == |es| then es + [e] else es[k := e]
  }

  function SetEntry(ns: seq<Node>, d: int, k: int, e: Entry): seq<Node>
    requires 0 <= d < |ns| && 0 <= k <= |ns[d].entries|
  {
    ns[d := ns[d].(entries := PutAt(ns[d].entries, k, e))]
  }

  function AddLinks(ns: seq<Node>, i: int, n: int): seq<Node>
    requires 0 <= i < |ns|
  {
    ns[i := ns[i].(nlink := Short(ns[i].nlink + n))]
  }

  // ---------- a name for a file

  predicate FreeSlot(n: Node, k: int) {
    0 <= k <= |n.entries| && k < DIRMAX && (k < |n.entries| ==> n.entries[k].inum == 0)
  }

  predicate Unused(es: seq<Entry>, name: string) { forall k :: 0 <= k < |es| && es[k].inum != 0 ==> es[k].name != name }

  predicate File(ns: seq<Node>, i: int) { 0 < i < |ns| && ns[i].kind != 0 && ns[i].kind != T_DIR }

  lemma Unfilled(a: seq<Node>, place: seq<Place>, dp: int, k: int)
    requires |place| == |a| && Linked(a, dp) && DirOk(a, place, dp) && FreeSlot(a[dp], k) && !Linked(a, 0)
    ensures k >= 2
  {
  }

  lemma NameNode(n: Node, m: int, k: int, e: Entry)
    requires NodeOk(n, m) && 0 <= e.inum < m && n.nlink > 0 && FreeSlot(n, k) && Unused(n.entries, e.name)
    ensures NodeOk(n.(entries := PutAt(n.entries, k, e)), m)
  {
  }

  lemma NameDir(a: seq<Node>, place: seq<Place>, dp: int, k: int, e: Entry, d: int)
    requires |place| == |a| && Linked(a, dp) && k >= 2 && FreeSlot(a[dp], k) && DirOk(a, place, d) && !Linked(a, 0)
    ensures DirOk(SetEntry(a, dp, k, e), place, d)
  {
  }

  lemma NameSlot(a: seq<Node>, place: seq<Place>, dp: int, k: int, e: Entry, q: int, j: int)
    requires |place| == |a| && Linked(a, dp) && k >= 2 && FreeSlot(a[dp], k) && SlotOk(a, place, q, j)
    requires File(a, e.inum) && !Dot(e.name)
    ensures SlotOk(SetEntry(a, dp, k, e), place, q, j)
  {
  }

  lemma NameTree(a: seq<Node>, place: seq<Place>, dp: int, k: int, e: Entry)
    requires Tree(a, place) && Linked(a, dp) && FreeSlot(a[dp], k)
    requires File(a, e.inum) && !Dot(e.name) && Unused(a[dp].entries, e.name)
    ensures Tree(SetEntry(a, dp, k, e), place)
  {
    hide DirOk, SlotOk, NodeOk;
    var b := SetEntry(a, dp, k, e);
    Unfilled(a, place, dp, k);
    NameNode(a[dp], |a|, k, e);
    forall d ensures DirOk(b, place, d) {
      NameDir(a, place, dp, k, e, d);
    }
    forall q, j ensures SlotOk(b, place, q, j) {
      NameSlot(a, place, dp, k, e, q, j);
    }
  }

  lemma NameNamed(a: seq<Node>, dp: int, k: int, e: Entry, i: int, d: int, j: int)
    requires 0 <= dp < |a| && FreeSlot(a[dp], k) && e.name != "." && i != 0
    ensures Named(SetEntry(a, dp, k, e), d, j, i) <==>
          Named(a, d, j, i) || (Linked(a, dp) && i == e.inum && d == dp && j == k)
  {
  }

  /** Writing a name that a link call has announced: right if and only if the directory is linked. */
  lemma NameCounts(a: seq<Node>, pa: seq<int>, dp: int, k: int, e: Entry)
    requires Counts(a, pa) && 0 <= dp < |a| && FreeSlot(a[dp], k)
    requires File(a, e.inum) && e.name != "." && pa[e.inum] > 0
    ensures Counts(SetEntry(a, dp, k, e), pa[e.inum := pa[e.inum] - 1]) <==> Linked(a, dp)
  {
    hide Named, Linked;
    var b, pb := SetEntry(a, dp, k, e), pa[e.inum := pa[e.inum] - 1];
    forall i, d, j | i != 0 ensures Named(b, d, j, i) <==>
          Named(a, d, j, i) || (Linked(a, dp) && i == e.inum && d == dp && j == k) {
      NameNamed(a, dp, k, e, i, d, j);
    }
    forall i | 0 < i < |b| ensures Counted(b, pb, i) <==> i != e.inum || Linked(a, dp) {
      assert Counted(a, pa, i);
      if i == e.inum && Linked(a, dp) {
        FreeNotNamed(a, dp, k, i);
        NamesMore(a, b, i, dp, k);
      } else {
        NamesSame(a, b, i);
      }
    }
    assert Counts(b, pb) ==> Counted(b, pb, e.inum);
  }

  lemma FreeNotNamed(a: seq<Node>, dp: int, k: int, i: int)
    requires 0 <= dp < |a| && FreeSlot(a[dp], k) && i != 0
    ensures !Named(a, dp, k, i)
  {
  }

  // ---------- changes away from the linked directories

  lemma SideTree(a: seq<Node>, place: seq<Place>, i: int, n: Node)
    requires Tree(a, place) && 0 < i < |a| && !Linked(a, i) && !(n.kind == T_DIR && n.nlink > 0) && NodeOk(n, |a|)
    ensures Tree(a[i := n], place)
  {
    hide SlotOk, NodeOk, DirOk;
    var b := a[i := n];
    forall d ensures DirOk(b, place, d) {
      SideDir(a, place, i, n, d);
    }
    forall q, j ensures SlotOk(b, place, q, j) {
      SideSlot(a, place, i, n, q, j);
    }
  }

  lemma SideDir(a: seq<Node>, place: seq<Place>, i: int, n: Node, d: int)
    requires |place| == |a| && 0 < i < |a| && !Linked(a, i) && !(n.kind == T_DIR && n.nlink > 0) && DirOk(a, place, d)
    ensures DirOk(a[i := n], place, d)
  {
  }

  lemma SideSlot(a: seq<Node>, place: seq<Place>, i: int, n: Node, q: int, j: int)
    requires |place| == |a| && 0 < i < |a| && !Linked(a, i) && !(n.kind == T_DIR && n.nlink > 0)
    requires SlotOk(a, place, q, j)
    ensures SlotOk(a[i := n], place, q, j)
  {
  }

  lemma SideNames(a: seq<Node>, i: int, n: Node, x: int)
    requires 0 < i < |a| && !Linked(a, i) && !(n.kind == T_DIR && n.nlink > 0)
    ensures Names(a[i := n], x) == Names(a, x)
  {
    NamesSame(a, a[i := n], x);
  }

  // The count moves with the announced links, and stays a count.
  predicate CountMoves(m: Node, p: int, n: Node, q: int) {
    && n.nlink - q == m.nlink - p
    && 0 <= q
    && n.nlink <= SHRT_MAX
    && (n.kind == 0 ==> n.nlink == 0)
    && (n.kind == T_DIR ==> q == 0)
  }

  lemma SideCounts(a: seq<Node>, pa: seq<int>, i: int, n: Node, p: int)
    requires Counts(a, pa) && 0 < i < |a| && !Linked(a, i) && !(n.kind == T_DIR && n.nlink > 0)
    ensures Counts(a[i := n], pa[i := p]) <==> CountMoves(a[i], pa[i], n, p)
  {
    hide Linked;
    var b, pb := a[i := n], pa[i := p];
    forall x | 0 < x < |b| ensures Counted(b, pb, x) <==> x != i || CountMoves(a[i], pa[i], n, p) {
      assert Counted(a, pa, x);
      SideNames(a, i, n, x);
    }
    assert Counts(b, pb) ==> Counted(b, pb, i);
  }

  // ---------- a name removed

  predicate NamesFile(a: seq<Node>, dp: int, k: int, i: int) {
    Slot(a, dp, k) && k >= 2 && a[dp].entries[k].inum == i && File(a, i)
  }

  function Unname(a: seq<Node>, dp: int, k: int): seq<Node>
    requires Slot(a, dp, k)
  {
    SetEntry(a, dp, k, Entry(0, ""))
  }

  lemma UnnameNode(n: Node, m: int, k: int)
    requires NodeOk(n, m) && m > 0 && n.nlink > 0 && 0 <= k < |n.entries|
    ensures NodeOk(n.(entries := PutAt(n.entries, k, Entry(0, ""))), m)
  {
  }

  lemma UnnameDir(a: seq<Node>, place: seq<Place>, dp: int, k: int, i: int, d: int)
    requires |place| == |a| && NamesFile(a, dp, k, i) && DirOk(a, place, d)
    ensures DirOk(Unname(a, dp, k), place, d)
  {
  }

  lemma UnnameSlot(a: seq<Node>, place: seq<Place>, dp: int, k: int, i: int, q: int, j: int)
    requires |place| == |a| && NamesFile(a, dp, k, i) && SlotOk(a, place, q, j)
    ensures SlotOk(Unname(a, dp, k), place, q, j)
  {
  }

  lemma UnnameTree(a: seq<Node>, place: seq<Place>, dp: int, k: int, i: int)
    requires Tree(a, place) && NamesFile(a, dp, k, i)
    ensures Tree(Unname(a, dp, k), place)
  {
    hide DirOk, SlotOk, NodeOk;
    UnnameNode(a[dp], |a|, k);
    forall d ensures DirOk(Unname(a, dp, k), place, d) {
      UnnameDir(a, place, dp, k, i, d);
    }
    forall q, j ensures SlotOk(Unname(a, dp, k), place, q, j) {
      UnnameSlot(a, place, dp, k, i, q, j);
    }
  }

  lemma UnnameNamed(a: seq<Node>, dp: int, k: int, i: int, d: int, j: int)
    requires Slot(a, dp, k) && i != 0
    ensures Named(a, d, j, i) <==> Named(Unname(a, dp, k), d, j, i) || (Named(a, dp, k, i) && d == dp && j == k)
    ensures !Named(Unname(a, dp, k), dp, k, i)
  {
  }

  // Clearing the slot leaves its inode's count one too high, as if a link were announced.
  lemma UnnameCounts(a: seq<Node>, pa: seq<int>, dp: int, k: int, i: int)
    requires Counts(a, pa) && NamesFile(a, dp, k, i) && a[dp].entries[k].name != "."
    ensures Counts(Unname(a, dp, k), pa[i := pa[i] + 1])
  {
    hide Named;
    var b, pb := Unname(a, dp, k), pa[i := pa[i] + 1];
    assert Named(a, dp, k, i) && forall x :: x != i ==> !Named(a, dp, k, x) by {
      NamedHere(a, dp, k, i);
    }
    forall x, d, j | x != 0
      ensures !Named(b, dp, k, x)
      ensures (Named(a, d, j, x) <==> Named(b, d, j, x) || (Named(a, dp, k, x) && d == dp && j == k)) {
      UnnameNamed(a, dp, k, x, d, j);
    }
    forall x | 0 < x < |b| ensures Counted(b, pb, x) {
      assert Counted(a, pa, x);
      if x == i {
        NamesMore(b, a, x, dp, k);
      } else {
        NamesSame(a, b, x);
      }
    }
  }

  lemma NamedHere(a: seq<Node>, dp: int, k: int, i: int)
    requires Slot(a, dp, k) && a[dp].entries[k].inum == i && a[dp].entries[k].name != "."
    ensures Named(a, dp, k, i) && forall x :: x != i ==> !Named(a, dp, k, x)
  {
  }

  // ---------- a directory made

  function Made(a: seq<Node>, dp: int, k: int, i: int, name: string): seq<Node>
    requires 0 <= dp < |a| && 0 <= i < |a| && i != dp && 0 <= k <= |a[dp].entries|
  {
    var n := Node(a[dp].kind, Short(a[dp].nlink + 1), PutAt(a[dp].entries, k, Entry(i, name)));
    a[i := Node(T_DIR, 1, [Entry(i, "."), Entry(dp, "..")])][dp := n]
  }

  predicate CanMake(a: seq<Node>, dp: int, k: int, i: int) {
    0 < i < |a| && 0 < dp < |a| && a[i].kind == 0 && a[i].nlink == 0 && a[dp].kind == T_DIR && FreeSlot(a[dp], k)
    && i != dp
  }

  lemma MadeNodes(a: seq<Node>, dp: int, k: int, i: int, name: string)
    requires CanMake(a, dp, k, i) && Linked(a, dp) && a[dp].nlink < SHRT_MAX
    requires NodeOk(a[dp], |a|) && Unused(a[dp].entries, name)
    ensures NodeOk(Made(a, dp, k, i, name)[dp], |a|) && NodeOk(Made(a, dp, k, i, name)[i], |a|)
  {
    NameNode(a[dp], |a|, k, Entry(i, name));
  }

  lemma MadeDir(a: seq<Node>, place: seq<Place>, dp: int, k: int, i: int, name: string, d: int)
    requires |place| == |a| && CanMake(a, dp, k, i) && Linked(a, dp) && a[dp].nlink < SHRT_MAX && k >= 2
    requires DirOk(a, place, d) && DirOk(a, place, dp) && !Linked(a, 0) && i != ROOTINO
    ensures DirOk(Made(a, dp, k, i, name), place[i := Place(k, place[dp].depth + 1)], d)
  {
  }

  lemma MadeSlot(a: seq<Node>, place: seq<Place>, dp: int, k: int, i: int, name: string, q: int, j: int)
    requires |place| == |a| && CanMake(a, dp, k, i) && Linked(a, dp) && a[dp].nlink < SHRT_MAX && k >= 2
    requires SlotOk(a, place, q, j) && !Dot(name) && i != ROOTINO && !Named(a, q, j, i)
    ensures SlotOk(Made(a, dp, k, i, name), place[i := Place(k, place[dp].depth + 1)], q, j)
  {
  }

  lemma MadeTree(a: seq<Node>, place: seq<Place>, dp: int, k: int, i: int, name: string)
    requires Tree(a, place) && CanMake(a, dp, k, i) && Linked(a, dp) && a[dp].nlink < SHRT_MAX && Names(a, i) == {}
    requires Unused(a[dp].entries, name) && !Dot(name)
    ensures Tree(Made(a, dp, k, i, name), place[i := Place(k, place[dp].depth + 1)])
  {
    hide DirOk, SlotOk, NodeOk, Named;
    var b, at := Made(a, dp, k, i, name), place[i := Place(k, place[dp].depth + 1)];
    Unfilled(a, place, dp, k);
    MadeNodes(a, dp, k, i, name);
    forall d ensures DirOk(b, at, d) {
      MadeDir(a, place, dp, k, i, name, d);
    }
    forall q, j ensures SlotOk(b, at, q, j) {
      NotNamed(a, q, j, i);
      MadeSlot(a, place, dp, k, i, name, q, j);
    }
  }

  lemma NotNamed(a: seq<Node>, q: int, j: int, i: int)
    requires Names(a, i) == {}
    ensures !Named(a, q, j, i)
  {
    assert Named(a, q, j, i) ==> (q, j) in Names(a, i);
  }

  lemma MadeNamed(a: seq<Node>, dp: int, k: int, i: int, name: string, x: int, d: int, j: int)
    requires CanMake(a, dp, k, i) && x != 0 && name != "." && (Linked(a, dp) ==> a[dp].nlink < SHRT_MAX)
    ensures Linked(a, dp) ==>
      (Named(Made(a, dp, k, i, name), d, j, x) <==>
      Named(a, d, j, x) || (x == i && d == dp && j == k) || (x == dp && d == i && j == 1))
    ensures !Named(a, dp, k, x) && !Named(a, i, 1, x)
  {
  }

  lemma MadeCounts(a: seq<Node>, pa: seq<int>, dp: int, k: int, i: int, name: string)
    requires Counts(a, pa) && CanMake(a, dp, k, i) && name != "." && Linked(a, dp) && a[dp].nlink < SHRT_MAX
    ensures Counts(Made(a, dp, k, i, name), pa)
  {
    hide Named, Linked;
    var b := Made(a, dp, k, i, name);
    forall x, d, j | x != 0
      ensures !Named(a, dp, k, x) && !Named(a, i, 1, x)
      ensures Named(b, d, j, x) <==>
        Named(a, d, j, x) || (x == i && d == dp && j == k) || (x == dp && d == i && j == 1) {
      MadeNamed(a, dp, k, i, name, x, d, j);
    }
    forall x | 0 < x < |b| ensures Counted(b, pa, x) {
      assert Counted(a, pa, x);
      if x == i {
        NamesMore(a, b, x, dp, k);
      } else if x == dp {
        NamesMore(a, b, x, i, 1);
      } else {
        NamesSame(a, b, x);
      }
    }
  }

  // ---------- a directory removed

  function Unmade(a: seq<Node>, dp: int, k: int, i: int): seq<Node>
    requires Slot(a, dp, k) && 0 <= i < |a| && i != dp
  {
    var n := Node(a[dp].kind, Short(a[dp].nlink - 1), PutAt(a[dp].entries, k, Entry(0, "")));
    a[dp := n][i := a[i].(nlink := Short(a[i].nlink - 1))]
  }

  predicate Empty(es: seq<Entry>) { forall k :: 2 <= k < |es| ==> es[k].inum == 0 }

  // A leaf of the tree, and where it hangs.
  predicate Leaf(a: seq<Node>, dp: int, k: int, i: int) {
    Linked(a, i) && Hangs(a, i, dp, k) && Empty(a[i].entries)
  }

  // Only the slot it hangs in names an empty directory.
  lemma LeafNamed(a: seq<Node>, place: seq<Place>, dp: int, k: int, i: int, d: int, j: int)
    requires |place| == |a| && Leaf(a, dp, k, i) && !Linked(a, 0)
    requires DirOk(a, place, d) && DirOk(a, place, i) && SlotOk(a, place, d, j) && SlotOk(a, place, dp, k)
    ensures i != ROOTINO && Parent(a, i) == dp && i != dp
    ensures Named(a, d, j, i) <==> d == dp && j == k
  {
  }

  lemma LeafOnce(a: seq<Node>, place: seq<Place>, pa: seq<int>, dp: int, k: int, i: int)
    requires Tree(a, place) && Counts(a, pa) && Leaf(a, dp, k, i)
    ensures a[i].nlink == 1 && i != ROOTINO && Parent(a, i) == dp && i != dp && 0 < i < |a|
  {
    hide DirOk, SlotOk, NodeOk, Named;
    forall d, j ensures (Named(a, d, j, i) <==> d == dp && j == k) && i != ROOTINO && Parent(a, i) == dp && i != dp {
      LeafNamed(a, place, dp, k, i, d, j);
    }
    assert Named(a, dp, k, i);
    OneName(a, i, dp, k);
    assert Counted(a, pa, i);
  }

  lemma OneName(a: seq<Node>, i: int, dp: int, k: int)
    requires forall d, j :: Named(a, d, j, i) <==> d == dp && j == k
    ensures Names(a, i) == {(dp, k)}
  {
    assert Named(a, dp, k, i);
    forall p | p in Names(a, i) ensures p == (dp, k) {
      assert Named(a, p.0, p.1, i);
    }
  }

  // The parent of a linked directory is named twice at least: by its own place and by "..".
  lemma ParentTwice(a: seq<Node>, place: seq<Place>, pa: seq<int>, i: int)
    requires Tree(a, place) && Counts(a, pa) && Linked(a, i) && i != ROOTINO
    ensures var p := Parent(a, i); 0 < p < |a| && a[p].nlink >= 2
  {
    hide SlotOk, NodeOk;
    var p := Parent(a, i);
    assert DirOk(a, place, i) && DirOk(a, place, p) && SlotOk(a, place, Parent(a, p), place[p].slot);
    ParentNames(a, place, i);
    assert Counted(a, pa, p);
    var up := if p == ROOTINO then (p, 1) else (Parent(a, p), place[p].slot);
    assert {up, (i, 1)} <= Names(a, p);
    TwoOf(Names(a, p), up, (i, 1));
  }

  lemma ParentNames(a: seq<Node>, place: seq<Place>, i: int)
    requires |place| == |a| && Linked(a, i) && i != ROOTINO && DirOk(a, place, i) && DirOk(a, place, Parent(a, i))
    requires !Linked(a, 0) && SlotOk(a, place, Parent(a, Parent(a, i)), place[Parent(a, i)].slot)
    ensures Parent(a, i) > 0 && Named(a, i, 1, Parent(a, i))
    ensures var p := Parent(a, i);
          if p == ROOTINO then Named(a, p, 1, p) else Named(a, Parent(a, p), place[p].slot, p) && place[p].slot >= 2
  {
  }

  lemma TwoOf(s: set<(int, int)>, x: (int, int), y: (int, int))
    requires {x, y} <= s && x != y
    ensures |s| >= 2
  {
    assert s == {x, y} + (s - {x, y});
  }

  lemma UnmadeNodes(a: seq<Node>, place: seq<Place>, dp: int, k: int, i: int)
    requires |place| == |a| && Leaf(a, dp, k, i) && a[i].nlink == 1 && a[dp].nlink >= 2 && i != dp
    requires NodeOk(a[dp], |a|) && NodeOk(a[i], |a|) && DirOk(a, place, i) && a[dp].nlink <= SHRT_MAX
    ensures NodeOk(Unmade(a, dp, k, i)[dp], |a|) && NodeOk(Unmade(a, dp, k, i)[i], |a|)
  {
    UnnameNode(a[dp], |a|, k);
  }

  lemma UnmadeDir(a: seq<Node>, place: seq<Place>, dp: int, k: int, i: int, d: int)
    requires |place| == |a| && Leaf(a, dp, k, i) && a[i].nlink == 1 && 2 <= a[dp].nlink <= SHRT_MAX && i != dp
    requires DirOk(a, place, d) && i != ROOTINO && !Linked(a, 0)
    ensures DirOk(Unmade(a, dp, k, i), place, d)
  {
  }

  lemma UnmadeSlot(a: seq<Node>, place: seq<Place>, dp: int, k: int, i: int, q: int, j: int)
    requires |place| == |a| && Leaf(a, dp, k, i) && a[i].nlink == 1 && 2 <= a[dp].nlink <= SHRT_MAX && i != dp
    requires SlotOk(a, place, q, j)
    ensures SlotOk(Unmade(a, dp, k, i), place, q, j)
  {
  }

  lemma UnmadeTree(a: seq<Node>, place: seq<Place>, pa: seq<int>, dp: int, k: int, i: int)
    requires Tree(a, place) && Counts(a, pa) && Leaf(a, dp, k, i)
    ensures i != dp && 0 < i < |a| && Tree(Unmade(a, dp, k, i), place)
  {
    hide DirOk, SlotOk, NodeOk;
    LeafOnce(a, place, pa, dp, k, i);
    ParentTwice(a, place, pa, i);
    assert Counted(a, pa, dp);
    var b := Unmade(a, dp, k, i);
    UnmadeNodes(a, place, dp, k, i);
    forall d ensures DirOk(b, place, d) {
      UnmadeDir(a, place, dp, k, i, d);
    }
    forall q, j ensures SlotOk(b, place, q, j) {
      UnmadeSlot(a, place, dp, k, i, q, j);
    }
  }

  lemma UnmadeNamed(a: seq<Node>, place: seq<Place>, dp: int, k: int, i: int, x: int, d: int, j: int)
    requires |place| == |a| && Leaf(a, dp, k, i) && a[i].nlink == 1 && 2 <= a[dp].nlink <= SHRT_MAX && i != dp
    requires DirOk(a, place, i) && SlotOk(a, place, dp, k) && x != 0 && i != 0
    ensures Named(a, d, j, x) <==>
      Named(Unmade(a, dp, k, i), d, j, x) || (x == i && d == dp && j == k) || (x == dp && d == i && j == 1)
    ensures !Named(Unmade(a, dp, k, i), dp, k, x) && !Named(Unmade(a, dp, k, i), i, 1, x)
  {
  }

  lemma UnmadeCounts(a: seq<Node>, place: seq<Place>, pa: seq<int>, dp: int, k: int, i: int)
    requires Tree(a, place) && Counts(a, pa) && Leaf(a, dp, k, i)
    ensures i != dp && 0 < i < |a| && Counts(Unmade(a, dp, k, i), pa)
  {
    hide Named, DirOk, SlotOk, NodeOk;
    LeafOnce(a, place, pa, dp, k, i);
    ParentTwice(a, place, pa, i);
    assert Counted(a, pa, dp);
    var b := Unmade(a, dp, k, i);
    forall x, d, j | x != 0
      ensures !Named(b, dp, k, x) && !Named(b, i, 1, x)
      ensures Named(a, d, j, x) <==>
        Named(b, d, j, x) || (x == i && d == dp && j == k) || (x == dp && d == i && j == 1) {
      UnmadeNamed(a, place, dp, k, i, x, d, j);
    }
    forall x | 0 < x < |b| ensures Counted(b, pa, x) {
      assert Counted(a, pa, x);
      if x == i {
        NamesMore(b, a, x, dp, k);
      } else if x == dp {
        NamesMore(b, a, x, i, 1);
      } else {
        NamesSame(a, b, x);
      }
    }
  }

  // ---------- what each call needs and keeps

  /** Between calls: the linked directories are a tree, and every count is the number of its names. */
  ghost predicate LinksTrue(ns: seq<Node>, pending: seq<int>) {
    Counts(ns, pending) && exists place :: Tree(ns, place)
  }

  /** Announcing a link is right if and only if the count has room. */
  lemma AnnounceExact(a: seq<Node>, pa: seq<int>, i: int)
    requires LinksTrue(a, pa) && File(a, i)
    ensures LinksTrue(AddLinks(a, i, 1), pa[i := pa[i] + 1]) <==> a[i].nlink < SHRT_MAX
  {
    hide Tree, Counts;
    var place :| Tree(a, place);
    var n := a[i].(nlink := Short(a[i].nlink + 1));
    assert Counted(a, pa, i) by { CountsAt(a, pa, i); }
    SideTree(a, place, i, n);
    SideCounts(a, pa, i, n, pa[i] + 1);
  }

  lemma CountsAt(a: seq<Node>, pa: seq<int>, i: int)
    requires Counts(a, pa) && 0 < i < |a|
    ensures Counted(a, pa, i)
  {
  }

  /** Withdrawing an announced link, or taking away the count of a name just cleared. */
  lemma Withdraw(a: seq<Node>, pa: seq<int>, i: int)
    requires LinksTrue(a, pa) && File(a, i) && pa[i] > 0
    ensures LinksTrue(AddLinks(a, i, -1), pa[i := pa[i] - 1])
  {
    hide Tree, Counts;
    var place :| Tree(a, place);
    var n := a[i].(nlink := Short(a[i].nlink - 1));
    assert Counted(a, pa, i) by { CountsAt(a, pa, i); }
    SideTree(a, place, i, n);
    SideCounts(a, pa, i, n, pa[i] - 1);
  }

  lemma ProperName(a: seq<Node>, place: seq<Place>, dp: int, name: string)
    requires |place| == |a| && DirOk(a, place, dp) && Linked(a, dp) && !Linked(a, 0) && Unused(a[dp].entries, name)
    ensures !Dot(name)
  {
  }

  /** Writing an announced name is right if and only if its directory is linked. */
  lemma NameExact(a: seq<Node>, pa: seq<int>, dp: int, k: int, e: Entry)
    requires LinksTrue(a, pa) && 0 <= dp < |a| && FreeSlot(a[dp], k) && Unused(a[dp].entries, e.name)
    requires File(a, e.inum) && pa[e.inum] > 0 && e.name != "."
    ensures LinksTrue(SetEntry(a, dp, k, e), pa[e.inum := pa[e.inum] - 1]) <==> Linked(a, dp)
  {
    hide Counts, DirOk, SlotOk, NodeOk;
    var place :| Tree(a, place);
    NameCounts(a, pa, dp, k, e);
    if Linked(a, dp) {
      ProperName(a, place, dp, e.name);
      NameTree(a, place, dp, k, e);
    }
  }

  /** Clearing a file's name and lowering its count. */
  lemma UnlinkKeeps(a: seq<Node>, pa: seq<int>, dp: int, k: int, i: int)
    requires LinksTrue(a, pa) && NamesFile(a, dp, k, i)
    ensures LinksTrue(AddLinks(Unname(a, dp, k), i, -1), pa)
  {
    hide Counts, DirOk, NodeOk;
    var place :| Tree(a, place);
    assert SlotOk(a, place, dp, k);
    CountsAt(a, pa, i);
    UnnameTree(a, place, dp, k, i);
    UnnameCounts(a, pa, dp, k, i);
    Withdraw(Unname(a, dp, k), pa[i := pa[i] + 1], i);
    assert pa[i := pa[i] + 1][i := pa[i]] == pa;
  }

  lemma RmdirKeeps(a: seq<Node>, pa: seq<int>, dp: int, k: int, i: int)
    requires LinksTrue(a, pa) && Leaf(a, dp, k, i)
    ensures i != dp && LinksTrue(Unmade(a, dp, k, i), pa)
    ensures Unmade(a, dp, k, i)[i].nlink == 0 && Unmade(a, dp, k, i)[dp].nlink > 0
  {
    hide Counts, Tree;
    var place :| Tree(a, place);
    LeafOnce(a, place, pa, dp, k, i);
    ParentTwice(a, place, pa, i);
    CountsAt(a, pa, dp);
    UnmadeTree(a, place, pa, dp, k, i);
    UnmadeCounts(a, place, pa, dp, k, i);
  }

  // A free inode is named nowhere.
  lemma FreeUnnamed(a: seq<Node>, pa: seq<int>, i: int)
    requires Counts(a, pa) && 0 < i < |a| && a[i].kind == 0
    ensures Names(a, i) == {} && a[i].nlink == 0 && pa[i] == 0
  {
    assert Counted(a, pa, i);
  }

  lemma {:induction false} NamesOfSlots(es: seq<Entry>, m: nat)
    requires m <= |es|
    ensures |set k | 0 <= k < m :: (es[k].inum, 1)| <= m
  {
    if m > 0 {
      NamesOfSlots(es, m - 1);
      assert (set k | 0 <= k < m :: (es[k].inum, 1)) == (set k | 0 <= k < m - 1 :: (es[k].inum, 1))
          + {(es[m - 1].inum, 1)};
    }
  }

  // A linked directory is named by the slot it hangs in and by the ".." of those that hang in it.
  lemma DirNamed(a: seq<Node>, place: seq<Place>, dp: int, d: int, j: int)
    requires |place| == |a| && Linked(a, dp) && Named(a, d, j, dp) && !Linked(a, 0)
    requires DirOk(a, place, d) && DirOk(a, place, dp) && SlotOk(a, place, d, j)
    ensures var home := if dp == ROOTINO then (dp, 1) else (Parent(a, dp), place[dp].slot);
      (d, j) == home || (j == 1 && exists k :: 0 <= k < |a[dp].entries| && a[dp].entries[k].inum == d)
  {
    if j == 1 && d != ROOTINO {
      assert Hangs(a, d, dp, place[d].slot);
      assert a[dp].entries[place[d].slot].inum == d;
    }
  }

  /** A directory has too few entries for its count to overflow. */
  lemma FewSubdirs(a: seq<Node>, place: seq<Place>, pa: seq<int>, dp: int)
    requires Tree(a, place) && Counts(a, pa) && Linked(a, dp)
    ensures a[dp].nlink <= |a[dp].entries| + 1 <= DIRMAX + 1
  {
    hide DirOk, SlotOk, Named;
    var es := a[dp].entries;
    var home := if dp == ROOTINO then (dp, 1) else (Parent(a, dp), place[dp].slot);
    var dots := set k | 0 <= k < |es| :: (es[k].inum, 1);
    forall p | p in Names(a, dp)
      ensures p in dots + {home}
    {
      DirNamed(a, place, dp, p.0, p.1);
    }
    NamesOfSlots(es, |es|);
    SubsetSize(Names(a, dp), dots + {home});
    assert Counted(a, pa, dp);
  }

  /** Making a directory is right if and only if its parent is linked. */
  lemma MakeExact(a: seq<Node>, pa: seq<int>, dp: int, k: int, i: int, name: string)
    requires LinksTrue(a, pa) && CanMake(a, dp, k, i) && Unused(a[dp].entries, name) && name != "."
    ensures LinksTrue(Made(a, dp, k, i, name), pa) <==> Linked(a, dp)
  {
    hide Counts, DirOk, SlotOk, NodeOk;
    var place :| Tree(a, place);
    var b := Made(a, dp, k, i, name);
    FreeUnnamed(a, pa, i);
    CountsAt(a, pa, dp);
    if Linked(a, dp) {
      FewSubdirs(a, place, pa, dp);
      ProperName(a, place, dp, name);
      MadeTree(a, place, dp, k, i, name);
      MadeCounts(a, pa, dp, k, i, name);
    } else {
      forall at | Tree(b, at) ensures false {
        Detached(a, pa, dp, k, i, name, at);
      }
    }
  }

  // A directory made under one that no name leads to: the two keep each other
  // counted, and hang nowhere in the tree.
  lemma Detached(a: seq<Node>, pa: seq<int>, dp: int, k: int, i: int, name: string, at: seq<Place>)
    requires Counts(a, pa) && CanMake(a, dp, k, i) && a[dp].nlink == 0 && dp != ROOTINO && NodeOk(a[dp], |a|)
    ensures !Tree(Made(a, dp, k, i, name), at)
  {
    var b := Made(a, dp, k, i, name);
    assert Counted(a, pa, dp);
    if Tree(b, at) {
      var q := Parent(b, dp);
      assert DirOk(b, at, dp) && SlotOk(b, at, q, at[dp].slot);
      NotNamed(a, q, at[dp].slot, dp);
    }
  }

  lemma NameWritten(a: seq<Node>, pa: seq<int>, dp: int, k: int, e: Entry)
    requires LinksTrue(a, pa) && Linked(a, dp) && FreeSlot(a[dp], k) && Unused(a[dp].entries, e.name)
    requires File(a, e.inum) && pa[e.inum] > 0
    ensures LinksTrue(SetEntry(a, dp, k, e), pa[e.inum := pa[e.inum] - 1])
  {
    hide LinksTrue;
    NotDot(a, pa, dp, e.name);
    NameExact(a, pa, dp, k, e);
  }

  lemma NotDot(a: seq<Node>, pa: seq<int>, dp: int, name: string)
    requires LinksTrue(a, pa) && Linked(a, dp) && Unused(a[dp].entries, name)
    ensures !Dot(name)
  {
    hide Counts, DirOk, SlotOk, NodeOk;
    var place :| Tree(a, place);
    ProperName(a, place, dp, name);
  }

  // ---------- the image

  function Listing(files: seq<string>, pad: nat): seq<Entry> {
    [Entry(ROOTINO, "."), Entry(ROOTINO, "..")] + seq(|files|, i requires 0 <= i < |files| => Entry(i + 2, files[i]))
      + seq(pad, _ => Entry(0, ""))
  }

  function Image(files: seq<string>, pad: nat, ninodes: nat): seq<Node>
    requires |files| + 2 <= ninodes
  {
    [Node(0, 0, []), Node(T_DIR, 1, Listing(files, pad))] + seq(|files|, _ => Node(T_FILE, 1, []))
      + seq(ninodes - 2 - |files|, _ => Node(0, 0, []))
  }

  lemma ImageNamed(files: seq<string>, pad: nat, ninodes: nat, i: int, d: int, k: int)
    requires |files| + 2 <= ninodes && 0 < i && forall i :: 0 <= i < |files| ==> !Dot(files[i])
    ensures Named(Image(files, pad, ninodes), d, k, i) <==> d == ROOTINO && k == i && i < |files| + 2
  {
    var es := Listing(files, pad);
    assert forall j :: 2 <= j < |files| + 2 ==> es[j] == Entry(j, files[j - 2]);
  }

  lemma ImageTree(files: seq<string>, pad: nat, ninodes: nat, place: seq<Place>)
    requires |files| + 2 <= ninodes == |place| && place[ROOTINO].depth == 0 && |files| + 2 + pad <= DIRMAX
    requires forall i, j :: 0 <= i < j < |files| ==> files[i] != files[j]
    requires forall i :: 0 <= i < |files| ==> !Dot(files[i])
    ensures Tree(Image(files, pad, ninodes), place)
  {
    var es := Listing(files, pad);
    assert forall j :: 2 <= j < |files| + 2 ==> es[j] == Entry(j, files[j - 2]);
    assert forall j :: |files| + 2 <= j < |es| ==> es[j].inum == 0;
    assert Apart(es);
  }

  /** The image is a tree with true counts. */
  lemma ImageTrue(files: seq<string>, pad: nat, ninodes: nat, zero: seq<int>)
    requires |files| + 2 <= ninodes == |zero| && |files| + 2 + pad <= DIRMAX
    requires forall i :: 0 <= i < |zero| ==> zero[i] == 0
    requires forall i, j :: 0 <= i < j < |files| ==> files[i] != files[j]
    requires forall i :: 0 <= i < |files| ==> !Dot(files[i])
    ensures LinksTrue(Image(files, pad, ninodes), zero)
  {
    hide Tree, Named;
    var a := Image(files, pad, ninodes);
    ImageTree(files, pad, ninodes, seq(ninodes, _ => Place(0, 0)));
    forall i | 0 < i < |a| ensures Counted(a, zero, i) {
      forall d, k ensures Named(a, d, k, i) <==> d == ROOTINO && k == i && i < |files| + 2 {
        ImageNamed(files, pad, ninodes, i, d, k);
      }
      if i < |files| + 2 {
        OneName(a, i, ROOTINO, i);
      } else {
        NoName(a, i);
      }
    }
  }

  lemma NoName(a: seq<Node>, i: int)
    requires forall d, k :: !Named(a, d, k, i)
    ensures Names(a, i) == {}
  {
  }

  // A name found in a directory is in a linked one, and leads to an inode with a count.
  lemma FoundNamed(a: seq<Node>, pa: seq<int>, dp: int, k: int)
    requires LinksTrue(a, pa) && 0 < dp < |a| && a[dp].kind == T_DIR && 0 <= k < |a[dp].entries|
    requires a[dp].entries[k].inum != 0 && !Dot(a[dp].entries[k].name)
    ensures Slot(a, dp, k) && k >= 2
    ensures var i := a[dp].entries[k].inum; 0 < i < |a| && a[i].nlink >= 1 && a[i].kind != 0
    ensures var i := a[dp].entries[k].inum; (a[i].kind == T_DIR ==> i != dp && Parent(a, i) == dp)
  {
    hide Counts;
    var place :| Tree(a, place);
    assert NodeOk(a[dp], |a|) && DirOk(a, place, dp) && SlotOk(a, place, dp, k);
    var i := a[dp].entries[k].inum;
    assert Named(a, dp, k, i) && (dp, k) in Names(a, i);
    CountsAt(a, pa, i);
    assert DirOk(a, place, i);
  }

  lemma TrueAt(a: seq<Node>, pa: seq<int>, i: int)
    requires LinksTrue(a, pa) && 0 < i < |a|
    ensures Counted(a, pa, i)
  {
  }

  // `n` times "..".
  function Up(ns: seq<Node>, d: int, n: nat): int
    decreases n
  {
    if n == 0 then d else Up(ns, Parent(ns, d), n - 1)
  }

  lemma {:induction false} UpToRoot(ns: seq<Node>, place: seq<Place>, d: int) returns (n: nat)
    requires Tree(ns, place) && Linked(ns, d)
    ensures Up(ns, d, n) == ROOTINO
    decreases place[d].depth
  {
    assert DirOk(ns, place, d);
    if d == ROOTINO {
      n := 0;
    } else {
      var p := Parent(ns, d);
      assert DirOk(ns, place, p);
      n := UpToRoot(ns, place, p);
      n := n + 1;
    }
  }

  /** The root is above every linked directory, and each step up is matched by a name on the way down. */
  lemma Rooted(ns: seq<Node>, pending: seq<int>, d: int)
    requires LinksTrue(ns, pending) && Linked(ns, d)
    ensures exists n: nat :: Up(ns, d, n) == ROOTINO
    ensures d != ROOTINO ==> Linked(ns, Parent(ns, d)) && exists k :: Hangs(ns, d, Parent(ns, d), k)
  {
    var place :| Tree(ns, place);
    assert DirOk(ns, place, d);
    var n := UpToRoot(ns, place, d);
  }

  // ---------- a file with as many names as a count can say

  // Different names for different numbers.
  function Label(k: nat): (name: string)
    requires k < 32768
    ensures |name| == 3
  {
    [(65 + k / 1024) as char, (65 + k / 32 % 32) as char, (65 + k % 32) as char]
  }

  lemma LabelsDiffer(j: nat, k: nat)
    requires j < 32768 && k < 32768 && Label(j) == Label(k)
    ensures j == k
  {
    Digits(j);
    Digits(k);
    assert Label(j)[0] as int == Label(k)[0] as int;
    assert Label(j)[1] as int == Label(k)[1] as int;
    assert Label(j)[2] as int == Label(k)[2] as int;
  }

  // A number from the three digits of its label.
  lemma Digits(k: nat)
    requires k < 32768
    ensures k == (Label(k)[0] as int - 65) * 1024 + (Label(k)[1] as int - 65) * 32 + (Label(k)[2] as int - 65)
  {
    assert k / 32 / 32 == k / 1024;
  }

  // `n` names for inode 3.
  function Labels(n: nat): (es: seq<Entry>)
    requires n < 32768
    ensures |es| == n && forall k :: 0 <= k < n ==> es[k] == Entry(3, Label(k))
  {
    seq(n, k requires 0 <= k < n => Entry(3, Label(k)))
  }

  // Two directories that name one file 32767 times.
  function Crowded(): seq<Node> {
    [Node(0, 0, []),
     Node(T_DIR, 2, [Entry(ROOTINO, "."), Entry(ROOTINO, ".."), Entry(2, "d")] + Labels(16383)),
     Node(T_DIR, 1, [Entry(2, "."), Entry(ROOTINO, "..")] + Labels(16384)),
     Node(T_FILE, SHRT_MAX, [])]
  }

  lemma LabelsApart(es: seq<Entry>, n: nat)
    requires n < 32768 && Apart(es) && forall k :: 0 <= k < |es| ==> |es[k].name| < 3
    ensures Apart(es + Labels(n))
  {
    var all := es + Labels(n);
    forall j, k | 0 <= j < k < |all| && all[j].inum != 0 && all[k].inum != 0
      ensures all[j].name != all[k].name
    {
      if j >= |es| && Label(j - |es|) == Label(k - |es|) {
        LabelsDiffer(j - |es|, k - |es|);
      }
    }
  }

  lemma CrowdedTree(place: seq<Place>)
    requires place == [Place(0, 0), Place(0, 0), Place(2, 1), Place(0, 0)]
    ensures Tree(Crowded(), place)
  {
    hide Label;
    var a := Crowded();
    var r, d := [Entry(ROOTINO, "."), Entry(ROOTINO, ".."), Entry(2, "d")], [Entry(2, "."), Entry(ROOTINO, "..")];
    assert Apart(r) && Apart(d);
    LabelsApart(r, 16383);
    LabelsApart(d, 16384);
    hide Apart;
    assert NodeOk(a[1], |a|) && NodeOk(a[2], |a|);
    assert forall k :: 2 <= k < |a[1].entries| ==> SlotOk(a, place, 1, k);
    assert forall k :: 2 <= k < |a[2].entries| ==> SlotOk(a, place, 2, k);
  }

  lemma CrowdedNamed(i: int, d: int, k: int)
    requires i > 0
    ensures Named(Crowded(), d, k, i) <==>
      || (i == 1 && (d == 1 || d == 2) && k == 1)
      || (i == 2 && d == 1 && k == 2)
      || (i == 3 && d == 1 && 3 <= k < 16386)
      || (i == 3 && d == 2 && 2 <= k < 16386)
  {
    hide Label;
  }

  lemma {:induction false} Interval(d: int, lo: int, hi: int)
    requires lo <= hi
    ensures |set k | lo <= k < hi :: (d, k)| == hi - lo
    decreases hi - lo
  {
    if lo < hi {
      Interval(d, lo, hi - 1);
      assert (set k | lo <= k < hi :: (d, k)) == (set k | lo <= k < hi - 1 :: (d, k)) + {(d, hi - 1)};
    }
  }

  // A set of names that contains just the pairs that name `i`.
  lemma NamesAre(a: seq<Node>, i: int, x: set<(int, int)>)
    requires forall d, k :: Named(a, d, k, i) <==> (d, k) in x
    ensures Names(a, i) == x
  {
    forall p | p in x
      ensures p in Names(a, i)
    {
      assert Named(a, p.0, p.1, i);
    }
  }

  lemma CrowdedNames()
    ensures |Names(Crowded(), 1)| == 2 && |Names(Crowded(), 2)| == 1 && |Names(Crowded(), 3)| == SHRT_MAX
  {
    hide Named, Names, Crowded;
    var a := Crowded();
    var x, y := set k | 3 <= k < 16386 :: (1, k), set k | 2 <= k < 16386 :: (2, k);
    Interval(1, 3, 16386);
    Interval(2, 2, 16386);
    assert x !! y;
    forall d, k
      ensures Named(a, d, k, 3) <==> (d, k) in x + y
      ensures Named(a, d, k, 1) <==> (d, k) in {(1, 1), (2, 1)}
      ensures Named(a, d, k, 2) <==> (d, k) in {(1, 2)}
    {
      CrowdedNamed(3, d, k);
      CrowdedNamed(1, d, k);
      CrowdedNamed(2, d, k);
    }
    NamesAre(a, 3, x + y);
    NamesAre(a, 1, {(1, 1), (2, 1)});
    NamesAre(a, 2, {(1, 2)});
  }

  lemma CrowdedNodes()
    ensures var a := Crowded();
            && |a| == 4 && a[1].kind == T_DIR && a[2].kind == T_DIR && a[3].kind == T_FILE
            && a[1].nlink == 2 && a[2].nlink == 1 && a[3].nlink == SHRT_MAX
  {
  }

  /** The room for one more link is needed: with 32767 names, two directories full, the next link wraps the count. */
  lemma LinkOverflows()
    ensures exists a: seq<Node>, pa, i ::
          LinksTrue(a, pa) && File(a, i) && !LinksTrue(AddLinks(a, i, 1), pa[i := pa[i] + 1])
  {
    hide Tree, Names, Crowded;
    var a, pa := Crowded(), [0, 0, 0, 0];
    CrowdedNames();
    CrowdedTree([Place(0, 0), Place(0, 0), Place(2, 1), Place(0, 0)]);
    CrowdedNodes();
    assert forall i :: 0 < i < |a| ==> Counted(a, pa, i);
    AnnounceExact(a, pa, 3);
  }
}
