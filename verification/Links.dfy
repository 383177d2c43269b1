/**
 * link, unlink and create (kernel/sysfile.c) over the inode table, with
 * dirlookup, dirlink, ialloc and iput (kernel/fs.c).
 *
 * Path lookup has already happened: a call is given the inodes it found, with
 * a reference to each.  A parameter `wrote` says whether the write of a directory
 * entry found the block it needed.
 */
module Links {
  import opened FsLayout
  import opened LinkSpec

  // What dropping a reference does: the last one to an inode without links frees it.
  function Released(ns: seq<Node>, i: int, last: bool): seq<Node>
    requires 0 <= i < |ns|
  {
    if last && ns[i].nlink == 0 then ns[i := Node(0, 0, [])] else ns
  }

  // A reference more, or one less.
  function Ref(refs: seq<int>, i: int, n: int): seq<int> {
    if 0 <= i < |refs| then refs[i := refs[i] + n] else refs
  }

  lemma RefBack(refs: seq<int>, i: int)
    ensures Ref(Ref(refs, i, 1), i, -1) == refs
  {
  }

  lemma RefSwap(refs: seq<int>, i: int, n: int, j: int)
    ensures Ref(Ref(refs, i, n), j, -1) == Ref(Ref(refs, j, -1), i, n)
  {
  }

  lemma ReleaseKeeps(a: seq<Node>, pa: seq<int>, i: int, last: bool)
    requires LinksTrue(a, pa) && 0 < i < |a|
    ensures LinksTrue(Released(a, i, last), pa)
  {
    hide Tree, Counts;
    var place :| Tree(a, place);
    if last && a[i].nlink == 0 {
      var n := Node(0, 0, []);
      CountsAt(a, pa, i);
      SideTree(a, place, i, n);
      SideCounts(a, pa, i, n, 0);
      assert pa[i := 0] == pa;
    }
  }

  predicate RefsOk(n: int, refs: seq<int>) {
    |refs| == n && forall i :: 0 <= i < n ==> refs[i] >= 0
  }

  lemma RefChange(refs: seq<int>, i: int, n: int)
    requires 0 <= i < |refs|
    ensures |Ref(refs, i, n)| == |refs|
    ensures forall j :: 0 <= j < |refs| ==> Ref(refs, i, n)[j] == if j == i then refs[j] + n else refs[j]
    ensures RefsOk(|refs|, refs) && refs[i] + n >= 0 ==> RefsOk(|refs|, Ref(refs, i, n))
  {
  }

  // The next reference to the inode that slot `k` names is the only one.
  predicate NoneElse(refs: seq<int>, a: seq<Node>, dp: int, k: int) {
    && 0 <= dp < |a| && 0 <= k < |a[dp].entries| && 0 <= a[dp].entries[k].inum < |refs|
    && refs[a[dp].entries[k].inum] == 0
  }

  // There is an empty slot, or the directory file can grow.
  predicate HasRoom(n: Node) {
    |n.entries| < DIRMAX || exists k :: 0 <= k < DIRMAX && k < |n.entries| && n.entries[k].inum == 0
  }

  // What create needs for a new name: a free inode, a slot for the name, and that the writes find their blocks.
  predicate CanCreate(a: seq<Node>, dp: int, kind: int, wrote: (bool, bool, bool))
    requires 0 <= dp < |a|
  {
    && (exists i :: 0 < i < |a| && a[i].kind == 0) && HasRoom(a[dp])
    && wrote.2 && (kind == T_DIR ==> wrote.0 && wrote.1)
  }

  // The name leads to something create can open: a file or a device.
  predicate CanOpen(a: seq<Node>, dp: int, name: string)
    requires 0 <= dp < |a|
  {
    exists k :: 0 <= k < |a[dp].entries| && OpensAt(a, a[dp].entries[k], name)
  }

  predicate OpensAt(a: seq<Node>, e: Entry, name: string) {
    e.name == name && 0 < e.inum < |a| && a[e.inum].kind in {T_FILE, T_DEVICE}
  }

  // A failing create: no linked inode has changed, no inode that nobody had a reference to is left allocated
  // if it was not before, and the directory is free if it has no links and no other reference.
  predicate LeftAsWas(a: seq<Node>, dp: int, refs: seq<int>, b: seq<Node>) {
    && |b| == |a| == |refs| && 0 <= dp < |a|
    && (forall i :: 0 < i < |a| && a[i].nlink > 0 ==> b[i] == a[i])
    && (forall i :: 0 < i < |a| && b[i].kind != 0 && refs[i] == 0 ==> b[i] == a[i])
    && (refs[dp] == 1 && a[dp].nlink == 0 ==> b[dp].kind == 0)
  }

  lemma LeftDropped(a: seq<Node>, dp: int, refs: seq<int>)
    requires 0 <= dp < |a| == |refs|
    ensures LeftAsWas(a, dp, refs, Released(a, dp, refs[dp] == 1))
  {
  }

  lemma LeftFound(a: seq<Node>, dp: int, i: int, refs: seq<int>)
    requires 0 <= dp < |a| == |refs| && 0 <= i < |a| && refs[dp] >= 1 && refs[i] >= 0
    ensures var b := Released(a, dp, Ref(refs, i, 1)[dp] == 1);
      LeftAsWas(a, dp, refs, Released(b, i, Ref(Ref(refs, i, 1), dp, -1)[i] == 1))
  {
  }

  lemma LeftAbandoned(a: seq<Node>, dp: int, i: int, n: Node, refs: seq<int>)
    requires 0 < i < |a| == |refs| && 0 <= dp < |a| && i != dp && a[i].nlink == 0 && n.nlink == 0
    ensures LeftAsWas(a, dp, refs, Released(Released(a[i := n], i, refs[i] == 0), dp, refs[dp] == 1))
  {
  }

  // A successful link: the name is in slot `k`, and both references are dropped.
  predicate LinkedAt(a: seq<Node>, ip: int, dp: int, name: string, refs: seq<int>, k: int, b: seq<Node>) {
    && 0 <= ip < |a| == |refs| && 0 <= dp < |a| && FreeSlot(a[dp], k)
    && b == Released(Released(SetEntry(a, dp, k, Entry(ip, name)), dp, refs[dp] == 1), ip, refs[ip] == 1)
  }

  // The failing end of link: the reference to the directory dropped, the count lowered, the reference dropped.
  lemma GivenUp(a: seq<Node>, pa: seq<int>, ip: int, dp: int, lastDp: bool, lastIp: bool)
    requires LinksTrue(a, pa) && |a| == |pa| && File(a, ip) && pa[ip] > 0 && 0 <= dp < |a| && dp != ip
    ensures var b := if dp == 0 then a else Released(a, dp, lastDp);
            LinksTrue(Released(AddLinks(b, ip, -1), ip, lastIp), pa[ip := pa[ip] - 1])
  {
    hide LinksTrue;
    var b := if dp == 0 then a else Released(a, dp, lastDp);
    if dp != 0 {
      ReleaseKeeps(a, pa, dp, lastDp);
    }
    Withdraw(b, pa, ip);
    ReleaseKeeps(AddLinks(b, ip, -1), pa[ip := pa[ip] - 1], ip, lastIp);
  }

  class Namespace {
    var nodes: seq<Node>
    var refs: seq<int>  // the references to each inode
    ghost var pending: seq<int>

    ghost predicate Valid()
      reads this
    {
      |nodes| == |pending| <= 65536 && LinksTrue(nodes, pending) && RefsOk(|nodes|, refs)
    }

    predicate IsDir(d: int)
      reads this
    {
      0 < d < |nodes| && nodes[d].kind == T_DIR
    }

    // ---------- the image mkfs writes: a root directory of files

    constructor (files: seq<string>, pad: nat, ninodes: nat)
      requires |files| + 2 <= ninodes <= 65536 && |files| + 2 + pad <= DIRMAX
      requires forall i, j :: 0 <= i < j < |files| ==> files[i] != files[j]
      requires forall i :: 0 <= i < |files| ==> !Dot(files[i])
      ensures Valid() && |nodes| == ninodes && pending == seq(ninodes, _ => 0)
      ensures nodes[ROOTINO].entries == Listing(files, pad)
      ensures forall i :: 1 < i < ninodes ==>
            nodes[i] == if i < |files| + 2 then Node(T_FILE, 1, []) else Node(0, 0, [])
    {
      nodes := Image(files, pad, ninodes);
      refs, pending := seq(ninodes, _ => 0), seq(ninodes, _ => 0);
      new;
      ImageTrue(files, pad, ninodes, pending);
    }

    // ---------- directories

    method DirLookup(dp: int, name: string) returns (inum: int, off: int)
      requires IsDir(dp)
      ensures inum == 0 <==> Unused(nodes[dp].entries, name)
      ensures inum != 0 ==> 0 <= off < |nodes[dp].entries| && nodes[dp].entries[off] == Entry(inum, name)
    {
      var es := nodes[dp].entries;
      off := 0;
      while off < |es|
        invariant 0 <= off <= |es| && Unused(es[..off], name)
      {
        if es[off].inum != 0 && es[off].name == name {
          return es[off].inum, off;
        }
        off := off + 1;
      }
      assert es[..off] == es;
      return 0, off;
    }

    // The new entry goes to the first empty slot, or to the end.
    method DirLink(dp: int, name: string, inum: int, wrote: bool) returns (ok: bool, off: int)
      requires IsDir(dp)
      modifies this`nodes
      ensures ok <==> wrote && Unused(old(nodes)[dp].entries, name) && HasRoom(old(nodes)[dp])
      ensures ok ==> FreeSlot(old(nodes)[dp], off) && nodes == SetEntry(old(nodes), dp, off, Entry(inum, name))
      ensures ok ==> forall j :: 0 <= j < off ==> old(nodes)[dp].entries[j].inum != 0
      ensures !ok ==> nodes == old(nodes)
    {
      var found;
      found, off := DirLookup(dp, name);
      if found != 0 { return false, off; }
      var es := nodes[dp].entries;
      off := 0;
      while off < |es| && es[off].inum != 0
        invariant 0 <= off <= |es| && forall j :: 0 <= j < off ==> es[j].inum != 0
      {
        off := off + 1;
      }
      if off >= DIRMAX || !wrote { return false, off; }
      nodes := SetEntry(nodes, dp, off, Entry(inum, name));
      ok := true;
    }

    method IsDirEmpty(dp: int) returns (r: bool)
      requires IsDir(dp)
      ensures r <==> Empty(nodes[dp].entries)
    {
      var es := nodes[dp].entries;
      var off := 2;
      while off < |es|
        invariant 2 <= off && forall j :: 2 <= j < off && j < |es| ==> es[j].inum == 0
      {
        if es[off].inum != 0 { return false; }
        off := off + 1;
      }
      return true;
    }

    // ---------- inodes

    /** iget, as part of looking a name up or allocating an inode: a reference to give back. */
    method Iget(i: int)
      requires RefsOk(|nodes|, refs) && 0 <= i < |nodes|
      modifies this`refs
      ensures refs == Ref(old(refs), i, 1) && RefsOk(|nodes|, refs)
    {
      refs := Ref(refs, i, 1);
    }

    method Iput(i: int)
      requires RefsOk(|nodes|, refs) && 0 <= i < |nodes| && refs[i] >= 1
      modifies this`nodes, this`refs
      ensures nodes == Released(old(nodes), i, old(refs)[i] == 1) && refs == Ref(old(refs), i, -1)
      ensures RefsOk(|nodes|, refs)
    {
      if refs[i] == 1 && nodes[i].nlink == 0 {
        nodes := nodes[i := Node(0, 0, [])];
      }
      refs := Ref(refs, i, -1);
    }

    method Ialloc(kind: int) returns (i: int)
      requires kind != 0 && |nodes| > 0
      modifies this`nodes
      ensures i == 0 <==> forall j :: 0 < j < |old(nodes)| ==> old(nodes)[j].kind != 0
      ensures i == 0 ==> nodes == old(nodes)
      ensures i != 0 ==> 0 < i < |old(nodes)| && old(nodes)[i].kind == 0 && nodes == old(nodes)[i := Node(kind, 0, [])]
      ensures i != 0 ==> forall j :: 0 < j < i ==> old(nodes)[j].kind != 0
    {
      i := 1;
      while i < |nodes|
        invariant 1 <= i && forall j :: 0 < j < i && j < |nodes| ==> nodes[j].kind != 0
        invariant nodes == old(nodes)
      {
        if nodes[i].kind == 0 {
          nodes := nodes[i := Node(kind, 0, [])];
          return;
        }
        i := i + 1;
      }
      i := 0;
    }

    // ---------- link

    // First part, under the lock of the file: raise its count.
    method LinkStart(ip: int) returns (ok: bool)
      requires Valid() && 0 < ip < |nodes| && nodes[ip].kind != 0 && refs[ip] >= 1
      modifies this
      ensures refs == if ok then old(refs) else Ref(old(refs), ip, -1)
      ensures ok <==> old(nodes)[ip].kind != T_DIR
      ensures ok ==> nodes == AddLinks(old(nodes), ip, 1) && pending == old(pending)[ip := old(pending)[ip] + 1]
      ensures !ok ==> nodes == Released(old(nodes), ip, old(refs)[ip] == 1) && pending == old(pending)
      ensures |nodes| == |pending| && RefsOk(|nodes|, refs)
      ensures Valid() <==> !ok || old(nodes)[ip].nlink < SHRT_MAX
    {
      if nodes[ip].kind == T_DIR {
        ReleaseKeeps(nodes, pending, ip, refs[ip] == 1);
        Iput(ip);
        return false;
      }
      AnnounceExact(nodes, pending, ip);
      nodes := AddLinks(nodes, ip, 1);
      pending := pending[ip := pending[ip] + 1];
      return true;
    }

    // Second part: write the name, or lower the count again.  `dp` is 0 if the
    // directory was not found.
    method LinkFinish(ip: int, dp: int, name: string, wrote: bool) returns (ok: bool)
      requires |nodes| == |pending| && File(nodes, ip) && pending[ip] > 0 && (dp == 0 || IsDir(dp))
      requires RefsOk(|nodes|, refs) && refs[ip] >= 1 && (dp != 0 ==> refs[dp] >= 1)
      modifies this
      ensures refs == Ref(if dp != 0 then Ref(old(refs), dp, -1) else old(refs), ip, -1)
      ensures ok <==> dp != 0 && wrote && Unused(old(nodes)[dp].entries, name) && HasRoom(old(nodes)[dp])
      ensures pending == old(pending)[ip := old(pending)[ip] - 1]
      ensures ok ==> exists k :: LinkedAt(old(nodes), ip, dp, name, old(refs), k, nodes)
      ensures !ok ==>
        var b := if dp == 0 then old(nodes) else Released(old(nodes), dp, old(refs)[dp] == 1);
        nodes == Released(AddLinks(b, ip, -1), ip, old(refs)[ip] == 1)
      ensures |nodes| == |pending| == |old(nodes)| && RefsOk(|nodes|, refs)
      ensures old(Valid()) && (ok ==> Linked(old(nodes), dp)) ==> Valid()
    {
      hide LinksTrue, Linked, Ref;
      if dp != 0 {
        RefChange(refs, dp, -1);
      }
      ghost var a, pa, lastDp, lastIp := nodes, pending, dp != 0 && refs[dp] == 1, refs[ip] == 1;
      var off;
      ok := false;
      if dp != 0 {
        ok, off := DirLink(dp, name, ip, wrote);
      }
      if ok {
        ghost var b := nodes;
        pending := pending[ip := pending[ip] - 1];
        if LinksTrue(a, pa) && Linked(a, dp) {
          NameWritten(a, pa, dp, off, Entry(ip, name));
          ReleaseKeeps(b, pending, dp, lastDp);
          ReleaseKeeps(Released(b, dp, lastDp), pending, ip, lastIp);
        }
        Iput(dp);
        Iput(ip);
        assert LinkedAt(a, ip, dp, name, old(refs), off, nodes);
      } else {
        if LinksTrue(a, pa) {
          GivenUp(a, pa, ip, dp, lastDp, lastIp);
        }
        if dp != 0 {
          Iput(dp);
        }
        nodes := AddLinks(nodes, ip, -1);
        pending := pending[ip := pending[ip] - 1];
        Iput(ip);
      }
    }

    /** link with nothing in between: a failing call leaves the table as dropping its references does, even
        if the count was raised beyond its range. */
    method Link(ip: int, dp: int, name: string, wrote: bool) returns (ok: bool)
      requires Valid() && 0 < ip < |nodes| && nodes[ip].kind != 0 && (dp == 0 || IsDir(dp)) && refs[ip] >= 1
      modifies this
      ensures refs == Ref(old(refs), ip, -1)
      ensures ok <==> && old(nodes)[ip].kind != T_DIR && dp != 0 && wrote
                      && Unused(old(nodes)[dp].entries, name) && HasRoom(old(nodes)[dp])
      ensures pending == old(pending)
      ensures ok ==> exists k :: LinkedAt(AddLinks(old(nodes), ip, 1), ip, dp, name, Ref(old(refs), dp, 1), k, nodes)
      ensures !ok && (dp == 0 || old(nodes)[ip].kind == T_DIR) ==>
        nodes == Released(old(nodes), ip, old(refs)[ip] == 1)
      ensures !ok && dp != 0 && old(nodes)[ip].kind != T_DIR ==>
        nodes == Released(Released(old(nodes), dp, old(refs)[dp] == 0), ip, old(refs)[ip] == 1)
      ensures (ok ==> Linked(old(nodes), dp) && old(nodes)[ip].nlink < SHRT_MAX) ==> Valid()
    {
      hide LinksTrue, Ref;
      ghost var a, pa, lastDp, lastIp := nodes, pending, dp != 0 && refs[dp] == 0, refs[ip] == 1;
      TrueAt(nodes, pending, ip);
      ok := LinkStart(ip);
      if ok {
        if dp != 0 {
          Iget(dp);
          RefBack(old(refs), dp);
          RefChange(old(refs), dp, 1);
        }
        ok := LinkFinish(ip, dp, name, wrote);
        if !ok {
          if dp != 0 {
            ReleaseKeeps(a, pa, dp, lastDp);
          }
          ReleaseKeeps(if dp == 0 then a else Released(a, dp, lastDp), pa, ip, lastIp);
        }
      }
    }

    // ---------- unlink

    method Unlink(dp: int, name: string) returns (ok: bool)
      requires Valid() && IsDir(dp) && refs[dp] >= 1
      modifies this
      ensures Valid() && pending == old(pending) && refs == Ref(old(refs), dp, -1)
      ensures ok <==> exists k :: Removable(old(nodes), dp, name, k)
      ensures ok ==>
        exists k :: RemovedAt(old(nodes), dp, name, k, NoneElse(old(refs), old(nodes), dp, k), nodes)
                    && GoneAfter(old(nodes), dp, k, NoneElse(old(refs), old(nodes), dp, k), nodes)
      ensures !ok ==> nodes == Released(old(nodes), dp, old(refs)[dp] == 1)
    {
      hide LinksTrue, Empty, Apart;
      ghost var a := nodes;
      ReleaseKeeps(nodes, pending, dp, refs[dp] == 1);
      if Dot(name) {
        Iput(dp);
        return false;
      }
      var ip, off := DirLookup(dp, name);
      if ip == 0 {
        Iput(dp);
        return false;
      }
      FoundNamed(a, pending, dp, off);
      FoundOnce(a, pending, dp, off);
      Iget(ip);
      RefBack(old(refs), ip);
      RefBack(Ref(old(refs), dp, -1), ip);
      RefSwap(old(refs), ip, 1, dp);
      // The count is not 0, so the source's check for that never fails.
      assert nodes[ip].nlink >= 1;
      var isDir := nodes[ip].kind == T_DIR;
      if isDir {
        var empty := IsDirEmpty(ip);
        if !empty {
          Iput(ip);
          Iput(dp);
          return false;
        }
      }
      assert NoneElse(old(refs), a, dp, off) == (refs[ip] == 1);
      Remove(dp, name, off);
      return true;
    }

    // The name goes, and with it the links it stood for.
    method Remove(dp: int, ghost name: string, off: int)
      requires Valid() && Removable(nodes, dp, name, off) && Slot(nodes, dp, off) && off >= 2
      requires nodes[nodes[dp].entries[off].inum].kind != 0 && nodes[nodes[dp].entries[off].inum].nlink >= 1
      requires refs[dp] >= 1 && refs[nodes[dp].entries[off].inum] >= 1
      modifies this`nodes, this`refs
      ensures refs == Ref(Ref(old(refs), dp, -1), old(nodes)[dp].entries[off].inum, -1)
      ensures var last := old(refs)[old(nodes)[dp].entries[off].inum] == 1;
        && Valid() && RemovedAt(old(nodes), dp, name, off, last, nodes)
        && GoneAfter(old(nodes), dp, off, last, nodes)
    {
      hide LinksTrue, Empty, Ref;
      ghost var a := nodes;
      RefChange(refs, dp, -1);
      var ip := nodes[dp].entries[off].inum;
      ghost var last := refs[ip] == 1;
      RemovedTrue(a, pending, dp, name, off);
      nodes := SetEntry(nodes, dp, off, Entry(0, ""));
      if nodes[ip].kind == T_DIR {
        nodes := AddLinks(nodes, dp, -1);
      }
      Iput(dp);
      nodes := AddLinks(nodes, ip, -1);
      assert nodes == Removed(a, dp, off);
      ReleaseKeeps(nodes, pending, ip, last);
      Iput(ip);
    }

    // ---------- create

    method Create(dp: int, name: string, kind: int, wrote: (bool, bool, bool)) returns (ip: int)
      requires Valid() && IsDir(dp) && kind in {T_DIR, T_FILE, T_DEVICE} && refs[dp] >= 1
      modifies this
      ensures refs == if ip != 0 then Ref(Ref(old(refs), dp, -1), ip, 1) else Ref(old(refs), dp, -1)
      ensures pending == old(pending) && |nodes| == |old(nodes)|
      ensures Unused(old(nodes)[dp].entries, name) ==> (ip != 0 <==> CanCreate(old(nodes), dp, kind, wrote))
      ensures !Unused(old(nodes)[dp].entries, name) ==> (ip != 0 <==> kind == T_FILE && CanOpen(old(nodes), dp, name))
      ensures ip != 0 && Unused(old(nodes)[dp].entries, name) ==>
        exists k :: CreatedAt(old(nodes), dp, name, kind, ip, k, old(refs), nodes)
      ensures ip != 0 && !Unused(old(nodes)[dp].entries, name) ==>
        && kind == T_FILE
        && Entry(ip, name) in old(nodes)[dp].entries
        && nodes == Released(old(nodes), dp, old(refs)[dp] == 1)
        && 0 < ip < |nodes| && nodes[ip].kind in {T_FILE, T_DEVICE}
      ensures ip == 0 ==> Valid() && LeftAsWas(old(nodes), dp, old(refs), nodes)
      ensures Linked(old(nodes), dp) ==> Valid()
    {
      hide LinksTrue, Linked, Apart;
      ghost var a := nodes;
      var off;
      ip, off := DirLookup(dp, name);
      ReleaseKeeps(nodes, pending, dp, refs[dp] == 1);
      LeftDropped(nodes, dp, refs);
      if ip != 0 {
        ip := CreateFound(dp, name, kind, ip, off);
        return;
      }
      ip := CreateNew(dp, name, kind, wrote);
    }

    // The name is there already.
    method CreateFound(dp: int, name: string, kind: int, found: int, ghost off: int) returns (ip: int)
      requires Valid() && IsDir(dp) && refs[dp] >= 1
      requires 0 <= off < |nodes[dp].entries| && nodes[dp].entries[off] == Entry(found, name) && found != 0
      modifies this
      ensures Valid() && pending == old(pending) && |nodes| == |old(nodes)|
      ensures refs == if ip != 0 then Ref(Ref(old(refs), dp, -1), ip, 1) else Ref(old(refs), dp, -1)
      ensures ip != 0 ==> && nodes == Released(old(nodes), dp, old(refs)[dp] == 1)
                          && ip == found && 0 < ip < |nodes| && nodes[ip].kind in {T_FILE, T_DEVICE}
      ensures ip == 0 ==> LeftAsWas(old(nodes), dp, old(refs), nodes)
      ensures ip != 0 <==> kind == T_FILE && CanOpen(old(nodes), dp, name)
    {
      hide LinksTrue, Apart;
      ghost var a, last := nodes, refs[dp] == 1;
      ReleaseKeeps(nodes, pending, dp, last);
      FoundRanged(a, pending, dp, off);
      FoundOnce(a, pending, dp, off);
      Iget(found);
      RefBack(Ref(old(refs), dp, -1), found);
      RefSwap(old(refs), found, 1, dp);
      Iput(dp);
      if kind == T_FILE && nodes[found].kind in {T_FILE, T_DEVICE} { return found; }
      ReleaseKeeps(nodes, pending, found, refs[found] == 1);
      LeftFound(a, dp, found, old(refs));
      Iput(found);
      return 0;
    }

    method CreateNew(dp: int, name: string, kind: int, wrote: (bool, bool, bool)) returns (ip: int)
      requires Valid() && IsDir(dp) && kind in {T_DIR, T_FILE, T_DEVICE} && Unused(nodes[dp].entries, name)
      requires refs[dp] >= 1
      modifies this
      ensures refs == if ip != 0 then Ref(Ref(old(refs), dp, -1), ip, 1) else Ref(old(refs), dp, -1)
      ensures pending == old(pending) && |nodes| == |old(nodes)|
      ensures ip != 0 <==> CanCreate(old(nodes), dp, kind, wrote)
      ensures ip != 0 ==> exists k :: CreatedAt(old(nodes), dp, name, kind, ip, k, old(refs), nodes)
      ensures ip == 0 ==> Valid() && LeftAsWas(old(nodes), dp, old(refs), nodes)
      ensures Linked(old(nodes), dp) ==> Valid()
    {
      hide LinksTrue, Linked, Unused, Created, HasRoom, LeftAsWas, Ref;
      ghost var a := nodes;
      ip := Ialloc(kind);
      if ip == 0 {
        LeftDropped(nodes, dp, refs);
        ReleaseKeeps(nodes, pending, dp, refs[dp] == 1);
        Iput(dp);
        return;
      }
      Iget(ip);
      RefBack(old(refs), ip);
      RefSwap(old(refs), ip, 1, dp);
      RefChange(old(refs), ip, 1);
      var ok := Furnish(dp, name, kind, wrote, ip, a, old(refs));
      if !ok {
        return 0;
      }
    }

    // A new inode gets its links, its dots and its name, or is given up.
    method Furnish(dp: int, name: string, kind: int, wrote: (bool, bool, bool), ip: int, ghost a: seq<Node>,
                   ghost r: seq<int>) returns (ok: bool)
      requires LinksTrue(a, pending) && |a| == |pending| <= 65536 && 0 < dp < |a| && a[dp].kind == T_DIR
      requires kind in {T_DIR, T_FILE, T_DEVICE} && Unused(a[dp].entries, name)
      requires 0 < ip < |a| && a[ip].kind == 0 && nodes == a[ip := Node(kind, 0, [])]
      requires RefsOk(|nodes|, refs) && |r| == |a| && r[dp] >= 1 && refs == Ref(r, ip, 1)
      requires refs[dp] == r[dp] && refs[ip] == r[ip] + 1 >= 1
      modifies this
      ensures pending == old(pending) && |nodes| == |old(nodes)| && RefsOk(|nodes|, refs)
      ensures refs == if ok then Ref(old(refs), dp, -1) else Ref(Ref(old(refs), ip, -1), dp, -1)
      ensures ok <==> HasRoom(a[dp]) && wrote.2 && (kind == T_DIR ==> wrote.0 && wrote.1)
      ensures ok ==> exists k :: CreatedAt(a, dp, name, kind, ip, k, r, nodes)
      ensures !ok ==> LinksTrue(nodes, pending) && LeftAsWas(a, dp, r, nodes)
      ensures Linked(a, dp) ==> LinksTrue(nodes, pending)
    {
      hide LinksTrue, Linked, Unused, Created, HasRoom, LeftAsWas, Ref;
      TrueAt(a, pending, ip);
      nodes := nodes[ip := Node(kind, 1, [])];
      var off;
      ok, off := true, 0;
      if kind == T_DIR {
        ok := AddDots(ip, dp, wrote.0, wrote.1);
      }
      ghost var n := nodes[ip];
      assert nodes == a[ip := n];
      if ok {
        ok, off := EnterNew(dp, name, kind, ip, wrote.2, a);
      }
      if !ok {
        AbandonedTrue(a, pending, dp, ip, n.(nlink := 0));
        assert nodes[ip := n.(nlink := 0)] == a[ip := n.(nlink := 0)];
        Abandon(ip, dp);
        LeftAbandoned(a, dp, ip, n.(nlink := 0), r);
        return;
      }
      CreatedEnd(a, pending, dp, name, kind, ip, off, r[dp] == 1);
      Iput(dp);
      assert CreatedAt(a, dp, name, kind, ip, off, r, nodes);
    }

    // The new inode gets its name, and a new directory's parent its "..".
    method EnterNew(dp: int, name: string, kind: int, ip: int, wrote: bool, ghost a: seq<Node>)
      returns (ok: bool, off: int)
      requires IsDir(dp) && 0 < ip < |a| && 0 < dp < |a| && ip != dp && a[ip].kind == 0 && a[ip].nlink == 0
      requires nodes == a[ip := Node(kind, 1, if kind == T_DIR then [Entry(ip, "."), Entry(dp, "..")] else [])]
      modifies this`nodes
      ensures ok <==> wrote && Unused(a[dp].entries, name) && HasRoom(a[dp])
      ensures !ok ==> nodes == old(nodes)
      ensures ok ==> CanMake(a, dp, off, ip) && nodes == Created(a, dp, name, kind, ip, off)
    {
      hide Created;
      ok, off := DirLink(dp, name, ip, wrote);
      if ok {
        if kind == T_DIR {
          nodes := AddLinks(nodes, dp, 1);
        }
        CreatedSteps(a, dp, name, kind, ip, off, nodes);
      }
    }

    method AddDots(ip: int, dp: int, first: bool, second: bool) returns (ok: bool)
      requires IsDir(ip) && nodes[ip].entries == [] && ip != dp
      modifies this`nodes
      ensures |nodes| == |old(nodes)| && nodes[ip].entries <= [Entry(ip, "."), Entry(dp, "..")]
      ensures nodes == old(nodes)[ip := old(nodes)[ip].(entries := nodes[ip].entries)]
      ensures ok <==> first && second
      ensures ok ==> nodes[ip].entries == [Entry(ip, "."), Entry(dp, "..")]
    {
      var off;
      ok, off := DirLink(ip, ".", ip, first);
      if ok {
        assert nodes[ip].entries == [Entry(ip, ".")];
        ok, off := DirLink(ip, "..", dp, second);
      }
    }

    // The failing end of create: no links, and both references dropped.
    method Abandon(ip: int, dp: int)
      requires 0 < ip < |nodes| && 0 < dp < |nodes| && ip != dp
      requires LinksTrue(nodes[ip := nodes[ip].(nlink := 0)], pending)
      requires RefsOk(|nodes|, refs) && refs[ip] >= 1 && refs[dp] >= 1
      modifies this`nodes, this`refs
      ensures refs == Ref(Ref(old(refs), ip, -1), dp, -1) && RefsOk(|nodes|, refs)
      ensures nodes
           == Released(Released(old(nodes)[ip := old(nodes)[ip].(nlink := 0)], ip, old(refs)[ip] == 1), dp,
                       old(refs)[dp] == 1)
      ensures LinksTrue(nodes, pending)
    {
      hide LinksTrue;
      ghost var lastDp := refs[dp] == 1;
      nodes := nodes[ip := nodes[ip].(nlink := 0)];
      ReleaseKeeps(nodes, pending, ip, refs[ip] == 1);
      Iput(ip);
      ReleaseKeeps(nodes, pending, dp, lastDp);
      Iput(dp);
    }
  }

  lemma CreatedSteps(a: seq<Node>, dp: int, name: string, kind: int, i: int, k: int, b: seq<Node>)
    requires CanMake(a, dp, k, i)
    requires var n := Node(kind, 1, if kind == T_DIR then [Entry(i, "."), Entry(dp, "..")] else []);
      var c := SetEntry(a[i := n], dp, k, Entry(i, name));
      b == if kind == T_DIR then AddLinks(c, dp, 1) else c
    ensures b == Created(a, dp, name, kind, i, k)
  {
  }

  // Slot `k` holds a name that may be removed: not of a directory in use.
  predicate Removable(a: seq<Node>, dp: int, name: string, k: int) {
    && 0 <= dp < |a| && 0 <= k < |a[dp].entries|
    && !Dot(name) && a[dp].entries[k].name == name && a[dp].entries[k].inum != 0
    && var i := a[dp].entries[k].inum;
      0 < i < |a| && i != dp && (a[i].kind == T_DIR ==> Empty(a[i].entries))
  }

  function Removed(a: seq<Node>, dp: int, k: int): seq<Node>
    requires 0 <= dp < |a| && 0 <= k < |a[dp].entries| && 0 < a[dp].entries[k].inum < |a| && a[dp].entries[k].inum != dp
  {
    var i := a[dp].entries[k].inum;
    var n := a[dp].(entries := PutAt(a[dp].entries, k, Entry(0, "")));
    if a[i].kind == T_DIR then AddLinks(AddLinks(a[dp := n], dp, -1), i, -1) else AddLinks(a[dp := n], i, -1)
  }

  predicate RemovedAt(a: seq<Node>, dp: int, name: string, k: int, last: bool, b: seq<Node>) {
    Removable(a, dp, name, k) && b == Released(Removed(a, dp, k), a[dp].entries[k].inum, last)
  }

  // An inode that loses its last name and its last reference is free.
  predicate GoneAfter(a: seq<Node>, dp: int, k: int, last: bool, b: seq<Node>)
    requires 0 <= dp < |a| && 0 <= k < |a[dp].entries|
  {
    var i := a[dp].entries[k].inum;
    last && 0 < i < |a| && a[i].nlink == 1 ==> i < |b| && b[i].kind == 0
  }

  lemma FoundOnce(a: seq<Node>, pa: seq<int>, dp: int, k: int)
    requires LinksTrue(a, pa) && 0 < dp < |a| && a[dp].kind == T_DIR && 0 <= k < |a[dp].entries|
    requires a[dp].entries[k].inum != 0
    ensures var es := a[dp].entries;
      forall j :: 0 <= j < |es| && es[j].inum != 0 && es[j].name == es[k].name ==> j == k
  {
    var place :| Tree(a, place);
    assert NodeOk(a[dp], |a|);
  }

  lemma FoundRanged(a: seq<Node>, pa: seq<int>, dp: int, k: int)
    requires LinksTrue(a, pa) && 0 < dp < |a| && a[dp].kind == T_DIR && 0 <= k < |a[dp].entries|
    ensures 0 <= a[dp].entries[k].inum < |a|
  {
    var place :| Tree(a, place);
    assert NodeOk(a[dp], |a|);
  }

  lemma RemovedTrue(a: seq<Node>, pa: seq<int>, dp: int, name: string, k: int)
    requires LinksTrue(a, pa) && Removable(a, dp, name, k) && Slot(a, dp, k) && k >= 2
    requires a[a[dp].entries[k].inum].kind != 0 && a[a[dp].entries[k].inum].nlink >= 1
    ensures LinksTrue(Removed(a, dp, k), pa) && Removed(a, dp, k)[dp].nlink > 0
  {
    hide LinksTrue;
    var i := a[dp].entries[k].inum;
    if a[i].kind == T_DIR {
      RmdirKeeps(a, pa, dp, k, i);
      assert Removed(a, dp, k) == Unmade(a, dp, k, i);
    } else {
      UnlinkKeeps(a, pa, dp, k, i);
    }
  }

  function Created(a: seq<Node>, dp: int, name: string, kind: int, i: int, k: int): seq<Node>
    requires CanMake(a, dp, k, i)
  {
    if kind == T_DIR then Made(a, dp, k, i, name) else SetEntry(a[i := Node(kind, 1, [])], dp, k, Entry(i, name))
  }

  predicate CreatedAt(a: seq<Node>, dp: int, name: string, kind: int, i: int, k: int, refs: seq<int>, b: seq<Node>) {
    && |refs| == |a| && CanMake(a, dp, k, i) && 0 <= dp < |a|
    && b == Released(Created(a, dp, name, kind, i, k), dp, refs[dp] == 1)
  }

  /** A new name keeps the counts true if and only if its directory is linked. */
  lemma CreateExact(a: seq<Node>, pa: seq<int>, dp: int, name: string, kind: int, i: int, k: int)
    requires LinksTrue(a, pa) && CanMake(a, dp, k, i) && Unused(a[dp].entries, name) && name != "." && kind != 0
    ensures LinksTrue(Created(a, dp, name, kind, i, k), pa) <==> Linked(a, dp)
  {
    hide Tree, Counts;
    TrueAt(a, pa, i);
    if kind == T_DIR {
      MakeExact(a, pa, dp, k, i, name);
    } else {
      var place :| Tree(a, place);
      var n := Node(kind, 1, []);
      SideTree(a, place, i, n);
      SideCounts(a, pa, i, n, 1);
      NameExact(a[i := n], pa[i := 1], dp, k, Entry(i, name));
      assert pa[i := 1][i := 0] == pa;
    }
  }

  lemma CreatedTrue(a: seq<Node>, pa: seq<int>, dp: int, name: string, kind: int, i: int, k: int)
    requires LinksTrue(a, pa) && CanMake(a, dp, k, i) && Unused(a[dp].entries, name) && Linked(a, dp) && kind != 0
    ensures LinksTrue(Created(a, dp, name, kind, i, k), pa)
  {
    hide LinksTrue;
    NotDot(a, pa, dp, name);
    CreateExact(a, pa, dp, name, kind, i, k);
  }

  /**
   * The condition is needed: a file created in a directory that was removed while
   * still in use gets a count of 1 and a name nobody can reach.
   */
  lemma CreateInRemoved()
    ensures exists a: seq<Node>, pa, dp, name, i, k ::
      && LinksTrue(a, pa) && CanMake(a, dp, k, i) && Unused(a[dp].entries, name)
      && !LinksTrue(Created(a, dp, name, T_FILE, i, k), pa)
  {
    hide LinksTrue;
    var root := Image([], 0, 4);
    var n := Node(T_DIR, 0, [Entry(2, "."), Entry(ROOTINO, "..")]);
    var a, pa := root[2 := n], [0, 0, 0, 0];
    assert LinksTrue(a, pa) by {
      hide LinksTrue;
      ImageTrue([], 0, 4, pa);
      assert n.entries <= [Entry(2, "."), Entry(ROOTINO, "..")];
      AbandonedTrue(root, pa, ROOTINO, 2, n);
    }
    CreateExact(a, pa, 2, "f", T_FILE, 3, 2);
    assert !Linked(a, 2);
    assert CanMake(a, 2, 2, 3) && Unused(a[2].entries, "f");
  }

  lemma CreatedEnd(a: seq<Node>, pa: seq<int>, dp: int, name: string, kind: int, i: int, k: int, last: bool)
    requires LinksTrue(a, pa) && CanMake(a, dp, k, i) && Unused(a[dp].entries, name) && kind != 0
    ensures |Created(a, dp, name, kind, i, k)| == |a|
    ensures Linked(a, dp) ==> LinksTrue(Released(Created(a, dp, name, kind, i, k), dp, last), pa)
  {
    hide LinksTrue;
    if Linked(a, dp) {
      CreatedTrue(a, pa, dp, name, kind, i, k);
      ReleaseKeeps(Created(a, dp, name, kind, i, k), pa, dp, last);
    }
  }

  // An inode given up before it got a name.
  lemma AbandonedTrue(a: seq<Node>, pa: seq<int>, dp: int, i: int, n: Node)
    requires LinksTrue(a, pa) && 0 < i < |a| && 0 <= dp < |a| && a[i].kind == 0 && n.nlink == 0 && n.kind != 0
    requires n.entries <= [Entry(i, "."), Entry(dp, "..")]
    ensures LinksTrue(a[i := n], pa)
  {
    hide Tree, Counts;
    TrueAt(a, pa, i);
    var place :| Tree(a, place);
    SideTree(a, place, i, n);
    SideCounts(a, pa, i, n, 0);
    assert pa[i := 0] == pa;
  }
}
