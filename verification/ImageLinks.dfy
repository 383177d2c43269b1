/** The image mkfs writes, read as inodes and directory entries, starts with true link counts. */
module ImageLinks {
  import opened Blocks
  import opened FsLayout
  import opened FsOwner
  import opened Fs
  import M = Mkfs
  import L = LinkSpec

  // ---- directory entries as the kernel reads them

  /** A name ends at its first NUL, or fills its field. */
  function UpToNul(bytes: seq<Byte>): string {
    if bytes == [] || bytes[0] == 0 then "" else [bytes[0] as char] + UpToNul(bytes[1..])
  }

  function Chars(bytes: seq<Byte>): string {
    seq(|bytes|, i requires 0 <= i < |bytes| => bytes[i] as char)
  }

  function EntryAt(c: seq<Byte>, k: nat): L.Entry
    requires 16 * k + 16 <= |c|
  {
    var lo: int, hi: int := c[16 * k], c[16 * k + 1];
    L.Entry(lo + 256 * hi, UpToNul(c[16 * k + 2..16 * k + 16]))
  }

  function EntriesOf(c: seq<Byte>): (es: seq<L.Entry>)
    ensures |es| == |c| / 16
    ensures forall k :: 0 <= k < |es| ==> 16 * k + 16 <= |c| && es[k] == EntryAt(c, k)
  {
    seq(|c| / 16, k requires 0 <= k < |c| / 16 => EntryAt(c, k))
  }

  /** An inode with its entries, if it is a directory. */
  ghost function NodeOf(d: seq<Block>, ip: Inode): L.Node {
    L.Node(ip.typ, ip.nlink, if ip.typ == T_DIR then EntriesOf(Content(d, ip)) else [])
  }

  ghost function NodesOf(d: seq<Block>, m: seq<Inode>): (ns: seq<L.Node>)
    ensures |ns| == |m| && forall i :: 0 <= i < |m| ==> ns[i] == NodeOf(d, m[i])
  {
    seq(|m|, i requires 0 <= i < |m| => NodeOf(d, m[i]))
  }

  // ---- reading back what was written

  lemma {:induction false} NameRead(name: M.Name, zeros: nat)
    requires 0 !in name
    ensures UpToNul(name + seq(zeros, _ => 0)) == Chars(name)
    decreases |name|
  {
    var all := name + seq(zeros, _ => 0);
    if name != [] {
      assert name[0] in name && all[1..] == name[1..] + seq(zeros, _ => 0);
      NameRead(name[1..], zeros);
      assert Chars(name) == [name[0] as char] + Chars(name[1..]);
    }
  }

  lemma DirentRead(inum: nat, name: M.Name)
    requires 0 < inum < 0x1_0000 && 0 !in name
    ensures EntryAt(M.Dirent(inum, name), 0) == L.Entry(inum, Chars(name))
  {
    var e := M.Dirent(inum, name);
    assert e[2..16] == name + seq(M.DIRSIZ - |name|, _ => 0);
    NameRead(name, M.DIRSIZ - |name|);
  }

  /** The entries of two parts of a directory are those of the one and then those of the other. */
  lemma EntryOfPart(c: seq<Byte>, n: nat, e: seq<Byte>, m: nat, k: nat)
    requires |c| == 16 * n && |e| == 16 * m && k < n + m
    ensures EntryAt(c + e, k) == if k < n then EntryAt(c, k) else EntryAt(e, k - n)
  {
    hide UpToNul;
    if k < n {
      assert (c + e)[16 * k + 2..16 * k + 16] == c[16 * k + 2..16 * k + 16];
    } else {
      assert (c + e)[16 * k + 2..16 * k + 16] == e[16 * (k - n) + 2..16 * (k - n) + 16];
    }
  }

  lemma {:induction false} EntriesRead(files: seq<M.Source>, k: nat)
    requires |files| + 2 <= 0x1_0000 && k < |files| + 2 && forall f :: 0 <= f < |files| ==> 0 !in files[f].name
    ensures EntryAt(M.Entries(files), k)
         == L.Entry(if k < 2 then ROOTINO else k,
                    if k == 0 then "." else if k == 1 then ".." else Chars(files[k - 2].name))
  {
    hide M.Dirent, EntryAt, Chars;
    if files == [] {
      DirentRead(ROOTINO, [46]);
      DirentRead(ROOTINO, [46, 46]);
      EntryOfPart(M.Dirent(ROOTINO, [46]), 1, M.Dirent(ROOTINO, [46, 46]), 1, k);
      DotChars();
    } else {
      var last := |files| - 1;
      EntryOfPart(M.Entries(files[..last]), last + 2, M.Dirent(last + 2, files[last].name), 1, k);
      if k == last + 2 {
        DirentRead(last + 2, files[last].name);
      } else {
        EntriesRead(files[..last], k);
      }
    }
  }

  lemma DotChars()
    ensures Chars([46]) == "." && Chars([46, 46]) == ".."
  {
  }

  lemma ZeroRead(n: nat, k: nat)
    requires 16 * k + 16 <= n
    ensures EntryAt(M.Zeros(n), k) == L.Entry(0, "")
  {
  }

  function NamesOf(files: seq<M.Source>): seq<string> {
    seq(|files|, f requires 0 <= f < |files| => Chars(files[f].name))
  }

  lemma RootEntry(files: seq<M.Source>, pad: nat, k: nat)
    requires |files| + 2 <= 0x1_0000 && k < |files| + 2 + pad && forall f :: 0 <= f < |files| ==> 0 !in files[f].name
    ensures |M.Entries(files) + M.Zeros(16 * pad)| == 16 * (|files| + 2 + pad)
    ensures EntryAt(M.Entries(files) + M.Zeros(16 * pad), k) ==
            if k < 2 then L.Entry(ROOTINO, if k == 0 then "." else "..")
            else if k < |files| + 2 then L.Entry(k, Chars(files[k - 2].name)) else L.Entry(0, "")
  {
    hide M.Entries, M.Zeros, EntryAt, Chars;
    ZeroLength(16 * pad);
    EntryOfPart(M.Entries(files), |files| + 2, M.Zeros(16 * pad), pad, k);
    if k < |files| + 2 {
      EntriesRead(files, k);
    } else {
      ZeroRead(16 * pad, k - |files| - 2);
    }
  }

  lemma ListingAt(names: seq<string>, pad: nat, k: nat)
    requires k < |names| + 2 + pad
    ensures |L.Listing(names, pad)| == |names| + 2 + pad
    ensures L.Listing(names, pad)[k] ==
            if k < 2 then L.Entry(ROOTINO, if k == 0 then "." else "..")
            else if k < |names| + 2 then L.Entry(k, names[k - 2]) else L.Entry(0, "")
  {
  }

  lemma SameEntry(files: seq<M.Source>, pad: nat, k: nat)
    requires |files| + 2 <= 0x1_0000 && k < |files| + 2 + pad && forall f :: 0 <= f < |files| ==> 0 !in files[f].name
    ensures |M.Entries(files) + M.Zeros(16 * pad)| == 16 * (|files| + 2 + pad)
    ensures |L.Listing(NamesOf(files), pad)| == |files| + 2 + pad
    ensures EntryAt(M.Entries(files) + M.Zeros(16 * pad), k) == L.Listing(NamesOf(files), pad)[k]
  {
    hide M.Entries, M.Zeros, EntryAt, L.Listing, Chars, NamesOf;
    AsMany(files);
    RootEntry(files, pad, k);
    ListingAt(NamesOf(files), pad, k);
    if 2 <= k < |files| + 2 {
      NameAt(files, k - 2);
    }
  }

  /** The root directory read back: its dots, the files in order, and empty slots. */
  lemma RootRead(files: seq<M.Source>, pad: nat)
    requires |files| + 2 <= 0x1_0000 && forall f :: 0 <= f < |files| ==> 0 !in files[f].name
    ensures EntriesOf(M.Entries(files) + M.Zeros(16 * pad)) == L.Listing(NamesOf(files), pad)
  {
    hide M.Entries, M.Zeros, EntryAt, EntriesOf, L.Listing, Chars, NamesOf;
    var c, names, n := M.Entries(files) + M.Zeros(16 * pad), NamesOf(files), |files| + 2 + pad;
    var es, list := EntriesOf(c), L.Listing(names, pad);
    SameEntry(files, pad, 0);
    Sixteenth(|c|, n);
    forall k | 0 <= k < n
      ensures es[k] == list[k]
    {
      SameEntry(files, pad, k);
    }
  }

  lemma Sixteenth(x: nat, n: nat)
    requires x == 16 * n
    ensures x / 16 == n
  {
  }

  lemma NameAt(files: seq<M.Source>, f: nat)
    requires f < |files|
    ensures |NamesOf(files)| == |files| && NamesOf(files)[f] == Chars(files[f].name)
  {
  }

  lemma ZeroLength(n: nat)
    ensures |M.Zeros(n)| == n
  {
  }

  /** mkfs, for C strings as names: the image read back is the picture from which the link counts start. */
  method Mkfs(size: nat, ninodes: nat, nlog: nat, files: seq<M.Source>) returns (ok: bool, img: M.Image)
    requires M.Layout(size, ninodes, nlog).Valid() && |files| + 2 <= ninodes <= 0x1_0000
    requires forall f :: 0 <= f < |files| ==> 0 !in files[f].name
    ensures ok <==> M.Fits(img.sb, files)
    ensures ok && (|files| + 2) % 64 != 0 ==>
              NodesOf(img.disk, img.inodes) == L.Image(NamesOf(files), 64 - (|files| + 2) % 64, ninodes)
  {
    hide M.Fits, Content, FsValid, M.IsFile, FreeEmpty;
    ok, img := M.Mkfs(size, ninodes, nlog, files);
    if ok && (|files| + 2) % 64 != 0 {
      M.PadBytes(|files| + 2);
      ImageRead(img.disk, img.inodes, files, 64 - (|files| + 2) % 64);
    }
  }

  lemma ImageRead(d: seq<Block>, m: seq<Inode>, files: seq<M.Source>, pad: nat)
    requires |files| + 2 <= |m| <= 0x1_0000
    requires forall f :: 0 <= f < |files| ==> 0 !in files[f].name
    requires m[ROOTINO].typ == T_DIR && m[ROOTINO].nlink == 1
    requires Content(d, m[ROOTINO]) == M.Entries(files) + M.Zeros(16 * pad)
    requires forall f :: 0 <= f < |files| ==> M.IsFile(d, m[f + 2], files[f])
    requires forall i :: 0 <= i < |m| && (i == 0 || |files| + 2 <= i) ==> m[i] == Inode(0, 0, 0, NoAddrs)
    ensures NodesOf(d, m) == L.Image(NamesOf(files), pad, |m|)
  {
    hide Content, EntriesOf, M.Entries, M.Zeros, L.Listing, L.Image, NamesOf;
    var names := NamesOf(files);
    assert |names| == |files| by { AsMany(files); }
    RootRead(files, pad);
    var ns, image := NodesOf(d, m), L.Image(names, pad, |m|);
    ImageAt(names, pad, |m|, 0);
    forall i | 0 <= i < |m|
      ensures ns[i] == image[i]
    {
      ImageAt(names, pad, |m|, i);
      if 2 <= i < |files| + 2 {
        assert M.IsFile(d, m[(i - 2) + 2], files[i - 2]);
      }
    }
  }

  lemma AsMany(files: seq<M.Source>)
    ensures |NamesOf(files)| == |files|
  {
  }

  lemma ImageAt(names: seq<string>, pad: nat, ninodes: nat, i: nat)
    requires |names| + 2 <= ninodes && i < ninodes
    ensures |L.Image(names, pad, ninodes)| == ninodes
    ensures L.Image(names, pad, ninodes)[i] ==
            if i == ROOTINO then L.Node(T_DIR, 1, L.Listing(names, pad))
            else if 2 <= i < |names| + 2 then L.Node(T_FILE, 1, []) else L.Node(0, 0, [])
  {
    hide L.Listing;
  }

  /** So the counts of the image are true, if the files have different names and none is a dot. */
  lemma ImageTrue(d: seq<Block>, m: seq<Inode>, files: seq<M.Source>, names: seq<string>, zero: seq<int>)
    requires |files| + 2 <= |m| == |zero| && |files| + 66 <= L.DIRMAX && forall i :: 0 <= i < |zero| ==> zero[i] == 0
    requires names == NamesOf(files) && |names| == |files|
    requires NodesOf(d, m) == L.Image(names, 64 - (|files| + 2) % 64, |m|)
    requires forall f :: 0 <= f < |names| ==> !L.Dot(names[f])
    requires forall f, g :: 0 <= f < g < |names| ==> names[f] != names[g]
    ensures L.LinksTrue(NodesOf(d, m), zero)
  {
    hide NamesOf, NodesOf, L.Image, L.LinksTrue;
    L.ImageTrue(names, 64 - (|files| + 2) % 64, |m|, zero);
  }
}
