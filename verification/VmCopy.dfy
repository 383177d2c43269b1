/** copyout, copyin and copyinstr of kernel/vm.c: page-wise copies that do what a byte-by-byte
    translation of the user addresses would do. */
module VmCopy {
  import opened Blocks
  import opened Common
  import opened VmSpec
  import opened Vm

  ghost predicate AllReadable(ts: Tables, root: int, a: nat, n: nat) {
    forall x: nat :: a <= x < a + n ==> Readable(ts, root, x)
  }

  ghost predicate AllWritable(ts: Tables, root: int, a: nat, n: nat) {
    forall x: nat :: a <= x < a + n ==> Writable(ts, root, x)
  }

  /** Memory after one byte is stored at a user address. */
  function Poke(ts: Tables, mem: map<int, Page>, root: int, a: nat, b: Byte): map<int, Page> {
    var f := Frame(Leaf(ts, root, a / PGSIZE));
    if f in mem then mem[f := mem[f][a % PGSIZE := b]] else mem
  }

  /** ... and after bytes are stored one by one. */
  function PokeAll(ts: Tables, mem: map<int, Page>, root: int, a: nat, bytes: seq<Byte>): map<int, Page> {
    if bytes == [] then mem
    else Poke(ts, PokeAll(ts, mem, root, a, bytes[..|bytes| - 1]), root, a + |bytes| - 1, bytes[|bytes| - 1])
  }

  lemma {:induction false} PokeConcat(ts: Tables, mem: map<int, Page>, root: int, a: nat, x: seq<Byte>, y: seq<Byte>)
    ensures PokeAll(ts, mem, root, a, x + y) == PokeAll(ts, PokeAll(ts, mem, root, a, x), root, a + |x|, y)
  {
    hide Poke;
    if y == [] {
      assert x + y == x;
    } else {
      PokeConcat(ts, mem, root, a, x, y[..|y| - 1]);
      assert (x + y)[..|x + y| - 1] == x + y[..|y| - 1];
    }
  }

  /** Within one page, storing byte by byte is one copy into its frame. */
  lemma {:induction false} PokePage(ts: Tables, mem: map<int, Page>, root: int, a: nat, bytes: seq<Byte>)
    requires a % PGSIZE + |bytes| <= PGSIZE && Frame(Leaf(ts, root, a / PGSIZE)) in mem
    ensures var f, o := Frame(Leaf(ts, root, a / PGSIZE)), a % PGSIZE;
            PokeAll(ts, mem, root, a, bytes) == mem[f := mem[f][..o] + bytes + mem[f][o + |bytes|..]]
  {
    hide Leaf, Frame;
    var f, o, n := Frame(Leaf(ts, root, a / PGSIZE)), a % PGSIZE, |bytes|;
    if bytes == [] {
      assert mem[f][..o] + bytes + mem[f][o..] == mem[f];
    } else {
      PokePage(ts, mem, root, a, bytes[..n - 1]);
      InPage(a, n - 1);
      OneMoreByte(mem[f], o, bytes);
    }
  }

  lemma InPage(a: nat, k: nat)
    requires a % PGSIZE + k < PGSIZE
    ensures (a + k) / PGSIZE == a / PGSIZE && (a + k) % PGSIZE == a % PGSIZE + k
  {
  }

  lemma OneMoreByte(page: Page, o: nat, bytes: seq<Byte>)
    requires bytes != [] && o + |bytes| <= PGSIZE
    ensures var n := |bytes|;
            var was: Page := page[..o] + bytes[..n - 1] + page[o + n - 1..];
            was[o + n - 1 := bytes[n - 1]] == page[..o] + bytes + page[o + n..]
  {
  }

  /** All addresses of a page are alike. */
  lemma SamePageRights(ts: Tables, root: int, a: nat, n: nat)
    requires 0 < n && a % PGSIZE + n <= PGSIZE
    ensures AllReadable(ts, root, a, n) <==> Readable(ts, root, a)
    ensures AllWritable(ts, root, a, n) <==> Writable(ts, root, a)
  {
    hide Leaf, U, W;
    forall x: nat | a <= x < a + n
      ensures x / PGSIZE == a / PGSIZE
    {
    }
    assert Readable(ts, root, a) ==> AllReadable(ts, root, a, n);
  }

  /** A user page's frame has contents. */
  lemma ReadableFrame(m: Memory, root: int, a: nat)
    requires m.Valid() && IsRoot(m.use, root) && Readable(m.ts, root, a)
    ensures Frame(Leaf(m.ts, root, a / PGSIZE)) in m.mem && Frame(Leaf(m.ts, root, a / PGSIZE)) > 0
  {
    LeafUse(m.ts, m.use, root, a / PGSIZE);
    PoolMem(m.lo, m.hi, m.free, m.use, m.mem);
    PoolUses(m.lo, m.hi, m.free, m.use);
  }

  /** walkaddr on a page boundary: the frame of a user page, or NONE. */
  method Walkaddr(m: Memory, root: int, va: nat) returns (f: int)
    requires m.Valid() && IsRoot(m.use, root)
    modifies m`free, m`ts, m`mem, m`use
    ensures m.ts == old(m.ts) && m.free == old(m.free) && m.mem == old(m.mem) && m.use == old(m.use)
    ensures f == if Readable(m.ts, root, va) then Frame(Leaf(m.ts, root, va / PGSIZE)) else NONE
  {
    hide Tree, Whole, Frames, AllFrames, U, V, TableAt, PX, Leaf, Frame;
    if va >= MAXPAGE * PGSIZE {
      return NONE;
    }
    var w := m.Walk(root, va, false);
    GrewSelf(m.ts, m.use, m.mem);
    WalkedLeaf(m.ts, m.use, m.mem, m.ts, m.use, m.mem, root, va / PGSIZE);
    if w.NoTable? {
      return NONE;
    }
    var pte := m.ts[w.t][w.i];
    if !V(pte) {
      return NONE;
    }
    LeafUse(m.ts, m.use, root, va / PGSIZE);
    if !U(pte) {
      return NONE;
    }
    return Frame(pte);
  }

  /** A copy that has come to `at` goes on for n bytes in one page, out of `total`. */
  lemma Advance(ts: Tables, root: int, a: nat, at: nat, n: nat, total: nat)
    requires 0 < n <= PGSIZE - (a + at) % PGSIZE && at + n <= total
    ensures AllReadable(ts, root, a, at) && Readable(ts, root, a + at) ==> AllReadable(ts, root, a, at + n)
    ensures AllWritable(ts, root, a, at) && Writable(ts, root, a + at) ==> AllWritable(ts, root, a, at + n)
    ensures AllReadable(ts, root, a, total) ==> Readable(ts, root, a + at)
    ensures AllWritable(ts, root, a, total) ==> Writable(ts, root, a + at)
  {
    hide Readable, Writable;
    SamePageRights(ts, root, a + at, n);
  }

  /** One page of copyout. */
  method CopyoutPage(m: Memory, root: int, va: nat, bytes: seq<Byte>) returns (ok: bool)
    requires m.Valid() && IsRoot(m.use, root) && 0 < |bytes| <= PGSIZE - va % PGSIZE
    modifies m`free, m`ts, m`mem, m`use
    ensures m.Valid() && m.ts == old(m.ts) && m.use == old(m.use) && m.free == old(m.free)
    ensures ok <==> Writable(m.ts, root, va)
    ensures m.mem == if ok then PokeAll(m.ts, old(m.mem), root, va, bytes) else old(m.mem)
  {
    hide Tree, Whole, Frames, U, V, W, TableAt, PX, Leaf, Frame, PokeAll;
    var v := va / PGSIZE;
    if v >= MAXPAGE {
      return false;
    }
    var w := m.Walk(root, va, false);
    GrewSelf(m.ts, m.use, m.mem);
    WalkedLeaf(m.ts, m.use, m.mem, m.ts, m.use, m.mem, root, v);
    if w.NoTable? || !V(m.ts[w.t][w.i]) || !U(m.ts[w.t][w.i]) || !W(m.ts[w.t][w.i]) {
      if w.At? && V(m.ts[w.t][w.i]) {
        LeafUse(m.ts, m.use, root, v);
      }
      return false;
    }
    LeafUse(m.ts, m.use, root, v);
    ReadableFrame(m, root, va);
    PokePage(m.ts, m.mem, root, va, bytes);
    var f, o := Frame(m.ts[w.t][w.i]), va % PGSIZE;
    m.mem := m.mem[f := m.mem[f][..o] + bytes + m.mem[f][o + |bytes|..]];
    return true;
  }

  /** copyout: succeeds exactly when every byte's page may be written by the user, and then memory is as
      if the bytes had been stored one by one; on failure it stopped before the first such page that may not. */
  method Copyout(m: Memory, root: int, dstva: nat, src: seq<Byte>) returns (ok: bool, ghost done: nat)
    requires m.Valid() && IsRoot(m.use, root)
    modifies m`free, m`ts, m`mem, m`use
    ensures m.Valid() && m.ts == old(m.ts) && m.use == old(m.use) && m.free == old(m.free)
    ensures ok <==> AllWritable(m.ts, root, dstva, |src|)
    ensures done <= |src| && m.mem == PokeAll(m.ts, old(m.mem), root, dstva, src[..done])
    ensures AllWritable(m.ts, root, dstva, done)
    ensures done < |src| <==> !ok
    ensures !ok ==> !Writable(m.ts, root, dstva + done)
  {
    hide Memory.Valid, Tree, Whole, Frames, AllFrames, Writable, AllWritable, PokeAll, IsRoot;
    done := 0;
    var at := 0;
    ghost var ts, mem := m.ts, m.mem;
    NoneNeeded(m.ts, m.mem, root, dstva);
    assert src[..0] == [];
    while at < |src|
      invariant Copied(m, ts, mem, root, dstva, src, at) && m.use == old(m.use) && m.free == old(m.free) && done == at
    {
      var n := CopyoutRound(m, root, dstva, src, at, ts, mem);
      if n == 0 {
        return false, done;
      }
      at := at + n;
      done := at;
    }
    return true, done;
  }

  /** Where copyout stands after `at` bytes. */
  ghost predicate Copied(m: Memory, ts: Tables, mem: map<int, Page>, root: int, a: nat, src: seq<Byte>, at: nat)
    reads m
  {
    && m.Valid() && IsRoot(m.use, root) && m.ts == ts && at <= |src| && AllWritable(ts, root, a, at)
    && m.mem == PokeAll(ts, mem, root, a, src[..at])
  }

  method CopyoutRound(m: Memory, root: int, dstva: nat, src: seq<Byte>, at: nat, ghost ts: Tables,
                      ghost mem: map<int, Page>) returns (n: nat)
    requires Copied(m, ts, mem, root, dstva, src, at) && at < |src|
    modifies m`free, m`ts, m`mem, m`use
    ensures m.use == old(m.use) && m.free == old(m.free) && at + n <= |src|
    ensures Copied(m, ts, mem, root, dstva, src, at + n)
    ensures n == 0 ==> !Writable(ts, root, dstva + at) && !AllWritable(ts, root, dstva, |src|)
  {
    hide Memory.Valid, Tree, Whole, Frames, AllFrames, Writable, AllWritable, PokeAll, IsRoot;
    var va := dstva + at;
    n := PGSIZE - va % PGSIZE;
    if n > |src| - at {
      n := |src| - at;
    }
    Advance(ts, root, dstva, at, n, |src|);
    PokeNext(ts, mem, root, dstva, src, at, n);
    var ok := CopyoutPage(m, root, va, src[at..at + n]);
    if !ok {
      n := 0;
    }
  }

  lemma PokeNext(ts: Tables, mem: map<int, Page>, root: int, a: nat, src: seq<Byte>, at: nat, n: nat)
    requires at + n <= |src|
    ensures PokeAll(ts, mem, root, a, src[..at + n])
         == PokeAll(ts, PokeAll(ts, mem, root, a, src[..at]), root, a + at, src[at..at + n])
  {
    hide PokeAll;
    PokeConcat(ts, mem, root, a, src[..at], src[at..at + n]);
    assert src[..at] + src[at..at + n] == src[..at + n];
  }

  lemma NoneNeeded(ts: Tables, mem: map<int, Page>, root: int, a: nat)
    ensures AllReadable(ts, root, a, 0) && AllWritable(ts, root, a, 0)
    ensures PokeAll(ts, mem, root, a, []) == mem && Bytes(ts, mem, root, a, 0) == []
  {
  }

  /** The bytes at a range of user addresses. */
  function Bytes(ts: Tables, mem: map<int, Page>, root: int, a: nat, n: nat): (s: seq<Byte>)
    ensures |s| == n
  {
    seq<Byte>(n, i requires 0 <= i => Peek(ts, mem, root, a + i))
  }

  /** In one page they are a slice of its frame. */
  lemma MoreBytes(ts: Tables, mem: map<int, Page>, root: int, a: nat, at: nat, n: nat)
    requires n <= PGSIZE - (a + at) % PGSIZE && Frame(Leaf(ts, root, (a + at) / PGSIZE)) in mem
    ensures var f, o := Frame(Leaf(ts, root, (a + at) / PGSIZE)), (a + at) % PGSIZE;
            Bytes(ts, mem, root, a, at + n) == Bytes(ts, mem, root, a, at) + mem[f][o..o + n]
  {
    hide Leaf, Frame;
    var f, o := Frame(Leaf(ts, root, (a + at) / PGSIZE)), (a + at) % PGSIZE;
    var all := Bytes(ts, mem, root, a, at) + mem[f][o..o + n];
    forall i | 0 <= i < at + n
      ensures Bytes(ts, mem, root, a, at + n)[i] == all[i]
    {
      assert Bytes(ts, mem, root, a, at + n)[i] == Peek(ts, mem, root, a + i);
      if i < at {
        assert all[i] == Bytes(ts, mem, root, a, at)[i];
      } else {
        assert (a + i) / PGSIZE == (a + at) / PGSIZE && (a + i) % PGSIZE == o + (i - at);
      }
    }
  }

  /** copyin: succeeds exactly when every byte's page may be read by the user, and gives those bytes. */
  method Copyin(m: Memory, root: int, srcva: nat, len: nat) returns (r: Option<seq<Byte>>)
    requires m.Valid() && IsRoot(m.use, root)
    modifies m`free, m`ts, m`mem, m`use
    ensures m.ts == old(m.ts) && m.use == old(m.use) && m.free == old(m.free) && m.mem == old(m.mem)
    ensures r == if AllReadable(m.ts, root, srcva, len) then Some(Bytes(m.ts, m.mem, root, srcva, len)) else None
  {
    hide Memory.Valid, Tree, Whole, Frames, AllFrames, Readable, AllReadable, Leaf, Frame, Bytes, IsRoot;
    var dst: seq<Byte> := [];
    NoneNeeded(m.ts, m.mem, root, srcva);
    while |dst| < len
      invariant m.ts == old(m.ts) && m.use == old(m.use) && m.free == old(m.free) && m.mem == old(m.mem)
      invariant |dst| <= len && AllReadable(m.ts, root, srcva, |dst|) && dst == Bytes(m.ts, m.mem, root, srcva, |dst|)
      decreases len - |dst|
    {
      var va, at := srcva + |dst|, |dst|;
      var f := Walkaddr(m, root, va);
      var n := PGSIZE - va % PGSIZE;
      if n > len - at {
        n := len - at;
      }
      Advance(m.ts, root, srcva, at, n, len);
      if f == NONE {
        if Readable(m.ts, root, va) {
          ReadableFrame(m, root, va);
        }
        return None;
      }
      ReadableFrame(m, root, va);
      MoreBytes(m.ts, m.mem, root, srcva, at, n);
      dst := dst + m.mem[f][va % PGSIZE..va % PGSIZE + n];
    }
    return Some(dst);
  }

  /** The user has a string of length k at a: readable with its NUL, and no NUL before. */
  ghost predicate StringAt(ts: Tables, mem: map<int, Page>, root: int, a: nat, k: nat) {
    && AllReadable(ts, root, a, k + 1) && Peek(ts, mem, root, a + k) == 0
    && NoNul(Bytes(ts, mem, root, a, k))
  }

  predicate NoNul(s: seq<Byte>) {
    forall i :: 0 <= i < |s| ==> s[i] != 0
  }

  /** copyinstr: gives the user's string if it and its NUL fit into max bytes, and fails if there is no
      such string. */
  method Copyinstr(m: Memory, root: int, srcva: nat, max: nat) returns (r: Option<seq<Byte>>)
    requires m.Valid() && IsRoot(m.use, root)
    modifies m`free, m`ts, m`mem, m`use
    ensures m.ts == old(m.ts) && m.use == old(m.use) && m.free == old(m.free) && m.mem == old(m.mem)
    ensures r.Some? ==> && |r.value| < max && StringAt(m.ts, m.mem, root, srcva, |r.value|)
                        && r.value == Bytes(m.ts, m.mem, root, srcva, |r.value|)
    ensures r.None? ==> forall k: nat :: k < max ==> !StringAt(m.ts, m.mem, root, srcva, k)
  {
    hide Memory.Valid, Tree, Whole, Frames, AllFrames, Readable, AllReadable, Leaf, Frame, Bytes, IsRoot;
    var dst: seq<Byte> := [];
    NoneNeeded(m.ts, m.mem, root, srcva);
    while |dst| < max
      invariant m.ts == old(m.ts) && m.use == old(m.use) && m.free == old(m.free) && m.mem == old(m.mem)
      invariant |dst| <= max && AllReadable(m.ts, root, srcva, |dst|) && dst == Bytes(m.ts, m.mem, root, srcva, |dst|)
      invariant NoNul(dst)
      decreases max - |dst|
    {
      var va, at := srcva + |dst|, |dst|;
      var f := Walkaddr(m, root, va);
      var n := PGSIZE - va % PGSIZE;
      if n > max - at {
        n := max - at;
      }
      if f == NONE {
        NoString(m, root, srcva, dst, max);
        return None;
      }
      ReadableFrame(m, root, va);
      var o, j := va % PGSIZE, 0;
      while j < n
        invariant m.ts == old(m.ts) && m.use == old(m.use) && m.free == old(m.free) && m.mem == old(m.mem)
        invariant 0 <= j <= n && |dst| == at + j && AllReadable(m.ts, root, srcva, at + j)
        invariant dst == Bytes(m.ts, m.mem, root, srcva, at + j) && NoNul(dst)
      {
        OneByte(m.ts, m.mem, root, srcva, at, j, max);
        if m.mem[f][o + j] == 0 {
          return Some(dst);
        }
        dst := dst + [m.mem[f][o + j]];
        j := j + 1;
      }
    }
    NoShortString(m.ts, m.mem, root, srcva, max);
    return None;
  }

  /** The next byte in the page of address a + at. */
  lemma OneByte(ts: Tables, mem: map<int, Page>, root: int, a: nat, at: nat, j: nat, total: nat)
    requires j < PGSIZE - (a + at) % PGSIZE && Frame(Leaf(ts, root, (a + at) / PGSIZE)) in mem
    requires Readable(ts, root, a + at)
    requires AllReadable(ts, root, a, at + j) && at + j < total
    ensures AllReadable(ts, root, a, at + j + 1)
    ensures var b := mem[Frame(Leaf(ts, root, (a + at) / PGSIZE))][(a + at) % PGSIZE + j];
            Peek(ts, mem, root, a + at + j) == b
            && Bytes(ts, mem, root, a, at + j + 1) == Bytes(ts, mem, root, a, at + j) + [b]
  {
    hide Leaf, Frame, U;
    assert (a + at + j) / PGSIZE == (a + at) / PGSIZE && (a + at + j) % PGSIZE == (a + at) % PGSIZE + j;
    Advance(ts, root, a, at + j, 1, total);
    MoreBytes(ts, mem, root, a, at + j, 1);
  }

  lemma NoShortString(ts: Tables, mem: map<int, Page>, root: int, a: nat, n: nat)
    requires NoNul(Bytes(ts, mem, root, a, n))
    ensures forall k: nat :: k < n ==> !StringAt(ts, mem, root, a, k)
  {
    hide Peek;
    forall k: nat | k < n
      ensures !StringAt(ts, mem, root, a, k)
    {
      assert Bytes(ts, mem, root, a, n)[k] == Peek(ts, mem, root, a + k);
    }
  }

  /** No string reaches beyond an unreadable address. */
  lemma NoString(m: Memory, root: int, a: nat, s: seq<Byte>, max: nat)
    requires m.Valid() && IsRoot(m.use, root) && NoNul(s) && s == Bytes(m.ts, m.mem, root, a, |s|)
    requires (if Readable(m.ts, root, a + |s|) then Frame(Leaf(m.ts, root, (a + |s|) / PGSIZE)) else NONE) == NONE
    ensures forall k: nat :: k < max ==> !StringAt(m.ts, m.mem, root, a, k)
  {
    hide Tree, Frames;
    NoShortString(m.ts, m.mem, root, a, |s|);
    if Readable(m.ts, root, a + |s|) {
      ReadableFrame(m, root, a + |s|);
    }
  }
}
