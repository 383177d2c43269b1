/** What the write-ahead log means on disk: the header block, the pending writes it names, the
    block writes that commit and recovery issue, and what recovery makes of a disk on which an
    arbitrary prefix of those writes took effect. */
module LogSpec {
  import opened Blocks
  import opened Common
  import opened Bio

  const MAXOPBLOCKS: nat := 10
  const LOGSIZE: nat := 3 * MAXOPBLOCKS

  type Disk = seq<Block>

  /** Where the log lives: the header at `start`, log blocks after it, `size` blocks in all. */
  datatype Area = Area(start: nat, size: nat) {
    predicate Contains(bn: nat) {
      start <= bn < start + size
    }

    predicate Fits(d: Disk) {
      0 < size && start + size <= |d| <= 0x1_0000_0000
    }
  }

  // ---- block writes

  function Put(d: Disk, w: Write): (d': Disk)
    ensures |d'| == |d|
  {
    if w.blockno < |d| then d[w.blockno := w.data] else d
  }

  /** The disk after a list of block writes, in order. */
  function Apply(d: Disk, ws: seq<Write>): (d': Disk)
    ensures |d'| == |d|
  {
    if ws == [] then d else Put(Apply(d, ws[..|ws| - 1]), ws[|ws| - 1])
  }

  lemma ApplyNone(d: Disk)
    ensures Apply(d, []) == d
  {
  }

  lemma ApplyOne(d: Disk, ws: seq<Write>, k: nat)
    requires k < |ws|
    ensures Apply(d, ws[..k + 1]) == Put(Apply(d, ws[..k]), ws[k])
  {
    assert ws[..k + 1][..k] == ws[..k];
  }

  /** The data that a list of writes leaves in a block, if it writes the block at all. */
  function Final(ws: seq<Write>, bn: nat): Option<Block> {
    if ws == [] then None
    else if ws[|ws| - 1].blockno == bn then Some(ws[|ws| - 1].data)
    else Final(ws[..|ws| - 1], bn)
  }

  lemma {:induction false} ApplyAt(d: Disk, ws: seq<Write>, bn: nat)
    requires bn < |d|
    ensures Apply(d, ws)[bn] == match Final(ws, bn) case Some(data) => data case None => d[bn]
  {
    if ws != [] {
      ApplyAt(d, ws[..|ws| - 1], bn);
    }
  }

  lemma {:induction false} ApplyConcat(d: Disk, a: seq<Write>, b: seq<Write>)
    ensures Apply(d, a + b) == Apply(Apply(d, a), b)
  {
    if b == [] {
      assert a + b == a;
    } else {
      assert (a + b)[..|a + b| - 1] == a + b[..|b| - 1];
      ApplyConcat(d, a, b[..|b| - 1]);
    }
  }

  lemma {:induction false} FinalNone(ws: seq<Write>, bn: nat)
    ensures Final(ws, bn).None? <==> forall i :: 0 <= i < |ws| ==> ws[i].blockno != bn
  {
    if ws != [] {
      FinalNone(ws[..|ws| - 1], bn);
    }
  }

  /** Redoing a whole list of writes after any prefix of it gives what doing it once gives. */
  lemma Redo(d: Disk, ws: seq<Write>, j: nat)
    requires j <= |ws|
    ensures Apply(Apply(d, ws[..j]), ws) == Apply(d, ws)
  {
    forall bn | 0 <= bn < |d|
      ensures Apply(Apply(d, ws[..j]), ws)[bn] == Apply(d, ws)[bn]
    {
      ApplyAt(Apply(d, ws[..j]), ws, bn);
      ApplyAt(d, ws, bn);
      ApplyAt(d, ws[..j], bn);
      FinalNone(ws, bn);
      FinalNone(ws[..j], bn);
    }
  }

  // ---- interrupted lists of writes

  /** From disk d and journal w, exactly the first k of the writes ws happened, giving d' and w'. */
  ghost predicate Did(d: Disk, w: seq<Write>, ws: seq<Write>, k: nat, d': Disk, w': seq<Write>) {
    k <= |ws| && d' == Apply(d, ws[..k]) && w' == w + ws[..k]
  }

  lemma DidNone(d: Disk, w: seq<Write>, ws: seq<Write>)
    ensures Did(d, w, ws, 0, d, w)
  {
  }

  lemma DidOne(d: Disk, w: seq<Write>, ws: seq<Write>, k: nat, d': Disk, w': seq<Write>)
    requires Did(d, w, ws, k, d', w') && k < |ws|
    ensures Did(d, w, ws, k + 1, Put(d', ws[k]), w' + [ws[k]])
  {
    assert ws[..k + 1][..k] == ws[..k];
  }

  /** A part of a first list is a part of the list that continues it. */
  lemma DidFirst(d: Disk, w: seq<Write>, a: seq<Write>, b: seq<Write>, k: nat, d': Disk, w': seq<Write>)
    requires Did(d, w, a, k, d', w')
    ensures Did(d, w, a + b, k, d', w')
  {
    assert (a + b)[..k] == a[..k];
  }

  /** All of a first list and a part of a second. */
  lemma DidBoth(d: Disk, w: seq<Write>, a: seq<Write>, b: seq<Write>, k: nat,
                d1: Disk, w1: seq<Write>, d2: Disk, w2: seq<Write>)
    requires Did(d, w, a, |a|, d1, w1) && Did(d1, w1, b, k, d2, w2)
    ensures Did(d, w, a + b, |a| + k, d2, w2)
  {
    assert a[..|a|] == a;
    assert (a + b)[..|a| + k] == a + b[..k];
    ApplyConcat(d, a, b[..k]);
  }

  // ---- the header block

  /** write_head: the words of the header stored one after the other over an old block. */
  function StoreHeader(b: Block, n: Word, blocks: seq<Word>): Block
    requires |blocks| < WORDS
  {
    if blocks == [] then WithWord(b, 0, n)
    else WithWord(StoreHeader(b, n, blocks[..|blocks| - 1]), |blocks|, blocks[|blocks| - 1])
  }

  function HeaderBlock(b: Block, blocks: seq<Word>): Block
    requires |blocks| < WORDS
  {
    StoreHeader(b, |blocks|, blocks)
  }

  /** read_head: the block numbers a header block names. */
  function HeaderOf(b: Block): seq<Word>
    requires WordAt(b, 0) < WORDS
  {
    seq(WordAt(b, 0), i requires 0 <= i < WordAt(b, 0) => WordAt(b, i + 1))
  }

  lemma {:induction false} StoredWord(b: Block, n: Word, blocks: seq<Word>, j: nat)
    requires |blocks| < WORDS && j < WORDS
    ensures WordAt(StoreHeader(b, n, blocks), j)
         == if j == 0 then n else if j <= |blocks| then blocks[j - 1] else WordAt(b, j)
  {
    if blocks == [] {
      WordAfterStore(b, 0, n, j);
    } else {
      var shorter := blocks[..|blocks| - 1];
      StoredWord(b, n, shorter, j);
      WordAfterStore(StoreHeader(b, n, shorter), |blocks|, blocks[|blocks| - 1], j);
    }
  }

  /** A header reads back as it was written, whatever the block held before. */
  lemma HeaderRoundTrip(b: Block, blocks: seq<Word>)
    requires |blocks| < WORDS
    ensures WordAt(HeaderBlock(b, blocks), 0) == |blocks|
    ensures HeaderOf(HeaderBlock(b, blocks)) == blocks
  {
    StoredWord(b, |blocks|, blocks, 0);
    forall i | 0 <= i < |blocks|
      ensures WordAt(HeaderBlock(b, blocks), i + 1) == blocks[i]
    {
      StoredWord(b, |blocks|, blocks, i + 1);
    }
  }

  // ---- transactions

  /** A group of block updates that the log can carry: few enough for the log area, each block
      once, and none inside the log itself. */
  predicate GoodTxn(log: Area, txn: seq<Write>, diskSize: nat) {
    && |txn| <= LOGSIZE && |txn| < log.size
    && (forall i :: 0 <= i < |txn| ==> txn[i].blockno < diskSize && !log.Contains(txn[i].blockno))
    && (forall i, j :: 0 <= i < j < |txn| ==> txn[i].blockno != txn[j].blockno)
  }

  /** The group of the named blocks with the contents that a view of the disk gives them. */
  function TxnOf(blocks: seq<nat>, view: Disk): seq<Write>
    requires forall k :: 0 <= k < |blocks| ==> blocks[k] < |view|
  {
    seq(|blocks|, k requires 0 <= k < |blocks| => Write(blocks[k], view[blocks[k]]))
  }

  function BlockNos(txn: seq<Write>): seq<nat> {
    seq(|txn|, i requires 0 <= i < |txn| => txn[i].blockno)
  }

  /** write_log's writes. */
  function LogWrites(log: Area, txn: seq<Write>): seq<Write> {
    seq(|txn|, i requires 0 <= i < |txn| => Write(log.start + 1 + i, txn[i].data))
  }

  /** The writes of commit up to the header. */
  function HeaderWritten(log: Area, d: Disk, txn: seq<Write>): seq<Write>
    requires log.Fits(d) && GoodTxn(log, txn, |d|)
  {
    LogWrites(log, txn) + [Write(log.start, HeaderBlock(d[log.start], BlockNos(txn)))]
  }

  /** Every block write of commit(), in order: the log, the header, the home blocks, the
      cleared header. */
  function CommitWrites(log: Area, d: Disk, txn: seq<Write>): seq<Write>
    requires log.Fits(d) && GoodTxn(log, txn, |d|)
  {
    if txn == [] then [] else
      var full := HeaderBlock(d[log.start], BlockNos(txn));
      HeaderWritten(log, d, txn) + txn + [Write(log.start, HeaderBlock(full, []))]
  }

  /** The on-disk header is one that a commit could have written. */
  predicate GoodHeader(log: Area, d: Disk) {
    && log.Fits(d)
    && WordAt(d[log.start], 0) <= LOGSIZE
    && WordAt(d[log.start], 0) < log.size
    && GoodTxn(log, Pending(log, d), |d|)
  }

  predicate Clear(log: Area, d: Disk) {
    log.Fits(d) && WordAt(d[log.start], 0) == 0
  }

  /** The writes a header names, with the data in the log blocks. */
  function Pending(log: Area, d: Disk): seq<Write>
    requires log.Fits(d)
    requires WordAt(d[log.start], 0) <= LOGSIZE && WordAt(d[log.start], 0) < log.size
  {
    var blocks := HeaderOf(d[log.start]);
    seq(|blocks|, i requires 0 <= i < |blocks| => Write(blocks[i], d[log.start + 1 + i]))
  }

  /** Every block write of recover_from_log(), in order. */
  function RecoverWrites(log: Area, d: Disk): seq<Write>
    requires GoodHeader(log, d)
  {
    Pending(log, d) + [Write(log.start, HeaderBlock(d[log.start], []))]
  }

  function Recovered(log: Area, d: Disk): Disk
    requires GoodHeader(log, d)
  {
    Apply(d, RecoverWrites(log, d))
  }

  /** Two disks agree on every block outside the log. */
  predicate SameHome(log: Area, a: Disk, b: Disk) {
    |a| == |b| && forall bn :: 0 <= bn < |a| && !log.Contains(bn) ==> a[bn] == b[bn]
  }
}
