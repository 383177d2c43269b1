/** Crash atomicity: recovery after a crash between any two block writes. */
module LogCrash {
  import opened Blocks
  import opened Common
  import opened Bio
  import opened LogSpec

  ghost predicate AllInLog(log: Area, ws: seq<Write>) {
    forall i :: 0 <= i < |ws| ==> log.Contains(ws[i].blockno)
  }

  ghost predicate NoneInLog(log: Area, ws: seq<Write>) {
    forall i :: 0 <= i < |ws| ==> !log.Contains(ws[i].blockno)
  }

  /** Writes that stay inside the log leave every home block alone. */
  lemma LogOnly(log: Area, d: Disk, ws: seq<Write>)
    requires AllInLog(log, ws)
    ensures SameHome(log, Apply(d, ws), d)
  {
    forall bn | 0 <= bn < |d| && !log.Contains(bn)
      ensures Apply(d, ws)[bn] == d[bn]
    {
      ApplyAt(d, ws, bn);
      FinalNone(ws, bn);
    }
  }

  /** Writes that stay outside the log leave the log alone. */
  lemma HomeOnly(log: Area, d: Disk, ws: seq<Write>)
    requires NoneInLog(log, ws)
    ensures forall bn :: 0 <= bn < |d| && log.Contains(bn) ==> Apply(d, ws)[bn] == d[bn]
  {
    forall bn | 0 <= bn < |d| && log.Contains(bn)
      ensures Apply(d, ws)[bn] == d[bn]
    {
      ApplyAt(d, ws, bn);
      FinalNone(ws, bn);
    }
  }

  /** The same writes keep two disks equal at home. */
  lemma SameWrites(log: Area, a: Disk, b: Disk, ws: seq<Write>)
    requires SameHome(log, a, b)
    ensures SameHome(log, Apply(a, ws), Apply(b, ws))
  {
    forall bn | 0 <= bn < |a| && !log.Contains(bn)
      ensures Apply(a, ws)[bn] == Apply(b, ws)[bn]
    {
      ApplyAt(a, ws, bn);
      ApplyAt(b, ws, bn);
    }
  }

  /** Recovery redoes the pending writes, as far as home blocks go. */
  lemma RecoveredHome(log: Area, d: Disk)
    requires GoodHeader(log, d)
    ensures SameHome(log, Recovered(log, d), Apply(d, Pending(log, d)))
  {
    var clear := [Write(log.start, HeaderBlock(d[log.start], []))];
    ApplyConcat(d, Pending(log, d), clear);
    LogOnly(log, Apply(d, Pending(log, d)), clear);
  }

  /** A completed recovery leaves a clear log. */
  lemma RecoveredClear(log: Area, d: Disk)
    requires GoodHeader(log, d)
    ensures Clear(log, Recovered(log, d))
  {
    HeaderRoundTrip(d[log.start], []);
    assert RecoverWrites(log, d)[..|Pending(log, d)|] == Pending(log, d);
  }

  lemma ClearIsGood(log: Area, d: Disk)
    requires Clear(log, d)
    ensures GoodHeader(log, d) && Pending(log, d) == []
    ensures SameHome(log, Recovered(log, d), d)
  {
    RecoveredHome(log, d);
  }

  /** Crash inside recovery, after any number of its writes: recovering again still reaches
      the same home blocks. */
  lemma RecoverCrashed(log: Area, d: Disk, j: nat)
    requires GoodHeader(log, d) && j <= |RecoverWrites(log, d)|
    ensures GoodHeader(log, Apply(d, RecoverWrites(log, d)[..j]))
    ensures SameHome(log, Recovered(log, Apply(d, RecoverWrites(log, d)[..j])), Recovered(log, d))
  {
    var pending := Pending(log, d);
    if j <= |pending| {
      assert RecoverWrites(log, d)[..j] == pending[..j];
      var cut := Apply(d, pending[..j]);
      HomeOnly(log, d, pending[..j]);
      assert Pending(log, cut) == pending;
      Redo(d, pending, j);
      RecoveredHome(log, cut);
      RecoveredHome(log, d);
    } else {
      assert RecoverWrites(log, d)[..j] == RecoverWrites(log, d);
      RecoveredClear(log, d);
      ClearIsGood(log, Recovered(log, d));
    }
  }

  lemma {:induction false} LogWriteAt(log: Area, d: Disk, txn: seq<Write>, i: nat)
    requires log.start + |txn| < |d| && i < |txn|
    ensures Apply(d, LogWrites(log, txn))[log.start + 1 + i] == txn[i].data
  {
    var last := |txn| - 1;
    assert LogWrites(log, txn)[..last] == LogWrites(log, txn[..last]);
    if i < last {
      LogWriteAt(log, d, txn[..last], i);
    }
  }

  /** A disk whose header names a group's blocks and whose log blocks hold its data. */
  lemma PendingIs(log: Area, d: Disk, header: Block, txn: seq<Write>)
    requires log.Fits(d) && GoodTxn(log, txn, |d|)
    requires d[log.start] == HeaderBlock(header, BlockNos(txn))
    requires forall i :: 0 <= i < |txn| ==> d[log.start + 1 + i] == txn[i].data
    ensures GoodHeader(log, d) && Pending(log, d) == txn
  {
    HeaderRoundTrip(header, BlockNos(txn));
    assert Pending(log, d) == txn;
  }

  /** After write_log and write_head the disk's log is exactly the transaction. */
  lemma LogHoldsTxn(log: Area, d: Disk, txn: seq<Write>)
    requires log.Fits(d) && GoodTxn(log, txn, |d|)
    ensures var logged := Apply(d, HeaderWritten(log, d, txn));
            GoodHeader(log, logged) && Pending(log, logged) == txn
            && SameHome(log, logged, d)
  {
    var ws := HeaderWritten(log, d, txn);
    LogOnly(log, d, ws);
    assert ws[..|ws| - 1] == LogWrites(log, txn);
    forall i | 0 <= i < |txn|
      ensures Apply(d, ws)[log.start + 1 + i] == txn[i].data
    {
      LogWriteAt(log, d, txn, i);
    }
    PendingIs(log, Apply(d, ws), d[log.start], txn);
  }

  /** A commit that returns leaves a clear log and the whole group at home. */
  lemma CommitDone(log: Area, d: Disk, txn: seq<Write>)
    requires Clear(log, d) && GoodTxn(log, txn, |d|)
    ensures Clear(log, Apply(d, CommitWrites(log, d, txn)))
    ensures SameHome(log, Apply(d, CommitWrites(log, d, txn)), Apply(d, txn))
  {
    var ws := CommitWrites(log, d, txn);
    if txn != [] {
      var full := HeaderBlock(d[log.start], BlockNos(txn));
      var head := HeaderWritten(log, d, txn);
      var clear := [Write(log.start, HeaderBlock(full, []))];
      assert ws == head + txn + clear;
      ApplyConcat(d, head + txn, clear);
      ApplyConcat(d, head, txn);
      LogHoldsTxn(log, d, txn);
      SameWrites(log, Apply(d, head), d, txn);
      LogOnly(log, Apply(Apply(d, head), txn), clear);
      HeaderRoundTrip(full, []);
    }
  }

  /** Until the header is written a commit has no effect. */
  lemma CrashBeforeHeader(log: Area, d: Disk, txn: seq<Write>, j: nat)
    requires Clear(log, d) && GoodTxn(log, txn, |d|) && j <= |txn|
    ensures var cut := Apply(d, LogWrites(log, txn)[..j]);
            GoodHeader(log, cut) && SameHome(log, Recovered(log, cut), d)
  {
    var ws := LogWrites(log, txn)[..j];
    LogOnly(log, d, ws);
    ApplyAt(d, ws, log.start);
    FinalNone(ws, log.start);
    ClearIsGood(log, Apply(d, ws));
  }

  /** Once the disk's log holds the group, any part of the installation is as good as all of it. */
  lemma CrashWhileInstalling(log: Area, logged: Disk, txn: seq<Write>, m: nat)
    requires GoodHeader(log, logged) && Pending(log, logged) == txn && m <= |txn|
    ensures GoodHeader(log, Apply(logged, txn[..m]))
    ensures SameHome(log, Recovered(log, Apply(logged, txn[..m])), Apply(logged, txn))
  {
    var cut := Apply(logged, txn[..m]);
    HomeOnly(log, logged, txn[..m]);
    assert Pending(log, cut) == txn;
    RecoveredHome(log, cut);
    Redo(logged, txn, m);
  }

  /** No home block on disk changes before the group's header is written. */
  lemma HomeUntouched(log: Area, d: Disk, txn: seq<Write>, j: nat)
    requires log.Fits(d) && GoodTxn(log, txn, |d|)
    requires j <= |CommitWrites(log, d, txn)| && j <= |txn| + 1
    ensures SameHome(log, Apply(d, CommitWrites(log, d, txn)[..j]), d)
  {
    if txn != [] {
      assert CommitWrites(log, d, txn)[..j] == HeaderWritten(log, d, txn)[..j];
      LogOnly(log, d, HeaderWritten(log, d, txn)[..j]);
    }
  }

  /** Where a cut falls: in the log writes, in the home writes, or nowhere. */
  lemma CommitCut(log: Area, d: Disk, txn: seq<Write>, j: nat)
    requires log.Fits(d) && GoodTxn(log, txn, |d|) && txn != [] && j <= |CommitWrites(log, d, txn)|
    ensures |CommitWrites(log, d, txn)| == 2 * |txn| + 2
    ensures j <= |txn| ==> CommitWrites(log, d, txn)[..j] == LogWrites(log, txn)[..j]
    ensures |txn| < j <= 2 * |txn| + 1 ==>
              CommitWrites(log, d, txn)[..j] == HeaderWritten(log, d, txn) + txn[..j - |txn| - 1]
    ensures j == 2 * |txn| + 2 ==> CommitWrites(log, d, txn)[..j] == CommitWrites(log, d, txn)
  {
  }

  /** Crash inside commit, after any number j of its writes: recovery reaches the state before
      the group while the header is unwritten, and the state after the whole group from then on. */
  lemma CommitCrashed(log: Area, d: Disk, txn: seq<Write>, j: nat)
    requires Clear(log, d) && GoodTxn(log, txn, |d|) && j <= |CommitWrites(log, d, txn)|
    ensures GoodHeader(log, Apply(d, CommitWrites(log, d, txn)[..j]))
    ensures SameHome(log, Recovered(log, Apply(d, CommitWrites(log, d, txn)[..j])),
                     if j <= |txn| then d else Apply(d, txn))
  {
    if txn == [] {
      ClearIsGood(log, d);
      return;
    }
    CommitCut(log, d, txn, j);
    if j <= |txn| {
      CrashBeforeHeader(log, d, txn, j);
    } else if j <= 2 * |txn| + 1 {
      var m := j - |txn| - 1;
      ApplyConcat(d, HeaderWritten(log, d, txn), txn[..m]);
      LogHoldsTxn(log, d, txn);
      InstallCut(log, d, Apply(d, HeaderWritten(log, d, txn)), txn, m);
    } else {
      CommitDone(log, d, txn);
      ClearIsGood(log, Apply(d, CommitWrites(log, d, txn)));
    }
  }

  lemma InstallCut(log: Area, d: Disk, logged: Disk, txn: seq<Write>, m: nat)
    requires GoodHeader(log, logged) && Pending(log, logged) == txn && m <= |txn|
    requires SameHome(log, logged, d)
    ensures GoodHeader(log, Apply(logged, txn[..m]))
    ensures SameHome(log, Recovered(log, Apply(logged, txn[..m])), Apply(d, txn))
  {
    CrashWhileInstalling(log, logged, txn, m);
    SameWrites(log, logged, d, txn);
  }

  // ---- runs

  /** What happens to the machine, as far as the disk can tell. */
  datatype Event =
    | Commit(txn: seq<Write>)                   // commit() returned
    | CommitCrash(txn: seq<Write>, writes: nat) // power lost after that many writes of commit()
    | IdleCrash                                 // power lost outside commit() and recovery
    | RecoverCrash(writes: nat)                 // power lost after that many writes of recovery
    | Recover                                   // recovery finished

  datatype Machine = Machine(disk: Disk, up: bool)

  ghost predicate Possible(log: Area, m: Machine, e: Event) {
    match e
    case Commit(txn) => m.up && log.Fits(m.disk) && GoodTxn(log, txn, |m.disk|)
    case CommitCrash(txn, writes) =>
      m.up && log.Fits(m.disk) && GoodTxn(log, txn, |m.disk|) && writes <= |CommitWrites(log, m.disk, txn)|
    case IdleCrash => m.up
    case RecoverCrash(writes) => !m.up && GoodHeader(log, m.disk) && writes <= |RecoverWrites(log, m.disk)|
    case Recover => !m.up && GoodHeader(log, m.disk)
  }

  ghost function After(log: Area, m: Machine, e: Event): Machine
    requires Possible(log, m, e)
  {
    match e
    case Commit(txn) => Machine(Apply(m.disk, CommitWrites(log, m.disk, txn)), true)
    case CommitCrash(txn, writes) => Machine(Apply(m.disk, CommitWrites(log, m.disk, txn)[..writes]), false)
    case IdleCrash => Machine(m.disk, false)
    case RecoverCrash(writes) => Machine(Apply(m.disk, RecoverWrites(log, m.disk)[..writes]), false)
    case Recover => Machine(Recovered(log, m.disk), true)
  }

  /** The machine goes from m to end through exactly these events. */
  ghost predicate Run(log: Area, m: Machine, events: seq<Event>, end: Machine)
    decreases |events|
  {
    if events == [] then m == end
    else Possible(log, m, events[0]) && Run(log, After(log, m, events[0]), events[1..], end)
  }

  /** What an event makes of the home state: a returned commit counts, a commit cut short counts
      when its header was written, and nothing else changes anything. */
  ghost function Landed(d: Disk, e: Event): Disk {
    match e
    case Commit(txn) => Apply(d, txn)
    case CommitCrash(txn, writes) => if writes <= |txn| then d else Apply(d, txn)
    case _ => d
  }

  /** The home state after a run, group by group. */
  ghost function Groups(d: Disk, events: seq<Event>): Disk
    decreases |events|
  {
    if events == [] then d else Groups(Landed(d, events[0]), events[1..])
  }

  ghost predicate Sound(log: Area, m: Machine) {
    GoodHeader(log, m.disk) && (m.up ==> Clear(log, m.disk))
  }

  lemma SameAgain(log: Area, a: Disk, b: Disk, c: Disk)
    requires SameHome(log, a, b) && SameHome(log, b, c)
    ensures SameHome(log, a, c)
  {
  }

  lemma CommitReturned(log: Area, d: Disk, txn: seq<Write>, home: Disk)
    requires log.Fits(d) && Clear(log, d) && GoodTxn(log, txn, |d|) && SameHome(log, d, home)
    ensures var d' := Apply(d, CommitWrites(log, d, txn));
            Clear(log, d') && GoodHeader(log, d') && SameHome(log, Recovered(log, d'), Apply(home, txn))
  {
    hide Clear, GoodTxn, SameHome, GoodHeader, CommitWrites, Recovered, Apply;
    var d' := Apply(d, CommitWrites(log, d, txn));
    CommitDone(log, d, txn);
    ClearIsGood(log, d');
    SameWrites(log, d, home, txn);
    SameAgain(log, d', Apply(d, txn), Apply(home, txn));
    SameAgain(log, Recovered(log, d'), d', Apply(home, txn));
  }

  lemma CommitCutShort(log: Area, d: Disk, txn: seq<Write>, j: nat, home: Disk)
    requires log.Fits(d) && Clear(log, d) && GoodTxn(log, txn, |d|) && SameHome(log, d, home)
    requires j <= |CommitWrites(log, d, txn)|
    ensures var d' := Apply(d, CommitWrites(log, d, txn)[..j]);
            GoodHeader(log, d') && SameHome(log, Recovered(log, d'), if j <= |txn| then home else Apply(home, txn))
  {
    hide Clear, GoodTxn, SameHome, GoodHeader, CommitWrites, Recovered, Apply;
    var d' := Apply(d, CommitWrites(log, d, txn)[..j]);
    CommitCrashed(log, d, txn, j);
    SameWrites(log, d, home, txn);
    SameAgain(log, Recovered(log, d'), if j <= |txn| then d else Apply(d, txn),
              if j <= |txn| then home else Apply(home, txn));
  }

  lemma RecoveryDone(log: Area, d: Disk, home: Disk)
    requires GoodHeader(log, d) && SameHome(log, Recovered(log, d), home)
    ensures var d' := Recovered(log, d);
            Clear(log, d') && GoodHeader(log, d') && SameHome(log, Recovered(log, d'), home)
  {
    hide Clear, SameHome, GoodHeader, Recovered;
    var d' := Recovered(log, d);
    RecoveredClear(log, d);
    ClearIsGood(log, d');
    SameAgain(log, Recovered(log, d'), d', home);
  }

  lemma SoundStep(log: Area, m: Machine, e: Event, home: Disk)
    requires Sound(log, m) && Possible(log, m, e)
    requires SameHome(log, Recovered(log, m.disk), home)
    ensures Sound(log, After(log, m, e))
    ensures SameHome(log, Recovered(log, After(log, m, e).disk), Landed(home, e))
  {
    hide Clear, GoodTxn, SameHome, GoodHeader, CommitWrites, RecoverWrites, Recovered, Apply;
    var d := m.disk;
    if m.up {
      ClearSame(log, d, home);
    }
    match e
    case Commit(txn) => CommitReturned(log, d, txn, home);
    case CommitCrash(txn, writes) => CommitCutShort(log, d, txn, writes, home);
    case IdleCrash =>
    case RecoverCrash(writes) =>
      RecoverCrashed(log, d, writes);
      SameAgain(log, Recovered(log, Apply(d, RecoverWrites(log, d)[..writes])), Recovered(log, d), home);
    case Recover => RecoveryDone(log, d, home);
  }

  lemma ClearSame(log: Area, d: Disk, home: Disk)
    requires Clear(log, d) && GoodHeader(log, d) && SameHome(log, Recovered(log, d), home)
    ensures SameHome(log, d, home)
  {
    hide Recovered, Clear;
    ClearIsGood(log, d);
  }

  /** Crash atomicity over whole runs: after any sequence of commits, crashes between any two
      block writes, and recoveries themselves cut short by crashes, recovery reaches the state
      after a whole number of groups, which includes every group whose commit returned. */
  lemma {:induction false} CrashAtomicity(log: Area, m: Machine, events: seq<Event>, end: Machine, home: Disk)
    requires Sound(log, m) && Run(log, m, events, end)
    requires SameHome(log, Recovered(log, m.disk), home)
    ensures Sound(log, end)
    ensures SameHome(log, Recovered(log, end.disk), Groups(home, events))
    ensures end.up ==> SameHome(log, end.disk, Groups(home, events))
    decreases |events|
  {
    hide Recovered, Clear, Possible, After, GoodHeader, SameHome, Landed;
    if events == [] {
      if end.up {
        ClearSame(log, end.disk, home);
      }
    } else {
      SoundStep(log, m, events[0], home);
      CrashAtomicity(log, After(log, m, events[0]), events[1..], end, Landed(home, events[0]));
    }
  }
}
