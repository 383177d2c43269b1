/** kernel/pipe.c with the reference counts of kernel/file.c: any number of processes read, write, share
    and close one pipe, one lock operation or memory access at a time, in any interleaving. */
module Pipe {
  import opened Blocks

  const PIPESIZE := 512
  const WRAP := 0x1_0000_0000   // nread and nwrite are 32-bit unsigned

  datatype End = ReadEnd | WriteEnd | NoEnd

  /** Where a process is: in pipewrite with byte i of src to go, in piperead with i of n bytes read, or in
      pipeclose. `base` is the i with which a writer last got the lock; `since` is how often the channel
      had been woken up when a sleeper went to sleep on it, or -1 if kill made it runnable. */
  datatype Pc =
    | Idle
    | WTest(src: seq<Byte>, i: nat, base: nat)   // at the loop test, holding the lock
    | WSleep(src: seq<Byte>, i: nat, since: int) // in sleep, on nwrite
    | WPut(src: seq<Byte>, i: nat, base: nat)    // before the byte is stored
    | WBump(src: seq<Byte>, i: nat, base: nat)   // before nwrite is incremented
    | RWait(n: nat)                   // at the test for an empty pipe, holding the lock
    | RSleep(n: nat, since: int)      // in sleep, on nread
    | RTest(n: nat, i: nat)           // at the top of the copy loop
    | RTake(n: nat, i: nat)           // before the byte is fetched
    | RBump(n: nat, i: nat, b: Byte)  // before nread is incremented
    | Dropped(end: End)               // fileclose dropped the last reference, before acquire in pipeclose
    | Clear(end: End)                 // before readopen or writeopen is cleared
    | Check                           // before the test whether both are closed
    | Freeing                         // after release, before kfree

  /** A process, and the end of the pipe its file descriptor refers to. */
  datatype Proc = Proc(pc: Pc, has: End, killed: bool)

  /** `put` and `got` are all the bytes that went in and came out, `freed` counts the kfrees, `rwakes` and
      `wwakes` the wakeups of the channels nread and nwrite. */
  datatype State = State(procs: seq<Proc>, lock: int, data: seq<Byte>, nread: nat, nwrite: nat,
                         readopen: bool, writeopen: bool, freed: nat, put: seq<Byte>, got: seq<Byte>,
                         rwakes: nat, wwakes: nat)

  const NOBODY := -1

  /** Steps of pipewrite and piperead, and steps that share and close descriptors or kill. */
  datatype IoOp =
    | Write(src: seq<Byte>) | WriteDone | WriteQuit | WriteFull | WriteGo | Store | BumpWrite | Rewrite
    | Read(n: nat) | ReadQuit | ReadEmpty | ReadGo | ReadEnough | ReadNext | Fetch | BumpRead(ok: bool) | Reread
  datatype FdOp = Dup(q: nat) | Close | TakeClose | ClearOpen | CheckBoth | Kfree | Kill
  datatype Step = Io(p: nat, io: IoOp) | Fd(p: nat, fd: FdOp)

  predicate Full(s: State) {
    s.nwrite == (s.nread + PIPESIZE) % WRAP
  }

  /** A sleep whose channel has been woken up since, or whose process was killed, can end. */
  predicate Woken(since: int, wakes: nat) {
    since < wakes
  }

  predicate IoEnabled(s: State, p: nat, op: IoOp) {
    && p < |s.procs| && |s.data| == PIPESIZE
    && var me, free := s.procs[p], s.lock == NOBODY;
       var pc, more := me.pc, s.readopen && !me.killed;
       match op
       case Write(src) => pc.Idle? && me.has.WriteEnd? && free
       case WriteDone => pc.WTest? && (pc.i >= |pc.src| || (more && !Full(s)))  // all written, or copyin failed
       case WriteQuit => pc.WTest? && pc.i < |pc.src| && !more
       case WriteFull => pc.WTest? && pc.i < |pc.src| && more && Full(s)
       case WriteGo => pc.WTest? && pc.i < |pc.src| && more && !Full(s)
       case Store => pc.WPut? && pc.i < |pc.src|
       case BumpWrite => pc.WBump? && pc.i < |pc.src|
       case Rewrite => pc.WSleep? && free && Woken(pc.since, s.wwakes)
       case Read(n) => pc.Idle? && me.has.ReadEnd? && free
       case ReadQuit => pc.RWait? && s.nread == s.nwrite && s.writeopen && me.killed
       case ReadEmpty => pc.RWait? && s.nread == s.nwrite && s.writeopen && !me.killed
       case ReadGo => pc.RWait? && !(s.nread == s.nwrite && s.writeopen)
       case ReadEnough => pc.RTest? && (pc.i >= pc.n || s.nread == s.nwrite)
       case ReadNext => pc.RTest? && pc.i < pc.n && s.nread != s.nwrite
       case Fetch => pc.RTake?
       case BumpRead(ok) => pc.RBump?
       case Reread => pc.RSleep? && free && Woken(pc.since, s.rwakes)
  }

  function Goto(s: State, p: nat, pc: Pc): State
    requires p < |s.procs|
  {
    s.(procs := s.procs[p := s.procs[p].(pc := pc)])
  }

  function IoNext(s: State, p: nat, op: IoOp): State
    requires IoEnabled(s, p, op)
  {
    var pc := s.procs[p].pc;
    match op
    case Write(src) => Goto(s, p, WTest(src, 0, 0)).(lock := p)
    case WriteDone => Goto(s, p, Idle).(lock := NOBODY, rwakes := s.rwakes + 1)
    case WriteQuit => Goto(s, p, Idle).(lock := NOBODY)
    case WriteFull => Goto(s, p, WSleep(pc.src, pc.i, s.wwakes)).(lock := NOBODY, rwakes := s.rwakes + 1)
    case WriteGo => Goto(s, p, WPut(pc.src, pc.i, pc.base))
    case Store => Goto(s, p, WBump(pc.src, pc.i, pc.base)).(data := s.data[s.nwrite % PIPESIZE := pc.src[pc.i]])
    case BumpWrite =>
      Goto(s, p, WTest(pc.src, pc.i + 1, pc.base)).(nwrite := (s.nwrite + 1) % WRAP, put := s.put + [pc.src[pc.i]])
    case Rewrite => Goto(s, p, WTest(pc.src, pc.i, pc.i)).(lock := p)
    case Read(n) => Goto(s, p, RWait(n)).(lock := p)
    case ReadQuit => Goto(s, p, Idle).(lock := NOBODY)
    case ReadEmpty => Goto(s, p, RSleep(pc.n, s.rwakes)).(lock := NOBODY)
    case ReadGo => Goto(s, p, RTest(pc.n, 0))
    case ReadEnough => Goto(s, p, Idle).(lock := NOBODY, wwakes := s.wwakes + 1)
    case ReadNext => Goto(s, p, RTake(pc.n, pc.i))
    case Fetch => Goto(s, p, RBump(pc.n, pc.i, s.data[s.nread % PIPESIZE]))
    case BumpRead(ok) =>
      var s' := s.(nread := (s.nread + 1) % WRAP, got := s.got + [pc.b]);
      if ok then Goto(s', p, RTest(pc.n, pc.i + 1))
      else Goto(s', p, Idle).(lock := NOBODY, wwakes := s.wwakes + 1)
    case Reread => Goto(s, p, RWait(pc.n)).(lock := p)
  }

  predicate FdEnabled(s: State, p: nat, op: FdOp) {
    && p < |s.procs|
    && var pc, has, free := s.procs[p].pc, s.procs[p].has, s.lock == NOBODY;
       match op
       case Dup(q) => pc.Idle? && !has.NoEnd? && q < |s.procs| && q != p && s.procs[q].pc.Idle? && s.procs[q].has.NoEnd?
       case Close => pc.Idle? && !has.NoEnd?
       case TakeClose => pc.Dropped? && free
       case ClearOpen => pc.Clear?
       case CheckBoth => pc.Check?
       case Kfree => pc.Freeing?
       case Kill => true
  }

  /** Nobody else refers to this end of the pipe. */
  predicate LastRef(s: State, p: nat, end: End) {
    forall q :: 0 <= q < |s.procs| && q != p ==> s.procs[q].has != end
  }

  /** kill makes a sleeper runnable. */
  function Roused(pc: Pc): Pc {
    match pc
    case WSleep(src, i, _) => WSleep(src, i, -1)
    case RSleep(n, _) => RSleep(n, -1)
    case _ => pc
  }

  function FdNext(s: State, p: nat, op: FdOp): State
    requires FdEnabled(s, p, op)
  {
    var pc, has := s.procs[p].pc, s.procs[p].has;
    match op
    case Dup(q) => s.(procs := s.procs[q := Proc(Idle, has, false)])
    case Close =>
      s.(procs := s.procs[p := s.procs[p].(pc := if LastRef(s, p, has) then Dropped(has) else Idle, has := NoEnd)])
    case TakeClose => Goto(s, p, Clear(pc.end)).(lock := p)
    case ClearOpen =>
      if pc.end.WriteEnd? then Goto(s, p, Check).(writeopen := false, rwakes := s.rwakes + 1)
      else Goto(s, p, Check).(readopen := false, wwakes := s.wwakes + 1)
    case CheckBoth => Goto(s, p, if !s.readopen && !s.writeopen then Freeing else Idle).(lock := NOBODY)
    case Kfree => Goto(s, p, Idle).(freed := s.freed + 1)
    case Kill => s.(procs := s.procs[p := s.procs[p].(killed := true, pc := Roused(pc))])
  }

  predicate Enabled(s: State, step: Step) {
    match step
    case Io(p, op) => IoEnabled(s, p, op)
    case Fd(p, op) => FdEnabled(s, p, op)
  }

  function Next(s: State, step: Step): State
    requires Enabled(s, step)
  {
    match step
    case Io(p, op) => IoNext(s, p, op)
    case Fd(p, op) => FdNext(s, p, op)
  }

  /** After pipealloc: two descriptors, one for each end. */
  predicate Start(s: State) {
    && |s.procs| >= 2 && s.procs[0] == Proc(Idle, ReadEnd, false) && s.procs[1] == Proc(Idle, WriteEnd, false)
    && (forall p :: 2 <= p < |s.procs| ==> s.procs[p] == Proc(Idle, NoEnd, false))
    && s.lock == NOBODY && |s.data| == PIPESIZE && s.nread == s.nwrite == 0 && s.readopen && s.writeopen && s.freed == 0
    && s.put == s.got == [] && s.rwakes == s.wwakes == 0
  }

  // ---- the ring

  /** The counters are those of the bytes, modulo 2^32; the bytes between them are in the ring, at most
      PIPESIZE of them; and what came out is what went in first. */
  ghost predicate Ring(s: State) {
    && |s.data| == PIPESIZE
    && |s.got| <= |s.put| <= |s.got| + PIPESIZE
    && s.nread == |s.got| % WRAP && s.nwrite == |s.put| % WRAP
    && s.got == s.put[..|s.got|]
    && forall k :: |s.got| <= k < |s.put| ==> s.data[k % PIPESIZE] == s.put[k]
  }

  /** What a process in the middle of moving a byte has found out: there is room, or a byte; */
  predicate MidCount(s: State, pc: Pc) {
    && (pc.WPut? || pc.WBump? ==> |s.put| < |s.got| + PIPESIZE && pc.i < |pc.src|)
    && (pc.WTest? || pc.WPut? || pc.WBump? ==> pc.base <= pc.i && (pc.base < pc.i ==> |s.got| < |s.put|))
    && (pc.RTake? || pc.RBump? ==> |s.got| < |s.put|)
  }

  /** and the byte it has stored or fetched is in its slot. */
  predicate MidData(s: State, pc: Pc) {
    && |s.data| == PIPESIZE
    && (pc.WBump? ==> pc.i < |pc.src| && s.data[s.nwrite % PIPESIZE] == pc.src[pc.i])
    && (pc.RBump? ==> s.data[s.nread % PIPESIZE] == pc.b)
  }

  predicate Midway(s: State, pc: Pc) {
    MidCount(s, pc) && MidData(s, pc)
  }

  /** The 32-bit tests for a full and an empty ring say what they mean, although the counters wrap. */
  lemma Tests(s: State)
    requires Ring(s)
    ensures Full(s) <==> |s.put| == |s.got| + PIPESIZE
    ensures s.nread == s.nwrite <==> |s.put| == |s.got|
    ensures s.nwrite % PIPESIZE == |s.put| % PIPESIZE && s.nread % PIPESIZE == |s.got| % PIPESIZE
  {
    Wrap(|s.put|);
    Wrap(|s.got|);
    var d := |s.put| - |s.got|;
    assert 0 <= d <= PIPESIZE;
  }

  lemma Wrap(n: nat)
    ensures n % WRAP % PIPESIZE == n % PIPESIZE
  {
    Rounds(0x80_0000 * (n / WRAP), n % WRAP);
  }

  lemma Rounds(k: nat, r: nat)
    ensures (PIPESIZE * k + r) % PIPESIZE == r % PIPESIZE
  {
  }

  predicate Holds(pc: Pc) {
    pc.WTest? || pc.WPut? || pc.WBump? || pc.RWait? || pc.RTest? || pc.RTake? || pc.RBump? || pc.Clear? || pc.Check?
  }

  /** The lock is held by the process whose place says so. */
  predicate LockOk(s: State, p: int)
    requires 0 <= p < |s.procs|
  {
    s.lock == p <==> Holds(s.procs[p].pc)
  }

  lemma StoreRing(s: State, p: nat)
    requires Ring(s) && IoEnabled(s, p, Store) && Midway(s, s.procs[p].pc)
    ensures Ring(IoNext(s, p, Store))
  {
    Tests(s);
    var s' := IoNext(s, p, Store);
    hide IoEnabled, IoNext;
    forall k | |s.got| <= k < |s.put|
      ensures s'.data[k % PIPESIZE] == s.put[k]
    {
      Slots(|s.got|, |s.put|, k);
    }
  }

  lemma PutRing(s: State, p: nat)
    requires Ring(s) && IoEnabled(s, p, BumpWrite) && Midway(s, s.procs[p].pc)
    ensures Ring(IoNext(s, p, BumpWrite))
  {
    Tests(s);
    Count(|s.put|);
  }

  lemma GotRing(s: State, p: nat, ok: bool)
    requires Ring(s) && IoEnabled(s, p, BumpRead(ok)) && Midway(s, s.procs[p].pc)
    ensures Ring(IoNext(s, p, BumpRead(ok)))
  {
    Tests(s);
    Count(|s.got|);
    assert s.put[..|s.got| + 1] == s.put[..|s.got|] + [s.put[|s.got|]];
  }

  /** Other steps leave the ring alone. */
  lemma OtherRing(s: State, p: nat, op: IoOp)
    requires IoEnabled(s, p, op) && !op.Store? && !op.BumpWrite? && !op.BumpRead?
    ensures var s' := IoNext(s, p, op);
            s'.data == s.data && s'.nread == s.nread && s'.nwrite == s.nwrite && s'.put == s.put && s'.got == s.got
  {
  }

  lemma RingStep(s: State, p: nat, op: IoOp)
    requires Ring(s) && IoEnabled(s, p, op) && Midway(s, s.procs[p].pc)
    ensures Ring(IoNext(s, p, op))
  {
    hide IoEnabled, IoNext, Midway;
    match op
    case Store => StoreRing(s, p);
    case BumpWrite => PutRing(s, p);
    case BumpRead(ok) => GotRing(s, p, ok);
    case _ => OtherRing(s, p, op);
  }

  /** The slot for the next byte is not one of those in use. */
  lemma Slots(r: nat, w: nat, k: nat)
    requires r <= k < w < r + PIPESIZE
    ensures k % PIPESIZE != w % PIPESIZE
  {
    assert w - k == PIPESIZE * (w / PIPESIZE - k / PIPESIZE) + w % PIPESIZE - k % PIPESIZE;
  }

  lemma Count(n: nat)
    ensures (n % WRAP + 1) % WRAP == (n + 1) % WRAP
  {
  }

  /** What the tests mean. */
  predicate TestsMean(s: State) {
    && |s.data| == PIPESIZE && |s.got| <= |s.put| <= |s.got| + PIPESIZE
    && (Full(s) <==> |s.put| == |s.got| + PIPESIZE)
    && (s.nread == s.nwrite <==> |s.put| == |s.got|)
  }

  lemma RingTests(s: State)
    requires Ring(s)
    ensures TestsMean(s)
  {
    Tests(s);
  }

  predicate Reads(op: IoOp) {
    op.Read? || op.ReadQuit? || op.ReadEmpty? || op.ReadGo? || op.ReadEnough? || op.ReadNext? || op.Fetch?
    || op.BumpRead? || op.Reread?
  }

  lemma CountSelf(s: State, p: nat, op: IoOp)
    requires TestsMean(s) && IoEnabled(s, p, op) && MidCount(s, s.procs[p].pc)
    ensures p < |IoNext(s, p, op).procs| && MidCount(IoNext(s, p, op), IoNext(s, p, op).procs[p].pc)
  {
    hide TestsMean, IoEnabled, IoNext, MidCount;
    if Reads(op) {
      CountRead(s, p, op);
    } else {
      CountWrite(s, p, op);
    }
  }

  lemma CountRead(s: State, p: nat, op: IoOp)
    requires Reads(op) && TestsMean(s) && IoEnabled(s, p, op) && MidCount(s, s.procs[p].pc)
    ensures p < |IoNext(s, p, op).procs| && MidCount(IoNext(s, p, op), IoNext(s, p, op).procs[p].pc)
  {
    hide Full, Woken;
  }

  lemma CountWrite(s: State, p: nat, op: IoOp)
    requires !Reads(op) && TestsMean(s) && IoEnabled(s, p, op) && MidCount(s, s.procs[p].pc)
    ensures p < |IoNext(s, p, op).procs| && MidCount(IoNext(s, p, op), IoNext(s, p, op).procs[p].pc)
  {
    hide Full, Woken;
  }

  lemma DataSelf(s: State, p: nat, op: IoOp)
    requires IoEnabled(s, p, op)
    ensures MidData(IoNext(s, p, op), IoNext(s, p, op).procs[p].pc)
  {
    hide Full;
    if op.Store? || op.Fetch? {
    } else {
      NotMoving(s, p, op);
    }
  }

  lemma NotMoving(s: State, p: nat, op: IoOp)
    requires IoEnabled(s, p, op) && !op.Store? && !op.Fetch?
    ensures var s' := IoNext(s, p, op); |s'.data| == PIPESIZE && !s'.procs[p].pc.WBump? && !s'.procs[p].pc.RBump?
  {
    hide Full;
  }

  lemma MidwaySelf(s: State, p: nat, op: IoOp)
    requires TestsMean(s) && IoEnabled(s, p, op) && Midway(s, s.procs[p].pc)
    ensures Midway(IoNext(s, p, op), IoNext(s, p, op).procs[p].pc)
  {
    hide TestsMean, IoEnabled, IoNext, MidCount, MidData;
    IoSize(s, p, op);
    CountSelf(s, p, op);
    DataSelf(s, p, op);
  }

  lemma MidwayOther(s: State, p: nat, op: IoOp, r: nat)
    requires IoEnabled(s, p, op) && LockOk(s, p) && r < |s.procs| && r != p && LockOk(s, r) && Midway(s, s.procs[r].pc)
    ensures Midway(IoNext(s, p, op), IoNext(s, p, op).procs[r].pc)
  {
    hide Full;
  }

  lemma MidwayStep(s: State, p: nat, op: IoOp, r: nat)
    requires Ring(s) && IoEnabled(s, p, op) && LockOk(s, p) && r < |s.procs| && LockOk(s, r)
    requires Midway(s, s.procs[p].pc) && Midway(s, s.procs[r].pc)
    ensures r < |IoNext(s, p, op).procs| && Midway(IoNext(s, p, op), IoNext(s, p, op).procs[r].pc)
  {
    hide Ring, IoEnabled, IoNext, Midway, LockOk, TestsMean;
    RingTests(s);
    IoSize(s, p, op);
    if r == p {
      MidwaySelf(s, p, op);
    } else {
      MidwayOther(s, p, op, r);
    }
  }

  lemma IoSize(s: State, p: nat, op: IoOp)
    requires IoEnabled(s, p, op)
    ensures p < |s.procs| == |IoNext(s, p, op).procs|
  {
    hide Full;
  }

  // ---- the two ends

  predicate InWrite(pc: Pc) {
    pc.WTest? || pc.WSleep? || pc.WPut? || pc.WBump?
  }

  predicate InRead(pc: Pc) {
    pc.RWait? || pc.RSleep? || pc.RTest? || pc.RTake? || pc.RBump?
  }

  /** Dropped the last reference to this end, which is not closed yet. */
  predicate Dropping(pc: Pc, end: End) {
    pc == Dropped(end) || pc == Clear(end)
  }

  predicate IsOpen(s: State, end: End) {
    (end.ReadEnd? && s.readopen) || (end.WriteEnd? && s.writeopen)
  }

  predicate Closed(s: State) {
    !s.readopen && !s.writeopen
  }

  /** The end a process uses is open; a process that closes has no end any more. */
  predicate Alone(s: State, p: int)
    requires 0 <= p < |s.procs|
  {
    var pc, has := s.procs[p].pc, s.procs[p].has;
    && (InWrite(pc) ==> has.WriteEnd?) && (InRead(pc) ==> has.ReadEnd?)
    && (pc.Dropped? || pc.Clear? || pc.Check? || pc.Freeing? ==> has.NoEnd?)
    && (!has.NoEnd? ==> IsOpen(s, has))
    && (pc.Dropped? || pc.Clear? ==> IsOpen(s, pc.end))
    && (pc.Freeing? ==> Closed(s) && s.freed == 0)
    && (pc.Check? && Closed(s) ==> s.freed == 0)
  }

  /** Two processes: a dropped end is nobody's and dropped once; the pipe is freed by one process. */
  predicate Pair(s: State, p: int, q: int)
    requires 0 <= p < |s.procs| && 0 <= q < |s.procs|
  {
    var a, b := s.procs[p], s.procs[q];
    && ((a.pc.Dropped? || a.pc.Clear?) ==> b.has != a.pc.end && (p != q ==> !Dropping(b.pc, a.pc.end)))
    && (p != q && a.pc.Freeing? ==> !b.pc.Freeing? && !b.pc.Check?)
  }

  /** The process keeps this end open. */
  predicate Keeps(s: State, p: int, end: End) {
    0 <= p < |s.procs| && (s.procs[p].has == end || Dropping(s.procs[p].pc, end))
  }

  predicate LastCloser(s: State, p: int) {
    0 <= p < |s.procs| && (s.procs[p].pc.Check? || s.procs[p].pc.Freeing?)
  }

  ghost predicate Ends(s: State) {
    && (forall p :: 0 <= p < |s.procs| ==> Alone(s, p) && LockOk(s, p))
    && (forall p, q :: 0 <= p < |s.procs| && 0 <= q < |s.procs| ==> Pair(s, p, q))
    && s.freed <= 1 && (!Closed(s) ==> s.freed == 0)
    && (s.readopen ==> exists p :: Keeps(s, p, ReadEnd))
    && (s.writeopen ==> exists p :: Keeps(s, p, WriteEnd))
    && (Closed(s) ==> s.freed == 1 || exists p :: LastCloser(s, p))
  }

  /** Reading and writing change nothing about the ends: the process stays with its end. */
  lemma IoKeeps(s: State, p: nat, op: IoOp)
    requires IoEnabled(s, p, op) && Alone(s, p) && LockOk(s, p)
    ensures var s' := IoNext(s, p, op);
            && |s'.procs| == |s.procs| && s'.readopen == s.readopen && s'.writeopen == s.writeopen
            && s'.freed == s.freed
            && s'.procs == s.procs[p := s.procs[p].(pc := s'.procs[p].pc)]
            && (s'.procs[p].pc.Idle? || InWrite(s'.procs[p].pc) || InRead(s'.procs[p].pc))
            && (s.procs[p].pc.Idle? || InWrite(s.procs[p].pc) || InRead(s.procs[p].pc))
            && Alone(s', p) && LockOk(s', p)
            && (s'.lock == s.lock || (s'.lock == p && s.lock == NOBODY) || (s'.lock == NOBODY && s.lock == p))
  {
  }

  lemma IoEnds(s: State, p: nat, op: IoOp)
    requires Ends(s) && IoEnabled(s, p, op)
    ensures Ends(IoNext(s, p, op))
  {
    var s' := IoNext(s, p, op);
    IoKeeps(s, p, op);
    hide IoEnabled, IoNext, Holds;
    forall r | 0 <= r < |s'.procs|
      ensures Alone(s', r) && LockOk(s', r)
    {
      assert Alone(s, r) && LockOk(s, r);
    }
    forall q, r | 0 <= q < |s'.procs| && 0 <= r < |s'.procs|
      ensures Pair(s', q, r)
    {
      assert Pair(s, q, r);
    }
    if s.readopen {
      var w :| Keeps(s, w, ReadEnd);
      assert Keeps(s', w, ReadEnd);
    }
    if s.writeopen {
      var w :| Keeps(s, w, WriteEnd);
      assert Keeps(s', w, WriteEnd);
    }
  }

  lemma FdAlone(s: State, p: nat, op: FdOp, r: nat)
    requires FdEnabled(s, p, op) && r < |s.procs| && Alone(s, p) && Alone(s, r) && Pair(s, p, r) && Pair(s, r, p)
    requires LockOk(s, p) && LockOk(s, r) && (!Closed(s) ==> s.freed == 0)
    ensures |FdNext(s, p, op).procs| == |s.procs| && Alone(FdNext(s, p, op), r) && LockOk(FdNext(s, p, op), r)
  {
  }

  lemma FdPair(s: State, p: nat, op: FdOp, q: nat, r: nat)
    requires FdEnabled(s, p, op) && q < |s.procs| && r < |s.procs|
    requires Alone(s, p) && Alone(s, q) && Alone(s, r) && Pair(s, q, r) && Pair(s, r, q)
    requires Pair(s, p, q) && Pair(s, p, r) && Pair(s, q, p) && Pair(s, r, p)
    requires LockOk(s, p) && LockOk(s, q) && LockOk(s, r)
    ensures |FdNext(s, p, op).procs| == |s.procs| && Pair(FdNext(s, p, op), q, r)
  {
    hide LastRef;
    FdSize(s, p, op);
    NotLast(s, p, q);
    NotLast(s, p, r);
  }

  lemma NotLast(s: State, p: nat, q: nat)
    requires p < |s.procs| && q < |s.procs|
    ensures p != q && LastRef(s, p, s.procs[p].has) ==> s.procs[q].has != s.procs[p].has
  {
  }

  /** An end that stays open has somebody who keeps it. */
  lemma FdKeeps(s: State, p: nat, op: FdOp, end: End, w: int) returns (w': int)
    requires FdEnabled(s, p, op) && Keeps(s, w, end) && Alone(s, p) && !end.NoEnd?
    requires (end.ReadEnd? && FdNext(s, p, op).readopen) || (end.WriteEnd? && FdNext(s, p, op).writeopen)
    ensures Keeps(FdNext(s, p, op), w', end)
  {
    w' := w;
    if op.Close? && w == p && !LastRef(s, p, end) {
      w' :| 0 <= w' < |s.procs| && w' != p && s.procs[w'].has == end;
    }
  }

  lemma FdEnds(s: State, p: nat, op: FdOp)
    requires Ends(s) && FdEnabled(s, p, op)
    ensures Ends(FdNext(s, p, op))
  {
    var s' := FdNext(s, p, op);
    assert |s'.procs| == |s.procs| && Alone(s, p);
    assert s'.freed <= 1 && (!Closed(s') ==> s'.freed == 0);
    if s'.readopen {
      var w :| Keeps(s, w, ReadEnd);
      var _ := FdKeeps(s, p, op, ReadEnd, w);
    }
    if s'.writeopen {
      var w :| Keeps(s, w, WriteEnd);
      var _ := FdKeeps(s, p, op, WriteEnd, w);
    }
    if Closed(s') && s'.freed == 0 {
      if Closed(s) {
        var w :| LastCloser(s, w);
        assert LastCloser(s', w);
      } else {
        assert LastCloser(s', p);
      }
    }
    hide FdEnabled, FdNext, Alone, LockOk, Pair;
    forall r | 0 <= r < |s.procs|
      ensures Alone(s', r) && LockOk(s', r)
    {
      FdAlone(s, p, op, r);
    }
    forall q, r | 0 <= q < |s.procs| && 0 <= r < |s.procs|
      ensures Pair(s', q, r)
    {
      FdPair(s, p, op, q, r);
    }
  }

  // ---- whole runs

  ghost predicate Inv(s: State) {
    Ring(s) && Ends(s) && forall p :: 0 <= p < |s.procs| ==> Midway(s, s.procs[p].pc)
  }

  lemma IoInv(s: State, p: nat, op: IoOp)
    requires Inv(s) && IoEnabled(s, p, op)
    ensures Inv(IoNext(s, p, op))
  {
    IoEnds(s, p, op);
    RingStep(s, p, op);
    IoKeeps(s, p, op);
    hide Ring, Ends, IoNext, IoEnabled;
    var s' := IoNext(s, p, op);
    forall r | 0 <= r < |s'.procs|
      ensures Midway(s', s'.procs[r].pc)
    {
      EndsLock(s, p);
      EndsLock(s, r);
      MidwayStep(s, p, op, r);
    }
  }

  lemma EndsLock(s: State, r: nat)
    requires Ends(s) && r < |s.procs|
    ensures LockOk(s, r)
  {
  }

  /** Descriptor steps leave the ring alone, and whoever moves bytes. */
  lemma FdSame(s: State, p: nat, op: FdOp, r: nat)
    requires FdEnabled(s, p, op) && r < |s.procs|
    ensures var s' := FdNext(s, p, op);
            && |s'.procs| == |s.procs| && s'.data == s.data && s'.nread == s.nread && s'.nwrite == s.nwrite
            && s'.put == s.put && s'.got == s.got
            && (s'.procs[r].pc == s.procs[r].pc || !Moving(s'.procs[r].pc))
  {
  }

  predicate Moving(pc: Pc) {
    pc.WTest? || pc.WPut? || pc.WBump? || pc.RTake? || pc.RBump?
  }

  lemma StillMidway(s: State, s': State, pc: Pc, pc': Pc)
    requires Midway(s, pc) && s'.data == s.data && s'.nread == s.nread && s'.nwrite == s.nwrite
    requires s'.put == s.put && s'.got == s.got && (pc' == pc || !Moving(pc'))
    ensures Midway(s', pc')
  {
  }

  lemma FdInv(s: State, p: nat, op: FdOp)
    requires Inv(s) && FdEnabled(s, p, op)
    ensures Inv(FdNext(s, p, op))
  {
    var s' := FdNext(s, p, op);
    hide Ends, FdEnabled, FdNext, Midway, Moving;
    FdEnds(s, p, op);
    FdSame(s, p, op, p);
    forall r | 0 <= r < |s'.procs|
      ensures Midway(s', s'.procs[r].pc)
    {
      FdSame(s, p, op, r);
      StillMidway(s, s', s.procs[r].pc, s'.procs[r].pc);
    }
  }

  ghost predicate Run(s: State, steps: seq<Step>, end: State)
    decreases |steps|
  {
    if steps == [] then s == end else Enabled(s, steps[0]) && Run(Next(s, steps[0]), steps[1..], end)
  }

  lemma StepInv(s: State, step: Step)
    requires Inv(s) && Enabled(s, step)
    ensures Inv(Next(s, step))
  {
    hide Inv, IoNext, FdNext, IoEnabled, FdEnabled;
    match step
    case Io(p, op) => IoInv(s, p, op);
    case Fd(p, op) => FdInv(s, p, op);
  }

  lemma {:induction false} InvRun(s: State, steps: seq<Step>, end: State)
    requires Inv(s) && Run(s, steps, end)
    ensures Inv(end)
    decreases |steps|
  {
    hide Inv, Enabled, Next;
    if steps != [] {
      StepInv(s, steps[0]);
      InvRun(Next(s, steps[0]), steps[1..], end);
    }
  }

  ghost predicate Reachable(s: State) {
    exists start, steps :: Start(start) && Run(start, steps, s)
  }

  lemma StartInv(s: State)
    requires Start(s)
    ensures Inv(s)
  {
    assert s.put[..0] == [];
    assert Keeps(s, 0, ReadEnd) && Keeps(s, 1, WriteEnd);
  }

  lemma ReachableInv(s: State)
    requires Reachable(s)
    ensures Inv(s)
  {
    hide Inv;
    var start, steps :| Start(start) && Run(start, steps, s);
    StartInv(start);
    InvRun(start, steps, s);
  }

  /** In every interleaving the bytes taken out are a prefix of the bytes put in, and at most PIPESIZE are in
      between. */
  lemma Fifo(s: State)
    requires Reachable(s)
    ensures s.got <= s.put && |s.put| - |s.got| <= PIPESIZE
  {
    ReachableInv(s);
  }

  /** The pipe is freed at most once, and only when both ends are closed, nobody has one, and nobody is in the
      code of the pipe. */
  lemma FreedOnce(s: State, p: nat)
    requires Reachable(s) && p < |s.procs|
    ensures s.freed <= 1
    ensures s.freed == 1 ==> !s.readopen && !s.writeopen && s.procs[p].has.NoEnd? && s.procs[p].pc.Idle?
  {
    ReachableInv(s);
    assert Alone(s, p);
  }

  /** ... and it is freed when all processes have closed their ends and left. */
  lemma NoLeak(s: State)
    requires Reachable(s) && forall p :: 0 <= p < |s.procs| ==> s.procs[p].pc.Idle? && s.procs[p].has.NoEnd?
    ensures s.freed == 1
  {
    ReachableInv(s);
  }

  /** A read that finds nothing to copy reports the end of the file truly: the ring is empty and the write end
      is closed. */
  lemma EndOfFile(s: State, p: nat)
    requires Reachable(s) && IoEnabled(s, p, ReadGo) && s.nread == s.nwrite
    ensures s.got == s.put && !s.writeopen
  {
    ReachableInv(s);
    Tests(s);
  }

  // ---- sleepers

  predicate InRange(s: State, q: int) {
    0 <= q < |s.procs|
  }

  /** Asleep on nread or nwrite, with no wakeup since. */
  predicate ReaderAsleep(s: State, q: int) {
    InRange(s, q) && s.procs[q].pc.RSleep? && !Woken(s.procs[q].pc.since, s.rwakes)
  }

  predicate WriterAsleep(s: State, q: int) {
    InRange(s, q) && s.procs[q].pc.WSleep? && !Woken(s.procs[q].pc.since, s.wwakes)
  }

  /** The process with the lock has moved bytes since it got the lock, and has not called wakeup yet. */
  predicate Storing(s: State) {
    InRange(s, s.lock) && var pc := s.procs[s.lock].pc; (pc.WTest? || pc.WPut? || pc.WBump?) && pc.i > pc.base
  }

  predicate Taking(s: State) {
    InRange(s, s.lock) && var pc := s.procs[s.lock].pc; (pc.RTest? || pc.RTake? || pc.RBump?) && pc.i > 0
  }

  /** A reader sleeps only on an empty pipe that may still be written, a writer only on a full one that may
      still be read. */
  predicate ReaderFine(s: State, q: int) {
    && (InRange(s, q) && s.procs[q].pc.RSleep? ==> s.procs[q].pc.since <= s.rwakes)
    && (ReaderAsleep(s, q) ==> Storing(s) || (|s.put| == |s.got| && s.writeopen))
  }

  predicate WriterFine(s: State, q: int) {
    && (InRange(s, q) && s.procs[q].pc.WSleep? ==> s.procs[q].pc.since <= s.wwakes)
    && (WriterAsleep(s, q) ==> Taking(s) || (|s.put| == |s.got| + PIPESIZE && s.readopen))
  }

  /** Every step but a writer's early return keeps readers from sleeping through bytes; that one does too if
      it has stored none since it got the lock. */
  lemma ReaderIo(s: State, p: nat, op: IoOp, q: nat)
    requires TestsMean(s) && IoEnabled(s, p, op) && Midway(s, s.procs[p].pc) && ReaderFine(s, q) && q < |s.procs|
    requires LockOk(s, p) && LockOk(s, q)
    requires (op.WriteQuit? ==> s.procs[p].pc.i == s.procs[p].pc.base || !ReaderAsleep(s, q))
    ensures ReaderFine(IoNext(s, p, op), q)
  {
    hide Full;
    IoSize(s, p, op);
  }

  lemma WriterIo(s: State, p: nat, op: IoOp, q: nat)
    requires TestsMean(s) && IoEnabled(s, p, op) && Midway(s, s.procs[p].pc) && WriterFine(s, q) && q < |s.procs|
    requires LockOk(s, p) && LockOk(s, q)
    ensures WriterFine(IoNext(s, p, op), q)
  {
    hide Full;
  }

  lemma ReaderFd(s: State, p: nat, op: FdOp, q: nat)
    requires FdEnabled(s, p, op) && ReaderFine(s, q) && q < |s.procs| && LockOk(s, p) && LockOk(s, q)
    ensures ReaderFine(FdNext(s, p, op), q)
  {
  }

  lemma WriterFd(s: State, p: nat, op: FdOp, q: nat)
    requires FdEnabled(s, p, op) && WriterFine(s, q) && q < |s.procs| && LockOk(s, p) && LockOk(s, q)
    ensures WriterFine(FdNext(s, p, op), q)
  {
  }

  ghost predicate WritersFine(s: State) {
    forall q :: 0 <= q < |s.procs| ==> WriterFine(s, q)
  }

  ghost predicate ReadersFine(s: State) {
    forall q :: 0 <= q < |s.procs| ==> ReaderFine(s, q)
  }

  lemma InvParts(s: State, p: nat)
    requires Inv(s) && p < |s.procs|
    ensures TestsMean(s) && Midway(s, s.procs[p].pc) && LockOk(s, p)
  {
    hide TestsMean;
    RingTests(s);
  }

  lemma SameSize(s: State, step: Step)
    requires Enabled(s, step)
    ensures step.p < |s.procs| == |Next(s, step).procs|
  {
    hide Full;
    match step {
      case Io(p, op) => IoSize(s, p, op);
      case Fd(p, op) => FdSize(s, p, op);
    }
  }

  lemma FdSize(s: State, p: nat, op: FdOp)
    requires FdEnabled(s, p, op)
    ensures p < |s.procs| == |FdNext(s, p, op).procs|
  {
    hide LastRef;
  }

  lemma WritersStep(s: State, step: Step)
    requires Inv(s) && WritersFine(s) && Enabled(s, step)
    ensures WritersFine(Next(s, step))
  {
    hide Inv, IoEnabled, FdEnabled, IoNext, FdNext, Midway, LockOk, TestsMean, WriterFine;
    var s' := Next(s, step);
    SameSize(s, step);
    InvParts(s, step.p);
    forall q | 0 <= q < |s'.procs|
      ensures WriterFine(s', q)
    {
      InvParts(s, q);
      match step {
        case Io(p, op) => WriterIo(s, p, op, q);
        case Fd(p, op) => WriterFd(s, p, op, q);
      }
    }
  }

  /** A step that does not return early with bytes stored while a reader sleeps. */
  ghost predicate Polite(s: State, step: Step)
    requires Enabled(s, step)
  {
    step.Io? && step.io.WriteQuit? && s.procs[step.p].pc.base < s.procs[step.p].pc.i ==>
      forall q :: !ReaderAsleep(s, q)
  }

  lemma ReadersStep(s: State, step: Step)
    requires Inv(s) && ReadersFine(s) && Enabled(s, step) && Polite(s, step)
    ensures ReadersFine(Next(s, step))
  {
    hide Inv, IoEnabled, FdEnabled, IoNext, FdNext, Midway, LockOk, TestsMean, ReaderFine;
    var s' := Next(s, step);
    SameSize(s, step);
    if step.Io? && step.io.WriteQuit? {
      QuitPlace(s, step);
    }
    InvParts(s, step.p);
    forall q | 0 <= q < |s'.procs|
      ensures ReaderFine(s', q)
    {
      InvParts(s, q);
      match step {
        case Io(p, op) => ReaderIo(s, p, op, q);
        case Fd(p, op) => ReaderFd(s, p, op, q);
      }
    }
  }

  lemma QuitPlace(s: State, step: Step)
    requires Inv(s) && Enabled(s, step) && step.Io? && step.io.WriteQuit?
    ensures var pc := s.procs[step.p].pc; pc.WTest? && pc.base <= pc.i
  {
    InvParts(s, step.p);
  }

  /** With the lock free, no reader sleeps while there are bytes to read or nobody will write any. */
  ghost predicate Awake(s: State) {
    s.lock == NOBODY ==> forall q :: ReaderAsleep(s, q) ==> |s.put| == |s.got| && s.writeopen
  }

  lemma FineAwake(s: State)
    requires ReadersFine(s)
    ensures Awake(s)
  {
    forall q | s.lock == NOBODY && ReaderAsleep(s, q)
      ensures |s.put| == |s.got| && s.writeopen
    {
      assert ReaderFine(s, q);
    }
  }

  lemma ImpoliteStrands(s: State, step: Step)
    requires Inv(s) && Enabled(s, step) && !Polite(s, step)
    ensures !Awake(Next(s, step))
  {
    var s', p := Next(s, step), step.p;
    InvParts(s, p);
    var q :| ReaderAsleep(s, q);
    assert q != p && ReaderAsleep(s', q) && s'.lock == NOBODY && |s'.got| < |s'.put|;
  }

  ghost predicate AllAwake(s: State, steps: seq<Step>, end: State)
    requires Run(s, steps, end)
    decreases |steps|
  {
    Awake(s) && (steps != [] ==> AllAwake(Next(s, steps[0]), steps[1..], end))
  }

  ghost predicate AllPolite(s: State, steps: seq<Step>, end: State)
    requires Run(s, steps, end)
    decreases |steps|
  {
    steps != [] ==> Polite(s, steps[0]) && AllPolite(Next(s, steps[0]), steps[1..], end)
  }

  lemma {:induction false} AwakeRun(s: State, steps: seq<Step>, end: State)
    requires Inv(s) && ReadersFine(s) && Run(s, steps, end)
    ensures AllAwake(s, steps, end) <==> AllPolite(s, steps, end)
    decreases |steps|
  {
    hide Inv, ReadersFine, Awake, Polite, Enabled, Next;
    FineAwake(s);
    if steps != [] {
      var s' := Next(s, steps[0]);
      StepInv(s, steps[0]);
      if Polite(s, steps[0]) {
        ReadersStep(s, steps[0]);
        AwakeRun(s', steps[1..], end);
      } else {
        ImpoliteStrands(s, steps[0]);
        AwakeStarts(s', steps[1..], end);
      }
    }
  }

  lemma AwakeStarts(s: State, steps: seq<Step>, end: State)
    requires Run(s, steps, end)
    ensures AllAwake(s, steps, end) ==> Awake(s)
  {
  }

  /** A run never strands a reader if and only if no killed writer returns early after storing bytes while a
      reader sleeps. */
  lemma ReadersAwake(start: State, steps: seq<Step>, end: State)
    requires Start(start) && Run(start, steps, end)
    ensures AllAwake(start, steps, end) <==> AllPolite(start, steps, end)
  {
    hide Inv, Run;
    StartInv(start);
    AwakeRun(start, steps, end);
  }

  lemma {:induction false} WritersRun(s: State, steps: seq<Step>, end: State)
    requires Inv(s) && WritersFine(s) && Run(s, steps, end)
    ensures WritersFine(end)
    decreases |steps|
  {
    hide Inv, WritersFine, Enabled, Next;
    if steps != [] {
      StepInv(s, steps[0]);
      WritersStep(s, steps[0]);
      WritersRun(Next(s, steps[0]), steps[1..], end);
    }
  }

  /** No writer is ever stranded: with the lock free it sleeps only on a full pipe that may still be read. */
  lemma WritersAwake(s: State, q: nat)
    requires Reachable(s) && s.lock == NOBODY && WriterAsleep(s, q)
    ensures |s.put| == |s.got| + PIPESIZE && s.readopen
  {
    var start, steps :| Start(start) && Run(start, steps, s);
    StartInv(start);
    WritersRun(start, steps, s);
    assert WriterFine(s, q);
  }

  /** The next step of a process, by its place. */
  function Onward(s: State, p: nat): Step
    requires p < |s.procs|
  {
    var more := s.readopen && !s.procs[p].killed;
    match s.procs[p].pc
    case WTest(src, i, _) =>
      Io(p, if i >= |src| then WriteDone else if !more then WriteQuit else if Full(s) then WriteFull else WriteGo)
    case WSleep(_, _, _) => Io(p, Rewrite)
    case WPut(_, _, _) => Io(p, Store)
    case WBump(_, _, _) => Io(p, BumpWrite)
    case RWait(_) =>
      Io(p, if s.nread != s.nwrite || !s.writeopen then ReadGo else if s.procs[p].killed then ReadQuit else ReadEmpty)
    case RSleep(_, _) => Io(p, Reread)
    case RTest(n, i) => Io(p, if i >= n || s.nread == s.nwrite then ReadEnough else ReadNext)
    case RTake(_, _) => Io(p, Fetch)
    case RBump(_, _, _) => Io(p, BumpRead(true))
    case Dropped(_) => Fd(p, TakeClose)
    case Clear(_) => Fd(p, ClearOpen)
    case Check => Fd(p, CheckBoth)
    case Freeing => Fd(p, Kfree)
    case Idle => Fd(p, Close)
  }

  /** With the lock free or its own, a process in the pipe's code that is not asleep can go on. */
  lemma NeverStuck(s: State, p: nat)
    requires Reachable(s) && p < |s.procs| && (s.lock == NOBODY || s.lock == p)
    requires !s.procs[p].pc.Idle? && !ReaderAsleep(s, p) && !WriterAsleep(s, p)
    ensures Enabled(s, Onward(s, p)) && p < |Next(s, Onward(s, p)).procs|
    ensures Next(s, Onward(s, p)).procs[p].pc != s.procs[p].pc
  {
    hide Inv, Enabled, Next, MidCount, MidData;
    ReachableInv(s);
    InvParts(s, p);
    match Onward(s, p) {
      case Io(_, _) => IoOn(s, p);
      case Fd(_, _) => FdOn(s, p);
    }
  }

  lemma IoOn(s: State, p: nat)
    requires p < |s.procs| && Onward(s, p).Io? && |s.data| == PIPESIZE && MidCount(s, s.procs[p].pc) && LockOk(s, p)
    requires (s.lock == NOBODY || s.lock == p) && !ReaderAsleep(s, p) && !WriterAsleep(s, p)
    ensures Enabled(s, Onward(s, p)) && p < |Next(s, Onward(s, p)).procs|
    ensures Next(s, Onward(s, p)).procs[p].pc != s.procs[p].pc
  {
    hide Full, FdEnabled, FdNext;
  }

  lemma FdOn(s: State, p: nat)
    requires p < |s.procs| && Onward(s, p).Fd? && !s.procs[p].pc.Idle? && LockOk(s, p)
    requires s.lock == NOBODY || s.lock == p
    ensures Enabled(s, Onward(s, p)) && p < |Next(s, Onward(s, p)).procs|
    ensures Next(s, Onward(s, p)).procs[p].pc != s.procs[p].pc
  {
    hide Full, IoEnabled, IoNext;
  }

  lemma {:induction false} RunMore(s: State, steps: seq<Step>, mid: State, step: Step)
    requires Run(s, steps, mid) && Enabled(mid, step)
    ensures Run(s, steps + [step], Next(mid, step))
    decreases |steps|
  {
    hide Enabled, Next;
    if steps == [] {
      assert Run(Next(mid, step), [], Next(mid, step));
    } else {
      assert (steps + [step])[1..] == steps[1..] + [step];
      RunMore(Next(s, steps[0]), steps[1..], mid, step);
    }
  }

  /** The run so far, and one more step. */
  ghost predicate Ran(start: State, s: State) {
    exists steps :: Run(start, steps, s)
  }

  lemma RanMore(start: State, s: State, step: Step)
    requires Ran(start, s) && Enabled(s, step)
    ensures Ran(start, Next(s, step))
  {
    hide Enabled, Next;
    var steps :| Run(start, steps, s);
    RunMore(start, steps, s, step);
  }

  /** A reader finds the pipe empty and goes to sleep. */
  lemma ReaderSleeps(s0: State) returns (s: State)
    requires Start(s0) && |s0.procs| == 2
    ensures Ran(s0, s)
    ensures s == s0.(procs := [Proc(RSleep(1, 0), ReadEnd, false), s0.procs[1]])
  {
    assert Run(s0, [], s0);
    var s1 := Next(s0, Io(0, Read(1)));
    RanMore(s0, s0, Io(0, Read(1)));
    s := Next(s1, Io(0, ReadEmpty));
    RanMore(s0, s1, Io(0, ReadEmpty));
  }

  /** A writer stores a byte. */
  lemma WriterStores(s0: State, s: State) returns (s': State)
    requires Start(s0) && |s0.procs| == 2 && Ran(s0, s)
    requires s == s0.(procs := [Proc(RSleep(1, 0), ReadEnd, false), s0.procs[1]])
    ensures Ran(s0, s') && |s'.procs| == 2 && s'.procs[0] == s.procs[0] && s'.procs[1].pc == WTest([0, 0], 1, 0)
    ensures s'.rwakes == 0 && |s'.put| == 1 && |s'.got| == 0 && |s'.data| == PIPESIZE
  {
    var s3 := Next(s, Io(1, Write([0, 0])));
    RanMore(s0, s, Io(1, Write([0, 0])));
    var s4 := Next(s3, Io(1, WriteGo));
    RanMore(s0, s3, Io(1, WriteGo));
    var s5 := Next(s4, Io(1, Store));
    RanMore(s0, s4, Io(1, Store));
    s' := Next(s5, Io(1, BumpWrite));
    RanMore(s0, s5, Io(1, BumpWrite));
  }

  /** It happens: a reader goes to sleep, a writer stores a byte, is killed, and returns. */
  lemma ReaderStranded()
    ensures exists start, steps, end :: Start(start) && Run(start, steps, end) && !Awake(end)
  {
    hide Ran;
    var a, b := Proc(Idle, ReadEnd, false), Proc(Idle, WriteEnd, false);
    var s0 := State([a, b], NOBODY, seq(PIPESIZE, _ => 0), 0, 0, true, true, 0, [], [], 0, 0);
    var s2 := ReaderSleeps(s0);
    var s6 := WriterStores(s0, s2);
    var s7 := Next(s6, Fd(1, Kill));
    RanMore(s0, s6, Fd(1, Kill));
    var s8 := Next(s7, Io(1, WriteQuit));
    RanMore(s0, s7, Io(1, WriteQuit));
    assert ReaderAsleep(s8, 0) && s8.lock == NOBODY && |s8.put| == 1 && |s8.got| == 0;
    RanIs(s0, s8);
  }

  lemma RanIs(start: State, s: State)
    requires Ran(start, s)
    ensures exists steps :: Run(start, steps, s)
  {
  }
}
