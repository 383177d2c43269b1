/** kernel/virtio_disk.c: any number of processes call virtio_disk_rw, the interrupt handler runs at any
    time, and the device takes and completes requests in any order, all interleaved. The device follows
    sections 2.6 and 5.2 of Virtio 1.1. */
module Virtio {
  import opened Common

  const NUM: nat := 8
  const WRAP: nat := 0x1_0000   // ring indices are 16-bit unsigned

  /** Where a process is in virtio_disk_rw. */
  datatype Pc =
    | Idle
    | Trying      // before alloc3_desc, holding the lock
    | Starved(since: int)  // in sleep(&disk.free[0]), when that had been woken up so often; -1 if killed since
    | Formatted   // descriptors filled in, before the avail ring is written
    | Listed      // before avail->idx is incremented
    | Waiting     // at the test of b->disk
    | Asleep(up: bool)     // in sleep(b), made runnable since or not
    | Freeing(n: nat, i: int)   // in free_chain, n descriptors freed, i next

  /** How far a request has come: not with the device, in the avail ring at position k, being worked on,
      completed but not yet visible, in the used ring at position k, seen by the interrupt handler. */
  datatype Phase = Out | Queued(k: nat) | Working | Written | Completed(k: nat) | Acked

  /** A process, the buffer it has locked (b->disk), and its three descriptors. */
  datatype Req = Req(pc: Pc, disk: bool, d0: int, d1: int, d2: int, phase: Phase)

  datatype Desc = Desc(next: int, more: bool)
  datatype Info = Info(b: int, status: int)

  const NOBODY := -1
  const INTR := -2   // the interrupt handler, as holder of the lock

  /** `own` says whose descriptor each is; `pubs` and `dones` are the processes whose requests went into the
      avail and the used ring, in order, `seen` and `acks` how far the device and the handler have got;
      `work` are the heads the device works on, and whose they are; `entry` is a used entry being written;
      `wakes` counts the wakeups of those who wait for descriptors. */
  datatype State = State(reqs: seq<Req>, lock: int, free: seq<bool>, desc: seq<Desc>, info: seq<Info>,
                         avail: seq<int>, availIdx: nat, used: seq<int>, usedIdx: nat, usedSeen: nat, availSeen: nat,
                         own: seq<int>, pubs: seq<int>, dones: seq<int>, seen: nat, acks: nat,
                         work: map<int, int>, entry: int, wakes: nat)

  /** Steps of virtio_disk_rw, of the interrupt handler and of the device. */
  datatype DrvOp = Start | Alloc | Starve | Retry | List | Publish | Wait | Again | Finish | FreeOne | Kill
  datatype IntrOp = IntrStart | IntrOne | IntrEnd
  datatype DevOp = DevTake | DevWrite(h: int) | DevBump
  datatype Step = Drv(p: nat, d: DrvOp) | Intr(i: IntrOp) | Dev(v: DevOp)

  /** alloc_desc: the first free descriptor from i on, or NUM. */
  function FirstFree(free: seq<bool>, i: nat): (r: nat)
    requires i <= |free|
    ensures i <= r <= |free| && (r < |free| ==> free[r]) && forall j :: i <= j < r ==> !free[j]
    decreases |free| - i
  {
    if i == |free| || free[i] then i else FirstFree(free, i + 1)
  }

  /** alloc3_desc, when it succeeds. */
  function Three(free: seq<bool>): (d: (nat, nat, nat))
    ensures d.0 <= d.1 <= d.2 <= |free|
    ensures d.2 < |free| ==> d.0 < d.1 < d.2 && free[d.0] && free[d.1] && free[d.2]
  {
    var a := FirstFree(free, 0);
    var b := FirstFree(free, if a < |free| then a + 1 else a);
    var c := FirstFree(free, if b < |free| then b + 1 else b);
    (a, b, c)
  }

  /** alloc_desc: the first free descriptor, now taken; NUM if there is none. */
  method AllocDesc(free: seq<bool>) returns (free': seq<bool>, i: nat)
    ensures i == FirstFree(free, 0)
    ensures free' == if i < |free| then free[i := false] else free
  {
    i := 0;
    while i < |free|
      invariant i <= |free| && FirstFree(free, 0) == FirstFree(free, i)
    {
      if free[i] {
        return free[i := false], i;
      }
      i := i + 1;
    }
    return free, i;
  }

  /** alloc3_desc: the first three free descriptors, or none at all: what it took by then is given back. */
  method Alloc3Desc(free: seq<bool>) returns (ok: bool, free': seq<bool>, idx: seq<nat>)
    ensures var d := Three(free);
            && (ok <==> d.2 < |free|)
            && (ok ==> idx == [d.0, d.1, d.2] && free' == free[d.0 := false][d.1 := false][d.2 := false])
            && (!ok ==> free' == free)
  {
    idx, free' := [], free;
    while |idx| < 3
      invariant |idx| <= 3 && |free'| == |free| && Taken(free, free', idx)
      decreases 3 - |idx|
    {
      var i;
      ghost var before := free';
      free', i := AllocDesc(free');
      NextTaken(free, before, idx);
      if i == |free| {
        var j := 0;
        while j < |idx|
          invariant 0 <= j <= |idx| && |free'| == |free| && Taken(free, before, idx)
          invariant forall k :: 0 <= k < |free| ==> free'[k] == (before[k] || k in idx[..j])
        {
          free' := free'[idx[j] := true];
          assert idx[..j + 1] == idx[..j] + [idx[j]];
          j := j + 1;
        }
        assert idx[..j] == idx;
        return false, free', idx;
      }
      idx := idx + [i];
    }
    return true, free', idx;
  }

  /** These descriptors, the first free ones in order, have been taken. */
  ghost predicate Taken(free: seq<bool>, now: seq<bool>, idx: seq<nat>) {
    var d := Three(free);
    && |now| == |free| && |idx| <= 3
    && (|idx| >= 1 ==> idx[0] == d.0 < |free|)
    && (|idx| >= 2 ==> idx[1] == d.1 < |free|)
    && (|idx| >= 3 ==> idx[2] == d.2 < |free|)
    && now == if |idx| == 0 then free
              else if |idx| == 1 then free[d.0 := false]
              else if |idx| == 2 then free[d.0 := false][d.1 := false]
              else free[d.0 := false][d.1 := false][d.2 := false]
  }

  lemma NextTaken(free: seq<bool>, now: seq<bool>, idx: seq<nat>)
    requires Taken(free, now, idx) && |idx| < 3
    ensures var d := Three(free);
            FirstFree(now, 0) == if |idx| == 0 then d.0 else if |idx| == 1 then d.1 else d.2
    ensures forall k :: 0 <= k < |free| ==> free[k] == (now[k] || k in idx)
    ensures FirstFree(now, 0) == |free| ==> Three(free).2 == |free|
  {
  }

  predicate Shape(s: State) {
    |s.free| == |s.desc| == |s.info| == |s.avail| == |s.used| == |s.own| == NUM
  }

  predicate IsDesc(i: int) {
    0 <= i < NUM
  }

  function Goto(s: State, p: nat, pc: Pc): State
    requires p < |s.reqs|
  {
    s.(reqs := s.reqs[p := s.reqs[p].(pc := pc)])
  }

  predicate DrvEnabled(s: State, p: nat, op: DrvOp) {
    && Shape(s) && p < |s.reqs|
    && var r := s.reqs[p];
       match op
       case Start => r.pc.Idle? && s.lock == NOBODY
       case Alloc => r.pc.Trying? && Three(s.free).2 < NUM
       case Starve => r.pc.Trying? && Three(s.free).2 == NUM
       case Retry => r.pc.Starved? && r.pc.since < s.wakes && s.lock == NOBODY
       case List => r.pc.Formatted?
       case Publish => r.pc.Listed?
       case Wait => r.pc.Waiting? && r.disk
       case Again => r.pc.Asleep? && r.pc.up && s.lock == NOBODY
       case Finish => r.pc.Waiting? && !r.disk && IsDesc(r.d0)
       case FreeOne => r.pc.Freeing? && IsDesc(r.pc.i)
       case Kill => true
  }

  /** wakeup(b) and kill make a sleeper runnable. */
  function Roused(pc: Pc): Pc {
    match pc
    case Starved(_) => Starved(-1)
    case Asleep(_) => Asleep(true)
    case _ => pc
  }

  function DrvNext(s: State, p: nat, op: DrvOp): State
    requires DrvEnabled(s, p, op)
  {
    var r := s.reqs[p];
    match op
    case Start => Goto(s, p, Trying).(lock := p)
    case Alloc =>
      var d := Three(s.free);
      s.(reqs := s.reqs[p := Req(Formatted, true, d.0, d.1, d.2, Out)],
         free := s.free[d.0 := false][d.1 := false][d.2 := false],
         own := s.own[d.0 := p][d.1 := p][d.2 := p],
         desc := s.desc[d.0 := Desc(d.1, true)][d.1 := Desc(d.2, true)][d.2 := Desc(0, false)],
         info := s.info[d.0 := Info(p, 0xff)])
    case Starve => Goto(s, p, Starved(s.wakes)).(lock := NOBODY)
    case Retry => Goto(s, p, Trying).(lock := p)
    case List => Goto(s, p, Listed).(avail := s.avail[s.availIdx % NUM := r.d0])
    case Publish =>
      s.(reqs := s.reqs[p := r.(pc := Waiting, phase := Queued(|s.pubs|))],
         availIdx := (s.availIdx + 1) % WRAP, pubs := s.pubs + [p])
    case Wait => Goto(s, p, Asleep(false)).(lock := NOBODY)
    case Again => Goto(s, p, Waiting).(lock := p)
    case Finish => Goto(s, p, Freeing(0, r.d0)).(info := s.info[r.d0 := s.info[r.d0].(b := NOBODY)])
    case FreeOne =>
      var n, i := r.pc.n, r.pc.i;
      var s' := s.(free := s.free[i := true], own := s.own[i := NOBODY], desc := s.desc[i := Desc(0, false)],
                   wakes := s.wakes + 1);
      if s.desc[i].more then Goto(s', p, Freeing(n + 1, s.desc[i].next))
      else s'.(reqs := s.reqs[p := Req(Idle, r.disk, 0, 0, 0, Out)], lock := NOBODY)
    case Kill => Goto(s, p, Roused(r.pc))
  }

  /** The used entry that the handler looks at. */
  function UsedId(s: State): int
    requires Shape(s)
  {
    s.used[s.usedSeen % NUM]
  }

  predicate IntrEnabled(s: State, op: IntrOp) {
    && Shape(s)
    && match op
       case IntrStart => s.lock == NOBODY
       case IntrOne => s.lock == INTR && s.usedSeen != s.usedIdx && IsDesc(UsedId(s))
           && 0 <= s.info[UsedId(s)].b < |s.reqs|
       case IntrEnd => s.lock == INTR && s.usedSeen == s.usedIdx
  }

  function IntrNext(s: State, op: IntrOp): State
    requires IntrEnabled(s, op)
  {
    match op
    case IntrStart => s.(lock := INTR)
    case IntrOne =>
      var b := s.info[UsedId(s)].b;
      var r := s.reqs[b];
      s.(reqs := s.reqs[b := r.(pc := if r.pc.Asleep? then Roused(r.pc) else r.pc, disk := false,
                                phase := Step1(r.phase, Completed(s.acks), Acked))],
         usedSeen := (s.usedSeen + 1) % WRAP, acks := s.acks + 1)
    case IntrEnd => s.(lock := NOBODY)
  }

  /** A request comes from one phase to the next; in any other phase it stays. */
  function Step1(phase: Phase, from: Phase, to: Phase): Phase {
    if phase == from then to else phase
  }

  function Move(s: State, p: int, from: Phase, to: Phase): State {
    if 0 <= p < |s.reqs| then s.(reqs := s.reqs[p := s.reqs[p].(phase := Step1(s.reqs[p].phase, from, to))]) else s
  }

  predicate DevEnabled(s: State, op: DevOp) {
    && Shape(s)
    && match op
       case DevTake => s.availSeen != s.availIdx && s.seen < |s.pubs|
       case DevWrite(h) => h in s.work && IsDesc(h) && s.entry == NOBODY
       case DevBump => IsDesc(s.entry)
  }

  function DevNext(s: State, op: DevOp): State
    requires DevEnabled(s, op)
  {
    match op
    case DevTake =>
      var h, p := s.avail[s.availSeen % NUM], s.pubs[s.seen];
      Move(s, p, Queued(s.seen), Working).(availSeen := (s.availSeen + 1) % WRAP, seen := s.seen + 1,
                                           work := s.work[h := p])
    case DevWrite(h) =>
      Move(s, s.work[h], Working, Written)
        .(used := s.used[s.usedIdx % NUM := h], info := s.info[h := s.info[h].(status := 0)], work := s.work - {h},
          entry := h)
    case DevBump =>
      var p := s.own[s.entry];
      Move(s, p, Written, Completed(|s.dones|)).(usedIdx := (s.usedIdx + 1) % WRAP, dones := s.dones + [p],
                                                 entry := NOBODY)
  }

  predicate Enabled(s: State, step: Step) {
    match step
    case Drv(p, op) => DrvEnabled(s, p, op)
    case Intr(op) => IntrEnabled(s, op)
    case Dev(op) => DevEnabled(s, op)
  }

  function Next(s: State, step: Step): State
    requires Enabled(s, step)
  {
    match step
    case Drv(p, op) => DrvNext(s, p, op)
    case Intr(op) => IntrNext(s, op)
    case Dev(op) => DevNext(s, op)
  }

  predicate Begin(s: State) {
    && Shape(s) && s.lock == NOBODY
    && (forall p :: 0 <= p < |s.reqs| ==> s.reqs[p] == Req(Idle, false, 0, 0, 0, Out))
    && (forall i :: 0 <= i < NUM ==> s.free[i] && s.own[i] == NOBODY && s.info[i].b == NOBODY)
    && s.availIdx == s.usedIdx == s.usedSeen == s.availSeen == s.seen == s.acks == 0
    && s.pubs == s.dones == [] && s.work == map[] && s.entry == NOBODY && s.wakes == 0
  }

  // ---- the invariant

  predicate Flight(pc: Pc) {
    pc.Formatted? || pc.Listed? || pc.Waiting? || pc.Asleep?
  }

  predicate Holds(pc: Pc) {
    pc.Trying? || pc.Formatted? || pc.Listed? || pc.Waiting? || pc.Freeing?
  }

  /** The descriptor is one of those the request still has. */
  predicate Uses(r: Req, i: int) {
    if Flight(r.pc) then i == r.d0 || i == r.d1 || i == r.d2
    else r.pc.Freeing? && ((i == r.d0 && r.pc.n == 0) || (i == r.d1 && r.pc.n <= 1) || (i == r.d2 && r.pc.n <= 2))
  }

  /** A descriptor is free, or belongs to one request. */
  predicate OwnOk(s: State, i: int)
    requires Shape(s) && IsDesc(i)
  {
    && (s.free[i] <==> s.own[i] == NOBODY)
    && (s.own[i] != NOBODY ==> 0 <= s.own[i] < |s.reqs| && Uses(s.reqs[s.own[i]], i))
  }

  predicate Three3(r: Req) {
    IsDesc(r.d0) && IsDesc(r.d1) && IsDesc(r.d2) && r.d0 != r.d1 && r.d0 != r.d2 && r.d1 != r.d2
  }

  /** A request has three descriptors, linked in a chain. */
  predicate ChainOk(s: State, p: int)
    requires Shape(s) && 0 <= p < |s.reqs|
  {
    var r := s.reqs[p];
    && (Flight(r.pc) || r.pc.Freeing? ==> Three3(r))
    && (r.pc.Freeing? ==> r.pc.n <= 2 && r.pc.i == if r.pc.n == 0 then r.d0 else if r.pc.n == 1 then r.d1 else r.d2)
    && (Flight(r.pc) || (r.pc.Freeing? && r.pc.n == 0) ==> s.own[r.d0] == p && s.desc[r.d0] == Desc(r.d1, true))
    && (Flight(r.pc) || (r.pc.Freeing? && r.pc.n <= 1) ==> s.own[r.d1] == p && s.desc[r.d1] == Desc(r.d2, true))
    && (Flight(r.pc) || r.pc.Freeing? ==> s.own[r.d2] == p && !s.desc[r.d2].more)
    && (Flight(r.pc) ==> s.info[r.d0].b == p)
    && (r.pc.Listed? ==> s.avail[s.availIdx % NUM] == r.d0)
  }

  /** A request is where its phase says. */
  predicate PhaseOk(s: State, p: int)
    requires Shape(s) && 0 <= p < |s.reqs|
  {
    var r := s.reqs[p];
    && (r.phase.Out? <==> r.pc.Idle? || r.pc.Trying? || r.pc.Starved? || r.pc.Formatted? || r.pc.Listed?)
    && (r.pc.Freeing? ==> r.phase.Acked?)
    && (Flight(r.pc) ==> (r.disk <==> !r.phase.Acked?))
    && (r.phase.Queued? ==> s.seen <= r.phase.k < |s.pubs| && s.pubs[r.phase.k] == p)
    && (r.phase.Working? ==> r.d0 in s.work && s.work[r.d0] == p)
    && (r.phase.Written? ==> s.entry == r.d0)
    && (r.phase.Completed? ==> s.acks <= r.phase.k < |s.dones| && s.dones[r.phase.k] == p)
    && (r.phase.Written? || r.phase.Completed? ==> IsDesc(r.d0) && s.info[r.d0].status == 0)
  }

  predicate LockOk(s: State, p: int)
    requires 0 <= p < |s.reqs|
  {
    s.lock == p <==> Holds(s.reqs[p].pc)
  }

  /** The avail ring holds the heads of the requests that the device has not taken yet ... */
  predicate QueueOk(s: State, k: int)
    requires Shape(s) && 0 <= k < |s.pubs|
  {
    k >= s.seen ==>
          0 <= s.pubs[k] < |s.reqs| && s.reqs[s.pubs[k]].phase == Queued(k) && s.avail[k % NUM] == s.reqs[s.pubs[k]].d0
  }

  /** ... and the used ring those that it has completed and the handler has not seen. */
  predicate DoneOk(s: State, k: int)
    requires Shape(s) && 0 <= k < |s.dones|
  {
    k >= s.acks ==>
          0 <= s.dones[k] < |s.reqs| && s.reqs[s.dones[k]].phase == Completed(k)
          && s.used[k % NUM] == s.reqs[s.dones[k]].d0
  }

  predicate WorkOk(s: State, h: int) {
    h in s.work ==> 0 <= s.work[h] < |s.reqs| && s.reqs[s.work[h]].phase.Working? && s.reqs[s.work[h]].d0 == h
  }

  predicate Counters(s: State)
    requires Shape(s)
  {
    && s.seen <= |s.pubs| && s.acks <= |s.dones|
    && s.availIdx == |s.pubs| % WRAP && s.availSeen == s.seen % WRAP && s.usedIdx == |s.dones| % WRAP
    && s.usedSeen == s.acks % WRAP
    && (s.entry != NOBODY ==> && IsDesc(s.entry) && s.used[s.usedIdx % NUM] == s.entry && 0 <= s.own[s.entry] < |s.reqs|
                              && s.reqs[s.own[s.entry]].phase.Written? && s.reqs[s.own[s.entry]].d0 == s.entry)
  }

  ghost predicate Inv(s: State) {
    && Shape(s) && Counters(s)
    && (forall i :: 0 <= i < NUM ==> OwnOk(s, i))
    && (forall p :: 0 <= p < |s.reqs| ==> ChainOk(s, p) && PhaseOk(s, p) && LockOk(s, p))
    && (forall k :: 0 <= k < |s.pubs| ==> QueueOk(s, k))
    && (forall k :: 0 <= k < |s.dones| ==> DoneOk(s, k))
    && (forall h :: WorkOk(s, h))
  }

  // ---- no ring ever has more entries than slots

  lemma Head(s: State, p: int)
    requires Inv(s) && 0 <= p < |s.reqs| && Flight(s.reqs[p].pc)
    ensures IsDesc(s.reqs[p].d0) && s.own[s.reqs[p].d0] == p
  {
    assert ChainOk(s, p);
  }

  /** There are no more requests in flight than descriptors. */
  lemma Room(s: State, ps: seq<int>)
    requires Inv(s)
    requires forall i :: 0 <= i < |ps| ==> 0 <= ps[i] < |s.reqs| && Flight(s.reqs[ps[i]].pc)
    requires forall i, j :: 0 <= i < j < |ps| ==> ps[i] != ps[j]
    ensures |ps| <= NUM
  {
    var heads := seq(|ps|, k requires 0 <= k < |ps| => s.reqs[ps[k]].d0);
    forall k | 0 <= k < |ps|
      ensures IsDesc(heads[k]) && s.own[heads[k]] == ps[k]
    {
      Head(s, ps[k]);
    }
    hide Inv;
    var all := seq(NUM, i => i);
    assert forall k :: 0 <= k < |ps| ==> all[heads[k]] == heads[k];
    Pigeonhole(heads, all);
  }

  /** With the device means in the wait loop. */
  lemma WithDevice(s: State, p: int)
    requires Inv(s) && 0 <= p < |s.reqs| && !s.reqs[p].phase.Out? && !s.reqs[p].phase.Acked?
    ensures Flight(s.reqs[p].pc) && !s.reqs[p].pc.Formatted? && !s.reqs[p].pc.Listed?
  {
    assert PhaseOk(s, p);
  }

  /** While a request is being listed, the avail ring has a slot to spare. */
  lemma AvailRoom(s: State, p: nat)
    requires Inv(s) && p < |s.reqs| && (s.reqs[p].pc.Formatted? || s.reqs[p].pc.Listed?)
    ensures |s.pubs| - s.seen < NUM
  {
    var ps := s.pubs[s.seen..] + [p];
    assert s.reqs[p].phase.Out? by {
      assert PhaseOk(s, p);
    }
    forall i | 0 <= i < |ps| - 1
      ensures 0 <= ps[i] < |s.reqs| && Flight(s.reqs[ps[i]].pc) && s.reqs[ps[i]].phase == Queued(s.seen + i)
    {
      assert QueueOk(s, s.seen + i);
      WithDevice(s, ps[i]);
    }
    Room(s, ps);
  }

  /** While the device writes a used entry, the used ring has a slot to spare. */
  lemma UsedRoom(s: State, p: nat)
    requires Inv(s) && p < |s.reqs| && (s.reqs[p].phase.Working? || s.reqs[p].phase.Written?)
    ensures |s.dones| - s.acks < NUM
  {
    var ps := s.dones[s.acks..] + [p];
    WithDevice(s, p);
    forall i | 0 <= i < |ps| - 1
      ensures 0 <= ps[i] < |s.reqs| && Flight(s.reqs[ps[i]].pc) && s.reqs[ps[i]].phase == Completed(s.acks + i)
    {
      assert DoneOk(s, s.acks + i);
      WithDevice(s, ps[i]);
    }
    Room(s, ps);
  }

  // ---- index arithmetic

  lemma Wraps(n: nat)
    ensures n % WRAP % NUM == n % NUM && (n % WRAP + 1) % WRAP == (n + 1) % WRAP
  {
    var q := n / WRAP;
    assert n == WRAP * q + n % WRAP;
    assert n == NUM * (0x2000 * q) + n % WRAP;
  }

  lemma Slot(k: nat, n: nat)
    requires k <= n < k + NUM
    ensures k % NUM == n % NUM ==> k == n
  {
    assert n - k == NUM * (n / NUM - k / NUM) + n % NUM - k % NUM;
  }

  // ---- what the driver's steps keep

  /** What is known of the process that steps. */
  predicate DrvReady(s: State, p: nat, op: DrvOp)
    requires DrvEnabled(s, p, op)
  {
    && ChainOk(s, p) && PhaseOk(s, p) && LockOk(s, p) && Counters(s)
    && (op.Alloc? ==> var d := Three(s.free); OwnOk(s, d.0) && OwnOk(s, d.1) && OwnOk(s, d.2))
    && (op.List? ==> |s.pubs| - s.seen < NUM)
  }

  lemma DrvOwnAlloc(s: State, p: nat, i: int)
    requires DrvEnabled(s, p, Alloc) && DrvReady(s, p, Alloc) && IsDesc(i) && OwnOk(s, i)
    ensures Shape(DrvNext(s, p, Alloc)) && OwnOk(DrvNext(s, p, Alloc), i)
  {
    hide Three;
  }

  lemma DrvOwnFree(s: State, p: nat, i: int)
    requires DrvEnabled(s, p, FreeOne) && DrvReady(s, p, FreeOne) && IsDesc(i) && OwnOk(s, i)
    ensures Shape(DrvNext(s, p, FreeOne)) && OwnOk(DrvNext(s, p, FreeOne), i)
  {
    hide Three;
  }

  lemma DrvOwnRest(s: State, p: nat, op: DrvOp, i: int)
    requires DrvEnabled(s, p, op) && DrvReady(s, p, op) && IsDesc(i) && OwnOk(s, i) && !op.Alloc? && !op.FreeOne?
    ensures Shape(DrvNext(s, p, op)) && OwnOk(DrvNext(s, p, op), i)
  {
    hide Three;
  }

  lemma DrvOwn(s: State, p: nat, op: DrvOp, i: int)
    requires DrvEnabled(s, p, op) && DrvReady(s, p, op) && IsDesc(i) && OwnOk(s, i)
    ensures Shape(DrvNext(s, p, op)) && OwnOk(DrvNext(s, p, op), i)
  {
    hide DrvEnabled, DrvReady, DrvNext, OwnOk, ChainOk, PhaseOk;
    match op
    case Alloc => DrvOwnAlloc(s, p, i);
    case FreeOne => DrvOwnFree(s, p, i);
    case _ => DrvOwnRest(s, p, op, i);
  }

  lemma DrvSelfAlloc(s: State, p: nat)
    requires DrvEnabled(s, p, Alloc) && DrvReady(s, p, Alloc)
    ensures var s' := DrvNext(s, p, Alloc); |s'.reqs| == |s.reqs| && Shape(s') && ChainOk(s', p)
  {
    hide Three;
  }

  lemma DrvSelfFree(s: State, p: nat)
    requires DrvEnabled(s, p, FreeOne) && DrvReady(s, p, FreeOne)
    ensures var s' := DrvNext(s, p, FreeOne); |s'.reqs| == |s.reqs| && Shape(s') && ChainOk(s', p)
  {
    hide Three;
  }

  lemma DrvSelfRest(s: State, p: nat, op: DrvOp)
    requires DrvEnabled(s, p, op) && DrvReady(s, p, op) && !op.Alloc? && !op.FreeOne?
    ensures var s' := DrvNext(s, p, op); |s'.reqs| == |s.reqs| && Shape(s') && ChainOk(s', p)
  {
    hide Three;
  }

  lemma DrvSelf(s: State, p: nat, op: DrvOp)
    requires DrvEnabled(s, p, op) && DrvReady(s, p, op)
    ensures var s' := DrvNext(s, p, op); |s'.reqs| == |s.reqs| && Shape(s') && ChainOk(s', p)
  {
    hide DrvEnabled, DrvReady, DrvNext, OwnOk, ChainOk, PhaseOk;
    match op
    case Alloc => DrvSelfAlloc(s, p);
    case FreeOne => DrvSelfFree(s, p);
    case _ => DrvSelfRest(s, p, op);
  }

  lemma DrvSelfPhaseAlloc(s: State, p: nat)
    requires DrvEnabled(s, p, Alloc) && DrvReady(s, p, Alloc)
    ensures var s' := DrvNext(s, p, Alloc); |s'.reqs| == |s.reqs| && Shape(s') && PhaseOk(s', p)
  {
    hide Three;
  }

  lemma DrvSelfPhaseFree(s: State, p: nat)
    requires DrvEnabled(s, p, FreeOne) && DrvReady(s, p, FreeOne)
    ensures var s' := DrvNext(s, p, FreeOne); |s'.reqs| == |s.reqs| && Shape(s') && PhaseOk(s', p)
  {
    hide Three;
  }

  lemma DrvSelfPhaseRest(s: State, p: nat, op: DrvOp)
    requires DrvEnabled(s, p, op) && DrvReady(s, p, op) && !op.Alloc? && !op.FreeOne?
    ensures var s' := DrvNext(s, p, op); |s'.reqs| == |s.reqs| && Shape(s') && PhaseOk(s', p)
  {
    hide Three;
  }

  lemma DrvSelfPhase(s: State, p: nat, op: DrvOp)
    requires DrvEnabled(s, p, op) && DrvReady(s, p, op)
    ensures var s' := DrvNext(s, p, op); |s'.reqs| == |s.reqs| && Shape(s') && PhaseOk(s', p)
  {
    hide DrvEnabled, DrvReady, DrvNext, OwnOk, ChainOk, PhaseOk;
    match op
    case Alloc => DrvSelfPhaseAlloc(s, p);
    case FreeOne => DrvSelfPhaseFree(s, p);
    case _ => DrvSelfPhaseRest(s, p, op);
  }

  /** What a driver's step leaves alone: other requests, and descriptors that are neither free nor its own. */
  lemma DrvFrame(s: State, p: nat, op: DrvOp, r: nat, i: int)
    requires DrvEnabled(s, p, op) && DrvReady(s, p, op) && r < |s.reqs| && r != p && IsDesc(i) && s.own[i] == r
    ensures var s' := DrvNext(s, p, op);
            && |s'.reqs| == |s.reqs| && Shape(s') && s'.reqs[r] == s.reqs[r]
            && s'.own[i] == r && s'.desc[i] == s.desc[i] && s'.info[i] == s.info[i]
  {
    hide Three;
  }

  lemma DrvOther(s: State, p: nat, op: DrvOp, r: nat)
    requires DrvEnabled(s, p, op) && DrvReady(s, p, op) && r < |s.reqs| && r != p && ChainOk(s, r) && LockOk(s, r)
    requires PhaseOk(s, r)
    ensures var s' := DrvNext(s, p, op); |s'.reqs| == |s.reqs| && Shape(s') && ChainOk(s', r) && PhaseOk(s', r)
  {
    var x := s.reqs[r];
    DrvShape(s, p, op, r);
    if op.Kill? { return; }
    assert op.List? || op.Publish? ==> Holds(s.reqs[p].pc);
    assert !x.pc.Freeing?;
    if Flight(x.pc) {
      DrvFrame(s, p, op, r, x.d0);
      DrvFrame(s, p, op, r, x.d1);
      DrvFrame(s, p, op, r, x.d2);
    }
    hide DrvEnabled, DrvNext, DrvReady;
  }

  lemma DrvShape(s: State, p: nat, op: DrvOp, r: nat)
    requires DrvEnabled(s, p, op) && r < |s.reqs| && r != p
    ensures var s' := DrvNext(s, p, op);
            && |s'.reqs| == |s.reqs| && Shape(s') && s'.reqs[r] == s.reqs[r] && s.pubs <= s'.pubs && s'.dones == s.dones
            && s'.seen == s.seen && s'.acks == s.acks && s'.work == s.work && s'.entry == s.entry
            && (!op.List? ==> s'.avail == s.avail) && (!op.Publish? ==> s'.availIdx == s.availIdx) && s'.used == s.used
  {
    hide Three;
  }

  lemma DrvLock(s: State, p: nat, op: DrvOp, r: nat)
    requires DrvEnabled(s, p, op) && DrvReady(s, p, op) && r < |s.reqs| && LockOk(s, r)
    ensures |DrvNext(s, p, op).reqs| == |s.reqs| && LockOk(DrvNext(s, p, op), r)
  {
  }

  lemma DrvQueue(s: State, p: nat, op: DrvOp, k: nat)
    requires DrvEnabled(s, p, op) && DrvReady(s, p, op) && k < |DrvNext(s, p, op).pubs|
    requires (k < |s.pubs| ==> QueueOk(s, k))
    ensures Shape(DrvNext(s, p, op)) && QueueOk(DrvNext(s, p, op), k)
  {
    hide Three;
    Wraps(|s.pubs|);
    if op.List? && s.seen <= k < |s.pubs| {
      Slot(k, |s.pubs|);
    }
  }

  lemma DrvDone(s: State, p: nat, op: DrvOp, k: nat)
    requires DrvEnabled(s, p, op) && DrvReady(s, p, op) && k < |s.dones| && DoneOk(s, k)
    ensures DrvNext(s, p, op).dones == s.dones && Shape(DrvNext(s, p, op)) && DoneOk(DrvNext(s, p, op), k)
  {
    hide Three;
  }

  lemma DrvWork(s: State, p: nat, op: DrvOp, h: int)
    requires DrvEnabled(s, p, op) && DrvReady(s, p, op) && WorkOk(s, h)
    ensures WorkOk(DrvNext(s, p, op), h)
  {
    hide Three;
  }

  lemma DrvCounters(s: State, p: nat, op: DrvOp)
    requires DrvEnabled(s, p, op) && DrvReady(s, p, op)
    ensures Shape(DrvNext(s, p, op)) && Counters(DrvNext(s, p, op))
  {
    hide Three;
    Wraps(|s.pubs|);
  }

  lemma DrvInv(s: State, p: nat, op: DrvOp)
    requires Inv(s) && DrvEnabled(s, p, op)
    ensures Inv(DrvNext(s, p, op))
  {
    if op.List? {
      AvailRoom(s, p);
    }
    assert DrvReady(s, p, op);
    var s' := DrvNext(s, p, op);
    DrvSelf(s, p, op);
    DrvSelfPhase(s, p, op);
    DrvCounters(s, p, op);
    hide DrvEnabled, DrvNext, DrvReady, OwnOk, ChainOk, PhaseOk, LockOk, QueueOk, DoneOk, WorkOk, Counters;
    forall i | 0 <= i < NUM
      ensures OwnOk(s', i)
    {
      DrvOwn(s, p, op, i);
    }
    forall r | 0 <= r < |s.reqs|
      ensures ChainOk(s', r) && PhaseOk(s', r) && LockOk(s', r)
    {
      if r != p {
        DrvOther(s, p, op, r);
      }
      DrvLock(s, p, op, r);
    }
    forall k | 0 <= k < |s'.pubs|
      ensures QueueOk(s', k)
    {
      DrvQueue(s, p, op, k);
    }
    forall k | 0 <= k < |s'.dones|
      ensures DoneOk(s', k)
    {
      assert s'.dones == s.dones by {
        DrvDones(s, p, op);
      }
      DrvDone(s, p, op, k);
    }
    forall h
      ensures WorkOk(s', h)
    {
      DrvWork(s, p, op, h);
    }
  }

  lemma DrvDones(s: State, p: nat, op: DrvOp)
    requires DrvEnabled(s, p, op)
    ensures DrvNext(s, p, op).dones == s.dones
  {
    hide Three;
  }

  // ---- what the interrupt handler keeps

  /** The entry the handler looks at is that of a completed request, whose buffer the info table has. */
  lemma IntrFinds(s: State)
    requires Inv(s) && s.usedSeen != s.usedIdx
    ensures s.acks < |s.dones|
    ensures var b := s.dones[s.acks];
            && 0 <= b < |s.reqs| && s.reqs[b].phase == Completed(s.acks) && s.reqs[b].d0 == UsedId(s)
            && IsDesc(UsedId(s))
            && s.info[UsedId(s)] == Info(b, 0) && s.own[UsedId(s)] == b
  {
    Wraps(s.acks);
    assert DoneOk(s, s.acks);
    var b := s.dones[s.acks];
    WithDevice(s, b);
    assert ChainOk(s, b) && PhaseOk(s, b);
  }

  lemma IntrInv(s: State, op: IntrOp)
    requires Inv(s) && IntrEnabled(s, op)
    ensures Inv(IntrNext(s, op))
  {
    if op.IntrOne? {
      IntrFinds(s);
      Wraps(s.acks);
      var s', b := IntrNext(s, op), s.dones[s.acks];
      WithDevice(s, b);
      forall i | 0 <= i < NUM
        ensures OwnOk(s', i)
      {
        assert OwnOk(s, i);
      }
      forall r | 0 <= r < |s.reqs|
        ensures ChainOk(s', r) && PhaseOk(s', r) && LockOk(s', r)
      {
        assert ChainOk(s, r) && PhaseOk(s, r) && LockOk(s, r);
      }
      forall k | 0 <= k < |s.pubs|
        ensures QueueOk(s', k)
      {
        assert QueueOk(s, k);
      }
      forall k | 0 <= k < |s.dones|
        ensures DoneOk(s', k)
      {
        assert DoneOk(s, k);
      }
      forall h
        ensures WorkOk(s', h)
      {
        assert WorkOk(s, h);
      }
    } else {
      IntrLock(s, op);
    }
  }

  lemma IntrLock(s: State, op: IntrOp)
    requires Inv(s) && IntrEnabled(s, op) && !op.IntrOne?
    ensures Inv(IntrNext(s, op))
  {
    var s' := IntrNext(s, op);
    forall r | 0 <= r < |s.reqs|
      ensures ChainOk(s', r) && PhaseOk(s', r) && LockOk(s', r)
    {
      assert ChainOk(s, r) && PhaseOk(s, r) && LockOk(s, r);
    }
    assert forall i :: 0 <= i < NUM ==> OwnOk(s, i) ==> OwnOk(s', i);
    assert forall k :: 0 <= k < |s.pubs| ==> QueueOk(s, k) ==> QueueOk(s', k);
    assert forall k :: 0 <= k < |s.dones| ==> DoneOk(s, k) ==> DoneOk(s', k);
    assert forall h :: WorkOk(s, h) ==> WorkOk(s', h);
  }

  // ---- what the device's steps keep

  lemma TakeInv(s: State)
    requires Inv(s) && DevEnabled(s, DevTake)
    ensures Inv(DevNext(s, DevTake))
  {
    var s', p := DevNext(s, DevTake), s.pubs[s.seen];
    Wraps(s.seen);
    assert QueueOk(s, s.seen);
    WithDevice(s, p);
    Head(s, p);
    forall i | 0 <= i < NUM
      ensures OwnOk(s', i)
    {
      assert OwnOk(s, i);
    }
    forall r | 0 <= r < |s.reqs|
      ensures ChainOk(s', r) && PhaseOk(s', r) && LockOk(s', r)
    {
      assert ChainOk(s, r) && PhaseOk(s, r) && LockOk(s, r);
      if r != p && s.reqs[r].phase.Working? {
        WithDevice(s, r);
      }
    }
    forall k | 0 <= k < |s.pubs|
      ensures QueueOk(s', k)
    {
      assert QueueOk(s, k);
    }
    forall k | 0 <= k < |s.dones|
      ensures DoneOk(s', k)
    {
      assert DoneOk(s, k);
    }
    forall h
      ensures WorkOk(s', h)
    {
      assert WorkOk(s, h);
    }
  }

  lemma WriteInv(s: State, h: int)
    requires Inv(s) && DevEnabled(s, DevWrite(h))
    ensures Inv(DevNext(s, DevWrite(h)))
  {
    var s', p := DevNext(s, DevWrite(h)), s.work[h];
    Wraps(|s.dones|);
    assert WorkOk(s, h);
    WithDevice(s, p);
    Head(s, p);
    UsedRoom(s, p);
    forall i | 0 <= i < NUM
      ensures OwnOk(s', i)
    {
      assert OwnOk(s, i);
    }
    forall r | 0 <= r < |s.reqs|
      ensures ChainOk(s', r) && PhaseOk(s', r) && LockOk(s', r)
    {
      assert ChainOk(s, r) && PhaseOk(s, r) && LockOk(s, r);
      if r != p && s.reqs[r].phase.Working? {
        WithDevice(s, r);
      }
    }
    forall k | 0 <= k < |s.pubs|
      ensures QueueOk(s', k)
    {
      assert QueueOk(s, k);
    }
    forall k | 0 <= k < |s.dones|
      ensures DoneOk(s', k)
    {
      assert DoneOk(s, k);
      if k >= s.acks {
        Slot(k, |s.dones|);
      }
    }
    forall x
      ensures WorkOk(s', x)
    {
      assert WorkOk(s, x);
    }
  }

  lemma BumpInv(s: State)
    requires Inv(s) && DevEnabled(s, DevBump)
    ensures Inv(DevNext(s, DevBump))
  {
    var s', p := DevNext(s, DevBump), s.own[s.entry];
    Wraps(|s.dones|);
    forall i | 0 <= i < NUM
      ensures OwnOk(s', i)
    {
      assert OwnOk(s, i);
    }
    forall r | 0 <= r < |s.reqs|
      ensures ChainOk(s', r) && PhaseOk(s', r) && LockOk(s', r)
    {
      assert ChainOk(s, r) && PhaseOk(s, r) && LockOk(s, r);
      if r != p && s.reqs[r].phase.Written? {
        WithDevice(s, r);
        Head(s, r);
      }
    }
    forall k | 0 <= k < |s.pubs|
      ensures QueueOk(s', k)
    {
      assert QueueOk(s, k);
    }
    forall k | 0 <= k < |s'.dones|
      ensures DoneOk(s', k)
    {
      if k < |s.dones| {
        assert DoneOk(s, k);
      }
    }
    forall x
      ensures WorkOk(s', x)
    {
      assert WorkOk(s, x);
    }
  }

  // ---- whole runs

  lemma InvStep(s: State, step: Step)
    requires Inv(s) && Enabled(s, step)
    ensures Inv(Next(s, step))
  {
    hide Inv, DrvNext, IntrNext, DevNext, DrvEnabled, IntrEnabled, DevEnabled;
    match step {
      case Drv(p, op) => DrvInv(s, p, op);
      case Intr(op) => IntrInv(s, op);
      case Dev(op) =>
        match op {
          case DevTake => TakeInv(s);
          case DevWrite(h) => WriteInv(s, h);
          case DevBump => BumpInv(s);
        }
    }
  }

  ghost predicate Run(s: State, steps: seq<Step>, end: State)
    decreases |steps|
  {
    if steps == [] then s == end else Enabled(s, steps[0]) && Run(Next(s, steps[0]), steps[1..], end)
  }

  lemma {:induction false} InvRun(s: State, steps: seq<Step>, end: State)
    requires Inv(s) && Run(s, steps, end)
    ensures Inv(end)
    decreases |steps|
  {
    hide Inv, Enabled, Next;
    if steps != [] {
      InvStep(s, steps[0]);
      InvRun(Next(s, steps[0]), steps[1..], end);
    }
  }

  ghost predicate Reachable(s: State) {
    exists start, steps :: Begin(start) && Run(start, steps, s)
  }

  lemma BeginInv(s: State)
    requires Begin(s)
    ensures Inv(s)
  {
  }

  lemma ReachableInv(s: State)
    requires Reachable(s)
    ensures Inv(s)
  {
    hide Inv;
    var start, steps :| Begin(start) && Run(start, steps, s);
    BeginInv(start);
    InvRun(start, steps, s);
  }

  /** virtio_disk_rw returns only after the device has taken, completed and reported that very request. */
  lemma ReturnsWhenDone(s: State, p: nat)
    requires Reachable(s) && p < |s.reqs| && s.reqs[p].pc.Waiting? && !s.reqs[p].disk
    ensures s.reqs[p].phase.Acked?
  {
    ReachableInv(s);
    assert PhaseOk(s, p);
  }

  /** The descriptors are partitioned into the free ones and the chains of three of the requests in flight, and
      a chain stays linked as it was formatted until it is freed. */
  lemma Partition(s: State, i: nat, p: nat)
    requires Reachable(s) && i < NUM && p < |s.reqs|
    ensures Shape(s)
    ensures s.free[i] || exists q :: 0 <= q < |s.reqs| && Uses(s.reqs[q], i)
    ensures Uses(s.reqs[p], i) ==> !s.free[i] && forall q :: 0 <= q < |s.reqs| && Uses(s.reqs[q], i) ==> q == p
    ensures Flight(s.reqs[p].pc) ==>
              && Three3(s.reqs[p]) && s.desc[s.reqs[p].d0] == Desc(s.reqs[p].d1, true)
              && s.desc[s.reqs[p].d1] == Desc(s.reqs[p].d2, true)
              && !s.desc[s.reqs[p].d2].more && s.info[s.reqs[p].d0].b == p
  {
    ReachableInv(s);
    assert OwnOk(s, i) && ChainOk(s, p);
    forall q | 0 <= q < |s.reqs| && Uses(s.reqs[q], i)
      ensures s.own[i] == q
    {
      assert ChainOk(s, q);
    }
  }

  /** The handler never meets an entry without a request or with a bad status, and free_chain never frees a free
      descriptor or runs off the table. */
  lemma NoPanics(s: State, p: nat)
    requires Reachable(s) && p < |s.reqs|
    ensures Shape(s)
    ensures s.usedSeen != s.usedIdx ==>
          IsDesc(UsedId(s)) && 0 <= s.info[UsedId(s)].b < |s.reqs| && s.info[UsedId(s)].status == 0
    ensures s.reqs[p].pc.Freeing? ==> IsDesc(s.reqs[p].pc.i) && !s.free[s.reqs[p].pc.i]
  {
    ReachableInv(s);
    if s.usedSeen != s.usedIdx {
      IntrFinds(s);
    }
    assert ChainOk(s, p);
    if s.reqs[p].pc.Freeing? {
      assert OwnOk(s, s.reqs[p].pc.i);
    }
  }

  /** The device finds an entry in the avail ring exactly while a published request has not been taken, although the
      indices wrap; likewise the handler in the used ring. */
  lemma IndicesTrue(s: State)
    requires Reachable(s) && |s.reqs| > 0
    ensures s.availSeen != s.availIdx <==> s.seen < |s.pubs|
    ensures s.usedSeen != s.usedIdx <==> s.acks < |s.dones|
  {
    hide Inv;
    ReachableInv(s);
    Backlog(s);
    assert s.seen % WRAP == |s.pubs| % WRAP ==> s.seen == |s.pubs|;
    assert s.acks % WRAP == |s.dones| % WRAP ==> s.acks == |s.dones|;
  }

  lemma Backlog(s: State)
    requires Inv(s)
    ensures 0 <= |s.pubs| - s.seen <= NUM && 0 <= |s.dones| - s.acks <= NUM
    ensures s.availIdx == |s.pubs| % WRAP && s.availSeen == s.seen % WRAP && s.usedIdx == |s.dones| % WRAP
    ensures s.usedSeen == s.acks % WRAP
  {
    forall i | 0 <= i < |s.pubs| - s.seen
      ensures var p := s.pubs[s.seen..][i];
            0 <= p < |s.reqs| && Flight(s.reqs[p].pc) && s.reqs[p].phase == Queued(s.seen + i)
    {
      assert QueueOk(s, s.seen + i);
      WithDevice(s, s.pubs[s.seen + i]);
    }
    Room(s, s.pubs[s.seen..]);
    forall i | 0 <= i < |s.dones| - s.acks
      ensures var p := s.dones[s.acks..][i];
            0 <= p < |s.reqs| && Flight(s.reqs[p].pc) && s.reqs[p].phase == Completed(s.acks + i)
    {
      assert DoneOk(s, s.acks + i);
      WithDevice(s, s.dones[s.acks + i]);
    }
    Room(s, s.dones[s.acks..]);
  }

  // ---- sleepers

  /** A process sleeps for descriptors only while there are not three, and on its buffer only while the
      device has it, unless a wakeup has come. */
  predicate SleeperOk(s: State, p: int)
    requires Shape(s) && 0 <= p < |s.reqs|
  {
    var r := s.reqs[p];
    && (r.pc.Starved? ==> r.pc.since <= s.wakes && (r.pc.since == s.wakes ==> Three(s.free).2 == NUM))
    && (r.pc.Asleep? && !r.pc.up ==> r.disk)
  }

  ghost predicate SleepersOk(s: State) {
    Shape(s) && forall p :: 0 <= p < |s.reqs| ==> SleeperOk(s, p)
  }

  lemma DrvSleeper(s: State, p: nat, op: DrvOp, r: nat)
    requires DrvEnabled(s, p, op) && r < |s.reqs| && SleeperOk(s, r)
    ensures var s' := DrvNext(s, p, op); |s'.reqs| == |s.reqs| && Shape(s') && SleeperOk(s', r)
  {
    hide Three;
  }

  lemma IntrSleeper(s: State, op: IntrOp, r: nat)
    requires IntrEnabled(s, op) && r < |s.reqs| && SleeperOk(s, r)
    ensures var s' := IntrNext(s, op); |s'.reqs| == |s.reqs| && Shape(s') && SleeperOk(s', r)
  {
    hide Three;
  }

  lemma DevSleeper(s: State, op: DevOp, r: nat)
    requires DevEnabled(s, op) && r < |s.reqs| && SleeperOk(s, r)
    ensures var s' := DevNext(s, op); |s'.reqs| == |s.reqs| && Shape(s') && SleeperOk(s', r)
  {
    hide Three;
  }

  lemma DrvSize(s: State, p: nat, op: DrvOp)
    requires DrvEnabled(s, p, op)
    ensures Shape(DrvNext(s, p, op)) && |DrvNext(s, p, op).reqs| == |s.reqs|
  {
    hide Three;
  }

  lemma IntrSize(s: State, op: IntrOp)
    requires IntrEnabled(s, op)
    ensures Shape(IntrNext(s, op)) && |IntrNext(s, op).reqs| == |s.reqs|
  {
  }

  lemma DevSize(s: State, op: DevOp)
    requires DevEnabled(s, op)
    ensures Shape(DevNext(s, op)) && |DevNext(s, op).reqs| == |s.reqs|
  {
  }

  lemma NextShape(s: State, step: Step)
    requires Enabled(s, step)
    ensures Shape(Next(s, step)) && |Next(s, step).reqs| == |s.reqs|
  {
    hide DrvNext, IntrNext, DevNext, DrvEnabled, IntrEnabled, DevEnabled;
    match step
    case Drv(p, op) => DrvSize(s, p, op);
    case Intr(op) => IntrSize(s, op);
    case Dev(op) => DevSize(s, op);
  }

  lemma SleepersStep(s: State, step: Step)
    requires SleepersOk(s) && Enabled(s, step)
    ensures SleepersOk(Next(s, step))
  {
    hide DrvNext, IntrNext, DevNext, DrvEnabled, IntrEnabled, DevEnabled, SleeperOk;
    var s' := Next(s, step);
    NextShape(s, step);
    forall r | 0 <= r < |s'.reqs|
      ensures SleeperOk(s', r)
    {
      match step {
        case Drv(p, op) => DrvSleeper(s, p, op, r);
        case Intr(op) => IntrSleeper(s, op, r);
        case Dev(op) => DevSleeper(s, op, r);
      }
    }
  }

  lemma {:induction false} SleepersRun(s: State, steps: seq<Step>, end: State)
    requires SleepersOk(s) && Run(s, steps, end)
    ensures SleepersOk(end)
    decreases |steps|
  {
    hide SleepersOk, Enabled, Next;
    if steps != [] {
      SleepersStep(s, steps[0]);
      SleepersRun(Next(s, steps[0]), steps[1..], end);
    }
  }

  /** With three free descriptors alloc3_desc does not fail. */
  lemma ThreeFree(free: seq<bool>, a: nat, b: nat, c: nat)
    requires a < b < c < |free| && free[a] && free[b] && free[c]
    ensures Three(free).2 < |free|
  {
  }

  lemma ReachableSleepers(s: State, p: nat)
    requires Reachable(s) && p < |s.reqs|
    ensures Shape(s) && SleeperOk(s, p)
  {
    hide Inv;
    NoPanics(s, p);
    var start, steps :| Begin(start) && Run(start, steps, s);
    SleepersRun(start, steps, s);
    assert SleeperOk(s, p);
  }

  /** No lost wakeup: in every reachable state a process that nobody has woken up sleeps for descriptors only
      if no three are free, and on its buffer only if its request was not acknowledged. */
  lemma NobodySleepsOn(s: State, p: nat)
    requires Reachable(s) && p < |s.reqs|
    ensures s.reqs[p].pc == Starved(s.wakes) ==>
              forall a, b, c :: 0 <= a < b < c < |s.free| ==> !(s.free[a] && s.free[b] && s.free[c])
    ensures s.reqs[p].pc == Asleep(false) ==> s.reqs[p].disk && !s.reqs[p].phase.Acked?
  {
    ReachableInv(s);
    assert PhaseOk(s, p);
    hide Inv, Three;
    ReachableSleepers(s, p);
    forall a, b, c | 0 <= a < b < c < |s.free| && s.free[a] && s.free[b] && s.free[c]
      ensures Three(s.free).2 < |s.free|
    {
      ThreeFree(s.free, a, b, c);
    }
  }

  /** The next step of a process, by its place. */
  function Onward(s: State, p: nat): DrvOp
    requires p < |s.reqs|
  {
    match s.reqs[p].pc
    case Idle => Start
    case Trying => if Three(s.free).2 < NUM then Alloc else Starve
    case Starved(_) => Retry
    case Formatted => List
    case Listed => Publish
    case Waiting => if s.reqs[p].disk then Wait else Finish
    case Asleep(_) => Again
    case Freeing(_, _) => FreeOne
  }

  /** With the lock free or its own, a process in virtio_disk_rw that is not asleep can go on, and so can the
      handler. */
  lemma NeverStuck(s: State, p: nat)
    requires Reachable(s) && p < |s.reqs| && s.reqs[p].pc != Starved(s.wakes) && s.reqs[p].pc != Asleep(false)
    ensures s.lock == INTR ==> IntrEnabled(s, if s.usedSeen == s.usedIdx then IntrEnd else IntrOne)
    ensures s.lock == NOBODY || s.lock == p ==>
              && DrvEnabled(s, p, Onward(s, p)) && p < |DrvNext(s, p, Onward(s, p)).reqs|
              && DrvNext(s, p, Onward(s, p)).reqs[p].pc != s.reqs[p].pc
  {
    hide Inv, Three, Run, Begin, SleepersOk;
    NoPanics(s, p);
    ReachableInv(s);
    InvOnward(s, p);
    ReachableSleepers(s, p);
  }

  lemma InvOnward(s: State, p: nat)
    requires Inv(s) && p < |s.reqs|
    ensures LockOk(s, p) && (s.reqs[p].pc.Waiting? ==> IsDesc(s.reqs[p].d0))
  {
    assert ChainOk(s, p) && LockOk(s, p);
  }

  // ---- the record of buffers

  predicate InfoOk(s: State, i: int)
    requires Shape(s) && IsDesc(i)
  {
    var b := s.info[i].b;
    b == NOBODY || (0 <= b < |s.reqs| && Flight(s.reqs[b].pc) && s.reqs[b].d0 == i)
  }

  ghost predicate InfosOk(s: State) {
    Shape(s) && forall i :: 0 <= i < NUM ==> InfoOk(s, i)
  }

  lemma DrvInfo(s: State, p: nat, op: DrvOp, i: nat)
    requires DrvEnabled(s, p, op) && i < NUM && InfoOk(s, i)
    ensures Shape(DrvNext(s, p, op)) && InfoOk(DrvNext(s, p, op), i)
  {
    hide Three;
  }

  lemma IntrInfo(s: State, op: IntrOp, i: nat)
    requires IntrEnabled(s, op) && i < NUM && InfoOk(s, i)
    ensures Shape(IntrNext(s, op)) && InfoOk(IntrNext(s, op), i)
  {
  }

  lemma DevInfo(s: State, op: DevOp, i: nat)
    requires DevEnabled(s, op) && i < NUM && InfoOk(s, i)
    ensures Shape(DevNext(s, op)) && InfoOk(DevNext(s, op), i)
  {
  }

  lemma InfosStep(s: State, step: Step)
    requires InfosOk(s) && Enabled(s, step)
    ensures InfosOk(Next(s, step))
  {
    hide DrvNext, IntrNext, DevNext, DrvEnabled, IntrEnabled, DevEnabled, InfoOk;
    var s' := Next(s, step);
    NextShape(s, step);
    forall i | 0 <= i < NUM
      ensures InfoOk(s', i)
    {
      match step {
        case Drv(p, op) => DrvInfo(s, p, op, i);
        case Intr(op) => IntrInfo(s, op, i);
        case Dev(op) => DevInfo(s, op, i);
      }
    }
  }

  lemma {:induction false} InfosRun(s: State, steps: seq<Step>, end: State)
    requires InfosOk(s) && Run(s, steps, end)
    ensures InfosOk(end)
    decreases |steps|
  {
    hide InfosOk, Enabled, Next;
    if steps != [] {
      InfosStep(s, steps[0]);
      InfosRun(Next(s, steps[0]), steps[1..], end);
    }
  }

  /** The table of buffers says whose request has its head at a descriptor, and forgets it before the chain is
      freed. */
  lemma BufferRecorded(s: State, i: nat, p: nat)
    requires Reachable(s) && i < NUM && p < |s.reqs|
    ensures Shape(s) && (s.info[i].b == p <==> Flight(s.reqs[p].pc) && s.reqs[p].d0 == i)
  {
    hide Inv, InfosOk;
    Partition(s, i, p);
    var start, steps :| Begin(start) && Run(start, steps, s);
    NoInfos(start);
    InfosRun(start, steps, s);
    InfoAt(s, i);
  }

  lemma NoInfos(s: State)
    requires Begin(s)
    ensures InfosOk(s)
  {
  }

  lemma InfoAt(s: State, i: nat)
    requires InfosOk(s) && i < NUM
    ensures InfoOk(s, i)
  {
  }
}
