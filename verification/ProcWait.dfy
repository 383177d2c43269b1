/** fork, exit, reparent and wait of kernel/proc.c as a transition system: any number of processes
    run them, one lock operation or memory access at a time, in any interleaving with each other and
    with the schedulers, wakeup and kill. */
module ProcWait {

  datatype RunState = UNUSED | USED | SLEEPING | RUNNABLE | RUNNING | ZOMBIE

  /** Who holds a spinlock: nobody, a process, or a scheduler. */
  datatype Holder = Free | By(p: nat) | Scheduler

  /** Where a process is. q is the child being forked, i the slot being looked at. */
  datatype Pc =
    | Elsewhere             // in none of this code, holding none of these locks
    | Forking(q: nat)       // fork, holding np->lock after allocproc
    | Forked(q: nat)        // fork, before acquire(&wait_lock)
    | Adopting(q: nat)      // fork, before np->parent = p
    | Adopted(q: nat)       // fork, before release(&wait_lock)
    | Launching(q: nat)     // fork, before acquire(&np->lock)
    | LaunchHeld(q: nat)    // fork, before np->state = RUNNABLE
    | Launched(q: nat)      // fork, before release(&np->lock)
    | Reparent(i: nat)      // exit, in reparent
    | WakeInit(i: nat, j: nat) // exit, in reparent's wakeup(initproc), before slot j
    | WakeParent(j: nat)    // exit, in wakeup(p->parent), before slot j
    | Dying                 // exit, before acquire(&p->lock)
    | DyingHeld             // exit, before p->state = ZOMBIE
    | Zombied               // exit, before release(&wait_lock)
    | Departing             // exit, before swtch
    | Scan(i: nat, have: bool)     // wait, looking at the next slot
    | ScanHeld(i: nat, have: bool) // wait, holding pp->lock
    | Reaped(i: nat)        // wait, before release(&pp->lock)
    | WaitDone              // wait, before release(&wait_lock) and return
    | Sleepy                // wait, in sleep before acquire(&p->lock)
    | SleepyHeld            // wait, in sleep before release(lk)
    | Parking(again: bool)  // in sleep or yield, before p->state is set; in wait's sleep if again
    | Parked(again: bool)   // in sleep or yield, before swtch
    | Off(again: bool)      // switched off its kernel stack, or not yet run on it
    | Resumed(again: bool)  // running again, before release(&p->lock)
    | Rewait                // wait, in sleep before acquire(lk)

  const INIT: nat := 0
  const NOBODY := -1

  /** The fields of struct proc that matter here; the lock and the place in the code are apart. `birth` is the
      number of the allocproc call that filled the slot: the pid is that number as a 32-bit int. */
  datatype Info = Info(st: RunState, parent: int, birth: nat, xstate: int, killed: bool)

  datatype Proc = Proc(pc: Pc, lock: Holder, info: Info)

  /** What a wait returned: the caller, the child and its exit status. */
  datatype Report = Report(waiter: nat, birth: nat, status: int)

  /** `exits` and `reports` remember every exit and every successful wait. */
  datatype State = State(procs: seq<Proc>, waitLock: Holder, births: nat, exits: map<int, int>, reports: seq<Report>)

  /** The steps of fork, of exit, of wait, and of sleeping, waking, scheduling and killing. */
  datatype ForkOp = AllocProc(q: nat) | AllocFail | ForkRelease | ForkWait | Adopt | ForkUnwait | LaunchTake | Launch
      | LaunchDrop
  datatype ExitOp = ExitStart | ReparentOne | ReparentDone | WakeOne | WakeDone | ExitTake | Zombify(status: int)
                  | ExitUnwait | ExitSwtch
  datatype WaitOp = WaitStart | ScanSkip | ScanTake | ScanDrop | CopyFail | Reap | ReapDrop | WaitNone | WaitReturn
                  | WaitSleep | SleepTake | SleepUnwait | RewaitTake
  datatype SchedOp = ParkTake | ParkSet(sleep: bool) | ParkSwtch | ResumeDrop | SchedTake | SchedDrop | Schedule
      | Wake | Kill

  /** A step of process p, or of a scheduler, wakeup or kill on process p. */
  datatype Step = Forks(p: nat, f: ForkOp) | Exits(p: nat, x: ExitOp) | Waits(p: nat, w: WaitOp)
      | Scheds(p: nat, o: SchedOp)

  /** The other slot a process is concerned with. */
  function Other(pc: Pc): int {
    match pc
    case Forking(q) => q
    case Forked(q) => q
    case Adopting(q) => q
    case Adopted(q) => q
    case Launching(q) => q
    case LaunchHeld(q) => q
    case Launched(q) => q
    case Reparent(i) => i
    case WakeInit(_, j) => j
    case WakeParent(j) => j
    case Scan(i, _) => i
    case ScanHeld(i, _) => i
    case Reaped(i) => i
    case _ => NOBODY
  }

  const WAIT := -2    // wait_lock, among the locks; lock i is that of process i
  const NOLOCK := -3

  /** What else a step does: be born, exit, or return a child from wait. */
  datatype Event = Quiet | Born | Died(status: int) | Returned

  /** What a step does: where the process is then, a lock that changes hands, and a process whose fields
      change. */
  datatype Effect = Effect(pc: Pc, lock: int, holder: Holder, q: int, to: Info, event: Event)

  /** A slot after freeproc. */
  const Blank := Info(UNUSED, NOBODY, 0, 0, false)

  /** Only the place changes, or the place and one lock. */
  function Go(s: State, p: nat, pc: Pc): Effect
    requires p < |s.procs|
  {
    Effect(pc, NOLOCK, Free, p, s.procs[p].info, Quiet)
  }

  function Lock(s: State, p: nat, pc: Pc, lock: int, holder: Holder): Effect
    requires p < |s.procs|
  {
    Effect(pc, lock, holder, p, s.procs[p].info, Quiet)
  }

  predicate ForkEnabled(s: State, p: nat, f: ForkOp)
    requires p < |s.procs|
  {
    var me, q, n := s.procs[p], Other(s.procs[p].pc), |s.procs|;
    match f
    case AllocProc(q) => me.pc.Elsewhere? && me.info.st.RUNNING? && q < n && s.procs[q].info.st.UNUSED?
        && s.procs[q].lock.Free?
    case AllocFail => me.pc.Forking? && q < n
    case ForkRelease => me.pc.Forking? && q < n
    case ForkWait => me.pc.Forked? && s.waitLock.Free?
    case Adopt => me.pc.Adopting? && q < n
    case ForkUnwait => me.pc.Adopted?
    case LaunchTake => me.pc.Launching? && q < n && s.procs[q].lock.Free?
    case Launch => me.pc.LaunchHeld? && q < n
    case LaunchDrop => me.pc.Launched? && q < n
  }

  function ForkDo(s: State, p: nat, f: ForkOp): Effect
    requires p < |s.procs| && ForkEnabled(s, p, f)
  {
    var q := Other(s.procs[p].pc);
    match f
    case AllocProc(q) => Effect(Forking(q), q, By(p), q, s.procs[q].info.(st := USED, birth := s.births), Born)
    case AllocFail => Effect(Elsewhere, q, Free, q, Blank, Quiet)
    case ForkRelease => Lock(s, p, Forked(q), q, Free)
    case ForkWait => Lock(s, p, Adopting(q), WAIT, By(p))
    case Adopt => Effect(Adopted(q), NOLOCK, Free, q, s.procs[q].info.(parent := p), Quiet)
    case ForkUnwait => Lock(s, p, Launching(q), WAIT, Free)
    case LaunchTake => Lock(s, p, LaunchHeld(q), q, By(p))
    case Launch => Effect(Launched(q), NOLOCK, Free, q, s.procs[q].info.(st := RUNNABLE), Quiet)
    case LaunchDrop => Lock(s, p, Elsewhere, q, Free)
  }

  predicate ExitEnabled(s: State, p: nat, x: ExitOp)
    requires p < |s.procs|
  {
    var me, q, n := s.procs[p], Other(s.procs[p].pc), |s.procs|;
    match x
    case ExitStart => me.pc.Elsewhere? && me.info.st.RUNNING? && p != INIT && s.waitLock.Free?
    case ReparentOne => me.pc.Reparent? && q < n
    case ReparentDone => me.pc.Reparent? && q >= n
    case WakeOne => (me.pc.WakeInit? || me.pc.WakeParent?) && q < n && (q == p || s.procs[q].lock.Free?)
    case WakeDone => (me.pc.WakeInit? || me.pc.WakeParent?) && q >= n
    case ExitTake => me.pc.Dying? && me.lock.Free?
    case Zombify(_) => me.pc.DyingHeld?
    case ExitUnwait => me.pc.Zombied?
    case ExitSwtch => me.pc.Departing?
  }

  /** Whose channel an exiting process wakes up. */
  function Waking(s: State, p: nat): int
    requires p < |s.procs|
  {
    if s.procs[p].pc.WakeInit? then INIT else s.procs[p].info.parent
  }

  /** A process that sleeps in wait sleeps on its own address, and nobody else does. */
  function Woken(r: Proc): Info {
    if r.info.st.SLEEPING? && r.pc == Off(true) then r.info.(st := RUNNABLE) else r.info
  }

  function ExitDo(s: State, p: nat, x: ExitOp): Effect
    requires p < |s.procs| && ExitEnabled(s, p, x)
  {
    var me, q := s.procs[p], Other(s.procs[p].pc);
    match x
    case ExitStart => Lock(s, p, Reparent(0), WAIT, By(p))
    case ReparentOne =>
      var child := s.procs[q].info;
      if child.parent == p then Effect(WakeInit(q + 1, 0), NOLOCK, Free, q, child.(parent := INIT), Quiet)
      else Go(s, p, Reparent(q + 1))
    case ReparentDone => Go(s, p, WakeParent(0))
    case WakeOne =>
      Effect(if me.pc.WakeInit? then WakeInit(me.pc.i, q + 1) else WakeParent(q + 1), NOLOCK, Free,
             q, if q != p && q == Waking(s, p) then Woken(s.procs[q]) else s.procs[q].info, Quiet)
    case WakeDone => Go(s, p, if me.pc.WakeInit? then Reparent(me.pc.i) else Dying)
    case ExitTake => Lock(s, p, DyingHeld, p, By(p))
    case Zombify(status) => Effect(Zombied, NOLOCK, Free, p, me.info.(st := ZOMBIE, xstate := status), Died(status))
    case ExitUnwait => Lock(s, p, Departing, WAIT, Free)
    case ExitSwtch => Lock(s, p, Off(false), p, Scheduler)
  }

  predicate WaitEnabled(s: State, p: nat, w: WaitOp)
    requires p < |s.procs|
  {
    var me, q, n := s.procs[p], Other(s.procs[p].pc), |s.procs|;
    match w
    case WaitStart => me.pc.Elsewhere? && me.info.st.RUNNING? && s.waitLock.Free?
    case ScanSkip => me.pc.Scan? && q < n && s.procs[q].info.parent != p
    case ScanTake => me.pc.Scan? && q < n && s.procs[q].info.parent == p && s.procs[q].lock.Free?
    case ScanDrop => me.pc.ScanHeld? && q < n && !s.procs[q].info.st.ZOMBIE?
    case CopyFail => me.pc.ScanHeld? && q < n && s.procs[q].info.st.ZOMBIE?
    case Reap => me.pc.ScanHeld? && q < n && s.procs[q].info.st.ZOMBIE?
    case ReapDrop => me.pc.Reaped? && q < n
    case WaitNone => me.pc.Scan? && q >= n && (!me.pc.have || me.info.killed)
    case WaitReturn => me.pc.WaitDone?
    case WaitSleep => me.pc.Scan? && q >= n && me.pc.have && !me.info.killed
    case SleepTake => me.pc.Sleepy? && me.lock.Free?
    case SleepUnwait => me.pc.SleepyHeld?
    case RewaitTake => me.pc.Rewait? && s.waitLock.Free?
  }

  function WaitDo(s: State, p: nat, w: WaitOp): Effect
    requires p < |s.procs| && WaitEnabled(s, p, w)
  {
    var me, q := s.procs[p], Other(s.procs[p].pc);
    match w
    case WaitStart => Lock(s, p, Scan(0, false), WAIT, By(p))
    case ScanSkip => Go(s, p, Scan(q + 1, me.pc.have))
    case ScanTake => Lock(s, p, ScanHeld(q, me.pc.have), q, By(p))
    case ScanDrop => Lock(s, p, Scan(q + 1, true), q, Free)
    case CopyFail => Lock(s, p, WaitDone, q, Free)
    case Reap => Effect(Reaped(q), NOLOCK, Free, q, Blank, Returned)
    case ReapDrop => Lock(s, p, WaitDone, q, Free)
    case WaitNone => Lock(s, p, Elsewhere, WAIT, Free)
    case WaitReturn => Lock(s, p, Elsewhere, WAIT, Free)
    case WaitSleep => Go(s, p, Sleepy)
    case SleepTake => Lock(s, p, SleepyHeld, p, By(p))
    case SleepUnwait => Lock(s, p, Parking(true), WAIT, Free)
    case RewaitTake => Lock(s, p, Scan(0, false), WAIT, By(p))
  }

  predicate SchedEnabled(s: State, p: nat, o: SchedOp)
    requires p < |s.procs|
  {
    var me := s.procs[p];
    match o
    case ParkTake => me.pc.Elsewhere? && me.info.st.RUNNING? && me.lock.Free?
    case ParkSet(_) => me.pc.Parking?
    case ParkSwtch => me.pc.Parked?
    case ResumeDrop => me.pc.Resumed?
    case SchedTake => me.lock.Free?
    case SchedDrop => me.lock.Scheduler?
    case Schedule => me.lock.Scheduler? && me.info.st.RUNNABLE?
    case Wake => me.lock.Free? && me.info.st.SLEEPING?
    case Kill => me.lock.Free?
  }

  function SchedDo(s: State, p: nat, o: SchedOp): Effect
    requires p < |s.procs| && SchedEnabled(s, p, o)
  {
    var me := s.procs[p];
    match o
    case ParkTake => Lock(s, p, Parking(false), p, By(p))
    case ParkSet(sleep) => Effect(Parked(me.pc.again), NOLOCK, Free, p,
                                  me.info.(st := if me.pc.again || sleep then SLEEPING else RUNNABLE), Quiet)
    case ParkSwtch => Lock(s, p, Off(me.pc.again), p, Scheduler)
    case ResumeDrop => Lock(s, p, if me.pc.again then Rewait else Elsewhere, p, Free)
    case SchedTake => Lock(s, p, me.pc, p, Scheduler)
    case SchedDrop => Lock(s, p, me.pc, p, Free)
    case Schedule => Effect(Resumed(me.pc.Off? && me.pc.again), p, By(p), p, me.info.(st := RUNNING), Quiet)
    case Wake => Effect(me.pc, NOLOCK, Free, p, me.info.(st := RUNNABLE), Quiet)
    case Kill => Effect(me.pc, NOLOCK, Free, p,
                        me.info.(killed := true, st := if me.info.st.SLEEPING? then RUNNABLE else me.info.st), Quiet)
  }

  predicate Enabled(s: State, step: Step) {
    && step.p < |s.procs|
    && match step
       case Forks(p, f) => ForkEnabled(s, p, f)
       case Exits(p, x) => ExitEnabled(s, p, x)
       case Waits(p, w) => WaitEnabled(s, p, w)
       case Scheds(p, o) => SchedEnabled(s, p, o)
  }

  function Do(s: State, step: Step): Effect
    requires Enabled(s, step)
  {
    match step
    case Forks(p, f) => ForkDo(s, p, f)
    case Exits(p, x) => ExitDo(s, p, x)
    case Waits(p, w) => WaitDo(s, p, w)
    case Scheds(p, o) => SchedDo(s, p, o)
  }

  function ProcAfter(s: State, p: nat, e: Effect, r: int): Proc
    requires 0 <= r < |s.procs|
  {
    var was := s.procs[r];
    Proc(if r == p then e.pc else was.pc, if r == e.lock then e.holder else was.lock,
         if r == e.q then e.to else was.info)
  }

  /** The state after process p's effect. */
  function Apply(s: State, p: nat, e: Effect): (s': State)
    requires p < |s.procs| && 0 <= e.q < |s.procs|
  {
    State(seq(|s.procs|, r requires 0 <= r < |s.procs| => ProcAfter(s, p, e, r)),
          if e.lock == WAIT then e.holder else s.waitLock,
          if e.event.Born? then s.births + 1 else s.births,
          if e.event.Died? then s.exits[s.procs[p].info.birth := e.event.status] else s.exits,
          if e.event.Returned? then s.reports
              + [Report(s.procs[p].info.birth, s.procs[e.q].info.birth, s.procs[e.q].info.xstate)] else s.reports)
  }

  function Next(s: State, step: Step): State
    requires Enabled(s, step)
  {
    Apply(s, step.p, Do(s, step))
  }

  /** Only init is there, ready to run. */
  predicate Start(s: State) {
    && |s.procs| > 0 && s.waitLock.Free? && s.births == 2 && s.exits == map[] && s.reports == []
    && s.procs[INIT] == Proc(Off(false), Free, Info(RUNNABLE, NOBODY, 1, 0, false))
    && forall p :: 0 < p < |s.procs| ==> s.procs[p] == Proc(Off(false), Free, Blank)
  }

  ghost predicate Run(s: State, steps: seq<Step>, end: State)
    decreases |steps|
  {
    if steps == [] then s == end
    else Enabled(s, steps[0]) && Run(Next(s, steps[0]), steps[1..], end)
  }

  // ---- what is true of one process at its place in the code

  predicate HoldsWait(pc: Pc) {
    pc.Adopting? || pc.Adopted? || pc.Reparent? || pc.WakeInit? || pc.WakeParent? || pc.Dying? || pc.DyingHeld?
    || pc.Zombied?
    || pc.Scan? || pc.ScanHeld? || pc.Reaped? || pc.WaitDone? || pc.Sleepy? || pc.SleepyHeld?
  }

  predicate HoldsOwn(pc: Pc) {
    pc.DyingHeld? || pc.Zombied? || pc.Departing? || pc.SleepyHeld? || pc.Parking? || pc.Parked? || pc.Resumed?
  }

  predicate HoldsOther(pc: Pc) {
    pc.Forking? || pc.LaunchHeld? || pc.Launched? || pc.ScanHeld? || pc.Reaped?
  }

  predicate InFork(pc: Pc) {
    pc.Forking? || pc.Forked? || pc.Adopting? || pc.Adopted? || pc.Launching? || pc.LaunchHeld?
  }

  predicate InExit(pc: Pc) {
    pc.Reparent? || pc.WakeInit? || pc.WakeParent? || pc.Dying? || pc.DyingHeld? || pc.Zombied? || pc.Departing?
  }

  /** The locks a process holds. */
  function Held(p: int, pc: Pc): set<int> {
    (if HoldsWait(pc) then {WAIT} else {}) + (if HoldsOwn(pc) then {p} else {})
    + (if HoldsOther(pc) then {Other(pc)} else {})
  }

  /** The run state fits the place. */
  predicate Fits(pc: Pc, info: Info) {
    var st := info.st;
    && (st.UNUSED? ==> info.parent == NOBODY)
    && if pc.Off? then !st.RUNNING? && (pc.again ==> st.SLEEPING? || st.RUNNABLE?)
       else if pc.Parked? then st.SLEEPING? || st.RUNNABLE?
       else if pc.Zombied? || pc.Departing? then st.ZOMBIE?
       else st.RUNNING?
  }

  /** The slot of a child that is being forked is in use but not started, and has no parent before it is
      adopted; a child held in wait is the waiter's. */
  predicate Concern(pc: Pc, p: int, qpc: Pc, q: Info) {
    && (InFork(pc) ==> q.st.USED? && qpc == Off(false)
                        && q.parent == if pc.Forking? || pc.Forked? || pc.Adopting? then NOBODY else p)
    && (pc.ScanHeld? ==> q.parent == p)
  }

  /** At this place the process knows that slot j is not its child. */
  predicate Knows(pc: Pc, j: int) {
    ((pc.Reparent? || pc.WakeInit?) && j < pc.i) || (pc.Scan? && !pc.have && j < pc.i)
    || pc.WakeParent? || pc.Dying? || pc.DyingHeld?
  }

  predicate Started(info: Info) {
    info.st.SLEEPING? || info.st.RUNNABLE? || info.st.RUNNING? || info.st.ZOMBIE?
  }

  predicate Alive(info: Info) {
    Started(info) && !info.st.ZOMBIE?
  }

  predicate IsLock(s: State, x: int) {
    x == WAIT || 0 <= x < |s.procs|
  }

  function LockOf(s: State, x: int): Holder
    requires IsLock(s, x)
  {
    if x == WAIT then s.waitLock else s.procs[x].lock
  }

  // ---- what every step keeps to

  /** A step takes a lock that no process holds, or lets go of one that its process holds, or neither. */
  predicate LockRule(s: State, p: nat, e: Effect)
    requires p < |s.procs|
  {
    var was, now := Held(p, s.procs[p].pc), Held(p, e.pc);
    || (e.lock == NOLOCK && now == was)
    || (IsLock(s, e.lock) && now == was && !e.holder.By? && !LockOf(s, e.lock).By?)
    || (IsLock(s, e.lock) && now == was + {e.lock} && e.holder == By(p) && !LockOf(s, e.lock).By?)
    || (IsLock(s, e.lock) && now == was - {e.lock} && e.lock in was && !e.holder.By?)
  }

  /** Where the process goes fits its fields and those of the slot it is concerned with; a slot it begins to
      fork into was unused. */
  predicate PlaceRule(s: State, p: nat, e: Effect)
    requires p < |s.procs|
  {
    var pc := s.procs[p].pc;
    && 0 <= e.q < |s.procs|
    && (s.procs[p].info.st.USED? ==> e.pc == pc)
    && Fits(e.pc, ProcAfter(s, p, e, p).info) && Fits(ProcAfter(s, p, e, e.q).pc, e.to)
    && (var q := Other(e.pc); 0 <= q < |s.procs| ==>
          Concern(e.pc, p, ProcAfter(s, p, e, q).pc, ProcAfter(s, p, e, q).info))
    && (InFork(e.pc) || HoldsOther(e.pc) ==> Other(e.pc) < |s.procs|)
    && (InFork(e.pc) ==>
          (InFork(pc) && Other(e.pc) == Other(pc)) || (Other(e.pc) < |s.procs| && s.procs[Other(e.pc)].info.st.UNUSED?))
    && (InExit(e.pc) ==> InExit(pc) || p != INIT)
  }

  /** What may happen to the fields of a process. */
  predicate FieldRule(s: State, p: nat, e: Effect)
    requires p < |s.procs| && 0 <= e.q < |s.procs|
  {
    var pc, me, to := s.procs[p].pc, s.procs[e.q].info, e.to;
    && (me.st.USED? && !(InFork(pc) && Other(pc) == e.q) ==> to.st.USED? && (to.parent == me.parent || me.parent == p))
    && (to.parent != me.parent ==> HoldsWait(pc))
    && (|| to.parent == me.parent
        || (to.parent == NOBODY && to.st.UNUSED? && !Alive(me))
        || (to.parent == p && Alive(s.procs[p].info) && pc.Adopting? && me.st.USED?)
        || (to.parent == INIT && me.parent == p && pc.Reparent?))
    && (Started(to) ==> Started(me) || to.parent != NOBODY)
    && (Alive(me) ==> Alive(to) || (e.q == p && pc.DyingHeld?))
    && (to.st.UNUSED? || (to.birth == me.birth && !me.st.UNUSED?)
        || (me.st.UNUSED? && to.birth == s.births && to.st.USED? && e.event.Born?))
    && (to.st.ZOMBIE? ==>
          if e.event.Died? then e.q == p && to.xstate == e.event.status else me.st.ZOMBIE? && to.xstate == me.xstate)
    && (e.event.Died? ==> e.q == p && to.st.ZOMBIE? && !me.st.UNUSED?)
    && (e.event.Returned? ==> me.st.ZOMBIE? && to.st.UNUSED?)
  }

  /** What the process knows about its children after the step. */
  predicate KnowRule(s: State, p: nat, e: Effect, j: int)
    requires p < |s.procs| && 0 <= j < |s.procs|
  {
    Knows(e.pc, j) ==> Knows(s.procs[p].pc, j) || ProcAfter(s, p, e, j).info.parent != p
  }

  /** What is known of the process that steps and of the slot it is concerned with. */
  predicate Ready(s: State, p: nat)
    requires p < |s.procs|
  {
    var me, q := s.procs[p], Other(s.procs[p].pc);
    && Fits(me.pc, me.info)
    && (p == INIT ==> !InExit(me.pc))
    && (InFork(me.pc) || HoldsOther(me.pc) ==> q < |s.procs|)
    && (0 <= q < |s.procs| ==>
          Fits(s.procs[q].pc, s.procs[q].info) && Concern(me.pc, p, s.procs[q].pc, s.procs[q].info))
    && (me.pc.ScanHeld? && 0 <= q < |s.procs| && s.procs[q].info.st.ZOMBIE? ==> s.procs[q].pc == Off(false))
    && (me.lock.Scheduler? && me.info.st.RUNNABLE? ==> me.pc.Off?)
  }

  lemma ForkLock(s: State, p: nat, f: ForkOp)
    requires p < |s.procs| && ForkEnabled(s, p, f) && Ready(s, p)
    requires f.AllocProc? ==> Fits(s.procs[f.q].pc, s.procs[f.q].info)
    ensures LockRule(s, p, ForkDo(s, p, f))
  {
    hide Started, Alive, Concern;
  }

  lemma ExitLock(s: State, p: nat, x: ExitOp)
    requires p < |s.procs| && ExitEnabled(s, p, x) && Ready(s, p)
    ensures LockRule(s, p, ExitDo(s, p, x))
  {
    hide Started, Alive, Concern;
  }

  lemma WaitLock(s: State, p: nat, w: WaitOp)
    requires p < |s.procs| && WaitEnabled(s, p, w) && Ready(s, p)
    ensures LockRule(s, p, WaitDo(s, p, w))
  {
    hide Started, Alive, Concern;
  }

  lemma SchedLock(s: State, p: nat, o: SchedOp)
    requires p < |s.procs| && SchedEnabled(s, p, o) && Ready(s, p)
    ensures LockRule(s, p, SchedDo(s, p, o))
  {
    hide Started, Alive, Concern;
  }

  lemma ForkPlace(s: State, p: nat, f: ForkOp)
    requires p < |s.procs| && ForkEnabled(s, p, f) && Ready(s, p)
    requires f.AllocProc? ==> Fits(s.procs[f.q].pc, s.procs[f.q].info)
    ensures PlaceRule(s, p, ForkDo(s, p, f))
  {
    hide Started, Alive;
  }

  lemma ExitPlace(s: State, p: nat, x: ExitOp)
    requires p < |s.procs| && ExitEnabled(s, p, x) && Ready(s, p)
    ensures PlaceRule(s, p, ExitDo(s, p, x))
  {
    hide Started, Alive;
  }

  lemma WaitPlace(s: State, p: nat, w: WaitOp)
    requires p < |s.procs| && WaitEnabled(s, p, w) && Ready(s, p)
    ensures PlaceRule(s, p, WaitDo(s, p, w))
  {
    hide Started, Alive;
  }

  lemma SchedPlace(s: State, p: nat, o: SchedOp)
    requires p < |s.procs| && SchedEnabled(s, p, o) && Ready(s, p)
    ensures PlaceRule(s, p, SchedDo(s, p, o))
  {
    hide Started, Alive;
  }

  lemma ForkField(s: State, p: nat, f: ForkOp)
    requires p < |s.procs| && ForkEnabled(s, p, f) && Ready(s, p)
    requires f.AllocProc? ==> Fits(s.procs[f.q].pc, s.procs[f.q].info)
    ensures var e := ForkDo(s, p, f); 0 <= e.q < |s.procs| && FieldRule(s, p, e)
  {
  }

  lemma ExitField(s: State, p: nat, x: ExitOp)
    requires p < |s.procs| && ExitEnabled(s, p, x) && Ready(s, p)
    ensures var e := ExitDo(s, p, x); 0 <= e.q < |s.procs| && FieldRule(s, p, e)
  {
  }

  lemma WaitField(s: State, p: nat, w: WaitOp)
    requires p < |s.procs| && WaitEnabled(s, p, w) && Ready(s, p)
    ensures var e := WaitDo(s, p, w); 0 <= e.q < |s.procs| && FieldRule(s, p, e)
  {
  }

  lemma SchedField(s: State, p: nat, o: SchedOp)
    requires p < |s.procs| && SchedEnabled(s, p, o) && Ready(s, p)
    ensures var e := SchedDo(s, p, o); 0 <= e.q < |s.procs| && FieldRule(s, p, e)
  {
  }

  lemma ForkKnow(s: State, p: nat, f: ForkOp, j: int)
    requires p < |s.procs| && ForkEnabled(s, p, f) && Ready(s, p) && 0 <= j < |s.procs|
    ensures KnowRule(s, p, ForkDo(s, p, f), j)
  {
  }

  lemma ExitKnow(s: State, p: nat, x: ExitOp, j: int)
    requires p < |s.procs| && ExitEnabled(s, p, x) && Ready(s, p) && 0 <= j < |s.procs|
    ensures KnowRule(s, p, ExitDo(s, p, x), j)
  {
  }

  lemma WaitKnow(s: State, p: nat, w: WaitOp, j: int)
    requires p < |s.procs| && WaitEnabled(s, p, w) && Ready(s, p) && 0 <= j < |s.procs|
    ensures KnowRule(s, p, WaitDo(s, p, w), j)
  {
  }

  lemma SchedKnow(s: State, p: nat, o: SchedOp, j: int)
    requires p < |s.procs| && SchedEnabled(s, p, o) && Ready(s, p) && 0 <= j < |s.procs|
    ensures KnowRule(s, p, SchedDo(s, p, o), j)
  {
  }

  // ---- the invariant

  /** Locks are held by those whose place in the code says so. */
  ghost predicate Locks(s: State) {
    forall x, p :: IsLock(s, x) && 0 <= p < |s.procs| ==> (LockOf(s, x) == By(p) <==> x in Held(p, s.procs[p].pc))
  }

  /** Process r fits its place, and so does the slot it is concerned with. */
  predicate Placed(s: State, r: int)
    requires 0 <= r < |s.procs|
  {
    var pc := s.procs[r].pc;
    var q := Other(pc);
    && Fits(pc, s.procs[r].info)
    && (0 <= q < |s.procs| ==> Concern(pc, r, s.procs[q].pc, s.procs[q].info))
    && (InFork(pc) || HoldsOther(pc) ==> q < |s.procs|)
  }

  /** Two processes never fork into the same slot. */
  predicate Apart(s: State, r: int, r2: int)
    requires 0 <= r < |s.procs| && 0 <= r2 < |s.procs|
  {
    r != r2 && InFork(s.procs[r].pc) && InFork(s.procs[r2].pc) ==> Other(s.procs[r].pc) != Other(s.procs[r2].pc)
  }

  ghost predicate Places(s: State) {
    && (forall r :: 0 <= r < |s.procs| ==> Placed(s, r))
    && (forall r, r2 :: 0 <= r < |s.procs| && 0 <= r2 < |s.procs| ==> Apart(s, r, r2))
  }

  /** init is alive, has no parent and does not exit. */
  predicate InitFine(s: State) {
    INIT < |s.procs| && Alive(s.procs[INIT].info) && s.procs[INIT].info.parent == NOBODY && !InExit(s.procs[INIT].pc)
  }

  /** A started process other than init has a parent, and a parent is alive. */
  predicate Kin(s: State, q: int)
    requires 0 <= q < |s.procs|
  {
    var parent := s.procs[q].info.parent;
    && (q != INIT && Started(s.procs[q].info) ==> parent != NOBODY)
    && (parent != NOBODY ==> 0 <= parent < |s.procs| && Alive(s.procs[parent].info))
  }

  predicate NoChild(s: State, r: int, j: int)
    requires 0 <= r < |s.procs| && 0 <= j < |s.procs|
  {
    Knows(s.procs[r].pc, j) ==> s.procs[j].info.parent != r
  }

  ghost predicate Family(s: State) {
    && InitFine(s)
    && (forall q :: 0 <= q < |s.procs| ==> Kin(s, q))
    && (forall r, j :: 0 <= r < |s.procs| && 0 <= j < |s.procs| ==> NoChild(s, r, j))
  }

  predicate BirthOk(s: State, q: int)
    requires 0 <= q < |s.procs|
  {
    var me := s.procs[q].info;
    && (!me.st.UNUSED? ==> 0 < me.birth < s.births)
    && (me.st.ZOMBIE? ==> me.birth in s.exits && s.exits[me.birth] == me.xstate)
  }

  predicate BirthsApart(s: State, q: int, r: int)
    requires 0 <= q < |s.procs| && 0 <= r < |s.procs|
  {
    q != r && !s.procs[q].info.st.UNUSED? && !s.procs[r].info.st.UNUSED? ==>
          s.procs[q].info.birth != s.procs[r].info.birth
  }

  predicate ReportOk(s: State, k: int)
    requires 0 <= k < |s.reports|
  {
    var rep := s.reports[k];
    rep.birth < s.births && rep.birth in s.exits && s.exits[rep.birth] == rep.status
  }

  predicate ReportGone(s: State, k: int, q: int)
    requires 0 <= k < |s.reports| && 0 <= q < |s.procs|
  {
    !s.procs[q].info.st.UNUSED? ==> s.procs[q].info.birth != s.reports[k].birth
  }

  /** Births are numbered once; a report is of an exit, with its status, and no two are of the same. */
  ghost predicate Records(s: State) {
    && 0 < s.births
    && (forall q :: 0 <= q < |s.procs| ==> BirthOk(s, q))
    && (forall q, r :: 0 <= q < |s.procs| && 0 <= r < |s.procs| ==> BirthsApart(s, q, r))
    && (forall k :: 0 <= k < |s.reports| ==> ReportOk(s, k))
    && (forall k, q :: 0 <= k < |s.reports| && 0 <= q < |s.procs| ==> ReportGone(s, k, q))
    && (forall k, l :: 0 <= k < l < |s.reports| ==> s.reports[k].birth != s.reports[l].birth)
  }

  /** In wait's sleep, and not made runnable yet. */
  predicate Dozing(r: Proc) {
    ((r.pc.Parking? || r.pc.Parked? || r.pc.Off?) && r.pc.again) && (r.pc.Off? ==> r.info.st.SLEEPING?)
  }

  /** wait_lock is held by a process that is about to wake up init. */
  predicate InitNext(s: State) {
    s.waitLock.By? && s.waitLock.p < |s.procs| && var pc := s.procs[s.waitLock.p].pc; pc.WakeInit? && pc.j <= INIT
  }

  /** A waiting process has not passed over a zombie child of its own, and sleeps on one only while it is
      about to be woken up. */
  predicate Noticed(s: State, r: int, c: int)
    requires 0 <= r < |s.procs| && 0 <= c < |s.procs|
  {
    var pc := s.procs[r].pc;
    s.procs[c].info.parent == r && s.procs[c].info.st.ZOMBIE? ==>
      && (pc.Scan? || pc.ScanHeld? ==> pc.i <= c) && !pc.Sleepy? && !pc.SleepyHeld?
      && (Dozing(s.procs[r]) ==> r == INIT && InitNext(s))
  }

  /** An exiting process that is past waking up its parent has a parent that does not doze. */
  predicate Heard(s: State, r: int, parent: int)
    requires 0 <= r < |s.procs| && 0 <= parent < |s.procs|
  {
    var pc := s.procs[r].pc;
    s.procs[r].info.parent == parent && (pc.Dying? || pc.DyingHeld? || (pc.WakeParent? && parent < pc.j)) ==>
      !Dozing(s.procs[parent])
  }

  /** What p and r know from the locks. */
  predicate LockFacts(s: State, p: nat, r: nat)
    requires p < |s.procs| && r < |s.procs|
  {
    && (HoldsWait(s.procs[p].pc) <==> s.waitLock == By(p))
    && (HoldsWait(s.procs[r].pc) <==> s.waitLock == By(r))
    && (HoldsOwn(s.procs[r].pc) ==> !s.procs[r].lock.Free?)
  }

  ghost predicate Watch(s: State) {
    forall r, c :: 0 <= r < |s.procs| && 0 <= c < |s.procs| ==> Noticed(s, r, c) && Heard(s, c, r)
  }

  ghost predicate Inv(s: State) {
    Locks(s) && Places(s) && Family(s) && Records(s) && Watch(s)
  }

  // ---- every effect that keeps to the rules keeps the invariant

  lemma KeepLocks(s: State, p: nat, e: Effect)
    requires Locks(s) && p < |s.procs| && 0 <= e.q < |s.procs| && LockRule(s, p, e)
    ensures Locks(Apply(s, p, e))
  {
    hide Held;
    var s' := Apply(s, p, e);
    forall x, r | IsLock(s', x) && 0 <= r < |s'.procs|
      ensures LockOf(s', x) == By(r) <==> x in Held(r, s'.procs[r].pc)
    {
      assert LockOf(s, x) == By(r) <==> x in Held(r, s.procs[r].pc);
      assert LockOf(s, x) == By(p) <==> x in Held(p, s.procs[p].pc);
    }
  }

  /** Two processes never hold wait_lock together. */
  lemma WaitLockOnce(s: State, p: nat, r: nat)
    requires Locks(s) && p < |s.procs| && r < |s.procs| && p != r
    ensures !(HoldsWait(s.procs[p].pc) && HoldsWait(s.procs[r].pc))
  {
    assert LockOf(s, WAIT) == By(p) <==> WAIT in Held(p, s.procs[p].pc);
    assert LockOf(s, WAIT) == By(r) <==> WAIT in Held(r, s.procs[r].pc);
  }

  lemma KeepPlaced(s: State, p: nat, e: Effect, r: nat)
    requires p < |s.procs| && PlaceRule(s, p, e) && FieldRule(s, p, e)
    requires r < |s.procs| && Placed(s, r) && Apart(s, p, r)
    requires (r != p ==> !(HoldsWait(s.procs[p].pc) && HoldsWait(s.procs[r].pc)))
    ensures Placed(Apply(s, p, e), r)
  {
    hide Fits, Alive, Started;
  }

  lemma KeepApart(s: State, p: nat, e: Effect, r: nat)
    requires p < |s.procs| && PlaceRule(s, p, e) && r < |s.procs| && Apart(s, p, r) && Placed(s, r)
    ensures Apart(Apply(s, p, e), p, r) && Apart(Apply(s, p, e), r, p)
  {
    hide Fits;
  }

  lemma KeepPlaces(s: State, p: nat, e: Effect)
    requires Locks(s) && Places(s) && p < |s.procs| && PlaceRule(s, p, e) && FieldRule(s, p, e)
    ensures Places(Apply(s, p, e))
  {
    var s' := Apply(s, p, e);
    hide PlaceRule, FieldRule, Placed, Locks;
    forall r | 0 <= r < |s.procs|
      ensures Placed(s', r)
    {
      assert Placed(s, r) && Apart(s, p, r);
      if r != p {
        WaitLockOnce(s, p, r);
      }
      KeepPlaced(s, p, e, r);
    }
    forall r, r2 | 0 <= r < |s.procs| && 0 <= r2 < |s.procs|
      ensures Apart(s', r, r2)
    {
      assert Apart(s, r, r2);
      if r == p {
        KeepApart(s, p, e, r2);
      } else if r2 == p {
        KeepApart(s, p, e, r);
      }
    }
  }

  lemma KeepKin(s: State, p: nat, e: Effect, q: nat)
    requires p < |s.procs| && 0 <= e.q < |s.procs| && FieldRule(s, p, e) && InitFine(s)
    requires q < |s.procs| && Kin(s, q) && NoChild(s, p, q)
    ensures Kin(Apply(s, p, e), q)
  {
  }

  lemma KeepNoChild(s: State, p: nat, e: Effect, r: nat, j: nat)
    requires p < |s.procs| && 0 <= e.q < |s.procs| && FieldRule(s, p, e) && InitFine(s)
    requires r < |s.procs| && j < |s.procs| && NoChild(s, r, j) && KnowRule(s, p, e, j)
    requires r != p ==> !(HoldsWait(s.procs[p].pc) && HoldsWait(s.procs[r].pc))
    ensures NoChild(Apply(s, p, e), r, j)
  {
  }

  lemma KeepFamily(s: State, p: nat, e: Effect)
    requires Locks(s) && Family(s) && p < |s.procs| && PlaceRule(s, p, e) && FieldRule(s, p, e)
    requires forall j :: 0 <= j < |s.procs| ==> KnowRule(s, p, e, j)
    ensures Family(Apply(s, p, e))
  {
    var s' := Apply(s, p, e);
    assert InitFine(s') by {
      assert NoChild(s, p, INIT);
    }
    hide PlaceRule, FieldRule, KnowRule, Locks, Kin, InitFine;
    forall q | 0 <= q < |s.procs|
      ensures Kin(s', q)
    {
      assert NoChild(s, p, q);
      KeepKin(s, p, e, q);
    }
    forall r, j | 0 <= r < |s.procs| && 0 <= j < |s.procs|
      ensures NoChild(s', r, j)
    {
      assert NoChild(s, r, j);
      if r != p {
        WaitLockOnce(s, p, r);
      }
      KeepNoChild(s, p, e, r, j);
    }
  }

  lemma KeepRecords(s: State, p: nat, e: Effect)
    requires Records(s) && p < |s.procs| && 0 <= e.q < |s.procs| && FieldRule(s, p, e)
    ensures Records(Apply(s, p, e))
  {
    var s' := Apply(s, p, e);
    assert BirthOk(s, p) && BirthOk(s, e.q);
    forall q | 0 <= q < |s.procs|
      ensures BirthOk(s', q)
    {
      assert BirthOk(s, q) && BirthsApart(s, p, q);
    }
    forall q, r | 0 <= q < |s.procs| && 0 <= r < |s.procs|
      ensures BirthsApart(s', q, r)
    {
      assert BirthOk(s, q) && BirthOk(s, r) && BirthsApart(s, q, r);
    }
    forall k | 0 <= k < |s'.reports|
      ensures ReportOk(s', k)
    {
      if k < |s.reports| {
        assert ReportOk(s, k) && ReportGone(s, k, p);
      }
    }
    forall k, q | 0 <= k < |s'.reports| && 0 <= q < |s.procs|
      ensures ReportGone(s', k, q)
    {
      if k < |s.reports| {
        assert ReportOk(s, k) && ReportGone(s, k, q);
      } else {
        assert BirthsApart(s, e.q, q);
      }
    }
    forall k, l | 0 <= k < l < |s'.reports|
      ensures s'.reports[k].birth != s'.reports[l].birth
    {
      if l == |s.reports| {
        assert ReportGone(s, k, e.q);
      }
    }
  }

  // ---- every step keeps to the rules

  lemma GetReady(s: State, p: nat)
    requires Locks(s) && Places(s) && Family(s) && p < |s.procs|
    ensures Ready(s, p)
  {
    var me, q := s.procs[p], Other(s.procs[p].pc);
    assert Placed(s, p);
    assert LockOf(s, p) == By(p) <==> p in Held(p, me.pc);
    if 0 <= q < |s.procs| {
      assert Placed(s, q);
      assert LockOf(s, q) == By(p) <==> q in Held(p, me.pc);
      assert LockOf(s, q) == By(q) <==> q in Held(q, s.procs[q].pc);
    }
  }

  lemma Obeys(s: State, step: Step)
    requires Enabled(s, step) && Ready(s, step.p) && (forall r :: 0 <= r < |s.procs| ==> Placed(s, r))
    ensures var e := Do(s, step); LockRule(s, step.p, e) && PlaceRule(s, step.p, e) && FieldRule(s, step.p, e)
    ensures forall j :: 0 <= j < |s.procs| ==> KnowRule(s, step.p, Do(s, step), j)
  {
    var p, e := step.p, Do(s, step);
    assert step.Forks? && step.f.AllocProc? ==> Placed(s, step.f.q);
    hide ForkEnabled, ExitEnabled, WaitEnabled, SchedEnabled, ForkDo, ExitDo, WaitDo, SchedDo, Ready, LockRule,
         PlaceRule, FieldRule, KnowRule;
    match step {
      case Forks(_, f) => ForkLock(s, p, f); ForkPlace(s, p, f); ForkField(s, p, f);
      case Exits(_, x) => ExitLock(s, p, x); ExitPlace(s, p, x); ExitField(s, p, x);
      case Waits(_, w) => WaitLock(s, p, w); WaitPlace(s, p, w); WaitField(s, p, w);
      case Scheds(_, o) => SchedLock(s, p, o); SchedPlace(s, p, o); SchedField(s, p, o);
    }
    forall j | 0 <= j < |s.procs|
      ensures KnowRule(s, p, e, j)
    {
      match step {
        case Forks(_, f) => ForkKnow(s, p, f, j);
        case Exits(_, x) => ExitKnow(s, p, x, j);
        case Waits(_, w) => WaitKnow(s, p, w, j);
        case Scheds(_, o) => SchedKnow(s, p, o, j);
      }
    }
  }

  // ---- wakeups reach the waiting parent

  lemma ForkNoticed(s: State, p: nat, f: ForkOp, r: nat, c: nat)
    requires p < |s.procs| && ForkEnabled(s, p, f) && r < |s.procs| && c < |s.procs|
    requires LockFacts(s, p, r) && LockFacts(s, p, c) && Noticed(s, r, c) && Heard(s, c, r)
    requires f.AllocProc? ==> Fits(s.procs[f.q].pc, s.procs[f.q].info)
    ensures var e := ForkDo(s, p, f); 0 <= e.q < |s.procs| && Noticed(Apply(s, p, e), r, c)
  {
    hide Concern, Started, Alive;
  }

  lemma ForkHeard(s: State, p: nat, f: ForkOp, r: nat, c: nat)
    requires p < |s.procs| && ForkEnabled(s, p, f) && r < |s.procs| && c < |s.procs|
    requires LockFacts(s, p, r) && LockFacts(s, p, c) && Noticed(s, r, c) && Heard(s, c, r)
    requires f.AllocProc? ==> Fits(s.procs[f.q].pc, s.procs[f.q].info)
    ensures var e := ForkDo(s, p, f); 0 <= e.q < |s.procs| && Heard(Apply(s, p, e), c, r)
  {
    hide Concern, Started, Alive;
  }

  lemma ExitNoticed(s: State, p: nat, x: ExitOp, r: nat, c: nat)
    requires p < |s.procs| && ExitEnabled(s, p, x) && r < |s.procs| && c < |s.procs|
    requires LockFacts(s, p, r) && LockFacts(s, p, c) && Noticed(s, r, c) && Heard(s, c, r)
    requires NoChild(s, p, p)
    ensures var e := ExitDo(s, p, x); 0 <= e.q < |s.procs| && Noticed(Apply(s, p, e), r, c)
  {
    hide Concern, Started, Alive;
  }

  lemma ExitHeard(s: State, p: nat, x: ExitOp, r: nat, c: nat)
    requires p < |s.procs| && ExitEnabled(s, p, x) && r < |s.procs| && c < |s.procs|
    requires LockFacts(s, p, r) && LockFacts(s, p, c) && Noticed(s, r, c) && Heard(s, c, r)
    requires NoChild(s, p, p)
    ensures var e := ExitDo(s, p, x); 0 <= e.q < |s.procs| && Heard(Apply(s, p, e), c, r)
  {
    hide Concern, Started, Alive;
  }

  lemma WaitNoticed(s: State, p: nat, w: WaitOp, r: nat, c: nat)
    requires p < |s.procs| && WaitEnabled(s, p, w) && r < |s.procs| && c < |s.procs|
    requires LockFacts(s, p, r) && LockFacts(s, p, c) && Noticed(s, r, c) && Heard(s, c, r)
    ensures var e := WaitDo(s, p, w); 0 <= e.q < |s.procs| && Noticed(Apply(s, p, e), r, c)
  {
    hide Concern, Started, Alive;
  }

  lemma WaitHeard(s: State, p: nat, w: WaitOp, r: nat, c: nat)
    requires p < |s.procs| && WaitEnabled(s, p, w) && r < |s.procs| && c < |s.procs|
    requires LockFacts(s, p, r) && LockFacts(s, p, c) && Noticed(s, r, c) && Heard(s, c, r)
    ensures var e := WaitDo(s, p, w); 0 <= e.q < |s.procs| && Heard(Apply(s, p, e), c, r)
  {
    hide Concern, Started, Alive;
  }

  lemma SchedNoticed(s: State, p: nat, o: SchedOp, r: nat, c: nat)
    requires p < |s.procs| && SchedEnabled(s, p, o) && Ready(s, p) && r < |s.procs| && c < |s.procs|
    requires LockFacts(s, p, r) && LockFacts(s, p, c) && Noticed(s, r, c) && Heard(s, c, r)
    ensures var e := SchedDo(s, p, o); 0 <= e.q < |s.procs| && Noticed(Apply(s, p, e), r, c)
  {
    hide Concern, Started, Alive;
  }

  lemma SchedHeard(s: State, p: nat, o: SchedOp, r: nat, c: nat)
    requires p < |s.procs| && SchedEnabled(s, p, o) && r < |s.procs| && c < |s.procs|
    requires LockFacts(s, p, r) && LockFacts(s, p, c) && Noticed(s, r, c) && Heard(s, c, r)
    ensures var e := SchedDo(s, p, o); 0 <= e.q < |s.procs| && Heard(Apply(s, p, e), c, r)
  {
    hide Concern, Started, Alive;
  }

  lemma GetLockFacts(s: State, p: nat, r: nat)
    requires Locks(s) && p < |s.procs| && r < |s.procs|
    ensures LockFacts(s, p, r)
  {
    assert LockOf(s, WAIT) == By(p) <==> WAIT in Held(p, s.procs[p].pc);
    assert LockOf(s, WAIT) == By(r) <==> WAIT in Held(r, s.procs[r].pc);
    assert LockOf(s, r) == By(r) <==> r in Held(r, s.procs[r].pc);
  }

  lemma KeepWatch(s: State, step: Step, r: nat, c: nat)
    requires Enabled(s, step) && Ready(s, step.p) && r < |s.procs| && c < |s.procs|
    requires LockFacts(s, step.p, r) && LockFacts(s, step.p, c) && Noticed(s, r, c) && Heard(s, c, r)
    requires NoChild(s, step.p, step.p)
    requires step.Forks? && step.f.AllocProc? ==> Fits(s.procs[step.f.q].pc, s.procs[step.f.q].info)
    requires 0 <= Do(s, step).q < |s.procs|
    ensures Noticed(Next(s, step), r, c) && Heard(Next(s, step), c, r)
  {
    hide ForkEnabled, ExitEnabled, WaitEnabled, SchedEnabled, ForkDo, ExitDo, WaitDo, SchedDo, Ready, LockFacts,
         Noticed, Heard, Apply, Fits, NoChild;
    var p := step.p;
    match step
    case Forks(_, f) => ForkNoticed(s, p, f, r, c); ForkHeard(s, p, f, r, c);
    case Exits(_, x) => ExitNoticed(s, p, x, r, c); ExitHeard(s, p, x, r, c);
    case Waits(_, w) => WaitNoticed(s, p, w, r, c); WaitHeard(s, p, w, r, c);
    case Scheds(_, o) => SchedNoticed(s, p, o, r, c); SchedHeard(s, p, o, r, c);
  }

  lemma WatchStep(s: State, step: Step)
    requires Locks(s) && Places(s) && Family(s) && Watch(s) && Enabled(s, step) && Ready(s, step.p)
    requires 0 <= Do(s, step).q < |s.procs|
    ensures Watch(Next(s, step))
  {
    var s', p := Next(s, step), step.p;
    assert NoChild(s, p, p);
    assert step.Forks? && step.f.AllocProc? ==> Placed(s, step.f.q);
    hide Enabled, Do, Locks, Places, Family, Ready, LockFacts, Noticed, Heard, Apply, NoChild;
    assert |s'.procs| == |s.procs| by { ApplySize(s, p, Do(s, step)); }
    forall r, c | 0 <= r < |s'.procs| && 0 <= c < |s'.procs|
      ensures Noticed(s', r, c) && Heard(s', c, r)
    {
      GetLockFacts(s, p, r);
      GetLockFacts(s, p, c);
      KeepWatch(s, step, r, c);
    }
  }

  lemma ApplySize(s: State, p: nat, e: Effect)
    requires p < |s.procs| && 0 <= e.q < |s.procs|
    ensures |Apply(s, p, e).procs| == |s.procs|
  {
  }

  lemma InvStep(s: State, step: Step)
    requires Inv(s) && Enabled(s, step)
    ensures Inv(Next(s, step))
  {
    var p, e := step.p, Do(s, step);
    GetReady(s, p);
    Obeys(s, step);
    assert p < |s.procs| && 0 <= e.q < |s.procs|;
    hide Enabled, Do, Locks, Places, Family, Records, Watch, LockRule, PlaceRule, FieldRule, KnowRule;
    KeepLocks(s, p, e);
    KeepPlaces(s, p, e);
    KeepFamily(s, p, e);
    KeepRecords(s, p, e);
    WatchStep(s, step);
  }

  lemma StartInv(s: State)
    requires Start(s)
    ensures Inv(s)
  {
    forall x, p | IsLock(s, x) && 0 <= p < |s.procs|
      ensures LockOf(s, x) == By(p) <==> x in Held(p, s.procs[p].pc)
    {
    }
  }

  lemma {:induction false} InvRun(s: State, steps: seq<Step>, end: State)
    requires Inv(s) && Run(s, steps, end)
    ensures Inv(end)
    decreases |steps|
  {
    hide Inv, Enabled, Next;
    if steps != [] {
      InvStep(s, steps[0]);
      InvRun(Next(s, steps[0]), steps[1..], end);
    }
  }

  ghost predicate Reachable(s: State) {
    exists start, steps :: Start(start) && Run(start, steps, s)
  }

  lemma ReachableInv(s: State)
    requires Reachable(s)
    ensures Inv(s)
  {
    hide Inv;
    var start, steps :| Start(start) && Run(start, steps, s);
    StartInv(start);
    InvRun(start, steps, s);
  }

  // ---- what follows for every run

  /** At every moment every started process but init has a parent that is neither a zombie nor unused, and
      init itself is alive. */
  lemma ParentsAlive(s: State, q: nat)
    requires Reachable(s) && q < |s.procs| && Started(s.procs[q].info)
    ensures q == INIT ==> Alive(s.procs[q].info)
    ensures q != INIT ==> 0 <= s.procs[q].info.parent < |s.procs| && Alive(s.procs[s.procs[q].info.parent].info)
  {
    hide Locks, Places, Records, Watch, NoChild;
    ReachableInv(s);
    assert Kin(s, q);
  }

  /** A process gets its parent when it is forked, and keeps it until it is reaped or its parent exits, when it
      goes to init. */
  lemma ParentChanges(s: State, step: Step, c: nat)
    requires Reachable(s) && Enabled(s, step) && c < |s.procs|
    ensures c < |Next(s, step).procs|
    ensures var p, was, now := step.p, s.procs[c].info, Next(s, step).procs[c].info;
            || now.parent == was.parent
            || (now.parent == p && was.st.USED? && s.procs[p].pc == Adopting(c))
            || (now.parent == INIT && was.parent == p && InExit(s.procs[p].pc))
            || (now.parent == NOBODY && now.st.UNUSED? && !Alive(was))
  {
    hide Locks, Records, Watch, Family, Do, KnowRule, LockRule, PlaceRule, ForkEnabled, ExitEnabled, WaitEnabled,
         SchedEnabled, Ready;
    ReachableInv(s);
    GetReady(s, step.p);
    Obeys(s, step);
    if s.procs[step.p].pc.Adopting? {
      AdoptsIts(s, step);
    }
  }

  lemma AdoptsIts(s: State, step: Step)
    requires Enabled(s, step) && s.procs[step.p].pc.Adopting?
    ensures Do(s, step).to.parent != s.procs[Do(s, step).q].info.parent ==> Do(s, step).q == s.procs[step.p].pc.q
  {
  }

  /** No exit is reported twice, and a report carries the status the child passed to exit. */
  lemma ReapedOnce(s: State, k: nat, l: nat)
    requires Reachable(s) && k < |s.reports| && l < |s.reports|
    ensures s.reports[k].birth in s.exits && s.exits[s.reports[k].birth] == s.reports[k].status
    ensures s.reports[k].birth == s.reports[l].birth ==> k == l
  {
    hide Locks, Places, Family, Watch;
    ReachableInv(s);
    assert ReportOk(s, k);
  }

  /** wait frees only a slot of a child of its caller, and only after the child has exited and switched off
      its kernel stack. */
  lemma ReapsOffStack(s: State, p: nat)
    requires Reachable(s) && Enabled(s, Waits(p, Reap))
    ensures var q := Other(s.procs[p].pc);
            q != p && s.procs[q].pc == Off(false) && s.procs[q].info.parent == p && s.procs[q].info.st.ZOMBIE?
  {
    hide Locks, Places, Records, Watch, Family;
    ReachableInv(s);
    GetReady(s, p);
  }

  /** No process is ever switched to while it is still on its kernel stack. */
  lemma OneStack(s: State, p: nat)
    requires Reachable(s) && Enabled(s, Scheds(p, Schedule))
    ensures s.procs[p].pc.Off?
  {
    hide Locks, Places, Records, Watch, Family;
    ReachableInv(s);
    GetReady(s, p);
  }

  /** wait returns without a child only if there is none, or the caller was killed. */
  lemma NoneLeft(s: State, p: nat, j: nat)
    requires Reachable(s) && Enabled(s, Waits(p, WaitNone)) && !s.procs[p].info.killed && j < |s.procs|
    ensures s.procs[j].info.parent != p
  {
    hide Locks, Places, Records, Watch, Kin, InitFine;
    ReachableInv(s);
    assert NoChild(s, p, j);
  }

  /** With wait_lock free, no process sleeps in wait while a child of its is a zombie: exit wakes up the
      parent before the child is one, and nobody falls asleep in between. */
  lemma NoZombieSleptOn(s: State, r: nat, c: nat)
    requires Reachable(s) && s.waitLock.Free? && r < |s.procs| && c < |s.procs|
    requires Dozing(s.procs[r]) && s.procs[c].info.parent == r
    ensures !s.procs[c].info.st.ZOMBIE?
  {
    hide Locks, Places, Family, Records;
    ReachableInv(s);
    assert Noticed(s, r, c);
  }

  /** The lock a process takes in its next step, if any. */
  function Needs(s: State, p: nat): int
    requires p < |s.procs|
  {
    var pc, q := s.procs[p].pc, Other(s.procs[p].pc);
    if pc.Forked? || pc.Rewait? then WAIT
    else if pc.Dying? || pc.Sleepy? then p
    else if pc.Launching? || ((pc.WakeInit? || pc.WakeParent?) && q != p) then q
    else if pc.Scan? && 0 <= q < |s.procs| && s.procs[q].info.parent == p then q
    else NOLOCK
  }

  /** The next step of a process, by its place. */
  function Onward(s: State, p: nat): Step
    requires p < |s.procs|
  {
    var n, me := |s.procs|, s.procs[p];
    match me.pc
    case Forking(_) => Forks(p, ForkRelease)
    case Forked(_) => Forks(p, ForkWait)
    case Adopting(_) => Forks(p, Adopt)
    case Adopted(_) => Forks(p, ForkUnwait)
    case Launching(_) => Forks(p, LaunchTake)
    case LaunchHeld(_) => Forks(p, Launch)
    case Launched(_) => Forks(p, LaunchDrop)
    case Reparent(i) => Exits(p, if i < n then ReparentOne else ReparentDone)
    case WakeInit(_, j) => Exits(p, if j < n then WakeOne else WakeDone)
    case WakeParent(j) => Exits(p, if j < n then WakeOne else WakeDone)
    case Dying => Exits(p, ExitTake)
    case DyingHeld => Exits(p, Zombify(0))
    case Zombied => Exits(p, ExitUnwait)
    case Departing => Exits(p, ExitSwtch)
    case Scan(i, have) =>
      Waits(p, if i >= n then (if !have || me.info.killed then WaitNone else WaitSleep)
               else if s.procs[i].info.parent == p then ScanTake else ScanSkip)
    case ScanHeld(i, _) => Waits(p, if i < n && s.procs[i].info.st.ZOMBIE? then Reap else ScanDrop)
    case Reaped(_) => Waits(p, ReapDrop)
    case WaitDone => Waits(p, WaitReturn)
    case Sleepy => Waits(p, SleepTake)
    case SleepyHeld => Waits(p, SleepUnwait)
    case Parking(_) => Scheds(p, ParkSet(true))
    case Parked(_) => Scheds(p, ParkSwtch)
    case Resumed(_) => Scheds(p, ResumeDrop)
    case Rewait => Waits(p, RewaitTake)
    case Off(_) => Scheds(p, Schedule)
    case Elsewhere => Waits(p, WaitStart)
  }

  /** A process in this code can go on unless the lock it needs is taken or it has been switched off. */
  lemma NeverStuck(s: State, p: nat)
    requires Reachable(s) && p < |s.procs| && !s.procs[p].pc.Elsewhere? && !s.procs[p].pc.Off?
    requires IsLock(s, Needs(s, p)) ==> LockOf(s, Needs(s, p)).Free?
    ensures Enabled(s, Onward(s, p)) && Do(s, Onward(s, p)).pc != s.procs[p].pc
  {
    hide Inv, Enabled, Needs, Do;
    ReachableInv(s);
    KnowsSlot(s, p);
    match Onward(s, p) {
      case Forks(_, _) => ForksOn(s, p);
      case Exits(_, _) => ExitsOn(s, p);
      case Waits(_, _) => WaitsOn(s, p);
      case Scheds(_, _) => SchedsOn(s, p);
    }
  }

  lemma ForksOn(s: State, p: nat)
    requires p < |s.procs| && Onward(s, p).Forks? && Other(s.procs[p].pc) < |s.procs|
    requires IsLock(s, Needs(s, p)) ==> LockOf(s, Needs(s, p)).Free?
    ensures Enabled(s, Onward(s, p)) && Do(s, Onward(s, p)).pc != s.procs[p].pc
  {
    hide ExitEnabled, WaitEnabled, SchedEnabled, ExitDo, WaitDo, SchedDo;
  }

  lemma ExitsOn(s: State, p: nat)
    requires p < |s.procs| && Onward(s, p).Exits?
    requires IsLock(s, Needs(s, p)) ==> LockOf(s, Needs(s, p)).Free?
    ensures Enabled(s, Onward(s, p)) && Do(s, Onward(s, p)).pc != s.procs[p].pc
  {
    hide ForkEnabled, WaitEnabled, SchedEnabled, ForkDo, WaitDo, SchedDo;
  }

  lemma WaitsOn(s: State, p: nat)
    requires p < |s.procs| && Onward(s, p).Waits? && !s.procs[p].pc.Elsewhere?
    requires HoldsOther(s.procs[p].pc) ==> Other(s.procs[p].pc) < |s.procs|
    requires IsLock(s, Needs(s, p)) ==> LockOf(s, Needs(s, p)).Free?
    ensures Enabled(s, Onward(s, p)) && Do(s, Onward(s, p)).pc != s.procs[p].pc
  {
    hide ForkEnabled, ExitEnabled, SchedEnabled, ForkDo, ExitDo, SchedDo;
  }

  lemma SchedsOn(s: State, p: nat)
    requires p < |s.procs| && Onward(s, p).Scheds? && !s.procs[p].pc.Off?
    ensures Enabled(s, Onward(s, p)) && Do(s, Onward(s, p)).pc != s.procs[p].pc
  {
    hide ForkEnabled, ExitEnabled, WaitEnabled, ForkDo, ExitDo, WaitDo;
  }

  lemma KnowsSlot(s: State, p: nat)
    requires Inv(s) && p < |s.procs|
    ensures var pc := s.procs[p].pc; InFork(pc) || HoldsOther(pc) ==> Other(pc) < |s.procs|
  {
    hide Locks, Records, Watch, Family;
    assert Placed(s, p);
  }
}
