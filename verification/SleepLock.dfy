/** sleep, wakeup and the sleep-locks built on them, as a transition system: any number of
    processes run acquiresleep and releasesleep on one sleep-lock, one lock operation or memory
    access at a time, in any interleaving with each other, the schedulers, kill, and code that
    sleeps on other channels. */
module SleepLock {

  datatype RunState = SLEEPING | RUNNABLE | RUNNING

  /** Who holds a spinlock: nobody, a process, or code outside this system (a scheduler, kill). */
  datatype Holder = Free | By(p: nat) | Outside

  /** Where a process is in the code of sleeplock.c and of sleep and wakeup in proc.c. */
  datatype Pc =
    | Elsewhere        // in none of it
    | Test             // acquiresleep, at the while test, holding lk->lk
    | Enter            // sleep, before acquire(&p->lock)
    | Locked           // sleep, before release(lk)
    | Committed        // sleep, before setting p->chan and p->state
    | Switching        // sleep, before swtch in sched
    | Off              // switched off the CPU
    | Resumed          // sleep, after sched returns, before p->chan = 0
    | Tidied           // sleep, before release(&p->lock)
    | Retake           // sleep, before acquire(lk)
    | Clear            // releasesleep, before lk->locked = 0
    | Wake(i: nat)     // wakeup, before looking at process i
    | WakeHeld(i: nat) // wakeup, holding the lock of process i

  const LK: nat := 1  // the channel: the address of the sleep-lock

  datatype Proc = Proc(pc: Pc, run: RunState, chan: nat, lock: Holder)

  datatype State = State(procs: seq<Proc>, lk: Holder, locked: bool, owner: Holder)

  datatype Step =
    | AcquireLk(p: nat)       // acquiresleep takes lk->lk
    | TestLocked(p: nat)      // the while test: take the sleep-lock, or call sleep
    | TakeOwn(p: nat)
    | DropLk(p: nat)
    | GoToSleep(p: nat)
    | Swtch(p: nat)
    | Tidy(p: nat)
    | DropOwn(p: nat)
    | RetakeLk(p: nat)
    | ReleaseStart(p: nat)    // releasesleep takes lk->lk
    | ClearLocked(p: nat)
    | WakeTake(p: nat)        // wakeup takes the next process's lock, or skips its own caller
    | WakeOne(p: nat)
    | WakeEnd(p: nat)         // wakeup returns and releasesleep drops lk->lk
    | OutsideTake(q: nat)     // a scheduler, kill or another wakeup takes a process's lock
    | OutsideWake(q: nat)     // kill, or a wakeup on another channel
    | OutsideDrop(q: nat)
    | Schedule(q: nat)        // a scheduler switches to a runnable process, which holds its lock
    | Other(q: nat, run: RunState, chan: nat) // code elsewhere runs, sleeps or wakes on other channels

  predicate At(s: State, p: nat, pc: Pc) {
    p < |s.procs| && s.procs[p].pc == pc
  }

  predicate Waking(pc: Pc) {
    pc.Wake? || pc.WakeHeld?
  }

  predicate Enabled(s: State, step: Step)
  {
    match step
    case AcquireLk(p) => At(s, p, Elsewhere) && s.lk.Free? && s.procs[p].run.RUNNING?
    case TestLocked(p) => At(s, p, Test)
    case TakeOwn(p) => At(s, p, Enter) && s.procs[p].lock.Free?
    case DropLk(p) => At(s, p, Locked)
    case GoToSleep(p) => At(s, p, Committed)
    case Swtch(p) => At(s, p, Switching)
    case Tidy(p) => At(s, p, Resumed)
    case DropOwn(p) => At(s, p, Tidied)
    case RetakeLk(p) => At(s, p, Retake) && s.lk.Free?
    case ReleaseStart(p) => At(s, p, Elsewhere) && s.lk.Free? && s.procs[p].run.RUNNING? && s.owner == By(p)
    case ClearLocked(p) => At(s, p, Clear)
    case WakeTake(p) =>
      p < |s.procs| && s.procs[p].pc.Wake? && s.procs[p].pc.i < |s.procs|
      && (s.procs[p].pc.i == p || s.procs[s.procs[p].pc.i].lock.Free?)
    case WakeOne(p) => p < |s.procs| && s.procs[p].pc.WakeHeld? && s.procs[p].pc.i < |s.procs|
    case WakeEnd(p) => At(s, p, Wake(|s.procs|))
    case OutsideTake(q) => q < |s.procs| && s.procs[q].lock.Free?
    case OutsideWake(q) => q < |s.procs| && s.procs[q].lock.Outside? && s.procs[q].run.SLEEPING?
    case OutsideDrop(q) => q < |s.procs| && s.procs[q].lock.Outside?
    case Schedule(q) => At(s, q, Off) && s.procs[q].lock.Outside? && s.procs[q].run.RUNNABLE?
    case Other(q, run, chan) => At(s, q, Elsewhere) && s.procs[q].lock.Free? && chan != LK
  }

  function Set(s: State, p: nat, proc: Proc): State
    requires p < |s.procs|
  {
    s.(procs := s.procs[p := proc])
  }

  function Goto(s: State, p: nat, pc: Pc): State
    requires p < |s.procs|
  {
    Set(s, p, s.procs[p].(pc := pc))
  }

  function Next(s: State, step: Step): (s': State)
    requires Enabled(s, step)
    ensures |s'.procs| == |s.procs|
  {
    match step
    case AcquireLk(p) => Goto(s, p, Test).(lk := By(p))
    case TestLocked(p) =>
      if s.locked then Goto(s, p, Enter)
      else Goto(s, p, Elsewhere).(locked := true, owner := By(p), lk := Free)
    case TakeOwn(p) => Set(s, p, s.procs[p].(lock := By(p), pc := Locked))
    case DropLk(p) => Goto(s, p, Committed).(lk := Free)
    case GoToSleep(p) => Set(s, p, s.procs[p].(chan := LK, run := SLEEPING, pc := Switching))
    case Swtch(p) => Set(s, p, s.procs[p].(lock := Outside, pc := Off))
    case Tidy(p) => Set(s, p, s.procs[p].(chan := 0, pc := Tidied))
    case DropOwn(p) => Set(s, p, s.procs[p].(lock := Free, pc := Retake))
    case RetakeLk(p) => Goto(s, p, Test).(lk := By(p))
    case ReleaseStart(p) => Goto(s, p, Clear).(lk := By(p))
    case ClearLocked(p) => Goto(s, p, Wake(0)).(locked := false, owner := Free)
    case WakeTake(p) =>
      var i := s.procs[p].pc.i;
      if i == p then Goto(s, p, Wake(i + 1))
      else Goto(Set(s, i, s.procs[i].(lock := By(p))), p, WakeHeld(i))
    case WakeOne(p) =>
      var i := s.procs[p].pc.i;
      var run := if s.procs[i].run.SLEEPING? && s.procs[i].chan == LK then RUNNABLE else s.procs[i].run;
      Goto(Set(s, i, s.procs[i].(run := run, lock := Free)), p, Wake(i + 1))
    case WakeEnd(p) => Goto(s, p, Elsewhere).(lk := Free)
    case OutsideTake(q) => Set(s, q, s.procs[q].(lock := Outside))
    case OutsideWake(q) => Set(s, q, s.procs[q].(run := RUNNABLE))
    case OutsideDrop(q) => Set(s, q, s.procs[q].(lock := Free))
    case Schedule(q) => Set(s, q, s.procs[q].(run := RUNNING, lock := By(q), pc := Resumed))
    case Other(q, run, chan) => Set(s, q, s.procs[q].(run := run, chan := chan))
  }

  /** Nobody holds anything, and no process is in the code. */
  predicate Start(s: State) {
    && s.lk.Free? && !s.locked && s.owner.Free?
    && (forall p :: 0 <= p < |s.procs| ==> s.procs[p].pc.Elsewhere? && s.procs[p].chan != LK && !s.procs[p].lock.By?)
  }

  ghost predicate Run(s: State, steps: seq<Step>, end: State)
    decreases |steps|
  {
    if steps == [] then s == end
    else Enabled(s, steps[0]) && Run(Next(s, steps[0]), steps[1..], end)
  }

  // ---- the invariant

  /** A process that is asleep on the sleep-lock, or past the point where it will be. */
  predicate Sleeper(s: State, q: nat)
    requires q < |s.procs|
  {
    s.procs[q].pc.Committed? || s.procs[q].pc.Switching? || (s.procs[q].pc.Off? && s.procs[q].run.SLEEPING?)
  }

  predicate HoldsLk(pc: Pc) {
    pc.Test? || pc.Enter? || pc.Locked? || pc.Clear? || Waking(pc)
  }

  predicate HoldsOwn(pc: Pc) {
    pc.Locked? || pc.Committed? || pc.Switching? || pc.Resumed? || pc.Tidied?
  }

  /** lk->lk is held by whom the code says. */
  predicate LkRight(s: State, p: nat)
    requires p < |s.procs|
  {
    HoldsLk(s.procs[p].pc) <==> s.lk == By(p)
  }

  /** So are the processes' own locks, by themselves and by a wakeup. */
  predicate OwnRight(s: State, p: nat)
    requires p < |s.procs|
  {
    HoldsOwn(s.procs[p].pc) <==> s.procs[p].lock == By(p)
  }

  predicate WakeRight(s: State, p: nat)
    requires p < |s.procs|
  {
    var pc := s.procs[p].pc;
    && (pc.WakeHeld? ==> pc.i < |s.procs| && pc.i != p && s.procs[pc.i].lock == By(p))
    && (pc.Wake? ==> pc.i <= |s.procs|)
  }

  /** A channel is the sleep-lock from going to sleep until tidying up. */
  predicate ChannelRight(s: State, p: nat)
    requires p < |s.procs|
  {
    && (s.procs[p].pc.Switching? ==> s.procs[p].run.SLEEPING? && s.procs[p].chan == LK)
    && (s.procs[p].pc.Off? ==> s.procs[p].chan == LK && !s.procs[p].run.RUNNING?)
    && (s.procs[p].chan == LK ==> s.procs[p].pc.Switching? || s.procs[p].pc.Off? || s.procs[p].pc.Resumed?)
  }

  /** The condition a sleeper waits for is the one it tested, while it still holds lk->lk. */
  predicate TestedRight(s: State, p: nat)
    requires p < |s.procs|
  {
    && (s.procs[p].pc.Enter? || s.procs[p].pc.Locked? ==> s.locked)
    && (s.procs[p].pc.Clear? ==> s.owner == By(p))
    && (s.locked <==> !s.owner.Free?)
  }

  predicate ProcRight(s: State, p: nat)
    requires p < |s.procs|
  {
    LkRight(s, p) && OwnRight(s, p) && WakeRight(s, p) && ChannelRight(s, p) && TestedRight(s, p)
  }

  /** A wakeup in progress has dealt with every process it has passed. */
  predicate PassedAwake(s: State, p: nat, q: nat)
    requires p < |s.procs| && q < |s.procs|
  {
    Waking(s.procs[p].pc) && Sleeper(s, q) ==> s.procs[p].pc.i <= q
  }

  /** The process with lk->lk is in wakeup. */
  predicate WakeupOn(s: State) {
    s.lk.By? && s.lk.p < |s.procs| && Waking(s.procs[s.lk.p].pc)
  }

  /** A sleeper has either the lock to wait for, or a wakeup still to come. */
  predicate NotStranded(s: State, q: nat)
    requires q < |s.procs|
  {
    Sleeper(s, q) ==> s.locked || WakeupOn(s)
  }

  ghost predicate Inv(s: State) {
    && (forall p: nat :: p < |s.procs| ==> ProcRight(s, p) && NotStranded(s, p))
    && (forall p: nat, q: nat :: p < |s.procs| && q < |s.procs| ==> PassedAwake(s, p, q))
  }

  // ---- what a step does to one process, or two

  /** The process that takes the step, or to which it happens. */
  function Who(step: Step): nat {
    match step
    case OutsideTake(q) => q
    case OutsideWake(q) => q
    case OutsideDrop(q) => q
    case Schedule(q) => q
    case Other(q, _, _) => q
    case _ => step.p
  }

  lemma LkStep(s: State, step: Step, r: nat)
    requires Enabled(s, step) && r < |s.procs| && Who(step) < |s.procs|
    requires LkRight(s, Who(step)) && LkRight(s, r) && WakeRight(s, Who(step))
    ensures LkRight(Next(s, step), r)
  {
  }

  lemma OwnStep(s: State, step: Step, r: nat)
    requires Enabled(s, step) && r < |s.procs| && Who(step) < |s.procs|
    requires OwnRight(s, Who(step)) && OwnRight(s, r) && WakeRight(s, Who(step))
    ensures OwnRight(Next(s, step), r)
  {
  }

  lemma WakeMoves(s: State, step: Step, r: nat)
    requires Enabled(s, step) && r < |s.procs| && Who(step) < |s.procs| && (step.WakeTake? || step.WakeOne?)
    requires LkRight(s, Who(step)) && LkRight(s, r) && WakeRight(s, Who(step)) && WakeRight(s, r)
    requires OwnRight(s, Who(step)) && (s.procs[r].pc.WakeHeld? ==> OwnRight(s, s.procs[r].pc.i))
    ensures WakeRight(Next(s, step), r)
  {
  }

  /** Nobody else touches a process's lock while a wakeup holds it. */
  lemma WakeStays(s: State, step: Step, r: nat)
    requires Enabled(s, step) && r < |s.procs| && Who(step) < |s.procs| && !step.WakeTake? && !step.WakeOne?
    requires LkRight(s, Who(step)) && LkRight(s, r) && WakeRight(s, Who(step)) && WakeRight(s, r)
    requires OwnRight(s, Who(step)) && (s.procs[r].pc.WakeHeld? ==> OwnRight(s, s.procs[r].pc.i))
    ensures WakeRight(Next(s, step), r)
  {
  }

  lemma WakeStep(s: State, step: Step, r: nat)
    requires Enabled(s, step) && r < |s.procs| && Who(step) < |s.procs|
    requires LkRight(s, Who(step)) && LkRight(s, r) && WakeRight(s, Who(step)) && WakeRight(s, r)
    requires OwnRight(s, Who(step)) && (s.procs[r].pc.WakeHeld? ==> OwnRight(s, s.procs[r].pc.i))
    ensures WakeRight(Next(s, step), r)
  {
    hide Enabled, Next, LkRight, OwnRight, WakeRight;
    if step.WakeTake? || step.WakeOne? {
      WakeMoves(s, step, r);
    } else {
      WakeStays(s, step, r);
    }
  }

  lemma ChannelStep(s: State, step: Step, r: nat)
    requires Enabled(s, step) && r < |s.procs| && Who(step) < |s.procs|
    requires ChannelRight(s, Who(step)) && ChannelRight(s, r) && OwnRight(s, r) && WakeRight(s, Who(step))
    ensures ChannelRight(Next(s, step), r)
  {
  }

  lemma TestedStep(s: State, step: Step, r: nat)
    requires Enabled(s, step) && r < |s.procs| && Who(step) < |s.procs|
    requires LkRight(s, Who(step)) && LkRight(s, r) && TestedRight(s, Who(step)) && TestedRight(s, r)
    requires WakeRight(s, Who(step))
    ensures TestedRight(Next(s, step), r)
  {
  }

  /** A process becomes a sleeper only by letting go of lk->lk inside sleep. */
  lemma NewSleeper(s: State, step: Step, q: nat)
    requires Enabled(s, step) && q < |s.procs| && Who(step) < |s.procs|
    requires WakeRight(s, Who(step)) && Sleeper(Next(s, step), q)
    ensures Sleeper(s, q) || step == DropLk(q)
  {
  }

  /** The heart of the matter: a wakeup looks at process i only with i's own lock in hand, so i is
      not on its way to sleep, and if it is asleep it is woken. */
  lemma WokenWhenPassed(s: State, p: nat)
    requires Enabled(s, WakeOne(p)) && WakeRight(s, p) && OwnRight(s, s.procs[p].pc.i)
    requires ChannelRight(s, s.procs[p].pc.i)
    ensures !Sleeper(Next(s, WakeOne(p)), s.procs[p].pc.i)
  {
  }

  /** How far a wakeup has got, before the step. */
  lemma Farther(s: State, step: Step, p: nat)
    requires Enabled(s, step) && p < |s.procs| && Who(step) < |s.procs| && Waking(Next(s, step).procs[p].pc)
    ensures Waking(s.procs[p].pc) || Next(s, step).procs[p].pc.i == 0
    ensures Waking(s.procs[p].pc) ==>
              var i, i' := s.procs[p].pc.i, Next(s, step).procs[p].pc.i;
              i' == i || (i' == i + 1 && (step == WakeOne(p) || (step == WakeTake(p) && i == p)))
  {
  }

  lemma PassedStep(s: State, step: Step, p: nat, q: nat)
    requires Inv(s) && Enabled(s, step) && p < |s.procs| && q < |s.procs| && Who(step) < |s.procs|
    ensures PassedAwake(Next(s, step), p, q)
  {
    var s' := Next(s, step);
    assert ProcRight(s, p) && ProcRight(s, q) && ProcRight(s, Who(step)) && PassedAwake(s, p, q);
    if Waking(s'.procs[p].pc) && Sleeper(s', q) {
      Farther(s, step, p);
      NewSleeper(s, step, q);
      if step == WakeOne(p) {
        assert ProcRight(s, s.procs[p].pc.i);
        WokenWhenPassed(s, p);
      }
      hide Inv, Next, Enabled;
      if step == DropLk(q) && Waking(s.procs[p].pc) {
        NotBoth(s, p, q);
      }
    }
  }

  /** A process that lets go of lk->lk had it, so nobody is in wakeup. */
  lemma NotBoth(s: State, p: nat, q: nat)
    requires p < |s.procs| && q < |s.procs| && LkRight(s, p) && LkRight(s, q) && Waking(s.procs[p].pc)
    ensures !At(s, q, Locked)
  {
  }

  lemma StrandedStep(s: State, step: Step, q: nat)
    requires Enabled(s, step) && q < |s.procs| && Who(step) < |s.procs|
    requires ProcRight(s, Who(step)) && ProcRight(s, q) && NotStranded(s, q)
    requires s.lk.By? && s.lk.p < |s.procs| ==> ProcRight(s, s.lk.p) && PassedAwake(s, s.lk.p, q)
    ensures NotStranded(Next(s, step), q)
  {
    if Sleeper(Next(s, step), q) {
      NewSleeper(s, step, q);
    }
  }

  lemma WhoIsThere(s: State, step: Step)
    requires Enabled(s, step)
    ensures Who(step) < |s.procs| == |Next(s, step).procs|
  {
  }

  lemma RightStep(s: State, step: Step, r: nat)
    requires Inv(s) && Enabled(s, step) && r < |s.procs| && Who(step) < |s.procs|
    ensures ProcRight(Next(s, step), r) && NotStranded(Next(s, step), r)
  {
    var w := Who(step);
    assert ProcRight(s, w) && ProcRight(s, r) && NotStranded(s, r);
    if s.procs[r].pc.WakeHeld? {
      assert ProcRight(s, s.procs[r].pc.i);
    }
    if s.lk.By? && s.lk.p < |s.procs| {
      assert ProcRight(s, s.lk.p) && PassedAwake(s, s.lk.p, r);
    }
    hide Inv, Next, Enabled, LkRight, OwnRight, WakeRight, ChannelRight, TestedRight, NotStranded, PassedAwake;
    LkStep(s, step, r);
    OwnStep(s, step, r);
    WakeStep(s, step, r);
    ChannelStep(s, step, r);
    TestedStep(s, step, r);
    StrandedStep(s, step, r);
  }

  /** Every step of every process and of the rest of the kernel keeps the invariant. */
  lemma InvStep(s: State, step: Step)
    requires Inv(s) && Enabled(s, step)
    ensures Inv(Next(s, step))
  {
    hide Next, Enabled, ProcRight, NotStranded, PassedAwake;
    var s' := Next(s, step);
    WhoIsThere(s, step);
    forall r: nat | r < |s'.procs|
      ensures ProcRight(s', r) && NotStranded(s', r)
    {
      RightStep(s, step, r);
    }
    forall p: nat, q: nat | p < |s'.procs| && q < |s'.procs|
      ensures PassedAwake(s', p, q)
    {
      PassedStep(s, step, p, q);
    }
  }

  lemma {:induction false} InvRun(s: State, steps: seq<Step>, end: State)
    requires Inv(s) && Run(s, steps, end)
    ensures Inv(end)
    decreases |steps|
  {
    hide Inv, Next, Enabled;
    if steps != [] {
      InvStep(s, steps[0]);
      InvRun(Next(s, steps[0]), steps[1..], end);
    }
  }

  // ---- the results

  ghost predicate Reachable(s: State) {
    exists start, steps :: Start(start) && Run(start, steps, s)
  }

  lemma ReachableInv(s: State)
    requires Reachable(s)
    ensures Inv(s)
  {
    var start, steps :| Start(start) && Run(start, steps, s);
    InvRun(start, steps, s);
  }

  /** No lost wakeup: when a wakeup made with the condition's lock held has been through the
      process table, nobody who went to sleep before is asleep or about to be. */
  lemma WakeupMissesNobody(s: State, p: nat, q: nat)
    requires Reachable(s) && At(s, p, Wake(|s.procs|)) && q < |s.procs|
    ensures !Sleeper(s, q)
  {
    ReachableInv(s);
    assert PassedAwake(s, p, q);
  }

  /** No stranded sleeper: in every reachable state in which the sleep-lock and its spinlock are
      both free, no process is asleep on the sleep-lock or committed to sleeping on it. */
  lemma NobodyStranded(s: State, q: nat)
    requires Reachable(s) && !s.locked && s.lk.Free? && q < |s.procs|
    ensures !Sleeper(s, q)
  {
    ReachableInv(s);
    assert NotStranded(s, q);
  }

  /** Mutual exclusion: a process takes the sleep-lock only when nobody has it, and it stays that
      process's until it releases it itself. */
  lemma OwnerStable(s: State, step: Step, p: nat)
    requires Reachable(s) && Enabled(s, step)
    ensures Next(s, step).owner == By(p) && s.owner != By(p) ==> step == TestLocked(p) && s.owner.Free? && !s.locked
    ensures s.owner == By(p) && Next(s, step).owner != By(p) ==> step == ClearLocked(p)
  {
    hide Inv;
    ReachableInv(s);
    WhoIsThere(s, step);
    assert ProcRight(s, Who(step));
  }

  /** The next step of a process, by its place. */
  function Onward(s: State, p: nat): Step
    requires p < |s.procs|
  {
    match s.procs[p].pc
    case Test => TestLocked(p)
    case Enter => TakeOwn(p)
    case Locked => DropLk(p)
    case Committed => GoToSleep(p)
    case Switching => Swtch(p)
    case Resumed => Tidy(p)
    case Tidied => DropOwn(p)
    case Retake => RetakeLk(p)
    case Clear => ClearLocked(p)
    case Wake(i) => if i < |s.procs| then WakeTake(p) else WakeEnd(p)
    case WakeHeld(_) => WakeOne(p)
    case Off => Schedule(p)
    case Elsewhere => AcquireLk(p)
  }

  /** A process in this code can go on unless a lock it needs is taken or it has been switched off. */
  lemma NeverStuck(s: State, p: nat)
    requires Reachable(s) && p < |s.procs| && !s.procs[p].pc.Elsewhere? && !s.procs[p].pc.Off?
    requires s.procs[p].pc.Enter? ==> s.procs[p].lock.Free?
    requires s.procs[p].pc.Retake? ==> s.lk.Free?
    requires var pc := s.procs[p].pc; pc.Wake? && pc.i < |s.procs| && pc.i != p ==> s.procs[pc.i].lock.Free?
    ensures Enabled(s, Onward(s, p)) && Next(s, Onward(s, p)).procs[p].pc != s.procs[p].pc
  {
    hide Inv;
    ReachableInv(s);
    GetRight(s, p);
  }

  lemma GetRight(s: State, p: nat)
    requires Inv(s) && p < |s.procs|
    ensures WakeRight(s, p)
  {
    assert ProcRight(s, p);
  }
}
