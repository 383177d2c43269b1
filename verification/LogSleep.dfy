/** begin_op and end_op of kernel/log.c with their sleeps and wakeups: any number of processes enter and leave
    operations. Each step is a critical section under log.lock, or the clearing of the header inside commit,
    which runs without it. */
module LogSleep {
  import opened Common
  import opened LogSpec

  /** Where a process is; `since` is how often &log had been woken up when it went to sleep, -1 if it was
      killed since. */
  datatype Pc =
    | Outside
    | Asleep(since: int)  // in begin_op, in sleep
    | Inside              // in an operation
    | Committing          // in end_op, in commit
    | Cleared             // in end_op, after lh.n = 0 in commit

  datatype State = State(procs: seq<Pc>, n: nat, outstanding: nat, committing: bool, wakes: nat)

  datatype Step =
    | Begin(p: nat)               // begin_op, from the top
    | Retry(p: nat)               // begin_op, after sleep returns
    | LogWrite(p: nat, more: bool) // log_write of a block the log does not have yet, or of one it has
    | End(p: nat)                 // end_op up to its first release
    | Clear(p: nat)               // lh.n = 0 in commit
    | Done(p: nat)                // end_op after commit
    | Kill(p: nat)

  /** begin_op's two reasons to sleep. */
  predicate MustWait(s: State) {
    s.committing || s.n + (s.outstanding + 1) * MAXOPBLOCKS > LOGSIZE
  }

  predicate Enabled(s: State, step: Step) {
    && step.p < |s.procs|
    && var pc := s.procs[step.p];
       match step
       case Begin(_) => pc.Outside?
       case Retry(_) => pc.Asleep? && pc.since < s.wakes
       case LogWrite(_, more) => pc.Inside? && (more ==> s.n < LOGSIZE)
       case End(_) => pc.Inside?
       case Clear(_) => pc.Committing?
       case Done(_) => pc.Cleared?
       case Kill(_) => true
  }

  function Goto(s: State, p: nat, pc: Pc): State
    requires p < |s.procs|
  {
    s.(procs := s.procs[p := pc])
  }

  function Enter(s: State, p: nat): State
    requires p < |s.procs|
  {
    if MustWait(s) then Goto(s, p, Asleep(s.wakes)) else Goto(s, p, Inside).(outstanding := s.outstanding + 1)
  }

  function Next(s: State, step: Step): (s': State)
    requires Enabled(s, step)
    ensures |s'.procs| == |s.procs|
  {
    match step
    case Begin(p) => Enter(s, p)
    case Retry(p) => Enter(s, p)
    case LogWrite(p, more) => s.(n := if more then s.n + 1 else s.n)
    case End(p) =>
      var left := if s.outstanding > 0 then s.outstanding - 1 else 0;
      if left == 0 then Goto(s, p, Committing).(outstanding := left, committing := true)
      else Goto(s, p, Outside).(outstanding := left, wakes := s.wakes + 1)
    case Clear(p) => Goto(s, p, Cleared).(n := 0)
    case Done(p) => Goto(s, p, Outside).(committing := false, wakes := s.wakes + 1)
    case Kill(p) => if s.procs[p].Asleep? then Goto(s, p, Asleep(-1)) else s
  }

  predicate Start(s: State) {
    s.n == 0 && s.outstanding == 0 && !s.committing && s.wakes == 0
    && forall p :: 0 <= p < |s.procs| ==> s.procs[p].Outside?
  }

  // ---- the invariant

  predicate Committer(pc: Pc) {
    pc.Committing? || pc.Cleared?
  }

  ghost function Insiders(s: State): set<int> {
    set p | 0 <= p < |s.procs| && s.procs[p].Inside?
  }

  /** Operations are counted, and commit runs only when there are none. */
  ghost predicate Counted(s: State) {
    && s.outstanding == |Insiders(s)|
    && (s.committing ==> s.outstanding == 0)
    && (s.committing ==> exists p :: 0 <= p < |s.procs| && Committer(s.procs[p]))
    && (!s.committing && s.outstanding == 0 ==> s.n == 0)
  }

  predicate ProcOk(s: State, p: int)
    requires 0 <= p < |s.procs|
  {
    var pc := s.procs[p];
    && (Committer(pc) ==> s.committing)
    && (pc.Cleared? ==> s.n == 0)
    && (pc.Asleep? ==> pc.since <= s.wakes && (pc.since == s.wakes ==> MustWait(s)))
  }

  predicate OneCommitter(s: State, p: int, q: int)
    requires 0 <= p < |s.procs| && 0 <= q < |s.procs|
  {
    Committer(s.procs[p]) && Committer(s.procs[q]) ==> p == q
  }

  ghost predicate Inv(s: State) {
    && Counted(s)
    && (forall p :: 0 <= p < |s.procs| ==> ProcOk(s, p))
    && (forall p, q :: 0 <= p < |s.procs| && 0 <= q < |s.procs| ==> OneCommitter(s, p, q))
  }

  lemma InsidersAfter(s: State, s': State, p: nat)
    requires p < |s.procs| == |s'.procs| && s'.procs == s.procs[p := s'.procs[p]]
    ensures Insiders(s') == if s'.procs[p].Inside? then Insiders(s) + {p as int} else Insiders(s) - {p as int}
    ensures |Insiders(s')| + (if s.procs[p].Inside? then 1 else 0)
         == |Insiders(s)| + (if s'.procs[p].Inside? then 1 else 0)
  {
    hide Insiders;
    var x: int := p;
    InsidersSet(s, s', p);
    IsInsider(s, p);
    OneMore(Insiders(s) - {x}, x);
    if s.procs[p].Inside? {
      assert Insiders(s) - {x} + {x} == Insiders(s);
      assert Insiders(s) + {x} == Insiders(s);
    } else {
      assert Insiders(s) - {x} == Insiders(s);
    }
  }

  lemma IsInsider(s: State, p: nat)
    requires p < |s.procs|
    ensures (p as int) in Insiders(s) <==> s.procs[p].Inside?
  {
  }

  lemma InsidersSet(s: State, s': State, p: nat)
    requires p < |s.procs| == |s'.procs| && s'.procs == s.procs[p := s'.procs[p]]
    ensures Insiders(s') == if s'.procs[p].Inside? then Insiders(s) + {p as int} else Insiders(s) - {p as int}
  {
    var now := if s'.procs[p].Inside? then Insiders(s) + {p as int} else Insiders(s) - {p as int};
    assert Insiders(s') == now;
  }

  lemma OnlyThat(s: State, step: Step)
    requires Enabled(s, step)
    ensures var s' := Next(s, step); s'.procs == s.procs[step.p := s'.procs[step.p]]
  {
  }

  lemma InsideCounts(s: State, p: nat)
    requires Counted(s) && p < |s.procs| && s.procs[p].Inside?
    ensures s.outstanding >= 1 && !s.committing
  {
    assert (p as int) in Insiders(s);
    SubsetSize({p as int}, Insiders(s));
  }

  lemma CountedStep(s: State, step: Step)
    requires Inv(s) && Enabled(s, step)
    ensures Counted(Next(s, step))
  {
    hide Insiders;
    var s', p := Next(s, step), step.p;
    assert ProcOk(s, p);
    OnlyThat(s, step);
    InsidersAfter(s, s', p);
    if s.procs[p].Inside? {
      InsideCounts(s, p);
    }
    if s'.committing {
      if Committer(s'.procs[p]) {
        assert 0 <= p < |s'.procs|;
      } else {
        var q :| 0 <= q < |s.procs| && Committer(s.procs[q]);
        assert OneCommitter(s, p, q);
        assert Committer(s'.procs[q]);
      }
    }
  }

  lemma ProcStep(s: State, step: Step, q: nat)
    requires Counted(s) && Enabled(s, step) && q < |s.procs| && ProcOk(s, q) && ProcOk(s, step.p)
    requires OneCommitter(s, step.p, q) && (s.procs[step.p].Inside? ==> s.outstanding >= 1 && !s.committing)
    ensures ProcOk(Next(s, step), q)
  {
    hide Counted;
  }

  lemma PairStep(s: State, step: Step, q: nat, r: nat)
    requires Enabled(s, step) && q < |s.procs| && r < |s.procs| && ProcOk(s, q) && ProcOk(s, r)
    requires OneCommitter(s, q, r) && (s.procs[step.p].Inside? ==> !s.committing)
    ensures OneCommitter(Next(s, step), q, r)
  {
  }

  lemma InvStep(s: State, step: Step)
    requires Inv(s) && Enabled(s, step)
    ensures Inv(Next(s, step))
  {
    var s', p := Next(s, step), step.p;
    CountedStep(s, step);
    assert ProcOk(s, p);
    if s.procs[p].Inside? {
      InsideCounts(s, p);
    }
    hide Next, Enabled, Counted, ProcOk, OneCommitter;
    forall q | 0 <= q < |s'.procs|
      ensures ProcOk(s', q)
    {
      ProcStep(s, step, q);
    }
    forall q, r | 0 <= q < |s'.procs| && 0 <= r < |s'.procs|
      ensures OneCommitter(s', q, r)
    {
      PairStep(s, step, q, r);
    }
  }

  // ---- whole runs

  ghost predicate Run(s: State, steps: seq<Step>, end: State)
    decreases |steps|
  {
    if steps == [] then s == end else Enabled(s, steps[0]) && Run(Next(s, steps[0]), steps[1..], end)
  }

  lemma {:induction false} InvRun(s: State, steps: seq<Step>, end: State)
    requires Inv(s) && Run(s, steps, end)
    ensures Inv(end)
    decreases |steps|
  {
    hide Inv, Next, Enabled;
    if steps != [] {
      InvStep(s, steps[0]);
      InvRun(Next(s, steps[0]), steps[1..], end);
    }
  }

  ghost predicate Reachable(s: State) {
    exists start, steps :: Start(start) && Run(start, steps, s)
  }

  lemma ReachableInv(s: State)
    requires Reachable(s)
    ensures Inv(s)
  {
    var start, steps :| Start(start) && Run(start, steps, s);
    assert Insiders(start) == {};
    InvRun(start, steps, s);
  }

  /** A process that nobody has woken up sleeps in begin_op only while a commit is under way or its
      reservation would not fit, and then somebody is in an operation or in commit who will wake it up. */
  lemma SleepsForCause(s: State, p: nat)
    requires Reachable(s) && p < |s.procs| && s.procs[p] == Asleep(s.wakes)
    ensures s.committing || s.n + (s.outstanding + 1) * MAXOPBLOCKS > LOGSIZE
    ensures exists q :: 0 <= q < |s.procs| && (s.procs[q].Inside? || Committer(s.procs[q]))
  {
    ReachableInv(s);
    assert ProcOk(s, p);
    if !s.committing {
      var q :| q in Insiders(s);
      assert s.procs[q].Inside?;
    }
  }

  /** begin_op admits a process exactly if no commit runs and its reservation fits beside those of the operations
      inside, and counts it; otherwise it sleeps. */
  lemma EntersWithRoom(s: State, p: nat, step: Step)
    requires Reachable(s) && Enabled(s, step) && (step == Begin(p) || step == Retry(p))
    ensures var s' := Next(s, step);
            && (s'.procs[p].Inside? <==> !s.committing && s.n + (|Insiders(s)| + 1) * MAXOPBLOCKS <= LOGSIZE)
            && (s'.procs[p].Inside? || s'.procs[p] == Asleep(s'.wakes))
            && s'.outstanding == |Insiders(s')|
  {
    ReachableInv(s);
    InvStep(s, step);
  }

  /** end_op never meets a commit in progress: its panic is not reached. */
  lemma NoCommitInside(s: State, p: nat)
    requires Reachable(s) && Enabled(s, End(p))
    ensures !s.committing && s.outstanding >= 1
  {
    ReachableInv(s);
    InsideCounts(s, p);
  }
}
