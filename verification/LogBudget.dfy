/** The log's space reservation: file-system operations that run concurrently, each logging at
    most MAXOPBLOCKS distinct blocks, in any interleaving. */
module LogBudget {
  import opened Common
  import opened LogSpec

  /** The blocks in the in-memory log, and for each open operation the blocks it has logged. */
  datatype State = State(logged: set<nat>, ops: seq<set<nat>>)

  const Empty := State({}, [])

  datatype Step =
    | Begin                       // begin_op gets past its two tests
    | Write(op: nat, blockno: nat) // log_write gets past its two tests
    | End(op: nat)                // end_op; the last one commits

  /** The tests of begin_op and log_write, and the operations' own bound. */
  predicate Enabled(logSize: nat, s: State, step: Step) {
    match step
    case Begin => |s.logged| + (|s.ops| + 1) * MAXOPBLOCKS <= LOGSIZE
    case Write(op, bn) =>
      && op < |s.ops| && |s.ops[op] + {bn}| <= MAXOPBLOCKS
      && |s.logged| < LOGSIZE && |s.logged| < logSize - 1
    case End(op) => op < |s.ops|
  }

  function Next(logSize: nat, s: State, step: Step): State
    requires Enabled(logSize, s, step)
  {
    match step
    case Begin => s.(ops := s.ops + [{}])
    case Write(op, bn) => State(s.logged + {bn}, s.ops[op := s.ops[op] + {bn}])
    case End(op) =>
      var rest := s.ops[..op] + s.ops[op + 1..];
      State(if rest == [] then {} else s.logged, rest)
  }

  ghost predicate Run(logSize: nat, s: State, steps: seq<Step>, end: State)
    decreases |steps|
  {
    if steps == [] then s == end
    else Enabled(logSize, s, steps[0]) && Run(logSize, Next(logSize, s, steps[0]), steps[1..], end)
  }

  ghost predicate Reachable(logSize: nat, s: State) {
    exists steps :: Run(logSize, Empty, steps, s)
  }

  /** What the open operations have reserved and not yet used. */
  function Unused(ops: seq<set<nat>>): int {
    if ops == [] then 0 else Unused(ops[..|ops| - 1]) + MAXOPBLOCKS - |ops[|ops| - 1]|
  }

  ghost predicate WithinBudget(s: State) {
    && (forall i :: 0 <= i < |s.ops| ==> |s.ops[i]| <= MAXOPBLOCKS && s.ops[i] <= s.logged)
    && |s.logged| + Unused(s.ops) <= LOGSIZE
  }

  lemma {:induction false} UnusedAt(ops: seq<set<nat>>, i: nat, blocks: set<nat>)
    requires i < |ops|
    ensures Unused(ops[i := blocks]) == Unused(ops) + |ops[i]| - |blocks|
    ensures Unused(ops[..i] + ops[i + 1..]) == Unused(ops) - MAXOPBLOCKS + |ops[i]|
  {
    var last := |ops| - 1;
    if i == last {
      assert ops[i := blocks][..last] == ops[..last];
      assert ops[..i] + ops[i + 1..] == ops[..last];
    } else {
      UnusedAt(ops[..last], i, blocks);
      assert ops[i := blocks][..last] == ops[..last][i := blocks];
      var rest := ops[..i] + ops[i + 1..];
      assert rest[..|rest| - 1] == ops[..last][..i] + ops[..last][i + 1..];
    }
  }

  lemma {:induction false} UnusedNonneg(ops: seq<set<nat>>, i: nat)
    requires i < |ops| && forall j :: 0 <= j < |ops| ==> |ops[j]| <= MAXOPBLOCKS
    ensures 0 <= MAXOPBLOCKS - |ops[i]| <= Unused(ops)
  {
    var last := |ops| - 1;
    if last > 0 {
      UnusedNonneg(ops[..last], if i < last then i else 0);
    }
  }

  lemma BeginKept(s: State)
    requires WithinBudget(s) && |s.logged| + (|s.ops| + 1) * MAXOPBLOCKS <= LOGSIZE
    ensures WithinBudget(s.(ops := s.ops + [{}]))
  {
    hide Unused;
    ReservationsBound(s);
    UnusedMore(s.ops);
  }

  lemma UnusedMore(ops: seq<set<nat>>)
    ensures Unused(ops + [{}]) == Unused(ops) + MAXOPBLOCKS
  {
    assert (ops + [{}])[..|ops|] == ops;
  }

  lemma WriteKept(s: State, op: nat, bn: nat)
    requires WithinBudget(s) && op < |s.ops| && |s.ops[op] + {bn}| <= MAXOPBLOCKS
    ensures WithinBudget(State(s.logged + {bn}, s.ops[op := s.ops[op] + {bn}]))
  {
    hide Unused;
    UnusedAt(s.ops, op, s.ops[op] + {bn});
    OneMore(s.ops[op], bn);
    OneMore(s.logged, bn);
  }

  lemma EndKept(s: State, op: nat)
    requires WithinBudget(s) && op < |s.ops|
    ensures var rest := s.ops[..op] + s.ops[op + 1..]; WithinBudget(State(if rest == [] then {} else s.logged, rest))
  {
    UnusedAt(s.ops, op, {});
    assert Unused([]) == 0;
    hide Unused;
  }

  lemma BudgetStep(logSize: nat, s: State, step: Step)
    requires WithinBudget(s) && Enabled(logSize, s, step)
    ensures WithinBudget(Next(logSize, s, step))
  {
    hide WithinBudget;
    match step
    case Begin => BeginKept(s);
    case Write(op, bn) => WriteKept(s, op, bn);
    case End(op) => EndKept(s, op);
  }

  /** All reservations together are at most MAXOPBLOCKS per open operation. */
  lemma {:induction false} ReservationsBound(s: State)
    ensures Unused(s.ops) <= |s.ops| * MAXOPBLOCKS
    decreases |s.ops|
  {
    if s.ops != [] {
      ReservationsBound(s.(ops := s.ops[..|s.ops| - 1]));
    }
  }

  /** In every run of operations that keep to their bound, the blocks in the log plus what open
      operations may still log never exceed LOGSIZE. */
  lemma {:induction false} BudgetKept(logSize: nat, s: State, steps: seq<Step>, end: State)
    requires WithinBudget(s) && Run(logSize, s, steps, end)
    ensures WithinBudget(end)
    decreases |steps|
  {
    if steps != [] {
      BudgetStep(logSize, s, steps[0]);
      BudgetKept(logSize, Next(logSize, s, steps[0]), steps[1..], end);
    }
  }

  /** So an operation with something left to log always passes log_write's LOGSIZE test. */
  lemma ReservationHonoured(logSize: nat, end: State, op: nat)
    requires Reachable(logSize, end)
    requires op < |end.ops| && |end.ops[op]| < MAXOPBLOCKS
    ensures |end.logged| < LOGSIZE
  {
    var steps :| Run(logSize, Empty, steps, end);
    BudgetKept(logSize, Empty, steps, end);
    UnusedNonneg(end.ops, op);
  }

  // ---- log_write's other test, against log.size

  lemma {:induction false} RunJoin(logSize: nat, s: State, a: seq<Step>, mid: State, b: seq<Step>, end: State)
    requires Run(logSize, s, a, mid) && Run(logSize, mid, b, end)
    ensures Run(logSize, s, a + b, end)
    decreases |a|
  {
    if a == [] {
      assert a + b == b;
    } else {
      RunJoin(logSize, Next(logSize, s, a[0]), a[1..], mid, b, end);
      assert (a + b)[1..] == a[1..] + b;
    }
  }

  /** An operation logs n fresh blocks, the ones from lo on. */
  lemma {:induction false} LogMany(logSize: nat, s: State, op: nat, lo: nat, n: nat)
    returns (steps: seq<Step>, end: State)
    requires op < |s.ops| && s.ops[op] == {} && n <= MAXOPBLOCKS
    requires Below(s, lo) && |s.logged| + n <= LOGSIZE && (n > 0 ==> |s.logged| + n < logSize)
    ensures Run(logSize, s, steps, end) && Below(end, lo + n)
    ensures |end.logged| == |s.logged| + n
    ensures |end.ops| == |s.ops| && |end.ops[op]| == n && end.ops == s.ops[op := end.ops[op]]
  {
    if n == 0 {
      steps, end := [], s;
    } else {
      var before, mid := LogMany(logSize, s, op, lo, n - 1);
      var step := Write(op, lo + n - 1);
      assert lo + n - 1 !in mid.logged && lo + n - 1 !in mid.ops[op];
      end := Next(logSize, mid, step);
      assert [step][1..] == [];
      RunJoin(logSize, s, before, mid, [step], end);
      steps := before + [step];
    }
  }

  ghost predicate Below(s: State, bound: nat) {
    && (forall x :: x in s.logged ==> x < bound)
    && (forall i, x :: 0 <= i < |s.ops| && x in s.ops[i] ==> x < bound)
  }

  lemma BeginThree(logSize: nat)
    ensures Run(logSize, Empty, [Begin, Begin, Begin], State({}, [{}, {}, {}]))
  {
    var s1, s2, s3 := State({}, [{}]), State({}, [{}, {}]), State({}, [{}, {}, {}]);
    assert Next(logSize, Empty, Begin) == s1 && Next(logSize, s1, Begin) == s2 && Next(logSize, s2, Begin) == s3;
    assert [Begin, Begin, Begin][1..] == [Begin, Begin] && [Begin, Begin][1..] == [Begin] && [Begin][1..] == [];
    assert Run(logSize, s3, [], s3);
    assert Run(logSize, s2, [Begin], s3);
    assert Run(logSize, s1, [Begin, Begin], s3);
  }

  /** With a log of no more than LOGSIZE blocks, header included, three operations inside their
      bound reach a state in which one has a block left to log and log_write panics. */
  lemma SmallLogPanics(logSize: nat) returns (end: State)
    requires logSize <= LOGSIZE
    ensures Reachable(logSize, end)
    ensures |end.ops| == 3 && |end.ops[2]| < MAXOPBLOCKS
    ensures forall bn :: !Enabled(logSize, end, Write(2, bn))
  {
    hide Run, Below, Enabled, Next, Reachable;
    var room := if logSize == 0 then 0 else logSize - 1;
    var n0 := if room < MAXOPBLOCKS then room else MAXOPBLOCKS;
    var n1 := if room - n0 < MAXOPBLOCKS then room - n0 else MAXOPBLOCKS;
    end := ThreeLog(logSize, n0, n1, room - n0 - n1);
    FullPanics(logSize, end);
  }

  /** Three operations log so many blocks each. */
  lemma ThreeLog(logSize: nat, n0: nat, n1: nat, n2: nat) returns (end: State)
    requires n0 <= MAXOPBLOCKS && n1 <= MAXOPBLOCKS && n2 <= MAXOPBLOCKS
    requires n0 + n1 + n2 <= LOGSIZE && (n0 + n1 + n2 > 0 ==> n0 + n1 + n2 < logSize)
    ensures Reachable(logSize, end)
    ensures |end.ops| == 3 && |end.ops[2]| == n2 && |end.logged| == n0 + n1 + n2
  {
    hide Run, Below, Enabled, Next, Reachable;
    var begun := State({}, [{}, {}, {}]);
    BeginThree(logSize);
    NothingBelow(begun);
    var w0, s0 := LogMany(logSize, begun, 0, 0, n0);
    RunJoin(logSize, Empty, [Begin, Begin, Begin], begun, w0, s0);
    var w1, s1 := LogMany(logSize, s0, 1, n0, n1);
    RunJoin(logSize, Empty, [Begin, Begin, Begin] + w0, s0, w1, s1);
    var w2, s2 := LogMany(logSize, s1, 2, n0 + n1, n2);
    RunJoin(logSize, Empty, [Begin, Begin, Begin] + w0 + w1, s1, w2, s2);
    end := s2;
    RunReaches(logSize, [Begin, Begin, Begin] + w0 + w1 + w2, end);
  }

  lemma NothingBelow(s: State)
    requires s == State({}, [{}, {}, {}])
    ensures Below(s, 0)
  {
  }

  lemma RunReaches(logSize: nat, steps: seq<Step>, end: State)
    requires Run(logSize, Empty, steps, end)
    ensures Reachable(logSize, end)
  {
  }

  lemma FullPanics(logSize: nat, s: State)
    requires |s.logged| >= LOGSIZE || |s.logged| + 1 >= logSize
    ensures forall bn :: !Enabled(logSize, s, Write(2, bn))
  {
  }

  /** Every open operation that has not used up its reservation can log any block. */
  ghost predicate Honoured(logSize: nat, s: State) {
    forall op: nat, bn: nat :: op < |s.ops| && |s.ops[op]| < MAXOPBLOCKS ==> Enabled(logSize, s, Write(op, bn))
  }

  /** Exactly when reservations are always honoured: the log area must be a block longer than
      LOGSIZE, to hold the header too. mkfs makes it LOGSIZE blocks long. */
  lemma LogSizeNeeded(logSize: nat)
    ensures (forall s :: Reachable(logSize, s) ==> Honoured(logSize, s)) <==> logSize > LOGSIZE
  {
    if logSize > LOGSIZE {
      forall end | Reachable(logSize, end)
        ensures Honoured(logSize, end)
      {
        forall op: nat, bn: nat | op < |end.ops| && |end.ops[op]| < MAXOPBLOCKS
          ensures Enabled(logSize, end, Write(op, bn))
        {
          ReservationHonoured(logSize, end, op);
        }
      }
    } else {
      var end := SmallLogPanics(logSize);
      assert !Enabled(logSize, end, Write(2, 0));
      assert !Honoured(logSize, end);
    }
  }
}
