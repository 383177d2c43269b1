/** Which call of pipewrite or piperead moved which byte of a pipe. The steps are those of Pipe; the history
    kept beside its state numbers the calls and records for each what it was asked, what the user's buffer got,
    and what it returned. The history has no say in which steps are possible (EveryRun). */
module PipeCalls {
  import opened Blocks
  import opened Common
  import opened Pipe

  const RUNNING := -2

  /** A call of pipewrite, and a call of piperead with the bytes copied to the user. */
  datatype WriteCall = WriteCall(src: seq<Byte>, ret: int)
  datatype ReadCall = ReadCall(n: nat, user: seq<Byte>, ret: int)

  /** `call` is the number of each process's latest call, `putBy` and `gotBy` the calls that moved the bytes of
      `put` and `got`. */
  datatype History = History(s: State, call: seq<nat>, wcalls: seq<WriteCall>, rcalls: seq<ReadCall>,
                             putBy: seq<nat>, gotBy: seq<nat>)

  /** The bytes moved by call c. */
  function Of(bytes: seq<Byte>, who: seq<nat>, c: nat): seq<Byte>
    requires |bytes| == |who|
  {
    if bytes == [] then []
    else Of(bytes[..|bytes| - 1], who[..|who| - 1], c) + if who[|who| - 1] == c then [bytes[|bytes| - 1]] else []
  }

  lemma OfMore(bytes: seq<Byte>, who: seq<nat>, b: Byte, d: nat, c: nat)
    requires |bytes| == |who|
    ensures Of(bytes + [b], who + [d], c) == Of(bytes, who, c) + if d == c then [b] else []
  {
    assert (bytes + [b])[..|bytes|] == bytes && (who + [d])[..|who|] == who;
  }

  lemma {:induction false} OfNone(bytes: seq<Byte>, who: seq<nat>, c: nat)
    requires |bytes| == |who| && forall k :: 0 <= k < |who| ==> who[k] < c
    ensures Of(bytes, who, c) == []
  {
    if bytes != [] {
      OfNone(bytes[..|bytes| - 1], who[..|who| - 1], c);
    }
  }

  lemma {:induction false} OfAll(bytes: seq<Byte>, who: seq<nat>, c: nat)
    requires |bytes| == |who| && forall k :: 0 <= k < |who| ==> who[k] == c
    ensures Of(bytes, who, c) == bytes
  {
    if bytes != [] {
      OfAll(bytes[..|bytes| - 1], who[..|who| - 1], c);
    }
  }

  // ---- what a step means for the calls

  datatype Event =
    | Nothing
    | Asked(src: seq<Byte>)         // pipewrite begins
    | Sent(b: Byte)                 // a byte goes in
    | Wrote(ret: int)               // pipewrite returns
    | Wants(n: nat)                 // piperead begins
    | Took(b: Byte, ok: bool)       // a byte comes out, and copyout puts it into the user's buffer or fails
    | Gave(ret: int)                // piperead returns

  function EventOf(s: State, step: Step): Event
    requires Enabled(s, step)
  {
    var pc := s.procs[step.p].pc;
    match step
    case Fd(_, _) => Nothing
    case Io(_, Write(src)) => Asked(src)
    case Io(_, BumpWrite) => Sent(pc.src[pc.i])
    case Io(_, WriteDone) => Wrote(pc.i)
    case Io(_, WriteQuit) => Wrote(-1)
    case Io(_, Read(n)) => Wants(n)
    case Io(_, BumpRead(ok)) => Took(pc.b, ok)
    case Io(_, ReadEnough) => Gave(pc.i)
    case Io(_, ReadQuit) => Gave(-1)
    case Io(_, _) => Nothing
  }

  function Record(h: History, p: nat, e: Event, s': State): History
    requires p < |h.call|
  {
    var c := h.call[p];
    match e
    case Nothing => h.(s := s')
    case Asked(src) => h.(s := s', call := h.call[p := |h.wcalls|], wcalls := h.wcalls + [WriteCall(src, RUNNING)])
    case Sent(_) => h.(s := s', putBy := h.putBy + [c])
    case Wrote(ret) => h.(s := s', wcalls := Returned(h.wcalls, c, ret))
    case Wants(n) => h.(s := s', call := h.call[p := |h.rcalls|], rcalls := h.rcalls + [ReadCall(n, [], RUNNING)])
    case Took(b, ok) => h.(s := s', gotBy := h.gotBy + [c], rcalls := Delivered(h.rcalls, c, b, ok))
    case Gave(ret) => h.(s := s', rcalls := Answered(h.rcalls, c, ret))
  }

  function Returned(calls: seq<WriteCall>, c: nat, ret: int): seq<WriteCall> {
    if c < |calls| then calls[c := calls[c].(ret := ret)] else calls
  }

  function Answered(calls: seq<ReadCall>, c: nat, ret: int): seq<ReadCall> {
    if c < |calls| then calls[c := calls[c].(ret := ret)] else calls
  }

  /** A failing copyout ends the call with the bytes delivered so far. */
  function Delivered(calls: seq<ReadCall>, c: nat, b: Byte, ok: bool): seq<ReadCall> {
    if c >= |calls| then calls
    else if ok then calls[c := calls[c].(user := calls[c].user + [b])]
    else calls[c := calls[c].(ret := |calls[c].user|)]
  }

  function HNext(h: History, step: Step): History
    requires Enabled(h.s, step) && step.p < |h.call|
  {
    Record(h, step.p, EventOf(h.s, step), Next(h.s, step))
  }

  // ---- where a process is in its call

  datatype Place = Out | Writing(src: seq<Byte>, i: nat) | Reading(n: nat, i: nat)

  function PlaceOf(pc: Pc): Place {
    if InWrite(pc) then Writing(pc.src, pc.i)
    else if pc.RWait? || pc.RSleep? then Reading(pc.n, 0)
    else if InRead(pc) then Reading(pc.n, pc.i)
    else Out
  }

  /** How an event moves the process. */
  predicate Moves(was: Place, e: Event, now: Place) {
    match e
    case Nothing => now == was
    case Asked(src) => was.Out? && now == Writing(src, 0)
    case Sent(b) => was.Writing? && was.i < |was.src| && b == was.src[was.i] && now == Writing(was.src, was.i + 1)
    case Wrote(ret) => was.Writing? && now.Out? && (ret == was.i || ret == -1)
    case Wants(n) => was.Out? && now == Reading(n, 0)
    case Took(_, ok) => was.Reading? && was.i < was.n && now == if ok then Reading(was.n, was.i + 1) else Out
    case Gave(ret) => was.Reading? && now.Out? && (ret == was.i || (ret == -1 && was.i == 0))
  }

  /** A reader about to take a byte has not got all it was asked for. */
  predicate Short(pc: Pc) {
    pc.RTake? || pc.RBump? ==> pc.i < pc.n
  }

  lemma ShortIo(s: State, p: nat, op: IoOp)
    requires IoEnabled(s, p, op) && Short(s.procs[p].pc)
    ensures p < |IoNext(s, p, op).procs| && Short(IoNext(s, p, op).procs[p].pc)
  {
    hide Full, Woken;
  }

  lemma MovesIo(s: State, p: nat, op: IoOp)
    requires IoEnabled(s, p, op) && Short(s.procs[p].pc)
    ensures var s', e := IoNext(s, p, op), EventOf(s, Io(p, op));
            p < |s'.procs| && Moves(PlaceOf(s.procs[p].pc), e, PlaceOf(s'.procs[p].pc))
  {
    hide IoEnabled, IoNext, EventOf, Moves, PlaceOf;
    if Reads(op) {
      MovesRead(s, p, op);
    } else {
      MovesWrite(s, p, op);
    }
  }

  lemma MovesRead(s: State, p: nat, op: IoOp)
    requires Reads(op) && IoEnabled(s, p, op) && Short(s.procs[p].pc)
    ensures var s', e := IoNext(s, p, op), EventOf(s, Io(p, op));
            p < |s'.procs| && Moves(PlaceOf(s.procs[p].pc), e, PlaceOf(s'.procs[p].pc))
  {
    hide Full, Woken;
  }

  lemma MovesWrite(s: State, p: nat, op: IoOp)
    requires !Reads(op) && IoEnabled(s, p, op)
    ensures var s', e := IoNext(s, p, op), EventOf(s, Io(p, op));
            p < |s'.procs| && Moves(PlaceOf(s.procs[p].pc), e, PlaceOf(s'.procs[p].pc))
  {
    hide Full, Woken;
  }

  lemma OthersIo(s: State, p: nat, op: IoOp, q: nat)
    requires IoEnabled(s, p, op) && q < |s.procs| && q != p
    ensures var s' := IoNext(s, p, op); |s'.procs| == |s.procs| && s'.procs[q].pc == s.procs[q].pc
  {
    hide Full, Woken;
  }

  lemma BytesIo(s: State, p: nat, op: IoOp)
    requires IoEnabled(s, p, op)
    ensures var s', e := IoNext(s, p, op), EventOf(s, Io(p, op));
            && s'.put == (if e.Sent? then s.put + [e.b] else s.put)
            && s'.got == (if e.Took? then s.got + [e.b] else s.got)
  {
    hide Full, Woken;
  }

  lemma StillFd(s: State, p: nat, op: FdOp, q: nat)
    requires FdEnabled(s, p, op) && q < |s.procs|
    ensures var s' := FdNext(s, p, op);
            && |s'.procs| == |s.procs| && PlaceOf(s'.procs[q].pc) == PlaceOf(s.procs[q].pc)
            && (Short(s.procs[q].pc) ==> Short(s'.procs[q].pc)) && s'.put == s.put && s'.got == s.got
  {
    hide LastRef;
  }

  /** What a step does to the places of all processes and to the bytes that went in and came out. */
  ghost predicate Happens(s: State, p: nat, e: Event, s': State) {
    && p < |s.procs| == |s'.procs|
    && Moves(PlaceOf(s.procs[p].pc), e, PlaceOf(s'.procs[p].pc))
    && (forall q :: 0 <= q < |s.procs| && q != p ==> PlaceOf(s'.procs[q].pc) == PlaceOf(s.procs[q].pc))
    && s'.put == (if e.Sent? then s.put + [e.b] else s.put)
    && s'.got == (if e.Took? then s.got + [e.b] else s.got)
  }

  ghost predicate AllShort(s: State) {
    forall q :: 0 <= q < |s.procs| ==> Short(s.procs[q].pc)
  }

  lemma StepHappens(s: State, step: Step)
    requires Enabled(s, step) && AllShort(s)
    ensures Happens(s, step.p, EventOf(s, step), Next(s, step)) && AllShort(Next(s, step))
  {
    hide IoEnabled, FdEnabled, IoNext, FdNext, Moves, PlaceOf, Short;
    var s' := Next(s, step);
    SameSize(s, step);
    match step
    case Io(p, op) =>
      MovesIo(s, p, op);
      ShortIo(s, p, op);
      BytesIo(s, p, op);
      forall q | 0 <= q < |s.procs| && q != p
        ensures s'.procs[q].pc == s.procs[q].pc
      {
        OthersIo(s, p, op, q);
      }
    case Fd(p, op) =>
      forall q | 0 <= q < |s.procs|
        ensures PlaceOf(s'.procs[q].pc) == PlaceOf(s.procs[q].pc) && Short(s'.procs[q].pc)
      {
        StillFd(s, p, op, q);
      }
      StillFd(s, p, op, p);
      SamePlace(PlaceOf(s.procs[p].pc));
      NoEvent(s, p, op);
  }

  lemma SamePlace(at: Place)
    ensures Moves(at, Nothing, at)
  {
  }

  lemma NoEvent(s: State, p: nat, op: FdOp)
    requires FdEnabled(s, p, op)
    ensures EventOf(s, Fd(p, op)) == Nothing
  {
  }

  // ---- the invariant

  /** Call c of pipewrite has put in, in order, the first bytes it was asked to write. */
  ghost predicate WriteOk(h: History, c: int)
    requires |h.s.put| == |h.putBy| && 0 <= c < |h.wcalls|
  {
    var did := Of(h.s.put, h.putBy, c);
    did <= h.wcalls[c].src && (h.wcalls[c].ret >= 0 ==> |did| == h.wcalls[c].ret)
  }

  /** Call c of piperead has taken out what the user's buffer got, and one byte more if copyout failed. */
  ghost predicate ReadOk(h: History, c: int)
    requires |h.s.got| == |h.gotBy| && 0 <= c < |h.rcalls|
  {
    var did, call := Of(h.s.got, h.gotBy, c), h.rcalls[c];
    && call.user <= did && |did| <= |call.user| + 1 && |call.user| <= call.n
    && (call.ret == RUNNING || call.ret == -1 ==> did == call.user)
    && (call.ret == -1 ==> did == [])
    && (call.ret >= 0 ==> call.ret == |call.user|)
  }

  /** A process in a call is as far as the call has got. */
  ghost predicate ProcOk(h: History, p: int)
    requires 0 <= p < |h.s.procs| == |h.call| && |h.s.put| == |h.putBy|
  {
    var c := h.call[p];
    match PlaceOf(h.s.procs[p].pc)
    case Out => true
    case Writing(src, i) => c < |h.wcalls| && h.wcalls[c] == WriteCall(src, RUNNING) && |Of(h.s.put, h.putBy, c)| == i
    case Reading(n, i) => c < |h.rcalls| && h.rcalls[c].n == n && h.rcalls[c].ret == RUNNING && |h.rcalls[c].user| == i
  }

  /** No two processes are in one call. */
  predicate Apart(h: History, p: int, q: int)
    requires 0 <= p < |h.s.procs| == |h.call| && 0 <= q < |h.s.procs|
  {
    var a, b := PlaceOf(h.s.procs[p].pc), PlaceOf(h.s.procs[q].pc);
    p != q && ((a.Writing? && b.Writing?) || (a.Reading? && b.Reading?)) ==> h.call[p] != h.call[q]
  }

  predicate Sizes(h: History) {
    && |h.s.procs| == |h.call| && |h.s.put| == |h.putBy| && |h.s.got| == |h.gotBy|
    && (forall k :: 0 <= k < |h.putBy| ==> h.putBy[k] < |h.wcalls|)
    && (forall k :: 0 <= k < |h.gotBy| ==> h.gotBy[k] < |h.rcalls|)
  }

  ghost predicate Inv(h: History) {
    && Sizes(h)
    && (forall c :: 0 <= c < |h.wcalls| ==> WriteOk(h, c)) && (forall c :: 0 <= c < |h.rcalls| ==> ReadOk(h, c))
    && (forall p :: 0 <= p < |h.call| ==> ProcOk(h, p))
    && (forall p, q :: 0 <= p < |h.call| && 0 <= q < |h.call| ==> Apart(h, p, q))
  }

  lemma SizesStep(h: History, p: nat, e: Event, s': State)
    requires Sizes(h) && Happens(h.s, p, e, s') && ProcOk(h, p)
    ensures Sizes(Record(h, p, e, s'))
  {
    hide Of;
  }

  lemma WriteStep(h: History, p: nat, e: Event, s': State, c: nat)
    requires Sizes(h) && Happens(h.s, p, e, s') && ProcOk(h, p) && Sizes(Record(h, p, e, s'))
    requires c < |Record(h, p, e, s').wcalls| && (c < |h.wcalls| ==> WriteOk(h, c))
    ensures WriteOk(Record(h, p, e, s'), c)
  {
    hide Of;
    if e.Sent? {
      OfMore(h.s.put, h.putBy, e.b, h.call[p], c);
    } else if c == |h.wcalls| {
      OfNone(h.s.put, h.putBy, c);
    }
  }

  lemma ReadStep(h: History, p: nat, e: Event, s': State, c: nat)
    requires Sizes(h) && Happens(h.s, p, e, s') && ProcOk(h, p) && Sizes(Record(h, p, e, s'))
    requires c < |Record(h, p, e, s').rcalls| && (c < |h.rcalls| ==> ReadOk(h, c))
    ensures ReadOk(Record(h, p, e, s'), c)
  {
    hide Of;
    if e.Took? {
      OfMore(h.s.got, h.gotBy, e.b, h.call[p], c);
    } else if c == |h.rcalls| {
      OfNone(h.s.got, h.gotBy, c);
    }
  }

  lemma ProcStep(h: History, p: nat, e: Event, s': State, q: nat)
    requires Sizes(h) && Happens(h.s, p, e, s') && ProcOk(h, p) && Sizes(Record(h, p, e, s'))
    requires q < |h.call| && ProcOk(h, q) && Apart(h, p, q)
    ensures ProcOk(Record(h, p, e, s'), q)
  {
    hide Of;
    if e.Sent? {
      OfMore(h.s.put, h.putBy, e.b, h.call[p], h.call[q]);
    } else if e.Asked? {
      OfNone(h.s.put, h.putBy, |h.wcalls|);
    }
  }

  lemma ApartStep(h: History, p: nat, e: Event, s': State, q: nat, r: nat)
    requires Sizes(h) && Happens(h.s, p, e, s') && ProcOk(h, p) && Sizes(Record(h, p, e, s'))
    requires q < |h.call| && r < |h.call| && ProcOk(h, q) && ProcOk(h, r)
    requires Apart(h, q, r) && Apart(h, p, q) && Apart(h, p, r)
    ensures Apart(Record(h, p, e, s'), q, r)
  {
    hide Of;
  }

  lemma InvStep(h: History, p: nat, e: Event, s': State)
    requires Inv(h) && Happens(h.s, p, e, s')
    ensures Inv(Record(h, p, e, s')) && |Record(h, p, e, s').call| == |h.call|
  {
    hide Happens, Sizes, ProcOk, WriteOk, ReadOk, Apart, Record;
    InvParts(h, p, e, s');
    var h' := Record(h, p, e, s');
    SizesStep(h, p, e, s');
    Parallel(h');
    forall c | 0 <= c < |h'.wcalls|
      ensures WriteOk(h', c)
    {
      WriteStep(h, p, e, s', c);
    }
    forall c | 0 <= c < |h'.rcalls|
      ensures ReadOk(h', c)
    {
      ReadStep(h, p, e, s', c);
    }
    forall q | 0 <= q < |h'.call|
      ensures ProcOk(h', q)
    {
      ProcStep(h, p, e, s', q);
    }
    forall q, r | 0 <= q < |h'.call| && 0 <= r < |h'.call|
      ensures Apart(h', q, r)
    {
      ApartStep(h, p, e, s', q, r);
    }
  }

  lemma Parallel(h: History)
    requires Sizes(h)
    ensures |h.s.put| == |h.putBy| && |h.s.got| == |h.gotBy|
  {
  }

  lemma InvParts(h: History, p: nat, e: Event, s': State)
    requires Sizes(h) && Happens(h.s, p, e, s')
    ensures p < |h.call| == |h.s.procs| == |Record(h, p, e, s').s.procs| == |Record(h, p, e, s').call|
    ensures |h.s.put| == |h.putBy| && |h.s.got| == |h.gotBy|
  {
  }

  // ---- whole runs

  predicate Begun(h: History) {
    && Start(h.s) && h.call == seq(|h.s.procs|, _ => 0) && h.wcalls == [] && h.rcalls == [] && h.putBy == h.gotBy == []
  }

  ghost predicate HRun(h: History, steps: seq<Step>, end: History)
    decreases |steps|
  {
    if steps == [] then h == end
    else Enabled(h.s, steps[0]) && steps[0].p < |h.call| && HRun(HNext(h, steps[0]), steps[1..], end)
  }

  ghost predicate Recorded(h: History) {
    exists start, steps :: Begun(start) && HRun(start, steps, h)
  }

  lemma NextInv(h: History, step: Step)
    requires Inv(h) && AllShort(h.s) && Enabled(h.s, step)
    ensures step.p < |h.call| && HNext(h, step).s == Next(h.s, step) && |HNext(h, step).call| == |h.call|
    ensures Inv(HNext(h, step)) && AllShort(HNext(h, step).s)
  {
    hide Inv, AllShort, Enabled, Next, Happens, EventOf;
    StepHappens(h.s, step);
    InRange(h, step);
    InvStep(h, step.p, EventOf(h.s, step), Next(h.s, step));
  }

  lemma InRange(h: History, step: Step)
    requires Inv(h) && Enabled(h.s, step)
    ensures step.p < |h.call|
  {
    SameSize(h.s, step);
  }

  lemma {:induction false} InvRun(h: History, steps: seq<Step>, end: History)
    requires Inv(h) && AllShort(h.s) && HRun(h, steps, end)
    ensures Inv(end) && AllShort(end.s) && Run(h.s, steps, end.s)
    decreases |steps|
  {
    hide Inv, AllShort, Enabled, Next, HNext;
    if steps != [] {
      NextInv(h, steps[0]);
      InvRun(HNext(h, steps[0]), steps[1..], end);
    }
  }

  lemma BegunInv(h: History)
    requires Begun(h)
    ensures Inv(h) && AllShort(h.s)
  {
  }

  lemma RecordedInv(h: History)
    requires Recorded(h)
    ensures Inv(h) && Reachable(h.s)
  {
    hide Inv, Begun, AllShort;
    var start, steps :| Begun(start) && HRun(start, steps, h);
    BegunInv(start);
    InvRun(start, steps, h);
    Starts(start);
  }

  lemma Starts(h: History)
    requires Begun(h)
    ensures Start(h.s)
  {
  }

  lemma {:induction false} Follow(h: History, steps: seq<Step>, end: State) returns (last: History)
    requires Inv(h) && AllShort(h.s) && Run(h.s, steps, end)
    ensures HRun(h, steps, last) && last.s == end
    decreases |steps|
  {
    hide Inv, AllShort, Enabled, Next, HNext;
    if steps == [] {
      last := h;
    } else {
      NextInv(h, steps[0]);
      last := Follow(HNext(h, steps[0]), steps[1..], end);
    }
  }

  /** Every run of the pipe has its history. */
  lemma EveryRun(s: State)
    requires Reachable(s)
    ensures exists h :: Recorded(h) && h.s == s
  {
    hide Inv, AllShort, HRun;
    var start, steps :| Start(start) && Run(start, steps, s);
    var h := History(start, seq(|start.procs|, _ => 0), [], [], [], []);
    BegunInv(h);
    var last := Follow(h, steps, s);
    assert Recorded(last);
  }

  /** In every interleaving, what a call of pipewrite has put in is, in order, the beginning of what it was asked
      to write: as many bytes as it returned, or as the running call has counted. */
  lemma WrittenInOrder(h: History, c: nat, p: nat)
    requires Recorded(h) && c < |h.wcalls| && p < |h.call|
    ensures |h.putBy| == |h.s.put| && forall k :: 0 <= k < |h.putBy| ==> h.putBy[k] < |h.wcalls|
    ensures Of(h.s.put, h.putBy, c) <= h.wcalls[c].src
    ensures h.wcalls[c].ret >= 0 ==> |Of(h.s.put, h.putBy, c)| == h.wcalls[c].ret
    ensures |h.s.procs| == |h.call|
    ensures InWrite(h.s.procs[p].pc) && h.call[p] == c ==> |Of(h.s.put, h.putBy, c)| == h.s.procs[p].pc.i
  {
    hide Of;
    RecordedInv(h);
    assert WriteOk(h, c) && ProcOk(h, p);
  }

  /** What a call of piperead has taken out is, in order, what the user's buffer got, and at most one byte more,
      the one whose copyout failed; it never got more than it asked for, and returns how many. */
  lemma ReadInOrder(h: History, c: nat)
    requires Recorded(h) && c < |h.rcalls|
    ensures |h.gotBy| == |h.s.got| && forall k :: 0 <= k < |h.gotBy| ==> h.gotBy[k] < |h.rcalls|
    ensures var did, call := Of(h.s.got, h.gotBy, c), h.rcalls[c];
            && call.user <= did && |did| <= |call.user| + 1 && |call.user| <= call.n
            && (call.ret >= 0 ==> call.ret == |call.user|)
            && (call.ret == RUNNING ==> did == call.user) && (call.ret == -1 ==> did == [])
  {
    hide Of;
    RecordedInv(h);
    assert ReadOk(h, c);
  }

  /** One writer: what all readers together took out is the beginning of what that call was asked to write. */
  lemma OneWriter(h: History, c: nat)
    requires Recorded(h) && c < |h.wcalls| && forall k :: 0 <= k < |h.putBy| ==> h.putBy[k] == c
    ensures h.s.got <= h.wcalls[c].src
  {
    RecordedInv(h);
    Fifo(h.s);
    assert WriteOk(h, c);
    OfAll(h.s.put, h.putBy, c);
  }
}
