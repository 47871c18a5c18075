/**
 * Plink's output program (PLINK.C:143-188, 719-762) as steps on values: what the main thread and the two
 * writer threads can do, whatever pieces the queues are cut into. A run is any schedule of steps.
 */
module PlinkSteps {
  import opened Bytes

  /** Where the main thread is with this stream: in the main loop, or in the middle of try_output or
      of the branch for a completed write. */
  datatype MainAt = Loop | Trying | Prefixed | Signalled | Completed

  /** The writer waits for work, or is inside WriteFile and has written `done` bytes so far. */
  datatype WriterAt = Waiting | Writing(done: nat)

  /** One stream: its threads, its flags, what is queued and what is in the file. */
  datatype Side = Side(
    main: MainAt, writer: WriterAt, busy: bool, event: bool, eventback: bool,
    len: nat, lenwritten: nat, writeret: bool, exited: bool, queue: bytes, sink: bytes)

  /** A step of the program: one of the main thread or of one of the writers. `err` says which stream;
      `Disconnect` is the end of the connection or of its socket. */
  datatype Step =
    | Backend(err: bool, data: bytes)
    | Proceed(err: bool)
    | Event(err: bool)
    | Wake(err: bool)
    | Write(err: bool, n: nat)
    | Return(err: bool, ok: bool)
    | Disconnect
    | LoopTest

  datatype Program = Program(out: Side, err: Side, connopen: bool, finished: bool)

  const QUIET := Side(Loop, Waiting, false, false, false, 0, 0, true, false, [], [])
  const START := Program(QUIET, QUIET, true, false)

  // -------------------------------------------------------------------------------------------
  // One stream
  // -------------------------------------------------------------------------------------------

  /** The main thread, in the middle of its work, goes on by one step. try_output lends some of the queue
      if nothing is lent; then it wakes the writer; after a write, what was written leaves the queue. */
  predicate Advances(s: Side, t: Side) {
    match s.main
    case Loop => t == s
    case Trying =>
      if s.busy then t == s.(main := Loop)
      else 0 < t.len <= |s.queue| && t == s.(main := Prefixed, len := t.len)
    case Prefixed => t == s.(main := Signalled, eventback := true)
    case Signalled => t == s.(main := Loop, busy := true)
    case Completed =>
      && s.lenwritten <= |s.queue|
      && t == s.(main := if s.lenwritten < |s.queue| then Trying else Loop, queue := s.queue[s.lenwritten..])
  }

  /** from_backend; nothing for an empty queue is the end of the process. */
  function Fed(s: Side, data: bytes): Side {
    if s.queue + data == [] then s.(exited := true) else s.(main := Trying, queue := s.queue + data)
  }

  /** The main loop wakes up for a completed write. */
  function Informed(s: Side): Side {
    s.(main := Completed, busy := false, event := false, exited := !s.writeret)
  }

  function Woken(s: Side): Side {
    s.(writer := Writing(0), eventback := false)
  }

  /** WriteFile gets `n` more bytes of the queue out. */
  predicate Writes(s: Side, n: nat, t: Side) {
    && s.writer.Writing? && s.writer.done + n <= |s.queue|
    && t == s.(writer := Writing(s.writer.done + n), sink := s.sink + s.queue[s.writer.done..s.writer.done + n])
  }

  function Returned(s: Side, ok: bool): Side
    requires s.writer.Writing?
  {
    s.(writer := Waiting, event := true, lenwritten := s.writer.done, writeret := ok)
  }

  /** A step of a stream; one that cannot be taken now changes nothing. `idle` says that the main thread is
      not busy with the other stream. */
  predicate Moves(s: Side, step: Step, idle: bool, t: Side) {
    match step
    case Proceed(_) => Advances(s, t)
    case Event(_) => t == if s.main == Loop && idle && s.event then Informed(s) else s
    case Wake(_) => t == if s.writer.Waiting? && s.eventback then Woken(s) else s
    case Write(_, n) => if s.writer.Writing? && s.writer.done + n <= s.len then Writes(s, n, t) else t == s
    case Return(_, ok) => t == if s.writer.Writing? then Returned(s, ok) else s
    case _ => t == s
  }

  // -------------------------------------------------------------------------------------------
  // The program
  // -------------------------------------------------------------------------------------------

  predicate Running(s: Program) {
    !s.finished && !s.out.exited && !s.err.exited
  }

  /** The main thread is in its loop. */
  predicate Idle(s: Program) {
    s.out.main == Loop && s.err.main == Loop
  }

  /** The test at the end of the main loop's body. */
  predicate MayLeave(s: Program) {
    !s.connopen && s.out.queue == [] && s.err.queue == []
  }

  predicate Next(s: Program, step: Step, t: Program) {
    if !Running(s) then t == s
    else match step
      case Disconnect => t == s.(connopen := false)
      case LoopTest => t == s.(finished := Idle(s) && MayLeave(s))
      case Backend(err, data) =>
        if !Idle(s) then t == s
        else if err then t == s.(err := Fed(s.err, data))
        else t == s.(out := Fed(s.out, data))
      case _ =>
        if step.err then t == s.(err := t.err) && Moves(s.err, step, s.out.main == Loop, t.err)
        else t == s.(out := t.out) && Moves(s.out, step, s.err.main == Loop, t.out)
  }

  /** The program takes these steps one after the other. */
  predicate Trace(trace: seq<Program>, schedule: seq<Step>) {
    && |trace| == |schedule| + 1
    && forall i {:trigger trace[i], schedule[i]} :: 0 <= i < |schedule| ==> Next(trace[i], schedule[i], trace[i + 1])
  }

  /** What the back end gives to a stream in a step: it can only while the main thread is in its loop. */
  function Gift(s: Program, step: Step, err: bool): bytes {
    if step.Backend? && step.err == err && Running(s) && Idle(s) then step.data else []
  }

  function Given(trace: seq<Program>, schedule: seq<Step>, err: bool): bytes
    requires |trace| == |schedule| + 1
    decreases |schedule|
  {
    if schedule == [] then [] else Gift(trace[0], schedule[0], err) + Given(trace[1..], schedule[1..], err)
  }

  lemma NothingGiven(s: Program)
    ensures Trace([s], []) && Given([s], [], false) == Given([s], [], true) == []
  {
  }

  lemma NoGift(s: Program, step: Step)
    ensures !step.Backend? ==> Gift(s, step, false) == Gift(s, step, true) == []
  {
  }

  lemma AllStill(s: Program, step: Step)
    requires !Running(s)
    ensures Next(s, step, s) && Gift(s, step, false) == Gift(s, step, true) == []
  {
  }

  lemma TraceTail(trace: seq<Program>, schedule: seq<Step>)
    requires Trace(trace, schedule) && schedule != []
    ensures Trace(trace[1..], schedule[1..]) && Next(trace[0], schedule[0], trace[1])
  {
    var t, c := trace[1..], schedule[1..];
    forall i {:trigger t[i], c[i]} | 0 <= i < |c| ensures Next(t[i], c[i], t[i + 1]) {
      assert Next(trace[i + 1], schedule[i + 1], trace[i + 2]);
    }
  }

  lemma TraceCons(s: Program, trace: seq<Program>, step: Step, schedule: seq<Step>)
    requires Trace(trace, schedule) && Next(s, step, trace[0])
    ensures Trace([s] + trace, [step] + schedule)
    ensures forall err :: Given([s] + trace, [step] + schedule, err) == Gift(s, step, err) + Given(trace, schedule, err)
  {
    var t, c := [s] + trace, [step] + schedule;
    assert t[1..] == trace && c[1..] == schedule;
    forall i {:trigger t[i], c[i]} | 0 <= i < |c| ensures Next(t[i], c[i], t[i + 1]) {
      if i > 0 {
        assert Next(trace[i - 1], schedule[i - 1], trace[i]);
      }
    }
  }

  /** The main loop is left only after the connection was closed, and with both queues empty. */
  lemma {:induction false} LeftAfterDisconnect(trace: seq<Program>, schedule: seq<Step>)
    requires Trace(trace, schedule) && !trace[0].finished && trace[|schedule|].finished
    ensures trace[0].connopen ==> Disconnect in schedule
    ensures trace[|schedule|].out.queue == [] && trace[|schedule|].err.queue == []
    decreases |schedule|
  {
    TraceTail(trace, schedule);
    var t, c := trace[1..], schedule[1..];
    assert t[|c|] == trace[|schedule|];
    if trace[1].finished {
      StaysFinished(t, c);
    } else {
      LeftAfterDisconnect(t, c);
      assert forall x :: x in c ==> x in schedule;
    }
  }

  lemma {:induction false} StaysFinished(trace: seq<Program>, schedule: seq<Step>)
    requires Trace(trace, schedule) && trace[0].finished
    ensures trace[|schedule|] == trace[0]
    decreases |schedule|
  {
    if schedule != [] {
      TraceTail(trace, schedule);
      StaysFinished(trace[1..], schedule[1..]);
    }
  }
}
