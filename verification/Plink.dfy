/**
 * Plink's output streams (PLINK.C): the main thread queues what the back end sends and a second
 * thread writes it out, straight from the granule at the head of the queue.
 *
 * Every method of `Stream` is one atomic step of one of the two threads, so a run of the program is
 * any sequence of enabled steps. The events are the one-bit flags that SetEvent raises and a wait
 * takes down.
 */
module PlinkOutput {
  import opened Bytes
  import opened BufferChain
  import opened PlinkSteps

  lemma StillThere(was: bytes, now: bytes, kept: nat, from: nat, len: nat)
    requires from + len <= kept <= |was| && kept <= |now| && now[..kept] == was[..kept]
    ensures now[from..from + len] == was[from..from + len]
  {
    assert forall k :: from <= k < from + len ==> now[k] == now[..kept][k] == was[..kept][k] == was[k];
  }

  /** A region of the chain is in the hands of the writer, on the way there or on the way back. */
  predicate Borrowed(busy: bool, main: MainAt) {
    busy || main == Prefixed || main == Signalled || main == Completed
  }

  /** The flags tell the truth: while a region is lent, exactly one of "work announced", "work in
      progress" and "work done" holds, and otherwise none does. */
  predicate Orderly(busy: bool, event: bool, eventback: bool, main: MainAt, writer: WriterAt, len: nat, written: nat) {
    && (if busy || main == Signalled then
          || (eventback && writer.Waiting? && !event)
          || (!eventback && writer.Writing? && !event)
          || (!eventback && writer.Waiting? && event)
        else !eventback && writer.Waiting? && !event)
    && (main == Prefixed || main == Signalled || main == Completed ==> !busy)
    && (writer.Writing? ==> writer.done <= len)
    && (event || main == Completed ==> written <= len)
  }

  /** How much of the region is known to be out. */
  function Progress(event: bool, main: MainAt, writer: WriterAt, written: nat): nat {
    if main == Completed || event then written else if writer.Writing? then writer.done else 0
  }

  lemma LendInOrder(event: bool, eventback: bool, writer: WriterAt, before: nat, len: nat, written: nat)
    requires Orderly(false, event, eventback, Trying, writer, before, written)
    ensures Orderly(false, event, eventback, Prefixed, writer, len, written)
    ensures Progress(event, Prefixed, writer, written) == Progress(event, Trying, writer, written)
  {
  }

  lemma BackToLoop(event: bool, eventback: bool, writer: WriterAt, len: nat, written: nat)
    requires Orderly(true, event, eventback, Trying, writer, len, written)
    ensures Orderly(true, event, eventback, Loop, writer, len, written)
    ensures Progress(event, Loop, writer, written) == Progress(event, Trying, writer, written)
  {
  }

  /** The region lies in the head of the chain, which has not been freed, and it still holds the next
      bytes of the stream. */
  ghost predicate Intact(chain: Bufchain, g: Granule?, offset: nat, len: nat)
    reads chain, chain.spine
  {
    && chain.spine != [] && g == chain.spine[0] && !g.freed
    && 0 < len && offset == g.bufpos && offset + len <= g.buflen <= |g.buf|
    && chain.consumed + len <= |chain.stream|
    && g.buf[offset..offset + len] == chain.stream[chain.consumed..chain.consumed + len]
  }

  /** The file has the stream up to where the writer is. */
  ghost predicate Flows(chain: Bufchain, sink: bytes, progress: nat)
    reads chain
  {
    chain.consumed + progress <= |chain.stream| && sink == chain.stream[..chain.consumed + progress]
  }

  /** The bytes of the region that WriteFile takes next continue the file, and are the next of the queue. */
  lemma NextOut(chain: Bufchain, g: Granule?, offset: nat, len: nat, sink: bytes, done: nat, n: nat)
    requires Intact(chain, g, offset, len) && Flows(chain, sink, done) && done + n <= len
    ensures g != null && offset + len <= |g.buf| && !g.freed && chain.consumed + len <= |chain.stream|
    ensures g.buf[offset + done..offset + done + n] == chain.Contents()[done..done + n]
    ensures Flows(chain, sink + g.buf[offset + done..offset + done + n], done + n)
  {
    var at := chain.consumed + done;
    SubSlice(g.buf, offset, chain.stream, chain.consumed, len, done, done + n);
    assert chain.stream[..at] + chain.stream[at..at + n] == chain.stream[..at + n];
  }

  class Stream {
    const chain: Bufchain
    // struct output_data
    var buffer: Granule?
    var offset: nat
    var len: nat
    var lenwritten: nat
    var writeret: bool
    var busy: bool
    var event: bool
    var eventback: bool
    // The two threads and the file.
    var main: MainAt
    var writer: WriterAt
    var exited: bool       // the process has ended: cleanup_exit after a failed write, or a crash
    var sink: bytes        // what has been written to the file

    ghost function Repr(): set<object>
      reads this, chain
    {
      {this as object, chain} + (set g: object | g in chain.spine)
    }

    ghost predicate Valid()
      reads this, chain, chain.spine
    {
      && chain.Valid()
      && Orderly(busy, event, eventback, main, writer, len, lenwritten)
      && (Borrowed(busy, main) ==> Intact(chain, buffer, offset, len))
      && (main == Loop && !busy ==> chain.consumed == |chain.stream|)
      && (main == Trying ==> chain.consumed < |chain.stream|)
      && Flows(chain, sink, Progress(event, main, writer, lenwritten))
    }

    /** The stream as the specification has it. */
    ghost function View(): Side
      requires chain.consumed <= |chain.stream|
      reads this, chain
    {
      Side(main, writer, busy, event, eventback, len, lenwritten, writeret, exited, chain.Contents(), sink)
    }

    constructor ()
      ensures Valid() && View() == QUIET && chain.stream == []
      ensures fresh(chain) && chain.spine == []
    {
      chain := new Bufchain();
      buffer, offset, len, lenwritten, writeret := null, 0, 0, 0, true;
      busy, event, eventback := false, false, false;
      main, writer, exited, sink := Loop, Waiting, false, [];
    }

    // ---- the main thread ----------------------------------------------------------------------

    /** bufchain_add, perhaps while a region at the head of the chain is lent to the writer. */
    method Enqueue(data: bytes)
      requires Valid() && main == Loop
      modifies chain, chain.spine
      ensures chain.Valid() && chain.stream == old(chain.stream) + data && chain.consumed == old(chain.consumed)
      ensures busy ==> Intact(chain, buffer, offset, len)
      ensures Flows(chain, sink, Progress(event, main, writer, lenwritten))
      ensures forall g :: g in chain.spine ==> g in old(chain.spine) || fresh(g)
    {
      hide Laid, Granule.Stores;
      ghost var stream, g := chain.stream, buffer;
      ghost var was, at := if busy then g.buf else [], if busy then g.buflen else 0;
      chain.Add(data);
      assert busy ==> Intact(chain, g, offset, len) by {
        if busy {
          assert Bufchain.Kept(chain.spine[0]);
          assert g.Holds();
          StillThere(was, g.buf, at, offset, len);
          SliceStays(stream, data, chain.consumed, chain.consumed + len);
        }
      }
      ghost var progress := Progress(event, main, writer, lenwritten);
      SliceStays(stream, data, 0, chain.consumed + progress);
    }

    /** from_backend, on the way to try_output. An empty chain given nothing has no head for try_output to
        look at: that is the end of the process. */
    method FromBackend(data: bytes)
      requires Valid() && main == Loop && !exited
      modifies this`main, this`exited, chain, chain.spine
      ensures Valid() && chain.stream == old(chain.stream) + data
      ensures View() == Fed(old(View()), data)
      ensures forall g :: g in chain.spine ==> g in old(chain.spine) || fresh(g)
    {
      hide Laid, Intact, Flows;
      Enqueue(data);
      var size := chain.Size();
      if size == 0 {
        exited := true;
      } else {
        main := Trying;
      }
    }

    /** bufchain_prefix. */
    method Lend()
      requires Valid() && main == Trying
      modifies this`buffer, this`offset, this`len
      ensures Intact(chain, buffer, offset, len) && 0 < len <= |chain.Contents()|
    {
      hide Laid, Granule.Stores, Flows, Orderly, Progress;
      buffer, offset, len := chain.Prefix();
    }

    /** try_output: look at `busy`, then at the head of the chain. */
    method TryOutput()
      requires Valid() && main == Trying
      modifies this`main, this`buffer, this`offset, this`len
      ensures Valid() && Advances(old(View()), View())
      ensures !busy ==> Intact(chain, buffer, offset, len)
    {
      hide Laid, Granule.Stores, Flows, Orderly, Progress, Intact;
      if busy {
        BackToLoop(event, eventback, writer, len, lenwritten);
        main := Loop;
      } else {
        ghost var before := len;
        Lend();
        main := Prefixed;
        LendInOrder(event, eventback, writer, before, len, lenwritten);
      }
    }

    /** SetEvent(eventback). */
    method SignalWriter()
      requires Valid() && main == Prefixed
      modifies this`main, this`eventback
      ensures Valid() && Advances(old(View()), View())
    {
      eventback := true;
      main := Signalled;
    }

    method MarkBusy()
      requires Valid() && main == Signalled
      modifies this`main, this`busy
      ensures Valid() && Advances(old(View()), View())
    {
      busy := true;
      main := Loop;
    }

    /** The main loop wakes up for `event`; a failed write ends the program. */
    method TakeEvent()
      requires Valid() && main == Loop && event && !exited
      modifies this`main, this`busy, this`event, this`exited
      ensures Valid() && View() == Informed(old(View()))
    {
      event := false;
      busy := false;
      main := Completed;
      if !writeret {
        exited := true;
      }
    }

    /** bufchain_consume of what was written, and back to try_output if anything is left. */
    method ConsumeWritten()
      requires Valid() && main == Completed
      modifies this`main, chain, chain.spine
      ensures Valid() && chain.stream == old(chain.stream)
      ensures Advances(old(View()), View())
      ensures forall g :: g in chain.spine ==> g in old(chain.spine)
    {
      chain.Consume(lenwritten);
      var size := chain.Size();
      main := if size > 0 then Trying else Loop;
    }

    // ---- the writer thread --------------------------------------------------------------------

    /** WaitForSingleObject(eventback) returns. */
    method Wake()
      requires Valid() && writer.Waiting? && eventback
      modifies this`writer, this`eventback
      ensures Valid() && View() == Woken(old(View()))
    {
      eventback := false;
      writer := Writing(0);
    }

    /** WriteFile copies some bytes out of the granule, as they are at that moment. */
    method WriteSome(n: nat)
      requires Valid() && writer.Writing? && writer.done + n <= len
      modifies this`writer, this`sink
      ensures Valid() && sink == old(sink) + buffer.buf[offset + old(writer.done)..offset + old(writer.done) + n]
      ensures Writes(old(View()), n, View()) && !buffer.freed
    {
      hide Laid, Intact, Flows;
      var from := offset + writer.done;
      NextOut(chain, buffer, offset, len, sink, writer.done, n);
      sink := sink + buffer.buf[from..from + n];
      writer := Writing(writer.done + n);
    }

    /** WriteFile returns. */
    method Finish(ok: bool)
      requires Valid() && writer.Writing?
      modifies this`writer, this`lenwritten, this`writeret, this`event
      ensures Valid() && View() == Returned(old(View()), ok)
    {
      lenwritten := writer.done;
      writeret := ok;
      writer := Waiting;
      event := true;
    }

    /** The step the main thread takes next in the middle of its work on this stream. */
    method Proceed()
      requires Valid() && main != Loop && !exited
      modifies this`main, this`buffer, this`offset, this`len, this`eventback, this`busy, chain, chain.spine
      ensures Valid() && chain.stream == old(chain.stream)
      ensures Advances(old(View()), View())
      ensures forall g :: g in chain.spine ==> g in old(chain.spine)
    {
      match main {
        case Trying => TryOutput();
        case Prefixed => SignalWriter();
        case Signalled => MarkBusy();
        case Completed => ConsumeWritten();
      }
    }

    /** Whatever the two threads are doing, what is in the file and what is still queued or lent is
        what came in; and when the queue is empty everything is in the file and nobody holds a region. */
    lemma NothingLost()
      requires Valid()
      ensures sink <= chain.stream
      ensures |chain.Contents()| == 0 ==> sink == chain.stream && !busy && main == Loop && writer.Waiting?
      ensures main == Loop && !event && writer.Waiting? ==> sink + chain.Contents() == chain.stream
    {
      assert chain.stream[..chain.consumed] + chain.stream[chain.consumed..] == chain.stream;
    }
  }

  /** Two streams that share nothing. */
  ghost predicate Apart(a: Stream, b: Stream)
    reads a.chain, b.chain
  {
    && a != b && a.chain != b.chain
    && (forall g :: g in a.chain.spine ==> g !in b.chain.spine)
    && (forall g :: g in b.chain.spine ==> g !in a.chain.spine)
  }

  /** The main thread goes on with one of two streams. */
  method ProceedStep(s: Stream, other: Stream)
    requires s.Valid() && other.Valid() && Apart(s, other) && s.main != Loop && other.main == Loop && !s.exited
    modifies s`main, s`buffer, s`offset, s`len, s`eventback, s`busy, s.chain, s.chain.spine
    ensures s.Valid() && other.Valid() && Apart(s, other)
    ensures Advances(old(s.View()), s.View()) && other.View() == old(other.View())
    ensures s.chain.stream == old(s.chain.stream)
    ensures forall g :: g in s.chain.spine ==> g in old(s.chain.spine)
  {
    s.Proceed();
    forall i {:trigger other.chain.spine[i]} | 0 <= i < |other.chain.spine|
      ensures unchanged(other.chain.spine[i])
    {
      assert other.chain.spine[i] in other.chain.spine;
    }
  }

  /** A step that only looks at the chain, if it can be taken now. */
  method ThreadStep(s: Stream, step: Step, idle: bool)
    requires s.Valid() && !s.exited
    modifies s`main, s`busy, s`event, s`exited, s`writer, s`eventback, s`sink, s`lenwritten, s`writeret
    requires !step.Proceed?
    ensures s.Valid() && Moves(old(s.View()), step, idle, s.View())
  {
    match step {
      case Event(_) => if s.main == Loop && idle && s.event { s.TakeEvent(); }
      case Wake(_) => if s.writer.Waiting? && s.eventback { s.Wake(); }
      case Write(_, n) => if s.writer.Writing? && s.writer.done + n <= s.len { s.WriteSome(n); }
      case Return(_, ok) => if s.writer.Writing? { s.Finish(ok); }
      case _ =>
    }
  }

  /** A step of one of two streams, if it can be taken now; the other one is left alone. */
  method StreamStep(s: Stream, other: Stream, step: Step)
    requires s.Valid() && other.Valid() && Apart(s, other) && (s.main == Loop || other.main == Loop)
    requires !s.exited && !step.Disconnect? && !step.LoopTest? && !step.Backend?
    modifies s, s.chain, s.chain.spine
    ensures s.Valid() && other.Valid() && Apart(s, other)
    ensures Moves(old(s.View()), step, old(other.main) == Loop, s.View()) && other.View() == old(other.View())
    ensures s.main == Loop || other.main == Loop
    ensures s.chain.stream == old(s.chain.stream)
    ensures forall g :: g in s.chain.spine ==> g in old(s.chain.spine)
  {
    if !step.Proceed? {
      ThreadStep(s, step, other.main == Loop);
    } else if s.main != Loop {
      ProceedStep(s, other);
    }
  }

  /** from_backend for one of two streams. */
  method BackendStep(s: Stream, other: Stream, data: bytes)
    requires s.Valid() && other.Valid() && Apart(s, other) && s.main == Loop && other.main == Loop
    requires !s.exited
    modifies s`main, s`exited, s.chain, s.chain.spine
    ensures s.Valid() && other.Valid() && Apart(s, other)
    ensures s.View() == Fed(old(s.View()), data) && other.View() == old(other.View())
    ensures s.chain.stream == old(s.chain.stream) + data
    ensures forall g :: g in s.chain.spine ==> g in old(s.chain.spine) || fresh(g)
  {
    s.FromBackend(data);
    forall i {:trigger other.chain.spine[i]} | 0 <= i < |other.chain.spine|
      ensures unchanged(other.chain.spine[i])
    {
      assert other.chain.spine[i] in other.chain.spine;
    }
  }

  class Plink {
    const out: Stream
    const err: Stream
    var connopen: bool
    var finished: bool     // the main loop has been left
    ghost var givenOut: bytes
    ghost var givenErr: bytes

    ghost predicate Valid()
      reads this, out, out.chain, out.chain.spine, err, err.chain, err.chain.spine
    {
      && out.Valid() && err.Valid() && Apart(out, err)
      && (out.main == Loop || err.main == Loop)
      && out.chain.stream == givenOut && err.chain.stream == givenErr
      && (finished ==> out.sink == givenOut && err.sink == givenErr)
    }

    /** The program as the specification has it. */
    ghost function View(): Program
      requires out.chain.consumed <= |out.chain.stream| && err.chain.consumed <= |err.chain.stream|
      reads this, out, out.chain, err, err.chain
    {
      Program(out.View(), err.View(), connopen, finished)
    }

    constructor ()
      ensures Valid() && View() == START && givenOut == [] && givenErr == []
      ensures fresh(out) && fresh(out.chain) && out.chain.spine == []
      ensures fresh(err) && fresh(err.chain) && err.chain.spine == []
    {
      out := new Stream();
      err := new Stream();
      connopen, finished, givenOut, givenErr := true, false, [], [];
    }

    /** The exit test at the end of the main loop's body. */
    method ExitTest()
      requires Valid() && !finished && out.main == Loop && err.main == Loop
      modifies this`finished
      ensures Valid()
      ensures finished <==> !connopen && out.chain.Contents() == [] && err.chain.Contents() == []
    {
      if !connopen {
        var osize := out.chain.Size();
        var esize := err.chain.Size();
        if osize == 0 && esize == 0 {
          out.NothingLost();
          err.NothingLost();
          finished := true;
        }
      }
    }

    /** from_backend. */
    method Give(err: bool, data: bytes)
      requires Valid() && !finished && out.main == Loop && this.err.main == Loop && !out.exited && !this.err.exited
      modifies this`givenOut, this`givenErr, out`main, out`exited, out.chain, out.chain.spine
      modifies this.err`main, this.err`exited, this.err.chain, this.err.chain.spine
      ensures Valid() && Next(old(View()), Backend(err, data), View())
      ensures givenOut == old(givenOut) + (if err then [] else data)
      ensures givenErr == old(givenErr) + (if err then data else [])
      ensures forall g :: g in out.chain.spine ==> g in old(out.chain.spine) || fresh(g)
      ensures forall g :: g in this.err.chain.spine ==> g in old(this.err.chain.spine) || fresh(g)
    {
      hide Stream.Valid, Fed;
      if err {
        BackendStep(this.err, out, data);
        givenErr := givenErr + data;
      } else {
        BackendStep(out, this.err, data);
        givenOut := givenOut + data;
      }
    }

    lemma Bounded()
      requires Valid()
      ensures out.chain.consumed <= |out.chain.stream| && err.chain.consumed <= |err.chain.stream|
    {
    }

    /** A step of one of the streams. */
    method MoveOn(step: Step)
      requires Valid() && Running(View()) && !step.Disconnect? && !step.LoopTest? && !step.Backend?
      modifies out, out.chain, out.chain.spine, err, err.chain, err.chain.spine
      ensures Valid() && Next(old(View()), step, View())
      ensures forall g :: g in out.chain.spine ==> g in old(out.chain.spine)
      ensures forall g :: g in err.chain.spine ==> g in old(err.chain.spine)
    {
      hide Stream.Valid, Moves;
      Bounded();
      if step.err {
        StreamStep(err, out, step);
      } else {
        StreamStep(out, err, step);
      }
      Bounded();
    }

    /** The connection is closed. */
    method Close()
      requires Valid() && Running(View())
      modifies this`connopen
      ensures Valid() && Next(old(View()), Disconnect, View())
    {
      hide Stream.Valid;
      connopen := false;
      Bounded();
    }

    /** The end of the main loop's body, if that is where the main thread is. */
    method EndOfBody()
      requires Valid() && Running(View())
      modifies this`finished
      ensures Valid() && Next(old(View()), LoopTest, View())
    {
      hide Stream.Valid;
      if out.main == Loop && err.main == Loop {
        ExitTest();
      }
      Bounded();
    }

    /** The back end gives some data, if the main thread can take it. */
    method Feed(err: bool, data: bytes)
      requires Valid() && Running(View())
      modifies this`givenOut, this`givenErr, out`main, out`exited, out.chain, out.chain.spine
      modifies this.err`main, this.err`exited, this.err.chain, this.err.chain.spine
      ensures Valid() && Next(old(View()), Backend(err, data), View())
      ensures givenOut == old(givenOut) + Gift(old(View()), Backend(err, data), false)
      ensures givenErr == old(givenErr) + Gift(old(View()), Backend(err, data), true)
      ensures forall g :: g in out.chain.spine ==> g in old(out.chain.spine) || fresh(g)
      ensures forall g :: g in this.err.chain.spine ==> g in old(this.err.chain.spine) || fresh(g)
    {
      hide Stream.Valid, Fed;
      if out.main == Loop && this.err.main == Loop {
        Give(err, data);
      } else {
        assert givenOut + [] == givenOut && givenErr + [] == givenErr;
      }
      Bounded();
    }

    /** One step of the program, if it can be taken now. */
    method Take(step: Step)
      requires Valid() && Running(View())
      modifies this, out, out.chain, out.chain.spine, err, err.chain, err.chain.spine
      ensures Valid() && Next(old(View()), step, View())
      ensures givenOut == old(givenOut) + Gift(old(View()), step, false)
      ensures givenErr == old(givenErr) + Gift(old(View()), step, true)
      ensures forall k :: 0 <= k < |out.chain.spine| ==>
                out.chain.spine[k] in old(out.chain.spine) || fresh(out.chain.spine[k])
      ensures forall k :: 0 <= k < |err.chain.spine| ==>
                err.chain.spine[k] in old(err.chain.spine) || fresh(err.chain.spine[k])
    {
      hide Stream.Valid, Next, Gift;
      Bounded();
      NoGift(View(), step);
      assert givenOut + [] == givenOut && givenErr + [] == givenErr;
      match step {
        case Disconnect => Close();
        case LoopTest => EndOfBody();
        case Backend(err, data) => Feed(err, data);
        case _ => MoveOn(step);
      }
    }

    /** A whole schedule; steps after the end of the program change nothing. */
    method TakeAll(schedule: seq<Step>) returns (ghost trace: seq<Program>)
      requires Valid()
      modifies this, out, out.chain, out.chain.spine, err, err.chain, err.chain.spine
      ensures Valid() && Trace(trace, schedule) && trace[0] == old(View()) && trace[|schedule|] == View()
      ensures givenOut == old(givenOut) + Given(trace, schedule, false)
      ensures givenErr == old(givenErr) + Given(trace, schedule, true)
      decreases |schedule|
    {
      hide Stream.Valid, Trace, Next, Given, Gift;
      Bounded();
      ghost var s := View();
      NothingGiven(s);
      if schedule == [] {
        trace := [s];
      } else {
        if !finished && !out.exited && !err.exited {
          Take(schedule[0]);
        } else {
          AllStill(s, schedule[0]);
        }
        assert [schedule[0]] + schedule[1..] == schedule;
        ghost var later := TakeAll(schedule[1..]);
        TraceCons(s, later, schedule[0], schedule[1..]);
        trace := [s] + later;
      }
    }
  }

  /** Over every run of the program, with the steps of its threads interleaved in any way: what has
      been written is what the back end gave, up to what is still queued; and once the main loop has
      been left, which only happens after the connection was closed, all of it. What the back end gave is
      the data of its steps at which the main thread was in its loop. */
  method RunProgram(schedule: seq<Step>) returns (p: Plink, ghost trace: seq<Program>)
    ensures p.Valid() && Trace(trace, schedule) && trace[0] == START && trace[|schedule|] == p.View()
    ensures p.givenOut == Given(trace, schedule, false) && p.givenErr == Given(trace, schedule, true)
    ensures p.out.sink <= p.givenOut && p.err.sink <= p.givenErr
    ensures p.finished ==> p.out.sink == p.givenOut && p.err.sink == p.givenErr && Disconnect in schedule
  {
    p := new Plink();
    trace := p.TakeAll(schedule);
    p.out.NothingLost();
    p.err.NothingLost();
    if p.finished {
      LeftAfterDisconnect(trace, schedule);
    }
  }
}
