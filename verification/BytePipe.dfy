/**
 The byte-bounded pipe between one async producer and one blocking reader. Each critical section of
 `_BoundedBytePipe` is one function on the pipe's fields; the class runs them in place; the protocol
 interleaves them with the event loop, where a wake-up is a callback that runs some time later.
 */
module BytePipe {
  import opened Prelude

  datatype Pipe = Pipe(
    capacity: nat,
    chunks: seq<seq<byte>>,
    buffered: nat,
    maxBuffered: nat,
    eof: bool,
    failure: Option<nat>,
    stopped: bool,
    spaceAvailable: bool,   // the asyncio event
    wakes: nat)             // callbacks queued on the loop that will set the event

  datatype WriteResult = Wrote(end: nat) | MustWait | RaisesFailure(error: nat) | RaisesStopped
  datatype ReadResult = WouldBlock | Returns(bytes: seq<byte>) | ReadRaises(error: nat)

  function NewPipe(capacity: nat): Pipe { Pipe(capacity, [], 0, 0, false, None, false, true, 0) }

  function Flatten(chunks: seq<seq<byte>>): seq<byte> {
    if chunks == [] then [] else chunks[0] + Flatten(chunks[1..])
  }

  // ---- critical sections ------------------------------------------------------------------------

  /** One iteration of `write`, for position < |data|. */
  function WriteOnce(p: Pipe, data: seq<byte>, position: nat): (Pipe, WriteResult)
    requires position < |data|
  {
    if p.failure.Some? then (p, RaisesFailure(p.failure.value))
    else if p.stopped then (p, RaisesStopped)
    else if p.capacity > p.buffered then
      var end := if position + (p.capacity - p.buffered) < |data| then position + (p.capacity - p.buffered) else |data|;
      var buffered := p.buffered + (end - position);
      (p.(chunks := p.chunks + [data[position..end]],
          buffered := buffered,
          maxBuffered := if buffered > p.maxBuffered then buffered else p.maxBuffered,
          spaceAvailable := p.spaceAvailable && buffered < p.capacity),
       Wrote(end))
    else (p.(spaceAvailable := false), MustWait)
  }

  /** `read`, or WouldBlock while its condition wait goes on; size None stands for a negative size. */
  function ReadOnce(p: Pipe, size: Option<nat>): (Pipe, ReadResult) {
    if p.chunks == [] && !p.eof && p.failure.None? then
      (p, if p.stopped then Returns([]) else WouldBlock)
    else if p.chunks != [] then
      var chunk := p.chunks[0];
      var taken := if size.Some? && size.value < |chunk| then size.value else |chunk|;
      var rest := if taken < |chunk| then [chunk[taken..]] + p.chunks[1..] else p.chunks[1..];
      (p.(chunks := rest,
          buffered := if p.buffered >= taken then p.buffered - taken else 0,
          wakes := p.wakes + 1),
       Returns(chunk[..taken]))
    else if p.failure.Some? then (p, ReadRaises(p.failure.value))
    else (p, Returns([]))
  }

  function Close(p: Pipe): Pipe { p.(eof := true) }

  /** `fail` up to the release of its lock; the wake-up call comes after it. */
  function FailLocked(p: Pipe, error: nat, discard: bool): Pipe {
    var q := if discard then p.(chunks := [], buffered := 0) else p;
    if q.failure.None? then q.(failure := Some(error)) else q
  }

  function StopLocked(p: Pipe): Pipe { p.(stopped := true, chunks := [], buffered := 0) }

  function Wake(p: Pipe): Pipe { p.(wakes := p.wakes + 1) }

  /** The loop runs one queued callback. */
  function RunWake(p: Pipe): Pipe { if p.wakes == 0 then p else p.(wakes := p.wakes - 1, spaceAvailable := true) }

  // ---- the class ----------------------------------------------------------------------------------

  class BoundedBytePipe {
    const capacity: nat
    var chunks: seq<seq<byte>>
    var buffered: nat
    var maxBuffered: nat
    var eof: bool
    var failure: Option<nat>
    var stopped: bool
    var spaceAvailable: bool
    var wakes: nat

    ghost function View(): Pipe
      reads this
    {
      Pipe(capacity, chunks, buffered, maxBuffered, eof, failure, stopped, spaceAvailable, wakes)
    }

    ghost predicate Valid()
      reads this
    {
      PipeInv(View())
    }

    constructor (capacity: nat)
      ensures Valid() && View() == NewPipe(capacity)
    {
      this.capacity := capacity;
      chunks, buffered, maxBuffered, wakes := [], 0, 0, 0;
      eof, failure, stopped, spaceAvailable := false, None, false, true;
    }

    method WriteIteration(data: seq<byte>, position: nat) returns (result: WriteResult)
      requires Valid() && position < |data|
      modifies this
      ensures Valid()
      ensures (View(), result) == WriteOnce(old(View()), data, position)
    {
      WriteKeeps(View(), data, position);
      if failure.Some? { return RaisesFailure(failure.value); }
      if stopped { return RaisesStopped; }
      if buffered < capacity {
        var available := capacity - buffered;
        var end := if position + available < |data| then position + available else |data|;
        var piece := data[position..end];
        chunks := chunks + [piece];
        buffered := buffered + |piece|;
        if buffered > maxBuffered { maxBuffered := buffered; }
        if buffered >= capacity { spaceAvailable := false; }
        return Wrote(end);
      }
      spaceAvailable := false;
      result := MustWait;
    }

    method Read(size: Option<nat>) returns (result: ReadResult)
      requires Valid()
      modifies this
      ensures Valid()
      ensures (View(), result) == ReadOnce(old(View()), size)
    {
      ReadKeeps(View(), size);
      if chunks == [] && !eof && failure.None? {
        if stopped { return Returns([]); }
        return WouldBlock;
      }
      if chunks != [] {
        var chunk := chunks[0];
        chunks := chunks[1..];
        var bytes := chunk;
        if size.Some? && size.value < |chunk| {
          bytes := chunk[..size.value];
          chunks := [chunk[size.value..]] + chunks;
        } else {
          assert chunk[..|chunk|] == chunk;
        }
        buffered := buffered - |bytes|;
        wakes := wakes + 1;
        return Returns(bytes);
      }
      if failure.Some? { return ReadRaises(failure.value); }
      result := Returns([]);
    }

    method Fail(error: nat, discard: bool)
      requires Valid()
      modifies this
      ensures Valid()
      ensures View() == Wake(FailLocked(old(View()), error, discard))
    {
      if discard { chunks, buffered := [], 0; }
      if failure.None? { failure := Some(error); }
      wakes := wakes + 1;
    }

    method StopConsumer()
      requires Valid()
      modifies this
      ensures Valid()
      ensures View() == Wake(StopLocked(old(View())))
    {
      stopped := true;
      chunks, buffered := [], 0;
      wakes := wakes + 1;
    }

    method CloseProducer()
      requires Valid()
      modifies this`eof
      ensures Valid()
      ensures View() == Close(old(View()))
    {
      eof := true;
    }
  }

  // ---- the fields agree with each other ---------------------------------------------------------

  predicate NonEmpty(chunk: seq<byte>) { chunk != [] }

  ghost predicate PipeInv(p: Pipe) {
    && p.buffered == |Flatten(p.chunks)|
    && p.buffered <= p.maxBuffered <= p.capacity
    && (forall i | 0 <= i < |p.chunks| :: NonEmpty(p.chunks[i]))
  }

  lemma {:induction false} FlattenAppend(a: seq<seq<byte>>, b: seq<seq<byte>>)
    ensures Flatten(a + b) == Flatten(a) + Flatten(b)
  {
    if a == [] {
      assert a + b == b;
    } else {
      assert (a + b)[1..] == a[1..] + b;
      FlattenAppend(a[1..], b);
    }
  }

  lemma FlattenOne(chunk: seq<byte>)
    ensures Flatten([chunk]) == chunk
  {
    assert Flatten([chunk][1..]) == [];
  }

  lemma WriteKeeps(p: Pipe, data: seq<byte>, position: nat)
    requires PipeInv(p) && position < |data|
    ensures PipeInv(WriteOnce(p, data, position).0)
    ensures WriteOnce(p, data, position).1.Wrote? ==>
              var end := WriteOnce(p, data, position).1.end;
              position < end <= |data|
              && Flatten(WriteOnce(p, data, position).0.chunks) == Flatten(p.chunks) + data[position..end]
  {
    var (q, result) := WriteOnce(p, data, position);
    if result.Wrote? {
      FlattenAppend(p.chunks, [data[position..result.end]]);
      FlattenOne(data[position..result.end]);
    }
  }

  lemma ReadKeeps(p: Pipe, size: Option<nat>)
    requires PipeInv(p)
    ensures PipeInv(ReadOnce(p, size).0)
    ensures ReadOnce(p, size).1.Returns? ==> Flatten(p.chunks) == ReadOnce(p, size).1.bytes + Flatten(ReadOnce(p, size).0.chunks)
    ensures !ReadOnce(p, size).1.Returns? ==> Flatten(p.chunks) == Flatten(ReadOnce(p, size).0.chunks)
  {
    if p.chunks != [] {
      var chunk := p.chunks[0];
      assert NonEmpty(chunk);
      var taken := if size.Some? && size.value < |chunk| then size.value else |chunk|;
      if taken < |chunk| {
        var rest := [chunk[taken..]] + p.chunks[1..];
        assert rest[1..] == p.chunks[1..];
        assert chunk == chunk[..taken] + chunk[taken..];
        assert NonEmpty(chunk[taken..]);
      } else {
        assert chunk[..taken] == chunk;
      }
    }
  }

  // ---- the protocol: every interleaving ---------------------------------------------------------

  datatype Writer =
    | Idle
    | Running(data: seq<byte>, position: nat)
    | Blocked(data: seq<byte>, position: nat)   // awaiting the event
    | Raised

  /**
   `owed` counts threads that have released the lock in `fail` or `stop_consumer` but not yet queued
   their wake-up. `accepted` and `delivered` are what write took and read returned, in order.
   */
  datatype World = World(pipe: Pipe, writer: Writer, owed: nat, accepted: seq<byte>, delivered: seq<byte>, discarded: bool)

  datatype Step =
    | StartWrite(data: seq<byte>)
    | Iterate
    | Resume
    | ReadBytes(size: Option<nat>)
    | CloseStep
    | FailStep(error: nat, discard: bool)
    | StopStep
    | QueueWake
    | LoopRuns

  function Apply(w: World, step: Step): World {
    match step
    case StartWrite(data) => if w.writer.Idle? then w.(writer := Running(data, 0)) else w
    case Iterate =>
      if !w.writer.Running? then w
      else if w.writer.position >= |w.writer.data| then w.(writer := Idle)
      else
        var data, position := w.writer.data, w.writer.position;
        var (pipe, result) := WriteOnce(w.pipe, data, position);
        if result.Wrote? then
          w.(pipe := pipe, writer := Running(data, result.end), accepted := w.accepted + data[position..result.end])
        else w.(pipe := pipe, writer := if result.MustWait? then Blocked(data, position) else Raised)
    case Resume =>
      if w.writer.Blocked? && w.pipe.spaceAvailable then w.(writer := Running(w.writer.data, w.writer.position)) else w
    case ReadBytes(size) =>
      var (pipe, result) := ReadOnce(w.pipe, size);
      w.(pipe := pipe, delivered := if result.Returns? then w.delivered + result.bytes else w.delivered)
    case CloseStep => w.(pipe := Close(w.pipe))
    case FailStep(error, discard) =>
      w.(pipe := FailLocked(w.pipe, error, discard), owed := w.owed + 1, discarded := w.discarded || (discard && w.pipe.chunks != []))
    case StopStep =>
      w.(pipe := StopLocked(w.pipe), owed := w.owed + 1, discarded := w.discarded || w.pipe.chunks != [])
    case QueueWake => if w.owed == 0 then w else w.(pipe := Wake(w.pipe), owed := w.owed - 1)
    case LoopRuns => w.(pipe := RunWake(w.pipe))
  }

  function After(capacity: nat, run: seq<Step>): World {
    if run == [] then World(NewPipe(capacity), Idle, 0, [], [], false)
    else Apply(After(capacity, run[..|run|-1]), run[|run|-1])
  }

  /** Another iteration of the writer would accept bytes or raise. */
  predicate CanProceed(p: Pipe) { p.buffered < p.capacity || p.failure.Some? || p.stopped }

  /** The event is clear only while the writer could not proceed anyway, or somebody is about to set it. */
  predicate NoLostWakeup(w: World) {
    w.pipe.spaceAvailable || w.pipe.wakes > 0 || w.owed > 0 || !CanProceed(w.pipe)
  }

  ghost predicate WorldInv(w: World) {
    && PipeInv(w.pipe)
    && w.delivered + Flatten(w.pipe.chunks) <= w.accepted
    && (!w.discarded ==> w.delivered + Flatten(w.pipe.chunks) == w.accepted)
    && (w.discarded ==> w.pipe.failure.Some? || w.pipe.stopped)
    && (w.writer.Running? || w.writer.Blocked? ==> w.writer.position <= |w.writer.data|)
    && (w.writer.Blocked? ==> w.writer.position < |w.writer.data|)
    && NoLostWakeup(w)
  }

  lemma IterateKeeps(w: World)
    requires WorldInv(w)
    ensures WorldInv(Apply(w, Iterate)) && Apply(w, Iterate).pipe.capacity == w.pipe.capacity
  {
    if w.writer.Running? && w.writer.position < |w.writer.data| {
      var data, position := w.writer.data, w.writer.position;
      var (pipe, result) := WriteOnce(w.pipe, data, position);
      WriteKeeps(w.pipe, data, position);
      if result.Wrote? {
        var piece := data[position..result.end];
        assert Flatten(pipe.chunks) == Flatten(w.pipe.chunks) + piece;
        assert w.delivered + Flatten(pipe.chunks) == (w.delivered + Flatten(w.pipe.chunks)) + piece;
        assert !w.discarded;
      }
    }
  }

  lemma ReadStepKeeps(w: World, size: Option<nat>)
    requires WorldInv(w)
    ensures WorldInv(Apply(w, ReadBytes(size))) && Apply(w, ReadBytes(size)).pipe.capacity == w.pipe.capacity
  {
    var (pipe, result) := ReadOnce(w.pipe, size);
    ReadKeeps(w.pipe, size);
    if result.Returns? {
      assert (w.delivered + result.bytes) + Flatten(pipe.chunks) == w.delivered + Flatten(w.pipe.chunks);
    }
  }

  lemma DiscardKeeps(w: World, error: nat, discard: bool)
    requires WorldInv(w)
    ensures WorldInv(Apply(w, FailStep(error, discard))) && WorldInv(Apply(w, StopStep))
  {
    assert w.delivered + [] == w.delivered;
    assert w.delivered <= w.delivered + Flatten(w.pipe.chunks);
  }

  lemma StepKeeps(w: World, step: Step)
    requires WorldInv(w)
    ensures WorldInv(Apply(w, step)) && Apply(w, step).pipe.capacity == w.pipe.capacity
  {
    match step
    case Iterate => IterateKeeps(w);
    case ReadBytes(size) => ReadStepKeeps(w, size);
    case FailStep(error, discard) => DiscardKeeps(w, error, discard);
    case StopStep => DiscardKeeps(w, 0, false);
    case _ =>
  }

  lemma {:induction false} RunKeeps(capacity: nat, run: seq<Step>)
    ensures WorldInv(After(capacity, run)) && After(capacity, run).pipe.capacity == capacity
  {
    if run != [] {
      RunKeeps(capacity, run[..|run|-1]);
      StepKeeps(After(capacity, run[..|run|-1]), run[|run|-1]);
    }
  }

  // ---- the theorems -------------------------------------------------------------------------------

  /** Bytes come out in order, none lost or repeated; short of an explicit discard nothing is missing. */
  lemma BytesInOrder(capacity: nat, run: seq<Step>)
    ensures var w := After(capacity, run);
            && w.delivered <= w.accepted
            && w.delivered + Flatten(w.pipe.chunks) <= w.accepted
            && (!w.discarded ==> w.accepted == w.delivered + Flatten(w.pipe.chunks))
  {
    RunKeeps(capacity, run);
  }

  /** The buffer never holds more than the capacity, at any time. */
  lemma CapacityRespected(capacity: nat, run: seq<Step>)
    ensures |Flatten(After(capacity, run).pipe.chunks)| <= After(capacity, run).pipe.maxBuffered <= capacity
  {
    RunKeeps(capacity, run);
  }

  /** A blocked writer whose event is clear has a wake-up on its way, or faces a full pipe that nobody has failed or stopped. */
  lemma BlockedWriterHasReason(capacity: nat, run: seq<Step>)
    requires After(capacity, run).writer.Blocked? && !After(capacity, run).pipe.spaceAvailable
    ensures var w := After(capacity, run);
            || w.pipe.wakes > 0 || w.owed > 0
            || (|Flatten(w.pipe.chunks)| == capacity && w.pipe.failure.None? && !w.pipe.stopped)
  {
    RunKeeps(capacity, run);
  }

  /** Pending wake-ups are queued and run, then the writer resumes and tries once more. */
  function Woken(w: World): World { Apply(Apply(Apply(Apply(w, QueueWake), LoopRuns), Resume), Iterate) }

  /** The wake-ups leave the pipe as it was, but for the event. */
  lemma WakingSetsTheEvent(w: World)
    requires WorldInv(w) && CanProceed(w.pipe)
    ensures var v := Apply(Apply(w, QueueWake), LoopRuns);
            v.pipe.spaceAvailable && v.writer == w.writer && v.accepted == w.accepted
            && v.pipe == w.pipe.(spaceAvailable := true, wakes := v.pipe.wakes)
  {}

  lemma WakingKeepsBytes(w: World)
    ensures var v := Apply(Apply(w, QueueWake), LoopRuns);
            v.writer == w.writer && v.accepted == w.accepted
            && v.pipe == w.pipe.(spaceAvailable := v.pipe.spaceAvailable, wakes := v.pipe.wakes)
  {}

  /** One more try of a writer: it raises on a failure or a stop, accepts bytes where there is room, and blocks otherwise. */
  lemma IterationOutcome(w: World)
    requires PipeInv(w.pipe) && w.writer.Running? && w.writer.position < |w.writer.data|
    ensures var v := Apply(w, Iterate);
            && (v.writer.Raised? <==> w.pipe.failure.Some? || w.pipe.stopped)
            && (|v.accepted| > |w.accepted| <==> w.pipe.failure.None? && !w.pipe.stopped && w.pipe.buffered < w.pipe.capacity)
  {
    WriteKeeps(w.pipe, w.writer.data, w.writer.position);
  }

  /**
   The wake-ups that are pending at any moment get a blocked writer going exactly when it can go: it
   raises if and only if the pipe has failed or its consumer stopped, full or not, and it accepts
   bytes if and only if neither has happened and there is room.
   */
  lemma WriterMakesProgress(capacity: nat, run: seq<Step>)
    requires After(capacity, run).writer.Blocked?
    ensures var w := After(capacity, run);
            && (Woken(w).writer.Raised? <==> w.pipe.failure.Some? || w.pipe.stopped)
            && (|Woken(w).accepted| > |w.accepted| <==>
                  w.pipe.failure.None? && !w.pipe.stopped && |Flatten(w.pipe.chunks)| < capacity)
  {
    RunKeeps(capacity, run);
    WokenOutcome(After(capacity, run));
  }

  lemma WokenOutcome(w: World)
    requires WorldInv(w) && w.writer.Blocked?
    ensures Woken(w).writer.Raised? <==> w.pipe.failure.Some? || w.pipe.stopped
    ensures |Woken(w).accepted| > |w.accepted| <==>
              w.pipe.failure.None? && !w.pipe.stopped && w.pipe.buffered < w.pipe.capacity
  {
    var v := Apply(Apply(w, QueueWake), LoopRuns);
    WakingKeepsBytes(w);
    if CanProceed(w.pipe) {
      WakingSetsTheEvent(w);
    }
    hide WriteOnce, RunWake, Wake;
    var resumed := Apply(v, Resume);
    if resumed.writer.Running? {
      IterationOutcome(resumed);
    }
  }

  /** An empty read of a nonzero size means the reader has everything the writer put in, or was stopped. */
  lemma EmptyReadMeansDrained(capacity: nat, run: seq<Step>, size: Option<nat>)
    ensures var w := After(capacity, run);
            size != Some(0) && ReadOnce(w.pipe, size).1 == Returns([]) ==>
              (w.pipe.eof || w.pipe.stopped) && (!w.discarded ==> w.delivered == w.accepted)
  {
    RunKeeps(capacity, run);
    var p := After(capacity, run).pipe;
    assert p.chunks != [] ==> NonEmpty(p.chunks[0]);
  }

  // ---- what each call is answered --------------------------------------------------------------------------

  /**
   One read, in any reachable state. Bytes that are buffered are handed out first, from the front, and never more than
   asked for; only an empty pipe raises its failure, reports its end or blocks.
   */
  lemma ReadAnswers(capacity: nat, run: seq<Step>, size: Option<nat>)
    ensures var p := After(capacity, run).pipe;
            var buffer, result := Flatten(p.chunks), ReadOnce(p, size).1;
            && (buffer != [] ==>
                  && result.Returns? && result.bytes <= buffer
                  && (size.Some? ==> |result.bytes| <= size.value)
                  && (result.bytes == [] <==> size == Some(0))
                  && Flatten(ReadOnce(p, size).0.chunks) == buffer[|result.bytes|..])
            && (buffer == [] ==>
                  result == if p.failure.Some? then ReadRaises(p.failure.value)
                            else if p.eof || p.stopped then Returns([]) else WouldBlock)
  {
    RunKeeps(capacity, run);
    var p := After(capacity, run).pipe;
    ReadKeeps(p, size);
    if p.chunks != [] {
      assert NonEmpty(p.chunks[0]);
    }
    hide After;
  }

  /**
   One try of the writer, in any reachable state: a failure raises before a stop does, a full pipe makes it wait, and
   otherwise it hands over as many bytes as there is room for.
   */
  lemma WriteAnswers(capacity: nat, run: seq<Step>, data: seq<byte>, position: nat)
    requires position < |data|
    ensures var p := After(capacity, run).pipe;
            var room, (after, result) := capacity - |Flatten(p.chunks)|, WriteOnce(p, data, position);
            && room >= 0
            && result == (if p.failure.Some? then RaisesFailure(p.failure.value)
                          else if p.stopped then RaisesStopped
                          else if room == 0 then MustWait
                          else Wrote(if |data| - position <= room then |data| else position + room))
            && Flatten(after.chunks) == Flatten(p.chunks) + if result.Wrote? then data[position..result.end] else []
  {
    RunKeeps(capacity, run);
    WriteKeeps(After(capacity, run).pipe, data, position);
    hide After;
  }

  lemma OneMore(capacity: nat, run: seq<Step>, step: Step)
    ensures After(capacity, run + [step]) == Apply(After(capacity, run), step)
  {
    hide Apply;
    assert (run + [step])[..|run|] == run;
  }

  lemma StepKeepsEnds(w: World, step: Step)
    ensures var p, q := w.pipe, Apply(w, step).pipe;
            (p.failure.Some? ==> q.failure == p.failure) && (p.eof ==> q.eof) && (p.stopped ==> q.stopped)
  {
    if step.Iterate? && w.writer.Running? && w.writer.position < |w.writer.data| {
      WriteKeepsEnds(w.pipe, w.writer.data, w.writer.position);
    }
    hide WriteOnce;
  }

  lemma WriteKeepsEnds(p: Pipe, data: seq<byte>, position: nat)
    requires position < |data|
    ensures var q := WriteOnce(p, data, position).0; q.failure == p.failure && q.eof == p.eof && q.stopped == p.stopped
  {}

  /** A failure is never replaced by a later one, an end never taken back, a stop never undone. */
  lemma {:induction false} EndsAreFinal(capacity: nat, run: seq<Step>, more: seq<Step>)
    ensures var p, q := After(capacity, run).pipe, After(capacity, run + more).pipe;
            (p.failure.Some? ==> q.failure == p.failure) && (p.eof ==> q.eof) && (p.stopped ==> q.stopped)
  {
    hide After, Apply;
    if more == [] {
      assert run + more == run;
    } else {
      var front, last := more[..|more|-1], more[|more|-1];
      assert run + more == run + front + [last];
      EndsAreFinal(capacity, run, front);
      OneMore(capacity, run + front, last);
      StepKeepsEnds(After(capacity, run + front), last);
    }
  }

  /** What the calls that end a pipe do to it: the first failure and the end are recorded, and only a discard drops bytes. */
  lemma EndingCalls(capacity: nat, run: seq<Step>, error: nat, discard: bool)
    ensures var w := After(capacity, run);
            var failed, stopped := After(capacity, run + [FailStep(error, discard)]).pipe, After(capacity, run + [StopStep]).pipe;
            var closed := After(capacity, run + [CloseStep]).pipe;
            && failed.failure == (if w.pipe.failure.Some? then w.pipe.failure else Some(error))
            && Flatten(failed.chunks) == (if discard then [] else Flatten(w.pipe.chunks))
            && stopped.stopped && Flatten(stopped.chunks) == []
            && closed.eof && Flatten(closed.chunks) == Flatten(w.pipe.chunks)
  {
    hide After;
    OneMore(capacity, run, FailStep(error, discard));
    OneMore(capacity, run, StopStep);
    OneMore(capacity, run, CloseStep);
  }

  function BufferedAt(capacity: nat, run: seq<Step>, k: nat): nat
    requires k <= |run|
  {
    |Flatten(After(capacity, run[..k]).pipe.chunks)|
  }

  /** A step raises the mark exactly to what is buffered after it. */
  lemma StepMarks(w: World, step: Step)
    requires PipeInv(w.pipe)
    ensures var after := Apply(w, step).pipe;
            after.maxBuffered == if |Flatten(after.chunks)| > w.pipe.maxBuffered then |Flatten(after.chunks)| else w.pipe.maxBuffered
  {
    match step
    case Iterate =>
      if w.writer.Running? && w.writer.position < |w.writer.data| {
        WriteKeeps(w.pipe, w.writer.data, w.writer.position);
      }
    case ReadBytes(size) => ReadKeeps(w.pipe, size);
    case _ =>
  }

  /** `max_buffered` is the most that was buffered at any moment of the run. */
  lemma {:induction false} HighWaterMark(capacity: nat, run: seq<Step>) returns (k: nat)
    ensures k <= |run| && After(capacity, run).pipe.maxBuffered == BufferedAt(capacity, run, k)
    ensures forall j: nat | j <= |run| :: BufferedAt(capacity, run, j) <= After(capacity, run).pipe.maxBuffered
  {
    hide Apply, PipeInv;
    if run == [] {
      k := 0;
      assert run[..0] == [] && Flatten([]) == [];
    } else {
      var front, n := run[..|run|-1], |run| - 1;
      k := HighWaterMark(capacity, front);
      RunKeeps(capacity, front);
      StepMarks(After(capacity, front), run[n]);
      assert run[..|run|] == run;
      forall j: nat | j <= n ensures BufferedAt(capacity, run, j) == BufferedAt(capacity, front, j) {
        assert front[..j] == run[..j];
      }
      if After(capacity, run).pipe.maxBuffered > After(capacity, front).pipe.maxBuffered {
        k := |run|;
      }
    }
  }
}
