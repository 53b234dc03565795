/** The way of a child's words to the supervisor: the inherited pipe, the one reader, a first
    stream, the delivery task, a second stream, and the loop of `waitForExit`; beside it the
    exit latch and the closing that ends the second stream. Every part takes its steps when the
    scheduler lets it. */
module StderrPipeline {
  import opened Basics
  import opened Text
  import opened StderrLines
  import opened StderrRing
  import OneShot

  type Bytes = seq<Byte>

  /** An unbounded stream: what was yielded and not yet taken. */
  datatype Stream = Stream(queue: seq<Bytes>, finished: bool)

  function Yield(s: Stream, chunk: Bytes): Stream {
    if s.finished then s else s.(queue := s.queue + [chunk])
  }

  function Finish(s: Stream): Stream {
    s.(finished := true)
  }

  /** A loop over a stream: waiting for the next chunk, delivering one, or past the end. */
  datatype Loop = Waiting | Delivering(chunk: Bytes) | Ended

  predicate MayTake(s: Stream, l: Loop) {
    l.Waiting? && (s.queue != [] || s.finished)
  }

  function TakeFrom(s: Stream, l: Loop): (Stream, Loop)
    requires MayTake(s, l)
  {
    if s.queue != [] then (s.(queue := s.queue[1..]), Delivering(s.queue[0])) else (s, Ended)
  }

  // ----- the reader -----

  datatype Reader = Reader(monitoring: bool, chunks: Stream, delivery: Loop)

  /** The readability handler, given what is available; nothing available is the end. */
  function Readable(r: Reader, available: Bytes): Reader {
    if !r.monitoring then r
    else if available != [] then r.(chunks := Yield(r.chunks, available))
    else r.(monitoring := false, chunks := Finish(r.chunks))
  }

  function Abandoned(r: Reader): Reader {
    r.(monitoring := false, chunks := Finish(r.chunks))
  }

  class InheritedStderr {
    var monitoring: bool
    var chunks: Stream
    var delivery: Loop

    function State(): Reader
      reads this
    {
      Reader(monitoring, chunks, delivery)
    }

    /** `init`, then `read`: the delivery task exists and the watch is up. */
    constructor ()
      ensures State() == Reader(true, Stream([], false), Waiting)
    {
      chunks := Stream([], false);
      delivery := Waiting;
      monitoring := true;
    }

    method HandleReadable(available: Bytes)
      modifies this
      ensures State() == Readable(old(State()), available)
    {
      if !monitoring {
        return;
      }
      if available != [] {
        chunks := Yield(chunks, available);
        return;
      }
      monitoring := false;
      chunks := Finish(chunks);
    }

    method DeliveryTakes()
      requires MayTake(chunks, delivery)
      modifies this
      ensures (chunks, delivery) == TakeFrom(old(chunks), old(delivery)) && monitoring == old(monitoring)
    {
      if chunks.queue != [] {
        delivery := Delivering(chunks.queue[0]);
        chunks := chunks.(queue := chunks.queue[1..]);
      } else {
        delivery := Ended;
      }
    }

    method Abandon()
      modifies this
      ensures State() == Abandoned(old(State()))
    {
      monitoring := false;
      chunks := Finish(chunks);
    }
  }

  /** After a spawn that never happened, nothing keeps the delivery task: its next turn is its
      last, though no writer ever closed. */
  lemma AbandonEndsDelivery(r: Reader)
    requires r.chunks.queue == [] && r.delivery.Waiting?
    ensures MayTake(Abandoned(r).chunks, r.delivery)
    ensures TakeFrom(Abandoned(r).chunks, r.delivery).1.Ended?
    ensures forall available :: Readable(Abandoned(r), available) == Abandoned(r)
  {
  }

  // ----- the whole run of one child -----

  /** The task of the termination handler: it waits for the delivery task, then ends the
      second stream. */
  datatype Closing = NotStarted | Draining | Closed

  /** `waitForExit`: its loop, then the wait for the latch, then its result. */
  datatype Caller = Reading(loop: Loop) | Returned(code: int)

  datatype Run = Run(
    written: Bytes, pipe: Bytes, writers: nat, death: Option<int>,
    reader: Reader, second: Stream, latch: Option<int>, closing: Closing,
    caller: Caller, delivered: seq<Bytes>)

  const SPAWNED := Run([], [], 1, None, Reader(true, Stream([], false), Waiting), Stream([], false),
                       None, NotStarted, Reading(Waiting), [])

  datatype Event =
    | Writes(bytes: Bytes)
    | Inherits
    | Closes
    | Dies(code: int)
    | HandlerRuns(available: nat)
    | DeliveryTakes
    | DeliveryYields
    | TerminationHandled
    | SecondStreamEnds
    | CallerTakes
    | CallerDelivers
    | CallerReturns

  predicate Enabled(r: Run, e: Event) {
    match e
    case Writes(bytes) => r.writers > 0 && bytes != []
    case Inherits => r.writers > 0
    case Closes => r.writers > 0
    case Dies(_) => r.death.None?
    case HandlerRuns(n) =>
      n <= |r.pipe| && (n == 0 ==> r.pipe == [] && r.writers == 0)
    case DeliveryTakes => MayTake(r.reader.chunks, r.reader.delivery)
    case DeliveryYields => r.reader.delivery.Delivering?
    case TerminationHandled => r.death.Some? && r.closing.NotStarted?
    case SecondStreamEnds => r.closing.Draining? && r.reader.delivery.Ended?
    case CallerTakes => r.caller.Reading? && MayTake(r.second, r.caller.loop)
    case CallerDelivers => r.caller.Reading? && r.caller.loop.Delivering?
    case CallerReturns => r.caller.Reading? && r.caller.loop.Ended? && r.latch.Some?
  }

  function Step(r: Run, e: Event): Run
    requires Enabled(r, e)
  {
    match e
    case Writes(bytes) => r.(written := r.written + bytes, pipe := r.pipe + bytes)
    case Inherits => r.(writers := r.writers + 1)
    case Closes => r.(writers := r.writers - 1)
    case Dies(code) => r.(death := Some(code))
    case HandlerRuns(n) => r.(pipe := r.pipe[n..], reader := Readable(r.reader, r.pipe[..n]))
    case DeliveryTakes =>
      var (chunks, delivery) := TakeFrom(r.reader.chunks, r.reader.delivery);
      r.(reader := r.reader.(chunks := chunks, delivery := delivery))
    case DeliveryYields =>
      r.(second := Yield(r.second, r.reader.delivery.chunk), reader := r.reader.(delivery := Waiting))
    case TerminationHandled =>
      r.(latch := OneShot.Resolved(OneShot.Latch(r.latch, []), r.death.value).0.stored, closing := Draining)
    case SecondStreamEnds => r.(second := Finish(r.second), closing := Closed)
    case CallerTakes =>
      var (second, loop) := TakeFrom(r.second, r.caller.loop);
      r.(second := second, caller := Reading(loop))
    case CallerDelivers => r.(delivered := r.delivered + [r.caller.loop.chunk], caller := Reading(Waiting))
    case CallerReturns => r.(caller := Returned(r.latch.value))
  }

  predicate Valid(r: Run, run: seq<Event>)
    decreases |run|
  {
    run == [] || (Enabled(r, run[0]) && Valid(Step(r, run[0]), run[1..]))
  }

  function After(r: Run, run: seq<Event>): Run
    requires Valid(r, run)
    decreases |run|
  {
    if run == [] then r else After(Step(r, run[0]), run[1..])
  }

  // ----- nothing is lost, doubled or reordered -----

  function InHand(l: Loop): seq<Bytes> {
    if l.Delivering? then [l.chunk] else []
  }

  function CallerHand(c: Caller): seq<Bytes> {
    if c.Reading? then InHand(c.loop) else []
  }

  /** Every chunk that has left the pipe, in the order the chunks are in. */
  function Line(r: Run): seq<Bytes> {
    r.delivered + CallerHand(r.caller) + r.second.queue + InHand(r.reader.delivery) + r.reader.chunks.queue
  }

  ghost predicate Inv(r: Run) {
    && Concat(Line(r)) + r.pipe == r.written
    && (!r.reader.monitoring ==> r.pipe == [] && r.writers == 0)
    && (r.reader.chunks.finished <==> !r.reader.monitoring)
    && (r.reader.delivery.Ended? ==> r.reader.chunks == Stream([], true))
    && (r.second.finished <==> r.closing.Closed?)
    && (r.second.finished ==> r.reader.delivery.Ended?)
    && (r.closing.NotStarted? <==> r.latch.None?)
    && (r.latch.Some? ==> r.latch == r.death)
    && (r.caller.Returned? ==> r.latch == Some(r.caller.code))
    && (r.caller.Returned? || r.caller.loop.Ended? ==> r.second == Stream([], true))
  }

  lemma {:induction false} ConcatJoin(a: seq<Bytes>, b: seq<Bytes>)
    ensures Concat(a + b) == Concat(a) + Concat(b)
    decreases |b|
  {
    if b == [] {
      assert a + b == a;
    } else {
      ConcatJoin(a, b[..|b| - 1]);
      assert (a + b)[..|a + b| - 1] == a + b[..|b| - 1];
      assert (a + b)[|a + b| - 1] == b[|b| - 1];
    }
  }

  /** Only the handler changes what is in the line, and it takes what it adds from the pipe. */
  lemma LineKept(r: Run, e: Event)
    requires Inv(r) && Enabled(r, e) && !e.HandlerRuns?
    ensures Line(Step(r, e)) == Line(r)
  {
    if e.DeliveryTakes? || e.DeliveryYields? {
      DeliveryKeepsLine(r, e);
    } else if e.CallerTakes? || e.CallerDelivers? || e.CallerReturns? {
      CallerKeepsLine(r, e);
    }
  }

  lemma DeliveryKeepsLine(r: Run, e: Event)
    requires Inv(r) && Enabled(r, e) && (e.DeliveryTakes? || e.DeliveryYields?)
    ensures Line(Step(r, e)) == Line(r)
  {
  }

  lemma CallerKeepsLine(r: Run, e: Event)
    requires Inv(r) && Enabled(r, e) && (e.CallerTakes? || e.CallerDelivers? || e.CallerReturns?)
    ensures Line(Step(r, e)) == Line(r)
  {
  }

  lemma LineGrows(r: Run, n: nat)
    requires Inv(r) && Enabled(r, HandlerRuns(n))
    ensures Line(Step(r, HandlerRuns(n))) == Line(r) + if n == 0 then [] else [r.pipe[..n]]
  {
  }

  lemma ConservedByHandler(r: Run, n: nat)
    requires Inv(r) && Enabled(r, HandlerRuns(n))
    ensures var r' := Step(r, HandlerRuns(n)); Concat(Line(r')) + r'.pipe == r'.written
  {
    var r' := Step(r, HandlerRuns(n));
    LineGrows(r, n);
    if n == 0 {
      assert Line(r') == Line(r) && r'.pipe == r.pipe;
    } else {
      var chunk := r.pipe[..n];
      assert (Line(r) + [chunk])[..|Line(r)|] == Line(r);
      assert Concat(Line(r')) == Concat(Line(r)) + chunk;
      Regrouped(Concat(Line(r)), r.pipe, n);
    }
  }

  lemma Regrouped(x: Bytes, pipe: Bytes, n: nat)
    requires n <= |pipe|
    ensures (x + pipe[..n]) + pipe[n..] == x + pipe
  {
  }

  lemma StepKeeps(r: Run, e: Event)
    requires Inv(r) && Enabled(r, e)
    ensures Inv(Step(r, e))
  {
    var r' := Step(r, e);
    if e.HandlerRuns? {
      ConservedByHandler(r, e.available);
    } else {
      LineKept(r, e);
      if e.Writes? {
        Associates(Concat(Line(r)), r.pipe, e.bytes);
      }
      assert Concat(Line(r')) + r'.pipe == r'.written;
    }
  }

  lemma {:induction false} RunKeeps(r: Run, run: seq<Event>)
    requires Inv(r) && Valid(r, run)
    ensures Inv(After(r, run))
    decreases |run|
  {
    if run == [] {
    } else {
      StepKeeps(r, run[0]);
      RunKeeps(Step(r, run[0]), run[1..]);
    }
  }

  /** At every moment of every run: what was delivered, then what the caller holds, then the
      second stream, then what the delivery task holds, then the first stream, then the pipe,
      is what the child's writers wrote, in order. */
  lemma NothingLostOrReordered(run: seq<Event>)
    requires Valid(SPAWNED, run)
    ensures var r := After(SPAWNED, run);
            && Concat(r.delivered) <= r.written
            && Concat(r.delivered) + Concat(CallerHand(r.caller)) + Concat(r.second.queue)
               + Concat(InHand(r.reader.delivery)) + Concat(r.reader.chunks.queue) + r.pipe == r.written
  {
    RunKeeps(SPAWNED, run);
    ConcatLine(After(SPAWNED, run));
  }

  lemma ConcatLine(r: Run)
    ensures Concat(Line(r)) == Concat(r.delivered) + Concat(CallerHand(r.caller)) + Concat(r.second.queue)
                             + Concat(InHand(r.reader.delivery)) + Concat(r.reader.chunks.queue)
    ensures Concat(r.delivered) <= Concat(Line(r))
  {
    var a, b, c := r.delivered, CallerHand(r.caller), r.second.queue;
    var d, e := InHand(r.reader.delivery), r.reader.chunks.queue;
    ConcatJoin(a + b + c + d, e);
    ConcatJoin(a + b + c, d);
    ConcatJoin(a + b, c);
    ConcatJoin(a, b);
  }

  /** When `waitForExit` returns, it returns the code the process died with, the latch is set,
      no writer is left, and every byte that was ever written has been delivered. */
  lemma ReturnsWithEverything(run: seq<Event>)
    requires Valid(SPAWNED, run) && After(SPAWNED, run).caller.Returned?
    ensures var r := After(SPAWNED, run);
            && Concat(r.delivered) == r.written && r.writers == 0
            && r.latch == r.death == Some(r.caller.code)
  {
    RunKeeps(SPAWNED, run);
    var r := After(SPAWNED, run);
    assert Line(r) == r.delivered;
  }

  lemma DoneStep(r: Run, e: Event)
    requires Inv(r) && r.caller.Returned? && Enabled(r, e)
    ensures Step(r, e) == r
  {
  }

  /** Nothing of the run happens after that: a late turn of the handler changes nothing, and
      no other step is left. */
  lemma {:induction false} NothingAfterTheExit(r: Run, run: seq<Event>)
    requires Inv(r) && r.caller.Returned? && Valid(r, run)
    ensures After(r, run) == r
    decreases |run|
  {
    if run == [] {
    } else {
      DoneStep(r, run[0]);
      NothingAfterTheExit(r, run[1..]);
    }
  }

  // ----- the exit is not waited for in vain -----

  function LoopSteps(l: Loop): nat {
    match l case Ended => 0 case Waiting => 1 case Delivering(_) => 2
  }

  function CallerSteps(c: Caller): nat {
    if c.Returned? then 0 else 1 + LoopSteps(c.loop)
  }

  /** How many steps the parts of the pipeline have left once nobody writes. */
  function StepsLeft(r: Run): nat {
    5 * |r.pipe| + (if r.reader.monitoring then 1 else 0)
    + 4 * |r.reader.chunks.queue| + (match r.reader.delivery case Ended => 0 case Waiting => 1 case Delivering(_) => 4)
    + 2 * |r.second.queue| + CallerSteps(r.caller)
    + (match r.closing case NotStarted => 2 case Draining => 1 case Closed => 0)
  }

  /** Once the process is dead and the last writer has closed, each step brings the return of
      `waitForExit` nearer - but for a late turn of the handler, which changes nothing. */
  lemma ExitComesNearer(r: Run, e: Event)
    requires Inv(r) && Enabled(r, e) && r.writers == 0 && r.death.Some?
    ensures StepsLeft(Step(r, e)) < StepsLeft(r) || Step(r, e) == r
  {
    if e.HandlerRuns? {
      HandlerComesNearer(r, e.available);
    } else if e.CallerTakes? || e.CallerDelivers? || e.CallerReturns? {
      CallerComesNearer(r, e);
    }
  }

  lemma HandlerComesNearer(r: Run, n: nat)
    requires Inv(r) && Enabled(r, HandlerRuns(n)) && r.writers == 0
    ensures StepsLeft(Step(r, HandlerRuns(n))) < StepsLeft(r) || Step(r, HandlerRuns(n)) == r
  {
  }

  lemma CallerComesNearer(r: Run, e: Event)
    requires Inv(r) && Enabled(r, e) && (e.CallerTakes? || e.CallerDelivers? || e.CallerReturns?)
    ensures StepsLeft(Step(r, e)) < StepsLeft(r)
  {
  }

  function NextStep(r: Run): Event {
    if r.caller.Reading? && r.caller.loop.Delivering? then CallerDelivers
    else if r.caller.Reading? && MayTake(r.second, r.caller.loop) then CallerTakes
    else if r.closing.NotStarted? then TerminationHandled
    else if r.closing.Closed? then CallerReturns
    else if r.reader.monitoring then HandlerRuns(|r.pipe|)
    else if r.reader.delivery.Delivering? then DeliveryYields
    else if r.reader.delivery.Waiting? then DeliveryTakes
    else SecondStreamEnds
  }

  /** Until it has returned, there is a step that does. */
  lemma ExitIsNeverStuck(r: Run)
    requires Inv(r) && r.writers == 0 && r.death.Some? && !r.caller.Returned?
    ensures Enabled(r, NextStep(r)) && StepsLeft(Step(r, NextStep(r))) < StepsLeft(r)
  {
  }

  // ----- what the person reads -----

  /** The ring fed by `waitForExit` ends with the last fifty lines of what was written. */
  lemma RingShowsTheLastLines(run: seq<Event>)
    requires Valid(SPAWNED, run) && After(SPAWNED, run).caller.Returned?
    ensures var r := After(SPAWNED, run);
            exists lines, tail ::
              IsStream(r.written, lines, tail) && Held(Fed(r.delivered)) == LastFifty(Shown(lines, tail))
  {
    var r := After(SPAWNED, run);
    ReturnsWithEverything(run);
    EveryStreamIsLines(r.written);
    var lines, tail :| IsStream(r.written, lines, tail);
    RingShows(r.delivered, lines, tail);
  }
}
