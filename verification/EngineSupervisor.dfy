/** The supervisor of the engine: an actor whose methods run without interruption between
    their `await`s. Each method below is one such stretch, proved equal to a function of the
    actor's fields; the loop's own variables live in the `Await` it is suspended at. */
module EngineSupervisor {
  import opened Basics
  import opened Text
  import opened RestartPolicy

  /** A launched process, a supervise task, and a stopping deadline, by identity. */
  type ProcessId = nat
  type TaskId = nat
  type DeadlineId = nat

  datatype Refusal = CommandRefused(detail: string) | CredentialsRefused(detail: string) | LaunchRefused(detail: string)

  datatype Health =
    | NotStarted
    | Running(process: ProcessId)
    | Restarting(after: int, attempt: nat)
    | Stopped(reason: StopReason)
    | CannotSpawn(refusal: Refusal)
    | ShutDown

  /** What one stretch does to the world outside the actor: the supervise task it creates, the
      deadlines it cancels, and the process it calls `requestStop` on, with a new deadline. */
  datatype Effects = Effects(spawned: Option<TaskId>, cancelled: set<DeadlineId>, stopping: Option<ProcessId>)

  const NOTHING := Effects(None, {}, None)

  /** Where the loop is suspended, with the local variables it still needs. */
  datatype Await =
    | Begin
    | Launch(startedAt: int)
    | Exit(process: ProcessId, startedAt: int, overhead: int, carried: Option<DeadlineId>)
    | Sleep(delay: int)
    | Finished

  datatype Chunk = Chunk(process: ProcessId, bytes: seq<int>)

  /** The fields of the actor. */
  datatype Actor = Actor(
    health: Health, stderr: seq<Chunk>, consecutiveFastFailures: nat,
    child: Option<ProcessId>, childHasExited: bool,
    supervision: Option<TaskId>, supervising: bool, shuttingDown: bool,
    replacementRequested: bool, replacementDeadline: Option<DeadlineId>, launching: bool)

  const FRESH := Actor(NotStarted, [], 0, None, false, None, false, false, false, None, false)

  datatype Turn = Turn(actor: Actor, effects: Effects, next: Await)

  // ----- what callers ask -----

  predicate MayStart(a: Actor) {
    !a.shuttingDown && !a.supervising
  }

  function StartTurn(a: Actor, task: TaskId): (Actor, Effects) {
    if !MayStart(a) then (a, NOTHING)
    else (a.(supervising := true, supervision := Some(task)), NOTHING.(spawned := Some(task)))
  }

  /** Whether `retry` does anything at all. */
  predicate RetryHeard(a: Actor) {
    !a.shuttingDown && !a.replacementRequested
  }

  function RetryTurn(a: Actor, task: TaskId, deadline: DeadlineId): (Actor, Effects) {
    if !RetryHeard(a) then (a, NOTHING)
    else
      var forgiven := a.(consecutiveFastFailures := 0, stderr := []);
      if !a.supervising then StartTurn(forgiven, task)
      else match a.child
        case None => (if a.launching then forgiven.(replacementRequested := true) else forgiven, NOTHING)
        case Some(process) =>
          (forgiven.(replacementRequested := true, replacementDeadline := Some(deadline)),
           NOTHING.(stopping := Some(process)))
  }

  function Named(deadline: Option<DeadlineId>): set<DeadlineId> {
    if deadline.Some? then {deadline.value} else {}
  }

  function WithoutReplacement(a: Actor): Actor {
    a.(replacementRequested := false, replacementDeadline := None)
  }

  /** `shutDown` up to its `await` of the supervise task. */
  function ShutDownTurn(a: Actor): (Actor, Effects) {
    (WithoutReplacement(a.(shuttingDown := true)), Effects(None, Named(a.replacementDeadline), a.child))
  }

  /** `shutDown` after that `await`. */
  function ShutDownDone(a: Actor): Actor {
    a.(supervision := None, health := ShutDown)
  }

  // ----- the loop, stretch by stretch -----

  /** The loop's end. */
  function Finish(a: Actor, ending: Option<Health>): Turn {
    var ended := a.(launching := false, supervising := false);
    Turn(if a.shuttingDown then ended.(health := ShutDown)
         else if ending.Some? then ended.(health := ending.value) else ended, NOTHING, Finished)
  }

  /** The loop's condition, the command, and the call of `launch`. */
  function LoopHead(a: Actor, resolved: Option<string>, now: int): Turn {
    if a.shuttingDown then Finish(a, None)
    else match resolved
      case Some(detail) => Finish(a, Some(CannotSpawn(CommandRefused(detail))))
      case None => Turn(a.(stderr := [], childHasExited := false, launching := true), NOTHING, Launch(now))
  }

  function Launched(a: Actor, process: ProcessId, startedAt: int, overhead: int, deadline: DeadlineId): Turn {
    var adopted := a.(launching := false, child := Some(process), health := Running(process));
    if a.shuttingDown || a.replacementRequested then
      Turn(adopted, NOTHING.(stopping := Some(process)), Exit(process, startedAt, overhead, Some(deadline)))
    else Turn(adopted, NOTHING, Exit(process, startedAt, overhead, None))
  }

  /** What the world answers a stretch that asks: the clock, the socket, the command. */
  datatype World = World(now: int, socketAnswers: bool, resolved: Option<string>)

  function RunLength(now: int, startedAt: int, overhead: int): int {
    Max(0, now - startedAt - overhead)
  }

  function Probe(p: Policy, exit: EngineExit, world: World): SocketProbe {
    if !p.ProbesTheSocket(exit) then NotProbed else if world.socketAnswers then Answered else Silent
  }

  function Exited(a: Actor, p: Policy, at: Await, code: int, world: World): Turn
    requires at.Exit?
  {
    var gone := a.(childHasExited := true, child := None);
    var carried := Named(at.carried);
    if a.shuttingDown then Finish(gone, None).(effects := NOTHING.(cancelled := carried))
    else if a.replacementRequested then
      LoopHead(WithoutReplacement(gone), world.resolved, world.now)
      .(effects := NOTHING.(cancelled := carried + Named(a.replacementDeadline)))
    else
      var exit := EngineExit(code, RunLength(world.now, at.startedAt, at.overhead));
      match p.Verdict(exit, Probe(p, exit, world), a.consecutiveFastFailures)
      case GiveUp(reason) => Finish(gone, Some(Stopped(reason))).(effects := NOTHING.(cancelled := carried))
      case Restart(delay, failures) =>
        Turn(gone.(consecutiveFastFailures := failures, health := Restarting(delay, failures + 1)),
             NOTHING.(cancelled := carried), Sleep(delay))
  }

  // ----- the actor -----

  class Supervisor {
    const policy: Policy
    var health: Health
    var stderr: seq<Chunk>
    var consecutiveFastFailures: nat
    var child: Option<ProcessId>
    var childHasExited: bool
    var supervision: Option<TaskId>
    var supervising: bool
    var shuttingDown: bool
    var replacementRequested: bool
    var replacementDeadline: Option<DeadlineId>
    var launching: bool

    function State(): Actor
      reads this
    {
      Actor(health, stderr, consecutiveFastFailures, child, childHasExited, supervision, supervising,
            shuttingDown, replacementRequested, replacementDeadline, launching)
    }

    constructor (policy: Policy)
      ensures State() == FRESH && this.policy == policy
    {
      this.policy := policy;
      health, stderr, consecutiveFastFailures := NotStarted, [], 0;
      child, childHasExited := None, false;
      supervision, supervising, shuttingDown := None, false, false;
      replacementRequested, replacementDeadline, launching := false, None, false;
    }

    method Start(task: TaskId) returns (effects: Effects)
      modifies this
      ensures (State(), effects) == StartTurn(old(State()), task)
    {
      if shuttingDown || supervising {
        return NOTHING;
      }
      supervising := true;
      supervision := Some(task);
      return NOTHING.(spawned := Some(task));
    }

    method Retry(task: TaskId, deadline: DeadlineId) returns (effects: Effects)
      modifies this
      ensures (State(), effects) == RetryTurn(old(State()), task, deadline)
    {
      if shuttingDown || replacementRequested {
        return NOTHING;
      }
      consecutiveFastFailures := 0;
      stderr := [];
      if !supervising {
        effects := Start(task);
        return effects;
      }
      if child.None? {
        if launching {
          replacementRequested := true;
        }
        return NOTHING;
      }
      replacementRequested := true;
      replacementDeadline := Some(deadline);
      return NOTHING.(stopping := child);
    }

    method CancelReplacement() returns (cancelled: set<DeadlineId>)
      modifies this
      ensures State() == WithoutReplacement(old(State()))
      ensures cancelled == Named(old(replacementDeadline))
    {
      replacementRequested := false;
      cancelled := if replacementDeadline.Some? then {replacementDeadline.value} else {};
      replacementDeadline := None;
    }

    method BeginShutDown() returns (effects: Effects)
      modifies this
      ensures (State(), effects) == ShutDownTurn(old(State()))
    {
      shuttingDown := true;
      var cancelled := CancelReplacement();
      effects := Effects(None, cancelled, child);
    }

    method EndShutDown()
      modifies this
      ensures State() == ShutDownDone(old(State()))
    {
      supervision := None;
      health := ShutDown;
    }

    method EndLoop(ending: Option<Health>) returns (next: Await)
      modifies this
      ensures Turn(State(), NOTHING, next) == Finish(old(State()), ending)
    {
      launching := false;
      supervising := false;
      if ending.Some? && !shuttingDown {
        health := ending.value;
      }
      if shuttingDown {
        health := ShutDown;
      }
      next := Finished;
    }

    method EnterLoop(resolved: Option<string>, now: int) returns (next: Await)
      modifies this
      ensures Turn(State(), NOTHING, next) == LoopHead(old(State()), resolved, now)
    {
      if shuttingDown {
        next := EndLoop(None);
        return;
      }
      if resolved.Some? {
        next := EndLoop(Some(CannotSpawn(CommandRefused(resolved.value))));
        return;
      }
      stderr := [];
      childHasExited := false;
      launching := true;
      next := Launch(now);
    }

    method LaunchReturned(process: ProcessId, startedAt: int, overhead: int, deadline: DeadlineId)
      returns (effects: Effects, next: Await)
      modifies this
      ensures Turn(State(), effects, next) == Launched(old(State()), process, startedAt, overhead, deadline)
    {
      launching := false;
      child := Some(process);
      effects := NOTHING;
      var stoppingCarried := None;
      if shuttingDown || replacementRequested {
        effects := NOTHING.(stopping := Some(process));
        stoppingCarried := Some(deadline);
      }
      health := Running(process);
      next := Exit(process, startedAt, overhead, stoppingCarried);
    }

    method LaunchThrew(refusal: Refusal) returns (next: Await)
      modifies this
      ensures Turn(State(), NOTHING, next) == Finish(old(State()), Some(CannotSpawn(refusal)))
    {
      next := EndLoop(Some(CannotSpawn(refusal)));
    }

    method ExitReturned(at: Await, code: int, world: World) returns (effects: Effects, next: Await)
      requires at.Exit?
      modifies this
      ensures Turn(State(), effects, next) == Exited(old(State()), policy, at, code, world)
    {
      effects := NOTHING.(cancelled := Named(at.carried));
      childHasExited := true;
      child := None;
      if shuttingDown {
        next := EndLoop(None);
        return;
      }
      if replacementRequested {
        var cancelled := CancelReplacement();
        effects := NOTHING.(cancelled := Named(at.carried) + cancelled);
        next := EnterLoop(world.resolved, world.now);
        return;
      }
      var exit := EngineExit(code, RunLength(world.now, at.startedAt, at.overhead));
      var probe := Probe(policy, exit, world);
      match policy.Verdict(exit, probe, consecutiveFastFailures) {
        case GiveUp(reason) =>
          next := EndLoop(Some(Stopped(reason)));
        case Restart(delay, failures) =>
          consecutiveFastFailures := failures;
          health := Restarting(delay, failures + 1);
          next := Sleep(delay);
      }
    }

    method Received(chunk: Chunk)
      modifies this
      ensures State() == old(State()).(stderr := old(stderr) + [chunk])
    {
      stderr := stderr + [chunk];
    }
  }
}
