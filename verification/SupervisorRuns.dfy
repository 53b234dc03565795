/** The supervisor among its callers, its processes and its deadlines: one step of this
    system is one uninterrupted stretch of the actor, or one thing the world does. The steps
    may come in any order that the `await`s allow. */
module SupervisorRuns {
  import opened Basics
  import opened Text
  import opened RestartPolicy
  import opened EngineSupervisor

  /** `exited` is the latch `hasExited` reads; `awaited`, that `waitForExit` has returned. */
  datatype Process = Process(asked: bool, forced: bool, exited: bool, awaited: bool)

  datatype Timer = Waiting | Cancelled | Fired

  datatype Deadline = Deadline(process: ProcessId, timer: Timer)

  /** A call of `shutDown`, awaiting a supervise task. */
  datatype Closer = Closer(task: Option<TaskId>, deadline: Option<DeadlineId>, returned: bool)

  /** Since the last reset (a retry, or a run that took hold): the delays of the restarts.
      Since the last reset, replacement, or start of a loop: the launches. */
  datatype History = History(delays: seq<int>, launches: nat)

  datatype System = System(
    actor: Actor, loops: map<TaskId, Await>, tasks: nat, processes: seq<Process>,
    deadlines: seq<Deadline>, closers: seq<Closer>, history: History)

  const INITIAL := System(FRESH, map[], 0, [], [], [], History([], 0))

  datatype Event =
    | CallStart
    | CallRetry
    | CallShutDown
    | ShutDownReturns(closer: nat)
    | LoopBegins(task: TaskId, world: World)
    | LaunchReturns(task: TaskId, overhead: int)
    | LaunchThrows(task: TaskId, refusal: Refusal)
    | ExitReturns(task: TaskId, code: int, world: World)
    | SleepEnds(task: TaskId, world: World)
    | Delivers(task: TaskId, bytes: seq<int>)
    | ProcessExits(process: ProcessId)
    | DeadlineFires(deadline: DeadlineId)

  predicate Enabled(s: System, e: Event) {
    match e
    case CallStart => true
    case CallRetry => true
    case CallShutDown => true
    case ShutDownReturns(k) =>
      k < |s.closers| && !s.closers[k].returned && (s.closers[k].task.None? || s.closers[k].task.value !in s.loops)
    case LoopBegins(t, _) => t in s.loops && s.loops[t].Begin?
    case LaunchReturns(t, _) => t in s.loops && s.loops[t].Launch?
    case LaunchThrows(t, _) => t in s.loops && s.loops[t].Launch?
    case ExitReturns(t, _, _) =>
      t in s.loops && s.loops[t].Exit? && s.loops[t].process < |s.processes| && s.processes[s.loops[t].process].exited
    case SleepEnds(t, _) => t in s.loops && s.loops[t].Sleep?
    case Delivers(t, _) => t in s.loops && s.loops[t].Exit?
    case ProcessExits(q) => q < |s.processes| && !s.processes[q].exited
    case DeadlineFires(d) =>
      d < |s.deadlines| && s.deadlines[d].timer.Waiting? && s.deadlines[d].process < |s.processes|
  }

  // ----- what effects do -----

  function CancelAll(deadlines: seq<Deadline>, cancelled: set<DeadlineId>): (r: seq<Deadline>)
    ensures |r| == |deadlines|
    ensures forall d :: 0 <= d < |r| ==> r[d].process == deadlines[d].process
    ensures forall d :: 0 <= d < |r| ==>
              r[d].timer == if d in cancelled && deadlines[d].timer.Waiting? then Cancelled else deadlines[d].timer
  {
    seq(|deadlines|, d requires 0 <= d < |deadlines| =>
      if d in cancelled && deadlines[d].timer.Waiting? then deadlines[d].(timer := Cancelled) else deadlines[d])
  }

  function Ask(processes: seq<Process>, q: Option<ProcessId>): (r: seq<Process>)
    ensures |r| == |processes|
  {
    if q.Some? && q.value < |processes| then processes[q.value := processes[q.value].(asked := true)] else processes
  }

  function Perform(s: System, actor: Actor, effects: Effects): System {
    s.(actor := actor,
       loops := if effects.spawned.Some? then s.loops[effects.spawned.value := Begin] else s.loops,
       tasks := if effects.spawned.Some? then s.tasks + 1 else s.tasks,
       processes := Ask(s.processes, effects.stopping),
       deadlines := CancelAll(s.deadlines, effects.cancelled) +
                    if effects.stopping.Some? then [Deadline(effects.stopping.value, Waiting)] else [])
  }

  function Resume(loops: map<TaskId, Await>, t: TaskId, next: Await): map<TaskId, Await> {
    if next.Finished? then loops - {t} else loops[t := next]
  }

  /** One stretch of the loop of task `t`. */
  function Take(s: System, t: TaskId, turn: Turn): System {
    var s' := Perform(s, turn.actor, turn.effects);
    s'.(loops := Resume(s.loops, t, turn.next),
        history := if turn.next.Launch? then s.history.(launches := s.history.launches + 1) else s.history)
  }

  const NO_HISTORY := History([], 0)

  /** What an exit means for the history, before the loop goes on. */
  function Judged(h: History, a: Actor, turn: Turn): History {
    if a.shuttingDown then h
    else if a.replacementRequested then h.(launches := 0)
    else if turn.next.Sleep? && turn.actor.consecutiveFastFailures == 0 then NO_HISTORY
    else if turn.next.Sleep? then h.(delays := h.delays + [turn.next.delay])
    else h
  }

  function Step(s: System, p: Policy, e: Event): System
    requires Enabled(s, e)
  {
    var a := s.actor;
    match e
    case CallStart =>
      var (actor, effects) := StartTurn(a, s.tasks);
      Perform(s, actor, effects).(history := if MayStart(a) then s.history.(launches := 0) else s.history)
    case CallRetry =>
      var (actor, effects) := RetryTurn(a, s.tasks, |s.deadlines|);
      Perform(s, actor, effects).(history := if RetryHeard(a) then NO_HISTORY else s.history)
    case CallShutDown =>
      var (actor, effects) := ShutDownTurn(a);
      Perform(s, actor, effects)
      .(closers := s.closers + [Closer(a.supervision, if a.child.Some? then Some(|s.deadlines|) else None, false)])
    case ShutDownReturns(k) =>
      s.(actor := ShutDownDone(a), closers := s.closers[k := s.closers[k].(returned := true)],
         deadlines := CancelAll(s.deadlines, Named(s.closers[k].deadline)))
    case LoopBegins(t, world) => Take(s, t, LoopHead(a, world.resolved, world.now))
    case SleepEnds(t, world) => Take(s, t, LoopHead(a, world.resolved, world.now))
    case LaunchReturns(t, overhead) =>
      var q := |s.processes|;
      Take(s.(processes := s.processes + [Process(false, false, false, false)]), t,
           Launched(a, q, s.loops[t].startedAt, overhead, |s.deadlines|))
    case LaunchThrows(t, refusal) => Take(s, t, Finish(a, Some(CannotSpawn(refusal))))
    case ExitReturns(t, code, world) =>
      var q := s.loops[t].process;
      var turn := Exited(a, p, s.loops[t], code, world);
      Take(s.(processes := s.processes[q := s.processes[q].(awaited := true)],
              history := Judged(s.history, a, turn)), t, turn)
    case Delivers(t, bytes) => s.(actor := a.(stderr := a.stderr + [Chunk(s.loops[t].process, bytes)]))
    case ProcessExits(q) => s.(processes := s.processes[q := s.processes[q].(exited := true)])
    case DeadlineFires(d) =>
      var q := s.deadlines[d].process;
      s.(deadlines := s.deadlines[d := s.deadlines[d].(timer := Fired)],
         processes := if s.processes[q].exited then s.processes
                      else s.processes[q := s.processes[q].(forced := true)])
  }

  predicate Valid(s: System, p: Policy, run: seq<Event>)
    decreases |run|
  {
    run == [] || (Enabled(s, run[0]) && Valid(Step(s, p, run[0]), p, run[1..]))
  }

  function After(s: System, p: Policy, run: seq<Event>): System
    requires Valid(s, p, run)
    decreases |run|
  {
    if run == [] then s else After(Step(s, p, run[0]), p, run[1..])
  }

  // ----- the invariant -----

  /** One supervise loop at most, and the actor's fields say where it is. */
  ghost predicate LoopInv(s: System) {
    && (forall t :: t in s.loops ==> t < s.tasks && s.actor.supervision == Some(t))
    && (s.actor.supervising <==> s.actor.supervision.Some? && s.actor.supervision.value in s.loops)
    && (s.actor.supervision.Some? ==> s.actor.supervision.value < s.tasks)
    && (!s.actor.supervising ==> s.actor.child == None && !s.actor.launching)
    && (s.actor.supervising ==> At(s.actor, s.loops[s.actor.supervision.value]))
  }

  ghost predicate At(a: Actor, at: Await) {
    match at
    case Launch(_) => a.child == None && a.launching && a.stderr == []
    case Exit(q, _, _, _) => a.child == Some(q) && !a.launching && a.health == Running(q)
    case Finished => false
    case _ => a.child == None && !a.launching
  }

  /** At most one process is outstanding: the actor's child. */
  ghost predicate ProcessInv(s: System) {
    && (s.actor.child.Some? ==> s.actor.child.value + 1 == |s.processes|)
    && (forall q :: 0 <= q < |s.processes| && !s.processes[q].awaited ==> s.actor.child == Some(q))
    && (s.actor.child.Some? ==> !s.processes[s.actor.child.value].awaited)
    && (forall q :: 0 <= q < |s.processes| ==>
          && (s.processes[q].awaited ==> s.processes[q].exited)
          && (s.processes[q].forced ==> s.processes[q].asked))
    && (forall c :: c in s.actor.stderr ==> c.process + 1 == |s.processes|)
  }

  /** The grace of a process that was asked is still running, or was used. */
  ghost predicate Guarded(s: System, q: ProcessId) {
    exists d :: 0 <= d < |s.deadlines| && s.deadlines[d].process == q && !s.deadlines[d].timer.Cancelled?
  }

  /** Whoever must stop has been asked to, with a deadline behind the asking. */
  ghost predicate StopInv(s: System) {
    var a := s.actor;
    && (a.shuttingDown ==> !a.replacementRequested)
    && (a.replacementDeadline.Some? ==>
          && a.replacementRequested && a.child.Some? && a.replacementDeadline.value < |s.deadlines|
          && s.deadlines[a.replacementDeadline.value].process == a.child.value)
    && (a.child.Some? && a.child.value < |s.processes| && (a.shuttingDown || a.replacementRequested) ==>
          s.processes[a.child.value].asked)
    && (a.child.Some? && a.child.value < |s.processes| && s.processes[a.child.value].asked ==>
          Guarded(s, a.child.value) && (a.shuttingDown || a.replacementRequested))
    && (forall d :: 0 <= d < |s.deadlines| ==>
          && s.deadlines[d].process < |s.processes|
          && s.processes[s.deadlines[d].process].asked
          && (s.deadlines[d].timer.Fired? ==>
                s.processes[s.deadlines[d].process].forced || s.processes[s.deadlines[d].process].exited))
  }

  /** A call of `shutDown` returns to an actor with no loop, and none after. */
  ghost predicate CloserInv(s: System) {
    && (s.closers != [] ==> s.actor.shuttingDown)
    && (forall k :: 0 <= k < |s.closers| ==> CloserOk(s.actor, s.closers[k]))
  }

  predicate CloserOk(a: Actor, closer: Closer) {
    if closer.returned then !a.supervising && a.health == ShutDown
    else a.supervising ==> closer.task == a.supervision
  }

  /** The failures counted are the delays slept since the count was reset. */
  ghost predicate CountInv(s: System, p: Policy) {
    var a, h := s.actor, s.history;
    && (a.consecutiveFastFailures == 0 || a.consecutiveFastFailures < p.failureCeiling)
    && h.delays == Ladder(p, a.consecutiveFastFailures)
    && (a.replacementRequested ==> a.consecutiveFastFailures == 0)
    && h.launches <= Max(p.failureCeiling, 1)
    && (a.supervising && a.supervision.Some? && a.supervision.value in s.loops ==>
          match s.loops[a.supervision.value]
          case Begin => h.launches == 0
          case Sleep(_) => h.launches <= a.consecutiveFastFailures
          case _ => h.launches <= a.consecutiveFastFailures + 1)
  }

  /** What the person is shown: running and restarting only while a loop is there for it. */
  ghost predicate HealthInv(s: System) {
    var a := s.actor;
    && (!a.supervising ==> !a.health.Running? && !a.health.Restarting?)
    && (forall t :: t in s.loops && s.loops[t].Sleep? ==> a.health.Restarting? && a.health.after == s.loops[t].delay)
  }

  ghost predicate Inv(s: System, p: Policy) {
    LoopInv(s) && ProcessInv(s) && StopInv(s) && CloserInv(s) && CountInv(s, p) && HealthInv(s)
  }

  lemma InitialInv(p: Policy)
    ensures Inv(INITIAL, p)
  {
  }

  // ----- every step keeps it -----

  predicate IsCall(e: Event) {
    e.CallStart? || e.CallRetry? || e.CallShutDown? || e.ShutDownReturns?
  }

  predicate IsWorld(e: Event) {
    e.Delivers? || e.ProcessExits? || e.DeadlineFires?
  }

  /** The stretches of the loop that begin with no process to wait for. */
  predicate IsLoop(e: Event) {
    e.LoopBegins? || e.SleepEnds? || e.LaunchThrows?
  }

  lemma GuardedKept(s: System, s': System, q: ProcessId)
    requires Guarded(s, q) && |s.deadlines| <= |s'.deadlines|
    requires forall d :: 0 <= d < |s.deadlines| ==>
               && s'.deadlines[d].process == s.deadlines[d].process
               && (s'.deadlines[d].timer.Cancelled? ==> s.deadlines[d].timer.Cancelled?)
    ensures Guarded(s', q)
  {
  }

  lemma NewGuard(s: System, q: ProcessId)
    requires s.deadlines != [] && s.deadlines[|s.deadlines| - 1] == Deadline(q, Waiting)
    ensures Guarded(s, q)
  {
  }

  lemma CallKeepsLoopInv(s: System, p: Policy, e: Event)
    requires Inv(s, p) && Enabled(s, e) && IsCall(e)
    ensures LoopInv(Step(s, p, e))
  {
  }

  lemma CallKeepsProcessInv(s: System, p: Policy, e: Event)
    requires Inv(s, p) && Enabled(s, e) && IsCall(e)
    ensures ProcessInv(Step(s, p, e))
  {
  }

  lemma RetryKeepsStopInv(s: System, p: Policy)
    requires Inv(s, p)
    ensures StopInv(Step(s, p, CallRetry))
  {
    var s' := Step(s, p, CallRetry);
    var child := s.actor.child;
    if child.Some? && s.processes[child.value].asked {
      GuardedKept(s, s', child.value);
    } else if child.Some? && s'.processes[child.value].asked {
      NewGuard(s', child.value);
    }
  }

  lemma CallKeepsStopInv(s: System, p: Policy, e: Event)
    requires Inv(s, p) && Enabled(s, e) && IsCall(e) && !e.CallRetry?
    ensures StopInv(Step(s, p, e))
  {
    var s' := Step(s, p, e);
    var child := s.actor.child;
    if child.Some? {
      if e.CallShutDown? {
        NewGuard(s', child.value);
      } else if s.processes[child.value].asked {
        GuardedKept(s, s', child.value);
      }
    }
  }

  lemma CallKeepsCloserInv(s: System, p: Policy, e: Event)
    requires Inv(s, p) && Enabled(s, e) && IsCall(e)
    ensures CloserInv(Step(s, p, e))
  {
  }

  lemma CallKeepsCountInv(s: System, p: Policy, e: Event)
    requires Inv(s, p) && Enabled(s, e) && IsCall(e)
    ensures CountInv(Step(s, p, e), p)
  {
  }

  lemma WorldKeepsLoopInv(s: System, p: Policy, e: Event)
    requires Inv(s, p) && Enabled(s, e) && IsWorld(e)
    ensures LoopInv(Step(s, p, e))
  {
  }

  lemma WorldKeepsProcessInv(s: System, p: Policy, e: Event)
    requires Inv(s, p) && Enabled(s, e) && IsWorld(e)
    ensures ProcessInv(Step(s, p, e))
  {
  }

  lemma WorldKeepsStopInv(s: System, p: Policy, e: Event)
    requires Inv(s, p) && Enabled(s, e) && IsWorld(e)
    ensures StopInv(Step(s, p, e))
  {
    if s.actor.child.Some? && s.processes[s.actor.child.value].asked {
      GuardedKept(s, Step(s, p, e), s.actor.child.value);
    }
  }

  lemma WorldKeepsCloserInv(s: System, p: Policy, e: Event)
    requires Inv(s, p) && Enabled(s, e) && IsWorld(e)
    ensures CloserInv(Step(s, p, e))
  {
  }

  lemma WorldKeepsCountInv(s: System, p: Policy, e: Event)
    requires Inv(s, p) && Enabled(s, e) && IsWorld(e)
    ensures CountInv(Step(s, p, e), p)
  {
  }

  lemma LoopKeepsLoopInv(s: System, p: Policy, e: Event)
    requires Inv(s, p) && Enabled(s, e) && IsLoop(e)
    ensures LoopInv(Step(s, p, e))
  {
  }

  lemma LoopKeepsProcessInv(s: System, p: Policy, e: Event)
    requires Inv(s, p) && Enabled(s, e) && IsLoop(e)
    ensures ProcessInv(Step(s, p, e))
  {
  }

  lemma LoopKeepsStopInv(s: System, p: Policy, e: Event)
    requires Inv(s, p) && Enabled(s, e) && IsLoop(e)
    ensures StopInv(Step(s, p, e))
  {
  }

  lemma LoopKeepsCloserInv(s: System, p: Policy, e: Event)
    requires Inv(s, p) && Enabled(s, e) && IsLoop(e)
    ensures CloserInv(Step(s, p, e))
  {
  }

  lemma LoopKeepsCountInv(s: System, p: Policy, e: Event)
    requires Inv(s, p) && Enabled(s, e) && IsLoop(e)
    ensures CountInv(Step(s, p, e), p)
  {
  }

  lemma LaunchKeepsLoopInv(s: System, p: Policy, e: Event)
    requires Inv(s, p) && Enabled(s, e) && e.LaunchReturns?
    ensures LoopInv(Step(s, p, e))
  {
  }

  lemma LaunchKeepsProcessInv(s: System, p: Policy, e: Event)
    requires Inv(s, p) && Enabled(s, e) && e.LaunchReturns?
    ensures ProcessInv(Step(s, p, e))
  {
  }

  lemma LaunchKeepsStopInv(s: System, p: Policy, e: Event)
    requires Inv(s, p) && Enabled(s, e) && e.LaunchReturns?
    ensures StopInv(Step(s, p, e))
  {
    var s' := Step(s, p, e);
    if s'.processes[|s.processes|].asked {
      NewGuard(s', |s.processes|);
    }
  }

  lemma LaunchKeepsCloserInv(s: System, p: Policy, e: Event)
    requires Inv(s, p) && Enabled(s, e) && e.LaunchReturns?
    ensures CloserInv(Step(s, p, e))
  {
  }

  lemma LaunchKeepsCountInv(s: System, p: Policy, e: Event)
    requires Inv(s, p) && Enabled(s, e) && e.LaunchReturns?
    ensures CountInv(Step(s, p, e), p)
  {
  }

  lemma ExitKeepsLoopInv(s: System, p: Policy, e: Event)
    requires Inv(s, p) && Enabled(s, e) && e.ExitReturns?
    ensures LoopInv(Step(s, p, e))
  {
  }

  lemma ExitKeepsProcessInv(s: System, p: Policy, e: Event)
    requires Inv(s, p) && Enabled(s, e) && e.ExitReturns?
    ensures ProcessInv(Step(s, p, e))
  {
  }

  lemma ExitKeepsStopInv(s: System, p: Policy, e: Event)
    requires Inv(s, p) && Enabled(s, e) && e.ExitReturns?
    ensures StopInv(Step(s, p, e))
  {
  }

  lemma ExitKeepsCloserInv(s: System, p: Policy, e: Event)
    requires Inv(s, p) && Enabled(s, e) && e.ExitReturns?
    ensures CloserInv(Step(s, p, e))
  {
  }

  /** A restart counts one more failure and waits its delay, or counts none. */
  lemma ExitCounts(a: Actor, p: Policy, at: Await, code: int, world: World, h: History)
    requires at.Exit? && h.delays == Ladder(p, a.consecutiveFastFailures)
    requires a.consecutiveFastFailures == 0 || a.consecutiveFastFailures < p.failureCeiling
    requires h.launches <= a.consecutiveFastFailures + 1 && h.launches <= Max(p.failureCeiling, 1)
    requires a.replacementRequested ==> a.consecutiveFastFailures == 0
    ensures var turn := Exited(a, p, at, code, world);
            var n := turn.actor.consecutiveFastFailures;
            var judged := Judged(h, a, turn);
            && judged.delays == Ladder(p, n) && (n == 0 || n < p.failureCeiling)
            && (turn.actor.replacementRequested ==> n == 0)
            && (turn.next.Sleep? ==> judged.launches <= n)
            && (turn.next.Launch? ==> judged.launches == 0) && judged.launches <= Max(p.failureCeiling, 1)
            && !turn.next.Exit? && !turn.next.Begin?
  {
    var exit := EngineExit(code, RunLength(world.now, at.startedAt, at.overhead));
    var v := p.Verdict(exit, Probe(p, exit, world), a.consecutiveFastFailures);
    assert Ladder(p, 0) == [];
    if v.Restart? && v.consecutiveFastFailures != 0 {
      assert Ladder(p, v.consecutiveFastFailures) == Ladder(p, a.consecutiveFastFailures) + [v.after];
    }
  }

  lemma ExitKeepsCountInv(s: System, p: Policy, e: Event)
    requires Inv(s, p) && Enabled(s, e) && e.ExitReturns?
    ensures CountInv(Step(s, p, e), p)
  {
    ExitCounts(s.actor, p, s.loops[e.task], e.code, e.world, s.history);
    var turn := Exited(s.actor, p, s.loops[e.task], e.code, e.world);
    assert Step(s, p, e).actor == turn.actor;
    assert Step(s, p, e).loops == Resume(s.loops, e.task, turn.next);
  }

  lemma StepKeepsHealthInv(s: System, p: Policy, e: Event)
    requires Inv(s, p) && Enabled(s, e) && !e.ExitReturns?
    ensures HealthInv(Step(s, p, e))
  {
  }

  lemma ExitKeepsHealthInv(s: System, p: Policy, e: Event)
    requires Inv(s, p) && Enabled(s, e) && e.ExitReturns?
    ensures HealthInv(Step(s, p, e))
  {
  }

  lemma CallKeeps(s: System, p: Policy, e: Event)
    requires Inv(s, p) && Enabled(s, e) && IsCall(e)
    ensures Inv(Step(s, p, e), p)
  {
    CallKeepsLoopInv(s, p, e);
    CallKeepsProcessInv(s, p, e);
    if e.CallRetry? { RetryKeepsStopInv(s, p); } else { CallKeepsStopInv(s, p, e); }
    CallKeepsCloserInv(s, p, e);
    CallKeepsCountInv(s, p, e);
    StepKeepsHealthInv(s, p, e);
  }

  lemma WorldKeeps(s: System, p: Policy, e: Event)
    requires Inv(s, p) && Enabled(s, e) && IsWorld(e)
    ensures Inv(Step(s, p, e), p)
  {
    WorldKeepsLoopInv(s, p, e);
    WorldKeepsProcessInv(s, p, e);
    WorldKeepsStopInv(s, p, e);
    WorldKeepsCloserInv(s, p, e);
    WorldKeepsCountInv(s, p, e);
    StepKeepsHealthInv(s, p, e);
  }

  lemma LoopKeeps(s: System, p: Policy, e: Event)
    requires Inv(s, p) && Enabled(s, e) && IsLoop(e)
    ensures Inv(Step(s, p, e), p)
  {
    LoopKeepsLoopInv(s, p, e);
    LoopKeepsProcessInv(s, p, e);
    LoopKeepsStopInv(s, p, e);
    LoopKeepsCloserInv(s, p, e);
    LoopKeepsCountInv(s, p, e);
    StepKeepsHealthInv(s, p, e);
  }

  lemma LaunchKeeps(s: System, p: Policy, e: Event)
    requires Inv(s, p) && Enabled(s, e) && e.LaunchReturns?
    ensures Inv(Step(s, p, e), p)
  {
    LaunchKeepsLoopInv(s, p, e);
    LaunchKeepsProcessInv(s, p, e);
    LaunchKeepsStopInv(s, p, e);
    LaunchKeepsCloserInv(s, p, e);
    LaunchKeepsCountInv(s, p, e);
    StepKeepsHealthInv(s, p, e);
  }

  lemma ExitKeeps(s: System, p: Policy, e: Event)
    requires Inv(s, p) && Enabled(s, e) && e.ExitReturns?
    ensures Inv(Step(s, p, e), p)
  {
    ExitKeepsLoopInv(s, p, e);
    ExitKeepsProcessInv(s, p, e);
    ExitKeepsStopInv(s, p, e);
    ExitKeepsCloserInv(s, p, e);
    ExitKeepsCountInv(s, p, e);
    ExitKeepsHealthInv(s, p, e);
  }

  lemma StepKeeps(s: System, p: Policy, e: Event)
    requires Inv(s, p) && Enabled(s, e)
    ensures Inv(Step(s, p, e), p)
  {
    if IsCall(e) {
      CallKeeps(s, p, e);
    } else if IsWorld(e) {
      WorldKeeps(s, p, e);
    } else if IsLoop(e) {
      LoopKeeps(s, p, e);
    } else if e.LaunchReturns? {
      LaunchKeeps(s, p, e);
    } else {
      ExitKeeps(s, p, e);
    }
  }

  lemma {:induction false} RunKeeps(s: System, p: Policy, run: seq<Event>)
    requires Inv(s, p) && Valid(s, p, run)
    ensures Inv(After(s, p, run), p)
    decreases |run|
  {
    if run == [] {
    } else {
      StepKeeps(s, p, run[0]);
      RunKeeps(Step(s, p, run[0]), p, run[1..]);
    }
  }

  ghost predicate Reachable(s: System, p: Policy) {
    exists run :: Valid(INITIAL, p, run) && After(INITIAL, p, run) == s
  }

  lemma ReachableInv(s: System, p: Policy)
    requires Reachable(s, p)
    ensures Inv(s, p)
  {
    var run :| Valid(INITIAL, p, run) && After(INITIAL, p, run) == s;
    InitialInv(p);
    RunKeeps(INITIAL, p, run);
  }
}
