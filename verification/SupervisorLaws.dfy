/** What the supervisor promises in every run, whatever order its callers, its processes and
    its deadlines take their steps in. */
module SupervisorLaws {
  import opened Basics
  import opened Text
  import opened RestartPolicy
  import opened EngineSupervisor
  import opened SupervisorRuns

  // ----- one loop, one child -----

  predicate Outstanding(s: System, q: ProcessId) {
    q < |s.processes| && !s.processes[q].awaited
  }

  /** At most one loop is alive, and at most one launched process is not yet awaited: the last
      one launched, which is the actor's child. Nothing but its words are in the ring. */
  lemma OneLoopOneChild(s: System, p: Policy)
    requires Reachable(s, p)
    ensures forall t, u :: t in s.loops && u in s.loops ==> t == u
    ensures forall q: nat :: Outstanding(s, q) ==> s.actor.child == Some(q) && q + 1 == |s.processes|
    ensures forall c :: c in s.actor.stderr ==> c.process + 1 == |s.processes|
  {
    ReachableInv(s, p);
  }

  predicate InLaunch(s: System, t: TaskId) {
    t in s.loops && s.loops[t].Launch?
  }

  lemma LaunchesAreChildless(s: System, p: Policy, e: Event, t: TaskId)
    requires LoopInv(s) && Enabled(s, e)
    requires InLaunch(Step(s, p, e), t) && !InLaunch(s, t)
    ensures e.LoopBegins? || e.SleepEnds? || e.ExitReturns?
    ensures !s.actor.shuttingDown && Step(s, p, e).actor.child == None
  {
  }

  /** A launch begins only when every earlier process has been awaited to its exit, and never
      once shutting down has begun. */
  lemma LaunchesFollowExits(s: System, p: Policy, e: Event, t: TaskId)
    requires Reachable(s, p) && Enabled(s, e)
    requires InLaunch(Step(s, p, e), t) && !InLaunch(s, t)
    ensures forall q: nat :: q < |s.processes| ==> !Outstanding(Step(s, p, e), q)
    ensures !s.actor.shuttingDown
  {
    ReachableInv(s, p);
    LaunchesAreChildless(s, p, e, t);
    NoneOutstanding(s, p, e);
  }

  lemma NoneOutstanding(s: System, p: Policy, e: Event)
    requires Inv(s, p) && Enabled(s, e) && Step(s, p, e).actor.child == None
    ensures forall q: nat :: !Outstanding(Step(s, p, e), q)
  {
    StepKeeps(s, p, e);
    ChildlessAllAwaited(Step(s, p, e));
  }

  lemma ChildlessAllAwaited(s: System)
    requires ProcessInv(s) && s.actor.child == None
    ensures forall q: nat :: !Outstanding(s, q)
  {
  }

  // ----- shutting down -----

  ghost predicate Launching(s: System) {
    exists t :: InLaunch(s, t)
  }

  /** The processes launched so far, and the one that may be on its way. */
  ghost function Committed(s: System): nat {
    |s.processes| + if Launching(s) then 1 else 0
  }

  lemma StepCommitsNoMore(s: System, p: Policy, e: Event)
    requires Inv(s, p) && Enabled(s, e) && s.actor.shuttingDown
    ensures Step(s, p, e).actor.shuttingDown && Committed(Step(s, p, e)) <= Committed(s)
  {
    var s' := Step(s, p, e);
    if e.LaunchReturns? {
      assert InLaunch(s, e.task);
    } else if Launching(s') {
      var t :| InLaunch(s', t);
      assert InLaunch(s, t);
    }
  }

  /** After `shutDown` has set its flag no launch begins, in any run: at most the one already
      on its way arrives. */
  lemma {:induction false} NothingNewAfterShutDown(s: System, p: Policy, run: seq<Event>)
    requires Inv(s, p) && s.actor.shuttingDown && Valid(s, p, run)
    ensures After(s, p, run).actor.shuttingDown
    ensures Committed(After(s, p, run)) <= Committed(s)
    decreases |run|
  {
    if run == [] {
    } else {
      StepKeeps(s, p, run[0]);
      StepCommitsNoMore(s, p, run[0]);
      NothingNewAfterShutDown(Step(s, p, run[0]), p, run[1..]);
    }
  }

  /** A process that a launch delivers after the decision to stop it is asked to stop in the
      same stretch, before the loop waits for its exit. */
  lemma LateChildIsAsked(s: System, p: Policy, e: Event)
    requires Reachable(s, p) && Enabled(s, e) && e.LaunchReturns?
    ensures var s' := Step(s, p, e); var q := |s.processes|;
            && s'.loops[e.task].Exit? && s'.loops[e.task].process == q && |s'.processes| == q + 1
            && (s'.processes[q].asked <==> s.actor.shuttingDown || s.actor.replacementRequested)
            && (s'.processes[q].asked ==> Guarded(s', q))
  {
    ReachableInv(s, p);
    LaunchKeepsStopInv(s, p, e);
    LaunchKeepsLoopInv(s, p, e);
  }

  /** What is left once a call of `shutDown` has returned. */
  ghost predicate Quiet(s: System) {
    s.loops == map[] && s.actor.health == ShutDown && s.actor.shuttingDown
    && forall q :: 0 <= q < |s.processes| ==> s.processes[q].awaited && s.processes[q].exited
  }

  ghost predicate HasReturned(s: System) {
    exists k :: 0 <= k < |s.closers| && s.closers[k].returned
  }

  /** Once any call of `shutDown` has returned there is no loop and no process, and nothing
      that is called later changes the health or launches anything. */
  lemma ShutDownLeavesNothing(s: System, p: Policy)
    requires Reachable(s, p) && HasReturned(s)
    ensures Quiet(s)
  {
    ReachableInv(s, p);
    var k :| 0 <= k < |s.closers| && s.closers[k].returned;
    assert CloserOk(s.actor, s.closers[k]);
    assert forall t :: t !in s.loops;
  }

  lemma QuietStep(s: System, p: Policy, e: Event)
    requires Inv(s, p) && Enabled(s, e) && Quiet(s)
    ensures Quiet(Step(s, p, e)) && Step(s, p, e).processes == s.processes
  {
  }

  lemma {:induction false} QuietForEver(s: System, p: Policy, run: seq<Event>)
    requires Inv(s, p) && Quiet(s) && Valid(s, p, run)
    ensures Quiet(After(s, p, run)) && After(s, p, run).processes == s.processes
    decreases |run|
  {
    if run == [] {
    } else {
      StepKeeps(s, p, run[0]);
      QuietStep(s, p, run[0]);
      QuietForEver(Step(s, p, run[0]), p, run[1..]);
    }
  }

  lemma ShutDownIsFinal(s: System, p: Policy, run: seq<Event>)
    requires Reachable(s, p) && HasReturned(s) && Valid(s, p, run)
    ensures Quiet(After(s, p, run)) && After(s, p, run).processes == s.processes
  {
    ReachableInv(s, p);
    ShutDownLeavesNothing(s, p);
    QuietForEver(s, p, run);
  }

  /** How many stretches the loop still has once shutting down has begun. */
  function Remaining(at: Await): nat {
    match at
    case Launch(_) => 2
    case Finished => 0
    case _ => 1
  }

  predicate IsStretch(e: Event) {
    e.LoopBegins? || e.LaunchReturns? || e.LaunchThrows? || e.ExitReturns? || e.SleepEnds?
  }

  /** While shutting down the loop never sleeps again and never goes round again: each of its
      stretches brings it nearer its end, and a call of `shutDown` waits for nothing else. */
  lemma ShutDownEndsTheLoop(s: System, p: Policy, e: Event)
    requires Reachable(s, p) && Enabled(s, e) && s.actor.shuttingDown && IsStretch(e)
    ensures var s' := Step(s, p, e);
            e.task in s'.loops ==> Remaining(s'.loops[e.task]) < Remaining(s.loops[e.task])
    ensures var s' := Step(s, p, e);
            e.task !in s'.loops ==>
              && s'.actor.health == ShutDown
              && forall k :: 0 <= k < |s'.closers| && !s'.closers[k].returned ==> Enabled(s', ShutDownReturns(k))
  {
    ReachableInv(s, p);
    StepKeeps(s, p, e);
    var s' := Step(s, p, e);
    if e.task !in s'.loops {
      forall k | 0 <= k < |s'.closers| && !s'.closers[k].returned ensures Enabled(s', ShutDownReturns(k)) {
        assert CloserOk(s.actor, s.closers[k]);
      }
    }
  }

  // ----- stopping -----

  /** `forceStop` reaches a process only when its own deadline fires: it was asked to stop, it
      has not exited, and it is still the child - never a successor, never the reaped. */
  lemma OnlyTheAskedAreForced(s: System, p: Policy, e: Event, q: ProcessId)
    requires Reachable(s, p) && Enabled(s, e) && q < |Step(s, p, e).processes|
    requires Step(s, p, e).processes[q].forced && !(q < |s.processes| && s.processes[q].forced)
    ensures e.DeadlineFires? && s.deadlines[e.deadline].process == q
    ensures q < |s.processes| && s.processes[q].asked && !s.processes[q].exited
    ensures s.actor.child == Some(q) && q + 1 == |s.processes|
  {
    ReachableInv(s, p);
  }

  /** A process is never asked to stop unless the shell is going away or a replacement was
      requested, and no decision to stop is forgotten while its process lives. */
  lemma AskedExactlyWhenUnwanted(s: System, p: Policy)
    requires Reachable(s, p) && s.actor.child.Some?
    ensures s.actor.child.value < |s.processes|
    ensures s.processes[s.actor.child.value].asked <==> s.actor.shuttingDown || s.actor.replacementRequested
  {
    ReachableInv(s, p);
  }

  /** A child that was asked and does not exit is never waited for without end: it was stopped
      outright, or a deadline is still running whose firing does that. */
  lemma TheUncooperativeAreForced(s: System, p: Policy, q: ProcessId)
    requires Reachable(s, p) && s.actor.child == Some(q) && q < |s.processes|
    requires s.processes[q].asked && !s.processes[q].exited
    ensures s.processes[q].forced ||
            exists d :: Enabled(s, DeadlineFires(d)) && Step(s, p, DeadlineFires(d)).processes[q].forced
  {
    ReachableInv(s, p);
    var d :| 0 <= d < |s.deadlines| && s.deadlines[d].process == q && !s.deadlines[d].timer.Cancelled?;
    if s.deadlines[d].timer.Waiting? {
      assert Enabled(s, DeadlineFires(d)) && Step(s, p, DeadlineFires(d)).processes[q].forced;
    }
  }

  predicate StraightOn(s: System, e: Event, s': System)
    requires e.ExitReturns?
  {
    && s'.actor.consecutiveFastFailures == 0 && s'.actor.child == None
    && !s'.actor.replacementRequested && s'.actor.replacementDeadline == None
    && (s.actor.replacementDeadline.Some? ==>
          var d := s.actor.replacementDeadline.value;
          d < |s'.deadlines| && !s'.deadlines[d].timer.Waiting?)
    && match e.world.resolved
       case None => InLaunch(s', e.task) && s'.actor.supervising
       case Some(detail) => s'.loops == map[] && s'.actor.health == CannotSpawn(CommandRefused(detail))
  }

  /** An exit that was asked for as a replacement goes straight to the next launch - or to the
      command's refusal: no backoff, no failure counted, the request consumed, its deadline
      cancelled. */
  lemma ReplacementGoesStraightOn(s: System, p: Policy, e: Event)
    requires Reachable(s, p) && Enabled(s, e) && e.ExitReturns?
    requires s.actor.replacementRequested
    ensures StraightOn(s, e, Step(s, p, e))
  {
    ReachableInv(s, p);
    if e.world.resolved.Some? {
      assert Step(s, p, e).loops == map[];
    }
  }

  /** What Retry promises wherever it is heard: the count forgiven, a fresh ring, and then - with
      no loop, a new one; with a child, its stop under a deadline; in a launch, the request kept
      for the child on its way; in a backoff, nothing more. */
  lemma RetryDoesWhatItSays(s: System, p: Policy)
    requires Reachable(s, p) && RetryHeard(s.actor)
    ensures var s' := Step(s, p, CallRetry);
            && s'.actor.consecutiveFastFailures == 0 && s'.actor.stderr == []
            && (s.loops == map[] ==> s'.loops == map[s.tasks := Begin] && s'.actor.supervising)
            && (s.loops != map[] ==> s'.loops == s.loops)
            && (s.actor.child.Some? ==>
                  var q := s.actor.child.value;
                  q < |s'.processes| && s'.processes[q].asked && Guarded(s', q) && s'.actor.replacementRequested)
            && (s.actor.child.None? ==> s'.processes == s.processes && s'.deadlines == s.deadlines)
            && (s.actor.child.None? ==> (s'.actor.replacementRequested <==> Launching(s)))
  {
    ReachableInv(s, p);
    RetryKeepsStopInv(s, p);
    assert s.actor.child.None? ==> CancelAll(s.deadlines, {}) + [] == s.deadlines;
    assert s.actor.launching <==> Launching(s) by {
      if s.actor.launching {
        assert InLaunch(s, s.actor.supervision.value);
      }
    }
    if !s.actor.supervising {
      assert forall t :: t !in s.loops;
    } else {
      assert s.actor.supervision.value in s.loops;
    }
  }

  // ----- restarting -----

  /** What an exit that nobody asked for comes to: the actor after it, and where its loop is. */
  predicate JudgedAs(a: Actor, p: Policy, ranFor: int, code: int, world: World, after: Actor, next: Await) {
    var failures := a.consecutiveFastFailures + 1;
    if code == 2 && world.socketAnswers then
      next == Finished && after.health == Stopped(AnotherEngineIsListening)
    else if ranFor >= p.steadyState then
      next == Sleep(p.firstDelay) && after.consecutiveFastFailures == 0 && after.health == Restarting(p.firstDelay, 1)
    else if failures >= p.failureCeiling then
      next == Finished && after.health == Stopped(RepeatedFailures(failures))
    else
      next == Sleep(p.Delay(failures)) && after.consecutiveFastFailures == failures
      && after.health == Restarting(p.Delay(failures), failures + 1)
  }

  lemma ExitIsJudged(a: Actor, p: Policy, at: Await, code: int, world: World)
    requires at.Exit? && !a.shuttingDown && !a.replacementRequested
    ensures var turn := Exited(a, p, at, code, world);
            var ranFor := Max(0, world.now - at.startedAt - at.overhead);
            JudgedAs(a, p, ranFor, code, world, turn.actor, turn.next)
  {
  }

  function WhereIs(s: System, t: TaskId): Await {
    if t in s.loops then s.loops[t] else Finished
  }

  /** Nothing but the exit code with the socket, the length of the run without the launcher's own
      work, and the failures before it decides. */
  lemma UnaskedExitIsJudged(s: System, p: Policy, e: Event)
    requires Enabled(s, e) && e.ExitReturns?
    requires !s.actor.shuttingDown && !s.actor.replacementRequested
    ensures var s' := Step(s, p, e);
            var at := s.loops[e.task];
            var ranFor := Max(0, e.world.now - at.startedAt - at.overhead);
            JudgedAs(s.actor, p, ranFor, e.code, e.world, s'.actor, WhereIs(s', e.task))
  {
    ExitIsJudged(s.actor, p, s.loops[e.task], e.code, e.world);
    var turn := Exited(s.actor, p, s.loops[e.task], e.code, e.world);
    assert Step(s, p, e).actor == turn.actor && Step(s, p, e).loops == Resume(s.loops, e.task, turn.next);
  }

  /** What a person is shown: a loop that waits for an exit shows that process running, one that
      backs off shows the delay it waits, and without a loop neither is ever shown. */
  lemma HealthIsHonest(s: System, p: Policy)
    requires Reachable(s, p)
    ensures forall t :: t in s.loops && s.loops[t].Exit? ==> s.actor.health == Running(s.loops[t].process)
    ensures forall t :: t in s.loops && s.loops[t].Sleep? ==>
              s.actor.health.Restarting? && s.actor.health.after == s.loops[t].delay
    ensures s.loops == map[] ==> !s.actor.health.Running? && !s.actor.health.Restarting?
  {
    ReachableInv(s, p);
  }

  /** The failures counted stay below the ceiling; the backoffs since the last retry or steady
      run are the first rungs of the policy's ladder; and there are no more launches between two
      resets than the ceiling, one at least, alive or stopped. */
  lemma FailuresClimbTheLadder(s: System, p: Policy)
    requires Reachable(s, p)
    ensures s.actor.consecutiveFastFailures <= Max(p.failureCeiling - 1, 0)
    ensures s.history.delays == Ladder(p, s.actor.consecutiveFastFailures)
    ensures s.history.launches <= Max(p.failureCeiling, 1)
  {
    ReachableInv(s, p);
  }

  lemma LadderPrefix(p: Policy, m: nat, n: nat)
    requires m <= n
    ensures Ladder(p, m) <= Ladder(p, n)
  {
  }

  /** Under the default policy: at most five launches, with backoffs of 1, 2, 4, 8 seconds. */
  lemma FiveLaunchesThenStop(s: System)
    requires Reachable(s, DEFAULT)
    ensures 0 <= s.actor.consecutiveFastFailures <= 4
    ensures s.history.delays <= [1_000, 2_000, 4_000, 8_000]
    ensures s.history.launches <= 5
  {
    FailuresClimbTheLadder(s, DEFAULT);
    DefaultLadder(EngineExit(0, 0), 0);
    LadderPrefix(DEFAULT, s.actor.consecutiveFastFailures, 4);
  }
}
