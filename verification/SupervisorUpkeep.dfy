/** What the steps keep in order beside the loop itself: the words in the ring, the deadlines, the
    flag that says the child is gone, and how a loop begins and goes round. */
module SupervisorUpkeep {
  import opened Basics
  import opened Text
  import opened RestartPolicy
  import opened EngineSupervisor
  import opened SupervisorRuns
  import opened SupervisorLaws

  // ----- the ring -----

  /** A launch begins in this step. */
  ghost predicate LaunchBegins(s: System, s': System) {
    exists t :: InLaunch(s', t) && !InLaunch(s, t)
  }

  lemma RingInStretch(s: System, p: Policy, e: Event, s': System)
    requires LoopInv(s) && Enabled(s, e) && IsStretch(e) && s' == Step(s, p, e)
    ensures s'.actor.stderr == if LaunchBegins(s, s') then [] else s.actor.stderr
  {
    if e.task in s'.loops && s'.loops[e.task].Launch? {
      assert InLaunch(s', e.task) && !InLaunch(s, e.task);
    }
  }

  lemma RingElsewhere(s: System, p: Policy, e: Event, s': System)
    requires Enabled(s, e) && !IsStretch(e) && s' == Step(s, p, e)
    ensures !LaunchBegins(s, s')
    ensures s'.actor.stderr ==
            if e.Delivers? then s.actor.stderr + [Chunk(s.loops[e.task].process, e.bytes)]
            else if e.CallRetry? && !s.actor.shuttingDown && !s.actor.replacementRequested then []
            else s.actor.stderr
  {
  }

  /** The ring gains each word as it is delivered, and is emptied only by a launch that begins and
      by a Retry that is heard. */
  lemma RingKeepsTheWords(s: System, p: Policy, e: Event)
    requires Reachable(s, p) && Enabled(s, e)
    ensures Step(s, p, e).actor.stderr ==
            if e.Delivers? then s.actor.stderr + [Chunk(s.loops[e.task].process, e.bytes)]
            else if LaunchBegins(s, Step(s, p, e)) then []
            else if e.CallRetry? && !s.actor.shuttingDown && !s.actor.replacementRequested then []
            else s.actor.stderr
  {
    ReachableInv(s, p);
    if IsStretch(e) {
      RingInStretch(s, p, e, Step(s, p, e));
    } else {
      RingElsewhere(s, p, e, Step(s, p, e));
    }
  }

  // ----- the deadlines -----

  /** Somebody still holds the deadline: the replacement asked for, the loop that waits for the
      process, or a call of `shutDown` that has not returned. */
  ghost predicate Held(s: System, d: DeadlineId) {
    || s.actor.replacementDeadline == Some(d)
    || (exists t :: t in s.loops && s.loops[t].Exit? && s.loops[t].carried == Some(d))
    || exists k :: 0 <= k < |s.closers| && !s.closers[k].returned && s.closers[k].deadline == Some(d)
  }

  ghost predicate DeadlinesHeld(s: System) {
    forall d :: 0 <= d < |s.deadlines| && s.deadlines[d].timer.Waiting? ==> Held(s, d)
  }

  lemma HeldStays(s: System, s': System, d: DeadlineId)
    requires Held(s, d) && |s.closers| <= |s'.closers|
    requires s.actor.replacementDeadline == Some(d) ==> s'.actor.replacementDeadline == Some(d)
    requires forall t :: t in s.loops && s.loops[t].Exit? && s.loops[t].carried == Some(d) ==>
               t in s'.loops && s'.loops[t] == s.loops[t]
    requires forall k :: 0 <= k < |s.closers| && !s.closers[k].returned && s.closers[k].deadline == Some(d) ==>
               !s'.closers[k].returned && s'.closers[k].deadline == Some(d)
    ensures Held(s', d)
  {
  }

  lemma StartKeepsHeld(s: System, p: Policy)
    requires Inv(s, p) && DeadlinesHeld(s)
    ensures DeadlinesHeld(Step(s, p, CallStart))
  {
    var s' := Step(s, p, CallStart);
    forall d | 0 <= d < |s'.deadlines| && s'.deadlines[d].timer.Waiting? ensures Held(s', d) {
      HeldStays(s, s', d);
    }
  }

  /** The steps that ask a process to stop, each under a new deadline. */
  predicate MayAsk(e: Event) {
    e.CallRetry? || e.CallShutDown? || e.LaunchReturns?
  }

  lemma OldStayHeld(s: System, p: Policy, e: Event, d: nat, s': System)
    requires Inv(s, p) && Enabled(s, e) && MayAsk(e) && s' == Step(s, p, e)
    requires d < |s.deadlines| && Held(s, d) && |s'.deadlines| > d && s'.deadlines[d].timer.Waiting?
    ensures Held(s', d)
  {
    HeldStays(s, s', d);
  }

  lemma RetryHoldsNew(s: System, p: Policy, s': System)
    requires Inv(s, p) && s' == Step(s, p, CallRetry)
    ensures |s.deadlines| <= |s'.deadlines| <= |s.deadlines| + 1
    ensures |s'.deadlines| > |s.deadlines| ==> Held(s', |s.deadlines|)
  {
  }

  lemma CloseHoldsNew(s: System, p: Policy, s': System)
    requires Inv(s, p) && s' == Step(s, p, CallShutDown)
    ensures |s.deadlines| <= |s'.deadlines| <= |s.deadlines| + 1
    ensures |s'.deadlines| > |s.deadlines| ==> Held(s', |s.deadlines|)
  {
    var k := |s.closers|;
    assert |s'.closers| == k + 1 && !s'.closers[k].returned;
    if |s'.deadlines| > |s.deadlines| {
      assert s'.closers[k].deadline == Some(|s.deadlines|);
    }
  }

  lemma LaunchHoldsNew(s: System, p: Policy, e: Event, s': System)
    requires Inv(s, p) && Enabled(s, e) && e.LaunchReturns? && s' == Step(s, p, e)
    ensures |s.deadlines| <= |s'.deadlines| <= |s.deadlines| + 1
    ensures |s'.deadlines| > |s.deadlines| ==> Held(s', |s.deadlines|)
  {
    if |s'.deadlines| > |s.deadlines| {
      assert e.task in s'.loops && s'.loops[e.task].Exit? && s'.loops[e.task].carried == Some(|s.deadlines|);
    }
  }

  lemma CancelOnly(s: System, p: Policy, e: Event, s': System)
    requires Enabled(s, e) && MayAsk(e) && s' == Step(s, p, e)
    ensures forall d :: 0 <= d < |s.deadlines| && d < |s'.deadlines| && s'.deadlines[d].timer.Waiting? ==>
              s.deadlines[d].timer.Waiting?
  {
  }

  lemma AskHoldsNew(s: System, p: Policy, e: Event, s': System)
    requires Inv(s, p) && Enabled(s, e) && MayAsk(e) && s' == Step(s, p, e)
    ensures |s.deadlines| <= |s'.deadlines| <= |s.deadlines| + 1
    ensures |s'.deadlines| > |s.deadlines| ==> Held(s', |s.deadlines|)
  {
    if e.CallRetry? {
      RetryHoldsNew(s, p, s');
    } else if e.CallShutDown? {
      CloseHoldsNew(s, p, s');
    } else {
      LaunchHoldsNew(s, p, e, s');
    }
  }

  lemma OldAllHeld(s: System, p: Policy, e: Event, s': System)
    requires Inv(s, p) && DeadlinesHeld(s) && Enabled(s, e) && MayAsk(e) && s' == Step(s, p, e)
    ensures forall d: nat :: d < |s.deadlines| && d < |s'.deadlines| && s'.deadlines[d].timer.Waiting? ==> Held(s', d)
  {
    CancelOnly(s, p, e, s');
    forall d: nat | d < |s.deadlines| && d < |s'.deadlines| && s'.deadlines[d].timer.Waiting? ensures Held(s', d) {
      OldStayHeld(s, p, e, d, s');
    }
  }

  lemma OldAndNewHeld(n: nat, s': System)
    requires n <= |s'.deadlines| <= n + 1 && (|s'.deadlines| > n ==> Held(s', n))
    requires forall d: nat :: d < n && s'.deadlines[d].timer.Waiting? ==> Held(s', d)
    ensures DeadlinesHeld(s')
  {
  }

  lemma AskKeepsHeld(s: System, p: Policy, e: Event, s': System)
    requires Inv(s, p) && DeadlinesHeld(s) && Enabled(s, e) && MayAsk(e) && s' == Step(s, p, e)
    ensures DeadlinesHeld(s')
  {
    AskHoldsNew(s, p, e, s');
    OldAllHeld(s, p, e, s');
    OldAndNewHeld(|s.deadlines|, s');
  }

  lemma ReturnKeepsHeld(s: System, p: Policy, e: Event)
    requires Inv(s, p) && DeadlinesHeld(s) && Enabled(s, e) && e.ShutDownReturns?
    ensures DeadlinesHeld(Step(s, p, e))
  {
    var s' := Step(s, p, e);
    forall d | 0 <= d < |s'.deadlines| && s'.deadlines[d].timer.Waiting? ensures Held(s', d) {
      HeldStays(s, s', d);
    }
  }

  lemma WorldKeepsHeld(s: System, p: Policy, e: Event)
    requires Inv(s, p) && DeadlinesHeld(s) && Enabled(s, e) && IsWorld(e)
    ensures DeadlinesHeld(Step(s, p, e))
  {
    var s' := Step(s, p, e);
    forall d | 0 <= d < |s'.deadlines| && s'.deadlines[d].timer.Waiting? ensures Held(s', d) {
      HeldStays(s, s', d);
    }
  }

  lemma LoopKeepsHeld(s: System, p: Policy, e: Event)
    requires Inv(s, p) && DeadlinesHeld(s) && Enabled(s, e) && IsLoop(e)
    ensures DeadlinesHeld(Step(s, p, e))
  {
    var s' := Step(s, p, e);
    forall d | 0 <= d < |s'.deadlines| && s'.deadlines[d].timer.Waiting? ensures Held(s', d) {
      HeldStays(s, s', d);
    }
  }

  lemma ExitKeepsHeld(s: System, p: Policy, e: Event)
    requires Inv(s, p) && DeadlinesHeld(s) && Enabled(s, e) && e.ExitReturns?
    ensures DeadlinesHeld(Step(s, p, e))
  {
    var s' := Step(s, p, e);
    forall d | 0 <= d < |s'.deadlines| && s'.deadlines[d].timer.Waiting? ensures Held(s', d) {
      HeldStays(s, s', d);
    }
  }

  lemma StepKeepsHeld(s: System, p: Policy, e: Event)
    requires Inv(s, p) && DeadlinesHeld(s) && Enabled(s, e)
    ensures DeadlinesHeld(Step(s, p, e))
  {
    if e.CallStart? {
      StartKeepsHeld(s, p);
    } else if MayAsk(e) {
      AskKeepsHeld(s, p, e, Step(s, p, e));
    } else if e.ShutDownReturns? {
      ReturnKeepsHeld(s, p, e);
    } else if IsWorld(e) {
      WorldKeepsHeld(s, p, e);
    } else if IsLoop(e) {
      LoopKeepsHeld(s, p, e);
    } else {
      ExitKeepsHeld(s, p, e);
    }
  }

  lemma {:induction false} RunKeepsHeld(s: System, p: Policy, run: seq<Event>)
    requires Inv(s, p) && DeadlinesHeld(s) && Valid(s, p, run)
    ensures DeadlinesHeld(After(s, p, run))
    decreases |run|
  {
    if run == [] {
    } else {
      StepKeeps(s, p, run[0]);
      StepKeepsHeld(s, p, run[0]);
      RunKeepsHeld(Step(s, p, run[0]), p, run[1..]);
    }
  }

  ghost predicate ClosersReturned(s: System) {
    forall k :: 0 <= k < |s.closers| ==> s.closers[k].returned
  }

  /** A deadline runs only while it is held: with no child, and with every call of `shutDown`
      returned, none is left to fire. */
  lemma NoDeadlineIsForgotten(s: System, p: Policy)
    requires Reachable(s, p)
    ensures DeadlinesHeld(s)
    ensures s.actor.child == None && ClosersReturned(s) ==>
              forall d :: 0 <= d < |s.deadlines| ==> !s.deadlines[d].timer.Waiting?
  {
    var run :| Valid(INITIAL, p, run) && After(INITIAL, p, run) == s;
    InitialInv(p);
    RunKeepsHeld(INITIAL, p, run);
    ReachableInv(s, p);
    HeldByNobody(s);
  }

  lemma HeldByNobody(s: System)
    requires LoopInv(s) && StopInv(s) && DeadlinesHeld(s)
    ensures s.actor.child == None && ClosersReturned(s) ==>
              forall d :: 0 <= d < |s.deadlines| ==> !s.deadlines[d].timer.Waiting?
  {
    if s.actor.child == None && ClosersReturned(s) {
      forall d: nat ensures !Held(s, d) {
      }
    }
  }

  // ----- the flag, and the loop's head -----

  /** The child's exit is on record exactly from the exit to the next launch. */
  predicate FlagAt(a: Actor, at: Await) {
    match at
    case Launch(_) => !a.childHasExited
    case Exit(_, _, _, _) => !a.childHasExited
    case Sleep(_) => a.childHasExited
    case _ => true
  }

  ghost predicate FlagHonest(s: System) {
    forall t :: t in s.loops ==> FlagAt(s.actor, s.loops[t])
  }

  lemma StepKeepsFlag(s: System, p: Policy, e: Event)
    requires LoopInv(s) && FlagHonest(s) && Enabled(s, e)
    ensures FlagHonest(Step(s, p, e))
  {
  }

  lemma {:induction false} RunKeepsFlag(s: System, p: Policy, run: seq<Event>)
    requires Inv(s, p) && FlagHonest(s) && Valid(s, p, run)
    ensures FlagHonest(After(s, p, run))
    decreases |run|
  {
    if run == [] {
    } else {
      StepKeeps(s, p, run[0]);
      StepKeepsFlag(s, p, run[0]);
      RunKeepsFlag(Step(s, p, run[0]), p, run[1..]);
    }
  }

  lemma ExitIsOnRecord(s: System, p: Policy)
    requires Reachable(s, p)
    ensures FlagHonest(s)
  {
    var run :| Valid(INITIAL, p, run) && After(INITIAL, p, run) == s;
    InitialInv(p);
    RunKeepsFlag(INITIAL, p, run);
  }

  /** `start` begins a loop exactly where there is none and `shutDown` was not called. */
  lemma StartBeginsOneLoop(s: System, p: Policy)
    requires Reachable(s, p)
    ensures Step(s, p, CallStart).loops ==
            if s.loops == map[] && !s.actor.shuttingDown then map[s.tasks := Begin] else s.loops
  {
    ReachableInv(s, p);
    if !s.actor.supervising {
      assert forall t :: t !in s.loops;
    } else {
      assert s.actor.supervision.value in s.loops;
    }
  }

  /** Where a loop begins or a backoff ends, the next launch begins at once - unless shutting down
      ends the loop, or the command's refusal does and is shown. */
  lemma HeadLaunchesOrEnds(s: System, p: Policy, e: Event)
    requires Reachable(s, p) && Enabled(s, e) && (e.LoopBegins? || e.SleepEnds?)
    ensures WhereIs(Step(s, p, e), e.task) ==
            if !s.actor.shuttingDown && e.world.resolved == None then Launch(e.world.now) else Finished
    ensures !s.actor.shuttingDown && e.world.resolved.Some? ==>
              Step(s, p, e).actor.health == CannotSpawn(CommandRefused(e.world.resolved.value))
    ensures s.actor.shuttingDown ==> Step(s, p, e).actor.health == ShutDown
  {
    ReachableInv(s, p);
  }
}
