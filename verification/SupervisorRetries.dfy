/** A Retry that nothing consumes: pressed during a launch that then throws, it is remembered,
    and no later one is heard until the engine is started or shut down. */
module SupervisorRetries {
  import opened Text
  import opened RestartPolicy
  import opened EngineSupervisor
  import opened SupervisorRuns
  import opened SupervisorLaws

  // ----- runs, step by step -----

  lemma RunThen(s: System, p: Policy, run: seq<Event>, e: Event)
    requires Valid(s, p, run) && Enabled(After(s, p, run), e)
    ensures Valid(s, p, run + [e]) && After(s, p, run + [e]) == Step(After(s, p, run), p, e)
    decreases |run|
  {
    if run == [] {
      assert [e][1..] == [];
      assert run + [e] == [e];
    } else {
      RunThen(Step(s, p, run[0]), p, run[1..], e);
      assert (run + [e])[0] == run[0] && (run + [e])[1..] == run[1..] + [e];
    }
  }

  /** One step further, the states on the way given. */
  lemma RunOn(s: System, p: Policy, run: seq<Event>, at: System, e: Event, next: System)
    requires Valid(s, p, run) && After(s, p, run) == at && Enabled(at, e) && Step(at, p, e) == next
    ensures Valid(s, p, run + [e]) && After(s, p, run + [e]) == next
  {
    RunThen(s, p, run, e);
  }

  lemma {:induction false} LastStep(s: System, p: Policy, run: seq<Event>)
    requires run != [] && Valid(s, p, run)
    ensures var before, last := run[..|run| - 1], run[|run| - 1];
            Valid(s, p, before) && Enabled(After(s, p, before), last)
            && After(s, p, run) == Step(After(s, p, before), p, last)
    decreases |run|
  {
    if |run| == 1 {
      assert run[1..] == [] && run[..0] == [];
    } else {
      LastStep(Step(s, p, run[0]), p, run[1..]);
      assert run[..|run| - 1][1..] == run[1..][..|run| - 2];
    }
  }

  // ----- which presses are remembered -----

  /** A launch is on its way, or a process is awaited. */
  ghost predicate UnderWay(s: System) {
    exists t :: t in s.loops && (s.loops[t].Launch? || s.loops[t].Exit?)
  }

  /** A press of Retry that has something to replace. */
  ghost predicate Pressed(p: Policy, run: seq<Event>, i: nat) {
    i < |run| && run[i].CallRetry? && Valid(INITIAL, p, run[..i]) && UnderWay(After(INITIAL, p, run[..i]))
  }

  /** Some Retry was pressed while a launch or a process was under way, and no process has been
      awaited to its exit since. */
  ghost predicate RetryRemembered(p: Policy, run: seq<Event>) {
    exists i: nat :: Pressed(p, run, i) && forall j :: i < j < |run| ==> !run[j].ExitReturns?
  }

  ghost predicate ShutDownCalled(run: seq<Event>) {
    exists i :: 0 <= i < |run| && run[i].CallShutDown?
  }

  lemma UnderWayIs(s: System)
    requires LoopInv(s)
    ensures UnderWay(s) <==> s.actor.launching || s.actor.child.Some?
  {
    if s.actor.launching || s.actor.child.Some? {
      assert s.actor.supervision.value in s.loops;
    }
  }

  lemma RequestStep(s: System, p: Policy, e: Event)
    requires Inv(s, p) && Enabled(s, e)
    ensures Step(s, p, e).actor.shuttingDown <==> s.actor.shuttingDown || e.CallShutDown?
    ensures !s.actor.shuttingDown ==>
              (Step(s, p, e).actor.replacementRequested <==>
               !e.CallShutDown? && !e.ExitReturns? && (s.actor.replacementRequested || (e.CallRetry? && UnderWay(s))))
  {
    UnderWayIs(s);
  }

  lemma ShutDownOfMore(before: seq<Event>, e: Event)
    ensures ShutDownCalled(before + [e]) <==> ShutDownCalled(before) || e.CallShutDown?
  {
    var run := before + [e];
    assert run[|before|] == e;
    if ShutDownCalled(before) {
      var i :| 0 <= i < |before| && before[i].CallShutDown?;
      assert run[i].CallShutDown?;
    }
  }

  lemma PressedOfMore(p: Policy, before: seq<Event>, e: Event, i: nat)
    requires Valid(INITIAL, p, before) && i <= |before|
    ensures Pressed(p, before + [e], i) <==>
            if i < |before| then Pressed(p, before, i) else e.CallRetry? && UnderWay(After(INITIAL, p, before))
  {
    assert (before + [e])[..i] == before[..i] && before[..|before|] == before;
  }

  lemma RememberedOfMore(p: Policy, before: seq<Event>, e: Event)
    requires Valid(INITIAL, p, before)
    ensures RetryRemembered(p, before + [e]) <==>
            !e.ExitReturns? && (RetryRemembered(p, before) || (e.CallRetry? && UnderWay(After(INITIAL, p, before))))
  {
    var run := before + [e];
    assert run[|before|] == e && forall j :: 0 <= j < |before| ==> run[j] == before[j];
    PressedOfMore(p, before, e, |before|);
    if !e.ExitReturns? && RetryRemembered(p, before) {
      var i: nat :| Pressed(p, before, i) && forall j :: i < j < |before| ==> !before[j].ExitReturns?;
      PressedOfMore(p, before, e, i);
      assert Pressed(p, run, i);
    }
    if RetryRemembered(p, run) {
      var i: nat :| Pressed(p, run, i) && forall j :: i < j < |run| ==> !run[j].ExitReturns?;
      PressedOfMore(p, before, e, i);
    }
  }

  /** What the actor holds, where `shutDown` was called or not and a Retry is remembered or not. */
  predicate Holds(s: System, shutDown: bool, remembered: bool) {
    && (s.actor.shuttingDown <==> shutDown)
    && (s.actor.replacementRequested <==> !shutDown && remembered)
  }

  lemma HoldsAfter(s: System, p: Policy, e: Event, shutDown: bool, remembered: bool)
    requires Inv(s, p) && Enabled(s, e) && Holds(s, shutDown, remembered)
    ensures Holds(Step(s, p, e), shutDown || e.CallShutDown?,
                  !e.ExitReturns? && (remembered || (e.CallRetry? && UnderWay(s))))
  {
    StepKeeps(s, p, e);
    RequestStep(s, p, e);
  }

  lemma InvAfter(p: Policy, run: seq<Event>)
    requires Valid(INITIAL, p, run)
    ensures Inv(After(INITIAL, p, run), p)
  {
    InitialInv(p);
    RunKeeps(INITIAL, p, run);
  }

  lemma HoldsOfMore(p: Policy, before: seq<Event>, e: Event, shutDown: bool, remembered: bool)
    requires Valid(INITIAL, p, before) && Enabled(After(INITIAL, p, before), e)
    requires Holds(After(INITIAL, p, before), shutDown, remembered)
    ensures Holds(Step(After(INITIAL, p, before), p, e), shutDown || e.CallShutDown?,
                  !e.ExitReturns? && (remembered || (e.CallRetry? && UnderWay(After(INITIAL, p, before)))))
  {
    InvAfter(p, before);
    HoldsAfter(After(INITIAL, p, before), p, e, shutDown, remembered);
  }

  lemma RequestedOfMore(p: Policy, run: seq<Event>, n: nat, at: System)
    requires |run| == n + 1 && Valid(INITIAL, p, run[..n]) && After(INITIAL, p, run[..n]) == at && Enabled(at, run[n])
    requires Holds(at, ShutDownCalled(run[..n]), RetryRemembered(p, run[..n]))
    ensures Holds(Step(at, p, run[n]), ShutDownCalled(run), RetryRemembered(p, run))
  {
    assert run == run[..n] + [run[n]];
    HoldsOfMore(p, run[..n], run[n], ShutDownCalled(run[..n]), RetryRemembered(p, run[..n]));
    ShutDownOfMore(run[..n], run[n]);
    RememberedOfMore(p, run[..n], run[n]);
  }

  lemma NothingRemembered(p: Policy)
    ensures Holds(INITIAL, ShutDownCalled([]), RetryRemembered(p, []))
  {
  }

  /** In every run the actor holds a request to replace exactly when `shutDown` was never called
      and a Retry is remembered. */
  lemma {:induction false} RequestedExactlyWhenRemembered(p: Policy, run: seq<Event>)
    requires Valid(INITIAL, p, run)
    ensures Holds(After(INITIAL, p, run), ShutDownCalled(run), RetryRemembered(p, run))
    decreases |run|
  {
    if run == [] {
      NothingRemembered(p);
    } else {
      var n := |run| - 1;
      LastStep(INITIAL, p, run);
      RequestedExactlyWhenRemembered(p, run[..n]);
      RequestedOfMore(p, run, n, After(INITIAL, p, run[..n]));
    }
  }

  // ----- after a launch that throws -----

  lemma FailureEndsLoop(s: System, p: Policy, e: Event)
    requires LoopInv(s) && Enabled(s, e) && e.LaunchThrows? && !s.actor.shuttingDown
    ensures var failed := Step(s, p, e);
            && failed.loops == map[] && failed.actor.health == CannotSpawn(e.refusal) && !failed.actor.supervising
            && !failed.actor.shuttingDown && failed.actor.replacementRequested == s.actor.replacementRequested
  {
    assert Step(s, p, e).loops == map[];
  }

  lemma RetryWithoutLoop(s: System, p: Policy)
    requires s.loops == map[] && !s.actor.supervising && !s.actor.shuttingDown
    ensures Step(s, p, CallRetry).loops != map[] <==> !s.actor.replacementRequested
    ensures s.actor.replacementRequested ==> Step(s, p, CallRetry) == s
  {
    if !s.actor.replacementRequested {
      assert s.tasks in Step(s, p, CallRetry).loops;
    }
  }

  /** After a run whose last launch throws, pressing Retry starts a new loop exactly when no Retry
      is remembered - pressed in that launch, or in an earlier one that threw; else it changes
      nothing. */
  lemma RetryAfterFailedLaunch(p: Policy, run: seq<Event>, e: Event)
    requires Valid(INITIAL, p, run) && Enabled(After(INITIAL, p, run), e) && e.LaunchThrows? && !ShutDownCalled(run)
    ensures var failed := Step(After(INITIAL, p, run), p, e); var again := Step(failed, p, CallRetry);
            && failed.loops == map[] && failed.actor.health == CannotSpawn(e.refusal)
            && (again.loops != map[] <==> !RetryRemembered(p, run))
            && (RetryRemembered(p, run) ==> again == failed)
  {
    RequestedExactlyWhenRemembered(p, run);
    InvAfter(p, run);
    FailureEndsLoop(After(INITIAL, p, run), p, e);
    RetryWithoutLoop(Step(After(INITIAL, p, run), p, e), p);
  }

  /** Retry is not heard, and no loop is there to consume the request. */
  predicate Deaf(s: System) {
    s.actor.replacementRequested && !s.actor.supervising && !s.actor.shuttingDown
  }

  /** Only `start` and `shutDown` end that state: no number of retries does. */
  lemma {:induction false} DeafUntilStarted(s: System, p: Policy, run: seq<Event>)
    requires Inv(s, p) && Deaf(s) && Valid(s, p, run)
    requires forall e :: e in run ==> !e.CallStart? && !e.CallShutDown?
    ensures After(s, p, run).actor == s.actor && After(s, p, run).loops == map[]
    decreases |run|
  {
    assert s.loops == map[] by {
      assert forall t :: t !in s.loops;
    }
    if run == [] {
    } else {
      DeafStep(s, p, run[0]);
      StepKeeps(s, p, run[0]);
      DeafUntilStarted(Step(s, p, run[0]), p, run[1..]);
    }
  }

  lemma DeafStep(s: System, p: Policy, e: Event)
    requires Inv(s, p) && Deaf(s) && s.loops == map[] && Enabled(s, e) && !e.CallStart? && !e.CallShutDown?
    ensures Step(s, p, e).actor == s.actor
  {
  }

  lemma DeafLaunchBegins(s: System, p: Policy, world: World) returns (launching: System)
    requires Inv(s, p) && Deaf(s) && world.resolved.None?
    ensures var run := [CallStart] + [LoopBegins(s.tasks, world)];
            Valid(s, p, run) && After(s, p, run) == launching
    ensures InLaunch(launching, s.tasks) && launching.actor.replacementRequested && launching.processes == s.processes
  {
    var started := Step(s, p, CallStart);
    launching := Step(started, p, LoopBegins(s.tasks, world));
    assert [] + [CallStart] == [CallStart];
    RunOn(s, p, [], s, CallStart, started);
    RunOn(s, p, [CallStart], started, LoopBegins(s.tasks, world), launching);
  }

  lemma UnwantedArrives(s: System, p: Policy, t: TaskId, overhead: int)
    requires InLaunch(s, t) && s.actor.replacementRequested
    ensures Enabled(s, LaunchReturns(t, overhead))
    ensures Step(s, p, LaunchReturns(t, overhead)).processes == s.processes + [Process(true, false, false, false)]
  {
  }

  /** `start` then launches a process only to ask it to stop as soon as it arrives. */
  lemma StartAfterDeafRetry(s: System, p: Policy, world: World, overhead: int)
    requires Reachable(s, p) && Deaf(s) && world.resolved.None?
    ensures var run := [CallStart, LoopBegins(s.tasks, world), LaunchReturns(s.tasks, overhead)];
            Valid(s, p, run) && After(s, p, run).processes == s.processes + [Process(true, false, false, false)]
  {
    ReachableInv(s, p);
    var launching := DeafLaunchBegins(s, p, world);
    var e := LaunchReturns(s.tasks, overhead);
    UnwantedArrives(launching, p, s.tasks, overhead);
    RunThen(s, p, [CallStart] + [LoopBegins(s.tasks, world)], e);
    assert [CallStart] + [LoopBegins(s.tasks, world)] + [e] == [CallStart, LoopBegins(s.tasks, world), e];
  }

  /** The first launch of all has begun. */
  ghost predicate FirstLaunch(s: System, now: int) {
    && s.loops == map[0 := Launch(now)] && s.actor.supervising && s.actor.launching && s.actor.child == None
    && !s.actor.shuttingDown && !s.actor.replacementRequested
  }

  lemma FirstLaunchBegins(p: Policy, world: World) returns (run: seq<Event>, s: System)
    requires world.resolved.None?
    ensures Valid(INITIAL, p, run) && After(INITIAL, p, run) == s && FirstLaunch(s, world.now)
  {
    var s1 := Step(INITIAL, p, CallStart);
    s := Step(s1, p, LoopBegins(0, world));
    run := [] + [CallStart] + [LoopBegins(0, world)];
    RunOn(INITIAL, p, [], INITIAL, CallStart, s1);
    RunOn(INITIAL, p, [] + [CallStart], s1, LoopBegins(0, world), s);
  }

  /** Such a state is reached: start, launch, Retry, and the launch throws. */
  lemma DeafIsReachable(p: Policy, world: World, refusal: Refusal) returns (s: System)
    requires world.resolved.None?
    ensures Reachable(s, p) && Deaf(s)
  {
    var run, s1 := FirstLaunchBegins(p, world);
    var s2 := Step(s1, p, CallRetry);
    s := Step(s2, p, LaunchThrows(0, refusal));
    RunOn(INITIAL, p, run, s1, CallRetry, s2);
    RunOn(INITIAL, p, run + [CallRetry], s2, LaunchThrows(0, refusal), s);
  }
}
