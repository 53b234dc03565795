/** How long an engine is held to have run, over whole runs: from where its launch began, wherever
    that was, to its exit, without the launcher's own work. */
module SupervisorClocks {
  import opened Basics
  import opened Text
  import opened RestartPolicy
  import opened EngineSupervisor
  import opened SupervisorRuns
  import opened SupervisorLaws
  import opened SupervisorRetries

  /** What the clock showed where a step took the loop of task `t` to its head: as it began, after
      a backoff, or at an exit that may go straight on. */
  function HeadClock(e: Event, t: TaskId): Option<int> {
    match e
    case LoopBegins(u, world) => if u == t then Some(world.now) else None
    case SleepEnds(u, world) => if u == t then Some(world.now) else None
    case ExitReturns(u, _, world) => if u == t then Some(world.now) else None
    case _ => None
  }

  /** The work of the launcher that a launch in the loop of task `t` came back with. */
  function LaunchWork(e: Event, t: TaskId): Option<int> {
    match e
    case LaunchReturns(u, overhead) => if u == t then Some(overhead) else None
    case _ => None
  }

  function LatestHead(run: seq<Event>, t: TaskId): Option<int> {
    if run == [] then None
    else
      var now := HeadClock(run[|run| - 1], t);
      if now.Some? then now else LatestHead(run[..|run| - 1], t)
  }

  function LatestWork(run: seq<Event>, t: TaskId): Option<int> {
    if run == [] then None
    else
      var work := LaunchWork(run[|run| - 1], t);
      if work.Some? then work else LatestWork(run[..|run| - 1], t)
  }

  /** A launch that returns leaves its loop beside the new process, with the moment that launch began
      and the launcher's work it came back with. */
  lemma LaunchParks(s: System, p: Policy, e: Event)
    requires Enabled(s, e) && e.LaunchReturns?
    ensures var at := WhereIs(Step(s, p, e), e.task);
            && at.Exit? && at.process == |s.processes|
            && at.startedAt == s.loops[e.task].startedAt && at.overhead == e.overhead
  {
  }

  /** A loop in a launch or beside a process knows when that launch began, and what of its time
      was the launcher's. */
  predicate Knows(at: Await, began: Option<int>, work: Option<int>) {
    match at
    case Launch(startedAt) => began == Some(startedAt)
    case Exit(_, startedAt, overhead, _) => began == Some(startedAt) && work == Some(overhead)
    case _ => true
  }

  ghost predicate KnowsAll(s: System, run: seq<Event>) {
    forall t :: t in s.loops ==> Knows(s.loops[t], LatestHead(run, t), LatestWork(run, t))
  }

  lemma OneStepMore(run: seq<Event>, e: Event, t: TaskId)
    ensures LatestHead(run + [e], t) == if HeadClock(e, t).Some? then HeadClock(e, t) else LatestHead(run, t)
    ensures LatestWork(run + [e], t) == if LaunchWork(e, t).Some? then LaunchWork(e, t) else LatestWork(run, t)
  {
    assert (run + [e])[..|run|] == run;
  }

  lemma StepKnows(s: System, p: Policy, e: Event, t: TaskId, began: Option<int>, work: Option<int>)
    requires Enabled(s, e) && t in Step(s, p, e).loops
    requires t in s.loops ==> Knows(s.loops[t], began, work)
    ensures Knows(Step(s, p, e).loops[t],
                  if HeadClock(e, t).Some? then HeadClock(e, t) else began,
                  if LaunchWork(e, t).Some? then LaunchWork(e, t) else work)
  {
  }

  lemma KnowsMore(p: Policy, run: seq<Event>, n: nat, at: System)
    requires |run| == n + 1 && Enabled(at, run[n]) && KnowsAll(at, run[..n])
    ensures KnowsAll(Step(at, p, run[n]), run)
  {
    assert run == run[..n] + [run[n]];
    forall t | t in Step(at, p, run[n]).loops
      ensures Knows(Step(at, p, run[n]).loops[t], LatestHead(run, t), LatestWork(run, t))
    {
      StepKnows(at, p, run[n], t, LatestHead(run[..n], t), LatestWork(run[..n], t));
      OneStepMore(run[..n], run[n], t);
    }
  }

  lemma NothingKnown()
    ensures KnowsAll(INITIAL, [])
  {
  }

  lemma {:induction false} RunKnows(p: Policy, run: seq<Event>)
    requires Valid(INITIAL, p, run)
    ensures KnowsAll(After(INITIAL, p, run), run)
    decreases |run|
  {
    if run == [] {
      NothingKnown();
    } else {
      var n := |run| - 1;
      LastStep(INITIAL, p, run);
      RunKnows(p, run[..n]);
      KnowsMore(p, run, n, After(INITIAL, p, run[..n]));
    }
  }

  lemma JudgedOnKnown(s: System, p: Policy, run: seq<Event>, e: Event)
    requires Enabled(s, e) && e.ExitReturns? && KnowsAll(s, run)
    requires !s.actor.shuttingDown && !s.actor.replacementRequested
    ensures LatestHead(run, e.task).Some? && LatestWork(run, e.task).Some?
    ensures var ranFor := e.world.now - LatestHead(run, e.task).value - LatestWork(run, e.task).value;
            JudgedAs(s.actor, p, Max(0, ranFor), e.code, e.world, Step(s, p, e).actor, WhereIs(Step(s, p, e), e.task))
  {
    assert Knows(s.loops[e.task], LatestHead(run, e.task), LatestWork(run, e.task));
    UnaskedExitIsJudged(s, p, e);
  }

  /** In every run, an exit nobody asked for is judged on the time from where its launch began,
      less the launcher's work, and never less than nothing. */
  lemma ExitIsJudgedOnItsRun(p: Policy, run: seq<Event>, e: Event)
    requires Valid(INITIAL, p, run) && Enabled(After(INITIAL, p, run), e) && e.ExitReturns?
    requires !After(INITIAL, p, run).actor.shuttingDown && !After(INITIAL, p, run).actor.replacementRequested
    ensures LatestHead(run, e.task).Some? && LatestWork(run, e.task).Some?
    ensures var s := After(INITIAL, p, run);
            var ranFor := e.world.now - LatestHead(run, e.task).value - LatestWork(run, e.task).value;
            JudgedAs(s.actor, p, Max(0, ranFor), e.code, e.world, Step(s, p, e).actor, WhereIs(Step(s, p, e), e.task))
  {
    RunKnows(p, run);
    JudgedOnKnown(After(INITIAL, p, run), p, run, e);
  }
}
