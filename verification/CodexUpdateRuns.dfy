/** The worker among its callers, its checks and the file events, in every order the `await`s
    allow. */
module CodexUpdateRuns {
  import opened Text
  import opened CodexUpdate

  /** A call of `stop`, awaiting a worker. */
  datatype Stopper = Stopper(worker: Option<TaskId>, returned: bool)

  /** `requests` counts the requests that were heard; `checks` says of each check that started
      how many requests had been heard by then. */
  datatype System = System(
    actor: Actor, workers: map<TaskId, Phase>, tasks: nat, stoppers: seq<Stopper>,
    requests: nat, checks: seq<nat>, reports: seq<Report>)

  const INITIAL := System(FRESH, map[], 0, [], 0, [], [])

  datatype Event =
    | Asks
    | FileEvent(watching: Watching)
    | WorkerBegins(task: TaskId)
    | CheckReturns(task: TaskId, reply: Reply, watching: Watching)
    | StopCalled
    | StopReturns(stopper: nat)

  predicate Enabled(s: System, e: Event) {
    match e
    case Asks => true
    case FileEvent(_) => true
    case WorkerBegins(t) => t in s.workers && s.workers[t].Begin?
    case CheckReturns(t, _, _) => t in s.workers && s.workers[t].Checking?
    case StopCalled => true
    case StopReturns(k) =>
      k < |s.stoppers| && !s.stoppers[k].returned
      && (s.stoppers[k].worker.None? || s.stoppers[k].worker.value !in s.workers)
  }

  function Heard(s: System, actor: Actor, spawned: Option<TaskId>): System {
    s.(actor := actor,
       workers := if spawned.Some? then s.workers[spawned.value := Begin] else s.workers,
       tasks := if spawned.Some? then s.tasks + 1 else s.tasks,
       requests := if s.actor.stopped then s.requests else s.requests + 1)
  }

  /** A stretch of the worker: a check starts, or the worker ends. */
  function Worked(s: System, t: TaskId, actor: Actor, phase: Phase): System {
    if phase.Ended? then s.(actor := actor, workers := s.workers - {t})
    else s.(actor := actor, workers := s.workers[t := phase], checks := s.checks + [s.requests])
  }

  function Step(s: System, e: Event): System
    requires Enabled(s, e)
  {
    match e
    case Asks =>
      var (actor, spawned) := Requested(s.actor, s.tasks);
      Heard(s, actor, spawned)
    case FileEvent(watching) =>
      var (actor, reports, spawned) := FilesChanged(s.actor, watching, s.tasks);
      Heard(s, actor, spawned).(reports := s.reports + reports)
    case WorkerBegins(t) =>
      var (actor, phase) := LoopTest(s.actor);
      Worked(s, t, actor, phase)
    case CheckReturns(t, reply, watching) =>
      var (actor, reports, phase) := CheckReturned(s.actor, reply, watching);
      Worked(s, t, actor, phase).(reports := s.reports + reports)
    case StopCalled =>
      s.(actor := Stopping(s.actor), stoppers := s.stoppers + [Stopper(s.actor.work, false)])
    case StopReturns(k) =>
      s.(actor := StoppedDone(s.actor), stoppers := s.stoppers[k := s.stoppers[k].(returned := true)])
  }

  predicate Valid(s: System, run: seq<Event>)
    decreases |run|
  {
    run == [] || (Enabled(s, run[0]) && Valid(Step(s, run[0]), run[1..]))
  }

  function After(s: System, run: seq<Event>): System
    requires Valid(s, run)
    decreases |run|
  {
    if run == [] then s else After(Step(s, run[0]), run[1..])
  }

  // ----- the invariant -----

  /** How many requests had been heard when the last check started. */
  function Served(s: System): nat {
    if s.checks == [] then 0 else s.checks[|s.checks| - 1]
  }

  /** One worker at most, known to the actor; a pending request has one. */
  ghost predicate WorkerInv(s: System) {
    && (forall t :: t in s.workers ==> t < s.tasks && s.actor.work == Some(t) && !s.workers[t].Ended?)
    && (s.actor.work.Some? ==> s.actor.work.value in s.workers)
    && (s.actor.pending ==> s.actor.work.Some? && !s.actor.stopped)
  }

  /** A request that no check has started after is pending. */
  ghost predicate RequestInv(s: System) {
    && Served(s) <= s.requests
    && (!s.actor.stopped && Served(s) < s.requests ==> s.actor.pending)
    && (forall t :: t in s.workers && s.workers[t].Begin? && !s.actor.stopped ==> s.actor.pending)
  }

  ghost predicate StopperInv(s: System) {
    && (s.stoppers != [] ==> s.actor.stopped)
    && (forall k :: 0 <= k < |s.stoppers| ==> StopperOk(s.actor, s.stoppers[k]))
    && (s.actor.stopped ==> s.actor.observer == None)
  }

  predicate StopperOk(a: Actor, stopper: Stopper) {
    if stopper.returned then a.work == None else a.work.Some? ==> stopper.worker == a.work
  }

  /** Each report differs from the one before, and the first from silence. */
  ghost predicate News(last: Report, reports: seq<Report>) {
    && last == (if reports == [] then None else reports[|reports| - 1])
    && (reports != [] ==> reports[0].Some?)
    && (forall i :: 0 < i < |reports| ==> reports[i] != reports[i - 1])
  }

  ghost predicate ReportInv(s: System) {
    News(s.actor.lastFailure, s.reports)
  }

  ghost predicate WatchInv(s: System) {
    s.actor.observer.Some? ==> s.actor.observer.value == s.actor.watchedPaths
  }

  ghost predicate Inv(s: System) {
    WorkerInv(s) && RequestInv(s) && StopperInv(s) && ReportInv(s) && WatchInv(s)
  }

  lemma StepKeepsWorkerInv(s: System, e: Event)
    requires Inv(s) && Enabled(s, e)
    ensures WorkerInv(Step(s, e))
  {
  }

  lemma StepKeepsRequestInv(s: System, e: Event)
    requires Inv(s) && Enabled(s, e)
    ensures RequestInv(Step(s, e))
  {
  }

  lemma StepKeepsStopperInv(s: System, e: Event)
    requires Inv(s) && Enabled(s, e)
    ensures StopperInv(Step(s, e))
  {
  }

  lemma ShownIsNews(a: Actor, reports: seq<Report>, failure: Report)
    requires News(a.lastFailure, reports)
    ensures News(Shown(a, failure).0.lastFailure, reports + Shown(a, failure).1)
  {
  }

  lemma JudgedIsNews(a: Actor, reports: seq<Report>, result: CheckResult)
    requires News(a.lastFailure, reports)
    ensures News(Judged(a, result).0.lastFailure, reports + Judged(a, result).1)
  {
    match result.status
    case Failed => ShownIsNews(a, reports, Some(result.failure));
    case Updated => ShownIsNews(a, reports, None);
    case Other => assert reports + [] == reports;
  }

  lemma HandledIsNews(a: Actor, reports: seq<Report>, reply: Reply, watching: Watching)
    requires News(a.lastFailure, reports)
    ensures News(Handled(a, reply, watching).0.lastFailure, reports + Handled(a, reply, watching).1)
  {
    match reply.result
    case None => ShownIsNews(a, reports, Some(if reply.failure.Some? then reply.failure.value else reply.undecodable));
    case Some(result) =>
      var noted := a.(attempted := result.attempted);
      var watched := Watched(noted.(watchedPaths := result.watchPaths), watching);
      if noted.watchedPaths == result.watchPaths {
        JudgedIsNews(noted, reports, result);
      } else if watching.Throws? {
        ShownIsNews(watched, reports, Some(if reply.failure.Some? then reply.failure.value else watching.error));
      } else {
        JudgedIsNews(watched.(pending := true), reports, result);
      }
  }

  lemma StepKeepsReportInv(s: System, e: Event)
    requires Inv(s) && Enabled(s, e)
    ensures ReportInv(Step(s, e))
  {
    assert s.reports + [] == s.reports;
    if e.FileEvent? {
      ShownIsNews(Watched(s.actor, e.watching), s.reports, if e.watching.Throws? then Some(e.watching.error) else None);
    } else if e.CheckReturns? {
      HandledIsNews(s.actor, s.reports, e.reply, e.watching);
    }
  }

  lemma StepKeepsWatchInv(s: System, e: Event)
    requires Inv(s) && Enabled(s, e)
    ensures WatchInv(Step(s, e))
  {
  }

  lemma StepKeeps(s: System, e: Event)
    requires Inv(s) && Enabled(s, e)
    ensures Inv(Step(s, e))
  {
    StepKeepsWorkerInv(s, e);
    StepKeepsRequestInv(s, e);
    StepKeepsStopperInv(s, e);
    StepKeepsReportInv(s, e);
    StepKeepsWatchInv(s, e);
  }

  lemma {:induction false} RunKeeps(s: System, run: seq<Event>)
    requires Inv(s) && Valid(s, run)
    ensures Inv(After(s, run))
    decreases |run|
  {
    if run == [] {
    } else {
      StepKeeps(s, run[0]);
      RunKeeps(Step(s, run[0]), run[1..]);
    }
  }

  ghost predicate Reachable(s: System) {
    exists run :: Valid(INITIAL, run) && After(INITIAL, run) == s
  }

  lemma ReachableInv(s: System)
    requires Reachable(s)
    ensures Inv(s)
  {
    var run :| Valid(INITIAL, run) && After(INITIAL, run) == s;
    RunKeeps(INITIAL, run);
  }

  // ----- what every run keeps -----

  predicate InCheck(s: System, t: TaskId) {
    t in s.workers && s.workers[t].Checking?
  }

  /** Checks never overlap: a check starts only where no other is in flight. */
  lemma ChecksNeverOverlap(s: System, e: Event)
    requires Reachable(s) && Enabled(s, e)
    ensures forall t, u :: InCheck(s, t) && InCheck(s, u) ==> t == u
    ensures |Step(s, e).checks| > |s.checks| ==>
              (e.WorkerBegins? || e.CheckReturns?) && forall t :: InCheck(s, t) ==> e.CheckReturns? && e.task == t
  {
    ReachableInv(s);
  }

  lemma StoppedStep(s: System, e: Event)
    requires Inv(s) && Enabled(s, e) && s.actor.stopped
    ensures Step(s, e).actor.stopped && Step(s, e).checks == s.checks
    ensures Step(s, e).reports == s.reports && Step(s, e).actor.observer == None
  {
  }

  /** After `stop` no check starts, nothing is reported and nothing is watched, in any run. */
  lemma {:induction false} NothingAfterStop(s: System, run: seq<Event>)
    requires Inv(s) && s.actor.stopped && Valid(s, run)
    ensures After(s, run).checks == s.checks && After(s, run).reports == s.reports
    ensures After(s, run).actor.observer == None
    decreases |run|
  {
    if run == [] {
    } else {
      StoppedStep(s, run[0]);
      StepKeeps(s, run[0]);
      NothingAfterStop(Step(s, run[0]), run[1..]);
    }
  }

  /** `stop` returns with no worker left: a check that was in flight has ended. */
  lemma StopWaitsForTheCheck(s: System, k: nat)
    requires Reachable(s) && k < |s.stoppers| && s.stoppers[k].returned
    ensures s.workers == map[] && s.actor.stopped && !s.actor.pending
  {
    ReachableInv(s);
    assert StopperOk(s.actor, s.stoppers[k]);
    assert forall t :: t !in s.workers;
  }

  /** No request is lost: one that no check has started after yet is pending, with a live
      worker, whose very next turn, unless `stop` comes first, starts a check after it. */
  lemma NoRequestIsLost(s: System) returns (t: TaskId)
    requires Reachable(s) && !s.actor.stopped && Served(s) < s.requests
    ensures s.actor.pending && s.actor.work == Some(t) && t in s.workers
    ensures s.workers[t].Begin? ==>
              Enabled(s, WorkerBegins(t)) && Served(Step(s, WorkerBegins(t))) == s.requests
    ensures s.workers[t].Checking? ==>
              forall reply, watching {:trigger CheckReturns(t, reply, watching)} ::
                Enabled(s, CheckReturns(t, reply, watching))
                && Served(Step(s, CheckReturns(t, reply, watching))) == s.requests
  {
    ReachableInv(s);
    t := s.actor.work.value;
    if s.workers[t].Checking? {
      forall reply, watching {:trigger CheckReturns(t, reply, watching)}
        ensures Enabled(s, CheckReturns(t, reply, watching))
        ensures Served(Step(s, CheckReturns(t, reply, watching))) == s.requests
      {
        ReturnServes(s, t, reply, watching);
      }
    }
  }

  lemma ReturnServes(s: System, t: TaskId, reply: Reply, watching: Watching)
    requires InCheck(s, t) && s.actor.pending && !s.actor.stopped
    ensures Enabled(s, CheckReturns(t, reply, watching))
    ensures Served(Step(s, CheckReturns(t, reply, watching))) == s.requests
  {
  }

  /** So whenever the worker has gone without `stop`, every request has been followed by a check
      that started after it. */
  lemma IdleMeansServed(s: System)
    requires Reachable(s) && s.workers == map[] && !s.actor.stopped
    ensures Served(s) == s.requests
  {
    ReachableInv(s);
  }

  /** Each report says something new, and the first is a failure. */
  lemma ReportsAreNews(s: System)
    requires Reachable(s)
    ensures s.reports != [] ==> s.reports[0].Some?
    ensures forall i :: 0 < i < |s.reports| ==> s.reports[i] != s.reports[i - 1]
  {
    ReachableInv(s);
  }

  // ----- watching -----

  lemma HandledWatches(a: Actor, reply: Reply, watching: Watching)
    requires reply.result.Some? && (a.observer.Some? ==> a.observer.value == a.watchedPaths)
    ensures var paths := reply.result.value.watchPaths; var handled := Handled(a, reply, watching).0;
            && handled.watchedPaths == paths
            && (handled.observer == Some(paths) <==>
                  if a.watchedPaths == paths then a.observer.Some? else watching.Watches?)
  {
  }

  /** After a check's result the event stream watches what the result names - exactly when the
      paths are new and setting it up worked, or they are the same and it was still up. */
  lemma WatchesWhatTheCheckNamed(s: System, e: Event)
    requires Reachable(s) && Enabled(s, e) && e.CheckReturns? && e.reply.result.Some? && !s.actor.stopped
    ensures var paths := e.reply.result.value.watchPaths; var after := Step(s, e).actor;
            && after.watchedPaths == paths
            && (after.observer == Some(paths) <==>
                  if s.actor.watchedPaths == paths then s.actor.observer.Some? else e.watching.Watches?)
  {
    ReachableInv(s);
    HandledWatches(s.actor, e.reply, e.watching);
    var handled, after := Handled(s.actor, e.reply, e.watching).0, Step(s, e).actor;
    assert after.observer == handled.observer && after.watchedPaths == handled.watchedPaths;
  }

  /** New paths that are watched are checked once more at once: the gap before the watch was up
      is closed. */
  lemma RetargetChecksAgain(s: System, e: Event)
    requires Reachable(s) && Enabled(s, e) && e.CheckReturns? && e.reply.result.Some? && !s.actor.stopped
    requires e.reply.result.value.watchPaths != s.actor.watchedPaths && e.watching.Watches?
    ensures Step(s, e).workers[e.task] == Checking(e.reply.result.value.attempted)
  {
  }

  /** A watch that threw is not set up again by checks that name the same paths. */
  predicate SamePaths(e: Event, paths: Paths) {
    !e.FileEvent? && (e.CheckReturns? && e.reply.result.Some? ==> e.reply.result.value.watchPaths == paths)
  }

  lemma {:induction false} LostWatchStaysLost(s: System, run: seq<Event>)
    requires Valid(s, run) && s.actor.observer == None
    requires forall i :: 0 <= i < |run| ==> SamePaths(run[i], s.actor.watchedPaths)
    ensures After(s, run).actor.observer == None
    decreases |run|
  {
    if run == [] {
    } else {
      SameWatch(s, run[0]);
      LostWatchStaysLost(Step(s, run[0]), run[1..]);
    }
  }

  /** The first check names some paths, and watching them throws. */
  function FirstWatchThrows(paths: Paths, error: string): seq<Event> {
    [Asks, WorkerBegins(0), CheckReturns(0, Reply(Some(CheckResult(Other, "", "", paths)), None, ""), Throws(error))]
  }

  lemma StepThenRun(s: System, e: Event, rest: seq<Event>)
    requires Enabled(s, e) && Valid(Step(s, e), rest)
    ensures Valid(s, [e] + rest) && After(s, [e] + rest) == After(Step(s, e), rest)
  {
    assert ([e] + rest)[1..] == rest;
  }

  lemma LostWatchIsReachable(paths: Paths, error: string) returns (s: System)
    requires paths != []
    ensures Valid(INITIAL, FirstWatchThrows(paths, error)) && After(INITIAL, FirstWatchThrows(paths, error)) == s
    ensures Reachable(s) && s.actor.observer == None && s.actor.watchedPaths == paths && !s.actor.stopped
  {
    var run := FirstWatchThrows(paths, error);
    var s1 := Step(INITIAL, run[0]);
    var s2 := Step(s1, run[1]);
    s := Step(s2, run[2]);
    StepThenRun(s2, run[2], []);
    StepThenRun(s1, run[1], [run[2]] + []);
    StepThenRun(INITIAL, run[0], [run[1]] + ([run[2]] + []));
    assert [run[0]] + ([run[1]] + ([run[2]] + [])) == run;
  }

  lemma SameWatch(s: System, e: Event)
    requires Enabled(s, e) && s.actor.observer == None && SamePaths(e, s.actor.watchedPaths)
    ensures Step(s, e).actor.observer == None && Step(s, e).actor.watchedPaths == s.actor.watchedPaths
  {
  }
}
