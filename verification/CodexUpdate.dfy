/** The update worker: one serialized check, asked for by startup and by file events, on the
    main actor. Each method is one stretch between `await`s, proved equal to a function of the
    actor's fields. */
module CodexUpdate {
  import opened Text

  type TaskId = nat
  type Paths = seq<string>

  datatype Status = Updated | Failed | Other

  datatype CheckResult = CheckResult(status: Status, failure: string, attempted: string, watchPaths: Paths)

  /** What a check answers: the result, if it decodes, and what to say if it does not. */
  datatype Reply = Reply(result: Option<CheckResult>, failure: Option<string>, undecodable: string)

  /** `observer` is what the live event stream watches. */
  datatype Actor = Actor(
    observer: Option<Paths>, work: Option<TaskId>, pending: bool, stopped: bool,
    attempted: string, lastFailure: Option<string>, watchedPaths: Paths)

  const FRESH := Actor(None, None, false, false, "", None, [])

  type Report = Option<string>

  datatype Phase = Begin | Checking(attempted: string) | Ended

  /** What setting up an event stream does: it works, or throws this. */
  datatype Watching = Watches | Throws(error: string)

  // ----- what callers ask -----

  function Requested(a: Actor, task: TaskId): (Actor, Option<TaskId>) {
    if a.stopped then (a, None)
    else if a.work.Some? then (a.(pending := true), None)
    else (a.(pending := true, work := Some(task)), Some(task))
  }

  function Stopping(a: Actor): Actor {
    a.(stopped := true, pending := false, observer := None)
  }

  function StoppedDone(a: Actor): Actor {
    a.(work := None)
  }

  function Watched(a: Actor, watching: Watching): Actor {
    a.(observer := if watching.Watches? then Some(a.watchedPaths) else None)
  }

  function Shown(a: Actor, failure: Report): (Actor, seq<Report>) {
    if failure == a.lastFailure then (a, []) else (a.(lastFailure := failure), [failure])
  }

  /** A file event: the stream is set up again, and a check is asked for either way. */
  function FilesChanged(a: Actor, watching: Watching, task: TaskId): (Actor, seq<Report>, Option<TaskId>) {
    if a.stopped then (a, [], None)
    else
      var watched := Watched(a, watching);
      var (shown, reports) := if watching.Throws? then Shown(watched, Some(watching.error)) else (watched, []);
      var (asked, spawned) := Requested(shown, task);
      (asked, reports, spawned)
  }

  // ----- the worker -----

  /** The loop's condition, and the call of `check`; or the end of the worker. */
  function LoopTest(a: Actor): (Actor, Phase) {
    if a.pending && !a.stopped then (a.(pending := false), Checking(a.attempted)) else (a.(work := None), Ended)
  }

  function Judged(a: Actor, result: CheckResult): (Actor, seq<Report>) {
    match result.status
    case Failed => Shown(a, Some(result.failure))
    case Updated => Shown(a, None)
    case Other => (a, [])
  }

  function Handled(a: Actor, reply: Reply, watching: Watching): (Actor, seq<Report>) {
    match reply.result
    case None => Shown(a, Some(if reply.failure.Some? then reply.failure.value else reply.undecodable))
    case Some(result) =>
      var noted := a.(attempted := result.attempted);
      if noted.watchedPaths == result.watchPaths then Judged(noted, result)
      else
        var watched := Watched(noted.(watchedPaths := result.watchPaths), watching);
        match watching
        case Throws(error) => Shown(watched, Some(if reply.failure.Some? then reply.failure.value else error))
        case Watches => Judged(watched.(pending := true), result)
  }

  function CheckReturned(a: Actor, reply: Reply, watching: Watching): (Actor, seq<Report>, Phase) {
    if a.stopped then (a.(work := None), [], Ended)
    else
      var (handled, reports) := Handled(a, reply, watching);
      var (next, phase) := LoopTest(handled);
      (next, reports, phase)
  }

  class CodexUpdate {
    var observer: Option<Paths>
    var work: Option<TaskId>
    var pending: bool
    var stopped: bool
    var attempted: string
    var lastFailure: Option<string>
    var watchedPaths: Paths

    function State(): Actor
      reads this
    {
      Actor(observer, work, pending, stopped, attempted, lastFailure, watchedPaths)
    }

    constructor ()
      ensures State() == FRESH
    {
      observer, work, pending, stopped := None, None, false, false;
      attempted, lastFailure, watchedPaths := "", None, [];
    }

    method CheckForUpdate(task: TaskId) returns (spawned: Option<TaskId>)
      modifies this
      ensures (State(), spawned) == Requested(old(State()), task)
    {
      if stopped {
        return None;
      }
      pending := true;
      if work.Some? {
        return None;
      }
      work := Some(task);
      return Some(task);
    }

    method BeginStop()
      modifies this
      ensures State() == Stopping(old(State()))
    {
      stopped := true;
      pending := false;
      observer := None;
    }

    method EndStop()
      modifies this
      ensures State() == StoppedDone(old(State()))
    {
      work := None;
    }

    method Watch(watching: Watching)
      modifies this
      ensures State() == Watched(old(State()), watching)
    {
      observer := None;
      if watching.Watches? {
        observer := Some(watchedPaths);
      }
    }

    method ShowFailure(failure: Report) returns (reports: seq<Report>)
      modifies this
      ensures (State(), reports) == Shown(old(State()), failure)
    {
      if failure == lastFailure {
        return [];
      }
      lastFailure := failure;
      return [failure];
    }

    method FileEvent(watching: Watching, task: TaskId) returns (reports: seq<Report>, spawned: Option<TaskId>)
      modifies this
      ensures (State(), reports, spawned) == FilesChanged(old(State()), watching, task)
    {
      if stopped {
        return [], None;
      }
      Watch(watching);
      reports := [];
      if watching.Throws? {
        reports := ShowFailure(Some(watching.error));
      }
      spawned := CheckForUpdate(task);
    }

    method TestLoop() returns (phase: Phase)
      modifies this
      ensures (State(), phase) == LoopTest(old(State()))
    {
      if pending && !stopped {
        pending := false;
        return Checking(attempted);
      }
      work := None;
      return Ended;
    }

    method Judge(result: CheckResult) returns (reports: seq<Report>)
      modifies this
      ensures (State(), reports) == Judged(old(State()), result)
    {
      reports := [];
      if result.status.Failed? {
        reports := ShowFailure(Some(result.failure));
      } else if result.status.Updated? {
        reports := ShowFailure(None);
      }
    }

    method HandleReturn(reply: Reply, watching: Watching) returns (reports: seq<Report>, phase: Phase)
      modifies this
      ensures (State(), reports, phase) == CheckReturned(old(State()), reply, watching)
    {
      if stopped {
        work := None;
        return [], Ended;
      }
      if reply.result.None? {
        reports := ShowFailure(Some(if reply.failure.Some? then reply.failure.value else reply.undecodable));
      } else {
        var result := reply.result.value;
        attempted := result.attempted;
        var threw := false;
        if watchedPaths != result.watchPaths {
          watchedPaths := result.watchPaths;
          Watch(watching);
          threw := watching.Throws?;
          pending := pending || !threw;
        }
        if threw {
          reports := ShowFailure(Some(if reply.failure.Some? then reply.failure.value else watching.error));
        } else {
          reports := Judge(result);
        }
      }
      phase := TestLoop();
    }
  }
}
