/** What the person has been told and what the next check is given, read off the run alone: the
    reports, the attempted version and the watched paths beside a short account of the events. */
module CodexUpdateTold {
  import opened Text
  import opened CodexUpdate
  import opened CodexUpdateRuns

  /** What the events so far amount to; `up` says that the paths are watched. */
  datatype Account = Account(attempted: string, paths: Paths, up: bool, told: Report, stopped: bool)

  const NOTHING_YET := Account("", [], false, None, false)

  function Or(first: Option<string>, otherwise: string): string {
    if first.Some? then first.value else otherwise
  }

  /** A result that names new paths which cannot be watched says so; else a failed one says why, an
      updated one takes the failure back, and any other says nothing. */
  function Recount(account: Account, result: CheckResult, failure: Option<string>, watching: Watching): Account {
    var up := if result.watchPaths == account.paths then account.up else watching.Watches?;
    var noted := account.(attempted := result.attempted, paths := result.watchPaths, up := up);
    if result.watchPaths != account.paths && watching.Throws? then noted.(told := Some(Or(failure, watching.error)))
    else if result.status == Failed then noted.(told := Some(result.failure))
    else if result.status == Updated then noted.(told := None)
    else noted
  }

  function Next(account: Account, e: Event): Account {
    if account.stopped then account
    else match e
      case StopCalled => account.(stopped := true, up := false)
      case FileEvent(Throws(error)) => account.(told := Some(error), up := false)
      case FileEvent(Watches) => account.(up := true)
      case CheckReturns(_, Reply(None, failure, undecodable), _) => account.(told := Some(Or(failure, undecodable)))
      case CheckReturns(_, Reply(Some(result), failure, _), watching) => Recount(account, result, failure, watching)
      case _ => account
  }

  function AccountFrom(account: Account, run: seq<Event>): Account
    decreases |run|
  {
    if run == [] then account else AccountFrom(Next(account, run[0]), run[1..])
  }

  function Told(reports: seq<Report>): Report {
    if reports == [] then None else reports[|reports| - 1]
  }

  /** The last report is what is to be told, the check in flight was given the version that the last
      result attempted, and what is watched is what the last result named. */
  ghost predicate Agrees(s: System, account: Account) {
    && Told(s.reports) == account.told && s.actor.stopped == account.stopped
    && s.actor.observer == (if account.up then Some(account.paths) else None)
    && (!account.stopped ==> s.actor.attempted == account.attempted && s.actor.watchedPaths == account.paths)
    && (!account.stopped ==> forall t :: InCheck(s, t) ==> s.workers[t].attempted == account.attempted)
  }

  lemma ShownIsTold(a: Actor, reports: seq<Report>, failure: Report)
    requires a.lastFailure == Told(reports)
    ensures Told(reports + Shown(a, failure).1) == failure
  {
  }

  lemma NothingTold(reports: seq<Report>)
    ensures reports + [] == reports
  {
  }

  lemma JudgedIsTold(a: Actor, reports: seq<Report>, result: CheckResult)
    requires a.lastFailure == Told(reports)
    ensures Told(reports + Judged(a, result).1) ==
            match result.status
            case Failed => Some(result.failure)
            case Updated => None
            case Other => Told(reports)
  {
    NothingTold(reports);
    if !result.status.Other? {
      ShownIsTold(a, reports, if result.status.Failed? then Some(result.failure) else None);
    }
  }

  /** The account and the actor are of one mind about everything but what was told. */
  predicate Noted(a: Actor, account: Account) {
    && account.attempted == a.attempted && account.paths == a.watchedPaths && account.stopped == a.stopped
    && a.observer == if account.up then Some(account.paths) else None
  }

  lemma HandledIsTold(a: Actor, reports: seq<Report>, reply: Reply, watching: Watching, t: TaskId, account: Account)
    requires a.lastFailure == Told(reports) == account.told && !a.stopped && Noted(a, account)
    ensures Told(reports + Handled(a, reply, watching).1) == Next(account, CheckReturns(t, reply, watching)).told
  {
    match reply.result
    case None => ShownIsTold(a, reports, Some(Or(reply.failure, reply.undecodable)));
    case Some(result) =>
      var noted := a.(attempted := result.attempted);
      var watched := Watched(noted.(watchedPaths := result.watchPaths), watching);
      if noted.watchedPaths == result.watchPaths {
        JudgedIsTold(noted, reports, result);
      } else if watching.Throws? {
        ShownIsTold(watched, reports, Some(Or(reply.failure, watching.error)));
      } else {
        JudgedIsTold(watched.(pending := true), reports, result);
      }
  }

  /** Telling changes nothing else in the actor. */
  predicate SameButTold(a: Actor, b: Actor) {
    && a.attempted == b.attempted && a.watchedPaths == b.watchedPaths
    && a.stopped == b.stopped && a.observer == b.observer
  }

  lemma ToldOnly(a: Actor, failure: Report, result: CheckResult)
    ensures SameButTold(a, Shown(a, failure).0) && SameButTold(a, Judged(a, result).0)
  {
  }

  lemma HandledIsNoted(a: Actor, reply: Reply, watching: Watching, t: TaskId, account: Account)
    requires !a.stopped && Noted(a, account)
    ensures Noted(Handled(a, reply, watching).0, Next(account, CheckReturns(t, reply, watching)))
  {
    match reply.result
    case None =>
      ToldOnly(a, Some(Or(reply.failure, reply.undecodable)), CheckResult(Other, "", "", []));
    case Some(result) =>
      var noted := a.(attempted := result.attempted);
      var watched := Watched(noted.(watchedPaths := result.watchPaths), watching);
      var said := Some(Or(reply.failure, if watching.Throws? then watching.error else ""));
      ToldOnly(noted, None, result);
      ToldOnly(watched, said, result);
      ToldOnly(watched.(pending := true), None, result);
  }

  lemma ReturnAgrees(s: System, e: Event, account: Account)
    requires Inv(s) && Enabled(s, e) && e.CheckReturns? && Agrees(s, account)
    ensures Agrees(Step(s, e), Next(account, e))
  {
    if s.actor.stopped {
      NothingTold(s.reports);
    } else {
      HandledIsTold(s.actor, s.reports, e.reply, e.watching, e.task, account);
      HandledIsNoted(s.actor, e.reply, e.watching, e.task, account);
    }
  }

  lemma OtherAgrees(s: System, e: Event, account: Account)
    requires Inv(s) && Enabled(s, e) && !e.CheckReturns? && Agrees(s, account)
    ensures Agrees(Step(s, e), Next(account, e))
  {
    NothingTold(s.reports);
    if e.FileEvent? && e.watching.Throws? {
      ShownIsTold(Watched(s.actor, e.watching), s.reports, Some(e.watching.error));
    }
  }

  /** In every run. */
  lemma {:induction false} RunAgrees(s: System, run: seq<Event>, account: Account)
    requires Inv(s) && Valid(s, run) && Agrees(s, account)
    ensures Agrees(After(s, run), AccountFrom(account, run))
    decreases |run|
  {
    if run == [] {
    } else {
      StepKeeps(s, run[0]);
      if run[0].CheckReturns? {
        ReturnAgrees(s, run[0], account);
      } else {
        OtherAgrees(s, run[0], account);
      }
      RunAgrees(Step(s, run[0]), run[1..], Next(account, run[0]));
    }
  }

  /** From the start: the last report is what the run says is to be told, each check is given what
      the last result attempted, and the paths watched are the ones the last result named. */
  lemma TellsTheRun(run: seq<Event>)
    requires Valid(INITIAL, run)
    ensures Agrees(After(INITIAL, run), AccountFrom(NOTHING_YET, run))
  {
    RunAgrees(INITIAL, run, NOTHING_YET);
  }
}
