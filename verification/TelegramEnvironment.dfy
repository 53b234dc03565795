/** Which credential files are read, and as what, said of their lines: what counts as a line, which
    line is the first problem, and when the shell finds Telegram ready. */
module TelegramEnvironment {
  import opened Text
  import opened TelegramCredentials
  import opened TelegramSaving

  // ----- one line -----

  /** Blanks, or blanks and a comment. */
  ghost predicate IsRemark(line: string) {
    AllBlank(line) || exists blanks, rest :: AllBlank(blanks) && line == blanks + ("#" + rest)
  }

  lemma RemarkIsSkipped(line: string)
    requires IsRemark(line)
    ensures ViewOf(line) == Skipped
  {
    if AllBlank(line) {
      TrimStartSkips(line, "");
      assert line + "" == line;
    } else {
      var blanks, rest :| AllBlank(blanks) && line == blanks + ("#" + rest);
      TrimStartSkips(blanks, "#" + rest);
      assert TrimStart("#" + rest) == "#" + rest;
      TrimEndKeepsHead("#", rest);
    }
  }

  lemma SkippedIsRemark(line: string)
    requires ViewOf(line) == Skipped
    ensures IsRemark(line)
  {
    var lead, tail := BlanksAround(line);
    var t := Trim(line);
    if t == "" {
      assert line == lead + tail;
    } else {
      HashInside(line, lead, t, tail);
    }
  }

  lemma HashInside(line: string, lead: string, t: string, tail: string)
    requires AllBlank(lead) && t != "" && t[0] == '#' && line == lead + t + tail
    ensures IsRemark(line)
  {
    assert line == lead + ("#" + (t[1..] + tail));
  }

  /** A line is passed over exactly when it is a remark, and assigns exactly when it is a name, a
      `=` and the value; without a `=` it is no assignment, and the rest name nothing. */
  lemma LineSeen(line: string, name: string, value: string)
    ensures ViewOf(line) == Skipped <==> IsRemark(line)
    ensures ViewOf(line) == TelegramCredentials.Assigns(name, value) <==>
            IsEnvironmentName(name) && line == name + "=" + value
    ensures ViewOf(line) == NoAssignment <==> !IsRemark(line) && '=' !in line
  {
    if IsRemark(line) {
      RemarkIsSkipped(line);
    }
    if ViewOf(line) == Skipped {
      SkippedIsRemark(line);
    }
    if IsEnvironmentName(name) && line == name + "=" + value {
      AssignmentReads(name, value);
    }
  }

  // ----- the whole file -----

  predicate NamedBefore(views: seq<View>, i: nat, name: string) {
    exists j :: 0 <= j < i && j < |views| && views[j].Assigns? && views[j].name == name
  }

  /** What is wrong with line `i`, the lines before it being well; lines are counted from one. */
  function WrongAt(views: seq<View>, i: nat): Option<Problem>
    requires i < |views|
  {
    match views[i]
    case Skipped => None
    case NoAssignment => Some(MissingAssignment(i + 1))
    case BadName => Some(InvalidVariableName(i + 1))
    case Assigns(name, _) => if NamedBefore(views, i, name) then Some(DuplicateVariable(i + 1, name)) else None
  }

  ghost predicate WellBefore(views: seq<View>, i: nat) {
    forall j :: 0 <= j < i && j < |views| ==> WrongAt(views, j) == None
  }

  ghost predicate FirstWrong(views: seq<View>, i: nat, problem: Problem) {
    i < |views| && WellBefore(views, i) && WrongAt(views, i) == Some(problem)
  }

  /** Each name with the value it was assigned. */
  ghost predicate Holds(environment: Environment, views: seq<View>) {
    forall name, value {:trigger TelegramCredentials.Assigns(name, value)} ::
      (name in environment && environment[name] == value) <==> TelegramCredentials.Assigns(name, value) in views
  }

  lemma NamedIsHeld(environment: Environment, views: seq<View>, name: string)
    requires Holds(environment, views)
    ensures name in environment <==> NamedBefore(views, |views|, name)
  {
    if name in environment {
      assert TelegramCredentials.Assigns(name, environment[name]) in views;
    }
    if NamedBefore(views, |views|, name) {
      var j :| 0 <= j < |views| && views[j].Assigns? && views[j].name == name;
      assert views[j] == TelegramCredentials.Assigns(name, views[j].value);
    }
  }

  lemma WrongOfMore(before: seq<View>, view: View, i: nat)
    requires i < |before|
    ensures WrongAt(before + [view], i) == WrongAt(before, i)
  {
    var more := before + [view];
    assert forall j :: 0 <= j < i ==> more[j] == before[j];
    if before[i].Assigns? {
      assert NamedBefore(more, i, before[i].name) <==> NamedBefore(before, i, before[i].name) by {
        if NamedBefore(more, i, before[i].name) {
          var j :| 0 <= j < i && j < |more| && more[j].Assigns? && more[j].name == before[i].name;
          assert before[j].name == before[i].name;
        }
        if NamedBefore(before, i, before[i].name) {
          var j :| 0 <= j < i && j < |before| && before[j].Assigns? && before[j].name == before[i].name;
          assert more[j].name == before[i].name;
        }
      }
    }
  }

  lemma HoldsMore(environment: Environment, before: seq<View>, name: string, value: string)
    requires Holds(environment, before) && name !in environment
    ensures Holds(environment[name := value], before + [TelegramCredentials.Assigns(name, value)])
  {
    var view, more := TelegramCredentials.Assigns(name, value), environment[name := value];
    forall n, v {:trigger TelegramCredentials.Assigns(n, v)}
      ensures (n in more && more[n] == v) <==> TelegramCredentials.Assigns(n, v) in before + [view]
    {
      assert TelegramCredentials.Assigns(n, v) in before + [view] <==>
             TelegramCredentials.Assigns(n, v) in before || TelegramCredentials.Assigns(n, v) == view;
      assert (n in environment && environment[n] == v) <==> TelegramCredentials.Assigns(n, v) in before;
    }
  }

  lemma HoldsSame(environment: Environment, before: seq<View>, view: View)
    requires Holds(environment, before) && !view.Assigns?
    ensures Holds(environment, before + [view])
  {
  }

  ghost predicate ReadAs(r: Result<Environment, Problem>, views: seq<View>) {
    match r
    case Ok(environment) => WellBefore(views, |views|) && Holds(environment, views)
    case Err(problem) => exists i :: FirstWrong(views, i, problem)
  }

  lemma StillWell(before: seq<View>, view: View, i: nat)
    requires i <= |before| && WellBefore(before, i)
    ensures WellBefore(before + [view], i)
  {
    forall j: nat | j < i ensures WrongAt(before + [view], j) == None {
      WrongOfMore(before, view, j);
    }
  }

  lemma ReadMore(before: seq<View>, view: View, environment: Environment)
    requires WellBefore(before, |before|) && Holds(environment, before)
    ensures ReadAs(Add(environment, view, |before| + 1), before + [view])
  {
    var views, n := before + [view], |before|;
    StillWell(before, view, n);
    match view
    case Assigns(name, value) =>
      NamedIsHeld(environment, before, name);
      NamedSame(before, view, name);
      if name in environment {
        assert FirstWrong(views, n, DuplicateVariable(n + 1, name));
      } else {
        HoldsMore(environment, before, name, value);
      }
    case Skipped => HoldsSame(environment, before, view);
    case NoAssignment => assert FirstWrong(views, n, MissingAssignment(n + 1));
    case BadName => assert FirstWrong(views, n, InvalidVariableName(n + 1));
  }

  lemma NamedSame(before: seq<View>, view: View, name: string)
    ensures NamedBefore(before + [view], |before|, name) <==> NamedBefore(before, |before|, name)
  {
    var more := before + [view];
    if NamedBefore(more, |before|, name) {
      var j :| 0 <= j < |before| && j < |more| && more[j].Assigns? && more[j].name == name;
      assert before[j].name == name;
    }
    if NamedBefore(before, |before|, name) {
      var j :| 0 <= j < |before| && before[j].Assigns? && before[j].name == name;
      assert more[j].name == name;
    }
  }

  lemma {:induction false} CollectedIsRead(views: seq<View>)
    ensures ReadAs(Collected(views), views)
    decreases |views|
  {
    if views != [] {
      var before, view := views[..|views| - 1], views[|views| - 1];
      CollectedIsRead(before);
      assert views == before + [view];
      match Collected(before)
      case Ok(environment) => ReadMore(before, view, environment);
      case Err(problem) =>
        var i :| FirstWrong(before, i, problem);
        StillWell(before, view, i);
        WrongOfMore(before, view, i);
        assert FirstWrong(views, i, problem);
    }
  }

  lemma HeldOnce(a: Environment, b: Environment, views: seq<View>)
    requires Holds(a, views) && Holds(b, views)
    ensures a == b
  {
    forall name ensures name in a <==> name in b {
      NamedIsHeld(a, views, name);
      NamedIsHeld(b, views, name);
    }
    forall name | name in a ensures a[name] == b[name] {
      assert TelegramCredentials.Assigns(name, a[name]) in views;
    }
  }

  lemma FirstIsOne(views: seq<View>, i: nat, j: nat, p: Problem, q: Problem)
    requires FirstWrong(views, i, p)
    ensures !WellBefore(views, |views|)
    ensures FirstWrong(views, j, q) ==> p == q
  {
    assert WrongAt(views, i) != None;
  }

  lemma ReadOnce(views: seq<View>, r: Result<Environment, Problem>, q: Result<Environment, Problem>)
    requires ReadAs(r, views) && ReadAs(q, views)
    ensures r == q
  {
    forall i, j, a, b | FirstWrong(views, i, a)
      ensures !WellBefore(views, |views|) && (FirstWrong(views, j, b) ==> a == b)
    {
      FirstIsOne(views, i, j, a, b);
    }
    if r.Ok? && q.Ok? {
      HeldOnce(r.value, q.value, views);
    }
  }

  lemma ReadExactly(text: string, r: Result<Environment, Problem>)
    ensures EnvironmentIn(text) == r <==> ReadAs(r, Views(Split(text)))
  {
    CollectedIsRead(Views(Split(text)));
    if ReadAs(r, Views(Split(text))) {
      ReadOnce(Views(Split(text)), EnvironmentIn(text), r);
    }
  }

  /** A file is read exactly where every line is a remark or assigns a name no line before it does;
      and what is read is each name with its value. */
  lemma EnvironmentExactly(text: string, environment: Environment)
    ensures var views := Views(Split(text));
            EnvironmentIn(text) == Ok(environment) <==> WellBefore(views, |views|) && Holds(environment, views)
  {
    ReadExactly(text, Ok(environment));
  }

  /** Otherwise the first line that is neither is the problem. */
  lemma ProblemExactly(text: string, problem: Problem)
    ensures EnvironmentIn(text) == Err(problem) <==> exists i :: FirstWrong(Views(Split(text)), i, problem)
  {
    ReadExactly(text, Err(problem));
  }

  // ----- when Telegram is ready -----

  /** The shell finds Telegram ready exactly when the configuration names a variable and a private,
      readable file gives it a value that is not blank; then what it loads is that file. */
  lemma ReadyExactly(config: Option<string>, file: File, environment: Environment)
    ensures Loaded(config, file) == Reading(Ready, environment) <==>
            exists variable, text ::
              && ConfiguredIn(config) == Named(variable)
              && file == Present(true, Some(text)) && EnvironmentIn(text) == Ok(environment)
              && variable in environment && exists c :: c in environment[variable] && !IsWhite(c)
  {
    if Loaded(config, file) == Reading(Ready, environment) {
      var variable, text := ConfiguredIn(config).variable, file.content.value;
      assert ConfiguredIn(config) == Named(variable);
      assert file == Present(true, Some(text)) && EnvironmentIn(text) == Ok(environment);
    }
  }

  /** A file that others may read is refused, whatever it holds; and nothing is loaded from it. */
  lemma UnsafeExactly(config: Option<string>, file: File)
    ensures Loaded(config, file).state == Unsafe <==>
            ConfiguredIn(config).Named? && file.Present? && !file.priv
    ensures Loaded(config, file).environment != map[] ==> file.Present? && file.priv
  {
  }
}
