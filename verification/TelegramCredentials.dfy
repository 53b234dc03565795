/** The private file of environment assignments: read whole, rewritten in one line. */
module TelegramCredentials {
  import opened Text

  type Environment = map<string, string>

  datatype Problem =
    | NotUtf8
    | MissingAssignment(line: nat)
    | InvalidVariableName(line: nat)
    | DuplicateVariable(line: nat, name: string)

  predicate IsLetter(c: char) {
    'A' <= c <= 'Z' || 'a' <= c <= 'z'
  }

  predicate IsNamePart(c: char) {
    IsLetter(c) || '0' <= c <= '9' || c == '_'
  }

  predicate IsEnvironmentName(name: string) {
    && name != ""
    && (IsLetter(name[0]) || name[0] == '_')
    && forall i :: 0 < i < |name| ==> IsNamePart(name[i])
  }

  // ----- one line -----

  datatype View = Skipped | NoAssignment | BadName | Assigns(name: string, value: string)

  function ViewOf(line: string): View {
    var trimmed := Trim(line);
    if trimmed == "" || trimmed[0] == '#' then Skipped
    else
      var separator := IndexOf(line, '=');
      if separator == |line| then NoAssignment
      else if !IsEnvironmentName(line[..separator]) then BadName
      else Assigns(line[..separator], line[separator + 1..])
  }

  /** What a line adds to the assignments of the lines before it. */
  function Add(environment: Environment, view: View, line: nat): Result<Environment, Problem> {
    match view
    case Skipped => Ok(environment)
    case NoAssignment => Err(MissingAssignment(line))
    case BadName => Err(InvalidVariableName(line))
    case Assigns(name, value) =>
      if name in environment then Err(DuplicateVariable(line, name)) else Ok(environment[name := value])
  }

  // ----- the file, read -----

  function Views(lines: seq<string>): (r: seq<View>)
    ensures |r| == |lines|
    ensures forall i :: 0 <= i < |r| ==> r[i] == ViewOf(lines[i])
  {
    seq(|lines|, i requires 0 <= i < |lines| => ViewOf(lines[i]))
  }

  /** The assignments of some lines, or the first problem, with its line counted from one. */
  function Collected(views: seq<View>): Result<Environment, Problem> {
    if views == [] then Ok(map[])
    else match Collected(views[..|views| - 1])
      case Err(problem) => Err(problem)
      case Ok(environment) => Add(environment, views[|views| - 1], |views|)
  }

  function EnvironmentIn(text: string): Result<Environment, Problem> {
    Collected(Views(Split(text)))
  }

  method ReadEnvironment(text: string) returns (r: Result<Environment, Problem>)
    ensures r == EnvironmentIn(text)
  {
    var lines := Split(text);
    ghost var views := Views(lines);
    var environment: Environment := map[];
    for offset := 0 to |lines|
      invariant Collected(views[..offset]) == Ok(environment)
    {
      assert views[..offset + 1][..offset] == views[..offset];
      assert Collected(views[..offset + 1]) == Add(environment, views[offset], offset + 1);
      FirstProblem(views, offset + 1);
      var line := lines[offset];
      var trimmed := Trim(line);
      if trimmed == "" || trimmed[0] == '#' {
        continue;
      }
      var separator := IndexOf(line, '=');
      if separator == |line| {
        return Err(MissingAssignment(offset + 1));
      }
      var name := line[..separator];
      if !IsEnvironmentName(name) {
        return Err(InvalidVariableName(offset + 1));
      }
      if name in environment {
        return Err(DuplicateVariable(offset + 1, name));
      }
      environment := environment[name := line[separator + 1..]];
    }
    assert views[..|views|] == views;
    return Ok(environment);
  }

  /** A problem ends the reading. */
  lemma {:induction false} FirstProblem(views: seq<View>, n: nat)
    requires n <= |views|
    ensures Collected(views[..n]).Err? ==> Collected(views) == Collected(views[..n])
    decreases |views|
  {
    if n < |views| {
      var before := views[..|views| - 1];
      assert before[..n] == views[..n];
      FirstProblem(before, n);
    } else {
      assert views[..n] == views;
    }
  }

  // ----- the file, rewritten -----

  function Assignment(variable: string, token: string): string {
    variable + "=" + token
  }

  /** Whether a rewriting of `variable` takes the line. */
  predicate Taken(line: string, variable: string) {
    IndexOf(line, '=') < |line| && line[..IndexOf(line, '=')] == variable
  }

  function Retaken(lines: seq<string>, variable: string, token: string): (r: seq<string>)
    ensures |r| == |lines|
    ensures forall i :: 0 <= i < |r| ==>
              r[i] == if Taken(lines[i], variable) then Assignment(variable, token) else lines[i]
  {
    seq(|lines|, i requires 0 <= i < |lines| =>
      if Taken(lines[i], variable) then Assignment(variable, token) else lines[i])
  }

  predicate SomeTaken(lines: seq<string>, variable: string) {
    exists i :: 0 <= i < |lines| && Taken(lines[i], variable)
  }

  function Replaced(variable: string, token: string, original: string): string {
    var lines := Split(original);
    if SomeTaken(lines, variable) then Join(Retaken(lines, variable, token))
    else if original == "" then Assignment(variable, token) + "\n"
    else
      original + (if original[|original| - 1] == '\n' then "" else "\n") + Assignment(variable, token) + "\n"
  }

  /** With no file there is nothing to keep. */
  function Rewritten(variable: string, token: string, original: Option<string>): string {
    match original
    case None => Assignment(variable, token) + "\n"
    case Some(text) => Replaced(variable, token, text)
  }

  /** The loop of `replacing`. */
  method RetakeLines(was: seq<string>, variable: string, token: string) returns (lines: seq<string>, replaced: bool)
    ensures lines == Retaken(was, variable, token)
    ensures replaced <==> SomeTaken(was, variable)
  {
    lines := was;
    replaced := false;
    ghost var now := Retaken(was, variable, token);
    for index := 0 to |was|
      invariant |lines| == |was|
      invariant lines == now[..index] + was[index..]
      invariant replaced <==> SomeTaken(was[..index], variable)
    {
      RetakenStep(was, now, index);
      SomeTakenOfMore(was[..index], was[index], variable);
      var line := lines[index];
      var separator := IndexOf(line, '=');
      if separator < |line| && line[..separator] == variable {
        lines := lines[index := variable + "=" + token];
        replaced := true;
      }
    }
    assert was[..|was|] == was;
  }

  method Replacing(variable: string, token: string, original: Option<string>) returns (r: string)
    ensures r == Rewritten(variable, token, original)
  {
    var assignment := variable + "=" + token;
    if original.None? {
      return assignment + "\n";
    }
    var lines, replaced := RetakeLines(Split(original.value), variable, token);
    if replaced {
      return Join(lines);
    }
    var text := original.value;
    if text == "" {
      return assignment + "\n";
    }
    return text + (if text[|text| - 1] == '\n' then "" else "\n") + assignment + "\n";
  }

  lemma RetakenStep(was: seq<string>, now: seq<string>, index: nat)
    requires index < |was| == |now|
    ensures var lines := now[..index] + was[index..];
            && |lines| == |was| && lines[index] == was[index]
            && lines[index := now[index]] == now[..index + 1] + was[index + 1..]
            && (now[index] == was[index] ==> lines == now[..index + 1] + was[index + 1..])
    ensures was[..index + 1] == was[..index] + [was[index]]
  {
  }

  lemma SomeTakenOfMore(lines: seq<string>, line: string, variable: string)
    ensures SomeTaken(lines + [line], variable) <==> SomeTaken(lines, variable) || Taken(line, variable)
  {
    var more := lines + [line];
    assert more[|lines|] == line;
    if SomeTaken(lines, variable) {
      var i :| 0 <= i < |lines| && Taken(lines[i], variable);
      assert more[i] == lines[i];
    }
  }

  // ----- what is read after a rewriting -----

  lemma NameHasNoSeparator(name: string)
    requires IsEnvironmentName(name)
    ensures '=' !in name && '\n' !in name && name[0] != '#'
    ensures forall i :: 0 <= i < |name| ==> !IsBlank(name[i])
  {
  }

  /** A line that begins with a name and a separator is an assignment, whatever follows. */
  lemma AssignmentReads(name: string, rest: string)
    requires IsEnvironmentName(name)
    ensures ViewOf(name + "=" + rest) == Assigns(name, rest)
    ensures Taken(name + "=" + rest, name)
  {
    NameHasNoSeparator(name);
    var line := name + "=" + rest;
    assert line == (name + "=") + rest && (name + "=")[|name|] == '=';
    TrimKeepsHead(name + "=", rest);
    SeparatorAfter(name, rest);
    assert line[..|name|] == name && line[|name| + 1..] == rest;
  }

  lemma SeparatorAfter(name: string, rest: string)
    requires '=' !in name
    ensures IndexOf(name + "=" + rest, '=') == |name|
  {
    var line := name + "=" + rest;
    assert line[|name|] == '=' && line[..|name|] == name;
  }

  /** A rewriting takes exactly the lines that assign the variable. */
  lemma TakenExactlyAssignments(line: string, variable: string)
    requires IsEnvironmentName(variable)
    ensures Taken(line, variable) <==> ViewOf(line).Assigns? && ViewOf(line).name == variable
  {
    if Taken(line, variable) {
      var rest := line[|variable| + 1..];
      assert line == variable + "=" + rest;
      AssignmentReads(variable, rest);
    }
  }

  /** The views of a file with every assignment of `variable` made one of `token`. */
  function Revalued(views: seq<View>, variable: string, token: string): (r: seq<View>)
    ensures |r| == |views|
    ensures forall i :: 0 <= i < |r| ==> r[i] == Revalue(views[i], variable, token)
  {
    seq(|views|, i requires 0 <= i < |views| => Revalue(views[i], variable, token))
  }

  function Revalue(view: View, variable: string, token: string): View {
    if view.Assigns? && view.name == variable then Assigns(variable, token) else view
  }

  lemma RetakenViews(lines: seq<string>, variable: string, token: string)
    requires IsEnvironmentName(variable)
    ensures Views(Retaken(lines, variable, token)) == Revalued(Views(lines), variable, token)
  {
    forall i | 0 <= i < |lines|
      ensures ViewOf(Retaken(lines, variable, token)[i]) == Revalue(ViewOf(lines[i]), variable, token)
    {
      TakenExactlyAssignments(lines[i], variable);
      AssignmentReads(variable, token);
    }
  }

  /** What is expected of the environment after `variable` was set: the same problem, or the
      same assignments but for that one. */
  function Updated(was: Result<Environment, Problem>, variable: string, token: string): Result<Environment, Problem> {
    match was
    case Err(problem) => Err(problem)
    case Ok(environment) => Ok(environment[variable := token])
  }

  function UpdatedIfPresent(was: Result<Environment, Problem>, variable: string, token: string)
    : Result<Environment, Problem>
  {
    if was.Ok? && variable !in was.value then was else Updated(was, variable, token)
  }

  lemma AddRevalued(environment: Environment, view: View, line: nat, variable: string, token: string)
    ensures var e := if variable in environment then environment[variable := token] else environment;
            Add(e, Revalue(view, variable, token), line) ==
            UpdatedIfPresent(Add(environment, view, line), variable, token)
  {
    if view.Assigns? {
      assert environment[view.name := view.value][variable := token] ==
             if view.name == variable then environment[variable := token]
             else environment[variable := token][view.name := view.value];
    }
  }

  lemma {:induction false} CollectedRevalued(views: seq<View>, variable: string, token: string)
    ensures Collected(Revalued(views, variable, token)) == UpdatedIfPresent(Collected(views), variable, token)
    decreases |views|
  {
    if views == [] {
    } else {
      var n := |views| - 1;
      CollectedRevalued(views[..n], variable, token);
      assert Revalued(views, variable, token)[..n] == Revalued(views[..n], variable, token);
      if Collected(views[..n]).Ok? {
        AddRevalued(Collected(views[..n]).value, views[n], n + 1, variable, token);
      }
    }
  }

  /** The names collected are the names assigned. */
  lemma {:induction false} CollectedNames(views: seq<View>, variable: string)
    requires Collected(views).Ok?
    ensures variable in Collected(views).value <==>
            exists i :: 0 <= i < |views| && views[i].Assigns? && views[i].name == variable
    decreases |views|
  {
    if views == [] {
    } else {
      var n := |views| - 1;
      CollectedNames(views[..n], variable);
      if variable in Collected(views[..n]).value {
        var i :| 0 <= i < n && views[..n][i].Assigns? && views[..n][i].name == variable;
        assert views[i].Assigns? && views[i].name == variable;
      } else if exists i :: 0 <= i < |views| && views[i].Assigns? && views[i].name == variable {
        var i :| 0 <= i < |views| && views[i].Assigns? && views[i].name == variable;
        assert i < n ==> views[..n][i] == views[i];
      }
    }
  }

  lemma TakenMeansNamed(lines: seq<string>, variable: string)
    requires IsEnvironmentName(variable) && Collected(Views(lines)).Ok?
    ensures variable in Collected(Views(lines)).value <==> SomeTaken(lines, variable)
  {
    CollectedNames(Views(lines), variable);
    forall i | 0 <= i < |lines|
      ensures Taken(lines[i], variable) <==> Views(lines)[i].Assigns? && Views(lines)[i].name == variable
    {
      TakenExactlyAssignments(lines[i], variable);
    }
  }

  // ----- the lines appended -----

  predicate Unended(text: string) {
    text != "" && text[|text| - 1] != '\n'
  }

  /** The lines of a text with one assignment added at its end. */
  lemma AppendedLines(text: string, variable: string, token: string) returns (kept: seq<string>)
    requires IsEnvironmentName(variable) && OneLine(token) && !SomeTaken(Split(text), variable)
    ensures Split(Replaced(variable, token, text)) == kept + [Assignment(variable, token), ""]
    ensures Split(text) == if Unended(text) then kept else kept + [""]
  {
    var line := Assignment(variable, token);
    NameHasNoSeparator(variable);
    SplitOneLine(line);
    SplitAtNewline(line, "");
    assert line + "\n" + "" == line + "\n";
    if text == "" {
      kept := [];
    } else if Unended(text) {
      kept := Split(text);
      SplitAtNewline(text, line + "\n");
      assert text + "\n" + line + "\n" == text + "\n" + (line + "\n");
    } else {
      var before := text[..|text| - 1];
      kept := Split(before);
      assert text == before + "\n" + "";
      SplitAtNewline(before, "");
      SplitAtNewline(before, line + "\n");
      assert text + "" + line + "\n" == before + "\n" + (line + "\n");
    }
  }

  lemma CollectedOfTwo(views: seq<View>, variable: string, token: string)
    ensures Collected(views + [Skipped]) == Collected(views)
    ensures Collected(views).Ok? && variable !in Collected(views).value ==>
              Collected(views + [Assigns(variable, token), Skipped]) == Updated(Collected(views), variable, token)
    ensures Collected(views).Err? ==>
              Collected(views + [Assigns(variable, token), Skipped]) == Collected(views)
  {
    var one, two := views + [Assigns(variable, token)], views + [Assigns(variable, token), Skipped];
    assert (views + [Skipped])[..|views|] == views && two[..|one|] == one && one[..|views|] == views;
  }

  lemma ViewsJoin(a: seq<string>, b: seq<string>)
    ensures Views(a + b) == Views(a) + Views(b)
  {
  }

  lemma EmptyIsSkipped()
    ensures ViewOf("") == Skipped && Views([""]) == [Skipped]
  {
  }

  lemma AppendingReadsBack(text: string, variable: string, token: string)
    requires IsEnvironmentName(variable) && OneLine(token) && !SomeTaken(Split(text), variable)
    ensures EnvironmentIn(Replaced(variable, token, text)) == Updated(EnvironmentIn(text), variable, token)
  {
    var line := Assignment(variable, token);
    var lines := Split(text);
    var kept := AppendedLines(text, variable, token);
    AssignmentReads(variable, token);
    EmptyIsSkipped();
    ViewsJoin(kept, [line, ""]);
    assert Views([line, ""]) == [Assigns(variable, token), Skipped];
    ViewsJoin(kept, [""]);
    CollectedOfTwo(Views(kept), variable, token);
    if Collected(Views(lines)).Ok? {
      TakenMeansNamed(lines, variable);
    }
  }

  lemma RetakingReadsBack(text: string, variable: string, token: string)
    requires IsEnvironmentName(variable) && OneLine(token) && SomeTaken(Split(text), variable)
    ensures EnvironmentIn(Replaced(variable, token, text)) == Updated(EnvironmentIn(text), variable, token)
    ensures Split(Replaced(variable, token, text)) == Retaken(Split(text), variable, token)
  {
    var lines := Split(text);
    NameHasNoSeparator(variable);
    SplitIsOneLine(text);
    SplitJoin(Retaken(lines, variable, token));
    RetakenViews(lines, variable, token);
    CollectedRevalued(Views(lines), variable, token);
    if Collected(Views(lines)).Ok? {
      TakenMeansNamed(lines, variable);
    }
  }

  /** Reading a rewritten file gives the old assignments with just that one set; a file with a
      problem keeps exactly that problem. */
  lemma RewritingReadsBack(original: Option<string>, variable: string, token: string)
    requires IsEnvironmentName(variable) && OneLine(token)
    ensures var was := EnvironmentIn(if original.Some? then original.value else "");
            EnvironmentIn(Rewritten(variable, token, original)) == Updated(was, variable, token)
  {
    var text := if original.Some? then original.value else "";
    EmptyIsSkipped();
    assert Split("") == [""];
    assert original.None? ==> !SomeTaken(Split(""), variable);
    if SomeTaken(Split(text), variable) {
      RetakingReadsBack(text, variable, token);
    } else {
      AppendingReadsBack(text, variable, token);
    }
  }

  // ----- the other lines -----

  /** The lines that do not assign the variable: comments and blank lines too. */
  function Others(lines: seq<string>, variable: string): seq<string> {
    if lines == [] then []
    else
      var last := lines[|lines| - 1];
      Others(lines[..|lines| - 1], variable) + if Taken(last, variable) then [] else [last]
  }

  lemma {:induction false} OthersJoin(a: seq<string>, b: seq<string>, variable: string)
    ensures Others(a + b, variable) == Others(a, variable) + Others(b, variable)
    decreases |b|
  {
    if b == [] {
      assert a + b == a;
    } else {
      OthersJoin(a, b[..|b| - 1], variable);
      assert (a + b)[..|a + b| - 1] == a + b[..|b| - 1];
    }
  }

  lemma {:induction false} OthersRetaken(lines: seq<string>, variable: string, token: string)
    requires IsEnvironmentName(variable)
    ensures Others(Retaken(lines, variable, token), variable) == Others(lines, variable)
    decreases |lines|
  {
    if lines != [] {
      var n := |lines| - 1;
      OthersRetaken(lines[..n], variable, token);
      assert Retaken(lines, variable, token)[..n] == Retaken(lines[..n], variable, token);
      AssignmentReads(variable, token);
    }
  }

  /** Every line that does not assign the variable survives byte for byte, in order; at most
      the end of a last line that had none is added. */
  lemma OtherLinesSurvive(text: string, variable: string, token: string)
    requires IsEnvironmentName(variable) && OneLine(token)
    ensures var appended := !SomeTaken(Split(text), variable);
            Others(Split(Replaced(variable, token, text)), variable) ==
            Others(Split(text), variable) + if appended && Unended(text) then [""] else []
  {
    AssignmentReads(variable, token);
    if SomeTaken(Split(text), variable) {
      RetakingReadsBack(text, variable, token);
      OthersRetaken(Split(text), variable, token);
    } else {
      var kept := AppendedLines(text, variable, token);
      OthersJoin(kept, [Assignment(variable, token), ""], variable);
      OthersJoin(kept, [""], variable);
      OthersOfTwo(Assignment(variable, token), variable);
    }
  }

  lemma OthersOfTwo(line: string, variable: string)
    requires Taken(line, variable)
    ensures Others([line, ""], variable) == [""] && Others([""], variable) == [""]
  {
    assert [line, ""] == [line] + [""] && !Taken("", variable);
    OthersJoin([line], [""], variable);
    assert [line][..0] == [] && [""][..0] == [];
  }
}
