/** The two walks over a document: the one `string(forKey:inTable:)` makes, line by line,
    and the one `setting` makes, statement by statement. */
module MinimalToml {
  import opened Text
  import opened TomlString
  import opened TomlScan
  import opened TomlLines

  // ----- the reader -----

  function Views(lines: seq<string>): (views: seq<LineView>)
    ensures |views| == |lines| && forall i :: 0 <= i < |lines| ==> views[i] == View(lines[i])
  {
    seq(|lines|, i requires 0 <= i < |lines| => View(lines[i]))
  }

  /** The raw value found, or the table the reader is in when it found none. */
  datatype Walked = Hit(raw: string) | Miss(table: string)

  function TableAfter(view: LineView, current: string): string {
    if view.Header? then view.name else current
  }

  function Walk(views: seq<LineView>, table: string, key: string, current: string): Walked {
    if views == [] then Miss(current)
    else if current == table && views[0].Assignment? && views[0].key == key then Hit(views[0].raw)
    else Walk(views[1..], table, key, TableAfter(views[0], current))
  }

  function Answer(walked: Walked): Result<Option<string>, Failure> {
    match walked
    case Miss(_) => Ok(None)
    case Hit(raw) =>
      match Unquote(raw)
      case Err(e) => Err(e)
      case Ok(s) => Ok(Some(s))
  }

  /** `string(forKey:inTable:of:)`. */
  function Read(text: string, table: string, key: string): Result<Option<string>, Failure> {
    Answer(Walk(Views(Split(text)), table, key, ""))
  }

  lemma {:induction false} WalkConcat(a: seq<LineView>, b: seq<LineView>, table: string, key: string, current: string)
    ensures Walk(a + b, table, key, current) ==
            match Walk(a, table, key, current)
            case Hit(raw) => Hit(raw)
            case Miss(t) => Walk(b, table, key, t)
  {
    if a == [] {
      assert a + b == b;
    } else {
      assert (a + b)[1..] == a[1..] + b;
      WalkConcat(a[1..], b, table, key, TableAfter(a[0], current));
    }
  }

  method ReadString(key: string, table: string, text: string) returns (r: Result<Option<string>, Failure>)
    ensures r == Read(text, table, key)
  {
    var currentTable := "";
    var lines := Split(text);
    ghost var views := Views(lines);
    for index := 0 to |lines|
      invariant Read(text, table, key) == Answer(Walk(views[index..], table, key, currentTable))
    {
      assert views[index..][1..] == views[index + 1..];
      var line := Trim(lines[index]);
      if line == "" || line[0] == '#' {
        continue;
      }
      if line[0] == '[' {
        var end := IndexOf(line, ']');
        if end == |line| {
          continue;
        }
        currentTable := Trim(line[1..end]);
        continue;
      }
      var separator := IndexOf(line, '=');
      if currentTable != table || separator == |line| {
        continue;
      }
      if Trim(line[..separator]) != key {
        continue;
      }
      var value := ReadQuoted(Trim(line[separator + 1..]));
      match value {
        case Ok(s) => return Ok(Some(s));
        case Err(e) => return Err(e);
      }
    }
    return Ok(None);
  }

  // ----- the editor -----

  /** What a line is to the editor, which looks for statements and knows no values. */
  datatype Mark = Opaque | HeaderMark(name: string) | KeyMark | OtherMark

  function MarkOf(line: string, key: string, st: ScanState): Mark {
    if !st.Clean() then Opaque
    else match TableName(line)
      case Some(name) => HeaderMark(name)
      case None => if Assigns(line, key) then KeyMark else OtherMark
  }

  function Marks(lines: seq<string>, key: string, st: ScanState): (marks: seq<Mark>)
    ensures |marks| == |lines|
  {
    if lines == [] then [] else [MarkOf(lines[0], key, st)] + Marks(lines[1..], key, Scan(lines[0], st))
  }

  /** Where `setting` writes: over a line's value, on a new line, or in a new table. */
  datatype Edit = Replace(line: nat) | Insert(line: nat) | Append

  function Finish(insertion: Option<nat>): Edit {
    match insertion
    case Some(i) => Insert(i)
    case None => Append
  }

  /** The search of `setting`; the first of `marks` is line number `at`. */
  function Find(marks: seq<Mark>, table: string, current: string, at: nat, insertion: Option<nat>): Edit {
    if marks == [] || (marks[0].HeaderMark? && current == table) then Finish(insertion)
    else match marks[0]
      case HeaderMark(name) => Find(marks[1..], table, name, at + 1, if name == table then Some(at + 1) else insertion)
      case KeyMark => if current == table then Replace(at) else Find(marks[1..], table, current, at + 1, insertion)
      case _ => Find(marks[1..], table, current, at + 1, insertion)
  }

  function EditOf(lines: seq<string>, table: string, key: string): Edit {
    Find(Marks(lines, key, INITIAL), table, "", 0, None)
  }

  /** A new line goes right under a header of its table; a replaced one assigns the key. */
  lemma {:induction false} FindShape(marks: seq<Mark>, table: string, current: string, at: nat, insertion: Option<nat>)
    ensures match Find(marks, table, current, at, insertion)
            case Replace(i) => at <= i < at + |marks| && marks[i - at] == KeyMark
            case Insert(i) =>
              insertion == Some(i) || (at < i <= at + |marks| && marks[i - 1 - at] == HeaderMark(table))
            case Append => insertion == None
  {
    if marks != [] && !(marks[0].HeaderMark? && current == table) {
      match marks[0]
      case HeaderMark(name) =>
        FindShape(marks[1..], table, name, at + 1, if name == table then Some(at + 1) else insertion);
      case _ => FindShape(marks[1..], table, current, at + 1, insertion);
    }
  }

  lemma {:induction false} MarksConcat(a: seq<string>, b: seq<string>, key: string, st: ScanState)
    ensures Marks(a + b, key, st) == Marks(a, key, st) + Marks(b, key, After(a, st))
  {
    if a == [] {
      assert a + b == b;
    } else {
      MarksConcat(a[1..], b, key, Scan(a[0], st));
      assert (a + b)[1..] == a[1..] + b;
      assert [MarkOf(a[0], key, st)] + (Marks(a[1..], key, Scan(a[0], st)) + Marks(b, key, After(a, st))) ==
             [MarkOf(a[0], key, st)] + Marks(a[1..], key, Scan(a[0], st)) + Marks(b, key, After(a, st));
    }
  }

  lemma MarkAt(lines: seq<string>, key: string, i: nat)
    requires i < |lines|
    ensures Marks(lines, key, INITIAL)[i] == MarkOf(lines[i], key, StateAt(lines, i))
    ensures Marks(lines, key, INITIAL)[i..] ==
            [MarkOf(lines[i], key, StateAt(lines, i))] + Marks(lines, key, INITIAL)[i + 1..]
  {
    assert lines == lines[..i] + lines[i..];
    MarksConcat(lines[..i], lines[i..], key, INITIAL);
  }

  /** The line an edit names is there, and is what the edit takes it for. */
  lemma EditShape(lines: seq<string>, table: string, key: string)
    ensures match EditOf(lines, table, key)
            case Replace(i) =>
              i < |lines| && Starts(lines, i) && Assigns(lines[i], key) && TableName(lines[i]).None?
            case Insert(i) =>
              0 < i <= |lines| && Starts(lines, i - 1) && TableName(lines[i - 1]) == Some(table)
            case Append => true
  {
    FindShape(Marks(lines, key, INITIAL), table, "", 0, None);
    match EditOf(lines, table, key)
    case Replace(i) => MarkAt(lines, key, i);
    case Insert(i) => MarkAt(lines, key, i - 1);
    case Append =>
  }

  /** The lines a new table is written after: all of them, but an empty last one. */
  function Body(lines: seq<string>): seq<string>
    requires lines != []
  {
    if lines[|lines| - 1] == "" then lines[..|lines| - 1] else lines
  }

  function NewTable(table: string, line: string): seq<string> {
    ["[" + table + "]", line, ""]
  }

  function SetLines(lines: seq<string>, table: string, key: string, rendered: string): (written: seq<string>)
    requires lines != []
    ensures written != []
  {
    EditShape(lines, table, key);
    match EditOf(lines, table, key)
    case Replace(i) => lines[..i] + [ReplaceValue(lines[i], rendered)] + lines[i + 1..]
    case Insert(i) => lines[..i] + [AssignmentLine(key, rendered)] + lines[i..]
    case Append => Body(lines) + NewTable(table, AssignmentLine(key, rendered))
  }

  /** The text `setting` writes for a value already printed. */
  function SetText(text: string, table: string, key: string, rendered: string): string {
    Join(SetLines(Split(text), table, key, rendered))
  }

  function Setting(value: JsonValue, table: string, key: string, text: string): Result<string, Failure> {
    match Literal(value)
    case Err(e) => Err(e)
    case Ok(rendered) => Ok(SetText(text, table, key, rendered))
  }

  /** The separator `setting` puts before a new table. */
  function Separator(text: string): string {
    if text == "" || text[|text| - 1] == '\n' then "" else "\n"
  }

  lemma AppendText(text: string, table: string, line: string)
    ensures Join(Body(Split(text)) + NewTable(table, line)) ==
            text + Separator(text) + Join(NewTable(table, line))
  {
    JoinMore(Body(Split(text)), NewTable(table, line));
    BodySeparated(text);
  }

  lemma BodySeparated(text: string)
    ensures var body := Body(Split(text));
            (if body == [] then "" else Join(body) + "\n") == text + Separator(text)
  {
    JoinSplit(text);
    LastLineEmpty(text);
    BodyText(Split(text));
  }

  lemma BodyText(lines: seq<string>)
    requires lines != []
    ensures Body(lines) == [] ==> Join(lines) == ""
    ensures Body(lines) != [] ==>
              Join(lines) == Join(Body(lines)) + (if lines[|lines| - 1] == "" then "\n" else "")
  {
    if lines[|lines| - 1] == "" {
      JoinMore(Body(lines), [""]);
      LastSplit(lines);
      assert Join([""]) == "";
    }
  }

  lemma LastSplit(lines: seq<string>)
    requires lines != []
    ensures lines == lines[..|lines| - 1] + [lines[|lines| - 1]]
  {
  }

  lemma JoinTable(table: string, line: string)
    ensures Join(NewTable(table, line)) == "[" + table + "]\n" + line + "\n"
  {
    var header := "[" + table + "]";
    assert NewTable(table, line)[1..] == [line, ""] && [line, ""][1..] == [""];
    assert Join([""]) == "";
    assert Join([line, ""]) == line + "\n" + "";
    assert header + "\n" + (line + "\n" + "") == "[" + table + "]\n" + line + "\n";
  }

  lemma {:induction false} JoinMore(a: seq<string>, b: seq<string>)
    requires b != []
    ensures Join(a + b) == if a == [] then Join(b) else Join(a) + "\n" + Join(b)
  {
    if a == [] {
      assert a + b == b;
    } else {
      JoinMore(a[1..], b);
      assert (a + b)[1..] == a[1..] + b;
    }
  }

  lemma {:induction false} LastLineEmpty(text: string)
    ensures var lines := Split(text);
            lines[|lines| - 1] == "" <==> text == "" || text[|text| - 1] == '\n'
  {
    if text != "" {
      LastLineEmpty(text[1..]);
    }
  }

  /** The search of `setting`, as its loop runs. */
  method Locate(lines: seq<string>, table: string, key: string) returns (edit: Edit)
    ensures edit == EditOf(lines, table, key)
  {
    var starts := StatementStarts(lines);
    var currentTable := "";
    var insertion: Option<nat> := None;
    ghost var marks := Marks(lines, key, INITIAL);
    for index := 0 to |lines|
      invariant EditOf(lines, table, key) == Find(marks[index..], table, currentTable, index, insertion)
    {
      MarkAt(lines, key, index);
      if index !in starts {
        continue;
      }
      var line := lines[index];
      if TableName(line).Some? {
        if currentTable == table {
          break;
        }
        currentTable := TableName(line).value;
        if currentTable == table {
          insertion := Some(index + 1);
        }
        continue;
      }
      if currentTable == table && Assigns(line, key) {
        return Replace(index);
      }
    }
    return Finish(insertion);
  }

  /** `setting`. */
  method Set(value: JsonValue, key: string, table: string, text: string) returns (r: Result<string, Failure>)
    ensures r == Setting(value, table, key, text)
  {
    var literal := Literal(value);
    if literal.Err? {
      return Err(literal.error);
    }
    var rendered, lines := literal.value, Split(text);
    EditShape(lines, table, key);
    var edit := Locate(lines, table, key);
    match edit {
      case Replace(index) =>
        var edited := WithValue(lines[index], rendered);
        var written := lines[..index] + [edited] + lines[index + 1..];
        assert written == SetLines(lines, table, key, rendered);
        return Ok(Join(written));
      case Insert(index) =>
        var written := lines[..index] + [AssignmentLine(key, rendered)] + lines[index..];
        assert written == SetLines(lines, table, key, rendered);
        return Ok(Join(written));
      case Append =>
        var assignment := AssignmentLine(key, rendered);
        AppendText(text, table, assignment);
        JoinTable(table, assignment);
        return Ok(text + Separator(text) + ("[" + table + "]\n" + assignment + "\n"));
    }
  }
}
