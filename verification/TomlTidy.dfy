/** Documents the editor and the reader see alike, and that stay so under `setting`: no line
    inside an open value looks to the reader like a header or like one of the edited keys, and
    the values to be edited do not run over their line. */
module TomlTidy {
  import opened Text
  import opened TomlString
  import opened TomlScan
  import opened TomlLines
  import opened MinimalToml
  import opened TomlSetting
  import opened TomlRewriting

  /** Keys the shell edits: legal, and free of quotes, brackets and comment signs. */
  predicate BareKeys(keys: set<string>) {
    forall key :: key in keys ==> LegalKey(key) && IsPlain(key)
  }

  predicate AssignsOne(line: string, keys: set<string>) {
    '=' in line && Trim(line[..IndexOf(line, '=')]) in keys
  }

  predicate LineTidy(line: string, st: ScanState, keys: set<string>) {
    if !st.Clean() then !View(line).Header? && (View(line).Assignment? ==> View(line).key !in keys)
    else
      && (TableName(line).Some? || AssignsOne(line, keys) ==> Scan(line, st).Clean())
      && (AssignsOne(line, keys) ==> AllBlank(Lead(line)))
  }

  predicate TidyFrom(lines: seq<string>, keys: set<string>, st: ScanState) {
    lines == [] || (LineTidy(lines[0], st, keys) && TidyFrom(lines[1..], keys, Scan(lines[0], st)))
  }

  predicate Tidy(text: string, keys: set<string>) {
    TidyFrom(Split(text), keys, INITIAL) && After(Split(text), INITIAL).Clean()
  }

  lemma {:induction false} TidyConcat(a: seq<string>, b: seq<string>, keys: set<string>, st: ScanState)
    ensures TidyFrom(a + b, keys, st) <==> TidyFrom(a, keys, st) && TidyFrom(b, keys, After(a, st))
  {
    if a == [] {
      assert a + b == b;
    } else {
      TidyConcat(a[1..], b, keys, Scan(a[0], st));
      assert (a + b)[1..] == a[1..] + b;
    }
  }

  lemma TidyAt(lines: seq<string>, keys: set<string>, i: nat)
    requires TidyFrom(lines, keys, INITIAL) && i < |lines|
    ensures LineTidy(lines[i], StateAt(lines, i), keys)
    ensures TidyFrom(lines[..i], keys, INITIAL)
    ensures TidyFrom(lines[i + 1..], keys, StateAt(lines, i + 1))
  {
    assert lines == lines[..i] + lines[i..];
    assert lines[i..][1..] == lines[i + 1..];
    TidyConcat(lines[..i], lines[i..], keys, INITIAL);
    StateAtNext(lines, i);
  }

  // ----- in a tidy document the reader meets every edit -----

  /** The reader's view of each line is what its mark says. */
  predicate Agree(mark: Mark, view: LineView, key: string) {
    match mark
    case HeaderMark(name) => view == Header(name)
    case KeyMark => view.Assignment? && view.key == key
    case _ => !view.Header? && !(view.Assignment? && view.key == key)
  }

  predicate AllAgree(marks: seq<Mark>, views: seq<LineView>, key: string) {
    |marks| == |views| && forall i :: 0 <= i < |marks| ==> Agree(marks[i], views[i], key)
  }

  lemma TidyAgrees(line: string, st: ScanState, keys: set<string>, key: string)
    requires LineTidy(line, st, keys) && LegalKey(key) && key in keys
    ensures Agree(MarkOf(line, key, st), View(line), key)
  {
    ViewAssigns(line, key);
    ViewHeader(line);
  }

  lemma {:induction false} TidyAllAgree(lines: seq<string>, keys: set<string>, key: string, st: ScanState)
    requires TidyFrom(lines, keys, st) && LegalKey(key) && key in keys
    ensures AllAgree(Marks(lines, key, st), Views(lines), key)
  {
    if lines != [] {
      TidyAgrees(lines[0], st, keys, key);
      TidyAllAgree(lines[1..], keys, key, Scan(lines[0], st));
      assert Views(lines) == [View(lines[0])] + Views(lines[1..]);
    }
  }

  lemma {:induction false} FindMeetsReader(marks: seq<Mark>, views: seq<LineView>, table: string, key: string,
                                           current: string, at: nat, insertion: Option<nat>)
    requires AllAgree(marks, views, key) && (insertion.Some? <==> current == table)
    ensures match Find(marks, table, current, at, insertion)
            case Replace(i) => at <= i < at + |views| && Walk(views[..i - at], table, key, current) == Miss(table)
            case Insert(i) =>
              || insertion == Some(i)
              || (at < i <= at + |views| && Walk(views[..i - at], table, key, current) == Miss(table))
            case Append => Walk(views, table, key, current).Miss?
  {
    if marks != [] && !(marks[0].HeaderMark? && current == table) && !(marks[0] == KeyMark && current == table) {
      var current' := if marks[0].HeaderMark? then marks[0].name else current;
      var insertion' := if marks[0] == HeaderMark(table) then Some(at + 1) else insertion;
      assert Agree(marks[0], views[0], key);
      FindMeetsReader(marks[1..], views[1..], table, key, current', at + 1, insertion');
      var e := Find(marks, table, current, at, insertion);
      if (e.Replace? || (e.Insert? && insertion != Some(e.line))) && e.line != at + 1 {
        assert views[..e.line - at][1..] == views[1..][..e.line - at - 1];
      }
      assert views[..1][1..] == [];
    }
  }

  lemma TidyInTable(text: string, keys: set<string>, table: string, key: string)
    requires Tidy(text, keys) && LegalKey(key) && key in keys && table != ""
    ensures InTable(text, table, key)
  {
    var lines := Split(text);
    var marks, views := Marks(lines, key, INITIAL), Views(lines);
    TidyAllAgree(lines, keys, key, INITIAL);
    FindMeetsReader(marks, views, table, key, "", 0, None);
    EditShape(lines, table, key);
    match EditOf(lines, table, key)
    case Replace(i) => ViewsPrefix(lines, i);
    case Insert(i) => ViewsPrefix(lines, i);
    case Append =>
  }

  lemma ViewsPrefix(lines: seq<string>, i: nat)
    requires i <= |lines|
    ensures Views(lines[..i]) == Views(lines)[..i]
  {
  }

  lemma TidyLead(text: string, keys: set<string>, table: string, key: string)
    requires Tidy(text, keys) && key in keys
    ensures LeadReadable(text, table, key) && Settled(text, table, key)
  {
    var lines := Split(text);
    EditShape(lines, table, key);
    match EditOf(lines, table, key)
    case Replace(i) => TidyAt(lines, keys, i);
    case Insert(i) =>
      TidyAt(lines, keys, i - 1);
      StateAtNext(lines, i - 1);
    case Append =>
  }

  // ----- and stays tidy -----

  lemma BlankIsPlain(s: string)
    requires AllWhite(s)
    ensures IsPlain(s)
  {
  }

  lemma PlainAround(pre: string, key: string)
    requires Trim(pre) == key && IsPlain(key)
    ensures IsPlain(pre)
  {
    var lead := TrimStartParts(pre);
    var tail := TrimEndParts(TrimStart(pre));
    forall i | 0 <= i < |pre| ensures IsPlainChar(pre[i]) {
      if i < |lead| {
        assert IsBlank(lead[i]);
      } else if i < |lead| + |key| {
        assert pre[i] == key[i - |lead|];
      } else {
        assert pre[i] == tail[i - |lead| - |key|];
        assert IsBlank(tail[i - |lead| - |key|]);
      }
    }
  }

  lemma ScanTail(gap: string, comment: string)
    requires AllWhite(gap) && (comment == "" || comment[0] == '#')
    ensures Scan(gap + comment, INITIAL) == INITIAL
    ensures gap + comment == "" || (gap + comment)[0] != '"'
  {
    BlankIsPlain(gap);
    ScanPlain(gap, comment, INITIAL);
  }

  /** A plain key, a printed value and a comment leave nothing open. */
  lemma ScanAssignment(pre: string, lead: string, rendered: string, gap: string, comment: string)
    requires IsPlain(pre) && AllWhite(lead) && IsRendered(rendered)
    requires AllWhite(gap) && (comment == "" || comment[0] == '#')
    ensures Scan((pre + "=") + lead + rendered + (gap + comment), INITIAL) == INITIAL
  {
    var front := (pre + "=") + lead;
    BlankIsPlain(lead);
    ScanTail(gap, comment);
    assert front + rendered + (gap + comment) == front + (rendered + (gap + comment));
    ScanPlain(front, rendered + (gap + comment), INITIAL);
    ScanRendered(rendered, gap + comment, INITIAL);
  }

  lemma ScanReplaced(line: string, key: string, rendered: string)
    requires Assigns(line, key) && IsPlain(key) && IsRendered(rendered)
    ensures Scan(ReplaceValue(line, rendered), INITIAL) == INITIAL
  {
    var i := IndexOf(line, '=');
    var gap, comment := TailParts(line);
    PlainAround(line[..i], key);
    ScanAssignment(line[..i], Lead(line), rendered, gap, comment);
    PrefixThrough(line, line[..i] + "=", i);
    assert (line[..i] + "=")[..i + 1] == line[..i] + "=";
  }

  lemma ScanFresh(key: string, rendered: string)
    requires IsPlain(key) && IsRendered(rendered)
    ensures Scan(AssignmentLine(key, rendered), INITIAL) == INITIAL
  {
    ScanAssignment(key + " ", " ", rendered, "", "");
    assert ((key + " ") + "=") + " " + rendered + ("" + "") == AssignmentLine(key, rendered);
  }

  lemma SameKey(line: string, edited: string, keys: set<string>)
    requires '=' in line && '=' in edited && IndexOf(edited, '=') == IndexOf(line, '=')
    requires edited[..IndexOf(line, '=')] == line[..IndexOf(line, '=')]
    ensures AssignsOne(edited, keys) == AssignsOne(line, keys)
  {
  }

  lemma TidyReplaced(lines: seq<string>, keys: set<string>, i: nat, table: string, key: string, rendered: string)
    requires TidyFrom(lines, keys, INITIAL) && lines != []
    requires BareKeys(keys) && key in keys && IsRendered(rendered)
    requires EditOf(lines, table, key) == Replace(i)
    ensures var written := SetLines(lines, table, key, rendered);
            TidyFrom(written, keys, INITIAL) && After(written, INITIAL) == After(lines, INITIAL)
  {
    EditShape(lines, table, key);
    TidyAt(lines, keys, i);
    CleanIsInitial(lines, i);
    StateAtNext(lines, i);
    ScanSane(lines[i], INITIAL);
    ReplacedTidy(lines[i], keys, key, rendered);
    Spliced(lines, i, i + 1, [ReplaceValue(lines[i], rendered)], keys);
  }

  lemma ReplacedTidy(line: string, keys: set<string>, key: string, rendered: string)
    requires BareKeys(keys) && key in keys && IsRendered(rendered)
    requires Assigns(line, key) && LineTidy(line, INITIAL, keys)
    ensures var edited := ReplaceValue(line, rendered);
            LineTidy(edited, INITIAL, keys) && Scan(edited, INITIAL) == INITIAL
  {
    ScanReplaced(line, key, rendered);
    ReplacedCut(line, rendered);
    ReplaceKeepsAround(line, rendered);
    SameKey(line, ReplaceValue(line, rendered), keys);
  }

  /** Replacing a stretch of lines by another that ends in the same state. */
  lemma Spliced(lines: seq<string>, i: nat, j: nat, mid: seq<string>, keys: set<string>)
    requires i <= j <= |lines| && TidyFrom(lines, keys, INITIAL)
    requires StateAt(lines, i) == INITIAL && StateAt(lines, j) == INITIAL
    requires |mid| == 1 && LineTidy(mid[0], INITIAL, keys) && Scan(mid[0], INITIAL) == INITIAL
    ensures TidyFrom(lines[..i] + mid + lines[j..], keys, INITIAL)
    ensures After(lines[..i] + mid + lines[j..], INITIAL) == After(lines, INITIAL)
  {
    var pre, post := lines[..i], lines[j..];
    assert mid[1..] == [];
    assert After(mid, INITIAL) == INITIAL && TidyFrom(mid, keys, INITIAL);
    assert lines == lines[..j] + post && lines == pre + lines[i..];
    TidyConcat(lines[..j], post, keys, INITIAL);
    TidyConcat(pre, lines[i..], keys, INITIAL);
    AfterConcat(lines[..j], post, INITIAL);
    TidyConcat(pre + mid, post, keys, INITIAL);
    TidyConcat(pre, mid, keys, INITIAL);
    AfterConcat(pre + mid, post, INITIAL);
    AfterConcat(pre, mid, INITIAL);
  }

  lemma FreshTidy(keys: set<string>, key: string, rendered: string)
    requires BareKeys(keys) && key in keys && IsRendered(rendered)
    ensures LineTidy(AssignmentLine(key, rendered), INITIAL, keys)
    ensures Scan(AssignmentLine(key, rendered), INITIAL) == INITIAL
  {
    ScanFresh(key, rendered);
    ReplaceFresh(key, rendered, rendered);
  }

  lemma AfterHeader(lines: seq<string>, keys: set<string>, i: nat)
    requires TidyFrom(lines, keys, INITIAL) && 0 < i <= |lines|
    requires Starts(lines, i - 1) && TableName(lines[i - 1]).Some?
    ensures StateAt(lines, i) == INITIAL
  {
    TidyAt(lines, keys, i - 1);
    StateAtNext(lines, i - 1);
    CleanIsInitial(lines, i);
  }

  lemma TidyInserted(lines: seq<string>, keys: set<string>, i: nat, table: string, key: string, rendered: string)
    requires TidyFrom(lines, keys, INITIAL) && lines != []
    requires BareKeys(keys) && key in keys && IsRendered(rendered)
    requires EditOf(lines, table, key) == Insert(i)
    ensures var written := SetLines(lines, table, key, rendered);
            TidyFrom(written, keys, INITIAL) && After(written, INITIAL) == After(lines, INITIAL)
  {
    EditShape(lines, table, key);
    AfterHeader(lines, keys, i);
    FreshTidy(keys, key, rendered);
    Spliced(lines, i, i, [AssignmentLine(key, rendered)], keys);
  }

  lemma HeaderTidy(keys: set<string>, table: string)
    requires BareKeys(keys) && LegalTable(table) && IsPlain(table)
    ensures LineTidy("[" + table + "]", INITIAL, keys)
    ensures Scan("[" + table + "]", INITIAL) == INITIAL
  {
    var header := "[" + table + "]";
    ScanHeader(table);
    HeaderReadsBack(table);
    if AssignsOne(header, keys) {
      ViewAssigns(header, Trim(header[..IndexOf(header, '=')]));
    }
  }

  lemma TidyAppended(lines: seq<string>, keys: set<string>, table: string, key: string, rendered: string)
    requires TidyFrom(lines, keys, INITIAL) && lines != [] && After(lines, INITIAL).Clean()
    requires BareKeys(keys) && key in keys && IsRendered(rendered) && LegalTable(table) && IsPlain(table)
    requires EditOf(lines, table, key) == Append
    ensures var written := SetLines(lines, table, key, rendered);
            TidyFrom(written, keys, INITIAL) && After(written, INITIAL) == INITIAL
  {
    var body, line := Body(lines), AssignmentLine(key, rendered);
    var more := NewTable(table, line);
    var rest := lines[|body|..];
    assert lines == body + rest;
    TidyConcat(body, rest, keys, INITIAL);
    AfterBody(lines);
    AfterSane(lines, INITIAL);
    HeaderTidy(keys, table);
    FreshTidy(keys, key, rendered);
    assert more[1..] == [line, ""] && [line, ""][1..] == [""] && [""][1..] == [];
    assert TidyFrom([""], keys, INITIAL) && After([""], INITIAL) == INITIAL;
    assert TidyFrom([line, ""], keys, INITIAL) && After([line, ""], INITIAL) == INITIAL;
    TidyConcat(body, more, keys, INITIAL);
    AfterConcat(body, more, INITIAL);
  }

  /** Setting a bare key keeps a tidy document tidy and every other lookup as it was. */
  lemma TidyKept(text: string, keys: set<string>, table: string, key: string, rendered: string)
    requires Tidy(text, keys) && BareKeys(keys) && key in keys && IsRendered(rendered)
    requires LegalTable(table) && IsPlain(table) && table != ""
    ensures Tidy(SetText(text, table, key, rendered), keys)
    ensures forall table', key' :: (table' != table || key' != key) ==>
              Read(SetText(text, table, key, rendered), table', key') == Read(text, table', key')
  {
    var lines := Split(text);
    RenderedShape(rendered);
    SetSplit(text, table, key, rendered);
    EditShape(lines, table, key);
    match EditOf(lines, table, key) {
      case Replace(i) => TidyReplaced(lines, keys, i, table, key, rendered);
      case Insert(i) => TidyInserted(lines, keys, i, table, key, rendered);
      case Append => TidyAppended(lines, keys, table, key, rendered);
    }
    TidyInTable(text, keys, table, key);
    forall table', key' | table' != table || key' != key
      ensures Read(SetText(text, table, key, rendered), table', key') == Read(text, table', key')
    {
      OthersUnchanged(text, table, key, rendered, table', key');
    }
  }

  /** ...and every string set is read back, the last one written winning. */
  lemma TidyEdit(text: string, keys: set<string>, table: string, key: string, v: string)
    requires Tidy(text, keys) && BareKeys(keys) && key in keys
    requires LegalTable(table) && IsPlain(table) && table != ""
    ensures Read(SetText(text, table, key, Quoted(v)), table, key) == Ok(Some(v))
    ensures forall r1, r2 | IsRendered(r1) && IsRendered(r2) ::
              SetText(SetText(text, table, key, r1), table, key, r2) == SetText(text, table, key, r2)
  {
    TidyInTable(text, keys, table, key);
    TidyLead(text, keys, table, key);
    ReadBack(text, table, key, v);
    LastWriteWins(text, table, key);
  }
}
