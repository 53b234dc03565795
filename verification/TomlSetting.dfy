/** What `setting` promises: the value just written is the value read back, and every other
    lookup answers as before. */
module TomlSetting {
  import opened Text
  import opened TomlString
  import opened TomlScan
  import opened TomlLines
  import opened MinimalToml

  lemma ReplacedOneLine(line: string, rendered: string)
    requires '=' in line && OneLine(line) && OneLine(rendered)
    ensures OneLine(ReplaceValue(line, rendered))
  {
    var suffix := Suffix(line);
    assert forall c :: c in suffix ==> c in line;
    assert forall c :: c in Lead(line) ==> c in suffix;
    assert forall c :: c in Tail(line) ==> c in suffix;
  }

  lemma AroundOneLine(a: seq<string>, line: string, b: seq<string>)
    requires AllOneLine(a) && OneLine(line) && AllOneLine(b)
    ensures AllOneLine(a + [line] + b)
  {
  }

  lemma NewTableOneLine(a: seq<string>, table: string, line: string)
    requires AllOneLine(a) && OneLine(table) && OneLine(line)
    ensures AllOneLine(a + NewTable(table, line))
  {
  }

  lemma SetOneLine(lines: seq<string>, table: string, key: string, rendered: string)
    requires lines != [] && AllOneLine(lines) && OneLine(table) && OneLine(key) && OneLine(rendered)
    ensures AllOneLine(SetLines(lines, table, key, rendered))
  {
    EditShape(lines, table, key);
    assert OneLine(AssignmentLine(key, rendered));
    match EditOf(lines, table, key)
    case Replace(i) =>
      ReplacedOneLine(lines[i], rendered);
      AroundOneLine(lines[..i], ReplaceValue(lines[i], rendered), lines[i + 1..]);
    case Insert(i) => AroundOneLine(lines[..i], AssignmentLine(key, rendered), lines[i..]);
    case Append => NewTableOneLine(Body(lines), table, AssignmentLine(key, rendered));
  }

  /** The lines of the written text are the lines that were set. */
  lemma SetSplit(text: string, table: string, key: string, rendered: string)
    requires OneLine(table) && OneLine(key) && OneLine(rendered)
    ensures Split(SetText(text, table, key, rendered)) == SetLines(Split(text), table, key, rendered)
  {
    SplitIsOneLine(text);
    SetOneLine(Split(text), table, key, rendered);
    SplitJoin(SetLines(Split(text), table, key, rendered));
  }

  // ----- the walk over a written document -----

  function Then(walked: Walked, rest: seq<LineView>, table: string, key: string): Walked {
    if walked.Hit? then walked else Walk(rest, table, key, walked.table)
  }

  /** A walk over three stretches of a document, the middle one a line. */
  lemma WalkAt(pre: seq<string>, line: string, post: seq<string>, table: string, key: string)
    ensures Walk(Views(pre + [line] + post), table, key, "") ==
            Then(Then(Walk(Views(pre), table, key, ""), [View(line)], table, key), Views(post), table, key)
  {
    assert Views(pre + [line] + post) == Views(pre) + ([View(line)] + Views(post));
    WalkConcat(Views(pre), [View(line)] + Views(post), table, key, "");
    var walked := Walk(Views(pre), table, key, "");
    if walked.Miss? {
      WalkConcat([View(line)], Views(post), table, key, walked.table);
    }
  }

  lemma WalkTwo(pre: seq<string>, post: seq<string>, table: string, key: string)
    ensures Walk(Views(pre + post), table, key, "") ==
            Then(Walk(Views(pre), table, key, ""), Views(post), table, key)
  {
    assert Views(pre + post) == Views(pre) + Views(post);
    WalkConcat(Views(pre), Views(post), table, key, "");
  }

  lemma WalkOne(view: LineView, table: string, key: string, current: string)
    ensures Walk([view], table, key, current) ==
            if current == table && view.Assignment? && view.key == key then Hit(view.raw)
            else Miss(TableAfter(view, current))
  {
  }

  /** Whatever is looked up, the reader is in the same table as long as it finds nothing. */
  lemma {:induction false} WalkTable(views: seq<LineView>, table: string, key: string,
                                     table': string, key': string, current: string)
    requires Walk(views, table, key, current).Miss? && Walk(views, table', key', current).Miss?
    ensures Walk(views, table, key, current) == Walk(views, table', key', current)
  {
    if views != [] {
      WalkTable(views[1..], table, key, table', key', TableAfter(views[0], current));
    }
  }

  lemma WalkBody(lines: seq<string>, table: string, key: string)
    requires lines != []
    ensures Walk(Views(Body(lines)), table, key, "") == Walk(Views(lines), table, key, "")
  {
    var n := |lines| - 1;
    if lines[n] == "" {
      assert lines == lines[..n] + [""] + [];
      WalkAt(lines[..n], "", [], table, key);
      assert View("") == Skipped;
      var walked := Walk(Views(lines[..n]), table, key, "");
      if walked.Miss? {
        WalkOne(Skipped, table, key, walked.table);
      }
    }
  }

  lemma ViewsNewTable(table: string, key: string, rendered: string)
    requires LegalTable(table) && LegalKey(key) && IsRendered(rendered)
    ensures Views(NewTable(table, AssignmentLine(key, rendered))) ==
            [Header(table), Assignment(key, rendered), Skipped]
  {
    ViewsOfThree("[" + table + "]", AssignmentLine(key, rendered), "");
    HeaderReadsBack(table);
    AssignmentReadsBack(key, rendered);
    assert View("") == Skipped;
  }

  lemma ViewsOfThree(a: string, b: string, c: string)
    ensures Views([a, b, c]) == [View(a), View(b), View(c)]
  {
  }

  lemma WalkThree(header: string, key: string, raw: string, table': string, key': string, current: string)
    ensures Walk([Header(header), Assignment(key, raw), Skipped], table', key', current) ==
            if table' == header && key' == key then Hit(raw) else Miss(header)
  {
    var line: LineView := Assignment(key, raw);
    assert [Header(header), line, Skipped][1..] == [line, Skipped] && [line, Skipped][1..] == [Skipped];
    WalkOne(Skipped, table', key', header);
  }

  lemma WalkNewTable(table: string, key: string, rendered: string, table': string, key': string, current: string)
    requires LegalTable(table) && LegalKey(key) && IsRendered(rendered)
    ensures Walk(Views(NewTable(table, AssignmentLine(key, rendered))), table', key', current) ==
            if table' == table && key' == key then Hit(rendered) else Miss(table)
  {
    ViewsNewTable(table, key, rendered);
    WalkThree(table, key, rendered, table', key', current);
  }

  lemma WalkAppended(lines: seq<string>, table: string, key: string, rendered: string, table': string, key': string)
    requires lines != [] && LegalTable(table) && LegalKey(key) && IsRendered(rendered)
    requires EditOf(lines, table, key) == Append
    ensures Walk(Views(SetLines(lines, table, key, rendered)), table', key', "") ==
            var walked := Walk(Views(lines), table', key', "");
            if walked.Hit? then walked
            else if table' == table && key' == key then Hit(rendered)
            else Miss(table)
  {
    var more := NewTable(table, AssignmentLine(key, rendered));
    WalkTwo(Body(lines), more, table', key');
    WalkBody(lines, table', key');
    var walked := Walk(Views(lines), table', key', "");
    if walked.Miss? {
      WalkNewTable(table, key, rendered, table', key', walked.table);
    }
  }

  lemma WalkInserted(lines: seq<string>, i: nat, table: string, key: string, rendered: string, table': string,
                     key': string)
    requires lines != [] && LegalKey(key) && IsRendered(rendered)
    requires EditOf(lines, table, key) == Insert(i) && i <= |lines|
    ensures Walk(Views(SetLines(lines, table, key, rendered)), table', key', "") ==
            var walked := Walk(Views(lines[..i]), table', key', "");
            if walked.Hit? then walked
            else if walked.table == table' && key' == key then Hit(rendered)
            else Walk(Views(lines[i..]), table', key', walked.table)
  {
    AssignmentReadsBack(key, rendered);
    WalkAt(lines[..i], AssignmentLine(key, rendered), lines[i..], table', key');
    var walked := Walk(Views(lines[..i]), table', key', "");
    if walked.Miss? {
      WalkOne(Assignment(key, rendered), table', key', walked.table);
    }
  }

  lemma WalkReplaced(lines: seq<string>, i: nat, table: string, key: string, rendered: string, table': string,
                     key': string)
    requires lines != [] && LegalKey(key) && IsRendered(rendered)
    requires EditOf(lines, table, key) == Replace(i) && i < |lines| && Assigns(lines[i], key)
    ensures Walk(Views(SetLines(lines, table, key, rendered)), table', key', "") ==
            var walked := Walk(Views(lines[..i]), table', key', "");
            if walked.Hit? then walked
            else if walked.table == table' && key' == key then
              Hit(Trim(Lead(lines[i]) + rendered + Tail(lines[i])))
            else Walk(Views(lines[i + 1..]), table', key', walked.table)
  {
    ReplacedView(lines[i], key, rendered);
    var edited := ReplaceValue(lines[i], rendered);
    WalkAt(lines[..i], edited, lines[i + 1..], table', key');
    var walked := Walk(Views(lines[..i]), table', key', "");
    if walked.Miss? {
      WalkOne(View(edited), table', key', walked.table);
    }
  }

  /** The reader arrives in `table` at the edit, having found nothing on the way. */
  predicate InTable(text: string, table: string, key: string) {
    var lines := Split(text);
    EditShape(lines, table, key);
    match EditOf(lines, table, key)
    case Replace(i) => Walk(Views(lines[..i]), table, key, "") == Miss(table)
    case Insert(i) => Walk(Views(lines[..i]), table, key, "") == Miss(table)
    case Append => Walk(Views(lines), table, key, "").Miss?
  }

  /** No line separator stands between the `=` and a value to be replaced. */
  predicate LeadReadable(text: string, table: string, key: string) {
    var lines := Split(text);
    EditShape(lines, table, key);
    match EditOf(lines, table, key)
    case Replace(i) => AllBlank(Lead(lines[i]))
    case _ => true
  }

  lemma QuotedIsRendered(v: string)
    ensures IsRendered(Quoted(v)) && OneLine(Quoted(v))
  {
    assert Literal(JsonString(v)) == Ok(Quoted(v));
    EscapeOneLine(v);
  }

  /** Where the reader meets the edit, it reads exactly the string written there. */
  lemma ReadBack(text: string, table: string, key: string, v: string)
    requires LegalTable(table) && LegalKey(key)
    requires InTable(text, table, key) && LeadReadable(text, table, key)
    ensures Read(SetText(text, table, key, Quoted(v)), table, key) == Ok(Some(v))
  {
    var lines := Split(text);
    QuotedIsRendered(v);
    SetSplit(text, table, key, Quoted(v));
    EditShape(lines, table, key);
    match EditOf(lines, table, key)
    case Replace(i) =>
      WalkReplaced(lines, i, table, key, Quoted(v), table, key);
      BlankLeadReads(Lead(lines[i]), v, Tail(lines[i]));
    case Insert(i) =>
      WalkInserted(lines, i, table, key, Quoted(v), table, key);
      UnquoteQuoted(v, "");
      assert Quoted(v) + "" == Quoted(v);
    case Append =>
      WalkAppended(lines, table, key, Quoted(v), table, key);
      UnquoteQuoted(v, "");
      assert Quoted(v) + "" == Quoted(v);
  }

  /** Where it does not, either it reads nothing, or what it reads is not what was written. */
  lemma ReadElsewhere(text: string, table: string, key: string, v: string, w: string)
    requires LegalTable(table) && LegalKey(key)
    requires !(InTable(text, table, key) && LeadReadable(text, table, key))
    ensures var r := Read(SetText(text, table, key, Quoted(v)), table, key);
            r.Err? || r == Read(SetText(text, table, key, Quoted(w)), table, key)
  {
    var lines := Split(text);
    QuotedIsRendered(v);
    QuotedIsRendered(w);
    SetSplit(text, table, key, Quoted(v));
    SetSplit(text, table, key, Quoted(w));
    EditShape(lines, table, key);
    match EditOf(lines, table, key)
    case Replace(i) =>
      WalkReplaced(lines, i, table, key, Quoted(v), table, key);
      WalkReplaced(lines, i, table, key, Quoted(w), table, key);
      var gap, comment := TailParts(lines[i]);
      if !AllBlank(Lead(lines[i])) {
        WhiteLeadRefuses(Lead(lines[i]), Quoted(v), Tail(lines[i]));
      }
    case Insert(i) =>
      WalkInserted(lines, i, table, key, Quoted(v), table, key);
      WalkInserted(lines, i, table, key, Quoted(w), table, key);
    case Append =>
      WalkAppended(lines, table, key, Quoted(v), table, key);
      WalkAppended(lines, table, key, Quoted(w), table, key);
  }

  /** Reading back every string just set: exactly when the reader, run over the lines above
      the edit, finds nothing there and stands in the table, and only blanks lead the value. */
  lemma ReadBackExactly(text: string, table: string, key: string)
    requires LegalTable(table) && LegalKey(key)
    ensures (forall v :: Read(SetText(text, table, key, Quoted(v)), table, key) == Ok(Some(v))) <==>
            InTable(text, table, key) && LeadReadable(text, table, key)
  {
    if InTable(text, table, key) && LeadReadable(text, table, key) {
      forall v ensures Read(SetText(text, table, key, Quoted(v)), table, key) == Ok(Some(v)) {
        ReadBack(text, table, key, v);
      }
    } else {
      ReadElsewhere(text, table, key, "", "x");
      assert Read(SetText(text, table, key, Quoted("")), table, key) != Ok(Some("")) ||
             Read(SetText(text, table, key, Quoted("x")), table, key) != Ok(Some("x"));
    }
  }

  lemma StepsOver(view: LineView, table: string, key: string, table': string, key': string)
    requires view.Assignment? && view.key == key && (table' != table || key' != key)
    ensures Walk([view], table', key', table) == Miss(table)
  {
    WalkOne(view, table', key', table);
  }

  /** Another lookup goes past a line that assigns the key in the table. */
  lemma WalkPast(pre: seq<string>, line: string, post: seq<string>, table: string, key: string, table': string,
                 key': string)
    requires Walk(Views(pre), table, key, "") == Miss(table) && (table' != table || key' != key)
    requires View(line).Assignment? && View(line).key == key
    ensures Walk(Views(pre + [line] + post), table', key', "") ==
            var walked := Walk(Views(pre), table', key', "");
            if walked.Hit? then walked else Walk(Views(post), table', key', table)
  {
    WalkAt(pre, line, post, table', key');
    if Walk(Views(pre), table', key', "").Miss? {
      WalkTable(Views(pre), table, key, table', key', "");
      StepsOver(View(line), table, key, table', key');
    }
  }

  lemma OthersAtReplace(lines: seq<string>, i: nat, table: string, key: string, rendered: string, table': string,
                        key': string)
    requires lines != [] && LegalKey(key) && IsRendered(rendered)
    requires EditOf(lines, table, key) == Replace(i) && i < |lines|
    requires Walk(Views(lines[..i]), table, key, "") == Miss(table) && (table' != table || key' != key)
    ensures Walk(Views(SetLines(lines, table, key, rendered)), table', key', "") == Walk(Views(lines), table', key', "")
  {
    SetAtReplace(lines, i, table, key, rendered);
    ReplacedView(lines[i], key, rendered);
    ViewAssigns(lines[i], key);
    WalkPast(lines[..i], ReplaceValue(lines[i], rendered), lines[i + 1..], table, key, table', key');
    WalkPast(lines[..i], lines[i], lines[i + 1..], table, key, table', key');
  }

  lemma SetAtReplace(lines: seq<string>, i: nat, table: string, key: string, rendered: string)
    requires lines != [] && EditOf(lines, table, key) == Replace(i) && i < |lines|
    ensures Assigns(lines[i], key) && lines == lines[..i] + [lines[i]] + lines[i + 1..]
    ensures SetLines(lines, table, key, rendered) ==
            lines[..i] + [ReplaceValue(lines[i], rendered)] + lines[i + 1..]
  {
    EditShape(lines, table, key);
  }

  lemma OthersAtInsert(lines: seq<string>, i: nat, table: string, key: string, rendered: string, table': string,
                       key': string)
    requires lines != [] && LegalKey(key) && IsRendered(rendered)
    requires EditOf(lines, table, key) == Insert(i) && i <= |lines|
    requires Walk(Views(lines[..i]), table, key, "") == Miss(table) && (table' != table || key' != key)
    ensures Walk(Views(SetLines(lines, table, key, rendered)), table', key', "") == Walk(Views(lines), table', key', "")
  {
    WalkInserted(lines, i, table, key, rendered, table', key');
    assert lines == lines[..i] + lines[i..];
    WalkTwo(lines[..i], lines[i..], table', key');
    if Walk(Views(lines[..i]), table', key', "").Miss? {
      WalkTable(Views(lines[..i]), table, key, table', key', "");
    }
  }

  /** Every other lookup answers as before, whatever is set. */
  lemma OthersUnchanged(text: string, table: string, key: string, rendered: string, table': string, key': string)
    requires LegalTable(table) && LegalKey(key) && IsRendered(rendered)
    requires InTable(text, table, key) && (table' != table || key' != key)
    ensures Read(SetText(text, table, key, rendered), table', key') == Read(text, table', key')
  {
    var lines := Split(text);
    RenderedShape(rendered);
    SetSplit(text, table, key, rendered);
    EditShape(lines, table, key);
    match EditOf(lines, table, key)
    case Replace(i) => OthersAtReplace(lines, i, table, key, rendered, table', key');
    case Insert(i) => OthersAtInsert(lines, i, table, key, rendered, table', key');
    case Append => WalkAppended(lines, table, key, rendered, table', key');
  }
}
