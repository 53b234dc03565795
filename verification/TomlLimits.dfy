/** Where an edit does not do what it promises: why the conditions of the other modules are
    there. */
module TomlLimits {
  import opened Text
  import opened TomlString
  import opened TomlScan
  import opened TomlLines
  import opened MinimalToml
  import opened TomlSetting
  import opened TomlRewriting
  import opened TomlRemoving

  /** A key, a `=` and a value with no blank between them. */
  lemma TightLine(key: string, value: string)
    requires LegalKey(key) && key != "" && Trim(value) == value
    ensures var line := key + ("=" + value);
            && View(line) == Assignment(key, value) && TableName(line) == None
            && Assigns(line, key) && Trim(line[..IndexOf(line, '=')]) == key && Suffix(line) == value
  {
    CutAtEqual(key, value);
    LegalFront(key, key);
    ViewAtEqual(key, value);
  }

  // ----- a multi-line string that looks like a table -----

  const LITERAL := Scanning(Some('\''), true, 0)

  lemma {:induction false} ScanInLiteral(s: string)
    requires '\'' !in s
    ensures Scan(s, LITERAL) == LITERAL
  {
    if s != "" {
      ScanInLiteral(s[1..]);
    }
  }

  lemma OpensLiteral(key: string)
    requires IsPlain(key)
    ensures Scan(key + ("=" + "'''"), INITIAL) == LITERAL
  {
    assert key + ("=" + "'''") == (key + "=") + "'''";
    ScanPlain(key + "=", "'''", INITIAL);
    assert Drop("'''", 3) == "";
  }

  /** An assignment of a multi-line string: a header and an assignment, to look at. */
  function QuotedTable(owner: string, table: string, key: string): seq<string> {
    [owner + ("=" + "'''"), "[" + table + "]", key + ("=" + "1"), "'''"]
  }

  lemma FourOpaque(a: string, b: string, c: string, d: string, table: string, key: string)
    requires TableName(a) == None && !Assigns(a, key) && table != ""
    requires Scan(a, INITIAL) == LITERAL && Scan(b, LITERAL) == LITERAL && Scan(c, LITERAL) == LITERAL
    ensures EditOf([a, b, c, d], table, key) == Append
  {
    var marks := Marks([a, b, c, d], key, INITIAL);
    MarksConcat([a], [b, c, d], key, INITIAL);
    assert [a] + [b, c, d] == [a, b, c, d] && [a][1..] == [];
    assert [b, c, d][1..] == [c, d] && [c, d][1..] == [d] && [d][1..] == [];
    assert Marks([c, d], key, LITERAL) == [Opaque] + Marks([d], key, LITERAL);
    assert Marks([b, c, d], key, LITERAL) == [Opaque] + Marks([c, d], key, LITERAL);
    NoneFound(marks, table, "", 0);
  }

  lemma {:induction false} NoneFound(marks: seq<Mark>, table: string, current: string, at: nat)
    requires forall i :: 0 <= i < |marks| ==> !marks[i].HeaderMark?
    requires current != table
    ensures Find(marks, table, current, at, None) == Append
  {
    if marks != [] {
      NoneFound(marks[1..], table, current, at + 1);
    }
  }

  lemma WalkIntoLiteral(a: string, b: string, c: string, d: string, table: string, key: string, raw: string)
    requires View(a).Assignment? && View(a).key != key
    requires View(b) == Header(table) && View(c) == Assignment(key, raw)
    ensures Walk(Views([a, b, c, d]), table, key, "") == Hit(raw)
  {
    assert [a] + [b] + [c, d] == [a, b, c, d] && [c] + [d] == [c, d];
    WalkAt([a], b, [c, d], table, key);
    assert Views([a]) == [View(a)] && Views([c, d]) == [View(c)] + [View(d)];
    WalkOne(View(a), table, key, "");
    WalkOne(View(b), table, key, "");
    WalkConcat([View(c)], [View(d)], table, key, table);
    WalkOne(View(c), table, key, table);
  }

  lemma QuotedTableAppends(owner: string, table: string, key: string)
    requires LegalKey(owner) && IsPlain(owner) && IsPlain(key) && owner != key
    requires owner != "" && IsPlain(table) && table != ""
    ensures EditOf(QuotedTable(owner, table, key), table, key) == Append
  {
    var header, k := "[" + table + "]", key + ("=" + "1");
    LiteralIsTight();
    TightLine(owner, "'''");
    OpensLiteral(owner);
    PlainInLiteral("[", table, "]");
    PlainInLiteral(key, "=", "1");
    assert key + "=" + "1" == k;
    FourOpaque(owner + ("=" + "'''"), header, k, "'''", table, key);
  }

  lemma QuotedTableHit(owner: string, table: string, key: string)
    requires LegalKey(owner) && LegalKey(key) && owner != key && owner != "" && key != "" && LegalTable(table)
    ensures Walk(Views(QuotedTable(owner, table, key)), table, key, "") == Hit("1")
  {
    LiteralIsTight();
    TightLine(owner, "'''");
    TightLine(key, "1");
    HeaderReadsBack(table);
    WalkIntoLiteral(owner + ("=" + "'''"), "[" + table + "]", key + ("=" + "1"), "'''", table, key, "1");
  }

  lemma PlainInLiteral(a: string, b: string, c: string)
    requires '\'' !in a && '\'' !in b && '\'' !in c
    ensures Scan(a + b + c, LITERAL) == LITERAL
  {
    ScanInLiteral(a + b + c);
  }

  lemma LiteralIsTight()
    ensures Trim("'''") == "'''" && Trim("1") == "1" && Trim("[") == "["
  {
  }

  /** The editor knows the table only as text inside a string, and appends a real one; the
      reader stops at the text, and finds no string there whatever was written. */
  lemma ReaderMisled(owner: string, table: string, key: string, v: string)
    requires LegalKey(owner) && IsPlain(owner) && LegalKey(key) && IsPlain(key) && owner != key
    requires owner != "" && key != "" && LegalTable(table) && IsPlain(table) && table != ""
    ensures Read(SetText(Join(QuotedTable(owner, table, key)), table, key, Quoted(v)), table, key) == Err(NotQuoted)
  {
    QuotedTableAppends(owner, table, key);
    QuotedTableHit(owner, table, key);
    QuotedTableOneLine(owner, table, key);
    QuotedIsRendered(v);
    HitAbove(QuotedTable(owner, table, key), table, key, Quoted(v), "1");
  }

  lemma QuotedTableOneLine(owner: string, table: string, key: string)
    requires OneLine(owner) && OneLine(table) && OneLine(key)
    ensures AllOneLine(QuotedTable(owner, table, key))
  {
  }

  /** What the reader meets in the old lines, a table appended does not change. */
  lemma HitAbove(lines: seq<string>, table: string, key: string, rendered: string, raw: string)
    requires lines != [] && AllOneLine(lines) && EditOf(lines, table, key) == Append
    requires LegalTable(table) && LegalKey(key) && IsRendered(rendered)
    requires Walk(Views(lines), table, key, "") == Hit(raw)
    ensures Read(SetText(Join(lines), table, key, rendered), table, key) == Answer(Hit(raw))
  {
    RenderedShape(rendered);
    SplitJoin(lines);
    SetSplit(Join(lines), table, key, rendered);
    WalkAppended(lines, table, key, rendered, table, key);
  }

  // ----- a value left open -----

  const OPEN := Scanning(None, false, 1)

  /** A line that opens an array and does not close it. */
  function OpeningLine(key: string): string {
    key + ("=" + "[")
  }

  lemma OpeningScan(key: string)
    requires IsPlain(key)
    ensures Scan(OpeningLine(key), INITIAL) == OPEN
  {
    assert OpeningLine(key) == (key + "=") + "[";
    ScanPlain(key + "=", "[", INITIAL);
    assert Drop("[", 1) == "";
  }

  lemma OpeningReads(key: string)
    requires LegalKey(key) && IsPlain(key) && key != ""
    ensures var line := OpeningLine(key);
            OneLine(line) && Assigns(line, key) && TableName(line) == None && Scan(line, INITIAL) == OPEN
  {
    TrimTight("[");
    TightLine(key, "[");
    OpeningScan(key);
  }

  /** In a document of that one line every table is appended where something is open: a second
      write leaves the first one standing. */
  lemma UnsettledIsReal(owner: string, table: string, key: string)
    requires LegalKey(owner) && IsPlain(owner) && owner != ""
    requires LegalTable(table) && IsPlain(table) && table != "" && LegalKey(key)
    ensures var text := OpeningLine(owner);
            && !Settled(text, table, key)
            && SetText(SetText(text, table, key, Quoted("")), table, key, Quoted("x")) !=
               SetText(text, table, key, Quoted("x"))
  {
    var text := OpeningLine(owner);
    OpeningReads(owner);
    SplitOneLine(text);
    var marks := Marks([text], key, INITIAL);
    assert [text][1..] == [] && !marks[0].HeaderMark?;
    NoneFound(marks, table, "", 0);
    OneLineIsOpen(text);
    RewriteUnsettled(text, table, key);
  }

  lemma OneLineIsOpen(line: string)
    requires Scan(line, INITIAL) == OPEN
    ensures !After([line], INITIAL).Clean()
  {
    assert [line][1..] == [];
  }

  // ----- removing a key twice -----

  predicate RemovedForGood(lines: seq<string>, table: string, key: string) {
    WithoutKey(WithoutKey(Join(lines), table, key), table, key) == WithoutKey(Join(lines), table, key)
  }

  /** A header of the table, and under it a line that assigns the key. */
  ghost predicate AtTarget(header: string, first: string, table: string, key: string) {
    && OneLine(header) && OneLine(first) && LegalKey(key) && key != ""
    && TableName(header) == Some(table) && Scan(header, INITIAL) == INITIAL
    && TableName(first) == None && Assigns(first, key)
  }

  /** What follows holds no other assignment to take out that goes over several lines. */
  ghost predicate Follows(rest: seq<string>, first: string, table: string, key: string) {
    AllOneLine(rest) && TargetsClose(rest, table, key, Scan(first, INITIAL), table)
  }

  ghost predicate AlwaysForGood(header: string, first: string, table: string, key: string) {
    forall rest :: Follows(rest, first, table, key) ==> RemovedForGood([header, first] + rest, table, key)
  }

  /** One removal is as good as two, whatever follows, exactly when the value taken out ends on
      its own line. */
  lemma RemovedForGoodExactlyWhenClosed(header: string, first: string, table: string, key: string)
    requires AtTarget(header, first, table, key)
    ensures Scan(first, INITIAL).Clean() <==> AlwaysForGood(header, first, table, key)
  {
    if Scan(first, INITIAL).Clean() {
      ClosedIsAlways(header, first, table, key);
    } else {
      var second := SecondLine(table, key);
      OpenIsNot(header, first, second, table, key);
    }
  }

  /** Under a header of the table such a line can stand, and then removing its key is not for
      good. */
  lemma OpenTargetIsReal(table: string, key: string)
    requires LegalKey(key) && IsPlain(key) && key != "" && LegalTable(table) && IsPlain(table)
    ensures var header, first := "[" + table + "]", OpeningLine(key);
            && AtTarget(header, first, table, key) && !Scan(first, INITIAL).Clean()
            && !AlwaysForGood(header, first, table, key)
  {
    HeaderReadsBack(table);
    ScanHeader(table);
    OpeningReads(key);
    RemovedForGoodExactlyWhenClosed("[" + table + "]", OpeningLine(key), table, key);
  }

  lemma ClosedIsAlways(header: string, first: string, table: string, key: string)
    requires AtTarget(header, first, table, key) && Scan(first, INITIAL).Clean()
    ensures AlwaysForGood(header, first, table, key)
  {
    forall rest | Follows(rest, first, table, key) ensures RemovedForGood([header, first] + rest, table, key) {
      ClosedIsForGood(header, first, rest, table, key);
    }
  }

  lemma ClosedIsForGood(header: string, first: string, rest: seq<string>, table: string, key: string)
    requires AtTarget(header, first, table, key) && Follows(rest, first, table, key) && Scan(first, INITIAL).Clean()
    ensures RemovedForGood([header, first] + rest, table, key)
  {
    var lines := [header, first] + rest;
    SplitJoin(lines);
    assert lines[1..] == [first] + rest && ([first] + rest)[1..] == rest;
    assert TargetsClose([first] + rest, table, key, INITIAL, table);
    assert TargetsClose(lines, table, key, INITIAL, "");
    RemoveKeyTwice(Join(lines), table, key);
  }

  /** A line that a removal takes out whole. */
  ghost predicate TakenOut(line: string, table: string, key: string) {
    OneLine(line) && Left(line, table, key, INITIAL, table) == []
  }

  lemma SecondLine(table: string, key: string) returns (second: string)
    requires LegalKey(key) && key != ""
    ensures TakenOut(second, table, key)
  {
    second := key + ("=" + "1");
    TrimTight("1");
    TightLine(key, "1");
    NoComment("1");
    BareLine(second, table, key);
  }

  lemma NoComment(value: string)
    requires forall i :: 0 <= i < |value| ==> value[i] != '"' && value[i] != '\'' && value[i] != '#'
    ensures CommentStart(value) == None
  {
    CommentPastPlain(value, "");
    assert value + "" == value;
  }

  lemma BareLine(line: string, table: string, key: string)
    requires OneLine(line) && TableName(line) == None && Assigns(line, key) && CommentStart(Suffix(line)) == None
    ensures TakenOut(line, table, key)
  {
  }

  lemma LastUnassigned(line: string, table: string, key: string, st: ScanState)
    ensures Unassigned([line], table, key, st, table) == Left(line, table, key, st, table)
  {
    assert Left(line, table, key, st, table) + [] == Left(line, table, key, st, table);
  }

  lemma FirstRemoval(header: string, first: string, second: string, table: string, key: string)
    requires AtTarget(header, first, table, key) && !Scan(first, INITIAL).Clean()
    ensures Unassigned([header, first, second], table, key, INITIAL, "") == [header] + (Remains(first) + [second])
  {
    assert [header, first, second][1..] == [first, second] && [first, second][1..] == [second];
    LastUnassigned(second, table, key, Scan(first, INITIAL));
  }

  lemma SecondRemoval(header: string, left: seq<string>, second: string, table: string, key: string)
    requires TableName(header) == Some(table) && Scan(header, INITIAL) == INITIAL && LegalKey(key)
    requires left == [] || (|left| == 1 && IsRemark(left[0]))
    requires Left(second, table, key, INITIAL, table) == []
    ensures Unassigned([header] + (left + [second]), table, key, INITIAL, "") == [header] + left
  {
    assert ([header] + (left + [second]))[1..] == left + [second];
    RemarkKept(left, second, table, key);
  }

  /** Where the lines left are some, the texts differ where the lines do. */
  lemma DifferentTexts(lines: seq<string>, once: seq<string>, twice: seq<string>, table: string, key: string)
    requires lines != [] && AllOneLine(lines) && once != [] && twice != [] && once != twice
    requires once == Unassigned(lines, table, key, INITIAL, "") && twice == Unassigned(once, table, key, INITIAL, "")
    ensures !RemovedForGood(lines, table, key)
  {
    SplitJoin(lines);
    UnassignedOneLine(lines, table, key, INITIAL, "");
    UnassignedOneLine(once, table, key, INITIAL, "");
    SplitJoin(once);
    SplitJoin(twice);
  }

  /** Where the value stays open, the first removal takes its first line only; the next line is
      a statement then, and a second removal takes it. */
  lemma OpenIsNot(header: string, first: string, second: string, table: string, key: string)
    requires AtTarget(header, first, table, key) && !Scan(first, INITIAL).Clean() && TakenOut(second, table, key)
    ensures !AlwaysForGood(header, first, table, key)
  {
    var left := Remains(first);
    RemainsRemark(first);
    FirstRemoval(header, first, second, table, key);
    SecondRemoval(header, left, second, table, key);
    assert |[header] + (left + [second])| != |[header] + left|;
    DifferentTexts([header, first, second], [header] + (left + [second]), [header] + left, table, key);
    assert [header, first] + [second] == [header, first, second];
    NothingFollows(second, first, table, key);
  }

  lemma NothingFollows(line: string, first: string, table: string, key: string)
    requires OneLine(line) && !Scan(first, INITIAL).Clean()
    ensures Follows([line], first, table, key)
  {
    assert [line][1..] == [];
  }

  lemma RemarkKept(left: seq<string>, line: string, table: string, key: string)
    requires left == [] || (|left| == 1 && IsRemark(left[0]))
    requires Left(line, table, key, INITIAL, table) == [] && LegalKey(key)
    ensures Unassigned(left + [line], table, key, INITIAL, table) == left
  {
    LastUnassigned(line, table, key, INITIAL);
    if left == [] {
      assert left + [line] == [line];
    } else {
      assert left + [line] == [left[0], line] && [left[0], line][1..] == [line];
      RemarkScans(left[0]);
      ViewAssigns(left[0], key);
      assert left + [] == left;
    }
  }
}
