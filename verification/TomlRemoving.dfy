/** The two removals: a table with everything in it, and one key. */
module TomlRemoving {
  import opened Text
  import opened TomlString
  import opened TomlScan
  import opened TomlLines
  import opened MinimalToml
  import opened TomlSetting
  import opened TomlTidy

  /** The table itself, and its sub-tables. */
  predicate InFamily(name: string, table: string) {
    name == table || table + "." <= name
  }

  /** A blank line or a comment: a removed table leaves them standing. */
  predicate IsRemark(line: string) {
    Trim(line) == "" || Trim(line)[0] == '#'
  }

  function RemovingAt(line: string, st: ScanState, table: string, removing: bool): bool {
    if st.Clean() && TableName(line).Some? then InFamily(TableName(line).value, table) else removing
  }

  predicate Stays(line: string, st: ScanState, last: bool, removing: bool) {
    (st.Clean() && IsRemark(line)) || (last && line == "") || !removing
  }

  function Kept(lines: seq<string>, table: string, st: ScanState, removing: bool): seq<string> {
    if lines == [] then []
    else
      var line := lines[0];
      var removing' := RemovingAt(line, st, table, removing);
      var rest := Kept(lines[1..], table, Scan(line, st), removing');
      if Stays(line, st, |lines| == 1, removing') then [line] + rest else rest
  }

  lemma KeptNext(lines: seq<string>, i: nat, table: string, removing: bool, kept: seq<string>)
    requires i < |lines|
    ensures var st := StateAt(lines, i);
            var removing' := RemovingAt(lines[i], st, table, removing);
            kept + Kept(lines[i..], table, st, removing) ==
            (if Stays(lines[i], st, i == |lines| - 1, removing') then kept + [lines[i]] else kept) +
            Kept(lines[i + 1..], table, StateAt(lines, i + 1), removing')
  {
    StateAtNext(lines, i);
    assert lines[i..][1..] == lines[i + 1..];
  }

  /** `removing(table:from:)`. */
  function WithoutTable(text: string, table: string): string {
    Join(Kept(Split(text), table, INITIAL, false))
  }

  method RemoveTable(table: string, text: string) returns (r: string)
    ensures r == WithoutTable(text, table)
  {
    var removing := false;
    var lines := Split(text);
    var starts := StatementStarts(lines);
    var kept: seq<string> := [];
    for index := 0 to |lines|
      invariant Kept(lines, table, INITIAL, false) ==
                kept + Kept(lines[index..], table, StateAt(lines, index), removing)
    {
      var line := lines[index];
      KeptNext(lines, index, table, removing, kept);
      if index in starts && TableName(line).Some? {
        removing := InFamily(TableName(line).value, table);
      }
      if index in starts && IsRemark(line) {
        kept := kept + [line];
      } else if index == |lines| - 1 && line == "" {
        kept := kept + [line];
      } else if !removing {
        kept := kept + [line];
      }
    }
    assert lines[|lines|..] == [] && kept + [] == kept;
    return Join(kept);
  }

  // ----- removing twice -----

  lemma RemarkScans(line: string)
    requires IsRemark(line)
    ensures Scan(line, INITIAL) == INITIAL && View(line) == Skipped && TableName(line) == None
  {
    var lead := TrimStartParts(line);
    var tail := TrimEndParts(TrimStart(line));
    BlankIsPlain(lead);
    ScanPlain(lead, TrimStart(line), INITIAL);
    var t := Trim(line);
    if t == "" {
      BlankIsPlain(tail);
      ScanPlain(tail, "", INITIAL);
      assert tail + "" == tail;
    } else {
      assert TrimStart(line)[0] == t[0];
    }
  }

  /** What was kept is kept again: with the removed stretches gone, the scanner is in the
      same state on every line that was outside them, and in a clean one on every remark
      that was inside. */
  lemma {:induction false} KeptAgain(lines: seq<string>, table: string, st: ScanState, removing: bool, st': ScanState)
    requires Sane(st) && (if removing then st' == INITIAL else st' == st)
    ensures Kept(Kept(lines, table, st, removing), table, st', false) == Kept(lines, table, st, removing)
  {
    if lines != [] {
      var line, next := lines[0], Scan(lines[0], st);
      var removing' := RemovingAt(line, st, table, removing);
      ScanSane(line, st);
      if st.Clean() && IsRemark(line) {
        RemarkScans(line);
        KeptAgain(lines[1..], table, next, removing', INITIAL);
        assert ([line] + Kept(lines[1..], table, next, removing'))[1..] == Kept(lines[1..], table, next, removing');
      } else if |lines| == 1 && line == "" {
        assert Kept(lines, table, st, removing) == [""];
        assert [""][1..] == [];
      } else if removing' {
        KeptAgain(lines[1..], table, next, true, INITIAL);
      } else {
        KeptAgain(lines[1..], table, next, false, next);
        assert ([line] + Kept(lines[1..], table, next, false))[1..] == Kept(lines[1..], table, next, false);
      }
    }
  }

  lemma {:induction false} KeptOneLine(lines: seq<string>, table: string, st: ScanState, removing: bool)
    requires AllOneLine(lines)
    ensures AllOneLine(Kept(lines, table, st, removing))
  {
    if lines != [] {
      KeptOneLine(lines[1..], table, Scan(lines[0], st), RemovingAt(lines[0], st, table, removing));
    }
  }

  /** The lines of the text without a table are the lines kept, but an empty text has one. */
  lemma WithoutTableSplit(text: string, table: string)
    ensures var kept := Kept(Split(text), table, INITIAL, false);
            Split(WithoutTable(text, table)) == if kept == [] then [""] else kept
  {
    SplitIsOneLine(text);
    KeptOneLine(Split(text), table, INITIAL, false);
    var kept := Kept(Split(text), table, INITIAL, false);
    if kept != [] {
      SplitJoin(kept);
    }
  }

  /** Removing a table again changes nothing, whatever the text. */
  lemma RemoveTableTwice(text: string, table: string)
    ensures WithoutTable(WithoutTable(text, table), table) == WithoutTable(text, table)
  {
    var kept := Kept(Split(text), table, INITIAL, false);
    WithoutTableSplit(text, table);
    if kept == [] {
      assert [""][1..] == [];
      assert Kept([""], table, INITIAL, false) == [""];
    } else {
      KeptAgain(Split(text), table, INITIAL, false, INITIAL);
    }
  }

  // ----- what is read afterwards -----

  /** The reader's table: the same in both documents, or inside a stretch that was removed. */
  predicate SamePlace(removing: bool, current: string, current': string, table: string) {
    && !InFamily(current', table)
    && (if removing then InFamily(current, table) else current == current')
  }

  /** The reader in the kept document, step by step with the reader in the whole one. */
  lemma {:induction false} KeptReads(lines: seq<string>, keys: set<string>, table: string, st: ScanState,
                                     removing: bool,
                                     current: string, current': string, table': string, key': string)
    requires TidyFrom(lines, keys, st) && SamePlace(removing, current, current', table)
    ensures var after := Walk(Views(Kept(lines, table, st, removing)), table', key', current');
            if InFamily(table', table) then after.Miss?
            else Answer(after) == Answer(Walk(Views(lines), table', key', current))
  {
    if lines != [] {
      var line, next := lines[0], Scan(lines[0], st);
      var removing' := RemovingAt(line, st, table, removing);
      var view, kept := View(line), Kept(lines[1..], table, next, removing');
      ViewHeader(line);
      assert lines == [line] + lines[1..];
      WalkFirst(line, lines[1..], table', key', current);
      WalkFirst(line, kept, table', key', current');
      var now := TableAfter(view, current);
      var now' := if view.Header? && !removing' then view.name else current';
      if st.Clean() && IsRemark(line) {
        RemarkScans(line);
      }
      KeptReads(lines[1..], keys, table, next, removing', now, now', table', key');
    }
  }

  /** After removing a table nothing in it or in its sub-tables is read, and everything else
      is read as before. */
  lemma RemovedTableReads(text: string, keys: set<string>, table: string, table': string, key': string)
    requires Tidy(text, keys) && table != ""
    ensures Read(WithoutTable(text, table), table', key') ==
            if InFamily(table', table) then Ok(None) else Read(text, table', key')
  {
    var kept := Kept(Split(text), table, INITIAL, false);
    WithoutTableSplit(text, table);
    KeptReads(Split(text), keys, table, INITIAL, false, "", "", table', key');
    if kept == [] {
      WalkBody([""], table', key');
      assert Body([""]) == [] && Views([]) == [];
    }
  }

  lemma {:induction false} KeptTidy(lines: seq<string>, keys: set<string>, table: string, st: ScanState,
                                    removing: bool, st': ScanState)
    requires TidyFrom(lines, keys, st) && BareKeys(keys)
    requires Sane(st) && (if removing then st' == INITIAL else st' == st)
    ensures TidyFrom(Kept(lines, table, st, removing), keys, st')
    ensures After(lines, st).Clean() ==> After(Kept(lines, table, st, removing), st').Clean()
  {
    if lines != [] {
      var line, next := lines[0], Scan(lines[0], st);
      var removing' := RemovingAt(line, st, table, removing);
      var kept := Kept(lines[1..], table, next, removing');
      ScanSane(line, st);
      assert ([line] + kept)[1..] == kept;
      if st.Clean() && IsRemark(line) {
        RemarkScans(line);
        KeptTidy(lines[1..], keys, table, next, removing', INITIAL);
      } else if |lines| == 1 && line == "" {
        assert kept == [] && !AssignsOne("", keys) && TableName("") == None;
        assert View("") == Skipped;
      } else if removing' {
        KeptTidy(lines[1..], keys, table, next, true, INITIAL);
      } else {
        KeptTidy(lines[1..], keys, table, next, false, next);
      }
    }
  }

  lemma RemovedTableTidy(text: string, keys: set<string>, table: string)
    requires Tidy(text, keys) && BareKeys(keys)
    ensures Tidy(WithoutTable(text, table), keys)
  {
    WithoutTableSplit(text, table);
    KeptTidy(Split(text), keys, table, INITIAL, false, INITIAL);
    var kept := Kept(Split(text), table, INITIAL, false);
    if kept == [] {
      assert [""][1..] == [];
      assert !AssignsOne("", keys) && TableName("") == None;
      assert TidyFrom([""], keys, INITIAL) && After([""], INITIAL).Clean();
    }
  }

  // ----- one key -----

  /** The table the editor is in after a line. */
  function EditorTable(line: string, st: ScanState, current: string): string {
    if st.Clean() && TableName(line).Some? then TableName(line).value else current
  }

  predicate IsTarget(line: string, st: ScanState, current: string, table: string, key: string) {
    st.Clean() && TableName(line).None? && current == table && Assigns(line, key)
  }

  /** What is left of an assignment: its comment. */
  function Remains(line: string): seq<string>
    requires '=' in line
  {
    match CommentStart(Suffix(line))
    case Some(i) => [Suffix(line)[i..]]
    case None => []
  }

  function Unassigned(lines: seq<string>, table: string, key: string, st: ScanState, current: string): seq<string> {
    if lines == [] then []
    else
      Left(lines[0], table, key, st, current) +
      Unassigned(lines[1..], table, key, Scan(lines[0], st), EditorTable(lines[0], st, current))
  }

  /** What stays in place of a line. */
  function Left(line: string, table: string, key: string, st: ScanState, current: string): seq<string> {
    if IsTarget(line, st, current, table, key) then Remains(line) else [line]
  }

  /** `removing(key:inTable:from:)`. */
  function WithoutKey(text: string, table: string, key: string): string {
    Join(Unassigned(Split(text), table, key, INITIAL, ""))
  }

  method RemoveKey(key: string, table: string, text: string) returns (r: string)
    ensures r == WithoutKey(text, table, key)
  {
    var lines := Split(text);
    var starts := StatementStarts(lines);
    var currentTable := "";
    var kept: seq<string> := [];
    for index := 0 to |lines|
      invariant Unassigned(lines, table, key, INITIAL, "") ==
                kept + Unassigned(lines[index..], table, key, StateAt(lines, index), currentTable)
    {
      var line := lines[index];
      UnassignedNext(lines, index, table, key, currentTable, kept);
      if index !in starts {
        kept := kept + [line];
      } else if TableName(line).Some? {
        currentTable := TableName(line).value;
        kept := kept + [line];
      } else if currentTable == table && Assigns(line, key) {
        var comment := FindComment(Suffix(line));
        kept := kept + if comment.Some? then [Suffix(line)[comment.value..]] else [];
      } else {
        kept := kept + [line];
      }
    }
    assert lines[|lines|..] == [] && kept + [] == kept;
    return Join(kept);
  }

  lemma UnassignedNext(lines: seq<string>, i: nat, table: string, key: string, current: string, kept: seq<string>)
    requires i < |lines|
    ensures var st := StateAt(lines, i);
            kept + Unassigned(lines[i..], table, key, st, current) ==
            (kept + Left(lines[i], table, key, st, current)) +
            Unassigned(lines[i + 1..], table, key, StateAt(lines, i + 1), EditorTable(lines[i], st, current))
  {
    StateAtNext(lines, i);
    assert lines[i..][1..] == lines[i + 1..];
  }

  lemma RemainsRemark(line: string)
    requires '=' in line
    ensures Remains(line) == [] || (|Remains(line)| == 1 && IsRemark(Remains(line)[0]))
  {
    match CommentStart(Suffix(line))
    case None =>
    case Some(i) =>
      var comment := Suffix(line)[i..];
      var tail := TrimEndParts(comment);
      assert TrimStart(comment) == comment;
      if Trim(comment) != "" {
        assert Trim(comment)[0] == comment[0];
      }
  }

  lemma {:induction false} UnassignedReads(lines: seq<string>, keys: set<string>, table: string, key: string,
                                           st: ScanState,
                                           current: string, table': string, key': string)
    requires TidyFrom(lines, keys, st) && LegalKey(key) && key in keys
    ensures var after := Walk(Views(Unassigned(lines, table, key, st, current)), table', key', current);
            if table' == table && key' == key then after.Miss?
            else after == Walk(Views(lines), table', key', current)
  {
    if lines != [] {
      var line, next := lines[0], Scan(lines[0], st);
      var current' := EditorTable(line, st, current);
      var view := View(line);
      var rest := Unassigned(lines[1..], table, key, next, current');
      ViewHeader(line);
      ViewAssigns(line, key);
      UnassignedReads(lines[1..], keys, table, key, next, current', table', key');
      assert lines == [line] + lines[1..];
      WalkFirst(line, lines[1..], table', key', current);
      if IsTarget(line, st, current, table, key) {
        RemainsRemark(line);
        WalkRemains(Remains(line), rest, table', key', current);
      } else {
        WalkFirst(line, rest, table', key', current);
      }
    }
  }

  lemma WalkFirst(line: string, rest: seq<string>, table: string, key: string, current: string)
    ensures Walk(Views([line] + rest), table, key, current) ==
            Then(StepOf(View(line), table, key, current), Views(rest), table, key)
  {
    assert Views([line] + rest) == [View(line)] + Views(rest);
    assert ([View(line)] + Views(rest))[1..] == Views(rest);
  }

  function StepOf(view: LineView, table: string, key: string, current: string): Walked {
    if current == table && view.Assignment? && view.key == key then Hit(view.raw)
    else Miss(TableAfter(view, current))
  }

  lemma WalkRemains(left: seq<string>, rest: seq<string>, table: string, key: string, current: string)
    requires left == [] || (|left| == 1 && IsRemark(left[0]))
    ensures Walk(Views(left + rest), table, key, current) == Walk(Views(rest), table, key, current)
  {
    if left == [] {
      assert left + rest == rest;
    } else {
      RemarkScans(left[0]);
      assert left + rest == [left[0]] + rest;
      WalkFirst(left[0], rest, table, key, current);
    }
  }

  lemma {:induction false} UnassignedOneLine(lines: seq<string>, table: string, key: string, st: ScanState,
                                             current: string)
    requires AllOneLine(lines)
    ensures AllOneLine(Unassigned(lines, table, key, st, current))
  {
    if lines != [] {
      var line := lines[0];
      UnassignedOneLine(lines[1..], table, key, Scan(line, st), EditorTable(line, st, current));
      if IsTarget(line, st, current, table, key) && Remains(line) != [] {
        assert forall c :: c in Remains(line)[0] ==> c in line;
      }
    }
  }

  lemma WithoutKeySplit(text: string, table: string, key: string)
    ensures var kept := Unassigned(Split(text), table, key, INITIAL, "");
            Split(WithoutKey(text, table, key)) == if kept == [] then [""] else kept
  {
    SplitIsOneLine(text);
    UnassignedOneLine(Split(text), table, key, INITIAL, "");
    var kept := Unassigned(Split(text), table, key, INITIAL, "");
    if kept != [] {
      SplitJoin(kept);
    }
  }

  /** After removing a key it is not read, and every other lookup answers as before. */
  lemma RemovedKeyReads(text: string, keys: set<string>, table: string, key: string, table': string, key': string)
    requires Tidy(text, keys) && LegalKey(key) && key in keys
    ensures Read(WithoutKey(text, table, key), table', key') ==
            if table' == table && key' == key then Ok(None) else Read(text, table', key')
  {
    var kept := Unassigned(Split(text), table, key, INITIAL, "");
    WithoutKeySplit(text, table, key);
    UnassignedReads(Split(text), keys, table, key, INITIAL, "", table', key');
    if kept == [] {
      WalkBody([""], table', key');
      assert Body([""]) == [] && Views([]) == [];
    }
  }

  /** Each assignment the removal takes out ends on its own line. */
  predicate TargetsClose(lines: seq<string>, table: string, key: string, st: ScanState, current: string) {
    lines == [] ||
    (&& (IsTarget(lines[0], st, current, table, key) ==> Scan(lines[0], st).Clean())
     && TargetsClose(lines[1..], table, key, Scan(lines[0], st), EditorTable(lines[0], st, current)))
  }

  lemma {:induction false} UnassignedAgain(lines: seq<string>, table: string, key: string, st: ScanState,
                                           current: string)
    requires Sane(st) && LegalKey(key) && TargetsClose(lines, table, key, st, current)
    ensures var kept := Unassigned(lines, table, key, st, current);
            Unassigned(kept, table, key, st, current) == kept
  {
    if lines != [] {
      var line, next := lines[0], Scan(lines[0], st);
      var rest := Unassigned(lines[1..], table, key, next, EditorTable(line, st, current));
      ScanSane(line, st);
      UnassignedAgain(lines[1..], table, key, next, EditorTable(line, st, current));
      if IsTarget(line, st, current, table, key) {
        RemainsRemark(line);
        if Remains(line) == [] {
          assert Remains(line) + rest == rest;
        } else {
          var remark := Remains(line)[0];
          assert Remains(line) + rest == [remark] + rest && ([remark] + rest)[1..] == rest;
          RemarkScans(remark);
          ViewAssigns(remark, key);
        }
      } else {
        assert ([line] + rest)[1..] == rest;
      }
    }
  }

  /** Removing a key again changes nothing, if each value taken out ended on its own line. */
  lemma RemoveKeyTwice(text: string, table: string, key: string)
    requires LegalKey(key) && TargetsClose(Split(text), table, key, INITIAL, "")
    ensures WithoutKey(WithoutKey(text, table, key), table, key) == WithoutKey(text, table, key)
  {
    var kept := Unassigned(Split(text), table, key, INITIAL, "");
    WithoutKeySplit(text, table, key);
    if kept == [] {
      assert [""][1..] == [];
      assert Unassigned([""], table, key, INITIAL, "") == [""] + [];
    } else {
      UnassignedAgain(Split(text), table, key, INITIAL, "");
    }
  }
}
