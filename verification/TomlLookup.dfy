/** Which line of a document a lookup answers with, said by positions: the first that assigns the
    key under the last header naming the table. */
module TomlLookup {
  import opened Basics
  import opened Text
  import opened TomlString
  import opened TomlLines
  import opened MinimalToml
  import opened TomlSetting
  import opened TomlReading

  /** `t` is `s` without the blanks at both ends. */
  ghost predicate IsTrimmed(s: string, t: string) {
    && (t == "" || (!IsBlank(t[0]) && !IsBlank(t[|t| - 1])))
    && exists lead, tail :: AllBlank(lead) && AllBlank(tail) && s == lead + t + tail
  }

  lemma TrimsExactly(s: string, t: string)
    ensures Trim(s) == t <==> IsTrimmed(s, t)
  {
    var lead, tail := BlanksAround(s);
    if IsTrimmed(s, t) {
      var before, after :| AllBlank(before) && AllBlank(after) && s == before + t + after;
      TrimAround(before, t, after);
      TrimTight(t);
    }
  }

  predicate InBrackets(line: string, lead: string, inner: string, rest: string) {
    AllBlank(lead) && line == lead + ("[" + (inner + ("]" + rest))) && ']' !in inner
  }

  /** Blanks, and a name in brackets; what follows them does not matter. */
  ghost predicate IsHeader(line: string, name: string) {
    exists lead, inner, rest :: InBrackets(line, lead, inner, rest) && IsTrimmed(inner, name)
  }

  /** A key before the first `=`, which neither a comment nor a bracket leads. */
  ghost predicate IsAssignment(line: string, key: string, raw: string) {
    && (key == "" || (key[0] != '#' && key[0] != '['))
    && exists pre, post :: line == pre + ("=" + post) && '=' !in pre && IsTrimmed(pre, key) && IsTrimmed(post, raw)
  }

  lemma HeaderSeen(line: string, lead: string, inner: string, rest: string)
    requires InBrackets(line, lead, inner, rest)
    ensures View(line) == Header(Trim(inner))
  {
    var front := "[" + (inner + ("]" + rest));
    TrimStartSkips(lead, front);
    assert TrimStart(front) == front;
    var kept := "[" + inner + "]";
    assert front == kept + rest;
    TrimEndKeepsHead(kept, rest);
    var x :| TrimEnd(kept + rest) == kept + x;
    var t := Trim(line);
    assert t == kept + x && t[0] == '[' && t[1 + |inner|] == ']';
    assert t == ("[" + inner) + ("]" + x);
    assert ']' !in "[" + inner;
    IndexOfAfter("[" + inner, "]" + x, ']');
    assert t[1..1 + |inner|] == inner;
  }

  lemma BracketParts(t: string, inner: string)
    requires t != "" && t[0] == '[' && ']' in t && inner == t[1..IndexOf(t, ']')]
    ensures ']' !in inner && t == "[" + (inner + ("]" + t[IndexOf(t, ']') + 1..]))
  {
    assert inner == t[..IndexOf(t, ']')][1..];
  }

  lemma BracketRegroup(lead: string, inner: string, after: string, tail: string)
    ensures lead + ("[" + (inner + ("]" + after))) + tail == lead + ("[" + (inner + ("]" + (after + tail))))
  {
  }

  lemma HeaderFront(line: string, t: string)
    requires View(line).Header? && t == Trim(line)
    ensures t != "" && t[0] == '[' && ']' in t && View(line).name == Trim(t[1..IndexOf(t, ']')])
  {
  }

  lemma BracketsInside(line: string, lead: string, t: string, tail: string, inner: string)
    requires t != "" && t[0] == '[' && ']' in t && inner == t[1..IndexOf(t, ']')]
    requires AllBlank(lead) && line == lead + t + tail
    ensures InBrackets(line, lead, inner, t[IndexOf(t, ']') + 1..] + tail)
  {
    BracketParts(t, inner);
    BracketRegroup(lead, inner, t[IndexOf(t, ']') + 1..], tail);
  }

  lemma InBracketsIsHeader(line: string, lead: string, inner: string, rest: string)
    requires InBrackets(line, lead, inner, rest)
    ensures IsHeader(line, Trim(inner))
  {
    TrimsExactly(inner, Trim(inner));
  }

  lemma HeaderParts(line: string)
    requires View(line).Header?
    ensures IsHeader(line, View(line).name)
  {
    var t := Trim(line);
    HeaderFront(line, t);
    var lead, tail := BlanksAround(line);
    var inner, rest := t[1..IndexOf(t, ']')], t[IndexOf(t, ']') + 1..] + tail;
    BracketsInside(line, lead, t, tail, inner);
    InBracketsIsHeader(line, lead, inner, rest);
  }

  /** The reader sees a header exactly in a header line, with the name between its brackets. */
  lemma HeaderExactly(line: string, name: string)
    ensures View(line) == Header(name) <==> IsHeader(line, name)
  {
    if View(line) == Header(name) {
      HeaderParts(line);
    }
    if IsHeader(line, name) {
      var lead, inner, rest :| InBrackets(line, lead, inner, rest) && IsTrimmed(inner, name);
      HeaderSeen(line, lead, inner, rest);
      TrimsExactly(inner, name);
    }
  }

  lemma KeyLeads(pre: string)
    ensures var front := TrimStart(pre);
            (front == "" || (front[0] != '#' && front[0] != '[')) <==>
            (Trim(pre) == "" || (Trim(pre)[0] != '#' && Trim(pre)[0] != '['))
  {
    var front := TrimStart(pre);
    var lead := TrimStartParts(pre);
    var tail := TrimEndParts(front);
  }

  lemma AssignmentSeen(line: string, pre: string, post: string)
    requires line == pre + ("=" + post) && '=' !in pre
    requires Trim(pre) == "" || (Trim(pre)[0] != '#' && Trim(pre)[0] != '[')
    ensures View(line) == Assignment(Trim(pre), Trim(post))
  {
    KeyLeads(pre);
    ViewAtEqual(pre, post);
  }

  lemma AssignmentParts(line: string) returns (pre: string, post: string)
    requires View(line).Assignment?
    ensures line == pre + ("=" + post) && '=' !in pre
    ensures Trim(pre) == "" || (Trim(pre)[0] != '#' && Trim(pre)[0] != '[')
  {
    AssignmentFront(line);
    AssignmentHasEqual(line);
    CutLine(line);
    pre, post := line[..IndexOf(line, '=')], Suffix(line);
    TrimAtEqual(pre, post);
    FrontDecides(TrimStart(pre), TrimEnd(post), Trim(line));
    KeyLeads(pre);
  }

  /** The reader sees an assignment exactly in an assignment line, with its key and what stands
      after its first `=`. */
  lemma AssignmentExactly(line: string, key: string, raw: string)
    ensures View(line) == Assignment(key, raw) <==> IsAssignment(line, key, raw)
  {
    if View(line) == Assignment(key, raw) {
      var pre, post := AssignmentParts(line);
      AssignmentSeen(line, pre, post);
      TrimsExactly(pre, key);
      TrimsExactly(post, raw);
    }
    if IsAssignment(line, key, raw) {
      var pre, post :| line == pre + ("=" + post) && '=' !in pre && IsTrimmed(pre, key) && IsTrimmed(post, raw);
      TrimsExactly(pre, key);
      TrimsExactly(post, raw);
      AssignmentSeen(line, pre, post);
    }
  }

  // ----- the line that answers -----

  predicate NoHeaders(views: seq<LineView>, from: int, to: int) {
    forall i :: 0 <= from <= i < to <= |views| ==> !views[i].Header?
  }

  ghost predicate LastHeaderIs(views: seq<LineView>, i: int, h: int, table: string) {
    0 <= h < i <= |views| && views[h] == Header(table) && NoHeaders(views, h + 1, i)
  }

  /** The last header above line `i` names `table`, or there is none and `table` has no name. */
  ghost predicate StandsIn(views: seq<LineView>, i: int, table: string) {
    (table == "" && NoHeaders(views, 0, i)) || exists h :: LastHeaderIs(views, i, h, table)
  }

  ghost predicate Answers(views: seq<LineView>, i: int, table: string, key: string, raw: string) {
    0 <= i < |views| && StandsIn(views, i, table) && views[i] == Assignment(key, raw)
  }

  ghost predicate NoneAnswers(views: seq<LineView>, to: int, table: string, key: string) {
    forall i, raw :: i < to ==> !Answers(views, i, table, key, raw)
  }

  ghost predicate FirstAnswers(views: seq<LineView>, i: int, table: string, key: string, raw: string) {
    Answers(views, i, table, key, raw) && NoneAnswers(views, i, table, key)
  }

  lemma StandsNext(views: seq<LineView>, i: nat, table: string)
    requires i < |views| && StandsIn(views, i, table)
    ensures StandsIn(views, i + 1, TableAfter(views[i], table))
  {
    if views[i].Header? {
      assert LastHeaderIs(views, i + 1, i, views[i].name);
    } else if exists h :: LastHeaderIs(views, i, h, table) {
      var h :| LastHeaderIs(views, i, h, table);
      assert LastHeaderIs(views, i + 1, h, table);
    }
  }

  lemma HeaderRulesOut(views: seq<LineView>, i: int, h: int, h': int, table: string, table': string)
    requires LastHeaderIs(views, i, h, table)
    ensures !NoHeaders(views, 0, i)
    ensures LastHeaderIs(views, i, h', table') ==> table == table'
  {
    assert views[h].Header?;
  }

  /** A line stands in one table only. */
  lemma StandsOnce(views: seq<LineView>, i: int, table: string, table': string)
    requires StandsIn(views, i, table) && StandsIn(views, i, table')
    ensures table == table'
  {
    forall h, h', a, b | LastHeaderIs(views, i, h, a)
      ensures !NoHeaders(views, 0, i) && (LastHeaderIs(views, i, h', b) ==> a == b)
    {
      HeaderRulesOut(views, i, h, h', a, b);
    }
  }

  /** How the walk stands after the first `n` lines. */
  ghost predicate WalkedTo(views: seq<LineView>, n: nat, table: string, key: string, walked: Walked)
    requires n <= |views|
  {
    match walked
    case Hit(raw) => exists i :: i < n && FirstAnswers(views, i, table, key, raw)
    case Miss(current) => StandsIn(views, n, current) && NoneAnswers(views, n, table, key)
  }

  lemma OneLineMore(views: seq<LineView>, n: nat, table: string, key: string, current: string)
    requires n < |views| && StandsIn(views, n, current) && NoneAnswers(views, n, table, key)
    ensures current == table && views[n].Assignment? && views[n].key == key ==>
              FirstAnswers(views, n, table, key, views[n].raw)
    ensures !(current == table && views[n].Assignment? && views[n].key == key) ==>
              NoneAnswers(views, n + 1, table, key)
  {
    if StandsIn(views, n, table) {
      StandsOnce(views, n, current, table);
    }
  }

  lemma {:induction false} WalkStands(views: seq<LineView>, n: nat, table: string, key: string)
    requires n <= |views|
    ensures WalkedTo(views, n, table, key, Walk(views[..n], table, key, ""))
  {
    if n == 0 {
      assert NoHeaders(views, 0, 0);
    } else {
      WalkStands(views, n - 1, table, key);
      assert views[..n] == views[..n - 1] + [views[n - 1]];
      WalkConcat(views[..n - 1], [views[n - 1]], table, key, "");
      var walked := Walk(views[..n - 1], table, key, "");
      if walked.Miss? {
        WalkOne(views[n - 1], table, key, walked.table);
        OneLineMore(views, n - 1, table, key, walked.table);
        StandsNext(views, n - 1, walked.table);
      }
    }
  }

  lemma FirstIsOne(views: seq<LineView>, i: int, j: int, table: string, key: string, raw: string, raw': string)
    requires FirstAnswers(views, i, table, key, raw) && FirstAnswers(views, j, table, key, raw')
    ensures raw == raw'
  {
    assert Answers(views, i, table, key, raw) && Answers(views, j, table, key, raw');
  }

  ghost predicate Finds(views: seq<LineView>, table: string, key: string, raw: string) {
    exists i :: FirstAnswers(views, i, table, key, raw)
  }

  /** The walk finds the value of the first line that answers, and nothing where none does. */
  lemma HitsExactly(views: seq<LineView>, table: string, key: string, raw: string)
    ensures Walk(views, table, key, "") == Hit(raw) <==> Finds(views, table, key, raw)
    ensures Walk(views, table, key, "").Miss? <==> NoneAnswers(views, |views|, table, key)
  {
    WalkStands(views, |views|, table, key);
    assert views[..|views|] == views;
    var walked := Walk(views, table, key, "");
    forall i, j, a, b | FirstAnswers(views, i, table, key, a) && FirstAnswers(views, j, table, key, b)
      ensures a == b
    {
      FirstIsOne(views, i, j, table, key, a, b);
    }
  }

  ghost predicate FindsIn(text: string, table: string, key: string, raw: string) {
    Finds(Views(Split(text)), table, key, raw)
  }

  /** A lookup reads the string that the first line to answer holds... */
  lemma ReadsExactly(text: string, table: string, key: string, t: string)
    ensures Read(text, table, key) == Ok(Some(t)) <==>
            exists raw :: FindsIn(text, table, key, raw) && (IsLiteral(raw, t) || IsBasic(raw, t))
  {
    var views := Views(Split(text));
    forall raw
      ensures Walk(views, table, key, "") == Hit(raw) <==> FindsIn(text, table, key, raw)
      ensures Unquote(raw) == Ok(t) <==> IsLiteral(raw, t) || IsBasic(raw, t)
    {
      HitsExactly(views, table, key, raw);
      StringReadsExactly(raw, t);
    }
  }

  /** ...refuses exactly what is refused there... */
  lemma RefusesExactly(text: string, table: string, key: string, e: Failure)
    ensures Read(text, table, key) == Err(e) <==>
            exists raw :: FindsIn(text, table, key, raw) && Refuses(raw, e)
  {
    var views := Views(Split(text));
    forall raw
      ensures Walk(views, table, key, "") == Hit(raw) <==> FindsIn(text, table, key, raw)
      ensures Unquote(raw) == Err(e) <==> Refuses(raw, e)
    {
      HitsExactly(views, table, key, raw);
      RefusedExactly(raw, e);
    }
  }

  /** ...and finds nothing exactly where no line answers. */
  lemma AbsentExactly(text: string, table: string, key: string)
    ensures Read(text, table, key) == Ok(None) <==>
            NoneAnswers(Views(Split(text)), |Views(Split(text))|, table, key)
  {
    HitsExactly(Views(Split(text)), table, key, "");
  }

  lemma LiteralLine(key: string, s: string, raw: string)
    requires LegalKey(key) && raw == "'" + s + "'"
    ensures View(key + (" = " + raw)) == Assignment(key, raw)
  {
    var pre, post := key + " ", " " + raw;
    assert key + (" = " + raw) == pre + ("=" + post);
    assert "" + key + " " == pre && " " + raw + "" == post;
    TrimAround("", key, " ");
    TrimAround(" ", raw, "");
    TrimTight(raw);
    AssignmentSeen(key + (" = " + raw), pre, post);
  }

  /** So a literal string is read as it is written. */
  lemma LiteralIsRead(lines: seq<string>, i: nat, table: string, key: string, s: string)
    requires AllOneLine(lines) && i < |lines| && LegalKey(key) && '\'' !in s
    requires StandsIn(Views(lines), i, table) && NoneAnswers(Views(lines), i, table, key)
    requires lines[i] == key + (" = " + ("'" + s + "'"))
    ensures Read(Join(lines), table, key) == Ok(Some(s))
  {
    SplitJoin(lines);
    var raw := "'" + s + "'";
    LiteralLine(key, s, raw);
    assert FirstAnswers(Views(lines), i, table, key, raw);
    ReadsExactly(Join(lines), table, key, s);
    assert FindsIn(Join(lines), table, key, raw) && IsLiteral(raw, s);
  }
}
