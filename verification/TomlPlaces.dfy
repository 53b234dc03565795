/** Where the editor writes, what it leaves on the line, and which lines its removals keep: said by
    position in the document. */
module TomlPlaces {
  import opened Basics
  import opened Text
  import opened TomlString
  import opened TomlScan
  import opened TomlLines
  import opened TomlTokens
  import opened MinimalToml
  import opened TomlRemoving

  // ----- where a setting goes -----

  predicate NoHead(marks: seq<Mark>, from: int, to: int) {
    forall i :: 0 <= from <= i < to <= |marks| ==> !marks[i].HeaderMark?
  }

  predicate NoKey(marks: seq<Mark>, from: int, to: int) {
    forall i :: 0 <= from <= i < to <= |marks| ==> marks[i] != KeyMark
  }

  predicate NeverHeads(marks: seq<Mark>, to: int, table: string) {
    forall i :: 0 <= i < to <= |marks| ==> marks[i] != HeaderMark(table)
  }

  /** The first section of the table begins at line `from`: under its first header, or at the top of
      the document for the table without a name. */
  predicate SectionAt(marks: seq<Mark>, table: string, from: int) {
    if table == "" then from == 0
    else 0 < from <= |marks| && marks[from - 1] == HeaderMark(table) && NeverHeads(marks, from - 1, table)
  }

  predicate InSection(marks: seq<Mark>, from: int, i: int) {
    0 <= from <= i < |marks| && NoHead(marks, from, i + 1)
  }

  /** The section from `from` assigns the key nowhere. */
  ghost predicate KeyMissing(marks: seq<Mark>, from: int) {
    forall i :: InSection(marks, from, i) ==> marks[i] != KeyMark
  }

  predicate FirstKeyAt(marks: seq<Mark>, from: int, i: int) {
    InSection(marks, from, i) && marks[i] == KeyMark && NoKey(marks, from, i)
  }

  /** Over the first assignment of the key in the first section of the table; else under that
      section's header; else in a new table. */
  ghost predicate IsEdit(marks: seq<Mark>, table: string, edit: Edit) {
    match edit
    case Replace(i) => exists from :: SectionAt(marks, table, from) && FirstKeyAt(marks, from, i)
    case Insert(n) => table != "" && SectionAt(marks, table, n) && KeyMissing(marks, n)
    case Append => if table == "" then KeyMissing(marks, 0) else NeverHeads(marks, |marks|, table)
  }

  /** How the search stands before line `at`: in the first section of the table, or before it. */
  predicate Searching(marks: seq<Mark>, table: string, at: nat, current: string, insertion: Option<nat>, from: int) {
    && at <= |marks|
    && if current == table then
         && SectionAt(marks, table, from) && 0 <= from <= at && NoHead(marks, from, at) && NoKey(marks, from, at)
         && insertion == (if from == 0 then None else Some(from))
       else table != "" && insertion == None && NeverHeads(marks, at, table)
  }

  lemma SearchEnds(marks: seq<Mark>, table: string, at: nat, current: string, insertion: Option<nat>, from: int)
    requires Searching(marks, table, at, current, insertion, from)
    requires at == |marks| || (marks[at].HeaderMark? && current == table)
    ensures IsEdit(marks, table, Finish(insertion))
  {
    if current == table {
      forall i ensures i >= at ==> !InSection(marks, from, i) {
      }
    }
  }

  lemma {:induction false} FindIsEdit(
      marks: seq<Mark>, table: string, at: nat, current: string, insertion: Option<nat>, from: int)
    requires Searching(marks, table, at, current, insertion, from)
    ensures IsEdit(marks, table, Find(marks[at..], table, current, at, insertion))
    decreases |marks| - at
  {
    if at == |marks| || (marks[at].HeaderMark? && current == table) {
      SearchEnds(marks, table, at, current, insertion, from);
    } else {
      assert marks[at..][1..] == marks[at + 1..];
      match marks[at] {
        case HeaderMark(name) =>
          FindIsEdit(marks, table, at + 1, name, if name == table then Some(at + 1) else insertion, at + 1);
        case KeyMark =>
          if current == table {
            assert FirstKeyAt(marks, from, at);
          } else {
            FindIsEdit(marks, table, at + 1, current, insertion, from);
          }
        case _ => FindIsEdit(marks, table, at + 1, current, insertion, from);
      }
    }
  }

  lemma SectionHeads(marks: seq<Mark>, table: string, from: int, to: int)
    ensures table != "" && SectionAt(marks, table, from) && from <= to <= |marks| ==> !NeverHeads(marks, to, table)
  {
  }

  lemma SectionOnce(marks: seq<Mark>, table: string, from: int, from': int)
    requires SectionAt(marks, table, from) && SectionAt(marks, table, from')
    ensures from == from'
  {
    SectionHeads(marks, table, from, from' - 1);
    SectionHeads(marks, table, from', from - 1);
  }

  lemma FirstKeyOnce(marks: seq<Mark>, from: int, i: int, j: int)
    requires FirstKeyAt(marks, from, i)
    ensures FirstKeyAt(marks, from, j) ==> i == j
    ensures !KeyMissing(marks, from)
  {
  }

  lemma EditOnce(marks: seq<Mark>, table: string, e: Edit, e': Edit)
    requires IsEdit(marks, table, e) && IsEdit(marks, table, e')
    ensures e == e'
  {
    forall from, from' | SectionAt(marks, table, from) && SectionAt(marks, table, from') ensures from == from' {
      SectionOnce(marks, table, from, from');
    }
    forall from, i, j | FirstKeyAt(marks, from, i)
      ensures (FirstKeyAt(marks, from, j) ==> i == j) && !KeyMissing(marks, from)
    {
      FirstKeyOnce(marks, from, i, j);
    }
    if table != "" && (e.Append? || e'.Append?) {
      forall from ensures !SectionAt(marks, table, from) {
      }
    }
  }

  /** The edit is the one place its search is after. */
  lemma EditExactly(lines: seq<string>, table: string, key: string, edit: Edit)
    ensures EditOf(lines, table, key) == edit <==> IsEdit(Marks(lines, key, INITIAL), table, edit)
  {
    var marks := Marks(lines, key, INITIAL);
    assert marks[0..] == marks;
    FindIsEdit(marks, table, 0, "", None, 0);
    if IsEdit(marks, table, edit) {
      EditOnce(marks, table, edit, EditOf(lines, table, key));
    }
  }

  // ----- what stays on the line -----

  /** Where the comment of the text after the `=` begins, or its length where it has none. */
  ghost predicate CommentBegins(s: string, n: nat) {
    if n < |s| then s[n] == '#' && TokensBefore(s, n)
    else n == |s| && forall i: nat :: i < |s| && s[i] == '#' ==> !TokensBefore(s, i)
  }

  lemma CommentAtExactly(s: string, n: nat)
    ensures CommentAt(s) == n <==> CommentBegins(s, n)
  {
    forall i: nat ensures CommentStart(s) == Some(i) <==> i < |s| && s[i] == '#' && TokensBefore(s, i) {
      CommentExactly(s, i);
    }
  }

  /** Neither end is white space. */
  predicate IsTight(s: string) {
    s != "" && !IsWhite(s[0]) && !IsWhite(s[|s| - 1])
  }

  lemma SuffixOf(pre: string, suffix: string)
    requires '=' !in pre
    ensures var line := pre + ("=" + suffix);
            '=' in line && Suffix(line) == suffix && line[..IndexOf(line, '=') + 1] == pre + "="
  {
    CutAtEqual(pre, suffix);
    assert (pre + ("=" + suffix))[..|pre| + 1] == pre + "=";
  }

  lemma RawAndComment(raw: string, comment: string)
    ensures (raw + comment)[..|raw|] == raw && (raw + comment)[|raw|..] == comment
  {
  }

  lemma LeadAndTail(line: string, lead: string, was: string, gap: string, comment: string)
    requires '=' in line && Suffix(line) == lead + was + gap + comment
    requires AllWhite(lead) && IsTight(was) && AllWhite(gap)
    requires CommentAt(Suffix(line)) == |lead + was + gap|
    ensures Lead(line) == lead && Tail(line) == gap + comment
  {
    RawAndComment(lead + was + gap, comment);
    WhiteAroundValue(lead, was, gap);
    LeadTailOf(line, lead + was + gap, comment);
  }

  lemma ReplacedAround(line: string, pre: string, lead: string, tail: string, rendered: string)
    requires '=' in line && line[..IndexOf(line, '=') + 1] == pre + "=" && Lead(line) == lead && Tail(line) == tail
    ensures ReplaceValue(line, rendered) == pre + "=" + lead + rendered + tail
  {
  }

  lemma ReplacedOn(
      line: string, suffix: string, pre: string, lead: string, was: string, gap: string, comment: string,
      rendered: string)
    requires '=' !in pre && AllWhite(lead) && IsTight(was) && AllWhite(gap)
    requires line == pre + ("=" + suffix) && suffix == lead + was + gap + comment
    requires CommentAt(suffix) == |lead + was + gap|
    ensures ReplaceValue(line, rendered) == pre + "=" + lead + rendered + (gap + comment)
  {
    SuffixOf(pre, suffix);
    assert '=' in line && Suffix(line) == suffix;
    assert Lead(line) == lead && Tail(line) == gap + comment by {
      LeadAndTail(line, lead, was, gap, comment);
    }
    ReplacedAround(line, pre, lead, gap + comment, rendered);
  }

  /** A replacement changes the value alone: what stands between the white space after the `=` and
      the white space before the comment. */
  lemma ReplacesTheValue(
      pre: string, lead: string, was: string, gap: string, comment: string, rendered: string)
    requires '=' !in pre && AllWhite(lead) && IsTight(was) && AllWhite(gap)
    requires CommentBegins(lead + was + gap + comment, |lead| + |was| + |gap|)
    ensures ReplaceValue(pre + ("=" + (lead + was + gap + comment)), rendered) ==
            pre + "=" + lead + rendered + (gap + comment)
  {
    var suffix := lead + was + gap + comment;
    CommentAtExactly(suffix, |lead| + |was| + |gap|);
    ReplacedOn(pre + ("=" + suffix), suffix, pre, lead, was, gap, comment, rendered);
  }

  /** Where there is none, the value goes right after the `=`. */
  lemma FillsTheGap(pre: string, gap: string, comment: string, rendered: string)
    requires '=' !in pre && AllWhite(gap) && CommentBegins(gap + comment, |gap|)
    ensures ReplaceValue(pre + ("=" + (gap + comment)), rendered) == pre + "=" + "" + rendered + (gap + comment)
  {
    var suffix := gap + comment;
    SuffixOf(pre, suffix);
    CommentAtExactly(suffix, |gap|);
    assert suffix[..|gap|] == gap && suffix[|gap|..] == comment;
  }

  // ----- what a removal keeps -----

  predicate Heads(lines: seq<string>, i: int) {
    0 <= i < |lines| && Starts(lines, i) && TableName(lines[i]).Some?
  }

  predicate NoHeads(lines: seq<string>, from: int, to: int) {
    forall i :: from <= i < to ==> !Heads(lines, i)
  }

  /** Line `h` is the last header above line `i`. */
  predicate LastHead(lines: seq<string>, i: int, h: int) {
    h < i && Heads(lines, h) && NoHeads(lines, h + 1, i)
  }

  /** The last header above line `i` is one of the table's family. */
  ghost predicate UnderFamily(lines: seq<string>, i: int, table: string) {
    exists h :: LastHead(lines, i, h) && InFamily(TableName(lines[h]).value, table)
  }

  lemma LastHeadNext(lines: seq<string>, i: nat, h: int)
    requires i < |lines|
    ensures LastHead(lines, i + 1, h) <==> if Heads(lines, i) then h == i else LastHead(lines, i, h)
  {
    if Heads(lines, i) && h < i {
      assert !NoHeads(lines, h + 1, i + 1);
    }
    assert NoHeads(lines, h + 1, i + 1) && h < i ==> NoHeads(lines, h + 1, i);
  }

  lemma UnderFamilyNext(lines: seq<string>, i: nat, table: string)
    requires i < |lines|
    ensures UnderFamily(lines, i + 1, table) <==>
            RemovingAt(lines[i], StateAt(lines, i), table, UnderFamily(lines, i, table))
  {
    forall h ensures LastHead(lines, i + 1, h) <==> if Heads(lines, i) then h == i else LastHead(lines, i, h) {
      LastHeadNext(lines, i, h);
    }
    if Heads(lines, i) {
      assert LastHead(lines, i + 1, i);
    }
  }

  /** A removed table leaves what is under other headers, and, of its own lines, each statement line
      that is blank or a comment, and an empty last line. */
  ghost predicate StaysAt(lines: seq<string>, i: int, table: string) {
    0 <= i < |lines| &&
    ((Starts(lines, i) && IsRemark(lines[i])) || (i == |lines| - 1 && lines[i] == "")
     || !UnderFamily(lines, i + 1, table))
  }

  /** `kept` is the lines from `from` that stay, in order. */
  ghost predicate AreKept(kept: seq<string>, lines: seq<string>, table: string, from: int, at: seq<int>) {
    && |at| == |kept| && (forall j, k :: 0 <= j < k < |at| ==> at[j] < at[k])
    && (forall i :: i in at <==> from <= i && StaysAt(lines, i, table))
    && (forall k :: 0 <= k < |at| ==> 0 <= at[k] < |lines| && kept[k] == lines[at[k]])
  }

  lemma OneStays(kept: seq<string>, lines: seq<string>, table: string, i: nat, at: seq<int>)
    requires i < |lines| && AreKept(kept, lines, table, i + 1, at) && StaysAt(lines, i, table)
    ensures AreKept([lines[i]] + kept, lines, table, i, [i] + at)
  {
    assert forall k :: 0 <= k < |at| ==> at[k] in at;
    assert forall j :: j in [i] + at <==> j == i || j in at;
  }

  lemma OneGoes(kept: seq<string>, lines: seq<string>, table: string, i: nat, at: seq<int>)
    requires i < |lines| && AreKept(kept, lines, table, i + 1, at) && !StaysAt(lines, i, table)
    ensures AreKept(kept, lines, table, i, at)
  {
  }

  lemma {:induction false} KeptFrom(lines: seq<string>, i: nat, table: string) returns (at: seq<int>)
    requires i <= |lines|
    ensures AreKept(Kept(lines[i..], table, StateAt(lines, i), UnderFamily(lines, i, table)), lines, table, i, at)
    decreases |lines| - i
  {
    if i == |lines| {
      at := [];
    } else {
      at := KeptFrom(lines, i + 1, table);
      UnderFamilyNext(lines, i, table);
      StateAtNext(lines, i);
      assert lines[i..][1..] == lines[i + 1..] && lines[i..][0] == lines[i];
      var more := Kept(lines[i + 1..], table, StateAt(lines, i + 1), UnderFamily(lines, i + 1, table));
      if StaysAt(lines, i, table) {
        OneStays(more, lines, table, i, at);
        at := [i] + at;
      } else {
        OneGoes(more, lines, table, i, at);
      }
    }
  }

  /** Removing a table keeps exactly those lines. */
  lemma KeptExactly(lines: seq<string>, table: string)
    ensures exists at :: AreKept(Kept(lines, table, INITIAL, false), lines, table, 0, at)
  {
    var at := KeptFrom(lines, 0, table);
    assert lines[0..] == lines && lines[..0] == [];
    assert !UnderFamily(lines, 0, table);
    assert StateAt(lines, 0) == INITIAL;
  }

  /** The last header above line `i` names `table`, or there is none and it has no name. */
  ghost predicate Under(lines: seq<string>, i: int, table: string) {
    || (table == "" && NoHeads(lines, 0, i))
    || exists h :: LastHead(lines, i, h) && TableName(lines[h]).value == table
  }

  /** A statement of the table that assigns the key. */
  ghost predicate TargetAt(lines: seq<string>, i: int, table: string, key: string) {
    && 0 <= i < |lines| && Starts(lines, i) && TableName(lines[i]) == None
    && Under(lines, i, table) && Assigns(lines[i], key)
  }

  /** In place of an assignment its comment stays, if it has one; any other line stays. */
  ghost predicate IsLeft(left: seq<string>, lines: seq<string>, i: int, table: string, key: string)
    requires 0 <= i < |lines|
  {
    if TargetAt(lines, i, table, key) then
      exists n: nat :: CommentBegins(Suffix(lines[i]), n)
        && left == if n < |Suffix(lines[i])| then [Suffix(lines[i])[n..]] else []
    else left == [lines[i]]
  }

  function Flat(parts: seq<seq<string>>): seq<string> {
    if parts == [] then [] else parts[0] + Flat(parts[1..])
  }

  ghost predicate PartLeft(
      parts: seq<seq<string>>, k: int, lines: seq<string>, table: string, key: string, from: int)
  {
    0 <= k < |parts| && 0 <= from + k < |lines| && IsLeft(parts[k], lines, from + k, table, key)
  }

  ghost predicate ArePartsLeft(parts: seq<seq<string>>, lines: seq<string>, table: string, key: string, from: int) {
    && 0 <= from <= |lines| == from + |parts|
    && forall k :: 0 <= k < |parts| ==> PartLeft(parts, k, lines, table, key, from)
  }

  ghost predicate AreLeft(r: seq<string>, lines: seq<string>, table: string, key: string, from: int) {
    exists parts :: ArePartsLeft(parts, lines, table, key, from) && r == Flat(parts)
  }

  lemma UnderNext(lines: seq<string>, i: nat, current: string)
    requires i < |lines| && Under(lines, i, current)
    ensures Under(lines, i + 1, EditorTable(lines[i], StateAt(lines, i), current))
  {
    forall h ensures LastHead(lines, i + 1, h) <==> if Heads(lines, i) then h == i else LastHead(lines, i, h) {
      LastHeadNext(lines, i, h);
    }
    if Heads(lines, i) {
      assert LastHead(lines, i + 1, i);
    }
  }

  lemma LastHeadRules(lines: seq<string>, i: int, h: int, h': int)
    ensures LastHead(lines, i, h) && LastHead(lines, i, h') ==> h == h'
    ensures LastHead(lines, i, h) ==> !NoHeads(lines, 0, i)
  {
  }

  lemma UnderOnce(lines: seq<string>, i: int, a: string, b: string)
    requires Under(lines, i, a) && Under(lines, i, b)
    ensures a == b
  {
    forall h, h'
      ensures LastHead(lines, i, h) && LastHead(lines, i, h') ==> h == h'
      ensures LastHead(lines, i, h) ==> !NoHeads(lines, 0, i)
    {
      LastHeadRules(lines, i, h, h');
    }
  }

  lemma RemainsExactly(line: string, n: nat)
    requires '=' in line && CommentBegins(Suffix(line), n)
    ensures Remains(line) == if n < |Suffix(line)| then [Suffix(line)[n..]] else []
  {
    CommentAtExactly(Suffix(line), n);
  }

  lemma OneLineLeft(lines: seq<string>, i: nat, table: string, key: string, current: string)
    requires i < |lines| && Under(lines, i, current)
    ensures IsLeft(Left(lines[i], table, key, StateAt(lines, i), current), lines, i, table, key)
  {
    assert TargetAt(lines, i, table, key) <==> IsTarget(lines[i], StateAt(lines, i), current, table, key) by {
      if Under(lines, i, table) {
        UnderOnce(lines, i, current, table);
      }
    }
    if TargetAt(lines, i, table, key) {
      var n := CommentAt(Suffix(lines[i]));
      CommentAtExactly(Suffix(lines[i]), n);
      RemainsExactly(lines[i], n);
    }
  }

  lemma PartMoved(
      left: seq<string>, parts: seq<seq<string>>, k: int, lines: seq<string>, table: string, key: string, i: nat)
    requires PartLeft(parts, k, lines, table, key, i + 1)
    ensures PartLeft([left] + parts, k + 1, lines, table, key, i)
  {
    assert i + 1 + k == i + (k + 1);
    assert ([left] + parts)[k + 1] == parts[k];
  }

  lemma OneMorePart(
      left: seq<string>, parts: seq<seq<string>>, lines: seq<string>, table: string, key: string, i: nat)
    requires PartLeft([left] + parts, 0, lines, table, key, i) && ArePartsLeft(parts, lines, table, key, i + 1)
    ensures ArePartsLeft([left] + parts, lines, table, key, i)
  {
    forall k | 0 < k < |parts| + 1 ensures PartLeft([left] + parts, k, lines, table, key, i) {
      PartMoved(left, parts, k - 1, lines, table, key, i);
    }
  }

  lemma OneMoreLeft(left: seq<string>, r: seq<string>, lines: seq<string>, table: string, key: string, i: nat)
    requires i < |lines| && IsLeft(left, lines, i, table, key) && AreLeft(r, lines, table, key, i + 1)
    ensures AreLeft(left + r, lines, table, key, i)
  {
    var parts :| ArePartsLeft(parts, lines, table, key, i + 1) && r == Flat(parts);
    assert PartLeft([left] + parts, 0, lines, table, key, i);
    OneMorePart(left, parts, lines, table, key, i);
    FlatMore(left, parts);
  }

  lemma FlatMore(left: seq<string>, parts: seq<seq<string>>)
    ensures Flat([left] + parts) == left + Flat(parts)
  {
    assert ([left] + parts)[1..] == parts;
  }

  lemma {:induction false} LeftFrom(lines: seq<string>, i: nat, table: string, key: string, current: string)
    requires i <= |lines| && Under(lines, i, current)
    ensures AreLeft(Unassigned(lines[i..], table, key, StateAt(lines, i), current), lines, table, key, i)
    decreases |lines| - i
  {
    if i == |lines| {
      assert ArePartsLeft([], lines, table, key, i) && Flat([]) == [];
    } else {
      var st := StateAt(lines, i);
      var next := EditorTable(lines[i], st, current);
      UnderNext(lines, i, current);
      LeftFrom(lines, i + 1, table, key, next);
      OneLineLeft(lines, i, table, key, current);
      StateAtNext(lines, i);
      assert lines[i..][1..] == lines[i + 1..] && lines[i..][0] == lines[i];
      OneMoreLeft(Left(lines[i], table, key, st, current),
                  Unassigned(lines[i + 1..], table, key, StateAt(lines, i + 1), next), lines, table, key, i);
    }
  }

  /** Removing a key leaves every line as it is, but for the assignments of that key in that table,
      of which the comments stay. */
  lemma LeftExactly(lines: seq<string>, table: string, key: string)
    ensures AreLeft(Unassigned(lines, table, key, INITIAL, ""), lines, table, key, 0)
  {
    assert Under(lines, 0, "");
    LeftFrom(lines, 0, table, key, "");
    assert lines[0..] == lines && StateAt(lines, 0) == INITIAL;
  }
}
