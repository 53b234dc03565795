/** Edits one after another: where the second of two writes lands, and when it wins. */
module TomlRewriting {
  import opened Text
  import opened TomlString
  import opened TomlScan
  import opened TomlLines
  import opened MinimalToml
  import opened TomlSetting

  // ----- where the second edit lands -----

  /** Only the marks up to a replaced line decide that it is replaced. */
  lemma {:induction false} FindPrefix(marks: seq<Mark>, again: seq<Mark>, table: string, current: string, at: nat,
                                      insertion: Option<nat>, j: nat)
    requires Find(marks, table, current, at, insertion) == Replace(at + j)
    requires j < |marks| && j < |again| && again[..j + 1] == marks[..j + 1]
    ensures Find(again, table, current, at, insertion) == Replace(at + j)
  {
    assert again[0] == again[..j + 1][0] && marks[0] == marks[..j + 1][0];
    if j > 0 {
      assert again[1..][..j] == again[..j + 1][1..] && marks[1..][..j] == marks[..j + 1][1..];
      match marks[0]
      case HeaderMark(name) =>
        FindPrefix(marks[1..], again[1..], table, name, at + 1,
                   if name == table then Some(at + 1) else insertion, j - 1);
      case _ => FindPrefix(marks[1..], again[1..], table, current, at + 1, insertion, j - 1);
    } else {
      FindShape(marks[1..], table, current, at + 1, insertion);
      if marks[0].HeaderMark? {
        FindShape(marks[1..], table, marks[0].name, at + 1,
                  if marks[0].name == table then Some(at + 1) else insertion);
      }
    }
  }

  /** A line under the header is met first, and is the key's only if nothing is open there. */
  lemma {:induction false} FindInserted(marks: seq<Mark>, again: seq<Mark>, table: string, current: string, at: nat,
                                        j: nat)
    requires Find(marks, table, current, at, None) == Insert(at + j)
    requires 0 < j <= |marks| && j < |again| && again[..j] == marks[..j]
    requires again[j] == KeyMark || again[j] == Opaque
    ensures Find(again, table, current, at, None) == Replace(at + j) <==> again[j] == KeyMark
  {
    assert again[0] == again[..j][0] && marks[0] == marks[..j][0];
    assert again[1..][..j - 1] == again[..j][1..] && marks[1..][..j - 1] == marks[..j][1..];
    if marks[0] == HeaderMark(table) {
      InsertionStays(marks[1..], table, at + 1, at + 1);
      assert j == 1;
      FindShape(again[2..], table, table, at + 2, Some(at + 1));
      assert again[1..][1..] == again[2..];
    } else {
      var current' := if marks[0].HeaderMark? then marks[0].name else current;
      FindShape(marks[1..], table, current', at + 1, None);
      FindInserted(marks[1..], again[1..], table, current', at + 1, j - 1);
    }
  }

  lemma {:induction false} InsertionStays(marks: seq<Mark>, table: string, at: nat, n: nat)
    ensures var e := Find(marks, table, table, at, Some(n)); e == Insert(n) || e.Replace?
  {
    if marks != [] && !marks[0].HeaderMark? {
      InsertionStays(marks[1..], table, at + 1, n);
    }
  }

  /** Marks without the table's header are passed over. */
  lemma {:induction false} FindPasses(a: seq<Mark>, b: seq<Mark>, more: seq<Mark>, table: string, current: string,
                                      at: nat)
    returns (current': string)
    requires Find(a + b, table, current, at, None) == Append && current != table
    ensures current' != table
    ensures Find(a + more, table, current, at, None) == Find(more, table, current', at + |a|, None)
  {
    if a == [] {
      current' := current;
      assert a + more == more;
    } else {
      assert (a + b)[1..] == a[1..] + b && (a + more)[1..] == a[1..] + more;
      if a[0] == HeaderMark(table) {
        InsertionStays(a[1..] + b, table, at + 1, at + 1);
        assert false;
      } else {
        var next := if a[0].HeaderMark? then a[0].name else current;
        current' := FindPasses(a[1..], b, more, table, next, at + 1);
      }
    }
  }

  // ----- writing twice -----

  /** Nothing is open where a new line or a new table goes. */
  predicate Settled(text: string, table: string, key: string) {
    var lines := Split(text);
    EditShape(lines, table, key);
    match EditOf(lines, table, key)
    case Replace(i) => true
    case Insert(i) => Starts(lines, i)
    case Append => After(lines, INITIAL).Clean()
  }

  lemma ScanHeader(table: string)
    requires IsPlain(table)
    ensures Scan("[" + table + "]", INITIAL) == INITIAL
  {
    assert Drop("[" + (table + "]"), 1) == table + "]";
    assert "[" + table + "]" == "[" + (table + "]");
    ScanPlain(table, "]", INITIAL.(brackets := 1));
    assert Drop("]", 1) == "";
  }

  /** The marks of a line put after the first `i` lines. */
  lemma MarksAround(lines: seq<string>, i: nat, line: string, rest: seq<string>, key: string)
    requires i <= |lines|
    ensures var marks := Marks(lines[..i] + [line] + rest, key, INITIAL);
            && |marks| == i + 1 + |rest| && marks[..i] == Marks(lines, key, INITIAL)[..i]
            && marks[i] == MarkOf(line, key, StateAt(lines, i))
  {
    MarksConcat(lines[..i], [line] + rest, key, INITIAL);
    MarksConcat(lines[..i], lines[i..], key, INITIAL);
    assert lines == lines[..i] + lines[i..];
    assert lines[..i] + [line] + rest == lines[..i] + ([line] + rest);
  }

  lemma ReplacedAgain(lines: seq<string>, i: nat, edited: string, table: string, key: string)
    requires EditOf(lines, table, key) == Replace(i) && i < |lines|
    requires Assigns(edited, key) && TableName(edited).None?
    ensures EditOf(lines[..i] + [edited] + lines[i + 1..], table, key) == Replace(i)
  {
    var marks := Marks(lines, key, INITIAL);
    var again := Marks(lines[..i] + [edited] + lines[i + 1..], key, INITIAL);
    EditShape(lines, table, key);
    MarkAt(lines, key, i);
    MarksAround(lines, i, edited, lines[i + 1..], key);
    assert again[..i + 1] == again[..i] + [again[i]] && marks[..i + 1] == marks[..i] + [marks[i]];
    FindPrefix(marks, again, table, "", 0, None, i);
  }

  lemma InsertedMark(lines: seq<string>, i: nat, key: string, rendered: string)
    requires LegalKey(key) && IsRendered(rendered) && i <= |lines|
    ensures var again := Marks(lines[..i] + [AssignmentLine(key, rendered)] + lines[i..], key, INITIAL);
            && i < |again| && again[..i] == Marks(lines, key, INITIAL)[..i]
            && again[i] == if Starts(lines, i) then KeyMark else Opaque
  {
    AssignmentReadsBack(key, rendered);
    MarksAround(lines, i, AssignmentLine(key, rendered), lines[i..], key);
  }

  lemma InsertedAgain(lines: seq<string>, i: nat, table: string, key: string, rendered: string)
    requires LegalKey(key) && IsRendered(rendered)
    requires EditOf(lines, table, key) == Insert(i) && i <= |lines|
    ensures EditOf(lines[..i] + [AssignmentLine(key, rendered)] + lines[i..], table, key) == Replace(i) <==>
            Starts(lines, i)
  {
    EditShape(lines, table, key);
    InsertedMark(lines, i, key, rendered);
    var again := Marks(lines[..i] + [AssignmentLine(key, rendered)] + lines[i..], key, INITIAL);
    FindInserted(Marks(lines, key, INITIAL), again, table, "", 0, i);
  }

  lemma AfterBody(lines: seq<string>)
    requires lines != []
    ensures After(Body(lines), INITIAL) == After(lines, INITIAL)
  {
    if lines[|lines| - 1] == "" {
      LastSplit(lines);
      AfterConcat(Body(lines), [""], INITIAL);
      assert [""][1..] == [];
    }
  }

  lemma MarksNewTable(table: string, key: string, rendered: string, st: ScanState)
    requires LegalTable(table) && LegalKey(key) && IsRendered(rendered) && Sane(st) && IsPlain(table)
    ensures var marks := Marks(NewTable(table, AssignmentLine(key, rendered)), key, st);
            && (st.Clean() ==> marks[0] == HeaderMark(table) && marks[1] == KeyMark)
            && (!st.Clean() ==> marks[0] == Opaque && !marks[1].HeaderMark?)
            && !marks[2].HeaderMark? && marks[2] != KeyMark
  {
    var line := AssignmentLine(key, rendered);
    var header := "[" + table + "]";
    HeaderReadsBack(table);
    AssignmentReadsBack(key, rendered);
    ScanHeader(table);
    assert NewTable(table, line)[1..] == [line, ""] && [line, ""][1..] == [""] && [""][1..] == [];
    var st1 := Scan(header, st);
    assert Marks(NewTable(table, line), key, st) == [MarkOf(header, key, st)] + Marks([line, ""], key, st1);
    assert Marks([line, ""], key, st1) == [MarkOf(line, key, st1)] + Marks([""], key, Scan(line, st1));
    assert Marks([""], key, Scan(line, st1)) == [MarkOf("", key, Scan(line, st1))] + [];
    assert TableName("") == None && '=' !in "";
  }

  lemma FindThree(marks: seq<Mark>, table: string, current: string, at: nat)
    requires |marks| == 3 && current != table
    requires marks[0] == Opaque || (marks[0] == HeaderMark(table) && marks[1] == KeyMark)
    requires !marks[1].HeaderMark? && !marks[2].HeaderMark?
    ensures Find(marks, table, current, at, None) == if marks[0] == Opaque then Append else Replace(at + 1)
  {
    var second, third := marks[1..], marks[2..];
    assert second[1..] == third && third[1..] == [];
    if marks[0] == Opaque {
      assert Find(third, table, current, at + 2, None) == Find([], table, current, at + 3, None);
      assert Find(second, table, current, at + 1, None) == Append;
    } else {
      assert Find(second, table, table, at + 1, Some(at + 1)) == Replace(at + 1);
    }
  }

  /** Where the second write of a new table lands. */
  lemma AppendedAgain(lines: seq<string>, table: string, key: string, rendered: string)
    requires lines != [] && LegalTable(table) && LegalKey(key) && IsRendered(rendered)
    requires table != "" && IsPlain(table) && EditOf(lines, table, key) == Append
    ensures EditOf(SetLines(lines, table, key, rendered), table, key) ==
            if After(lines, INITIAL).Clean() then Replace(|Body(lines)| + 1) else Append
  {
    var body, more := Body(lines), NewTable(table, AssignmentLine(key, rendered));
    var rest := lines[|body|..];
    var st := After(lines, INITIAL);
    AfterBody(lines);
    AfterSane(lines, INITIAL);
    assert body + rest == lines;
    MarksConcat(body, rest, key, INITIAL);
    MarksConcat(body, more, key, INITIAL);
    var current := FindPasses(Marks(body, key, INITIAL), Marks(rest, key, st), Marks(more, key, st), table, "", 0);
    MarksNewTable(table, key, rendered, st);
    FindThree(Marks(more, key, st), table, current, |body|);
  }

  lemma PrefixThrough(a: string, b: string, e: nat)
    requires e < |a| && e < |b| && a[..e] == b[..e] && a[e] == b[e]
    ensures a[..e + 1] == b[..e + 1]
  {
  }

  lemma ReplaceTwice(line: string, r1: string, r2: string)
    requires '=' in line && IsRendered(r1)
    ensures '=' in ReplaceValue(line, r1)
    ensures ReplaceValue(ReplaceValue(line, r1), r2) == ReplaceValue(line, r2)
  {
    ReplaceKeepsAround(line, r1);
    ReplacedCut(line, r1);
    SameAround(line, ReplaceValue(line, r1), r2);
  }

  lemma SameAround(line: string, edited: string, rendered: string)
    requires '=' in line && '=' in edited && IndexOf(edited, '=') == IndexOf(line, '=')
    requires edited[..IndexOf(line, '=')] == line[..IndexOf(line, '=')]
    requires Lead(edited) == Lead(line) && Tail(edited) == Tail(line)
    ensures ReplaceValue(edited, rendered) == ReplaceValue(line, rendered)
  {
    PrefixThrough(line, edited, IndexOf(line, '='));
  }

  lemma OverwriteMiddle(a: seq<string>, x: string, y: string, b: seq<string>)
    ensures var whole := a + [x] + b;
            whole[|a|] == x && whole[..|a|] + [y] + whole[|a| + 1..] == a + [y] + b
  {
  }

  lemma RewriteReplaced(lines: seq<string>, i: nat, table: string, key: string, r1: string, r2: string)
    requires lines != [] && LegalKey(key) && IsRendered(r1) && IsRendered(r2)
    requires EditOf(lines, table, key) == Replace(i)
    ensures SetLines(SetLines(lines, table, key, r1), table, key, r2) == SetLines(lines, table, key, r2)
  {
    EditShape(lines, table, key);
    var edited := ReplaceValue(lines[i], r1);
    ReplacedView(lines[i], key, r1);
    ReplacedAgain(lines, i, edited, table, key);
    ReplaceTwice(lines[i], r1, r2);
    OverwriteMiddle(lines[..i], edited, ReplaceValue(lines[i], r2), lines[i + 1..]);
  }

  lemma RewriteInserted(lines: seq<string>, i: nat, table: string, key: string, r1: string, r2: string)
    requires lines != [] && LegalKey(key) && IsRendered(r1) && IsRendered(r2)
    requires EditOf(lines, table, key) == Insert(i) && i <= |lines|
    requires Starts(lines, i)
    ensures SetLines(SetLines(lines, table, key, r1), table, key, r2) == SetLines(lines, table, key, r2)
  {
    InsertedAgain(lines, i, table, key, r1);
    ReplaceFresh(key, r1, r2);
    OverwriteMiddle(lines[..i], AssignmentLine(key, r1), AssignmentLine(key, r2), lines[i..]);
  }

  lemma RewriteAppended(lines: seq<string>, table: string, key: string, r1: string, r2: string)
    requires lines != [] && LegalTable(table) && LegalKey(key) && IsRendered(r1) && IsRendered(r2)
    requires table != "" && IsPlain(table) && EditOf(lines, table, key) == Append
    requires After(lines, INITIAL).Clean()
    ensures SetLines(SetLines(lines, table, key, r1), table, key, r2) == SetLines(lines, table, key, r2)
  {
    var body, line1, line2 := Body(lines), AssignmentLine(key, r1), AssignmentLine(key, r2);
    var header := "[" + table + "]";
    AppendedAgain(lines, table, key, r1);
    ReplaceFresh(key, r1, r2);
    NewTableAround(body, table, line1);
    NewTableAround(body, table, line2);
    OverwriteMiddle(body + [header], line1, line2, [""]);
    assert |body + [header]| == |body| + 1;
  }

  lemma NewTableAround(body: seq<string>, table: string, line: string)
    ensures body + NewTable(table, line) == (body + ["[" + table + "]"]) + [line] + [""]
  {
  }

  lemma FreshParts(line: string, key: string, r1: string)
    requires line == (key + " ") + ("=" + (" " + r1)) && LegalKey(key) && IsRendered(r1)
    ensures '=' in line && IndexOf(line, '=') == |key| + 1 && Lead(line) == " " && Tail(line) == ""
  {
    CutAtEqual(key + " ", " " + r1);
    CutAroundValue(" ", r1, "", "");
    assert " " + r1 + ("" + "") == " " + r1 && " " + r1 + "" == " " + r1;
    LeadTailOf(line, " " + r1, "");
  }

  lemma ReplaceFresh(key: string, r1: string, r2: string)
    requires LegalKey(key) && IsRendered(r1)
    ensures '=' in AssignmentLine(key, r1)
    ensures Lead(AssignmentLine(key, r1)) == " "
    ensures ReplaceValue(AssignmentLine(key, r1), r2) == AssignmentLine(key, r2)
  {
    AssignmentParts(key, r1);
    FreshParts(AssignmentLine(key, r1), key, r1);
    FreshReplace(AssignmentLine(key, r1), key, r2);
  }

  lemma AssignmentParts(key: string, r: string)
    ensures AssignmentLine(key, r) == (key + " ") + ("=" + (" " + r))
    ensures AssignmentLine(key, r)[..|key| + 2] == key + " ="
    ensures AssignmentLine(key, r) == (key + " =") + " " + r + ""
  {
  }

  lemma FreshReplace(line: string, key: string, r2: string)
    requires '=' in line && IndexOf(line, '=') == |key| + 1 && line[..|key| + 2] == key + " ="
    requires Lead(line) == " " && Tail(line) == ""
    ensures ReplaceValue(line, r2) == AssignmentLine(key, r2)
  {
  }

  /** Where something is open, the second write leaves the first one standing. */
  lemma RewriteUnsettled(text: string, table: string, key: string)
    requires LegalTable(table) && LegalKey(key) && table != "" && IsPlain(table)
    requires !Settled(text, table, key)
    ensures SetText(SetText(text, table, key, Quoted("")), table, key, Quoted("x")) !=
            SetText(text, table, key, Quoted("x"))
  {
    var lines := Split(text);
    var r1, r2 := Quoted(""), Quoted("x");
    QuotedIsRendered("");
    QuotedIsRendered("x");
    SetSplit(text, table, key, r1);
    SetSplit(text, table, key, r2);
    SetSplit(SetText(text, table, key, r1), table, key, r2);
    TwoValuesDiffer(key);
    EditShape(lines, table, key);
    match EditOf(lines, table, key)
    case Insert(i) => UnsettledInsert(lines, i, table, key, r1, r2);
    case Append => UnsettledAppend(lines, table, key, r1, r2);
  }

  lemma TwoValuesDiffer(key: string)
    ensures AssignmentLine(key, Quoted("")) != AssignmentLine(key, Quoted("x"))
  {
  }

  lemma SetSize(lines: seq<string>, table: string, key: string, rendered: string)
    requires lines != []
    ensures var written := SetLines(lines, table, key, rendered);
            match EditOf(lines, table, key)
            case Replace(i) => |written| == |lines| && forall k :: 0 <= k < |lines| && k != i ==> written[k] == lines[k]
            case _ => |written| > |lines|
  {
    EditShape(lines, table, key);
    match EditOf(lines, table, key)
    case Replace(i) => KeptAround(lines, i, ReplaceValue(lines[i], rendered));
    case Insert(i) =>
    case Append =>
  }

  lemma KeptAround(lines: seq<string>, i: nat, edited: string)
    requires i < |lines|
    ensures var written := lines[..i] + [edited] + lines[i + 1..];
            |written| == |lines| && forall k :: 0 <= k < |lines| && k != i ==> written[k] == lines[k]
  {
  }

  lemma UnsettledInsert(lines: seq<string>, i: nat, table: string, key: string, r1: string, r2: string)
    requires lines != [] && LegalKey(key) && IsRendered(r1)
    requires AssignmentLine(key, r1) != AssignmentLine(key, r2)
    requires EditOf(lines, table, key) == Insert(i) && i <= |lines| && !Starts(lines, i)
    ensures SetLines(SetLines(lines, table, key, r1), table, key, r2) != SetLines(lines, table, key, r2)
  {
    var line1 := AssignmentLine(key, r1);
    var once := SetLines(lines, table, key, r1);
    InsertedAgain(lines, i, table, key, r1);
    SetSize(once, table, key, r2);
    assert once[i] == line1 && SetLines(lines, table, key, r2)[i] == AssignmentLine(key, r2);
    assert |SetLines(lines, table, key, r2)| == |once|;
  }

  lemma UnsettledAppend(lines: seq<string>, table: string, key: string, r1: string, r2: string)
    requires lines != [] && LegalTable(table) && LegalKey(key) && table != "" && IsPlain(table) && IsRendered(r1)
    requires EditOf(lines, table, key) == Append && !After(lines, INITIAL).Clean()
    ensures SetLines(SetLines(lines, table, key, r1), table, key, r2) != SetLines(lines, table, key, r2)
  {
    AppendedAgain(lines, table, key, r1);
    SetSize(SetLines(lines, table, key, r1), table, key, r2);
    assert |SetLines(lines, table, key, r2)| == |SetLines(lines, table, key, r1)|;
  }

  /** Setting one value and then another gives the text of setting the other alone: exactly
      when nothing is open where the key is written. */
  lemma LastWriteWins(text: string, table: string, key: string)
    requires LegalTable(table) && LegalKey(key) && table != "" && IsPlain(table)
    ensures (forall r1, r2 | IsRendered(r1) && IsRendered(r2) ::
               SetText(SetText(text, table, key, r1), table, key, r2) == SetText(text, table, key, r2)) <==>
            Settled(text, table, key)
  {
    var lines := Split(text);
    EditShape(lines, table, key);
    if Settled(text, table, key) {
      forall r1, r2 | IsRendered(r1) && IsRendered(r2)
        ensures SetText(SetText(text, table, key, r1), table, key, r2) == SetText(text, table, key, r2)
      {
        RenderedShape(r1);
        SetSplit(text, table, key, r1);
        match EditOf(lines, table, key)
        case Replace(i) => RewriteReplaced(lines, i, table, key, r1, r2);
        case Insert(i) => RewriteInserted(lines, i, table, key, r1, r2);
        case Append => RewriteAppended(lines, table, key, r1, r2);
      }
    } else {
      RewriteUnsettled(text, table, key);
      QuotedIsRendered("");
      QuotedIsRendered("x");
    }
  }
}
