/** One line of the configuration: as the reader sees it, as the editor sees it, and with
    its value replaced. */
module TomlLines {
  import opened Text
  import opened TomlString
  import opened TomlScan

  // ----- the reader's view and the editor's -----

  datatype LineView = Skipped | Header(name: string) | Assignment(key: string, raw: string)

  /** A line as `string(forKey:)` reads it. */
  function View(line: string): LineView {
    var t := Trim(line);
    if t == "" || t[0] == '#' then Skipped
    else if t[0] == '[' then
      if ']' in t then Header(Trim(t[1..IndexOf(t, ']')])) else Skipped
    else if '=' in t then
      Assignment(Trim(t[..IndexOf(t, '=')]), Trim(t[IndexOf(t, '=') + 1..]))
    else Skipped
  }

  function TableName(line: string): Option<string> {
    var t := Trim(line);
    if t != "" && t[0] == '[' && ']' in t then Some(Trim(t[1..IndexOf(t, ']')])) else None
  }

  /** Whether the text before the first `=` is `key`. */
  predicate Assigns(line: string, key: string) {
    '=' in line && Trim(line[..IndexOf(line, '=')]) == key
  }

  function FirstNonWhite(s: string): (i: nat)
    ensures i <= |s| && (i < |s| ==> !IsWhite(s[i]))
    ensures forall k :: 0 <= k < i ==> IsWhite(s[k])
  {
    if s == "" || !IsWhite(s[0]) then 0 else 1 + FirstNonWhite(s[1..])
  }

  function EndNonWhite(s: string): (i: nat)
    ensures i <= |s| && (i > 0 ==> !IsWhite(s[i - 1]))
    ensures forall k :: i <= k < |s| ==> IsWhite(s[k])
  {
    if s == "" || !IsWhite(s[|s| - 1]) then |s| else EndNonWhite(s[..|s| - 1])
  }

  /** The text between the `=` and the comment, and where the comment begins. */
  function CommentAt(suffix: string): (i: nat)
    ensures i <= |suffix|
  {
    match CommentStart(suffix)
    case Some(i) => i
    case None => |suffix|
  }

  function Suffix(line: string): string
    requires '=' in line
  {
    line[IndexOf(line, '=') + 1..]
  }

  /** What stays between the `=` and the value. */
  function Lead(line: string): string
    requires '=' in line
  {
    var raw := Suffix(line)[..CommentAt(Suffix(line))];
    if AllWhite(raw) then "" else raw[..FirstNonWhite(raw)]
  }

  /** What stays after the value: white space, and the comment. */
  function Tail(line: string): string
    requires '=' in line
  {
    var comment := CommentAt(Suffix(line));
    var raw := Suffix(line)[..comment];
    (if AllWhite(raw) then raw else raw[EndNonWhite(raw)..]) + Suffix(line)[comment..]
  }

  function ReplaceValue(line: string, rendered: string): string
    requires '=' in line
  {
    line[..IndexOf(line, '=') + 1] + Lead(line) + rendered + Tail(line)
  }

  function AssignmentLine(key: string, rendered: string): string {
    key + " = " + rendered
  }

  /** The line with its value replaced: the cut `setting` makes around it. */
  method WithValue(line: string, rendered: string) returns (edited: string)
    requires '=' in line
    ensures edited == ReplaceValue(line, rendered)
  {
    var suffix := Suffix(line);
    var found := FindComment(suffix);
    var comment := if found.Some? then found.value else |suffix|;
    assert comment == CommentAt(suffix);
    var rawValue := suffix[..comment];
    var start, end := 0, 0;
    if !AllWhite(rawValue) {
      start, end := FirstNonWhite(rawValue), EndNonWhite(rawValue);
    }
    assert rawValue[..start] == Lead(line);
    assert rawValue[end..] + suffix[comment..] == Tail(line);
    edited := line[..IndexOf(line, '=') + 1] + rawValue[..start] + rendered + (rawValue[end..] + suffix[comment..]);
  }

  // ----- where the two readings of a line agree -----

  /** A key the editor can write so that the reader sees it again. */
  predicate LegalKey(key: string) {
    && Trim(key) == key && OneLine(key) && '=' !in key
    && (key == "" || (key[0] != '#' && key[0] != '['))
  }

  predicate LegalTable(table: string) {
    Trim(table) == table && OneLine(table) && ']' !in table
  }

  lemma IndexOfAfter(a: string, b: string, c: char)
    requires c !in a
    ensures IndexOf(a + b, c) == |a| + IndexOf(b, c)
    decreases |a|
  {
    if a == "" {
      assert a + b == b;
    } else {
      IndexOfAfter(a[1..], b, c);
      assert (a + b)[1..] == a[1..] + b;
    }
  }

  lemma TrimTwice(s: string)
    ensures Trim(TrimStart(s)) == Trim(s) == TrimEnd(TrimStart(s))
    ensures TrimStart(TrimStart(s)) == TrimStart(s)
  {
  }

  lemma TrimOfTrimEnd(s: string)
    ensures Trim(TrimEnd(s)) == Trim(s)
  {
    var tail := TrimEndParts(s);
    TrimAround("", TrimEnd(s), tail);
    assert "" + TrimEnd(s) + tail == s;
  }

  /** A line cut at its first `=`. */
  lemma CutAtEqual(pre: string, post: string)
    requires '=' !in pre
    ensures var line := pre + ("=" + post);
            && IndexOf(line, '=') == |pre| && line[..|pre|] == pre && line[|pre| + 1..] == post
  {
    IndexOfAfter(pre, "=" + post, '=');
  }

  lemma TrimAtEqual(pre: string, post: string)
    ensures Trim(pre + ("=" + post)) == TrimStart(pre) + ("=" + TrimEnd(post))
  {
    var lead := TrimStartParts(pre);
    var front := TrimStart(pre) + ("=" + post);
    assert pre + ("=" + post) == lead + front;
    TrimStartSkips(lead, front);
    assert front[0] == (if TrimStart(pre) == "" then '=' else TrimStart(pre)[0]);
    assert TrimStart(front) == front;
    TrimEndAtEqual(TrimStart(pre), post);
  }

  lemma TrimEndAtEqual(a: string, post: string)
    ensures TrimEnd(a + ("=" + post)) == a + ("=" + TrimEnd(post))
  {
    var tail := TrimEndParts(post);
    var kept := a + ("=" + TrimEnd(post));
    assert a + ("=" + post) == kept + tail;
    TrimEndSkips(kept, tail);
    assert kept[|kept| - 1] == (if TrimEnd(post) == "" then '=' else TrimEnd(post)[|TrimEnd(post)| - 1]);
  }

  /** What the reader sees in a line with a `=`: its front decides. */
  lemma ViewAtEqual(pre: string, post: string)
    requires '=' !in pre
    requires var front := TrimStart(pre); front == "" || (front[0] != '#' && front[0] != '[')
    ensures View(pre + ("=" + post)) == Assignment(Trim(pre), Trim(post))
    ensures TableName(pre + ("=" + post)) == None
  {
    var front := TrimStart(pre);
    TrimAtEqual(pre, post);
    var lead := TrimStartParts(pre);
    assert forall c :: c in front ==> c in pre;
    TrimTwice(pre);
    TrimOfTrimEnd(post);
    ViewTrimmed(pre + ("=" + post), front, TrimEnd(post));
  }

  lemma ViewTrimmed(line: string, front: string, rest: string)
    requires Trim(line) == front + ("=" + rest) && '=' !in front
    requires front == "" || (front[0] != '#' && front[0] != '[')
    ensures View(line) == Assignment(Trim(front), Trim(rest)) && TableName(line) == None
  {
    CutAtEqual(front, rest);
    assert Trim(line)[0] == (if front == "" then '=' else front[0]);
  }

  lemma LegalFront(pre: string, key: string)
    requires LegalKey(key) && Trim(pre) == key
    ensures var front := TrimStart(pre); front == "" || (front[0] != '#' && front[0] != '[')
  {
    var front := TrimStart(pre);
    var lead := TrimStartParts(pre);
    var tail := TrimEndParts(front);
    if front != "" {
      if key != "" {
        assert front[0] == key[0];
      }
    }
  }

  lemma TrimKeepsChars(s: string)
    ensures forall c :: c in Trim(s) ==> c in s
  {
    var lead := TrimStartParts(s);
    var tail := TrimEndParts(TrimStart(s));
  }

  lemma AssignmentFront(line: string)
    requires View(line).Assignment?
    ensures var t := Trim(line); t != "" && t[0] != '#' && t[0] != '[' && '=' in t
  {
  }

  lemma AssignmentHasEqual(line: string)
    requires View(line).Assignment?
    ensures '=' in line && View(line).key == Trim(line[..IndexOf(line, '=')])
  {
    AssignmentFront(line);
    assert '=' in line by {
      TrimKeepsChars(line);
    }
    CutLine(line);
    AssignmentKey(line, line[..IndexOf(line, '=')], Suffix(line));
  }

  lemma CutLine(line: string)
    requires '=' in line
    ensures var i := IndexOf(line, '=');
            line == line[..i] + ("=" + Suffix(line)) && '=' !in line[..i]
  {
    CutAt(line, IndexOf(line, '='));
  }

  lemma CutAt(s: string, i: nat)
    requires i < |s|
    ensures s == s[..i] + ([s[i]] + s[i + 1..])
  {
  }

  lemma AssignmentKey(line: string, pre: string, post: string)
    requires line == pre + ("=" + post) && '=' !in pre
    requires Trim(line) != "" && Trim(line)[0] != '#' && Trim(line)[0] != '['
    ensures View(line) == Assignment(Trim(pre), Trim(post))
  {
    TrimAtEqual(pre, post);
    FrontDecides(TrimStart(pre), TrimEnd(post), Trim(line));
    ViewAtEqual(pre, post);
  }

  lemma FrontDecides(front: string, rest: string, t: string)
    requires t == front + ("=" + rest) && t[0] != '#' && t[0] != '['
    ensures front == "" || (front[0] != '#' && front[0] != '[')
  {
  }

  /** The reader sees an assignment of `key` exactly where the editor does. */
  lemma ViewAssigns(line: string, key: string)
    requires LegalKey(key)
    ensures Assigns(line, key) ==> View(line) == Assignment(key, Trim(Suffix(line))) && TableName(line) == None
    ensures View(line).Assignment? && View(line).key == key ==> Assigns(line, key)
  {
    if Assigns(line, key) {
      var i := IndexOf(line, '=');
      assert line == line[..i] + ("=" + line[i + 1..]);
      LegalFront(line[..i], key);
      ViewAtEqual(line[..i], line[i + 1..]);
    }
    if View(line).Assignment? {
      AssignmentHasEqual(line);
    }
  }

  /** Headers are read alike. */
  lemma ViewHeader(line: string)
    ensures TableName(line).Some? ==> View(line) == Header(TableName(line).value)
    ensures View(line).Header? ==> TableName(line) == Some(View(line).name)
  {
  }

  lemma HeaderReadsBack(table: string)
    requires LegalTable(table)
    ensures TableName("[" + table + "]") == Some(table)
    ensures View("[" + table + "]") == Header(table)
  {
  }

  lemma AssignmentReadsBack(key: string, rendered: string)
    requires LegalKey(key) && IsRendered(rendered)
    ensures Assigns(AssignmentLine(key, rendered), key)
    ensures View(AssignmentLine(key, rendered)) == Assignment(key, rendered)
    ensures TableName(AssignmentLine(key, rendered)) == None
  {
    var pre, post := key + " ", " " + rendered;
    assert AssignmentLine(key, rendered) == pre + ("=" + post);
    TrimAround("", key, " ");
    assert "" + key + " " == pre;
    RenderedShape(rendered);
    TrimAround(" ", rendered, "");
    assert " " + rendered + "" == post;
    TrimTight(rendered);
    CutAtEqual(pre, post);
    LegalFront(pre, key);
    ViewAtEqual(pre, post);
  }

  // ----- the line whose value is replaced -----

  lemma TailParts(line: string) returns (gap: string, comment: string)
    requires '=' in line
    ensures AllWhite(Lead(line)) && Tail(line) == gap + comment && AllWhite(gap)
    ensures comment == "" || comment[0] == '#'
  {
    var at := CommentAt(Suffix(line));
    var raw := Suffix(line)[..at];
    gap := if AllWhite(raw) then raw else raw[EndNonWhite(raw)..];
    comment := Suffix(line)[at..];
  }

  /** The key in front of a replaced value is untouched. */
  lemma ReplacedCut(line: string, rendered: string)
    requires '=' in line
    ensures var edited := ReplaceValue(line, rendered);
            && '=' in edited && IndexOf(edited, '=') == IndexOf(line, '=')
            && edited[..IndexOf(line, '=')] == line[..IndexOf(line, '=')]
            && Suffix(edited) == Lead(line) + rendered + Tail(line)
  {
    var i := IndexOf(line, '=');
    var post := Lead(line) + rendered + Tail(line);
    assert line[..i + 1] == line[..i] + "=";
    Glue(line[..i], Lead(line), rendered, Tail(line));
    CutAtEqual(line[..i], post);
  }

  lemma Glue(pre: string, a: string, b: string, c: string)
    ensures (pre + "=") + a + b + c == pre + ("=" + (a + b + c))
  {
  }

  lemma FirstNonWhiteIs(s: string, n: nat)
    requires n < |s| && !IsWhite(s[n]) && forall k :: 0 <= k < n ==> IsWhite(s[k])
    ensures FirstNonWhite(s) == n && !AllWhite(s)
  {
  }

  lemma EndNonWhiteIs(s: string, n: nat)
    requires 0 < n <= |s| && !IsWhite(s[n - 1]) && forall k :: n <= k < |s| ==> IsWhite(s[k])
    ensures EndNonWhite(s) == n
  {
  }

  lemma CommentAtTail(gap: string, comment: string)
    requires AllWhite(gap) && (comment == "" || comment[0] == '#')
    ensures CommentStart(gap + comment) == if comment == "" then None else Some(|gap|)
  {
    CommentPastPlain(gap, comment);
  }

  /** The editor cuts a suffix that holds a printed value just around that value. */
  lemma CutAroundValue(lead: string, rendered: string, gap: string, comment: string)
    requires AllWhite(lead) && AllWhite(gap) && (comment == "" || comment[0] == '#') && IsRendered(rendered)
    ensures var suffix, raw := lead + rendered + (gap + comment), lead + rendered + gap;
            && CommentAt(suffix) == |raw| && suffix[..|raw|] == raw && suffix[|raw|..] == comment
            && !AllWhite(raw) && FirstNonWhite(raw) == |lead| && EndNonWhite(raw) == |lead| + |rendered|
            && raw[..|lead|] == lead && raw[|lead| + |rendered|..] == gap
  {
    var suffix, raw := lead + rendered + (gap + comment), lead + rendered + gap;
    assert CommentAt(suffix) == |raw| by {
      assert suffix == lead + (rendered + (gap + comment));
      CommentPastPlain(lead, rendered + (gap + comment));
      CommentPastRendered(rendered, gap + comment);
      CommentAtTail(gap, comment);
    }
    assert suffix == raw + comment;
    RenderedShape(rendered);
    WhiteAroundValue(lead, rendered, gap);
  }

  lemma WhiteAroundValue(lead: string, rendered: string, gap: string)
    requires AllWhite(lead) && AllWhite(gap)
    requires rendered != "" && !IsWhite(rendered[0]) && !IsWhite(rendered[|rendered| - 1])
    ensures var raw := lead + rendered + gap;
            && !AllWhite(raw) && FirstNonWhite(raw) == |lead| && EndNonWhite(raw) == |lead| + |rendered|
            && raw[..|lead|] == lead && raw[|lead| + |rendered|..] == gap
  {
    var raw := lead + rendered + gap;
    assert raw[|lead|] == rendered[0] && raw[|lead| + |rendered| - 1] == rendered[|rendered| - 1];
    assert forall k :: |lead| + |rendered| <= k < |raw| ==> raw[k] == gap[k - |lead| - |rendered|];
    FirstNonWhiteIs(raw, |lead|);
    EndNonWhiteIs(raw, |lead| + |rendered|);
  }

  /** Only the value changes: what is before and after it, comment included, is kept, so a
      second replacement meets the same line. */
  lemma ReplaceKeepsAround(line: string, rendered: string)
    requires '=' in line && IsRendered(rendered)
    ensures '=' in ReplaceValue(line, rendered)
    ensures Lead(ReplaceValue(line, rendered)) == Lead(line)
    ensures Tail(ReplaceValue(line, rendered)) == Tail(line)
  {
    var gap, comment := TailParts(line);
    var lead := Lead(line);
    ReplacedCut(line, rendered);
    CutAroundValue(lead, rendered, gap, comment);
    LeadTailOf(ReplaceValue(line, rendered), lead + rendered + gap, comment);
  }

  lemma LeadTailOf(line: string, raw: string, comment: string)
    requires '=' in line && !AllWhite(raw)
    requires CommentAt(Suffix(line)) == |raw| <= |Suffix(line)|
    requires Suffix(line)[..|raw|] == raw && Suffix(line)[|raw|..] == comment
    ensures Lead(line) == raw[..FirstNonWhite(raw)]
    ensures Tail(line) == raw[EndNonWhite(raw)..] + comment
  {
  }

  /** The reader sees the new value on the replaced line... */
  lemma ReplacedView(line: string, key: string, rendered: string)
    requires LegalKey(key) && Assigns(line, key) && IsRendered(rendered)
    ensures View(ReplaceValue(line, rendered)) == Assignment(key, Trim(Lead(line) + rendered + Tail(line)))
    ensures Assigns(ReplaceValue(line, rendered), key) && TableName(ReplaceValue(line, rendered)) == None
  {
    ReplacedCut(line, rendered);
    ViewAssigns(ReplaceValue(line, rendered), key);
  }

  /** ...and reads exactly it, if only blanks stand between the `=` and the value... */
  lemma BlankLeadReads(lead: string, text: string, tail: string)
    requires AllBlank(lead)
    ensures Unquote(Trim(lead + Quoted(text) + tail)) == Ok(text)
  {
    assert lead + Quoted(text) + tail == lead + (Quoted(text) + tail);
    TrimStartSkips(lead, Quoted(text) + tail);
    TrimKeepsHead(Quoted(text), tail);
    var x :| Trim(Quoted(text) + tail) == Quoted(text) + x;
    UnquoteQuoted(text, x);
  }

  /** ...but reads no string at all when a line separator stands there: the editor takes it
      for white space, the reader does not. */
  lemma WhiteLeadRefuses(lead: string, rendered: string, tail: string)
    requires AllWhite(lead) && !AllBlank(lead)
    ensures Unquote(Trim(lead + rendered + tail)).Err?
  {
    var whole := lead + rendered + tail;
    var blanks := TrimStartParts(whole);
    var rest := TrimStart(whole);
    assert |blanks| < |lead| by {
      var k :| 0 <= k < |lead| && !IsBlank(lead[k]);
      assert whole[k] == lead[k];
      assert |blanks| > k ==> whole[k] == blanks[k];
    }
    assert whole[|blanks|] == lead[|blanks|];
    assert rest != "" && rest[0] == whole[|blanks|];
    var ends := TrimEndParts(rest);
    assert TrimEnd(rest)[0] == rest[0];
  }
}
