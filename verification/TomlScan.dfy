/** The two scanners of the editor: the one that finds where statements start, and the
    one that finds where a comment starts. */
module TomlScan {
  import opened Basics
  import opened Text
  import opened TomlString

  /** What the statement scanner carries from one line to the next. */
  datatype ScanState = Scanning(quote: Option<char>, multiline: bool, brackets: int) {
    predicate Clean() {
      quote.None? && brackets == 0
    }
  }

  const INITIAL := Scanning(None, false, 0)

  function Drop(s: string, n: nat): string {
    if n <= |s| then s[n..] else ""
  }

  /** How many times `c` stands at the front of `s`. */
  function RunLength(s: string, c: char): (n: nat)
    ensures n <= |s|
    ensures s != "" && s[0] == c ==> n >= 1
  {
    if s != "" && s[0] == c then 1 + RunLength(s[1..], c) else 0
  }

  /** Whether the quote that is open closes at the front of `s`. */
  predicate Closes(s: string, st: ScanState)
    requires s != ""
  {
    st.quote == Some(s[0]) && (!st.multiline || RunLength(s, s[0]) >= 3)
  }

  predicate Opens(s: string, st: ScanState)
    requires s != ""
  {
    st.quote.None? && (s[0] == '"' || s[0] == '\'')
  }

  predicate OpensMultiline(s: string) {
    |s| > 2 && s[1] == s[0] && s[2] == s[0]
  }

  /** An escape inside a basic string hides the character after it. */
  predicate Escapes(s: string, st: ScanState)
    requires s != ""
  {
    st.quote == Some('"') && s[0] == '\\'
  }

  /** How many characters one turn of the scanner takes, and the state after it. */
  function Width(s: string, st: ScanState): nat
    requires s != ""
  {
    if Escapes(s, st) then 2
    else if Closes(s, st) && st.multiline then RunLength(s, s[0])
    else if Opens(s, st) && OpensMultiline(s) then 3
    else 1
  }

  function Next(s: string, st: ScanState): ScanState
    requires s != ""
  {
    if Escapes(s, st) then st
    else if Closes(s, st) then Scanning(None, false, st.brackets)
    else if Opens(s, st) then Scanning(Some(s[0]), OpensMultiline(s), st.brackets)
    else if st.quote.Some? then st
    else if s[0] == '[' || s[0] == '{' then st.(brackets := st.brackets + 1)
    else if s[0] == ']' || s[0] == '}' then st.(brackets := st.brackets - 1)
    else st
  }

  function Scan(s: string, st: ScanState): ScanState
    decreases |s|
  {
    if s == "" || (st.quote.None? && s[0] == '#') then st
    else Scan(Drop(s, Width(s, st)), Next(s, st))
  }

  /** The state after a run of lines. */
  function After(lines: seq<string>, st: ScanState): ScanState {
    if lines == [] then st else After(lines[1..], Scan(lines[0], st))
  }

  function StateAt(lines: seq<string>, i: nat): ScanState
    requires i <= |lines|
  {
    After(lines[..i], INITIAL)
  }

  /** A line is a statement start when nothing is open above it. */
  predicate Starts(lines: seq<string>, i: nat)
    requires i <= |lines|
  {
    StateAt(lines, i).Clean()
  }

  lemma {:induction false} AfterConcat(a: seq<string>, b: seq<string>, st: ScanState)
    ensures After(a + b, st) == After(b, After(a, st))
  {
    if a == [] {
      assert a + b == b;
    } else {
      AfterConcat(a[1..], b, Scan(a[0], st));
      assert (a + b)[1..] == a[1..] + b;
    }
  }

  lemma StateAtNext(lines: seq<string>, i: nat)
    requires i < |lines|
    ensures StateAt(lines, i + 1) == Scan(lines[i], StateAt(lines, i))
  {
    assert lines[..i + 1] == lines[..i] + [lines[i]];
    AfterConcat(lines[..i], [lines[i]], INITIAL);
    assert After([lines[i]], StateAt(lines, i)) == After([], Scan(lines[i], StateAt(lines, i)));
  }

  /** No state says `multiline` outside a quote. */
  predicate Sane(st: ScanState) {
    st.quote.None? ==> !st.multiline
  }

  lemma {:induction false} ScanSane(s: string, st: ScanState)
    requires Sane(st)
    ensures Sane(Scan(s, st))
    decreases |s|
  {
    if s != "" {
      ScanSane(Drop(s, Width(s, st)), Next(s, st));
    }
  }

  lemma {:induction false} AfterSane(lines: seq<string>, st: ScanState)
    requires Sane(st)
    ensures Sane(After(lines, st))
  {
    if lines != [] {
      ScanSane(lines[0], st);
      AfterSane(lines[1..], Scan(lines[0], st));
    }
  }

  /** A clean line boundary is exactly the initial state. */
  lemma CleanIsInitial(lines: seq<string>, i: nat)
    requires i <= |lines|
    ensures Starts(lines, i) <==> StateAt(lines, i) == INITIAL
  {
    AfterSane(lines[..i], INITIAL);
  }

  // ----- text the statement scanner passes without changing state -----

  predicate IsPlainChar(c: char) {
    c != '#' && c != '"' && c != '\'' && c != '[' && c != ']' && c != '{' && c != '}'
  }

  predicate IsPlain(s: string) {
    forall i :: 0 <= i < |s| ==> IsPlainChar(s[i])
  }

  lemma {:induction false} ScanPlain(a: string, b: string, st: ScanState)
    requires IsPlain(a) && st.quote.None?
    ensures Scan(a + b, st) == Scan(b, st)
  {
    if a == "" {
      assert a + b == b;
    } else {
      ScanPlain(a[1..], b, st);
      ConsConcat(a, b);
      ScanQuiet(a[0], a[1..] + b, st);
    }
  }

  predicate IsQuotable(s: string) {
    forall i :: 0 <= i < |s| ==> s[i] != '"' && s[i] != '\\'
  }

  lemma ScanQuiet(c: char, b: string, st: ScanState)
    requires || (st.quote == Some('"') && !st.multiline && c != '"' && c != '\\')
             || (st.quote.None? && IsPlainChar(c))
    ensures Scan([c] + b, st) == Scan(b, st)
  {
  }

  lemma ConsConcat(a: string, b: string)
    requires a != ""
    ensures a + b == [a[0]] + (a[1..] + b)
  {
  }

  lemma {:induction false} ScanInside(a: string, b: string, st: ScanState)
    requires st.quote == Some('"') && !st.multiline && IsQuotable(a)
    ensures Scan(a + b, st) == Scan(b, st)
  {
    if a == "" {
      assert a + b == b;
    } else {
      ScanInside(a[1..], b, st);
      ConsConcat(a, b);
      ScanQuiet(a[0], a[1..] + b, st);
    }
  }

  /** An escaped character is two characters, the second hidden, and maybe four digits. */
  lemma EscapeShape(c: char)
    ensures var e := EscapeChar(c);
            || (|e| == 1 && IsQuotable(e))
            || (|e| >= 2 && e[0] == '\\' && IsQuotable(e[2..]))
  {
  }

  lemma ScanPair(e: string, b: string, st: ScanState)
    requires st.quote == Some('"') && !st.multiline && |e| >= 2 && e[0] == '\\'
    ensures Scan(e + b, st) == Scan(e[2..] + b, st)
  {
    assert Drop(e + b, 2) == e[2..] + b;
  }

  lemma ScanEscapedChar(c: char, b: string, st: ScanState)
    requires st.quote == Some('"') && !st.multiline
    ensures Scan(EscapeChar(c) + b, st) == Scan(b, st)
  {
    EscapeShape(c);
    var e := EscapeChar(c);
    if |e| == 1 {
      ScanInside(e, b, st);
    } else {
      ScanPair(e, b, st);
      ScanInside(e[2..], b, st);
    }
  }

  lemma {:induction false} ScanEscaped(s: string, b: string, st: ScanState)
    requires st.quote == Some('"') && !st.multiline
    ensures Scan(Escape(s) + b, st) == Scan(b, st)
  {
    if s == "" {
      assert Escape(s) + b == b;
    } else {
      ScanEscaped(s[1..], b, st);
      ScanEscapedChar(s[0], Escape(s[1..]) + b, st);
      Associates(EscapeChar(s[0]), Escape(s[1..]), b);
    }
  }

  lemma ScanQuoted(s: string, b: string, st: ScanState)
    requires st.quote.None? && Sane(st)
    requires b == "" || b[0] != '"'
    ensures Scan(Quoted(s) + b, st) == Scan(b, st)
  {
    var body := Escape(s) + ("\"" + b);
    var open := Scanning(Some('"'), false, st.brackets);
    QuotedAround(s, b);
    if s != "" {
      assert body[0] == EscapeChar(s[0])[0] != '"';
    }
    ScanOpen(body, st);
    ScanEscaped(s, "\"" + b, open);
    ScanClose(b, open);
  }

  lemma ScanOpen(body: string, st: ScanState)
    requires st.quote.None? && !(|body| > 1 && body[0] == '"' && body[1] == '"')
    ensures Scan("\"" + body, st) == Scan(body, Scanning(Some('"'), false, st.brackets))
  {
  }

  lemma ScanClose(b: string, st: ScanState)
    requires st.quote == Some('"') && !st.multiline
    ensures Scan("\"" + b, st) == Scan(b, Scanning(None, false, st.brackets))
  {
  }

  lemma NumberIsPlain(digits: NumberText)
    ensures IsPlain(digits)
  {
  }

  /** The scanner passes a printed value, unless another quote is glued to it. */
  lemma ScanRendered(r: string, b: string, st: ScanState)
    requires IsRendered(r) && st.quote.None? && Sane(st)
    requires b == "" || b[0] != '"'
    ensures Scan(r + b, st) == Scan(b, st)
  {
    var value :| Literal(value) == Ok(r);
    match value
    case JsonString(s) => ScanQuoted(s, b, st);
    case JsonNumber(digits) =>
      NumberIsPlain(digits);
      ScanPlain(r, b, st);
    case JsonOther =>
  }

  // ----- comments -----

  function Shift(n: nat, at: Option<nat>): Option<nat> {
    match at
    case Some(i) => Some(i + n)
    case None => None
  }

  /** The open quote and whether the next character is escaped, after `c`. */
  function Past(c: char, quote: Option<char>, escaped: bool): (Option<char>, bool) {
    if escaped then (quote, false)
    else if quote == Some('"') && c == '\\' then (quote, true)
    else if quote.Some? then (if quote.value == c then None else quote, false)
    else (if c == '"' || c == '\'' then Some(c) else None, false)
  }

  /** Where the comment of `s` starts, scanning from inside `quote`. */
  function CommentFrom(s: string, quote: Option<char>, escaped: bool): (at: Option<nat>)
    ensures at.Some? ==> at.value < |s| && s[at.value] == '#'
  {
    if s == "" then None
    else if quote.None? && !escaped && s[0] == '#' then Some(0)
    else
      var (quote', escaped') := Past(s[0], quote, escaped);
      Shift(1, CommentFrom(s[1..], quote', escaped'))
  }

  function CommentStart(s: string): Option<nat> {
    CommentFrom(s, None, false)
  }

  lemma {:induction false} CommentPastPlain(a: string, b: string)
    requires forall i :: 0 <= i < |a| ==> a[i] != '"' && a[i] != '\'' && a[i] != '#'
    ensures CommentStart(a + b) == Shift(|a|, CommentStart(b))
  {
    if a == "" {
      assert a + b == b;
    } else {
      CommentPastPlain(a[1..], b);
      assert (a + b)[1..] == a[1..] + b;
    }
  }

  lemma {:induction false} CommentInside(a: string, b: string)
    requires IsQuotable(a)
    ensures CommentFrom(a + b, Some('"'), false) == Shift(|a|, CommentFrom(b, Some('"'), false))
  {
    if a == "" {
      assert a + b == b;
    } else {
      CommentInside(a[1..], b);
      assert (a + b)[1..] == a[1..] + b;
    }
  }

  lemma CommentPastPair(e: string, b: string)
    requires |e| >= 2 && e[0] == '\\'
    ensures CommentFrom(e + b, Some('"'), false) == Shift(2, CommentFrom(e[2..] + b, Some('"'), false))
  {
    assert (e + b)[1..][1..] == e[2..] + b;
  }

  lemma CommentPastEscapedChar(c: char, b: string)
    ensures CommentFrom(EscapeChar(c) + b, Some('"'), false) == Shift(|EscapeChar(c)|, CommentFrom(b, Some('"'), false))
  {
    EscapeShape(c);
    var e := EscapeChar(c);
    if |e| == 1 {
      CommentInside(e, b);
    } else {
      CommentPastPair(e, b);
      CommentInside(e[2..], b);
    }
  }

  lemma {:induction false} CommentPastEscaped(s: string, b: string)
    ensures CommentFrom(Escape(s) + b, Some('"'), false) == Shift(|Escape(s)|, CommentFrom(b, Some('"'), false))
  {
    if s == "" {
      assert Escape(s) + b == b;
    } else {
      CommentPastEscaped(s[1..], b);
      CommentPastEscapedChar(s[0], Escape(s[1..]) + b);
      Associates(EscapeChar(s[0]), Escape(s[1..]), b);
    }
  }

  lemma CommentPastQuoted(s: string, b: string)
    ensures CommentStart(Quoted(s) + b) == Shift(|Escape(s)| + 2, CommentStart(b))
  {
    var n, rest := |Escape(s)|, "\"" + b;
    var body := Escape(s) + rest;
    var inBody, inRest := CommentFrom(body, Some('"'), false), CommentFrom(rest, Some('"'), false);
    assert CommentStart(Quoted(s) + b) == Shift(1, inBody) by {
      QuotedAround(s, b);
      CommentPastQuote(body, None);
    }
    assert inBody == Shift(n, inRest) by {
      CommentPastEscaped(s, rest);
    }
    assert inRest == Shift(1, CommentStart(b)) by {
      CommentPastQuote(b, Some('"'));
    }
  }

  lemma QuotedAround(s: string, b: string)
    ensures Quoted(s) + b == "\"" + (Escape(s) + ("\"" + b))
  {
  }

  lemma CommentPastQuote(b: string, quote: Option<char>)
    requires quote.None? || quote == Some('"')
    ensures CommentFrom("\"" + b, quote, false) ==
            Shift(1, CommentFrom(b, if quote.None? then Some('"') else None, false))
  {
  }

  /** No printed value hides a comment, and none is read into it. */
  lemma CommentPastRendered(r: string, b: string)
    requires IsRendered(r)
    ensures CommentStart(r + b) == Shift(|r|, CommentStart(b))
  {
    var value :| Literal(value) == Ok(r);
    match value
    case JsonString(s) => CommentPastQuoted(s, b);
    case JsonNumber(digits) =>
      forall i | 0 <= i < |r| ensures r[i] != '"' && r[i] != '\'' && r[i] != '#' { assert IsNumberChar(digits[i]); }
      CommentPastPlain(r, b);
    case JsonOther =>
  }

  // ----- the scanners as their loops run -----

  lemma ScanTurn(line: string, index: nat, st: ScanState)
    requires index < |line| && !(st.quote.None? && line[index] == '#')
    ensures Scan(Drop(line, index), st) ==
            Scan(Drop(line, index + Width(line[index..], st)), Next(line[index..], st))
  {
  }

  /** One turn of the inner loop of `statementStarts`. */
  method Turn(characters: string, index: nat, st: ScanState) returns (index': nat, st': ScanState)
    requires index < |characters| && !(st.quote.None? && characters[index] == '#')
    ensures index' == index + Width(characters[index..], st)
    ensures st' == Next(characters[index..], st)
  {
    var c := characters[index];
    index', st' := index + 1, st;
    if st.quote.Some? {
      var closing := st.quote.value;
      if closing == '"' && c == '\\' {
        return index + 2, st;
      }
      if c == closing {
        var end := RunEnd(characters, index + 1, closing);
        if !st.multiline || end - index >= 3 {
          return if st.multiline then end else index + 1, Scanning(None, false, st.brackets);
        }
      }
    } else if c == '"' || c == '\'' {
      var multiline := index + 2 < |characters| && characters[index + 1] == c && characters[index + 2] == c;
      return index + if multiline then 3 else 1, Scanning(Some(c), multiline, st.brackets);
    } else if c == '[' || c == '{' {
      st' := st.(brackets := st.brackets + 1);
    } else if c == ']' || c == '}' {
      st' := st.(brackets := st.brackets - 1);
    }
  }

  /** One line of `statementStarts`: its inner loop. */
  method ScanLine(characters: string, st: ScanState) returns (next: ScanState)
    ensures next == Scan(characters, st)
  {
    var index := 0;
    next := st;
    while index < |characters|
      invariant Scan(Drop(characters, index), next) == Scan(characters, st)
      decreases |characters| - index
    {
      if next.quote.None? && characters[index] == '#' {
        break;
      }
      ScanTurn(characters, index, next);
      index, next := Turn(characters, index, next);
    }
  }

  method RunEnd(characters: string, start: nat, closing: char) returns (end: nat)
    requires 1 <= start <= |characters| && characters[start - 1] == closing
    ensures start <= end <= |characters|
    ensures end - (start - 1) == RunLength(characters[start - 1..], closing)
  {
    end := start;
    while end < |characters| && characters[end] == closing
      invariant start <= end <= |characters|
      invariant RunLength(characters[start - 1..], closing) == end - (start - 1) + RunLength(characters[end..], closing)
    {
      end := end + 1;
    }
  }

  method StatementStarts(lines: seq<string>) returns (starts: set<nat>)
    ensures starts == set i: nat | i < |lines| && Starts(lines, i)
  {
    starts := {};
    var state := INITIAL;
    for number := 0 to |lines|
      invariant state == StateAt(lines, number)
      invariant starts == set i: nat | i < number && Starts(lines, i)
    {
      if state.Clean() {
        starts := starts + {number};
      }
      StateAtNext(lines, number);
      state := ScanLine(lines[number], state);
    }
  }

  lemma CommentTurn(text: string, index: nat, quote: Option<char>, escaped: bool)
    requires index < |text| && !(quote.None? && !escaped && text[index] == '#')
    ensures var (quote', escaped') := Past(text[index], quote, escaped);
            Shift(index, CommentFrom(text[index..], quote, escaped)) ==
            Shift(index + 1, CommentFrom(text[index + 1..], quote', escaped'))
  {
  }

  method FindComment(text: string) returns (at: Option<nat>)
    ensures at == CommentStart(text)
  {
    var quote: Option<char> := None;
    var escaped := false;
    for index := 0 to |text|
      invariant CommentStart(text) == Shift(index, CommentFrom(text[index..], quote, escaped))
    {
      var c := text[index];
      if escaped {
        CommentTurn(text, index, quote, escaped);
        escaped := false;
        continue;
      }
      if quote.None? && c == '#' {
        return Some(index);
      }
      CommentTurn(text, index, quote, escaped);
      if quote == Some('"') && c == '\\' {
        escaped := true;
        continue;
      }
      if quote.Some? {
        if c == quote.value {
          quote := None;
        }
      } else if c == '"' || c == '\'' {
        quote := Some(c);
      }
    }
    return None;
  }
}
