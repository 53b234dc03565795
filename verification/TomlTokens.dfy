/** What the two scanners make of a line, said of its tokens: brackets and braces open and close,
    a string is passed over whole, a comment ends it, and a string that is not closed stays open. */
module TomlTokens {
  import opened Basics
  import opened Text
  import opened TomlScan

  datatype Token = Other(c: char) | Opening(c: char) | Closing(c: char) | Quotation(quote: char, body: string)

  /** Nothing in the body closes the string: in a basic one, a backslash hides what is after it. */
  predicate IsBody(quote: char, body: string)
    decreases |body|
  {
    body == "" ||
    if quote == '"' && body[0] == '\\' then |body| >= 2 && IsBody(quote, body[2..])
    else body[0] != quote && IsBody(quote, body[1..])
  }

  predicate IsToken(t: Token) {
    match t
    case Opening(c) => c == '[' || c == '{'
    case Closing(c) => c == ']' || c == '}'
    case Quotation(quote, body) => (quote == '"' || quote == '\'') && IsBody(quote, body)
    case Other(c) => c !in "#\"'[]{}"
  }

  function TokenText(t: Token): string {
    match t
    case Quotation(quote, body) => [quote] + (body + [quote])
    case _ => [t.c]
  }

  predicate AreTokens(ts: seq<Token>) {
    forall i :: 0 <= i < |ts| ==> IsToken(ts[i])
  }

  function TokensText(ts: seq<Token>): string {
    if ts == [] then "" else TokenText(ts[0]) + TokensText(ts[1..])
  }

  /** How many more brackets and braces are open after the tokens. */
  function Depth(ts: seq<Token>): int {
    if ts == [] then 0
    else (match ts[0] case Opening(_) => 1 case Closing(_) => -1 case _ => 0) + Depth(ts[1..])
  }

  /** An empty string with its quote right after it would be three quotes, which open a longer one. */
  predicate Apart(t: Token, rest: string) {
    t.Quotation? && t.body == "" ==> rest == "" || rest[0] != t.quote
  }

  predicate AllApart(ts: seq<Token>, rest: string) {
    ts == [] || (Apart(ts[0], TokensText(ts[1..]) + rest) && AllApart(ts[1..], rest))
  }

  // ----- the statement scanner -----

  function Inside(quote: char, st: ScanState): ScanState {
    Scanning(Some(quote), false, st.brackets)
  }

  lemma QuoteOpens(quote: char, s: string, st: ScanState)
    requires (quote == '"' || quote == '\'') && st.quote.None?
    requires !(|s| > 1 && s[0] == quote && s[1] == quote)
    ensures Scan([quote] + s, st) == Scan(s, Inside(quote, st))
  {
  }

  lemma QuoteCloses(quote: char, s: string, st: ScanState)
    requires quote == '"' || quote == '\''
    ensures Scan([quote] + s, Inside(quote, st)) == Scan(s, Scanning(None, false, st.brackets))
  {
  }

  lemma OneInside(quote: char, c: char, s: string, st: ScanState)
    requires (quote == '"' || quote == '\'') && c != quote && !(quote == '"' && c == '\\')
    ensures Scan([c] + s, Inside(quote, st)) == Scan(s, Inside(quote, st))
  {
  }

  lemma {:induction false} BodyPassed(quote: char, body: string, s: string, st: ScanState)
    requires (quote == '"' || quote == '\'') && IsBody(quote, body)
    ensures Scan(body + s, Inside(quote, st)) == Scan(s, Inside(quote, st))
    decreases |body|
  {
    if body == "" {
      assert body + s == s;
    } else if quote == '"' && body[0] == '\\' {
      BodyPassed(quote, body[2..], s, st);
      ScanPair(body, s, Inside(quote, st));
    } else {
      BodyPassed(quote, body[1..], s, st);
      ConsConcat(body, s);
      OneInside(quote, body[0], body[1..] + s, st);
    }
  }

  lemma QuotationPassed(quote: char, body: string, rest: string, st: ScanState)
    requires (quote == '"' || quote == '\'') && IsBody(quote, body) && st.quote.None? && Sane(st)
    requires body == "" ==> rest == "" || rest[0] != quote
    ensures Scan([quote] + (body + ([quote] + rest)), st) == Scan(rest, st)
  {
    var closing := [quote] + rest;
    QuoteOpens(quote, body + closing, st);
    BodyPassed(quote, body, closing, st);
    QuoteCloses(quote, rest, st);
  }

  function Deeper(st: ScanState, n: int): ScanState {
    st.(brackets := st.brackets + n)
  }

  lemma OnePassed(c: char, rest: string, st: ScanState)
    requires st.quote.None? && c != '#' && c != '"' && c != '\''
    ensures Scan([c] + rest, st) ==
            Scan(rest, Deeper(st, if c == '[' || c == '{' then 1 else if c == ']' || c == '}' then -1 else 0))
  {
    var s := [c] + rest;
    assert Width(s, st) == 1 && Drop(s, 1) == rest;
  }

  lemma DepthOne(t: Token)
    ensures Depth([t]) == match t case Opening(_) => 1 case Closing(_) => -1 case _ => 0
  {
    assert [t][1..] == [] && Depth([]) == 0;
  }

  lemma TokenPassed(t: Token, rest: string, st: ScanState)
    requires IsToken(t) && Apart(t, rest) && st.quote.None? && Sane(st)
    ensures Scan(TokenText(t) + rest, st) == Scan(rest, Deeper(st, Depth([t])))
  {
    DepthOne(t);
    if t.Quotation? {
      QuotationRegroup(t.quote, t.body, rest);
      QuotationPassed(t.quote, t.body, rest, st);
    } else {
      OnePassed(t.c, rest, st);
    }
  }

  lemma QuotationRegroup(quote: char, body: string, rest: string)
    ensures [quote] + (body + [quote]) + rest == [quote] + (body + ([quote] + rest))
  {
  }

  lemma FirstPassed(ts: seq<Token>, rest: string, st: ScanState)
    requires ts != [] && IsToken(ts[0]) && Apart(ts[0], TokensText(ts[1..]) + rest) && st.quote.None? && Sane(st)
    ensures Scan(TokensText(ts) + rest, st) == Scan(TokensText(ts[1..]) + rest, Deeper(st, Depth([ts[0]])))
    ensures Deeper(Deeper(st, Depth([ts[0]])), Depth(ts[1..])) == Deeper(st, Depth(ts))
  {
    Associates(TokenText(ts[0]), TokensText(ts[1..]), rest);
    TokenPassed(ts[0], TokensText(ts[1..]) + rest, st);
    DepthSplit(ts);
  }

  /** The scanner passes tokens, and counts what they open and close. */
  lemma {:induction false} TokensPassed(ts: seq<Token>, rest: string, st: ScanState)
    requires AreTokens(ts) && AllApart(ts, rest) && st.quote.None? && Sane(st)
    ensures Scan(TokensText(ts) + rest, st) == Scan(rest, Deeper(st, Depth(ts)))
    decreases |ts|
  {
    if ts == [] {
      assert TokensText(ts) + rest == rest;
    } else {
      FirstPassed(ts, rest, st);
      TokensPassed(ts[1..], rest, Deeper(st, Depth([ts[0]])));
    }
  }

  lemma DepthSplit(ts: seq<Token>)
    requires ts != []
    ensures Depth(ts) == Depth([ts[0]]) + Depth(ts[1..])
  {
    assert [ts[0]][1..] == [] && Depth([]) == 0;
  }

  /** So a line of tokens, with a comment or without, leaves nothing open exactly when it closes as
      many brackets and braces as it opens. */
  lemma BalancedIsClean(ts: seq<Token>, comment: string)
    requires AreTokens(ts) && AllApart(ts, comment) && (comment == "" || comment[0] == '#')
    ensures Scan(TokensText(ts) + comment, INITIAL) == Scanning(None, false, Depth(ts))
    ensures Scan(TokensText(ts) + comment, INITIAL).Clean() <==> Depth(ts) == 0
  {
    TokensPassed(ts, comment, INITIAL);
  }

  lemma OpenAtEnd(quote: char, body: string, st: ScanState)
    requires (quote == '"' || quote == '\'') && IsBody(quote, body) && st.quote.None?
    ensures Scan([quote] + body, st) == Inside(quote, st)
  {
    QuoteOpens(quote, body, st);
    BodyPassed(quote, body, "", st);
    assert body + "" == body;
  }

  /** A string that its line does not close is open below it. */
  lemma UnclosedStaysOpen(ts: seq<Token>, quote: char, body: string)
    requires AreTokens(ts) && (quote == '"' || quote == '\'') && IsBody(quote, body)
    requires AllApart(ts, [quote] + body)
    ensures Scan(TokensText(ts) + ([quote] + body), INITIAL) == Scanning(Some(quote), false, Depth(ts))
  {
    TokensPassed(ts, [quote] + body, INITIAL);
    OpenAtEnd(quote, body, Deeper(INITIAL, Depth(ts)));
  }

  // ----- strings over several lines -----

  function Within(quote: char, st: ScanState): ScanState {
    Scanning(Some(quote), true, st.brackets)
  }

  /** No three quotes in a row in the body, hidden ones aside, and none at its end. */
  predicate IsLongBody(quote: char, body: string)
    decreases |body|
  {
    body == "" ||
    if quote == '"' && body[0] == '\\' then |body| >= 2 && IsLongBody(quote, body[2..])
    else
      && (body[0] == quote ==> RunLength(body, quote) < 3 && RunLength(body, quote) < |body|)
      && IsLongBody(quote, body[1..])
  }

  /** Three quotes open a string that only three or more of them close. */
  lemma LongOpens(quote: char, s: string, st: ScanState)
    requires (quote == '"' || quote == '\'') && st.quote.None?
    ensures Scan([quote, quote, quote] + s, st) == Scan(s, Within(quote, st))
  {
    assert Drop([quote, quote, quote] + s, 3) == s;
  }

  function Quotes(quote: char, n: nat): (r: string)
    ensures |r| == n && forall i :: 0 <= i < n ==> r[i] == quote
  {
    seq(n, i => quote)
  }

  lemma {:induction false} RunOfQuotes(quote: char, a: string, rest: string)
    requires (forall i :: 0 <= i < |a| ==> a[i] == quote) && (rest == "" || rest[0] != quote)
    ensures RunLength(a + rest, quote) == |a|
    decreases |a|
  {
    if a == "" {
      assert a + rest == rest;
    } else {
      assert (a + rest)[1..] == a[1..] + rest;
      RunOfQuotes(quote, a[1..], rest);
    }
  }

  lemma LongCloses(quote: char, n: nat, s: string, st: ScanState)
    requires (quote == '"' || quote == '\'') && n >= 3 && (s == "" || s[0] != quote)
    ensures Scan(Quotes(quote, n) + s, Within(quote, st)) == Scan(s, Scanning(None, false, st.brackets))
  {
    var whole := Quotes(quote, n) + s;
    RunOfQuotes(quote, Quotes(quote, n), s);
    assert whole[0] == quote && Drop(whole, n) == s;
  }

  lemma {:induction false} RunWithin(quote: char, body: string, s: string)
    requires body != "" && RunLength(body, quote) < |body|
    ensures RunLength(body + s, quote) == RunLength(body, quote)
    decreases |body|
  {
    if body[0] == quote {
      assert (body + s)[1..] == body[1..] + s;
      RunWithin(quote, body[1..], s);
    }
  }

  lemma OneWithin(quote: char, s: string, st: ScanState)
    requires (quote == '"' || quote == '\'') && s != "" && !(quote == '"' && s[0] == '\\')
    requires s[0] == quote ==> RunLength(s, quote) < 3
    ensures Scan(s, Within(quote, st)) == Scan(s[1..], Within(quote, st))
  {
  }

  lemma PairWithin(s: string, st: ScanState)
    requires |s| >= 2 && s[0] == '\\'
    ensures Scan(s, Within('"', st)) == Scan(s[2..], Within('"', st))
  {
  }

  lemma LongOne(quote: char, body: string, s: string, st: ScanState)
    requires (quote == '"' || quote == '\'') && body != "" && !(quote == '"' && body[0] == '\\')
    requires body[0] == quote ==> RunLength(body, quote) < 3 && RunLength(body, quote) < |body|
    ensures Scan(body + s, Within(quote, st)) == Scan(body[1..] + s, Within(quote, st))
  {
    if body[0] == quote {
      RunWithin(quote, body, s);
    }
    OneWithin(quote, body + s, st);
    assert (body + s)[1..] == body[1..] + s;
  }

  lemma LongPair(body: string, s: string, st: ScanState)
    requires |body| >= 2 && body[0] == '\\'
    ensures Scan(body + s, Within('"', st)) == Scan(body[2..] + s, Within('"', st))
  {
    PairWithin(body + s, st);
    assert (body + s)[2..] == body[2..] + s;
  }

  /** One turn within: an escape and what it hides, or one character. */
  lemma LongStep(quote: char, body: string, s: string, st: ScanState) returns (k: nat)
    requires (quote == '"' || quote == '\'') && IsLongBody(quote, body) && body != ""
    ensures 1 <= k <= |body| && IsLongBody(quote, body[k..])
    ensures Scan(body + s, Within(quote, st)) == Scan(body[k..] + s, Within(quote, st))
  {
    if quote == '"' && body[0] == '\\' {
      k := 2;
      LongPair(body, s, st);
    } else {
      k := 1;
      LongOne(quote, body, s, st);
    }
  }

  /** Inside such a string nothing else counts: no bracket, no comment, no shorter run of quotes. */
  lemma {:induction false} LongBodyPassed(quote: char, body: string, s: string, st: ScanState)
    requires (quote == '"' || quote == '\'') && IsLongBody(quote, body)
    ensures Scan(body + s, Within(quote, st)) == Scan(s, Within(quote, st))
    decreases |body|
  {
    if body == "" {
      assert body + s == s;
    } else {
      var k := LongStep(quote, body, s, st);
      LongBodyPassed(quote, body[k..], s, st);
    }
  }

  // ----- the comment of a line -----

  lemma ShiftTwice(n: nat, m: nat, at: Option<nat>)
    ensures Shift(n, Shift(m, at)) == Shift(n + m, at)
  {
  }

  lemma InsideStep(quote: char, c: char, s: string)
    requires (quote == '"' || quote == '\'') && c != quote && !(quote == '"' && c == '\\')
    ensures CommentFrom([c] + s, Some(quote), false) == Shift(1, CommentFrom(s, Some(quote), false))
  {
    assert ([c] + s)[1..] == s;
  }

  lemma QuoteStep(quote: char, s: string)
    requires quote == '"' || quote == '\''
    ensures CommentFrom([quote] + s, None, false) == Shift(1, CommentFrom(s, Some(quote), false))
    ensures CommentFrom([quote] + s, Some(quote), false) == Shift(1, CommentFrom(s, None, false))
  {
    assert ([quote] + s)[1..] == s;
  }

  lemma BodyStep(quote: char, body: string, s: string) returns (k: nat)
    requires (quote == '"' || quote == '\'') && IsBody(quote, body) && body != ""
    ensures 1 <= k <= |body| && IsBody(quote, body[k..])
    ensures CommentFrom(body + s, Some(quote), false) == Shift(k, CommentFrom(body[k..] + s, Some(quote), false))
  {
    if quote == '"' && body[0] == '\\' {
      k := 2;
      CommentPastPair(body, s);
    } else {
      k := 1;
      ConsConcat(body, s);
      InsideStep(quote, body[0], body[1..] + s);
    }
  }

  lemma {:induction false} BodyNoComment(quote: char, body: string, s: string)
    requires (quote == '"' || quote == '\'') && IsBody(quote, body)
    ensures CommentFrom(body + s, Some(quote), false) == Shift(|body|, CommentFrom(s, Some(quote), false))
    decreases |body|
  {
    if body == "" {
      assert body + s == s;
    } else {
      var k := BodyStep(quote, body, s);
      BodyNoComment(quote, body[k..], s);
      ShiftTwice(k, |body| - k, CommentFrom(s, Some(quote), false));
    }
  }

  lemma QuotationNoComment(quote: char, body: string, rest: string, n: nat)
    requires (quote == '"' || quote == '\'') && IsBody(quote, body) && n == |body|
    ensures CommentStart([quote] + (body + ([quote] + rest))) == Shift(n + 2, CommentStart(rest))
  {
    var closing := [quote] + rest;
    QuoteStep(quote, body + closing);
    BodyNoComment(quote, body, closing);
    QuoteStep(quote, rest);
    ShiftTwice(n, 1, CommentStart(rest));
    ShiftTwice(1, n + 1, CommentStart(rest));
  }

  lemma OtherStep(c: char, rest: string)
    requires c != '#' && c != '"' && c != '\''
    ensures CommentStart([c] + rest) == Shift(1, CommentStart(rest))
  {
    assert ([c] + rest)[1..] == rest;
  }

  lemma TokenNoComment(t: Token, rest: string)
    requires IsToken(t)
    ensures CommentStart(TokenText(t) + rest) == Shift(|TokenText(t)|, CommentStart(rest))
  {
    if t.Quotation? {
      assert TokenText(t) + rest == [t.quote] + (t.body + ([t.quote] + rest));
      QuotationNoComment(t.quote, t.body, rest, |t.body|);
    } else {
      OtherStep(t.c, rest);
    }
  }

  /** No comment begins in a token. */
  lemma {:induction false} TokensNoComment(ts: seq<Token>, rest: string)
    requires AreTokens(ts)
    ensures CommentStart(TokensText(ts) + rest) == Shift(|TokensText(ts)|, CommentStart(rest))
    decreases |ts|
  {
    if ts == [] {
      assert TokensText(ts) + rest == rest;
      ShiftNone(CommentStart(rest));
    } else {
      Associates(TokenText(ts[0]), TokensText(ts[1..]), rest);
      TokenNoComment(ts[0], TokensText(ts[1..]) + rest);
      TokensNoComment(ts[1..], rest);
      ShiftTwice(|TokenText(ts[0])|, |TokensText(ts[1..])|, CommentStart(rest));
    }
  }

  lemma ShiftNone(at: Option<nat>)
    ensures Shift(0, at) == at
  {
  }

  /** A string that is not closed: its last backslash may have nothing to hide. */
  predicate IsUnclosed(stop: string) {
    stop != "" && (stop[0] == '"' || stop[0] == '\'') &&
    (IsBody(stop[0], stop[1..]) ||
     (stop[0] == '"' && stop[|stop| - 1] == '\\' && |stop| > 1 && IsBody('"', stop[1..|stop| - 1])))
  }

  /** Where the tokens of a line end: at its end, at a comment, or in a string it does not close. */
  predicate Stops(stop: string) {
    stop == "" || stop[0] == '#' || IsUnclosed(stop)
  }

  lemma {:induction false} InBody(quote: char, s: string) returns (body: string, rest: string)
    requires quote == '"' || quote == '\''
    ensures IsBody(quote, body) && s == body + rest
    ensures rest == "" || rest[0] == quote || (quote == '"' && rest == "\\")
    decreases |s|
  {
    if s == "" || s[0] == quote || (quote == '"' && s == "\\") {
      body, rest := "", s;
    } else if quote == '"' && s[0] == '\\' {
      var more;
      more, rest := InBody(quote, s[2..]);
      body := s[..2] + more;
      assert body[2..] == more && s == s[..2] + s[2..];
    } else {
      var more;
      more, rest := InBody(quote, s[1..]);
      body := [s[0]] + more;
      assert body[1..] == more && s == [s[0]] + s[1..];
    }
  }

  lemma UnclosedAt(quote: char, body: string, rest: string)
    requires (quote == '"' || quote == '\'') && IsBody(quote, body) && (rest == "" || (quote == '"' && rest == "\\"))
    ensures IsUnclosed([quote] + (body + rest))
  {
    var stop := [quote] + (body + rest);
    if rest == "" {
      assert stop[1..] == body;
    } else {
      assert stop[1..|stop| - 1] == body;
    }
  }

  /** The first token of a line that does not stop at once. */
  lemma FirstToken(s: string) returns (t: Token, rest: string)
    requires !Stops(s)
    ensures IsToken(t) && s == TokenText(t) + rest && |rest| < |s|
  {
    if s[0] == '"' || s[0] == '\'' {
      var body;
      body, rest := InBody(s[0], s[1..]);
      assert s == [s[0]] + (body + rest);
      if rest == "" || (s[0] == '"' && rest == "\\") {
        UnclosedAt(s[0], body, rest);
      }
      t, rest := Quotation(s[0], body), rest[1..];
      assert s == TokenText(t) + rest;
    } else {
      t := if s[0] == '[' || s[0] == '{' then Opening(s[0])
           else if s[0] == ']' || s[0] == '}' then Closing(s[0]) else Other(s[0]);
      rest := s[1..];
    }
  }

  /** Every line is tokens up to where they stop. */
  lemma {:induction false} InTokens(s: string) returns (ts: seq<Token>, stop: string)
    ensures AreTokens(ts) && s == TokensText(ts) + stop && Stops(stop)
    decreases |s|
  {
    if Stops(s) {
      ts, stop := [], s;
    } else {
      var t, rest := FirstToken(s);
      var more;
      more, stop := InTokens(rest);
      ts := [t] + more;
      assert ts[1..] == more;
      Associates(TokenText(t), TokensText(more), stop);
    }
  }

  lemma UnclosedNoComment(stop: string)
    requires IsUnclosed(stop)
    ensures CommentStart(stop) == None
  {
    var quote := stop[0];
    var body := if IsBody(quote, stop[1..]) then stop[1..] else stop[1..|stop| - 1];
    var rest := stop[1 + |body|..];
    assert stop == [quote] + (body + rest);
    QuoteStep(quote, body + rest);
    BodyNoComment(quote, body, rest);
    if rest != "" {
      assert rest == "\\" && rest[1..] == "";
    }
  }

  lemma StopComment(stop: string)
    requires Stops(stop)
    ensures CommentStart(stop) == if stop != "" && stop[0] == '#' then Some(0) else None
  {
    if IsUnclosed(stop) {
      UnclosedNoComment(stop);
    }
  }

  lemma HashBeginsComment(line: string, ts: seq<Token>, comment: string)
    requires AreTokens(ts) && line == TokensText(ts) + comment && comment != "" && comment[0] == '#'
    ensures CommentStart(line) == Some(|TokensText(ts)|)
  {
    TokensNoComment(ts, comment);
    StopComment(comment);
  }

  lemma CommentAfterTokens(line: string) returns (ts: seq<Token>, stop: string)
    ensures AreTokens(ts) && line == TokensText(ts) + stop
    ensures CommentStart(line) == if stop != "" && stop[0] == '#' then Some(|TokensText(ts)|) else None
  {
    ts, stop := InTokens(line);
    TokensNoComment(ts, stop);
    StopComment(stop);
  }

  /** The text before `i` is tokens, so no string is open there. */
  ghost predicate TokensBefore(line: string, i: nat) {
    i <= |line| && exists ts :: AreTokens(ts) && line[..i] == TokensText(ts)
  }

  lemma CommentThere(line: string, i: nat)
    requires CommentStart(line) == Some(i)
    ensures i < |line| && line[i] == '#' && TokensBefore(line, i)
  {
    var ts, stop := CommentAfterTokens(line);
    assert line[..i] == TokensText(ts);
  }

  lemma CommentHere(line: string, i: nat)
    requires i < |line| && line[i] == '#' && TokensBefore(line, i)
    ensures CommentStart(line) == Some(i)
  {
    var ts :| AreTokens(ts) && line[..i] == TokensText(ts);
    assert line == TokensText(ts) + line[i..];
    HashBeginsComment(line, ts, line[i..]);
  }

  /** A comment begins at the first `#` that no string holds; there is none where every `#` is in
      one, be it that it is not closed. */
  lemma CommentExactly(line: string, i: nat)
    ensures CommentStart(line) == Some(i) <==> i < |line| && line[i] == '#' && TokensBefore(line, i)
  {
    if CommentStart(line) == Some(i) {
      CommentThere(line, i);
    }
    if i < |line| && line[i] == '#' && TokensBefore(line, i) {
      CommentHere(line, i);
    }
  }
}
