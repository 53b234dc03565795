/** Result types, and the string operations the text editors share. A string is a
    sequence of Unicode scalar values. */
module Text {

  datatype Option<+T> = None | Some(value: T)

  datatype Result<+T, +E> = Ok(value: T) | Err(error: E)

  /** `.whitespaces`: general category Zs, and the tab. */
  predicate IsBlank(c: char) {
    var n := c as int;
    || n == 0x09 || n == 0x20 || n == 0xA0 || n == 0x1680 || 0x2000 <= n <= 0x200A
    || n == 0x202F || n == 0x205F || n == 0x3000
  }

  /** The wider White_Space property: the blanks and every line separator. */
  predicate IsWhite(c: char) {
    var n := c as int;
    IsBlank(c) || 0x0A <= n <= 0x0D || n == 0x85 || n == 0x2028 || n == 0x2029
  }

  predicate AllBlank(s: string) {
    forall i :: 0 <= i < |s| ==> IsBlank(s[i])
  }

  predicate AllWhite(s: string) {
    forall i :: 0 <= i < |s| ==> IsWhite(s[i])
  }

  function TrimStart(s: string): string {
    if s != "" && IsBlank(s[0]) then TrimStart(s[1..]) else s
  }

  function TrimEnd(s: string): string {
    if s != "" && IsBlank(s[|s| - 1]) then TrimEnd(s[..|s| - 1]) else s
  }

  function Trim(s: string): string {
    TrimEnd(TrimStart(s))
  }

  /** The first position of `c`, or the length when there is none. */
  function IndexOf(s: string, c: char): (i: nat)
    ensures i <= |s|
    ensures c !in s[..i]
    ensures i < |s| ==> s[i] == c
    ensures i < |s| <==> c in s
  {
    if s == "" || s[0] == c then 0 else 1 + IndexOf(s[1..], c)
  }

  /** The pieces between newlines: one more than there are newlines. */
  function Split(s: string): (lines: seq<string>)
    ensures lines != []
  {
    if s == "" then [""]
    else
      var rest := Split(s[1..]);
      if s[0] == '\n' then [""] + rest else [[s[0]] + rest[0]] + rest[1..]
  }

  function Join(lines: seq<string>): string {
    if lines == [] then ""
    else if |lines| == 1 then lines[0]
    else lines[0] + "\n" + Join(lines[1..])
  }

  predicate OneLine(s: string) {
    '\n' !in s
  }

  predicate AllOneLine(lines: seq<string>) {
    forall i :: 0 <= i < |lines| ==> OneLine(lines[i])
  }

  lemma {:induction false} SplitIsOneLine(s: string)
    ensures AllOneLine(Split(s))
  {
    if s != "" {
      SplitIsOneLine(s[1..]);
    }
  }

  /** Cutting a text into lines and joining them again loses nothing. */
  lemma {:induction false} JoinSplit(s: string)
    ensures Join(Split(s)) == s
  {
    if s != "" {
      JoinSplit(s[1..]);
      var rest := Split(s[1..]);
      if s[0] == '\n' {
        assert ([""] + rest)[1..] == rest;
      } else {
        assert ([[s[0]] + rest[0]] + rest[1..])[1..] == rest[1..];
      }
    }
  }

  lemma {:induction false} SplitOneLine(s: string)
    requires OneLine(s)
    ensures Split(s) == [s]
  {
    if s != "" {
      SplitOneLine(s[1..]);
      assert [s[0]] + s[1..] == s;
    }
  }

  lemma {:induction false} SplitAtNewline(a: string, b: string)
    ensures Split(a + "\n" + b) == Split(a) + Split(b)
  {
    if a == "" {
      assert (a + "\n" + b)[1..] == b;
    } else {
      SplitAtNewline(a[1..], b);
      assert a + "\n" + b == [a[0]] + (a[1..] + "\n" + b);
      assert a == [a[0]] + a[1..];
      SplitCons(a[0], a[1..] + "\n" + b, Split(a[1..]), Split(b));
    }
  }

  lemma SplitCons(c: char, s: string, first: seq<string>, second: seq<string>)
    requires first != [] && Split(s) == first + second
    ensures Split([c] + s) == (if c == '\n' then [""] + first else [[c] + first[0]] + first[1..]) + second
  {
  }

  /** Joining lines and cutting the text again gives the same lines. */
  lemma {:induction false} SplitJoin(lines: seq<string>)
    requires lines != [] && AllOneLine(lines)
    ensures Split(Join(lines)) == lines
  {
    SplitOneLine(lines[0]);
    if |lines| > 1 {
      SplitJoin(lines[1..]);
      SplitAtNewline(lines[0], Join(lines[1..]));
    }
  }

  // ----- trimming -----

  lemma {:induction false} TrimStartSkips(a: string, b: string)
    requires AllBlank(a)
    ensures TrimStart(a + b) == TrimStart(b)
  {
    if a == "" {
      assert a + b == b;
    } else {
      TrimStartSkips(a[1..], b);
      assert (a + b)[1..] == a[1..] + b;
    }
  }

  lemma {:induction false} TrimEndSkips(a: string, b: string)
    requires AllBlank(b)
    ensures TrimEnd(a + b) == TrimEnd(a)
  {
    if b == "" {
      assert a + b == a;
    } else {
      var c := a + b;
      TrimEndSkips(a, b[..|b| - 1]);
      assert c[..|c| - 1] == a + b[..|b| - 1];
    }
  }

  /** The leading blanks of `s`, and what follows them. */
  lemma {:induction false} TrimStartParts(s: string) returns (lead: string)
    ensures AllBlank(lead) && s == lead + TrimStart(s)
    ensures TrimStart(s) == "" || !IsBlank(TrimStart(s)[0])
  {
    if s != "" && IsBlank(s[0]) {
      var more := TrimStartParts(s[1..]);
      lead := [s[0]] + more;
    } else {
      lead := "";
    }
  }

  lemma {:induction false} TrimEndParts(s: string) returns (tail: string)
    ensures AllBlank(tail) && s == TrimEnd(s) + tail
    ensures TrimEnd(s) == "" || !IsBlank(TrimEnd(s)[|TrimEnd(s)| - 1])
  {
    if s != "" && IsBlank(s[|s| - 1]) {
      var more := TrimEndParts(s[..|s| - 1]);
      tail := more + [s[|s| - 1]];
    } else {
      tail := "";
    }
  }

  /** What trimming takes away, and that nothing is left to take. */
  lemma BlanksAround(s: string) returns (lead: string, tail: string)
    ensures AllBlank(lead) && AllBlank(tail) && s == lead + Trim(s) + tail
    ensures Trim(s) == "" || (!IsBlank(Trim(s)[0]) && !IsBlank(Trim(s)[|Trim(s)| - 1]))
  {
    lead := TrimStartParts(s);
    tail := TrimEndParts(TrimStart(s));
    if Trim(s) != "" {
      assert Trim(s)[0] == TrimStart(s)[0];
    }
  }

  /** A text that neither begins nor ends with a blank is its own trimming. */
  lemma TrimTight(s: string)
    requires s == "" || (!IsBlank(s[0]) && !IsBlank(s[|s| - 1]))
    ensures Trim(s) == s
  {
  }

  /** Blanks around a text are all that trimming takes away. */
  lemma TrimAround(a: string, b: string, c: string)
    requires AllBlank(a) && AllBlank(c)
    ensures Trim(a + b + c) == Trim(b)
  {
    assert a + b + c == a + (b + c);
    TrimStartSkips(a, b + c);
    var lead := TrimStartParts(b);
    assert b + c == lead + (TrimStart(b) + c);
    TrimStartSkips(lead, TrimStart(b) + c);
    if TrimStart(b) == "" {
      assert TrimStart(b) + c == c;
      var all := c + "";
      assert all == c;
      TrimStartSkips(c, "");
    } else {
      assert TrimStart(TrimStart(b) + c) == TrimStart(b) + c;
      TrimEndSkips(TrimStart(b), c);
    }
  }

  /** A blank-free start survives trimming whatever follows it. */
  lemma TrimKeepsHead(a: string, b: string)
    requires a != "" && !IsBlank(a[0]) && !IsBlank(a[|a| - 1])
    ensures exists x :: Trim(a + b) == a + x
  {
    assert TrimStart(a + b) == a + b;
    TrimEndKeepsHead(a, b);
  }

  lemma {:induction false} TrimEndKeepsHead(a: string, b: string)
    requires a != "" && !IsBlank(a[|a| - 1])
    ensures exists x :: TrimEnd(a + b) == a + x
  {
    if b != "" && IsBlank(b[|b| - 1]) {
      TrimEndKeepsHead(a, b[..|b| - 1]);
      assert (a + b)[..|a + b| - 1] == a + b[..|b| - 1];
    } else {
      assert TrimEnd(a + b) == a + b;
    }
  }
}
