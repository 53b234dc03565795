/** codex's cut of a text to a budget of tokens, a token being four bytes of UTF-8, rounded up.
    Offsets are byte offsets; beside each stands the character it is the start of. */
module CodexTruncate {
  import opened Basics

  const BYTES_PER_TOKEN := 4
  const BUDGET_TOKENS := 1_000

  /** The length of a character in UTF-8. */
  function Width(c: char): (w: nat)
    ensures 1 <= w <= 4
  {
    var n := c as int;
    if n < 0x80 then 1 else if n < 0x800 then 2 else if n < 0x1_0000 then 3 else 4
  }

  /** The length of a text in UTF-8. */
  function Size(text: string): nat {
    if text == "" then 0 else Size(text[..|text| - 1]) + Width(text[|text| - 1])
  }

  function CeilingQuarter(bytes: int): int {
    -(-bytes / BYTES_PER_TOKEN)
  }

  function Tokens(text: string): (n: nat)
    ensures 4 * n - 3 <= Size(text) <= 4 * n
  {
    CeilingQuarter(Size(text))
  }

  function Digits(n: nat): string {
    if n < 10 then [Digit(n)] else Digits(n / 10) + [Digit(n % 10)]
  }

  function Digit(n: nat): char
    requires n < 10
  {
    ('0' as int + n) as char
  }

  function Marker(removed: nat): string {
    "\U{2026}" + Digits(removed) + " tokens truncated\U{2026}"
  }

  // ----- where the cuts are -----

  /** How many characters from the start fit into `room` bytes. */
  function FitStart(text: string, room: int): (p: nat)
    ensures p <= |text|
  {
    if text == "" then 0
    else if Size(text) <= room then |text|
    else FitStart(text[..|text| - 1], room)
  }

  /** Where the characters begin that fit at the end into `room` bytes. */
  function FitEnd(text: string, room: int): (q: nat)
    ensures q <= |text|
  {
    if text == "" || Size(text) <= room then 0 else 1 + FitEnd(text[1..], room)
  }

  /** The text with its middle taken out, and what was taken out said in its place. */
  function Cut(text: string, maxBytes: int): string
    requires maxBytes < Size(text)
  {
    var left := maxBytes / 2;
    var p := FitStart(text, left);
    var q := FitEnd(text, maxBytes - left);
    text[..p] + Marker(CeilingQuarter(Size(text) - maxBytes)) + text[q..]
  }

  function Truncated(text: string, maxBytes: int): string {
    if text == "" then ""
    else if maxBytes == 0 then Marker(Tokens(text))
    else if Size(text) <= maxBytes then text
    else Cut(text, maxBytes)
  }

  lemma {:induction false} SizeJoin(a: string, b: string)
    ensures Size(a + b) == Size(a) + Size(b)
    decreases |b|
  {
    if b == "" {
      assert a + b == a;
    } else {
      SizeJoin(a, b[..|b| - 1]);
      assert (a + b)[..|a + b| - 1] == a + b[..|b| - 1];
    }
  }

  lemma SizeSplit(text: string, i: nat)
    requires i <= |text|
    ensures Size(text) == Size(text[..i]) + Size(text[i..])
  {
    assert text == text[..i] + text[i..];
    SizeJoin(text[..i], text[i..]);
  }

  lemma SizeGrows(text: string, i: nat)
    requires i < |text|
    ensures Size(text[..i + 1]) == Size(text[..i]) + Width(text[i])
  {
    assert text[..i + 1][..i] == text[..i];
  }

  lemma {:induction false} SizeClimbs(text: string, i: nat, j: nat)
    requires i <= j <= |text|
    ensures Size(text[..i]) + (j - i) <= Size(text[..j])
    decreases j - i
  {
    if i < j {
      SizeGrows(text, j - 1);
      SizeClimbs(text, i, j - 1);
    }
  }

  /** `FitStart` is the longest prefix that fits. */
  lemma {:induction false} FitStartIsLongest(text: string, room: int)
    ensures var p := FitStart(text, room);
            && (p > 0 ==> Size(text[..p]) <= room) && (p < |text| ==> Size(text[..p + 1]) > room)
    decreases |text|
  {
    assert text[..|text|] == text;
    if text != "" && Size(text) > room {
      var rest := text[..|text| - 1];
      FitStartIsLongest(rest, room);
      var p := FitStart(rest, room);
      assert rest[..p] == text[..p];
      if p < |rest| {
        assert rest[..p + 1] == text[..p + 1];
      }
    }
  }

  lemma FitStartIs(text: string, room: int, p: nat)
    requires p <= |text| && (p > 0 ==> Size(text[..p]) <= room) && (p < |text| ==> Size(text[..p + 1]) > room)
    ensures p == FitStart(text, room)
  {
    FitStartIsLongest(text, room);
    var f := FitStart(text, room);
    if p < f {
      SizeClimbs(text, p + 1, f);
    } else if f < p {
      SizeClimbs(text, f + 1, p);
    }
  }

  /** `FitEnd` begins the longest suffix that fits. */
  lemma {:induction false} FitEndIsLongest(text: string, room: int)
    ensures var q := FitEnd(text, room);
            && (q < |text| ==> Size(text[q..]) <= room) && (q > 0 ==> Size(text[q - 1..]) > room)
    decreases |text|
  {
    assert text[0..] == text;
    if text != "" && Size(text) > room {
      var rest := text[1..];
      FitEndIsLongest(rest, room);
      var q := FitEnd(rest, room);
      assert rest[q..] == text[q + 1..];
      if q > 0 {
        assert rest[q - 1..] == text[q..];
      }
    }
  }

  lemma FitEndIs(text: string, room: int, q: nat)
    requires q <= |text| && (q < |text| ==> Size(text[q..]) <= room) && (q > 0 ==> Size(text[q - 1..]) > room)
    ensures q == FitEnd(text, room)
  {
    FitEndIsLongest(text, room);
    var f := FitEnd(text, room);
    if q < f {
      TailsShrink(text, q, f - 1);
    } else if f < q {
      TailsShrink(text, f, q - 1);
    }
  }

  lemma TailsShrink(text: string, i: nat, j: nat)
    requires i <= j <= |text|
    ensures Size(text[i..]) >= Size(text[j..])
  {
    SizeSplit(text, i);
    SizeSplit(text, j);
    SizeClimbs(text, i, j);
  }

  /** The two cuts never cross. */
  lemma CutsInOrder(text: string, left: int, right: int)
    requires left + right < Size(text)
    ensures FitStart(text, left) <= FitEnd(text, right)
  {
    var p, q := FitStart(text, left), FitEnd(text, right);
    FitStartIsLongest(text, left);
    FitEndIsLongest(text, right);
    if q < p {
      SizeClimbs(text, q, p);
      SizeSplit(text, q);
    }
  }

  // ----- the cut, as it is computed -----

  /** The first `i` characters have been seen; `p` of them are the prefix so far. */
  ghost predicate PrefixSoFar(text: string, left: int, i: nat, p: nat, prefixEnd: int) {
    && p <= i <= |text| && prefixEnd == Size(text[..p])
    && (p > 0 ==> prefixEnd <= left) && (p < i ==> Size(text[..p + 1]) > left)
  }

  /** The suffix starts at the first of them at or after `target`, if there is one. */
  ghost predicate SuffixSoFar(text: string, target: int, i: nat, q: nat, suffixStart: int, started: bool) {
    && i <= |text| && q <= |text| && suffixStart == Size(text[..q])
    && (started ==> q < i && suffixStart >= target && (q > 0 ==> Size(text[..q - 1]) < target))
    && (!started ==> q == |text| && (i > 0 ==> Size(text[..i - 1]) < target))
  }

  lemma PrefixGoesOn(text: string, left: int, i: nat, p: nat, prefixEnd: int)
    requires PrefixSoFar(text, left, i, p, prefixEnd) && i < |text|
    ensures var end := Size(text[..i]) + Width(text[i]);
            if end <= left then PrefixSoFar(text, left, i + 1, i + 1, end)
            else PrefixSoFar(text, left, i + 1, p, prefixEnd)
  {
    SizeGrows(text, i);
    if p < i {
      SizeClimbs(text, p + 1, i);
    }
  }

  lemma SuffixGoesOn(text: string, target: int, i: nat, q: nat, suffixStart: int, started: bool)
    requires SuffixSoFar(text, target, i, q, suffixStart, started) && i < |text|
    ensures var start := Size(text[..i]);
            if start >= target && !started then SuffixSoFar(text, target, i + 1, i, start, true)
            else SuffixSoFar(text, target, i + 1, q, suffixStart, started)
  {
  }

  lemma CutsFound(text: string, left: int, right: int, p: nat, prefixEnd: int, q: nat, suffixStart: int, started: bool)
    requires text != "" && left + right < Size(text)
    requires PrefixSoFar(text, left, |text|, p, prefixEnd)
    requires SuffixSoFar(text, Size(text) - right, |text|, q, suffixStart, started)
    ensures p == FitStart(text, left) && q == FitEnd(text, right)
    ensures prefixEnd <= suffixStart
  {
    FitStartIs(text, left, p);
    SizeSplit(text, q);
    if q > 0 {
      SizeSplit(text, q - 1);
    }
    FitEndIs(text, right, q);
    CutsInOrder(text, left, right);
    SizeClimbs(text, p, q);
  }

  /** The loop over the characters, and the line after it. */
  method CutPoints(text: string, left: int, right: int) returns (p: nat, q: nat)
    requires text != "" && left + right < Size(text)
    ensures p == FitStart(text, left) && q == FitEnd(text, right) && p <= q
  {
    var size := Size(text);
    var tailStartTarget := size - right;
    var prefixEnd, suffixStart, started := 0, size, false;
    p, q := 0, |text|;
    assert text[..|text|] == text;
    var index := 0;
    for i := 0 to |text|
      invariant index == Size(text[..i])
      invariant PrefixSoFar(text, left, i, p, prefixEnd)
      invariant SuffixSoFar(text, tailStartTarget, i, q, suffixStart, started)
    {
      var charEnd := index + Width(text[i]);
      SizeGrows(text, i);
      PrefixGoesOn(text, left, i, p, prefixEnd);
      SuffixGoesOn(text, tailStartTarget, i, q, suffixStart, started);
      if charEnd <= left {
        prefixEnd := charEnd;
        p := i + 1;
      } else if index >= tailStartTarget {
        if !started {
          suffixStart, started := index, true;
          q := i;
        }
      }
      index := charEnd;
    }
    CutsFound(text, left, right, p, prefixEnd, q, suffixStart, started);
    CutsInOrder(text, left, right);
    if suffixStart < prefixEnd {
      suffixStart := prefixEnd;
      q := p;
    }
  }

  method TruncateWithByteEstimate(text: string, maxBytes: int) returns (r: string)
    ensures r == Truncated(text, maxBytes)
  {
    var size := Size(text);
    if text == "" {
      return "";
    }
    if maxBytes == 0 {
      return Marker(CeilingQuarter(size));
    }
    if size <= maxBytes {
      return text;
    }
    var left := maxBytes / 2;
    var right := maxBytes - left;
    var p, q := CutPoints(text, left, right);
    r := text[..p] + Marker(CeilingQuarter(size - maxBytes)) + text[q..];
  }

  // ----- the descent to a budget -----

  predicate Fits(text: string, budget: int, b: int) {
    Tokens(Truncated(text, b * BYTES_PER_TOKEN)) <= budget
  }

  /** The budget to try after one that did not fit. */
  function Next(text: string, budget: int, b: int): int {
    Max(b - Max(Tokens(Truncated(text, b * BYTES_PER_TOKEN)) - budget, 1), 0)
  }

  function Descent(text: string, budget: int, b: int): string
    decreases Max(b, 0)
  {
    if Fits(text, budget, b) then Truncated(text, b * BYTES_PER_TOKEN)
    else if Next(text, budget, b) == 0 then
      if Tokens(Truncated(text, 0)) <= budget then Truncated(text, 0) else ""
    else Descent(text, budget, Next(text, budget, b))
  }

  method CodexTruncate(text: string, budget: int := BUDGET_TOKENS) returns (r: string)
    ensures r == Descent(text, budget, budget)
  {
    var truncationBudget := budget;
    while true
      invariant Descent(text, budget, truncationBudget) == Descent(text, budget, budget)
      decreases Max(truncationBudget, 0)
    {
      var candidate := TruncateWithByteEstimate(text, truncationBudget * BYTES_PER_TOKEN);
      if Tokens(candidate) <= budget {
        return candidate;
      }
      var excess := Tokens(candidate) - budget;
      var nextBudget := Max(truncationBudget - Max(excess, 1), 0);
      if nextBudget == 0 {
        candidate := TruncateWithByteEstimate(text, 0);
        return if Tokens(candidate) <= budget then candidate else "";
      }
      truncationBudget := nextBudget;
    }
  }
}
