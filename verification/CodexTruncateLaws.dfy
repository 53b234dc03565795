/** What the cut promises: it ends within the budget, touches nothing that fits, keeps whole
    characters from both ends, and never says it took out more than it did. */
module CodexTruncateLaws {
  import opened Basics
  import opened CodexTruncate
  import opened Numerals

  /** The digits printed are the numeral of the number, and no other text is. */
  lemma {:induction false} DigitsAreTheNumeral(s: string, n: nat)
    ensures s == Digits(n) <==> Shows(s, n)
    decreases n
  {
    if n < 10 {
      OneDigit(n);
      if Shows(s, n) {
        ShortNumeral(s, n);
      }
    } else {
      DigitsAreTheNumeral(Digits(n / 10), n / 10);
      OneMoreDigit(Digits(n / 10), n / 10, n % 10);
      if Shows(s, n) {
        LongNumeral(s, n);
        DigitsAreTheNumeral(s[..|s| - 1], n / 10);
        assert s == s[..|s| - 1] + [s[|s| - 1]];
      }
    }
  }

  lemma OneDigit(n: nat)
    requires n < 10
    ensures Shows([Digit(n)], n)
  {
    assert [Digit(n)][1..] == "";
  }

  lemma OneMoreDigit(s: string, n: nat, d: nat)
    requires Shows(s, n) && n > 0 && d < 10
    ensures Shows(s + [Digit(d)], 10 * n + d)
  {
    ValueSnoc(s, Digit(d));
    assert s[0] != '0' by {
      if |s| == 1 {
        assert s[1..] == "";
      }
    }
  }

  lemma ShortNumeral(s: string, n: nat)
    requires Shows(s, n) && n < 10
    ensures s == [Digit(n)]
  {
    var last := |s| - 1;
    assert s == s[..last] + [s[last]];
    ValueSnoc(s[..last], s[last]);
    if last > 0 {
      LeadCounts(s[..last]);
    }
  }

  lemma LongNumeral(s: string, n: nat)
    requires Shows(s, n) && n >= 10
    ensures Shows(s[..|s| - 1], n / 10) && s[|s| - 1] == Digit(n % 10)
  {
    var last := |s| - 1;
    assert s == s[..last] + [s[last]];
    ValueSnoc(s[..last], s[last]);
  }

  /** A marker that says, in digits, that `n` tokens were removed. */
  ghost predicate SaysRemoved(marker: string, n: nat) {
    exists shown :: Shows(shown, n) && marker == "\U{2026}" + shown + " tokens truncated\U{2026}"
  }

  lemma MarkerSays(n: nat)
    ensures SaysRemoved(Marker(n), n)
  {
    DigitsAreTheNumeral(Digits(n), n);
    assert Marker(n) == "\U{2026}" + Digits(n) + " tokens truncated\U{2026}";
  }

  /** `r` keeps the first `p` characters and those from `q`, and says `n` in between. */
  ghost predicate CutAt(text: string, r: string, p: nat, q: nat, n: nat) {
    p <= q <= |text| && exists marker :: SaysRemoved(marker, n) && r == text[..p] + marker + text[q..]
  }

  function Kept(text: string, p: nat, q: nat): nat
    requires p <= q <= |text|
  {
    Size(text[..p]) + Size(text[q..])
  }

  lemma RemovedSize(text: string, p: nat, q: nat)
    requires p <= q <= |text|
    ensures Size(text[p..q]) == Size(text) - Kept(text, p, q)
  {
    SizeSplit(text, p);
    SizeSplit(text[p..], q - p);
    assert text[p..][..q - p] == text[p..q] && text[p..][q - p..] == text[q..];
  }

  /** One cut: at most `maxBytes` are kept, on both sides as many whole characters as fit, and
      the marker shows the tokens above the room: at most what was taken out, and at most two
      less. */
  lemma CutKeepsWhatFits(text: string, maxBytes: nat) returns (p: nat, q: nat, n: nat)
    requires 0 < maxBytes < Size(text)
    ensures CutAt(text, Truncated(text, maxBytes), p, q, n) && 0 < n
    ensures Size(text[..p]) <= maxBytes / 2 && Size(text[q..]) <= maxBytes - maxBytes / 2
    ensures p < |text| && Size(text[..p + 1]) > maxBytes / 2
    ensures q > 0 && Size(text[q - 1..]) > maxBytes - maxBytes / 2
    ensures n <= Tokens(text[p..q]) <= n + 2 && 4 * n - 3 <= Size(text) - maxBytes <= 4 * n
  {
    p, q := FitStart(text, maxBytes / 2), FitEnd(text, maxBytes - maxBytes / 2);
    n := CeilingQuarter(Size(text) - maxBytes);
    LongestInside(text, maxBytes / 2, maxBytes - maxBytes / 2, p, q);
    MarkerIsClose(text, maxBytes / 2, maxBytes - maxBytes / 2, p, q, n, Tokens(text[p..q]));
    CutIs(text, maxBytes, maxBytes / 2, maxBytes - maxBytes / 2, p, q, Marker(n));
    MarkerSays(n);
  }

  lemma LongestInside(text: string, left: nat, right: nat, p: nat, q: nat)
    requires left + right < Size(text) && p == FitStart(text, left) && q == FitEnd(text, right)
    ensures p <= q <= |text| && p < |text| && 0 < q
    ensures Size(text[..p]) <= left < Size(text[..p + 1])
    ensures Size(text[q..]) <= right < Size(text[q - 1..])
  {
    CutsInOrder(text, left, right);
    FitStartIsLongest(text, left);
    FitEndIsLongest(text, right);
    assert text[..|text|] == text && text[0..] == text;
  }

  predicate Halves(maxBytes: nat, left: nat, right: nat) {
    left == maxBytes / 2 && right == maxBytes - left
  }

  lemma CutIs(text: string, maxBytes: nat, left: nat, right: nat, p: nat, q: nat, marker: string)
    requires 0 < maxBytes < Size(text) && marker == Marker(CeilingQuarter(Size(text) - maxBytes))
    requires Halves(maxBytes, left, right) && p == FitStart(text, left) && q == FitEnd(text, right)
    ensures Truncated(text, maxBytes) == text[..p] + marker + text[q..]
  {
    TruncatedIsCut(text, maxBytes);
    assert Cut(text, maxBytes) == text[..p] + marker + text[q..];
  }

  lemma TruncatedIsCut(text: string, maxBytes: nat)
    requires 0 < maxBytes < Size(text)
    ensures Truncated(text, maxBytes) == Cut(text, maxBytes)
  {
    assert text != "";
  }

  lemma MarkerIsClose(text: string, left: nat, right: nat, p: nat, q: nat, n: int, m: int)
    requires p <= q <= |text| && p < |text| && 0 < q && left + right < Size(text)
    requires Size(text[..p]) <= left < Size(text[..p + 1])
    requires Size(text[q..]) <= right < Size(text[q - 1..])
    requires 4 * n - 3 <= Size(text) - left - right <= 4 * n
    requires 4 * m - 3 <= Size(text[p..q]) <= 4 * m
    ensures 0 < n <= m <= n + 2
  {
    RemovedSize(text, p, q);
    NearTheRoom(text, p, q);
  }

  lemma NearTheRoom(text: string, p: nat, q: nat)
    requires p < |text| && 0 < q <= |text|
    ensures Size(text[..p + 1]) <= Size(text[..p]) + 4
    ensures Size(text[q - 1..]) <= Size(text[q..]) + 4
  {
    SizeGrows(text, p);
    SizeSplit(text, q - 1);
    SizeSplit(text, q);
    SizeGrows(text, q - 1);
  }

  lemma BareMarker(text: string)
    requires text != ""
    ensures CutAt(text, Truncated(text, 0), 0, |text|, Tokens(text))
    ensures text[0..|text|] == text && Kept(text, 0, |text|) == 0
  {
    MarkerSays(Tokens(text));
    assert Truncated(text, 0) == text[..0] + Marker(Tokens(text)) + text[|text|..];
  }

  lemma {:induction false} SizePositive(text: string)
    ensures Size(text) == 0 <==> text == ""
  {
  }

  /** Whatever the budget, even a negative one, the result is within it. */
  lemma {:induction false} WithinBudget(text: string, budget: int, b: int)
    ensures Tokens(Descent(text, budget, b)) <= Max(budget, 0)
    decreases Max(b, 0)
  {
    if !Fits(text, budget, b) && Next(text, budget, b) != 0 {
      WithinBudget(text, budget, Next(text, budget, b));
    }
  }

  /** The text comes back unchanged exactly when it was within the budget already. */
  lemma UnchangedExactlyWithin(text: string, budget: int)
    ensures Descent(text, budget, budget) == text <==> text == "" || Tokens(text) <= budget
  {
    if text == "" {
      EmptyStays(budget, budget);
    } else {
      SizePositive(text);
      WithinBudget(text, budget, budget);
    }
  }

  lemma {:induction false} EmptyStays(budget: int, b: int)
    ensures Descent("", budget, b) == ""
    decreases Max(b, 0)
  {
    if !Fits("", budget, b) && Next("", budget, b) != 0 {
      EmptyStays(budget, Next("", budget, b));
    }
  }

  /** Whatever is tried is within the budget asked for. */
  ghost predicate Honest(text: string, budget: int, r: string) {
    || r == ""
    || r == text
    || exists p: nat, q: nat, n: nat ::
         CutAt(text, r, p, q, n) && Kept(text, p, q) <= BYTES_PER_TOKEN * budget && n <= Tokens(text[p..q])
  }

  lemma CandidateIsHonest(text: string, budget: int, b: int)
    requires 0 <= b <= budget
    ensures Honest(text, budget, Truncated(text, b * BYTES_PER_TOKEN))
  {
    var maxBytes := b * BYTES_PER_TOKEN;
    if text != "" && maxBytes == 0 {
      BareMarker(text);
    } else if text != "" && 0 < maxBytes < Size(text) {
      var p, q, n := CutKeepsWhatFits(text, maxBytes);
      assert Kept(text, p, q) <= BYTES_PER_TOKEN * budget;
    }
  }

  /** Every result is the text, or nothing, or a prefix and a suffix of it, not overlapping and
      within the budget together, around a marker that overstates nothing. */
  lemma {:induction false} ResultIsHonest(text: string, budget: int, b: int)
    requires b <= budget && (0 <= b || budget < 0)
    ensures Honest(text, budget, Descent(text, budget, b))
    decreases Max(b, 0)
  {
    if Fits(text, budget, b) {
      CandidateIsHonest(text, budget, b);
    } else if Next(text, budget, b) == 0 {
      if Tokens(Truncated(text, 0)) <= budget {
        CandidateIsHonest(text, budget, 0);
      }
    } else {
      ResultIsHonest(text, budget, Next(text, budget, b));
    }
  }

  /** Nothing is left only where even the bare marker does not fit. */
  lemma {:induction false} SomethingWhenTheMarkerFits(text: string, budget: int, b: int)
    requires text != "" && Tokens(Truncated(text, 0)) <= budget
    ensures Descent(text, budget, b) != ""
    decreases Max(b, 0)
  {
    if !Fits(text, budget, b) && Next(text, budget, b) != 0 {
      SomethingWhenTheMarkerFits(text, budget, Next(text, budget, b));
    }
  }
}
