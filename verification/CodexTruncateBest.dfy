/** How good the cut is: whether the descent stops at the largest room whose cut fits, or passes
    it over. */
module CodexTruncateBest {
  import opened CodexTruncate
  import opened CodexTruncateLaws

  /** `r` is the cut with the largest room, of all that are no more than the budget, whose cut
      fits; nothing if none does. */
  ghost predicate LargestThatFits(text: string, budget: int, r: string) {
    || (r == "" && forall c: nat :: c <= budget ==> !Fits(text, budget, c))
    || exists d: nat :: d <= budget && Fits(text, budget, d) && r == Truncated(text, d * BYTES_PER_TOKEN)
                        && forall c: nat :: d < c <= budget ==> !Fits(text, budget, c)
  }

  ghost predicate IsBest(text: string, budget: int) {
    LargestThatFits(text, budget, Descent(text, budget, budget))
  }

  // ----- text that can be cut anywhere the descent cuts -----

  /** A character ends `n` bytes from the start. */
  ghost predicate CutsAtStart(text: string, n: nat) {
    exists p: nat :: p <= |text| && Size(text[..p]) == n
  }

  /** A character begins `n` bytes from the end. */
  ghost predicate CutsAtEnd(text: string, n: nat) {
    exists q: nat :: q <= |text| && Size(text[q..]) == n
  }

  /** Every place a cut may come to, an even number of bytes from either end and short of the
      middle, is between two characters. */
  ghost predicate CutsEvenly(text: string) {
    forall b: nat :: 4 * b < Size(text) ==> CutsAtStart(text, 2 * b) && CutsAtEnd(text, 2 * b)
  }

  lemma EvenStart(text: string, n: nat)
    requires CutsAtStart(text, n) && n < Size(text)
    ensures Size(text[..FitStart(text, n)]) == n
  {
    var p: nat :| p <= |text| && Size(text[..p]) == n;
    assert text[..|text|] == text;
    SizeGrows(text, p);
    FitStartIs(text, n, p);
  }

  lemma EvenEnd(text: string, n: nat)
    requires CutsAtEnd(text, n) && n < Size(text)
    ensures Size(text[FitEnd(text, n)..]) == n
  {
    var q: nat :| q <= |text| && Size(text[q..]) == n;
    assert text[0..] == text;
    if q > 0 {
      SizeSplit(text, q - 1);
      SizeSplit(text, q);
      SizeClimbs(text, q - 1, q);
    }
    FitEndIs(text, n, q);
  }

  lemma SizeOfThree(a: string, b: string, c: string)
    ensures Size(a + b + c) == Size(a) + Size(b) + Size(c)
  {
    SizeJoin(a + b, c);
    SizeJoin(a, b);
  }

  lemma EvenCutSize(text: string, maxBytes: nat, n: nat, marker: string)
    requires CutsAtStart(text, n) && CutsAtEnd(text, n) && 0 < maxBytes == 2 * n < Size(text)
    requires marker == Marker(CeilingQuarter(Size(text) - maxBytes))
    ensures Size(Truncated(text, maxBytes)) == maxBytes + Size(marker)
  {
    var p, q := FitStart(text, n), FitEnd(text, n);
    var whole := text[..p] + marker + text[q..];
    assert Truncated(text, maxBytes) == whole by {
      CutIs(text, maxBytes, n, n, p, q, marker);
    }
    assert Size(whole) == maxBytes + Size(marker) by {
      EvenStart(text, n);
      EvenEnd(text, n);
      SizeOfThree(text[..p], marker, text[q..]);
    }
  }

  lemma TokensAre(text: string, b: nat, m: nat)
    requires Size(text) == b * BYTES_PER_TOKEN + m
    ensures Tokens(text) == b + CeilingQuarter(m)
  {
  }

  /** What the marker says of a cut with room for `b` tokens. */
  function Removed(text: string, b: nat): nat
    requires b * BYTES_PER_TOKEN < Size(text)
  {
    CeilingQuarter(Size(text) - b * BYTES_PER_TOKEN)
  }

  lemma EvenRoom(text: string, b: nat)
    requires CutsEvenly(text) && 0 < b * BYTES_PER_TOKEN < Size(text)
    ensures Size(Truncated(text, b * BYTES_PER_TOKEN)) == b * BYTES_PER_TOKEN + Size(Marker(Removed(text, b)))
  {
    assert CutsAtStart(text, 2 * b) && CutsAtEnd(text, 2 * b);
    EvenCutSize(text, b * BYTES_PER_TOKEN, 2 * b, Marker(Removed(text, b)));
  }

  /** Such a text keeps exactly the room it has. */
  lemma EvenCut(text: string, b: nat)
    requires CutsEvenly(text) && b * BYTES_PER_TOKEN < Size(text)
    ensures Tokens(Truncated(text, b * BYTES_PER_TOKEN)) == b + CeilingQuarter(Size(Marker(Removed(text, b))))
  {
    if b > 0 {
      EvenRoom(text, b);
    } else {
      BareSize(text);
    }
    TokensAre(Truncated(text, b * BYTES_PER_TOKEN), b, Size(Marker(Removed(text, b))));
  }

  lemma BareSize(text: string)
    requires 0 < Size(text)
    ensures Truncated(text, 0) == Marker(Removed(text, 0))
  {
    assert text != "";
  }

  // ----- the marker -----

  lemma {:induction false} MoreDigits(n: nat, m: nat)
    requires n <= m
    ensures 1 <= Size(Digits(n)) <= Size(Digits(m))
    decreases m
  {
    DigitsSize(n);
    DigitsSize(m);
    if m >= 10 {
      MoreDigits(if n < 10 then 0 else n / 10, m / 10);
    }
  }

  lemma DigitsSize(n: nat)
    ensures Size(Digits(n)) == 1 + if n < 10 then 0 else Size(Digits(n / 10))
  {
  }

  const TAIL := " tokens truncated\U{2026}"

  lemma MarkerSize(n: nat)
    ensures Size(Marker(n)) == Size("\U{2026}") + Size(Digits(n)) + Size(TAIL)
  {
    SizeJoin("\U{2026}" + Digits(n), TAIL);
    SizeJoin("\U{2026}", Digits(n));
  }

  // ----- nothing is passed over -----

  lemma LongerMarker(n: nat, m: nat)
    requires n <= m
    ensures CeilingQuarter(Size(Marker(n))) <= CeilingQuarter(Size(Marker(m)))
  {
    MoreDigits(n, m);
    MarkerSize(n);
    MarkerSize(m);
    MoreQuarters(Size(Marker(n)), Size(Marker(m)));
  }

  lemma MoreQuarters(a: int, b: int)
    requires a <= b
    ensures CeilingQuarter(a) <= CeilingQuarter(b)
  {
  }

  /** A step down by the excess passes over nothing that fits. */
  lemma NothingSkipped(text: string, b: nat, c: nat)
    requires CutsEvenly(text) && b <= c && c * BYTES_PER_TOKEN < Size(text)
    ensures Tokens(Truncated(text, c * BYTES_PER_TOKEN)) - Tokens(Truncated(text, b * BYTES_PER_TOKEN)) <= c - b
  {
    EvenCut(text, b);
    EvenCut(text, c);
    MoreQuarters(Size(text) - c * BYTES_PER_TOKEN, Size(text) - b * BYTES_PER_TOKEN);
    LongerMarker(Removed(text, c), Removed(text, b));
  }

  lemma {:induction false} DescentIsBest(text: string, budget: nat, b: nat)
    requires CutsEvenly(text) && b <= budget < Tokens(text)
    requires forall c: nat :: b < c <= budget ==> !Fits(text, budget, c)
    ensures LargestThatFits(text, budget, Descent(text, budget, b))
    decreases b
  {
    if Fits(text, budget, b) {
    } else {
      var next := Next(text, budget, b);
      forall c: nat | next < c <= b ensures !Fits(text, budget, c) {
        NothingSkipped(text, c, b);
      }
      if next != 0 {
        DescentIsBest(text, budget, next);
      } else {
        assert Fits(text, budget, 0) <==> Tokens(Truncated(text, 0)) <= budget;
      }
    }
  }

  /** Where every cut offset is between two characters, the result is the best there is, for
      every budget. */
  lemma EvenResultIsBest(text: string, budget: int)
    requires CutsEvenly(text)
    ensures IsBest(text, budget)
  {
    if 0 <= budget < Tokens(text) {
      DescentIsBest(text, budget, budget);
    } else if budget < 0 {
      WithinBudget(text, budget, budget);
      NothingLeft(Descent(text, budget, budget));
    } else {
      assert Fits(text, budget, budget);
    }
  }

  lemma NothingLeft(r: string)
    requires Tokens(r) <= 0
    ensures r == ""
  {
  }

  // ----- characters of one width -----

  ghost predicate AllOfWidth(text: string, w: nat) {
    forall i :: 0 <= i < |text| ==> Width(text[i]) == w
  }

  lemma {:induction false} UniformSize(text: string, w: nat)
    requires AllOfWidth(text, w)
    ensures Size(text) == w * |text|
    decreases |text|
  {
    if text != "" {
      UniformSize(text[..|text| - 1], w);
    }
  }

  lemma UniformStart(text: string, w: nat, p: nat)
    requires AllOfWidth(text, w) && p <= |text|
    ensures Size(text[..p]) == w * p && Size(text[|text| - p..]) == w * p
  {
    UniformSize(text[..p], w);
    UniformSize(text[|text| - p..], w);
  }

  /** One and two divide every even number of bytes. */
  lemma NarrowCutsEvenly(text: string, w: nat)
    requires AllOfWidth(text, w) && (w == 1 || w == 2)
    ensures CutsEvenly(text)
  {
    UniformSize(text, w);
    forall b: nat | 4 * b < Size(text) ensures CutsAtStart(text, 2 * b) && CutsAtEnd(text, 2 * b) {
      var p := if w == 1 then 2 * b else b;
      UniformStart(text, w, p);
      assert w * p == 2 * b;
    }
  }

  lemma UniformEnds(text: string, w: nat, p: nat, k: nat, left: int, right: int)
    requires AllOfWidth(text, w) && 0 < w && p < |text| && k < |text|
    requires w * p <= left < w * (p + 1) && w * k <= right < w * (k + 1)
    ensures FitStart(text, left) == p && FitEnd(text, right) == |text| - k
    ensures Size(text[..p]) == w * p && Size(text[|text| - k..]) == w * k
  {
    UniformStart(text, w, p);
    UniformStart(text, w, p + 1);
    UniformStart(text, w, k);
    UniformStart(text, w, k + 1);
    FitStartIs(text, left, p);
    FitEndIs(text, right, |text| - k);
  }

  lemma MarkerBytes(n: nat)
    requires n < 100
    ensures Size(Marker(n)) == if n < 10 then 24 else 25
  {
    MarkerSize(n);
    DigitsSize(n);
    DigitsSize(n / 10);
    assert Size("\U{2026}") == 3 by {
      assert "\U{2026}"[..0] == "";
    }
    var words := " tokens truncated";
    UniformSize(words, 1);
    SizeJoin(words, "\U{2026}");
    assert TAIL == words + "\U{2026}";
  }

  /** The room is `2 * n` bytes; `p` whole characters fit into each half. */
  lemma UniformCut(text: string, w: nat, n: nat, p: nat, marker: string)
    requires AllOfWidth(text, w) && 0 < w && p < |text| && 0 < 2 * n < w * |text|
    requires w * p <= n < w * (p + 1) && marker == Marker(CeilingQuarter(w * |text| - 2 * n))
    ensures Size(Truncated(text, 2 * n)) == 2 * (w * p) + Size(marker)
    ensures Truncated(text, 2 * n) == text[..p] + marker + text[|text| - p..]
  {
    UniformSize(text, w);
    UniformEnds(text, w, p, p, n, n);
    CutIs(text, 2 * n, n, n, p, |text| - p, marker);
    SizeOfThree(text[..p], marker, text[|text| - p..]);
  }

  /** A step down by the whole budget ends at the bare marker, if that fits. */
  lemma StopsAtMarker(text: string, budget: nat)
    requires Tokens(Truncated(text, budget * BYTES_PER_TOKEN)) >= 2 * budget && budget > 0
    ensures Descent(text, budget, budget) == if Fits(text, budget, 0) then Truncated(text, 0) else ""
  {
  }

  lemma FourWideSizes(text: string)
    requires AllOfWidth(text, 4) && |text| == 10
    ensures Tokens(Truncated(text, 24)) == 12 && Tokens(Truncated(text, 0)) == 7 && Tokens(Truncated(text, 4)) == 6
  {
    UniformCut(text, 4, 12, 3, Marker(4));
    UniformCut(text, 4, 2, 0, Marker(9));
    UniformSize(text, 4);
    MarkerBytes(4);
    MarkerBytes(9);
    MarkerBytes(10);
  }

  /** Ten characters of four bytes, cut to six tokens, leave nothing, though the cut with room
      for one token fits. */
  lemma FourWideIsNotBest(text: string)
    requires AllOfWidth(text, 4) && |text| == 10
    ensures Descent(text, 6, 6) == "" && Fits(text, 6, 1) && !IsBest(text, 6)
  {
    FourWideSizes(text);
    StopsAtMarker(text, 6);
    assert Fits(text, 6, 1);
  }

  lemma ThreeWideAtSix(text: string)
    requires AllOfWidth(text, 3) && |text| == 9
    ensures Tokens(Truncated(text, 24)) == 12
  {
    UniformCut(text, 3, 12, 4, Marker(1));
    MarkerBytes(1);
  }

  lemma NothingAround(text: string, marker: string)
    ensures text[..0] + marker + text[|text|..] == marker
  {
  }

  lemma ThreeWideAtOne(text: string, marker: string)
    requires AllOfWidth(text, 3) && |text| == 9 && marker == Marker(6)
    ensures Truncated(text, 4) == marker
  {
    UniformCut(text, 3, 2, 0, marker);
    NothingAround(text, marker);
  }

  lemma ThreeWideBare(text: string)
    requires AllOfWidth(text, 3) && |text| == 9
    ensures Truncated(text, 0) == Marker(7)
  {
    UniformSize(text, 3);
  }

  lemma SixTokens()
    ensures Tokens(Marker(6)) == 6 && Tokens(Marker(7)) == 6
  {
    MarkerBytes(6);
    MarkerBytes(7);
  }

  /** More characters kept leave no room for the marker. */
  lemma ThreeWideIsTooLong(text: string, d: nat)
    requires AllOfWidth(text, 3) && |text| == 9 && 2 <= d <= 6
    ensures !Fits(text, 6, d)
  {
    assert Size(Truncated(text, d * BYTES_PER_TOKEN)) >= 30 by {
      var p := if d == 2 then 1 else if d <= 4 then 2 else d - 2;
      ThreeWideSize(text, d, p, Marker(7 - d));
      MarkerBytes(7 - d);
    }
    TooLong(text, 6, d);
  }

  lemma TooLong(text: string, budget: nat, d: nat)
    requires Size(Truncated(text, d * BYTES_PER_TOKEN)) > BYTES_PER_TOKEN * budget
    ensures !Fits(text, budget, d)
  {
  }

  lemma ThreeWideSize(text: string, d: nat, p: nat, marker: string)
    requires AllOfWidth(text, 3) && |text| == 9 && 2 <= d <= 6 && marker == Marker(7 - d)
    requires 3 * p <= 2 * d < 3 * p + 3
    ensures Size(Truncated(text, d * BYTES_PER_TOKEN)) == 6 * p + Size(marker)
  {
    assert CeilingQuarter(3 * 9 - 2 * (2 * d)) == 7 - d;
    UniformCut(text, 3, 2 * d, p, marker);
  }

  /** The largest room that fits is one. */
  lemma OneLargest(text: string, budget: int, d: nat, e: nat)
    requires d <= budget && Fits(text, budget, d) && forall c: nat :: d < c <= budget ==> !Fits(text, budget, c)
    requires e <= budget && Fits(text, budget, e) && forall c: nat :: e < c <= budget ==> !Fits(text, budget, c)
    ensures e == d
  {
  }

  /** A room that fits, larger than the one whose cut is the result, or whose cut is another. */
  lemma PassedOver(text: string, budget: int, d: nat, r: string)
    requires d <= budget && Fits(text, budget, d)
    requires forall c: nat :: d < c <= budget ==> !Fits(text, budget, c)
    requires r != Truncated(text, d * BYTES_PER_TOKEN)
    ensures !LargestThatFits(text, budget, r)
  {
    forall e: nat | e <= budget && Fits(text, budget, e) && forall c: nat :: e < c <= budget ==> !Fits(text, budget, c)
      ensures e == d
    {
      OneLargest(text, budget, d, e);
    }
  }

  lemma SixIsNotSeven()
    ensures Marker(6) != Marker(7)
  {
    assert Marker(6)[1] == '6' && Marker(7)[1] == '7';
  }

  /** Nine characters of three bytes, cut to six tokens, leave a marker of seven tokens, though
      the cut with room for one token says six, and fits. */
  lemma ThreeWideIsNotBest(text: string)
    requires AllOfWidth(text, 3) && |text| == 9
    ensures Descent(text, 6, 6) == Marker(7) && Fits(text, 6, 1) && Truncated(text, 4) == Marker(6) && !IsBest(text, 6)
  {
    ThreeWideAtSix(text);
    ThreeWideAtOne(text, Marker(6));
    ThreeWideBare(text);
    SixTokens();
    StopsAtMarker(text, 6);
    SixIsNotSeven();
    forall c: nat | 1 < c <= 6 ensures !Fits(text, 6, c) {
      ThreeWideIsTooLong(text, c);
    }
    PassedOver(text, 6, 1, Marker(7));
  }

  ghost predicate BestForWidth(w: nat) {
    forall text, budget :: AllOfWidth(text, w) ==> IsBest(text, budget)
  }

  /** For characters of one width the descent always finds the best cut exactly when that width
      is one or two bytes. */
  lemma BestExactlyForNarrow(w: nat)
    requires 1 <= w <= 4
    ensures BestForWidth(w) <==> w <= 2
  {
    if w <= 2 {
      forall text, budget | AllOfWidth(text, w) ensures IsBest(text, budget) {
        NarrowCutsEvenly(text, w);
        EvenResultIsBest(text, budget);
      }
    } else if w == 3 {
      var text := seq(9, i => '\U{2026}');
      ThreeWideIsNotBest(text);
    } else {
      var text := seq(10, i => '\U{1F600}');
      FourWideIsNotBest(text);
    }
  }
}
