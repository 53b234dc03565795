/** The value a login shell prints between two sentinels. */
module LoginShellPath {
  import opened Text

  const SENTINEL := "<<<GVC-PATH>>>"

  /** `mark` stands at position `i` of `s`. */
  predicate At(s: string, mark: string, i: int) {
    0 <= i && i + |mark| <= |s| && s[i..i + |mark|] == mark
  }

  ghost predicate Nowhere(s: string, mark: string) {
    forall i :: !At(s, mark, i)
  }

  /** No proper prefix of the mark is also a suffix of it. */
  ghost predicate Borderless(mark: string) {
    forall d :: 0 < d < |mark| ==> mark[d..] != mark[..|mark| - d]
  }

  lemma SentinelIsBorderless()
    ensures Borderless(SENTINEL)
  {
    var m := SENTINEL;
    forall d | 0 < d < |m| ensures m[d..] != m[..|m| - d] {
      var last := m[..|m| - d][|m| - d - 1];
      assert m[d..][|m| - d - 1] == '>';
      if last == '>' {
        assert |m| - d - 1 >= 11;
        assert m[d..][3 - d] == m[3] == 'G' && m[..|m| - d][3 - d] == '<';
      }
    }
  }

  // ----- finding the bounds -----

  /** The first position from `start` where the mark stands, if there is one. */
  ghost predicate FirstFrom(s: string, mark: string, start: nat, found: Option<nat>) {
    && (found.Some? ==> start <= found.value && At(s, mark, found.value))
    && forall k :: start <= k && (found.Some? ==> k < found.value) ==> !At(s, mark, k)
  }

  method RangeOf(s: string, mark: string, start: nat) returns (found: Option<nat>)
    requires start <= |s|
    ensures FirstFrom(s, mark, start, found)
    ensures found.Some? ==> start <= found.value && found.value + |mark| <= |s|
  {
    for i := start to |s| + 1
      invariant forall k :: start <= k < i ==> !At(s, mark, k)
    {
      if i + |mark| <= |s| && s[i..i + |mark|] == mark {
        return Some(i);
      }
    }
    return None;
  }

  /** The marks stand exactly at `i` and, after it, at `j`. */
  ghost predicate ExactlyTwo(s: string, mark: string, i: int, j: int) {
    && i + |mark| <= j && At(s, mark, i) && At(s, mark, j)
    && forall k :: At(s, mark, k) ==> k == i || k == j
  }

  /** Where two marks overlap, the mark has a border. */
  lemma OverlapIsBorder(s: string, mark: string, i: int, k: int)
    requires At(s, mark, i) && At(s, mark, k) && i < k < i + |mark|
    ensures mark[k - i..] == mark[..|mark| - (k - i)]
  {
  }

  lemma NoOverlap(s: string, mark: string, i: int, k: int)
    requires Borderless(mark) && At(s, mark, i) && At(s, mark, k) && i < k
    ensures i + |mark| <= k
  {
    if k < i + |mark| {
      OverlapIsBorder(s, mark, i, k);
    }
  }

  /** The marks up to `searched` are those found, apart from each other. */
  ghost predicate Found(s: string, mark: string, bounds: seq<nat>, searched: nat) {
    && searched <= |s|
    && (forall n :: 0 <= n < |bounds| ==> At(s, mark, bounds[n]) && bounds[n] + |mark| <= searched)
    && (forall n, m :: 0 <= n < m < |bounds| ==> bounds[n] + |mark| <= bounds[m])
    && (forall k :: At(s, mark, k) && k < searched ==> k in bounds)
  }

  lemma FoundNext(s: string, mark: string, bounds: seq<nat>, searched: nat, found: nat)
    requires mark != "" && Borderless(mark) && Found(s, mark, bounds, searched)
    requires FirstFrom(s, mark, searched, Some(found))
    ensures Found(s, mark, bounds + [found], found + |mark|)
  {
    forall k | At(s, mark, k) && k < found + |mark| ensures k in bounds + [found] {
      if found < k {
        NoOverlap(s, mark, found, k);
      }
    }
  }

  /** What lies between exactly two marks, anywhere in the output, or nothing. */
  ghost predicate Answers(r: Option<string>, output: string, mark: string) {
    && (r.Some? <==> exists i, j :: ExactlyTwo(output, mark, i, j))
    && forall i, j :: ExactlyTwo(output, mark, i, j) ==> r == Some(output[i + |mark|..j])
  }

  method DelimitedBy(output: string, mark: string) returns (r: Option<string>)
    requires mark != "" && Borderless(mark)
    ensures Answers(r, output, mark)
  {
    var bounds: seq<nat> := [];
    var searched: nat := 0;
    var found: Option<nat> := RangeOf(output, mark, searched);
    while found.Some?
      invariant |bounds| <= 2 && Found(output, mark, bounds, searched)
      invariant searched <= |output| && FirstFrom(output, mark, searched, found)
      invariant found.Some? ==> searched <= found.value && found.value + |mark| <= |output|
      decreases |output| - searched, if found.Some? then 1 else 0
    {
      FoundNext(output, mark, bounds, searched, found.value);
      bounds := bounds + [found.value];
      if |bounds| > 2 {
        ThreeAreNotTwo(output, mark, bounds, found.value + |mark|);
        return None;
      }
      searched := found.value + |mark|;
      found := RangeOf(output, mark, searched);
    }
    if |bounds| != 2 {
      FewerAreNotTwo(output, mark, bounds, searched);
      return None;
    }
    TwoAreThese(output, mark, bounds, searched);
    return Some(output[bounds[0] + |mark|..bounds[1]]);
  }

  lemma ThreeAreNotTwo(s: string, mark: string, bounds: seq<nat>, searched: nat)
    requires mark != "" && Found(s, mark, bounds, searched) && |bounds| == 3
    ensures Answers(None, s, mark)
  {
    assert At(s, mark, bounds[0]) && At(s, mark, bounds[1]) && At(s, mark, bounds[2]);
  }

  lemma FewerAreNotTwo(s: string, mark: string, bounds: seq<nat>, searched: nat)
    requires mark != "" && Found(s, mark, bounds, searched) && |bounds| < 2
    requires FirstFrom(s, mark, searched, None)
    ensures Answers(None, s, mark)
  {
  }

  lemma TwoAreThese(s: string, mark: string, bounds: seq<nat>, searched: nat)
    requires mark != "" && Found(s, mark, bounds, searched) && |bounds| == 2
    requires FirstFrom(s, mark, searched, None)
    ensures bounds[0] + |mark| <= bounds[1] <= |s| && Answers(Some(s[bounds[0] + |mark|..bounds[1]]), s, mark)
  {
    assert At(s, mark, bounds[0]) && At(s, mark, bounds[1]);
    assert ExactlyTwo(s, mark, bounds[0], bounds[1]);
  }

  // ----- what was printed is what is found -----

  method Delimited(output: string) returns (r: Option<string>)
    ensures Answers(r, output, SENTINEL)
  {
    SentinelIsBorderless();
    r := DelimitedBy(output, SENTINEL);
  }

  /** What the script prints, between whatever a profile printed before and after it. */
  function Printed(before: string, value: string, after: string, mark: string): string {
    before + mark + value + mark + after
  }

  lemma PrintedMarks(before: string, value: string, after: string, mark: string)
    ensures var s := Printed(before, value, after, mark);
            && At(s, mark, |before|) && At(s, mark, |before| + |mark| + |value|)
            && s[|before| + |mark|..|before| + |mark| + |value|] == value
  {
  }

  /** A mark inside a part is a mark of the whole. */
  lemma InsidePart(a: string, b: string, c: string, mark: string, i: int)
    requires At(b, mark, i)
    ensures At(a + b + c, mark, |a| + i)
  {
  }

  lemma WithinBefore(before: string, value: string, after: string, mark: string, k: int)
    requires At(Printed(before, value, after, mark), mark, k) && k + |mark| <= |before|
    ensures At(before, mark, k)
  {
  }

  lemma WithinValue(before: string, value: string, after: string, mark: string, k: int)
    requires At(Printed(before, value, after, mark), mark, k)
    requires |before| + |mark| <= k && k + |mark| <= |before| + |mark| + |value|
    ensures At(value, mark, k - |before| - |mark|)
  {
  }

  lemma WithinAfter(before: string, value: string, after: string, mark: string, k: int)
    requires At(Printed(before, value, after, mark), mark, k) && |before| + |mark| + |value| + |mark| <= k
    ensures At(after, mark, k - |before| - |mark| - |value| - |mark|)
  {
  }

  /** Every mark of the whole is one of the two printed, or lies within a part: none straddles
      a printed one. */
  lemma MarksLieWithin(before: string, value: string, after: string, mark: string, k: int)
    requires mark != "" && Borderless(mark) && At(Printed(before, value, after, mark), mark, k)
    ensures || k == |before| || k == |before| + |mark| + |value|
            || At(before, mark, k)
            || At(value, mark, k - |before| - |mark|)
            || At(after, mark, k - |before| - |mark| - |value| - |mark|)
  {
    var s := Printed(before, value, after, mark);
    var i, j := |before|, |before| + |mark| + |value|;
    PrintedMarks(before, value, after, mark);
    if k < i {
      NoOverlap(s, mark, k, i);
      WithinBefore(before, value, after, mark, k);
    } else if i < k < j {
      NoOverlap(s, mark, i, k);
      NoOverlap(s, mark, k, j);
      WithinValue(before, value, after, mark, k);
    } else if j < k {
      NoOverlap(s, mark, j, k);
      WithinAfter(before, value, after, mark, k);
    }
  }

  /** Two marks stand in what was printed exactly when the value and the chatter around it hold
      none: then what lies between them is the value. */
  lemma PrintedValueIsFound(before: string, value: string, after: string, mark: string)
    requires mark != "" && Borderless(mark)
    ensures var s := Printed(before, value, after, mark);
            (exists i, j :: ExactlyTwo(s, mark, i, j)) <==>
            Nowhere(before, mark) && Nowhere(value, mark) && Nowhere(after, mark)
    ensures var s := Printed(before, value, after, mark);
            forall i, j :: ExactlyTwo(s, mark, i, j) ==> s[i + |mark|..j] == value
  {
    var s := Printed(before, value, after, mark);
    var i, j := |before|, |before| + |mark| + |value|;
    PrintedMarks(before, value, after, mark);
    if Nowhere(before, mark) && Nowhere(value, mark) && Nowhere(after, mark) {
      forall k | At(s, mark, k) ensures k == i || k == j {
        MarksLieWithin(before, value, after, mark, k);
      }
      assert ExactlyTwo(s, mark, i, j);
    }
    if exists x, y :: ExactlyTwo(s, mark, x, y) {
      var x, y :| ExactlyTwo(s, mark, x, y);
      assert At(s, mark, i) && At(s, mark, j);
      assert x == i && y == j;
      NoMarkInParts(before, value, after, mark);
    }
  }

  lemma MarksOfParts(before: string, value: string, after: string, mark: string)
    ensures var s := Printed(before, value, after, mark);
            && (forall k :: At(before, mark, k) ==> At(s, mark, k))
            && (forall k :: At(value, mark, k) ==> At(s, mark, |before| + |mark| + k))
            && (forall k :: At(after, mark, k) ==> At(s, mark, |before| + |mark| + |value| + |mark| + k))
  {
    var s := Printed(before, value, after, mark);
    forall k | At(before, mark, k) ensures At(s, mark, k) {
      assert s == "" + before + (mark + value + mark + after);
      InsidePart("", before, mark + value + mark + after, mark, k);
    }
    forall k | At(value, mark, k) ensures At(s, mark, |before| + |mark| + k) {
      assert s == (before + mark) + value + (mark + after);
      InsidePart(before + mark, value, mark + after, mark, k);
    }
    forall k | At(after, mark, k) ensures At(s, mark, |before| + |mark| + |value| + |mark| + k) {
      assert s == (before + mark + value + mark) + after + "";
      InsidePart(before + mark + value + mark, after, "", mark, k);
    }
  }

  lemma NoMarkInParts(before: string, value: string, after: string, mark: string)
    requires mark != "" && ExactlyTwo(Printed(before, value, after, mark), mark, |before|, |before| + |mark| + |value|)
    ensures Nowhere(before, mark) && Nowhere(value, mark) && Nowhere(after, mark)
  {
    MarksOfParts(before, value, after, mark);
  }

  ghost predicate ReadAs(output: string, mark: string, value: string) {
    exists i, j :: ExactlyTwo(output, mark, i, j) && output[i + |mark|..j] == value
  }

  ghost predicate PrintedAs(output: string, mark: string, value: string, before: string, after: string) {
    && output == Printed(before, value, after, mark)
    && Nowhere(before, mark) && Nowhere(value, mark) && Nowhere(after, mark)
  }

  lemma ReadIsPrinted(output: string, mark: string, value: string)
    requires mark != "" && ReadAs(output, mark, value)
    ensures exists before, after :: PrintedAs(output, mark, value, before, after)
  {
    var i, j :| ExactlyTwo(output, mark, i, j) && output[i + |mark|..j] == value;
    var before, after := output[..i], output[j + |mark|..];
    assert output == Printed(before, value, after, mark);
    NoMarkInParts(before, value, after, mark);
    assert PrintedAs(output, mark, value, before, after);
  }

  /** An output is read as `value` exactly when it is `value` printed amid chatter, with no
      sentinel in any of the three; and no other value can be read from it. */
  lemma ReadExactlyWhenPrinted(output: string, mark: string, value: string)
    requires mark != "" && Borderless(mark)
    ensures ReadAs(output, mark, value) <==> exists before, after :: PrintedAs(output, mark, value, before, after)
    ensures forall other :: ReadAs(output, mark, value) && ReadAs(output, mark, other) ==> other == value
  {
    if ReadAs(output, mark, value) {
      ReadIsPrinted(output, mark, value);
    }
    if before, after :| PrintedAs(output, mark, value, before, after) {
      PrintedValueIsFound(before, value, after, mark);
      var i, j :| ExactlyTwo(output, mark, i, j);
      assert output[i + |mark|..j] == value;
    }
    forall other | ReadAs(output, mark, value) && ReadAs(output, mark, other) ensures other == value {
      var i, j :| ExactlyTwo(output, mark, i, j) && output[i + |mark|..j] == value;
      var x, y :| ExactlyTwo(output, mark, x, y) && output[x + |mark|..y] == other;
      assert At(output, mark, i) && At(output, mark, j);
    }
  }
}
