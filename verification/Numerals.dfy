/** What a numeral is, whoever printed it: decimal digits, no needless zero in front, each digit
    counted at its place. */
module Numerals {

  predicate AllDigits(s: string) {
    forall i :: 0 <= i < |s| ==> '0' <= s[i] <= '9'
  }

  function Power10(k: nat): nat {
    if k == 0 then 1 else 10 * Power10(k - 1)
  }

  function Value(s: string): nat
    requires AllDigits(s)
  {
    if s == "" then 0 else (s[0] as int - '0' as int) * Power10(|s| - 1) + Value(s[1..])
  }

  /** `s` is the numeral of `n`. */
  predicate Shows(s: string, n: nat) {
    s != "" && AllDigits(s) && (|s| > 1 ==> s[0] != '0') && Value(s) == n
  }

  lemma {:induction false} ValueSnoc(s: string, c: char)
    requires AllDigits(s + [c])
    ensures AllDigits(s) && Value(s + [c]) == 10 * Value(s) + (c as int - '0' as int)
  {
    assert forall i :: 0 <= i < |s| ==> s[i] == (s + [c])[i];
    assert (s + [c])[|s|] == c;
    if s == "" {
      assert s + [c] == [c];
      assert [c][1..] == "";
    } else {
      assert (s + [c])[1..] == s[1..] + [c];
      ValueSnoc(s[1..], c);
      TenTimes(s[0] as int - '0' as int, Power10(|s| - 1));
    }
  }

  lemma TenTimes(d: int, p: int)
    ensures d * (10 * p) == 10 * (d * p)
  {
  }

  lemma PowerPositive(k: nat)
    ensures Power10(k) >= 1
  {
  }

  /** A numeral without a zero in front is not zero. */
  lemma LeadCounts(s: string)
    requires AllDigits(s) && s != "" && s[0] != '0'
    ensures Value(s) > 0
  {
    PowerPositive(|s| - 1);
    AtLeast(s[0] as int - '0' as int, Power10(|s| - 1));
  }

  lemma AtLeast(d: int, p: int)
    requires d >= 1 && p >= 1
    ensures d * p >= 1
  {
  }
}
