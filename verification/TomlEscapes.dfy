/** Which `\u` and `\U` escapes the reader takes, digit by digit: more than the hexadecimal
    digits its refusal asks for. */
module TomlEscapes {
  import opened Text
  import opened TomlString

  predicate AllHex(s: string) {
    forall i :: 0 <= i < |s| ==> HexValue(s[i]).Some?
  }

  predicate AllZero(s: string) {
    forall i :: 0 <= i < |s| ==> s[i] == '0'
  }

  predicate IsSign(c: char) {
    c == '+' || c == '-'
  }

  /** The number that hexadecimal digits stand for, each at its place. */
  function Code(s: string): nat
    requires AllHex(s)
  {
    if s == "" then 0 else HexValue(s[0]).value * Power16(|s| - 1) + Code(s[1..])
  }

  function Power16(n: nat): nat {
    if n == 0 then 1 else 16 * Power16(n - 1)
  }

  /** A code point that is no surrogate. */
  predicate IsScalarCode(n: nat) {
    n < 0x11_0000 && !(0xD800 <= n < 0xE000)
  }

  lemma {:induction false} CodeOfMore(s: string, c: char)
    requires AllHex(s) && HexValue(c).Some?
    ensures AllHex(s + [c]) && Code(s + [c]) == 16 * Code(s) + HexValue(c).value
    decreases |s|
  {
    if s == "" {
      assert s + [c] == [c] && [c][1..] == "";
    } else {
      CodeOfMore(s[1..], c);
      assert (s + [c])[1..] == s[1..] + [c];
      Carries(HexValue(s[0]).value, Power16(|s| - 1), Code(s[1..]), HexValue(c).value);
    }
  }

  lemma Carries(d: nat, power: nat, code: nat, v: nat)
    ensures d * (16 * power) + (16 * code + v) == 16 * (d * power + code) + v
  {
  }

  /** The running value is the number, and there is none unless every character is a digit. */
  lemma {:induction false} HexDigitsIsCode(s: string)
    ensures HexDigits(s) == if AllHex(s) then Some(Code(s)) else None
    decreases |s|
  {
    if s != "" {
      var most, last := s[..|s| - 1], s[|s| - 1];
      HexDigitsIsCode(most);
      assert s == most + [last];
      if AllHex(s) {
        CodeOfMore(most, last);
      }
    }
  }

  lemma {:induction false} ZeroCode(s: string)
    requires AllHex(s)
    ensures Code(s) == 0 <==> AllZero(s)
    decreases |s|
  {
    if s != "" {
      ZeroCode(s[1..]);
      PowerIsPositive(|s| - 1);
      assert AllZero(s) <==> s[0] == '0' && AllZero(s[1..]) by {
        assert forall i :: 1 <= i < |s| ==> s[i] == s[1..][i - 1];
      }
      if HexValue(s[0]).value > 0 {
        assert HexValue(s[0]).value * Power16(|s| - 1) > 0;
      }
    }
  }

  lemma PowerIsPositive(n: nat)
    ensures Power16(n) > 0
  {
  }

  /** Digits that name a scalar, after a `+` or nothing; or zeros after a `-`. */
  predicate Taken(s: string) {
    s != "" &&
    if s[0] == '-' then |s| > 1 && AllZero(s[1..])
    else
      var digits := if s[0] == '+' then s[1..] else s;
      digits != "" && AllHex(digits) && IsScalarCode(Code(digits))
  }

  /** What is asked for in so many words: that many hexadecimal digits, naming a scalar. */
  function Strict(text: string, digits: nat): Result<char, Failure> {
    if digits > 0 && |text| >= digits && AllHex(text[..digits]) && IsScalarCode(Code(text[..digits])) then
      Ok(Code(text[..digits]) as char)
    else Err(BadScalar(digits))
  }

  lemma ZerosAreHex(s: string)
    requires AllZero(s)
    ensures AllHex(s) && Code(s) == 0
  {
    assert AllHex(s);
    ZeroCode(s);
  }

  /** An escape is taken exactly when its digits, up to one sign, are hexadecimal and name a
      scalar - after a minus, only zero does; and the scalar is the one they name. */
  lemma ScalarReadsExactly(text: string, digits: nat)
    ensures Scalar(text, digits).Ok? <==> |text| >= digits && Taken(text[..digits])
    ensures Scalar(text, digits).Ok? && !IsSign(text[0]) ==> Scalar(text, digits) == Strict(text, digits)
    ensures Scalar(text, digits).Ok? && IsSign(text[0]) ==>
              AllHex(text[1..digits]) && IsScalarCode(Code(text[1..digits]))
              && Scalar(text, digits) == Ok(Code(text[1..digits]) as char)
  {
    if |text| >= digits && digits > 0 {
      var s := text[..digits];
      assert s[1..] == text[1..digits];
      HexDigitsIsCode(if IsSign(s[0]) then s[1..] else s);
      if s[0] == '-' && AllHex(s[1..]) {
        ZeroCode(s[1..]);
      } else if s[0] == '-' && AllZero(s[1..]) {
        ZerosAreHex(s[1..]);
      }
    }
  }

  function Zeros(n: nat): (s: string)
    ensures |s| == n && AllZero(s)
  {
    seq(n, i => '0')
  }

  /** Whatever follows a first character, the reader takes what its refusal asks for and nothing
      else - exactly when that character is no sign. */
  lemma StrictExactlyWithoutSign(first: char, digits: nat)
    requires digits > 1
    ensures (forall rest :: Scalar([first] + rest, digits) == Strict([first] + rest, digits)) <==> !IsSign(first)
  {
    if IsSign(first) {
      var rest := Zeros(digits - 1);
      var text := [first] + rest;
      assert text[..digits][1..] == rest && text[1..digits] == rest;
      ZerosAreHex(rest);
      ScalarReadsExactly(text, digits);
      assert !AllHex(text[..digits]) by {
        assert text[..digits][0] == first && HexValue(first).None?;
      }
      assert Scalar(text, digits) != Strict(text, digits);
    } else {
      forall rest ensures Scalar([first] + rest, digits) == Strict([first] + rest, digits) {
        ScalarReadsExactly([first] + rest, digits);
        if |rest| + 1 >= digits {
          HexDigitsIsCode(([first] + rest)[..digits]);
        }
      }
    }
  }

  /** Three digits after a plus are read where four digits were asked for. */
  lemma SignIsRead()
    ensures Scalar("+041", 4) == Ok('A') && Strict("+041", 4).Err?
  {
    var text, digits := "+041", "041";
    assert digits[1..] == "41" && "41"[1..] == "1" && "1"[1..] == "";
    assert Power16(1) == 16 && Power16(2) == 256;
    assert Code(digits) == 0x41;
    assert text[..4] == text && text[1..4] == digits && text[1..] == digits;
    ScalarReadsExactly(text, 4);
    assert HexValue(text[0]).None?;
  }

  /** So a quoted value with such an escape is a string to the reader. */
  lemma SignedEscapeIsRead(rest: string)
    ensures Unescape("\\u+041" + "\"" + rest) == Ok("A")
  {
    var value, after := "\\u+041" + "\"" + rest, "\"" + rest;
    assert value[0] == '\\' && value[1] == 'u' && |value| > 6;
    assert value[2..][..4] == "+041" && value[6..] == after;
    assert Scalar(value[2..], 4) == Ok('A') by {
      SignIsRead();
      assert "+041"[..4] == "+041";
    }
    assert Unescape(after) == Ok("") && ['A'] + "" == "A";
    assert Unescape(value) == Prepend(['A'], Unescape(after));
  }
}
