/** One printed value: `literal` writes it, `unquote` and `scalar` read it back. */
module TomlString {
  import opened Basics
  import opened Text

  /** A number as the serializer prints it. */
  type NumberText = s: string | s != "" && forall i :: 0 <= i < |s| ==> IsNumberChar(s[i]) witness "0"

  predicate IsNumberChar(c: char) {
    '0' <= c <= '9' || c == '+' || c == '-' || c == '.' || c == 'e' || c == 'E'
  }

  datatype JsonValue = JsonString(text: string) | JsonNumber(digits: NumberText) | JsonOther

  datatype Failure =
    | NotASetting
    | NotClosed
    | NotQuoted
    | UnreadableEscape
    | BadScalar(digits: nat)
    | NotConfirmed

  // ----- printing -----

  function HexDigit(n: nat): (c: char)
    requires n < 16
    ensures '0' <= c <= '9' || 'a' <= c <= 'f'
  {
    if n < 10 then '0' + n as char else 'a' + (n - 10) as char
  }

  function EscapeChar(c: char): string {
    if c == '"' then "\\\""
    else if c == '\\' then "\\\\"
    else if c as int == 0x08 then "\\b"
    else if c == '\t' then "\\t"
    else if c == '\n' then "\\n"
    else if c as int == 0x0C then "\\f"
    else if c == '\r' then "\\r"
    else if c as int < 0x20 then "\\u00" + [HexDigit(c as int / 16), HexDigit(c as int % 16)]
    else [c]
  }

  function Escape(s: string): string {
    if s == "" then "" else EscapeChar(s[0]) + Escape(s[1..])
  }

  function Quoted(s: string): string {
    "\"" + Escape(s) + "\""
  }

  function Literal(value: JsonValue): Result<string, Failure> {
    match value
    case JsonString(text) => Ok(Quoted(text))
    case JsonNumber(digits) => Ok(digits)
    case JsonOther => Err(NotASetting)
  }

  // ----- reading -----

  function HexValue(c: char): Option<nat> {
    if '0' <= c <= '9' then Some((c - '0') as nat)
    else if 'a' <= c <= 'f' then Some((c - 'a') as nat + 10)
    else if 'A' <= c <= 'F' then Some((c - 'A') as nat + 10)
    else None
  }

  function HexDigits(s: string): Option<nat> {
    if s == "" then Some(0)
    else match (HexDigits(s[..|s| - 1]), HexValue(s[|s| - 1]))
      case (Some(high), Some(low)) => Some(high * 16 + low)
      case _ => None
  }

  /** `UInt32(_, radix: 16)`: digits after an optional sign; only zero may be negative. */
  function UInt32Hex(s: string): Option<nat> {
    var signed := s != "" && (s[0] == '+' || s[0] == '-');
    var digits := if signed then s[1..] else s;
    if digits == "" then None
    else match HexDigits(digits)
      case None => None
      case Some(n) => if n > 0xFFFF_FFFF || (s[0] == '-' && n > 0) then None else Some(n)
  }

  /** `Unicode.Scalar(_)`: nothing for a surrogate or beyond the last plane. */
  function UnicodeScalar(n: nat): Option<char> {
    if n < 0xD800 || 0xE000 <= n < 0x11_0000 then Some(n as char) else None
  }

  function Scalar(text: string, digits: nat): Result<char, Failure> {
    if |text| < digits then Err(BadScalar(digits))
    else match UInt32Hex(text[..digits])
      case None => Err(BadScalar(digits))
      case Some(code) =>
        match UnicodeScalar(code)
        case None => Err(BadScalar(digits))
        case Some(c) => Ok(c)
  }

  function SimpleEscape(c: char): Option<char> {
    match c
    case 'n' => Some('\n')
    case 't' => Some('\t')
    case 'r' => Some('\r')
    case 'b' => Some(0x08 as char)
    case 'f' => Some(0x0C as char)
    case '\\' => Some('\\')
    case '"' => Some('"')
    case _ => None
  }

  function Prepend(s: string, r: Result<string, Failure>): Result<string, Failure> {
    match r
    case Ok(t) => Ok(s + t)
    case Err(e) => Err(e)
  }

  /** What a basic string says, from just after its opening quote. */
  function Unescape(s: string): Result<string, Failure> {
    if s == "" then Err(NotClosed)
    else if s[0] == '"' then Ok("")
    else if s[0] != '\\' then Prepend([s[0]], Unescape(s[1..]))
    else if |s| == 1 then Err(NotClosed)
    else if SimpleEscape(s[1]).Some? then Prepend([SimpleEscape(s[1]).value], Unescape(s[2..]))
    else if s[1] == 'u' || s[1] == 'U' then
      var digits := if s[1] == 'u' then 4 else 8;
      match Scalar(s[2..], digits)
      case Err(e) => Err(e)
      case Ok(c) => Prepend([c], Unescape(s[2 + digits..]))
    else Err(UnreadableEscape)
  }

  function Unquote(value: string): Result<string, Failure> {
    if value != "" && value[0] == '\'' then
      var end := IndexOf(value[1..], '\'');
      if end == |value| - 1 then Err(NotClosed) else Ok(value[1..1 + end])
    else if value == "" || value[0] != '"' then Err(NotQuoted)
    else Unescape(value[1..])
  }

  // ----- the round trip -----

  lemma ControlRoundTrip(c: char)
    requires c as int < 0x20
    ensures Scalar([ '0', '0', HexDigit(c as int / 16), HexDigit(c as int % 16)], 4) == Ok(c)
  {
    var h, l := HexDigit(c as int / 16), HexDigit(c as int % 16);
    var s := ['0', '0', h, l];
    assert s[..4] == s;
    assert s[..3] == ['0', '0', h] && s[..3][..2] == ['0', '0'] && s[..3][..2][..1] == ['0'];
    assert s[..3][..2][..1][..0] == "";
    assert HexValue(h) == Some(c as int / 16) && HexValue(l) == Some(c as int % 16);
    assert HexDigits(['0']) == Some(0);
    assert HexDigits(['0', '0']) == Some(0);
    assert HexDigits(['0', '0', h]) == Some(c as int / 16);
    assert HexDigits(s) == Some(c as int);
  }

  lemma UnescapeChar(c: char, rest: string)
    ensures Unescape(EscapeChar(c) + rest) == Prepend([c], Unescape(rest))
  {
    var e := EscapeChar(c) + rest;
    if |EscapeChar(c)| == 2 {
      assert e[2..] == rest;
    } else if |EscapeChar(c)| == 1 {
      assert e[1..] == rest;
    } else {
      ControlRoundTrip(c);
      assert e[2..] == EscapeChar(c)[2..] + rest;
      assert e[2..][..4] == EscapeChar(c)[2..] && EscapeChar(c)[2..][..4] == EscapeChar(c)[2..];
      assert EscapeChar(c)[2..] == ['0', '0', HexDigit(c as int / 16), HexDigit(c as int % 16)];
      assert e[6..] == rest;
    }
  }

  lemma Regroup(a: string, b: string, c: string, d: string)
    ensures a + (b + c + d) == (a + b) + c + d
  {
  }

  /** Every string a setting can hold is read back exactly, whatever follows its quote. */
  lemma {:induction false} UnescapeEscape(s: string, rest: string)
    ensures Unescape(Escape(s) + "\"" + rest) == Ok(s)
  {
    if s != "" {
      UnescapeEscape(s[1..], rest);
      UnescapeChar(s[0], Escape(s[1..]) + "\"" + rest);
      Regroup(EscapeChar(s[0]), Escape(s[1..]), "\"", rest);
      assert [s[0]] + s[1..] == s;
    } else {
      assert (Escape(s) + "\"" + rest)[0] == '"';
    }
  }

  lemma UnquoteQuoted(s: string, rest: string)
    ensures Unquote(Quoted(s) + rest) == Ok(s)
  {
    UnescapeEscape(s, rest);
    assert (Quoted(s) + rest)[1..] == Escape(s) + "\"" + rest;
  }

  lemma {:induction false} EscapeOneLine(s: string)
    ensures OneLine(Escape(s))
  {
    if s != "" {
      EscapeOneLine(s[1..]);
    }
  }

  /** What `literal` printed: one line, and neither end is white space. */
  ghost predicate IsRendered(r: string) {
    exists value :: Literal(value) == Ok(r)
  }

  lemma RenderedShape(r: string)
    requires IsRendered(r)
    ensures r != "" && OneLine(r) && !IsWhite(r[0]) && !IsWhite(r[|r| - 1])
  {
    var value :| Literal(value) == Ok(r);
    match value
    case JsonString(text) => EscapeOneLine(text);
    case JsonNumber(digits) =>
    case JsonOther =>
  }

  lemma PrependTwice(a: string, b: string, r: Result<string, Failure>)
    ensures Prepend(a, Prepend(b, r)) == Prepend(a + b, r)
  {
    if r.Ok? {
      assert a + (b + r.value) == (a + b) + r.value;
    }
  }

  /** `unquote`, as its loop runs. */
  method ReadQuoted(value: string) returns (r: Result<string, Failure>)
    ensures r == Unquote(value)
  {
    if value != "" && value[0] == '\'' {
      var end := IndexOf(value[1..], '\'');
      if end == |value| - 1 {
        return Err(NotClosed);
      }
      return Ok(value[1..1 + end]);
    }
    if value == "" || value[0] != '"' {
      return Err(NotQuoted);
    }
    var unescaped := "";
    var index := 1;
    assert Prepend("", Unescape(value[1..])) == Unescape(value[1..]) by {
      if Unescape(value[1..]).Ok? {
        assert "" + Unescape(value[1..]).value == Unescape(value[1..]).value;
      }
    }
    while index < |value|
      invariant 1 <= index <= |value|
      invariant Unquote(value) == Prepend(unescaped, Unescape(value[index..]))
    {
      var c := value[index];
      ghost var rest := value[index..];
      if c == '"' {
        assert unescaped + "" == unescaped;
        return Ok(unescaped);
      }
      if c == '\\' {
        index := index + 1;
        if index >= |value| {
          break;
        }
        var simple := SimpleEscape(value[index]);
        if simple.Some? {
          assert rest[2..] == value[index + 1..];
          PrependTwice(unescaped, [simple.value], Unescape(value[index + 1..]));
          unescaped := unescaped + [simple.value];
        } else if value[index] == 'u' || value[index] == 'U' {
          var digits := if value[index] == 'u' then 4 else 8;
          assert rest[2..] == value[index + 1..];
          var scalar := Scalar(value[index + 1..], digits);
          if scalar.Err? {
            return Err(scalar.error);
          }
          assert rest[2 + digits..] == value[index + digits + 1..];
          PrependTwice(unescaped, [scalar.value], Unescape(value[index + digits + 1..]));
          unescaped := unescaped + [scalar.value];
          index := index + digits;
        } else {
          return Err(UnreadableEscape);
        }
      } else {
        assert rest[1..] == value[index + 1..];
        PrependTwice(unescaped, [c], Unescape(value[index + 1..]));
        unescaped := unescaped + [c];
      }
      index := index + 1;
    }
    return Err(NotClosed);
  }
}
