/** What the reader reads, said without its walk: which quoted values are which strings, and
    which line of a document a lookup answers with. */
module TomlReading {
  import opened Basics
  import opened Text
  import opened TomlString
  import opened TomlEscapes

  // ----- quoted values -----

  /** What stands for one character of a basic string: the character, a short escape, or a long
      one with its digits. */
  datatype Piece = Itself(c: char) | Short(letter: char) | Long(letter: char, digits: string)

  /** The code point a short escape stands for. */
  function Escaped(letter: char): Option<nat> {
    match letter
    case 'b' => Some(0x08)
    case 't' => Some(0x09)
    case 'n' => Some(0x0A)
    case 'f' => Some(0x0C)
    case 'r' => Some(0x0D)
    case '"' => Some(0x22)
    case '\\' => Some(0x5C)
    case _ => None
  }

  /** How many digits a long escape has. */
  function DigitCount(letter: char): Option<nat> {
    match letter
    case 'u' => Some(4)
    case 'U' => Some(8)
    case _ => None
  }

  predicate IsPiece(p: Piece) {
    match p
    case Itself(c) => c != '"' && c != '\\'
    case Short(letter) => Escaped(letter).Some?
    case Long(letter, digits) => DigitCount(letter) == Some(|digits|) && Taken(digits)
  }

  predicate ArePieces(ps: seq<Piece>) {
    forall i :: 0 <= i < |ps| ==> IsPiece(ps[i])
  }

  function PieceText(p: Piece): string {
    match p
    case Itself(c) => [c]
    case Short(letter) => ['\\', letter]
    case Long(letter, digits) => ['\\', letter] + digits
  }

  function Unsigned(digits: string): string {
    if digits != "" && IsSign(digits[0]) then digits[1..] else digits
  }

  lemma TakenNames(digits: string)
    requires Taken(digits)
    ensures AllHex(Unsigned(digits)) && IsScalarCode(Code(Unsigned(digits)))
  {
    if digits[0] == '-' {
      ZerosAreHex(digits[1..]);
    }
  }

  /** The character that the digits of a long escape name. */
  function Named(digits: string): char
    requires Taken(digits)
  {
    TakenNames(digits);
    Code(Unsigned(digits)) as char
  }

  function PieceChar(p: Piece): char
    requires IsPiece(p)
  {
    match p
    case Itself(c) => c
    case Short(letter) => Escaped(letter).value as char
    case Long(_, digits) => Named(digits)
  }

  function PiecesText(ps: seq<Piece>): string {
    if ps == [] then "" else PieceText(ps[0]) + PiecesText(ps[1..])
  }

  function PiecesChars(ps: seq<Piece>): string
    requires ArePieces(ps)
  {
    if ps == [] then "" else [PieceChar(ps[0])] + PiecesChars(ps[1..])
  }

  lemma ScalarOfDigits(text: string, digits: nat)
    requires digits > 0
    ensures Scalar(text, digits) ==
            if |text| >= digits && Taken(text[..digits]) then Ok(Named(text[..digits])) else Err(BadScalar(digits))
  {
    ScalarReadsExactly(text, digits);
    if |text| >= digits && Taken(text[..digits]) {
      assert text[..digits][1..] == text[1..digits];
      assert text[..digits][0] == text[0];
    }
  }

  lemma PieceReads(p: Piece, rest: string)
    requires IsPiece(p)
    ensures Unescape(PieceText(p) + rest) == Prepend([PieceChar(p)], Unescape(rest))
  {
    var s := PieceText(p) + rest;
    match p
    case Itself(c) => assert s[1..] == rest;
    case Short(letter) =>
      assert s[2..] == rest;
      ShortMeans(letter);
    case Long(letter, digits) => LongReads(letter, digits, rest);
  }

  lemma LongReads(letter: char, digits: string, rest: string)
    requires DigitCount(letter) == Some(|digits|) && Taken(digits)
    ensures Unescape(['\\', letter] + digits + rest) == Prepend([Named(digits)], Unescape(rest))
  {
    LongText(letter, digits, rest);
    ScalarOfDigits(digits + rest, |digits|);
    ShortMeans(letter);
  }

  lemma ShortMeans(letter: char)
    ensures SimpleEscape(letter).Some? <==> Escaped(letter).Some?
    ensures Escaped(letter).Some? ==> SimpleEscape(letter).value == Escaped(letter).value as char
    ensures DigitCount(letter).Some? ==> Escaped(letter).None?
  {
  }

  lemma LongText(letter: char, digits: string, rest: string)
    ensures var s := ['\\', letter] + digits + rest;
            |s| >= 2 && s[0] == '\\' && s[1] == letter && s[2..] == digits + rest
            && s[2..][..|digits|] == digits && s[2 + |digits|..] == rest
  {
  }

  /** Pieces are read one after the other, whatever follows them. */
  lemma {:induction false} PiecesRead(ps: seq<Piece>, rest: string)
    requires ArePieces(ps)
    ensures Unescape(PiecesText(ps) + rest) == Prepend(PiecesChars(ps), Unescape(rest))
  {
    if ps == [] {
      assert PiecesText(ps) + rest == rest;
      NothingBefore(Unescape(rest));
    } else {
      PiecesRead(ps[1..], rest);
      Associates(PieceText(ps[0]), PiecesText(ps[1..]), rest);
      PieceReads(ps[0], PiecesText(ps[1..]) + rest);
      PrependTwice([PieceChar(ps[0])], PiecesChars(ps[1..]), Unescape(rest));
    }
  }

  lemma NothingBefore(r: Result<string, Failure>)
    ensures Prepend("", r) == r
  {
    if r.Ok? {
      assert "" + r.value == r.value;
    }
  }

  /** Where a basic string cannot be read on, and why. */
  predicate Stops(s: string, e: Failure) {
    if s == "" || s == "\\" then e == NotClosed
    else if s[0] != '\\' || Escaped(s[1]).Some? then false
    else match DigitCount(s[1])
      case None => e == UnreadableEscape
      case Some(n) => e == BadScalar(n) && !(|s| >= 2 + n && Taken(s[2..2 + n]))
  }

  lemma StopRefuses(s: string, e: Failure)
    requires Stops(s, e)
    ensures Unescape(s) == Err(e)
  {
    if |s| >= 2 {
      ShortMeans(s[1]);
      match DigitCount(s[1])
      case None =>
      case Some(n) =>
        ScalarOfDigits(s[2..], n);
        assert |s| >= 2 + n ==> s[2..][..n] == s[2..2 + n];
    }
  }

  /** The first piece of a basic string that neither ends nor stops. */
  lemma FirstPiece(s: string) returns (p: Piece, rest: string)
    requires s != "" && s[0] != '"' && forall e :: !Stops(s, e)
    ensures IsPiece(p) && s == PieceText(p) + rest
  {
    if s[0] != '\\' {
      p, rest := Itself(s[0]), s[1..];
    } else {
      assert !Stops(s, NotClosed) && !Stops(s, UnreadableEscape);
      if Escaped(s[1]).Some? {
        p, rest := Short(s[1]), s[2..];
      } else {
        var n := DigitCount(s[1]).value;
        assert !Stops(s, BadScalar(n));
        p, rest := Long(s[1], s[2..2 + n]), s[2 + n..];
        assert s == ['\\', s[1]] + s[2..2 + n] + s[2 + n..];
      }
    }
  }

  /** Every text is pieces up to a closing quote, or up to where it cannot be read on. */
  lemma {:induction false} InPieces(s: string) returns (ps: seq<Piece>, rest: string)
    ensures ArePieces(ps) && s == PiecesText(ps) + rest
    ensures (rest != "" && rest[0] == '"') || exists e :: Stops(rest, e)
    decreases |s|
  {
    assert s == "" ==> Stops(s, NotClosed);
    if (s != "" && s[0] == '"') || exists e :: Stops(s, e) {
      ps, rest := [], s;
    } else {
      var p, after := FirstPiece(s);
      var more;
      more, rest := InPieces(after);
      ps := [p] + more;
      assert ps[1..] == more;
      Associates(PieceText(p), PiecesText(more), rest);
    }
  }

  predicate IsLiteral(value: string, t: string) {
    '\'' !in t && ("'" + t + "'") <= value
  }

  ghost predicate IsBasic(value: string, t: string) {
    exists ps, rest :: ArePieces(ps) && value == "\"" + (PiecesText(ps) + ("\"" + rest)) && t == PiecesChars(ps)
  }

  /** A value is read as a string exactly when it begins with that string between apostrophes
      or, piece for piece, between quotes. */
  lemma StringReadsExactly(value: string, t: string)
    ensures Unquote(value) == Ok(t) <==> IsLiteral(value, t) || IsBasic(value, t)
  {
    if value != "" && value[0] == '\'' {
      LiteralReadsExactly(value, t);
    } else if value != "" && value[0] == '"' {
      BasicReadsExactly(value, t);
    }
  }

  lemma LiteralReadsExactly(value: string, t: string)
    requires value != "" && value[0] == '\''
    ensures Unquote(value) == Ok(t) <==> IsLiteral(value, t)
    ensures Unquote(value).Err? <==> '\'' !in value[1..]
    ensures Unquote(value).Err? ==> Unquote(value) == Err(NotClosed)
  {
    var end := IndexOf(value[1..], '\'');
    if end < |value| - 1 {
      assert value == "'" + value[1..1 + end] + "'" + value[2 + end..];
      assert value[1..1 + end] == value[1..][..end];
    }
    if IsLiteral(value, t) {
      assert value[1 + |t|] == '\'' && value[1..][|t|] == '\'';
      assert value[1..1 + |t|] == t;
      assert end == |t| by {
        assert value[1..][..|t|] == t;
      }
    }
  }

  lemma BasicReadsExactly(value: string, t: string)
    requires value != "" && value[0] == '"'
    ensures Unquote(value) == Ok(t) <==> IsBasic(value, t)
  {
    if Unquote(value) == Ok(t) {
      var ps, rest := InPieces(value[1..]);
      PiecesRead(ps, rest);
      if rest != "" && rest[0] == '"' {
        assert rest == "\"" + rest[1..];
        assert value == "\"" + (PiecesText(ps) + ("\"" + rest[1..]));
        assert PiecesChars(ps) + "" == PiecesChars(ps);
      } else {
        var e :| Stops(rest, e);
        StopRefuses(rest, e);
        assert false;
      }
    }
    if IsBasic(value, t) {
      var ps, rest :| ArePieces(ps) && value == "\"" + (PiecesText(ps) + ("\"" + rest)) && t == PiecesChars(ps);
      assert value[1..] == PiecesText(ps) + ("\"" + rest);
      PiecesRead(ps, "\"" + rest);
      assert PiecesChars(ps) + "" == PiecesChars(ps);
    }
  }

  /** A value is refused exactly where it has no quote in front, its apostrophe is not closed,
      or its pieces run into something that cannot be read on; and the refusal says which. */
  ghost predicate Refuses(value: string, e: Failure) {
    if value == "" || (value[0] != '\'' && value[0] != '"') then e == NotQuoted
    else if value[0] == '\'' then e == NotClosed && '\'' !in value[1..]
    else exists ps, stop :: ArePieces(ps) && value[1..] == PiecesText(ps) + stop && Stops(stop, e)
  }

  lemma RefusedExactly(value: string, e: Failure)
    ensures Unquote(value) == Err(e) <==> Refuses(value, e)
  {
    if value != "" && value[0] == '\'' {
      LiteralReadsExactly(value, "");
    } else if value != "" && value[0] == '"' {
      if Unquote(value) == Err(e) {
        var ps, rest := InPieces(value[1..]);
        PiecesRead(ps, rest);
        if rest != "" && rest[0] == '"' {
          assert false;
        } else {
          var e' :| Stops(rest, e');
          StopRefuses(rest, e');
        }
      }
      if Refuses(value, e) {
        var ps, stop :| ArePieces(ps) && value[1..] == PiecesText(ps) + stop && Stops(stop, e);
        PiecesRead(ps, stop);
        StopRefuses(stop, e);
      }
    }
  }
}
