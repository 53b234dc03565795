/** What a line on stderr is, said without the ring: bytes without a newline, ended by one that a
    carriage return may go before; and which of them the ring shows. */
module StderrLines {
  import opened Basics
  import opened StderrRing

  /** A line and how it ended. */
  datatype WholeLine = WholeLine(line: Line, crlf: bool)

  /** A carriage return right before the newline belongs to the line's end. */
  predicate IsWhole(e: WholeLine) {
    10 !in e.line && (e.crlf || e.line == [] || e.line[|e.line| - 1] != 13)
  }

  predicate AreWhole(es: seq<WholeLine>) {
    forall i :: 0 <= i < |es| ==> IsWhole(es[i])
  }

  function WholeBytes(e: WholeLine): Line {
    e.line + if e.crlf then [13, 10] else [10]
  }

  function Written(es: seq<WholeLine>): Line {
    if es == [] then [] else WholeBytes(es[0]) + Written(es[1..])
  }

  function LinesOf(es: seq<WholeLine>): seq<Line> {
    seq(|es|, i requires 0 <= i < |es| => es[i].line)
  }

  /** A stream as lines that ended and bytes after them. */
  predicate IsStream(stream: Line, es: seq<WholeLine>, tail: Line) {
    AreWhole(es) && 10 !in tail && stream == Written(es) + tail
  }

  function Shown(es: seq<WholeLine>, tail: Line): seq<Line> {
    LinesOf(es) + if tail == [] then [] else [tail]
  }

  function LastFifty(lines: seq<Line>): seq<Line> {
    if |lines| <= 50 then lines else lines[|lines| - 50..]
  }

  lemma FirstNewlineAt(bytes: Line, i: nat)
    requires i < |bytes| && bytes[i] == 10 && 10 !in bytes[..i]
    ensures FirstNewline(bytes) == i
  {
    assert bytes[..i] + bytes[i..] == bytes;
  }

  lemma NoNewline(bytes: Line)
    requires 10 !in bytes
    ensures Break(bytes) == Broken([], bytes)
  {
    assert FirstNewline(bytes) == |bytes|;
  }

  /** One line comes off the front as it is. */
  lemma BreakWhole(e: WholeLine, rest: Line)
    requires IsWhole(e)
    ensures var b := Break(rest); Break(WholeBytes(e) + rest) == Broken([e.line] + b.complete, b.partial)
  {
    var front := e.line + if e.crlf then [13] else [];
    assert WholeBytes(e) + rest == front + [10] + rest;
    BreakAt(front, rest);
    assert Stripped(front) == e.line;
  }

  lemma BreakAt(front: Line, rest: Line)
    requires 10 !in front
    ensures var b := Break(rest); Break(front + [10] + rest) == Broken([Stripped(front)] + b.complete, b.partial)
  {
    var bytes := front + [10] + rest;
    assert bytes[..|front|] == front && bytes[|front| + 1..] == rest;
    FirstNewlineAt(bytes, |front|);
    BreakFirst(bytes);
  }

  /** A stream of lines is broken into exactly those lines. */
  lemma {:induction false} BreakStream(stream: Line, es: seq<WholeLine>, tail: Line)
    requires IsStream(stream, es, tail)
    ensures Break(stream) == Broken(LinesOf(es), tail)
    decreases |es|
  {
    if es == [] {
      assert stream == tail;
      NoNewline(tail);
    } else {
      var rest := Written(es[1..]) + tail;
      BreakStream(rest, es[1..], tail);
      FirstBytes(es, tail);
      FirstLine(es);
      BreakWhole(es[0], rest);
    }
  }

  lemma FirstBytes(es: seq<WholeLine>, tail: Line)
    requires es != []
    ensures Written(es) + tail == WholeBytes(es[0]) + (Written(es[1..]) + tail)
  {
    Associates(WholeBytes(es[0]), Written(es[1..]), tail);
  }

  lemma FirstLine(es: seq<WholeLine>)
    requires es != []
    ensures LinesOf(es) == [es[0].line] + LinesOf(es[1..])
  {
  }

  /** Every stream is lines that ended and bytes after them. */
  lemma {:induction false} EveryStreamIsLines(stream: Line)
    ensures exists es, tail :: IsStream(stream, es, tail)
    decreases |stream|
  {
    if 10 !in stream {
      assert Written([]) + stream == stream;
      assert IsStream(stream, [], stream);
    } else {
      var i := FirstNewline(stream);
      EveryStreamIsLines(stream[i + 1..]);
      var es, tail :| IsStream(stream[i + 1..], es, tail);
      var e := FrontLine(stream[..i]);
      assert stream == WholeBytes(e) + stream[i + 1..];
      Associates(WholeBytes(e), Written(es), tail);
      assert ([e] + es)[1..] == es;
      assert IsStream(stream, [e] + es, tail);
    }
  }

  lemma FrontLine(front: Line) returns (e: WholeLine)
    requires 10 !in front
    ensures IsWhole(e) && WholeBytes(e) == front + [10]
  {
    var n := |front|;
    if n > 0 && front[n - 1] == 13 {
      e := WholeLine(front[..n - 1], true);
      assert front == front[..n - 1] + [13];
    } else {
      e := WholeLine(front, false);
    }
  }

  /** Whatever lines a stream is made of and however it was cut into chunks, the ring shows the
      last fifty of them, what came after the last newline counting as one. */
  lemma RingShows(chunks: seq<Line>, es: seq<WholeLine>, tail: Line)
    requires IsStream(Concat(chunks), es, tail)
    ensures Held(Fed(chunks)) == LastFifty(Shown(es, tail))
  {
    LinesOfAnyChunking(chunks);
    BreakStream(Concat(chunks), es, tail);
    AllHeld(LinesOf(es), tail);
  }

  lemma AllHeld(lines: seq<Line>, tail: Line)
    ensures Held(Broken(lines, tail)) == lines + if tail == [] then [] else [tail]
  {
  }
}
