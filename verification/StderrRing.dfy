/** The last few lines of what the engine said, fed chunk by chunk. A line is its bytes; the
    decoding of each line to text is not part of this model. */
module StderrRing {
  import opened Basics

  type Byte = int
  type Line = seq<Byte>

  const NEWLINE: Byte := 10
  const CARRIAGE_RETURN: Byte := 13
  const CAPACITY := 50

  /** The lines that have ended, each without its line break, and the bytes after them. */
  datatype Broken = Broken(complete: seq<Line>, partial: Line)

  /** Where the first newline is, or the length if there is none. */
  function FirstNewline(bytes: Line): (i: nat)
    ensures i <= |bytes| && (i < |bytes| ==> bytes[i] == NEWLINE)
    ensures forall j :: 0 <= j < i ==> bytes[j] != NEWLINE
  {
    if bytes == [] || bytes[0] == NEWLINE then 0 else 1 + FirstNewline(bytes[1..])
  }

  function Stripped(line: Line): Line {
    if line != [] && line[|line| - 1] == CARRIAGE_RETURN then line[..|line| - 1] else line
  }

  /** A whole stream, broken into lines. */
  function Break(bytes: Line): Broken
    decreases |bytes|
  {
    var i := FirstNewline(bytes);
    if i == |bytes| then Broken([], bytes)
    else
      var rest := Break(bytes[i + 1..]);
      rest.(complete := [Stripped(bytes[..i])] + rest.complete)
  }

  function Last<T>(s: seq<T>, n: int): (r: seq<T>) {
    if |s| <= n then s else if n <= 0 then [] else s[|s| - n..]
  }

  /** The lines held, oldest first: a partial line that is not empty counts as one. */
  function Held(b: Broken): seq<Line> {
    if b.partial == [] then b.complete else b.complete + [b.partial]
  }

  /** How many complete lines there is room for. */
  function Room(partial: Line): int {
    CAPACITY - if partial == [] then 0 else 1
  }

  function Trimmed(b: Broken): Broken {
    b.(complete := Last(b.complete, Room(b.partial)))
  }

  /** What one chunk does to a ring. */
  function Ingested(b: Broken, chunk: Line): Broken {
    var more := Break(b.partial + chunk);
    Trimmed(Broken(b.complete + more.complete, more.partial))
  }

  class StderrRing {
    var complete: seq<Line>
    var partial: Line

    function State(): Broken
      reads this
    {
      Broken(complete, partial)
    }

    constructor ()
      ensures State() == Broken([], [])
    {
      complete, partial := [], [];
    }

    method Lines() returns (lines: seq<Line>)
      ensures lines == Held(State())
    {
      lines := if partial == [] then complete else complete + [partial];
    }

    method Ingest(chunk: Line)
      modifies this
      ensures State() == Ingested(old(State()), chunk)
    {
      partial := partial + chunk;
      ghost var goal := Broken(complete + Break(partial).complete, Break(partial).partial);
      var newline := FirstNewline(partial);
      while newline < |partial|
        invariant newline == FirstNewline(partial)
        invariant Broken(complete + Break(partial).complete, Break(partial).partial) == goal
        decreases |partial|
      {
        BreakFirst(partial);
        Associates(complete, [Stripped(partial[..newline])], Break(partial[newline + 1..]).complete);
        var line := partial[..newline];
        if line != [] && line[|line| - 1] == CARRIAGE_RETURN {
          line := line[..|line| - 1];
        }
        complete := complete + [line];
        partial := partial[newline + 1..];
        newline := FirstNewline(partial);
      }
      assert Broken(complete, partial) == goal by {
        assert Break(partial) == Broken([], partial) && complete + [] == complete;
      }
      var overflow := |complete| - (CAPACITY - if partial == [] then 0 else 1);
      if overflow > 0 {
        complete := complete[overflow..];
      }
    }

    method Clear()
      modifies this
      ensures State() == Broken([], [])
    {
      complete, partial := [], [];
    }
  }

  // ----- the lines do not depend on the chunks -----

  /** The first line comes off the front. */
  lemma BreakFirst(bytes: Line)
    requires FirstNewline(bytes) < |bytes|
    ensures var i := FirstNewline(bytes); var rest := Break(bytes[i + 1..]);
            Break(bytes) == Broken([Stripped(bytes[..i])] + rest.complete, rest.partial)
  {
  }

  lemma {:induction false} BreakJoin(a: Line, b: Line)
    ensures Break(a + b) == Continued(Break(a), b)
    decreases |a|
  {
    var i := FirstNewline(a);
    if i == |a| {
      assert Break(a) == Broken([], a);
      assert [] + Break(a + b).complete == Break(a + b).complete;
    } else {
      SameFirst(a, b);
      var line, rest := Stripped(a[..i]), a[i + 1..];
      assert (a + b)[i + 1..] == rest + b && (a + b)[..i] == a[..i];
      BreakFirst(a);
      BreakFirst(a + b);
      BreakJoin(rest, b);
      Associates([line], Break(rest).complete, Break(Break(rest).partial + b).complete);
    }
  }

  /** More bytes after some that were broken. */
  function Continued(first: Broken, b: Line): Broken {
    var more := Break(first.partial + b);
    Broken(first.complete + more.complete, more.partial)
  }

  lemma {:induction false} SameFirst(a: Line, b: Line)
    requires FirstNewline(a) < |a|
    ensures FirstNewline(a + b) == FirstNewline(a)
    decreases |a|
  {
    if a[0] != NEWLINE {
      assert (a + b)[1..] == a[1..] + b;
      SameFirst(a[1..], b);
    }
  }

  /** A partial line ends only by a newline, which completes a line. */
  lemma PartialGrows(partial: Line, chunk: Line)
    requires partial != [] && Break(partial + chunk).complete == []
    ensures Break(partial + chunk).partial != []
  {
  }

  lemma LastOfLast<T>(x: seq<T>, m: int, y: seq<T>, n: int)
    requires n <= m + |y|
    ensures Last(Last(x, m) + y, n) == Last(x + y, n)
  {
  }

  /** The partial line holds no newline. */
  lemma {:induction false} PartialIsOpen(bytes: Line)
    ensures Break(Break(bytes).partial) == Broken([], Break(bytes).partial)
    decreases |bytes|
  {
    var i := FirstNewline(bytes);
    if i < |bytes| {
      PartialIsOpen(bytes[i + 1..]);
    }
  }

  /** Trimming after each chunk loses nothing that trimming once would keep. */
  lemma IngestTrims(stream: Line, chunk: Line)
    ensures Ingested(Trimmed(Break(stream)), chunk) == Trimmed(Break(stream + chunk))
  {
    var b := Break(stream);
    var more := Break(b.partial + chunk);
    BreakJoin(stream, chunk);
    if b.partial != [] && more.complete == [] {
      PartialGrows(b.partial, chunk);
    }
    LastOfLast(b.complete, Room(b.partial), more.complete, Room(more.partial));
  }

  function Concat(chunks: seq<Line>): Line {
    if chunks == [] then [] else Concat(chunks[..|chunks| - 1]) + chunks[|chunks| - 1]
  }

  /** A ring that was empty, after the chunks. */
  function Fed(chunks: seq<Line>): Broken {
    if chunks == [] then Broken([], [])
    else Ingested(Fed(chunks[..|chunks| - 1]), chunks[|chunks| - 1])
  }

  lemma {:induction false} FedIsTrimmed(chunks: seq<Line>)
    ensures Fed(chunks) == Trimmed(Break(Concat(chunks)))
    decreases |chunks|
  {
    if chunks == [] {
    } else {
      FedIsTrimmed(chunks[..|chunks| - 1]);
      IngestTrims(Concat(chunks[..|chunks| - 1]), chunks[|chunks| - 1]);
    }
  }

  /** However the stream was cut into chunks, the ring holds the last lines of the stream. */
  lemma LinesOfAnyChunking(chunks: seq<Line>)
    ensures Held(Fed(chunks)) == Last(Held(Break(Concat(chunks))), CAPACITY)
    ensures |Held(Fed(chunks))| <= CAPACITY
  {
    FedIsTrimmed(chunks);
    HeldTrimmed(Break(Concat(chunks)));
  }

  lemma HeldTrimmed(b: Broken)
    ensures Held(Trimmed(b)) == Last(Held(b), CAPACITY)
  {
  }
}
