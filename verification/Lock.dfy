/** The dependency lock: printed from a resolution report, read back entry by entry. */
module Lock {
  import opened Text

  /** `str.isspace`, which `\s` and `strip` use. */
  predicate IsSpace(c: char) {
    var n := c as int;
    || 0x09 <= n <= 0x0D || 0x1C <= n <= 0x20 || n == 0x85 || n == 0xA0 || n == 0x1680
    || 0x2000 <= n <= 0x200A || n == 0x2028 || n == 0x2029 || n == 0x202F || n == 0x205F || n == 0x3000
  }

  /** Where `splitlines` cuts. A break of two characters cuts twice here; the empty line
      between is dropped with the other blank lines. */
  predicate IsBreak(c: char) {
    var n := c as int;
    0x0A <= n <= 0x0D || 0x1C <= n <= 0x1E || n == 0x85 || n == 0x2028 || n == 0x2029
  }

  predicate IsNameChar(c: char) {
    'A' <= c <= 'Z' || 'a' <= c <= 'z' || '0' <= c <= '9' || c == '.' || c == '_' || c == '-'
  }

  predicate IsVersionChar(c: char) {
    !IsSpace(c) && c != ';' && c != '#'
  }

  predicate IsHex(c: char) {
    '0' <= c <= '9' || 'a' <= c <= 'f'
  }

  const HASH_MARK := "--hash=sha256:"
  const DIGEST_LENGTH := 64

  datatype Locked = Locked(name: string, version: string, hashes: seq<string>)

  datatype LockError = NotPinned(entry: string) | NoHash(name: string) | PinsNothing

  // ----- reading -----

  /** The continuations joined: a backslash and a newline are a space. */
  function Joined(text: string): string {
    if text == "" then ""
    else if |text| >= 2 && text[0] == '\\' && text[1] == '\n' then " " + Joined(text[2..])
    else [text[0]] + Joined(text[1..])
  }

  function Lines(text: string): (lines: seq<string>)
    ensures lines != []
  {
    if text == "" then [""]
    else
      var rest := Lines(text[1..]);
      if IsBreak(text[0]) then [""] + rest else [[text[0]] + rest[0]] + rest[1..]
  }

  function StripStart(s: string): string {
    if s != "" && IsSpace(s[0]) then StripStart(s[1..]) else s
  }

  function StripEnd(s: string): string {
    if s != "" && IsSpace(s[|s| - 1]) then StripEnd(s[..|s| - 1]) else s
  }

  /** The line, stripped, unless it is blank or a comment. */
  function EntryOf(line: string): seq<string> {
    var stripped := StripEnd(StripStart(line));
    if stripped == "" || StripStart(line)[..1] == "#" then [] else [stripped]
  }

  function EntriesOf(lines: seq<string>): seq<string> {
    if lines == [] then [] else EntryOf(lines[0]) + EntriesOf(lines[1..])
  }

  function Entries(text: string): seq<string> {
    EntriesOf(Lines(Joined(text)))
  }

  function Run(s: string, p: char -> bool): (n: nat)
    ensures n <= |s|
    ensures forall i :: 0 <= i < n ==> p(s[i])
    ensures n < |s| ==> !p(s[n])
  {
    if s == "" || !p(s[0]) then 0 else 1 + Run(s[1..], p)
  }

  /** What the pattern of a pinned entry takes from its start: name, spaces, `==`, spaces,
      version. Neither a name nor a space can be `=`, so the longest runs are the match. */
  function Pinned(entry: string): Option<(string, string)> {
    var n := Run(entry, IsNameChar);
    var afterName := StripStart(entry[n..]);
    if n == 0 || |afterName| < 2 || afterName[..2] != "==" then None
    else
      var rest := StripStart(afterName[2..]);
      var v := Run(rest, IsVersionChar);
      if v == 0 then None else Some((entry[..n], rest[..v]))
  }

  predicate HashAtStart(s: string) {
    && |s| >= |HASH_MARK| + DIGEST_LENGTH && s[..|HASH_MARK|] == HASH_MARK
    && forall i :: |HASH_MARK| <= i < |HASH_MARK| + DIGEST_LENGTH ==> IsHex(s[i])
  }

  /** Every hash of an entry, from the left. */
  function Hashes(s: string): seq<string> {
    if s == "" then []
    else if HashAtStart(s) then [s[7..|HASH_MARK| + DIGEST_LENGTH]] + Hashes(s[|HASH_MARK| + DIGEST_LENGTH..])
    else Hashes(s[1..])
  }

  function ParseEntry(entry: string): Result<Locked, LockError> {
    match Pinned(entry)
    case None => Err(NotPinned(entry))
    case Some((name, version)) =>
      if Hashes(entry) == [] then Err(NoHash(name)) else Ok(Locked(name, version, Hashes(entry)))
  }

  function ParseAll(entries: seq<string>): Result<seq<Locked>, LockError> {
    if entries == [] then Ok([])
    else match ParseAll(entries[..|entries| - 1])
      case Err(e) => Err(e)
      case Ok(before) =>
        match ParseEntry(entries[|entries| - 1])
        case Err(e) => Err(e)
        case Ok(locked) => Ok(before + [locked])
  }

  function ReadText(text: string): Result<seq<Locked>, LockError> {
    match ParseAll(Entries(text))
    case Err(e) => Err(e)
    case Ok(locked) => if locked == [] then Err(PinsNothing) else Ok(locked)
  }

  lemma {:induction false} FirstRefusal(entries: seq<string>, n: nat)
    requires n <= |entries| && ParseAll(entries[..n]).Err?
    ensures ParseAll(entries) == ParseAll(entries[..n])
    decreases |entries|
  {
    if n < |entries| {
      assert entries[..|entries| - 1][..n] == entries[..n];
      FirstRefusal(entries[..|entries| - 1], n);
    } else {
      assert entries[..n] == entries;
    }
  }

  method Read(text: string) returns (r: Result<seq<Locked>, LockError>)
    ensures r == ReadText(text)
  {
    var entries := Entries(text);
    var locked: seq<Locked> := [];
    for i := 0 to |entries|
      invariant ParseAll(entries[..i]) == Ok(locked)
    {
      assert entries[..i + 1][..i] == entries[..i];
      var parsed := ParseEntry(entries[i]);
      if parsed.Err? {
        FirstRefusal(entries, i + 1);
        return Err(parsed.error);
      }
      locked := locked + [parsed.value];
    }
    assert entries[..|entries|] == entries;
    if |locked| == 0 {
      return Err(PinsNothing);
    }
    return Ok(locked);
  }

  // ----- printing -----

  datatype Installed = Installed(name: string, version: string, digest: string, direct: bool, requested: bool)

  function Lower(s: string): string {
    seq(|s|, i requires 0 <= i < |s| => if 'A' <= s[i] <= 'Z' then (s[i] as int + 32) as char else s[i])
  }

  function Dashed(s: string): string {
    seq(|s|, i requires 0 <= i < |s| => if s[i] == '_' then '-' else s[i])
  }

  const ENGINE := "gpt-voicecoding"

  /** The engine itself is not published, so it is not in the lock. */
  predicate IsKept(one: Installed) {
    !((one.direct || one.requested) && Dashed(one.name) == ENGINE)
  }

  function Kept(report: seq<Installed>): seq<Installed> {
    if report == [] then []
    else Kept(report[..|report| - 1]) + if IsKept(report[|report| - 1]) then [report[|report| - 1]] else []
  }

  function EntryLines(one: Installed): seq<string> {
    [one.name + "==" + one.version + " \\", "    " + HASH_MARK + one.digest]
  }

  function AllEntryLines(kept: seq<Installed>): seq<string> {
    if kept == [] then [] else EntryLines(kept[0]) + AllEntryLines(kept[1..])
  }

  /** Each line with its newline. */
  function Ended(lines: seq<string>): string {
    if lines == [] then "" else lines[0] + "\n" + Ended(lines[1..])
  }

  /** `header` is the comment the lock begins with. */
  function LockText(header: seq<string>, sorted: seq<Installed>): string {
    Ended(header + AllEntryLines(Kept(sorted)))
  }

  lemma {:induction false} EntryLinesJoin(a: seq<Installed>, b: seq<Installed>)
    ensures AllEntryLines(a + b) == AllEntryLines(a) + AllEntryLines(b)
    decreases |a|
  {
    if a == [] {
      assert a + b == b;
    } else {
      EntryLinesJoin(a[1..], b);
      assert (a + b)[1..] == a[1..] + b;
    }
  }

  lemma OneMoreKept(report: seq<Installed>, i: nat)
    requires i < |report|
    ensures var now := Kept(report[..i + 1]);
            if IsKept(report[i]) then AllEntryLines(now) == AllEntryLines(Kept(report[..i])) + EntryLines(report[i])
            else now == Kept(report[..i])
  {
    assert report[..i + 1][..i] == report[..i];
    EntryLinesJoin(Kept(report[..i]), [report[i]]);
    assert AllEntryLines([report[i]]) == EntryLines(report[i]) + [];
  }

  /** The loop of `_as_lock`, over the report in the order of its names. */
  method AsLock(header: seq<string>, sorted: seq<Installed>) returns (text: string)
    ensures text == LockText(header, sorted)
  {
    var lines := header;
    for i := 0 to |sorted|
      invariant lines == header + AllEntryLines(Kept(sorted[..i]))
    {
      var one := sorted[i];
      OneMoreKept(sorted, i);
      if (one.direct || one.requested) && Dashed(one.name) == ENGINE {
        continue;
      }
      lines := lines + [one.name + "==" + one.version + " \\"];
      lines := lines + ["    " + HASH_MARK + one.digest];
    }
    assert sorted[..|sorted|] == sorted;
    text := Ended(lines);
  }
}
