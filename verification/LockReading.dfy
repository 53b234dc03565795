/** Which locks are read, and as what, said of the text itself: where its entries are, when one is
    pinned, and which hashes it carries. */
module LockReading {
  import opened Basics
  import opened Text
  import opened Lock
  import opened LockRoundTrip

  // ----- the entries -----

  /** No backslash stands before a newline. */
  predicate NoContinuation(s: string) {
    forall i :: 0 <= i < |s| - 1 ==> !(s[i] == '\\' && s[i + 1] == '\n')
  }

  /** A text without a continuation is left alone... */
  lemma {:induction false} JoinedAlone(a: string)
    requires NoContinuation(a)
    ensures Joined(a) == a
    decreases |a|
  {
    if a != "" {
      assert NoContinuation(a[1..]) by {
        assert forall i :: 0 <= i < |a| - 1 ==> a[1..][i] == a[i + 1];
      }
      JoinedAlone(a[1..]);
      assert |a| >= 2 ==> !(a[0] == '\\' && a[1] == '\n');
    }
  }

  /** ...and the first continuation of a text becomes a space. */
  lemma {:induction false} JoinedAtFirst(a: string, b: string)
    requires NoContinuation(a)
    ensures Joined(a + ("\\\n" + b)) == a + (" " + Joined(b))
    decreases |a|
  {
    var tail := "\\\n" + b;
    if a == "" {
      assert "" + tail == tail && tail[2..] == b;
    } else {
      assert NoContinuation(a[1..]) by {
        assert forall i :: 0 <= i < |a| - 1 ==> a[1..][i] == a[i + 1];
      }
      JoinedAtFirst(a[1..], b);
      Prepended(a, tail);
      assert (a[1..] + tail)[0] == if |a| > 1 then a[1] else '\\';
      JoinedStep(a[0], a[1..] + tail);
      Prepended(a, " " + Joined(b));
    }
  }

  /** A text is cut at each line break, and nowhere else. */
  lemma {:induction false} LinesExactly(a: string, b: string, c: char)
    requires NoBreak(a) && IsBreak(c)
    ensures Lines(a) == [a] && Lines(a + ([c] + b)) == [a] + Lines(b)
    decreases |a|
  {
    var s := a + ([c] + b);
    if a == "" {
      assert s[0] == c && s[1..] == b;
    } else {
      LinesExactly(a[1..], b, c);
      assert s[0] == a[0] && s[1..] == a[1..] + ([c] + b);
      assert [a[0]] + a[1..] == a && ([a[1..]] + Lines(b))[1..] == Lines(b) && [a[1..]][1..] == [];
    }
  }

  predicate AllSpace(s: string) {
    forall i :: 0 <= i < |s| ==> IsSpace(s[i])
  }

  lemma {:induction false} StripStartParts(s: string) returns (lead: string)
    ensures AllSpace(lead) && s == lead + StripStart(s)
    ensures StripStart(s) == "" || !IsSpace(StripStart(s)[0])
  {
    if s != "" && IsSpace(s[0]) {
      var more := StripStartParts(s[1..]);
      lead := [s[0]] + more;
    } else {
      lead := "";
    }
  }

  lemma {:induction false} StripEndParts(s: string) returns (tail: string)
    ensures AllSpace(tail) && s == StripEnd(s) + tail
    ensures StripEnd(s) == "" || !IsSpace(StripEnd(s)[|StripEnd(s)| - 1])
  {
    if s != "" && IsSpace(s[|s| - 1]) {
      var more := StripEndParts(s[..|s| - 1]);
      tail := more + [s[|s| - 1]];
    } else {
      tail := "";
    }
  }

  lemma {:induction false} StripEndSkips(a: string, b: string)
    requires AllSpace(b) && (a == "" || !IsSpace(a[|a| - 1]))
    ensures StripEnd(a + b) == a
    decreases |b|
  {
    if b == "" {
      assert a + b == a;
    } else {
      assert (a + b)[..|a + b| - 1] == a + b[..|b| - 1];
      StripEndSkips(a, b[..|b| - 1]);
    }
  }

  /** A line is an entry, without the spaces around it, unless it is blank or a comment. */
  lemma EntryExactly(lead: string, t: string, tail: string)
    requires AllSpace(lead) && AllSpace(tail)
    requires t == "" || (!IsSpace(t[0]) && !IsSpace(t[|t| - 1]))
    ensures EntryOf(lead + (t + tail)) == if t == "" || t[0] == '#' then [] else [t]
  {
    if t == "" {
      assert lead + (t + tail) == (lead + tail) + "";
      SpacesStripped(lead + tail, "");
    } else {
      SpacesStripped(lead, t + tail);
      StripEndSkips(t, tail);
      assert (t + tail)[..1] == [t[0]];
    }
  }

  lemma EveryLineIsSuch(line: string) returns (lead: string, t: string, tail: string)
    ensures AllSpace(lead) && AllSpace(tail) && line == lead + (t + tail)
    ensures t == "" || (!IsSpace(t[0]) && !IsSpace(t[|t| - 1]))
  {
    lead := StripStartParts(line);
    tail := StripEndParts(StripStart(line));
    t := StripEnd(StripStart(line));
    if t != "" {
      assert t[0] == StripStart(line)[0];
    }
  }

  // ----- the pin -----

  predicate AllNameChars(s: string) {
    forall i :: 0 <= i < |s| ==> IsNameChar(s[i])
  }

  predicate AllVersionChars(s: string) {
    forall i :: 0 <= i < |s| ==> IsVersionChar(s[i])
  }

  predicate PinnedBy(entry: string, name: string, a: string, b: string, version: string, rest: string) {
    && name != "" && AllNameChars(name) && AllSpace(a) && AllSpace(b)
    && version != "" && AllVersionChars(version) && (rest == "" || !IsVersionChar(rest[0]))
    && entry == name + (a + ("==" + (b + (version + rest))))
  }

  /** An entry begins with a name, `==` and a version, with spaces around the `==` at will; and the
      version goes on as far as one can. */
  ghost predicate IsPinned(entry: string, name: string, version: string) {
    exists a, b, rest :: PinnedBy(entry, name, a, b, version, rest)
  }

  lemma PinIsRead(entry: string, name: string, a: string, b: string, version: string, rest: string)
    requires PinnedBy(entry, name, a, b, version, rest)
    ensures Pinned(entry) == Some((name, version))
  {
    var afterVersion, afterEquals := version + rest, b + (version + rest);
    var afterName := a + ("==" + afterEquals);
    RunIs(name, afterName, IsNameChar);
    assert entry[..|name|] == name && entry[|name|..] == afterName;
    SpacesStripped(a, "==" + afterEquals);
    assert ("==" + afterEquals)[..2] == "==" && ("==" + afterEquals)[2..] == afterEquals;
    SpacesStripped(b, afterVersion);
    RunIs(version, rest, IsVersionChar);
    assert afterVersion[..|version|] == version;
  }

  lemma PinParts(entry: string) returns (a: string, b: string, rest: string)
    requires Pinned(entry).Some?
    ensures PinnedBy(entry, Pinned(entry).value.0, a, b, Pinned(entry).value.1, rest)
  {
    var n := Run(entry, IsNameChar);
    a := StripStartParts(entry[n..]);
    var afterName := StripStart(entry[n..]);
    b := StripStartParts(afterName[2..]);
    var afterEquals := StripStart(afterName[2..]);
    var v := Run(afterEquals, IsVersionChar);
    rest := afterEquals[v..];
    PinRegroup(entry, n, a, afterName, b, afterEquals, v);
  }

  lemma PinRegroup(entry: string, n: nat, a: string, afterName: string, b: string, afterEquals: string, v: nat)
    requires n <= |entry| && entry[n..] == a + afterName && |afterName| >= 2 && afterName[..2] == "=="
    requires afterName[2..] == b + afterEquals && v <= |afterEquals|
    ensures entry == entry[..n] + (a + ("==" + (b + (afterEquals[..v] + afterEquals[v..]))))
  {
    assert afterEquals == afterEquals[..v] + afterEquals[v..];
    assert afterName == "==" + (b + afterEquals);
    assert entry == entry[..n] + (a + afterName);
  }

  lemma PinnedExactly(entry: string, name: string, version: string)
    ensures Pinned(entry) == Some((name, version)) <==> IsPinned(entry, name, version)
  {
    if Pinned(entry) == Some((name, version)) {
      var a, b, rest := PinParts(entry);
    }
    if IsPinned(entry, name, version) {
      var a, b, rest :| PinnedBy(entry, name, a, b, version, rest);
      PinIsRead(entry, name, a, b, version, rest);
    }
  }

  // ----- the hashes -----

  /** A hash option begins at `i`: its mark, and sixty-four hexadecimal digits. */
  predicate HashAt(s: string, i: int) {
    && 0 <= i <= |s| - 78 && s[i..i + 14] == "--hash=sha256:"
    && forall j :: i + 14 <= j < i + 78 ==> IsHex(s[j])
  }

  /** `r` is every hash of `s`, in order, and `at` where each begins. */
  ghost predicate AreHashes(r: seq<string>, s: string, at: seq<nat>) {
    && |at| == |r| && (forall j, k :: 0 <= j < k < |at| ==> at[j] < at[k])
    && (forall i: nat :: i in at <==> HashAt(s, i))
    && (forall k :: 0 <= k < |at| ==> at[k] + 78 <= |s| && r[k] == s[at[k] + 7..at[k] + 78])
  }

  lemma FrontHash(s: string)
    ensures HashAt(s, 0) <==> HashAtStart(s)
  {
    if HashAt(s, 0) {
      assert s[0..14] == s[..14];
    }
  }

  lemma HashOfRest(s: string, n: nat, i: nat)
    requires n <= |s|
    ensures HashAt(s[n..], i) <==> HashAt(s, n + i)
  {
    var rest := s[n..];
    if i + 78 <= |rest| {
      assert rest[i..i + 14] == s[n + i..n + i + 14];
      assert forall j :: i + 14 <= j < i + 78 ==> rest[j] == s[n + j];
      if HashAt(rest, i) {
        forall j | n + i + 14 <= j < n + i + 78 ensures IsHex(s[j]) {
          assert rest[j - n] == s[j];
        }
      }
    }
  }

  lemma MarkBegins(s: string, i: nat)
    requires HashAt(s, i)
    ensures s[i] == '-' && s[i + 1] == '-'
  {
    assert s[i] == s[i..i + 14][0] && s[i + 1] == s[i..i + 14][1];
  }

  lemma NoTwoDashes(s: string, i: nat)
    requires HashAt(s, 0) && 0 < i < 78 && i + 1 < |s|
    ensures !(s[i] == '-' && s[i + 1] == '-')
  {
    assert forall j :: 0 <= j < 14 ==> s[j] == s[0..14][j] == "--hash=sha256:"[j];
  }

  /** No hash begins inside another: the two dashes are nowhere else in it. */
  lemma HashesApart(s: string, i: nat)
    requires HashAt(s, 0) && 0 < i < 78
    ensures !HashAt(s, i)
  {
    if i + 1 < |s| {
      NoTwoDashes(s, i);
    }
    if HashAt(s, i) {
      MarkBegins(s, i);
    }
  }

  function Shifted(at: seq<nat>, n: nat): (r: seq<nat>)
    ensures |r| == |at| && forall k :: 0 <= k < |r| ==> r[k] == at[k] + n
  {
    seq(|at|, k requires 0 <= k < |at| => at[k] + n)
  }

  lemma ShiftedHas(at: seq<nat>, n: nat, i: nat)
    ensures i in Shifted(at, n) <==> i >= n && i - n in at
  {
    if i >= n && i - n in at {
      var k :| 0 <= k < |at| && at[k] == i - n;
      assert Shifted(at, n)[k] == i;
    }
  }

  lemma HashAfterFirst(s: string, more: seq<nat>, i: nat)
    requires HashAt(s, 0) && |s| >= 78 && forall i: nat :: i in more <==> HashAt(s[78..], i)
    ensures i in [0] + Shifted(more, 78) <==> HashAt(s, i)
  {
    ShiftedHas(more, 78, i);
    if i >= 78 {
      HashOfRest(s, 78, i - 78);
    } else if i > 0 {
      HashesApart(s, i);
    }
  }

  lemma HashAfterNone(s: string, more: seq<nat>, i: nat)
    requires s != "" && !HashAt(s, 0) && forall i: nat :: i in more <==> HashAt(s[1..], i)
    ensures i in Shifted(more, 1) <==> HashAt(s, i)
  {
    ShiftedHas(more, 1, i);
    if i > 0 {
      HashOfRest(s, 1, i - 1);
    }
  }

  lemma HashValues(s: string, n: nat, more: seq<nat>, r: seq<string>)
    requires n <= |s| && AreHashes(r, s[n..], more)
    ensures forall k :: 0 <= k < |more| ==> more[k] + n + 78 <= |s| && r[k] == s[more[k] + n + 7..more[k] + n + 78]
  {
  }

  lemma WithFirst(s: string, more: seq<nat>, r: seq<string>)
    requires HashAt(s, 0) && |s| >= 78 && AreHashes(r, s[78..], more)
    ensures AreHashes([s[7..78]] + r, s, [0] + Shifted(more, 78))
  {
    forall i: nat ensures i in [0] + Shifted(more, 78) <==> HashAt(s, i) {
      HashAfterFirst(s, more, i);
    }
    HashValues(s, 78, more, r);
  }

  lemma WithoutFirst(s: string, more: seq<nat>, r: seq<string>)
    requires s != "" && !HashAt(s, 0) && AreHashes(r, s[1..], more)
    ensures AreHashes(r, s, Shifted(more, 1))
  {
    forall i: nat ensures i in Shifted(more, 1) <==> HashAt(s, i) {
      HashAfterNone(s, more, i);
    }
    HashValues(s, 1, more, r);
  }

  lemma {:induction false} HashesAt(s: string) returns (at: seq<nat>)
    ensures AreHashes(Hashes(s), s, at)
    decreases |s|
  {
    FrontHash(s);
    if s == "" {
      at := [];
    } else if HashAtStart(s) {
      var more := HashesAt(s[78..]);
      at := [0] + Shifted(more, 78);
      WithFirst(s, more, Hashes(s[78..]));
    } else {
      var more := HashesAt(s[1..]);
      at := Shifted(more, 1);
      WithoutFirst(s, more, Hashes(s[1..]));
    }
  }

  predicate Climbs(at: seq<nat>) {
    forall j, k :: 0 <= j < k < |at| ==> at[j] < at[k]
  }

  ghost predicate SameMembers(at: seq<nat>, to: seq<nat>) {
    forall i: nat :: i in at <==> i in to
  }

  lemma EndsAlike(at: seq<nat>, to: seq<nat>)
    requires Climbs(at) && Climbs(to) && SameMembers(at, to)
    ensures at == [] <==> to == []
    ensures at != [] ==> at[|at| - 1] == to[|to| - 1]
  {
    assert at != [] ==> at[|at| - 1] in at;
    assert to != [] ==> to[|to| - 1] in to;
  }

  lemma WithoutLast(at: seq<nat>, i: nat)
    requires Climbs(at) && at != []
    ensures i in at[..|at| - 1] <==> i in at && i != at[|at| - 1]
  {
    assert at == at[..|at| - 1] + [at[|at| - 1]];
  }

  lemma WithoutEnds(at: seq<nat>, to: seq<nat>)
    requires Climbs(at) && Climbs(to) && SameMembers(at, to) && at != [] && to != []
    requires at[|at| - 1] == to[|to| - 1]
    ensures SameMembers(at[..|at| - 1], to[..|to| - 1])
  {
    var a, b := at[..|at| - 1], to[..|to| - 1];
    forall i: nat ensures i in a <==> i in b {
      WithoutLast(at, i);
      WithoutLast(to, i);
    }
  }

  lemma {:induction false} SamePositions(at: seq<nat>, to: seq<nat>)
    requires Climbs(at) && Climbs(to) && SameMembers(at, to)
    ensures at == to
    decreases |at|
  {
    EndsAlike(at, to);
    if at != [] {
      WithoutEnds(at, to);
      SamePositions(at[..|at| - 1], to[..|to| - 1]);
      assert at == at[..|at| - 1] + [at[|at| - 1]] && to == to[..|to| - 1] + [to[|to| - 1]];
    }
  }

  /** What is read of an entry's hashes is all of them, each once, in order, and nothing else. */
  lemma HashesAre(r: seq<string>, s: string)
    ensures r == Hashes(s) <==> exists at :: AreHashes(r, s, at)
  {
    var at := HashesAt(s);
    if exists to :: AreHashes(r, s, to) {
      var to :| AreHashes(r, s, to);
      assert SameMembers(at, to) by {
        forall i: nat ensures i in at <==> i in to {
          assert i in at <==> HashAt(s, i);
        }
      }
      SamePositions(at, to);
    }
  }

  lemma NoHashExactly(s: string)
    ensures Hashes(s) == [] <==> forall i: nat :: !HashAt(s, i)
  {
    var at := HashesAt(s);
    assert at != [] ==> at[0] in at && HashAt(s, at[0]);
    forall i: nat ensures HashAt(s, i) ==> at != [] {
      assert HashAt(s, i) ==> i in at;
    }
  }

  // ----- the lock -----

  ghost predicate IsLocked(entry: string, one: Locked) {
    IsPinned(entry, one.name, one.version) && one.hashes != [] && exists at :: AreHashes(one.hashes, entry, at)
  }

  ghost predicate IsRefused(entry: string, e: LockError) {
    match e
    case NotPinned(which) => which == entry && forall name, version :: !IsPinned(entry, name, version)
    case NoHash(name) => (exists version :: IsPinned(entry, name, version)) && forall i: nat :: !HashAt(entry, i)
    case PinsNothing => false
  }

  /** An entry is taken exactly when it is pinned and carries a hash, and refused for the first of
      the two that it lacks. */
  lemma EntryTakenExactly(entry: string, one: Locked, e: LockError)
    ensures ParseEntry(entry) == Ok(one) <==> IsLocked(entry, one)
    ensures ParseEntry(entry) == Err(e) <==> IsRefused(entry, e)
  {
    HashesAre(one.hashes, entry);
    NoHashExactly(entry);
    forall name, version ensures Pinned(entry) == Some((name, version)) <==> IsPinned(entry, name, version) {
      PinnedExactly(entry, name, version);
    }
    if Pinned(entry).Some? {
      assert IsPinned(entry, Pinned(entry).value.0, Pinned(entry).value.1);
    }
  }

  ghost predicate AllLocked(entries: seq<string>, locked: seq<Locked>) {
    |locked| == |entries| && forall i :: 0 <= i < |entries| ==> IsLocked(entries[i], locked[i])
  }

  ghost predicate IsTaken(entry: string) {
    exists one :: IsLocked(entry, one)
  }

  ghost predicate FirstRefused(entries: seq<string>, i: nat, e: LockError) {
    && i < |entries| && IsRefused(entries[i], e)
    && forall j :: 0 <= j < i ==> IsTaken(entries[j])
  }

  ghost predicate ReadAs(r: Result<seq<Locked>, LockError>, entries: seq<string>) {
    match r
    case Ok(locked) => AllLocked(entries, locked)
    case Err(e) => exists i :: FirstRefused(entries, i, e)
  }

  lemma {:induction false} ParsedAs(entries: seq<string>)
    ensures ReadAs(ParseAll(entries), entries)
    decreases |entries|
  {
    if entries != [] {
      var n := |entries| - 1;
      ParsedAs(entries[..n]);
      ParsedMore(entries, n);
    }
  }

  lemma RefusalStands(entries: seq<string>, entry: string, i: nat, e: LockError)
    requires FirstRefused(entries, i, e)
    ensures FirstRefused(entries + [entry], i, e)
  {
    var more := entries + [entry];
    assert forall j :: 0 <= j < |entries| ==> more[j] == entries[j];
  }

  lemma RefusedHere(entries: seq<string>, entry: string, locked: seq<Locked>, e: LockError)
    requires AllLocked(entries, locked) && IsRefused(entry, e)
    ensures FirstRefused(entries + [entry], |entries|, e)
  {
    var more := entries + [entry];
    forall j | 0 <= j < |entries| ensures IsTaken(more[j]) {
      assert IsLocked(more[j], locked[j]);
    }
  }

  lemma LockedHere(entries: seq<string>, entry: string, locked: seq<Locked>, one: Locked)
    requires AllLocked(entries, locked) && IsLocked(entry, one)
    ensures AllLocked(entries + [entry], locked + [one])
  {
  }

  lemma ParsedMore(entries: seq<string>, n: nat)
    requires |entries| == n + 1 && ReadAs(ParseAll(entries[..n]), entries[..n])
    ensures ReadAs(ParseAll(entries), entries)
  {
    var before, last := entries[..n], entries[n];
    assert entries == before + [last];
    match ParseAll(before)
    case Err(e) =>
      var i :| FirstRefused(before, i, e);
      RefusalStands(before, last, i, e);
    case Ok(locked) =>
      match ParseEntry(last) {
        case Ok(one) =>
          EntryTakenExactly(last, one, PinsNothing);
          LockedHere(before, last, locked, one);
        case Err(e) =>
          EntryTakenExactly(last, Locked("", "", []), e);
          RefusedHere(before, last, locked, e);
      }
  }

  /** A lock is read exactly where it has entries and each is pinned and carries a hash; and what is
      read is each with its version and all its hashes. */
  lemma LockReadExactly(text: string, locked: seq<Locked>)
    ensures ReadText(text) == Ok(locked) <==> locked != [] && AllLocked(Entries(text), locked)
  {
    var entries := Entries(text);
    ParsedAs(entries);
    if locked != [] && AllLocked(entries, locked) {
      LockedOnce(entries, locked);
    }
  }

  lemma LockedNotRefused(entries: seq<string>, locked: seq<Locked>, i: nat, e: LockError)
    requires AllLocked(entries, locked)
    ensures !FirstRefused(entries, i, e)
  {
    if i < |entries| {
      EntryTakenExactly(entries[i], locked[i], e);
    }
  }

  lemma LockedOnce(entries: seq<string>, locked: seq<Locked>)
    requires AllLocked(entries, locked)
    ensures ParseAll(entries) == Ok(locked)
  {
    ParsedAs(entries);
    forall i, e ensures !FirstRefused(entries, i, e) {
      LockedNotRefused(entries, locked, i, e);
    }
    var found := ParseAll(entries).value;
    forall i | 0 <= i < |entries| ensures found[i] == locked[i] {
      EntryTakenExactly(entries[i], locked[i], PinsNothing);
      EntryTakenExactly(entries[i], found[i], PinsNothing);
    }
    assert found == locked;
  }

  /** Otherwise it is refused: for its first entry that lacks either, or as pinning nothing. */
  lemma LockRefusedExactly(text: string)
    ensures ReadText(text) == Err(PinsNothing) <==> Entries(text) == []
    ensures ReadText(text).Err? && Entries(text) != [] ==>
              exists i :: FirstRefused(Entries(text), i, ReadText(text).error)
  {
    ParsedAs(Entries(text));
  }

  // ----- what is printed -----

  lemma DashedIsEngine(name: string)
    requires Dashed(name) == ENGINE
    ensures name == "gpt-voicecoding" || name == "gpt_voicecoding"
  {
    assert |name| == 15;
    assert forall i :: 0 <= i < 15 ==> Dashed(name)[i] == ENGINE[i];
    assert forall i :: 0 <= i < 15 && i != 3 ==> name[i] == ENGINE[i];
  }

  lemma EngineIsDashed(name: string)
    requires name == "gpt-voicecoding" || name == "gpt_voicecoding"
    ensures Dashed(name) == ENGINE
  {
    assert forall i :: 0 <= i < 15 ==> Dashed(name)[i] == ENGINE[i];
  }

  /** The engine's own distribution is left out under both spellings of its name, where it was asked
      for or installed from a path; nothing else is. */
  lemma EngineLeftOut(one: Installed)
    ensures !IsKept(one) <==>
            (one.direct || one.requested) && (one.name == "gpt-voicecoding" || one.name == "gpt_voicecoding")
  {
    if Dashed(one.name) == ENGINE {
      DashedIsEngine(one.name);
    }
    if one.name == "gpt-voicecoding" || one.name == "gpt_voicecoding" {
      EngineIsDashed(one.name);
    }
  }
}
