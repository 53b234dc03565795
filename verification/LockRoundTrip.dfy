/** Reading back a lock that was printed. */
module LockRoundTrip {
  import opened Basics
  import opened Text
  import opened Lock

  /** What pip resolves to: a name and a version of their alphabets, a sha256 digest in lower
      case; and a version that does not itself look like a hash option. */
  ghost predicate Legal(one: Installed) {
    && one.name != "" && (forall i :: 0 <= i < |one.name| ==> IsNameChar(one.name[i]))
    && one.version != "" && (forall i :: 0 <= i < |one.version| ==> IsVersionChar(one.version[i]))
    && |one.digest| == DIGEST_LENGTH && (forall i :: 0 <= i < |one.digest| ==> IsHex(one.digest[i]))
    && Hashes(one.version) == []
  }

  ghost predicate AllLegal(report: seq<Installed>) {
    forall i :: 0 <= i < |report| ==> Legal(report[i])
  }

  ghost predicate NoBreak(line: string) {
    forall i :: 0 <= i < |line| ==> !IsBreak(line[i])
  }

  ghost predicate IsComment(line: string) {
    line != "" && line[0] == '#' && NoBreak(line) && line[|line| - 1] != '\\'
  }

  ghost predicate AllComments(lines: seq<string>) {
    forall i :: 0 <= i < |lines| ==> IsComment(lines[i])
  }

  /** An entry once its continuation is joined. */
  function EntryText(one: Installed): string {
    one.name + "==" + one.version + "      " + HASH_MARK + one.digest
  }

  function EntryTexts(kept: seq<Installed>): (r: seq<string>)
    ensures |r| == |kept| && forall i :: 0 <= i < |r| ==> r[i] == EntryText(kept[i])
  {
    seq(|kept|, i requires 0 <= i < |kept| => EntryText(kept[i]))
  }

  // ----- the lines -----

  lemma JoinedStep(c: char, rest: string)
    requires c != '\\' || rest == "" || rest[0] != '\n'
    ensures Joined([c] + rest) == [c] + Joined(rest)
  {
  }

  lemma JoinedLine(a: string, b: string)
    requires NoBreak(a) && (a != "" ==> a[|a| - 1] != '\\')
    ensures Joined(a + "\n" + b) == a + "\n" + Joined(b)
  {
    JoinedUpTo(a, "\n" + b);
    assert a + "\n" + b == a + ("\n" + b);
    assert "\n" + b == ['\n'] + b;
    JoinedStep('\n', b);
  }

  /** Up to a newline that no backslash stands before, nothing is joined. */
  lemma {:induction false} JoinedUpTo(a: string, tail: string)
    requires NoBreak(a) && (a != "" ==> a[|a| - 1] != '\\') && tail != ""
    ensures Joined(a + tail) == a + Joined(tail)
    decreases |a|
  {
    if a == "" {
      assert "" + tail == tail && "" + Joined(tail) == Joined(tail);
    } else {
      JoinedUpTo(a[1..], tail);
      Prepended(a, tail);
      assert (a[1..] + tail)[0] == if |a| > 1 then a[1] else tail[0];
      JoinedStep(a[0], a[1..] + tail);
      Prepended(a, Joined(tail));
    }
  }

  lemma Prepended(a: string, b: string)
    requires a != ""
    ensures [a[0]] + (a[1..] + b) == a + b
  {
  }

  lemma {:induction false} JoinedContinuation(a: string, b: string)
    requires NoBreak(a)
    ensures Joined(a + ("\\" + "\n" + b)) == a + (" " + Joined(b))
    decreases |a|
  {
    var tail := "\\" + "\n" + b;
    if a == "" {
      assert "" + tail == tail && tail[0] == '\\' && tail[1] == '\n' && tail[2..] == b;
    } else {
      var rest := a[1..] + tail;
      JoinedContinuation(a[1..], b);
      Prepended(a, tail);
      assert rest[0] == if |a| > 1 then a[1] else '\\';
      JoinedStep(a[0], rest);
      Prepended(a, " " + Joined(b));
    }
  }

  lemma {:induction false} FirstLine(a: string, b: string)
    requires NoBreak(a)
    ensures Lines(a + "\n" + b) == [a] + Lines(b)
    decreases |a|
  {
    var s := a + "\n" + b;
    if a == "" {
      assert s[0] == '\n' && s[1..] == b;
    } else {
      FirstLine(a[1..], b);
      assert s[0] == a[0] && s[1..] == a[1..] + "\n" + b;
      assert [a[0]] + a[1..] == a && ([a[1..]] + Lines(b))[1..] == Lines(b);
    }
  }

  lemma CommentIsNoEntry(line: string)
    requires IsComment(line)
    ensures EntryOf(line) == []
  {
  }

  lemma CommentSkipped(line: string, b: string)
    requires IsComment(line)
    ensures Entries(line + "\n" + b) == Entries(b)
  {
    JoinedLine(line, b);
    FirstLine(line, Joined(b));
    CommentIsNoEntry(line);
    assert ([line] + Lines(Joined(b)))[1..] == Lines(Joined(b));
  }

  lemma PartsHaveNoBreak(one: Installed)
    requires Legal(one)
    ensures NoBreak(one.name + "==" + one.version + " ") && NoBreak("    " + HASH_MARK + one.digest)
    ensures NoBreak(EntryText(one))
  {
    assert forall i :: 0 <= i < |one.name| ==> IsNameChar(one.name[i]) && !IsBreak(one.name[i]);
    assert forall i :: 0 <= i < |one.version| ==> IsVersionChar(one.version[i]) && !IsBreak(one.version[i]);
    assert forall i :: 0 <= i < |one.digest| ==> IsHex(one.digest[i]) && !IsBreak(one.digest[i]);
  }

  lemma EntryJoins(one: Installed, b: string)
    requires Legal(one)
    ensures Joined(EntryLines(one)[0] + "\n" + (EntryLines(one)[1] + "\n" + b)) == EntryText(one) + "\n" + Joined(b)
  {
    var head, tail := one.name + "==" + one.version + " ", "    " + HASH_MARK + one.digest;
    PartsHaveNoBreak(one);
    var after := tail + "\n" + b;
    assert EntryLines(one)[0] + "\n" + after == head + ("\\" + "\n" + after);
    JoinedContinuation(head, after);
    assert IsHex(tail[|tail| - 1]);
    JoinedLine(tail, b);
    assert head + (" " + (tail + "\n" + Joined(b))) == EntryText(one) + "\n" + Joined(b);
  }

  lemma EntryEnds(one: Installed)
    requires Legal(one)
    ensures EntryOf(EntryText(one)) == [EntryText(one)]
  {
  }

  lemma EntryComesBack(one: Installed, b: string)
    requires Legal(one)
    ensures Entries(EntryLines(one)[0] + "\n" + (EntryLines(one)[1] + "\n" + b)) == [EntryText(one)] + Entries(b)
  {
    EntryJoins(one, b);
    PartsHaveNoBreak(one);
    FirstLine(EntryText(one), Joined(b));
    EntryEnds(one);
    assert ([EntryText(one)] + Lines(Joined(b)))[1..] == Lines(Joined(b));
  }

  lemma NothingLeft()
    ensures Entries("") == []
  {
  }

  lemma {:induction false} EntriesComeBack(kept: seq<Installed>)
    requires AllLegal(kept)
    ensures Entries(Ended(AllEntryLines(kept))) == EntryTexts(kept)
    decreases |kept|
  {
    if kept == [] {
      NothingLeft();
    } else {
      EntriesComeBack(kept[1..]);
      EndedTwo(EntryLines(kept[0]), AllEntryLines(kept[1..]));
      EntryComesBack(kept[0], Ended(AllEntryLines(kept[1..])));
    }
  }

  lemma EndedTwo(two: seq<string>, rest: seq<string>)
    requires |two| == 2
    ensures Ended(two + rest) == two[0] + "\n" + (two[1] + "\n" + Ended(rest))
  {
  }

  lemma {:induction false} EndedJoin(a: seq<string>, b: seq<string>)
    ensures Ended(a + b) == Ended(a) + Ended(b)
    decreases |a|
  {
    if a == [] {
      assert a + b == b && "" + Ended(b) == Ended(b);
    } else {
      EndedJoin(a[1..], b);
      assert (a + b)[1..] == a[1..] + b;
      assert a[0] + "\n" + (Ended(a[1..]) + Ended(b)) == a[0] + "\n" + Ended(a[1..]) + Ended(b);
    }
  }

  lemma {:induction false} HeaderSkipped(header: seq<string>, text: string)
    requires AllComments(header)
    ensures Entries(Ended(header) + text) == Entries(text)
    decreases |header|
  {
    if header == [] {
      assert "" + text == text;
    } else {
      HeaderSkipped(header[1..], text);
      EndedFirst(header, text);
      CommentSkipped(header[0], Ended(header[1..]) + text);
    }
  }

  lemma EndedFirst(lines: seq<string>, text: string)
    requires lines != []
    ensures Ended(lines) + text == lines[0] + "\n" + (Ended(lines[1..]) + text)
  {
  }

  // ----- one entry -----

  lemma {:induction false} RunIs(a: string, b: string, p: char -> bool)
    requires (forall i :: 0 <= i < |a| ==> p(a[i])) && (b != "" ==> !p(b[0]))
    ensures Run(a + b, p) == |a|
    decreases |a|
  {
    if a == "" {
      assert a + b == b;
    } else {
      assert (a + b)[1..] == a[1..] + b;
      RunIs(a[1..], b, p);
    }
  }

  lemma {:induction false} SpacesStripped(a: string, b: string)
    requires (forall i :: 0 <= i < |a| ==> IsSpace(a[i])) && (b != "" ==> !IsSpace(b[0]))
    ensures StripStart(a + b) == b
    decreases |a|
  {
    if a == "" {
      assert a + b == b;
    } else {
      assert (a + b)[1..] == a[1..] + b;
      SpacesStripped(a[1..], b);
    }
  }

  lemma VersionReads(version: string, tail: string)
    requires version != "" && forall i :: 0 <= i < |version| ==> IsVersionChar(version[i])
    requires tail != "" && tail[0] == ' '
    ensures StripStart(version + tail) == version + tail && Run(version + tail, IsVersionChar) == |version|
    ensures (version + tail)[..|version|] == version
  {
    assert IsVersionChar(version[0]) && (version + tail)[0] == version[0];
    SpacesStripped("", version + tail);
    assert "" + (version + tail) == version + tail;
    RunIs(version, tail, IsVersionChar);
  }

  lemma NameReads(name: string, rest: string)
    requires forall i :: 0 <= i < |name| ==> IsNameChar(name[i])
    ensures var entry := name + ("==" + rest);
            Run(entry, IsNameChar) == |name| && entry[..|name|] == name && entry[|name|..] == "==" + rest
    ensures StripStart("==" + rest) == "==" + rest && ("==" + rest)[..2] == "==" && ("==" + rest)[2..] == rest
  {
  }

  lemma PinnedReadsBack(one: Installed)
    requires Legal(one)
    ensures Pinned(EntryText(one)) == Some((one.name, one.version))
  {
    var tail := "      " + HASH_MARK + one.digest;
    var rest := one.version + tail;
    assert EntryText(one) == one.name + ("==" + rest) && tail[0] == ' ';
    NameReads(one.name, rest);
    VersionReads(one.version, tail);
  }

  /** The mark has one `=` and no space. */
  lemma MarkShape(s: string)
    requires HashAtStart(s)
    ensures s[0] == '-' && s[6] == '=' && s[7] != '='
    ensures forall i :: 0 <= i < 6 ==> s[i] != '='
    ensures forall i :: 0 <= i < 78 ==> s[i] != ' '
  {
  }

  /** No hash begins in the name or in the `==` after it. */
  lemma {:induction false} NoHashInName(name: string, rest: string)
    requires forall i :: 0 <= i < |name| ==> IsNameChar(name[i])
    ensures Hashes(name + "==" + rest) == Hashes(rest)
    decreases |name|
  {
    var s := name + "==" + rest;
    if name == "" {
      assert s == ['='] + (['='] + rest);
      NotAMark('=', ['='] + rest);
      NotAMark('=', rest);
    } else {
      NoHashInName(name[1..], rest);
      assert s[1..] == name[1..] + "==" + rest;
      assert s[|name|] == '=' && s[|name| + 1] == '=';
      assert forall i :: 0 <= i < |name| ==> s[i] == name[i] && s[i] != '=';
      NoMarkBefore(s, |name|);
    }
  }

  lemma NotAMark(c: char, rest: string)
    requires c != '-'
    ensures Hashes([c] + rest) == Hashes(rest)
  {
    var s := [c] + rest;
    assert s[1..] == rest;
    if HashAtStart(s) {
      MarkShape(s);
    }
  }

  /** The first `=` of a mark is not followed by another, so no mark runs into `==`. */
  lemma NoMarkBefore(s: string, n: nat)
    requires n + 1 < |s| && s[n] == '=' && s[n + 1] == '=' && forall i :: 0 <= i < n ==> s[i] != '='
    ensures !HashAtStart(s)
  {
    if HashAtStart(s) {
      MarkShape(s);
    }
  }

  /** A hash never reaches across a space. */
  lemma {:induction false} HashesBeforeSpace(a: string, b: string)
    ensures Hashes(a + " " + b) == Hashes(a) + Hashes(" " + b)
    decreases |a|
  {
    var s := a + " " + b;
    if a == "" {
      assert s == " " + b;
    } else {
      StartsAlike(a, b);
      if HashAtStart(a) {
        HashesBeforeSpace(a[78..], b);
        assert s[78..] == a[78..] + " " + b && s[7..78] == a[7..78];
        Associates([a[7..78]], Hashes(a[78..]), Hashes(" " + b));
      } else {
        HashesBeforeSpace(a[1..], b);
        assert s[1..] == a[1..] + " " + b;
      }
    }
  }

  lemma StartsAlike(a: string, b: string)
    requires a != ""
    ensures HashAtStart(a + " " + b) <==> HashAtStart(a)
  {
    var s := a + " " + b;
    if HashAtStart(s) {
      MarkShape(s);
      assert s[|a|] == ' ';
      assert s[..78] == a[..78];
      SamePrefix(s, a);
    }
  }

  lemma SamePrefix(s: string, t: string)
    requires HashAtStart(s) && |t| >= 78 && |s| >= 78 && s[..78] == t[..78]
    ensures HashAtStart(t)
  {
  }

  lemma {:induction false} SpacesHoldNoHash(spaces: string, rest: string)
    requires forall i :: 0 <= i < |spaces| ==> spaces[i] == ' '
    ensures Hashes(spaces + rest) == Hashes(rest)
    decreases |spaces|
  {
    if spaces == "" {
      assert spaces + rest == rest;
    } else {
      SpacesHoldNoHash(spaces[1..], rest);
      assert spaces + rest == [' '] + (spaces[1..] + rest);
      NotAMark(' ', spaces[1..] + rest);
    }
  }

  lemma TheHash(digest: string)
    requires |digest| == DIGEST_LENGTH && forall i :: 0 <= i < |digest| ==> IsHex(digest[i])
    ensures Hashes(HASH_MARK + digest) == ["sha256:" + digest]
  {
    var s := HASH_MARK + digest;
    assert |HASH_MARK| == 14 && HASH_MARK[7..] == "sha256:";
    assert s[..14] == HASH_MARK && s[78..] == "" && s[7..78] == "sha256:" + digest;
    assert forall i :: 14 <= i < 78 ==> s[i] == digest[i - 14];
    assert HashAtStart(s);
  }

  lemma HashReadsBack(one: Installed)
    requires Legal(one)
    ensures Hashes(EntryText(one)) == ["sha256:" + one.digest]
  {
    var mark := HASH_MARK + one.digest;
    var spaces := "     ";
    assert EntryText(one) == one.name + "==" + (one.version + " " + (spaces + mark));
    NoHashInName(one.name, one.version + " " + (spaces + mark));
    HashesBeforeSpace(one.version, spaces + mark);
    assert " " + (spaces + mark) == [' '] + (spaces + mark);
    NotAMark(' ', spaces + mark);
    SpacesHoldNoHash(spaces, mark);
    TheHash(one.digest);
  }

  function AsLocked(kept: seq<Installed>): (r: seq<Locked>)
    ensures |r| == |kept|
    ensures forall i :: 0 <= i < |r| ==> r[i] == Locked(kept[i].name, kept[i].version, ["sha256:" + kept[i].digest])
  {
    seq(|kept|, i requires 0 <= i < |kept| => Locked(kept[i].name, kept[i].version, ["sha256:" + kept[i].digest]))
  }

  lemma EntryReadsBack(one: Installed)
    requires Legal(one)
    ensures ParseEntry(EntryText(one)) == Ok(Locked(one.name, one.version, ["sha256:" + one.digest]))
  {
    PinnedReadsBack(one);
    HashReadsBack(one);
  }

  lemma ParseMore(entries: seq<string>, entry: string)
    requires ParseAll(entries).Ok? && ParseEntry(entry).Ok?
    ensures ParseAll(entries + [entry]) == Ok(ParseAll(entries).value + [ParseEntry(entry).value])
  {
  }

  lemma {:induction false} AllParse(kept: seq<Installed>)
    requires AllLegal(kept)
    ensures ParseAll(EntryTexts(kept)) == Ok(AsLocked(kept))
    decreases |kept|
  {
    if kept != [] {
      var n := |kept| - 1;
      AllParse(kept[..n]);
      EntryReadsBack(kept[n]);
      ParseMore(EntryTexts(kept[..n]), EntryText(kept[n]));
      OneMoreText(kept, n);
    }
  }

  lemma OneMoreText(kept: seq<Installed>, n: nat)
    requires |kept| == n + 1
    ensures EntryTexts(kept) == EntryTexts(kept[..n]) + [EntryText(kept[n])]
    ensures AsLocked(kept) ==
            AsLocked(kept[..n]) + [Locked(kept[n].name, kept[n].version, ["sha256:" + kept[n].digest])]
  {
  }

  lemma {:induction false} KeptIsLegal(report: seq<Installed>)
    requires AllLegal(report)
    ensures AllLegal(Kept(report))
    decreases |report|
  {
    if report != [] {
      KeptIsLegal(report[..|report| - 1]);
    }
  }

  /** A generated lock reads back as exactly the entries that were kept, in the order they were
      printed in, each with its name, its version and its one hash; when none was kept, the
      reader refuses the lock as pinning nothing. */
  lemma LockReadsBack(header: seq<string>, sorted: seq<Installed>)
    requires AllComments(header) && AllLegal(sorted)
    ensures ReadText(LockText(header, sorted)) ==
            if Kept(sorted) == [] then Err(PinsNothing) else Ok(AsLocked(Kept(sorted)))
  {
    var kept := Kept(sorted);
    KeptIsLegal(sorted);
    EndedJoin(header, AllEntryLines(kept));
    HeaderSkipped(header, Ended(AllEntryLines(kept)));
    EntriesComeBack(kept);
    AllParse(kept);
  }

  // ----- from the report -----

  /** The order of strings, character by character. */
  predicate AtMost(a: string, b: string) {
    a == "" || (b != "" && (a[0] < b[0] || (a[0] == b[0] && AtMost(a[1..], b[1..]))))
  }

  ghost predicate ByName(entries: seq<Installed>) {
    forall i, j :: 0 <= i < j < |entries| ==> AtMost(Lower(entries[i].name), Lower(entries[j].name))
  }

  lemma {:induction false} KeptCounts(report: seq<Installed>, one: Installed)
    ensures multiset(Kept(report))[one] == if IsKept(one) then multiset(report)[one] else 0
    decreases |report|
  {
    if report != [] {
      var before, last := report[..|report| - 1], report[|report| - 1];
      KeptCounts(before, one);
      assert report == before + [last];
    }
  }

  lemma {:induction false} KeptByName(report: seq<Installed>)
    requires ByName(report)
    ensures ByName(Kept(report)) && forall one :: one in Kept(report) ==> one in report
    decreases |report|
  {
    if report != [] {
      var before, last := report[..|report| - 1], report[|report| - 1];
      assert ByName(before);
      KeptByName(before);
      forall one | one in before ensures AtMost(Lower(one.name), Lower(last.name)) {
        var i :| 0 <= i < |before| && before[i] == one;
        assert report[i] == one;
      }
    }
  }

  /** So whatever order a report came in, sorting it by name, printing and reading back gives
      exactly its kept entries, each as often as it was there, in the order of their names. */
  lemma ReportReadsBack(header: seq<string>, report: seq<Installed>, sorted: seq<Installed>)
    requires AllComments(header) && AllLegal(report)
    requires multiset(sorted) == multiset(report) && ByName(sorted)
    ensures multiset(Kept(sorted)) == multiset(Kept(report)) && ByName(Kept(sorted))
    ensures Kept(report) != [] ==> ReadText(LockText(header, sorted)) == Ok(AsLocked(Kept(sorted)))
    ensures Kept(report) == [] ==> ReadText(LockText(header, sorted)) == Err(PinsNothing)
  {
    forall i | 0 <= i < |sorted| ensures Legal(sorted[i]) {
      assert sorted[i] in multiset(sorted);
      assert sorted[i] in report;
    }
    forall one ensures multiset(Kept(sorted))[one] == multiset(Kept(report))[one] {
      KeptCounts(sorted, one);
      KeptCounts(report, one);
    }
    assert |multiset(Kept(sorted))| == |Kept(sorted)| && |multiset(Kept(report))| == |Kept(report)|;
    KeptByName(sorted);
    LockReadsBack(header, sorted);
  }
}
