/** The merge of a probe's hooks into a settings file that holds other people's. Which handlers
    are the probe's own is a predicate given from outside; `F` stands for everything else that a
    group or a foreign entry says. */
module HookMerge {
  import opened Basics
  import opened Text

  type Event = string

  /** A matcher group, or an entry whose handlers are not a list at all. */
  datatype Group<H, F> = Opaque(raw: F) | Matcher(fields: F, handlers: seq<H>)

  type Hooks<H, F> = map<Event, seq<Group<H, F>>>

  function Foreign<H>(handlers: seq<H>, isOurs: H -> bool): (r: seq<H>)
    ensures |r| <= |handlers|
    ensures |r| == |handlers| ==> r == handlers
  {
    if handlers == [] then []
    else
      var rest := Foreign(handlers[..|handlers| - 1], isOurs);
      var last := handlers[|handlers| - 1];
      if isOurs(last) then rest else rest + [last]
  }

  function WithoutOurs<H, F>(group: Group<H, F>, isOurs: H -> bool): Option<Group<H, F>> {
    match group
    case Opaque(_) => Some(group)
    case Matcher(fields, handlers) =>
      var kept := Foreign(handlers, isOurs);
      if kept == [] then None else Some(Matcher(fields, kept))
  }

  /** `kept` is `handlers` at exactly the positions, in order, of those that are not ours. */
  ghost predicate IsFilter<H>(kept: seq<H>, handlers: seq<H>, isOurs: H -> bool, at: seq<nat>) {
    && |at| == |kept|
    && (forall k :: 0 <= k < |at| ==> at[k] < |handlers| && kept[k] == handlers[at[k]])
    && (forall j, k :: 0 <= j < k < |at| ==> at[j] < at[k])
    && (forall i :: 0 <= i < |handlers| ==> (i in at <==> !isOurs(handlers[i])))
  }

  ghost predicate KeepsForeign<H>(kept: seq<H>, handlers: seq<H>, isOurs: H -> bool) {
    exists at :: IsFilter(kept, handlers, isOurs, at)
  }

  ghost predicate AllOurs<H>(handlers: seq<H>, isOurs: H -> bool) {
    forall i :: 0 <= i < |handlers| ==> isOurs(handlers[i])
  }

  ghost predicate NoneOurs<H>(handlers: seq<H>, isOurs: H -> bool) {
    forall i :: 0 <= i < |handlers| ==> !isOurs(handlers[i])
  }

  lemma OneMoreKept<H>(kept: seq<H>, handlers: seq<H>, isOurs: H -> bool, at: seq<nat>, last: H)
    requires IsFilter(kept, handlers, isOurs, at) && !isOurs(last)
    ensures IsFilter(kept + [last], handlers + [last], isOurs, at + [|handlers|])
  {
    assert forall i :: i in at + [|handlers|] <==> i in at || i == |handlers|;
  }

  lemma OneMoreOurs<H>(kept: seq<H>, handlers: seq<H>, isOurs: H -> bool, at: seq<nat>, last: H)
    requires IsFilter(kept, handlers, isOurs, at) && isOurs(last)
    ensures IsFilter(kept, handlers + [last], isOurs, at)
  {
  }

  lemma {:induction false} ForeignPositions<H>(handlers: seq<H>, isOurs: H -> bool) returns (at: seq<nat>)
    ensures IsFilter(Foreign(handlers, isOurs), handlers, isOurs, at)
    decreases |handlers|
  {
    if handlers == [] {
      at := [];
    } else {
      var n := |handlers| - 1;
      at := ForeignPositions(handlers[..n], isOurs);
      assert handlers == handlers[..n] + [handlers[n]];
      if isOurs(handlers[n]) {
        OneMoreOurs(Foreign(handlers[..n], isOurs), handlers[..n], isOurs, at, handlers[n]);
      } else {
        OneMoreKept(Foreign(handlers[..n], isOurs), handlers[..n], isOurs, at, handlers[n]);
        at := at + [n];
      }
    }
  }

  lemma KeptFromSomething<H>(kept: seq<H>, handlers: seq<H>, isOurs: H -> bool, at: seq<nat>)
    requires kept != [] && IsFilter(kept, handlers, isOurs, at)
    ensures handlers != []
  {
    assert at[0] < |handlers|;
  }

  lemma FilterWithoutOurs<H>(kept: seq<H>, handlers: seq<H>, isOurs: H -> bool, at: seq<nat>)
    requires handlers != [] && isOurs(handlers[|handlers| - 1]) && IsFilter(kept, handlers, isOurs, at)
    ensures IsFilter(kept, handlers[..|handlers| - 1], isOurs, at)
  {
    assert |handlers| - 1 !in at;
  }

  lemma LastKept<H>(kept: seq<H>, handlers: seq<H>, isOurs: H -> bool, at: seq<nat>)
    requires handlers != [] && !isOurs(handlers[|handlers| - 1]) && IsFilter(kept, handlers, isOurs, at)
    ensures at != [] && at[|at| - 1] == |handlers| - 1
  {
    assert |handlers| - 1 in at;
    var k :| 0 <= k < |at| && at[k] == |handlers| - 1;
  }

  lemma FilterWithForeign<H>(kept: seq<H>, handlers: seq<H>, isOurs: H -> bool, at: seq<nat>)
    requires handlers != [] && at != [] && at[|at| - 1] == |handlers| - 1 && IsFilter(kept, handlers, isOurs, at)
    ensures IsFilter(kept[..|kept| - 1], handlers[..|handlers| - 1], isOurs, at[..|at| - 1])
  {
    var m, n := |at| - 1, |handlers| - 1;
    assert at == at[..m] + [n];
    assert forall i :: 0 <= i < n ==> (i in at[..m] <==> i in at);
  }

  lemma {:induction false} FilterIsForeign<H>(kept: seq<H>, handlers: seq<H>, isOurs: H -> bool, at: seq<nat>)
    requires IsFilter(kept, handlers, isOurs, at)
    ensures kept == Foreign(handlers, isOurs)
    decreases |handlers|
  {
    if kept != [] {
      KeptFromSomething(kept, handlers, isOurs, at);
    }
    if handlers == [] {
    } else if isOurs(handlers[|handlers| - 1]) {
      FilterWithoutOurs(kept, handlers, isOurs, at);
      FilterIsForeign(kept, handlers[..|handlers| - 1], isOurs, at);
    } else {
      LastKept(kept, handlers, isOurs, at);
      FilterWithForeign(kept, handlers, isOurs, at);
      FilterIsForeign(kept[..|kept| - 1], handlers[..|handlers| - 1], isOurs, at[..|at| - 1]);
      assert kept == kept[..|kept| - 1] + [kept[|kept| - 1]];
    }
  }

  /** What is kept of some handlers is each one that is not ours, once for each time it is there,
      in order, and nothing else. */
  lemma ForeignIsFilter<H>(kept: seq<H>, handlers: seq<H>, isOurs: H -> bool)
    ensures kept == Foreign(handlers, isOurs) <==> KeepsForeign(kept, handlers, isOurs)
  {
    var at := ForeignPositions(handlers, isOurs);
    assert IsFilter(Foreign(handlers, isOurs), handlers, isOurs, at);
    if KeepsForeign(kept, handlers, isOurs) {
      var positions :| IsFilter(kept, handlers, isOurs, positions);
      FilterIsForeign(kept, handlers, isOurs, positions);
    }
  }

  lemma {:induction false} ForeignOfAlike<H>(handlers: seq<H>, isOurs: H -> bool)
    ensures Foreign(handlers, isOurs) == [] <==> AllOurs(handlers, isOurs)
    ensures Foreign(handlers, isOurs) == handlers <==> NoneOurs(handlers, isOurs)
    decreases |handlers|
  {
    if handlers != [] {
      var n := |handlers| - 1;
      ForeignOfAlike(handlers[..n], isOurs);
      assert handlers == handlers[..n] + [handlers[n]];
    }
  }

  /** Something of the group is left to run. */
  ghost predicate Stays<H, F>(group: Group<H, F>, isOurs: H -> bool) {
    group.Opaque? || !AllOurs(group.handlers, isOurs)
  }

  /** `rest` is `group` as it stands, but for its own handlers. */
  ghost predicate IsRest<H, F>(rest: Group<H, F>, group: Group<H, F>, isOurs: H -> bool) {
    if group.Opaque? then rest == group
    else rest.Matcher? && rest.fields == group.fields && KeepsForeign(rest.handlers, group.handlers, isOurs)
  }

  /** A group is left, without the probe's handlers, exactly when something in it is to be run. */
  lemma GroupWithoutOurs<H, F>(group: Group<H, F>, isOurs: H -> bool)
    ensures WithoutOurs(group, isOurs).Some? <==> Stays(group, isOurs)
    ensures Stays(group, isOurs) ==> IsRest(WithoutOurs(group, isOurs).value, group, isOurs)
  {
    if group.Matcher? {
      ForeignOfAlike(group.handlers, isOurs);
      ForeignIsFilter(Foreign(group.handlers, isOurs), group.handlers, isOurs);
    }
  }

  method WithoutOurHandlers<H, F>(group: Group<H, F>, isOurs: H -> bool) returns (r: Option<Group<H, F>>)
    ensures r == WithoutOurs(group, isOurs)
    ensures r.Some? <==> Stays(group, isOurs)
    ensures r.Some? ==> IsRest(r.value, group, isOurs)
  {
    GroupWithoutOurs(group, isOurs);
    if group.Opaque? {
      return Some(group);
    }
    var kept := [];
    for i := 0 to |group.handlers|
      invariant kept == Foreign(group.handlers[..i], isOurs)
    {
      assert group.handlers[..i + 1][..i] == group.handlers[..i];
      if !isOurs(group.handlers[i]) {
        kept := kept + [group.handlers[i]];
      }
    }
    assert group.handlers[..|group.handlers|] == group.handlers;
    if |kept| == 0 {
      return None;
    }
    if |kept| == |group.handlers| {
      return Some(group);
    }
    return Some(group.(handlers := kept));
  }

  /** What remains of some groups without the probe's own handlers. */
  function Stripped<H, F>(groups: seq<Group<H, F>>, isOurs: H -> bool): seq<Group<H, F>> {
    if groups == [] then []
    else
      var rest := Stripped(groups[..|groups| - 1], isOurs);
      match WithoutOurs(groups[|groups| - 1], isOurs)
      case None => rest
      case Some(remainder) => rest + [remainder]
  }

  function At<H, F>(hooks: Hooks<H, F>, event: Event): seq<Group<H, F>> {
    if event in hooks then hooks[event] else []
  }

  function MergedAt<H, F>(existing: Hooks<H, F>, ours: Hooks<H, F>, isOurs: H -> bool, event: Event): seq<Group<H, F>> {
    Stripped(At(existing, event), isOurs) + At(ours, event)
  }

  /** An event is there exactly when something is left to run at it. */
  ghost predicate IsMerge<H, F>(merged: Hooks<H, F>, existing: Hooks<H, F>, ours: Hooks<H, F>, isOurs: H -> bool) {
    forall event ::
      At(merged, event) == MergedAt(existing, ours, isOurs, event) && (event in merged ==> merged[event] != [])
  }

  /** The inner loop of the merge. */
  method StripGroups<H, F>(groups: seq<Group<H, F>>, isOurs: H -> bool) returns (kept: seq<Group<H, F>>)
    ensures kept == Stripped(groups, isOurs)
  {
    kept := [];
    for i := 0 to |groups|
      invariant kept == Stripped(groups[..i], isOurs)
    {
      assert groups[..i + 1][..i] == groups[..i];
      var remainder := WithoutOurHandlers(groups[i], isOurs);
      if remainder.Some? {
        kept := kept + [remainder.value];
      }
    }
    assert groups[..|groups|] == groups;
  }

  /** The merge, but for the events still to be looked at, which are as they were. */
  ghost predicate MergedBut<H, F>(
      merged: Hooks<H, F>, existing: Hooks<H, F>, ours: Hooks<H, F>, isOurs: H -> bool, events: set<Event>)
  {
    forall event ::
      if event in events then At(merged, event) == At(existing, event) && (event in merged <==> event in existing)
      else At(merged, event) == MergedAt(existing, ours, isOurs, event) && (event in merged ==> merged[event] != [])
  }

  method MergeHooks<H, F>(existing: Hooks<H, F>, ours: Hooks<H, F>, isOurs: H -> bool) returns (merged: Hooks<H, F>)
    ensures IsMerge(merged, existing, ours, isOurs)
  {
    merged := existing;
    var events := existing.Keys + ours.Keys;
    while events != {}
      invariant MergedBut(merged, existing, ours, isOurs, events)
      decreases |events|
    {
      var event :| event in events;
      var groups := if event in merged then merged[event] else [];
      var kept := StripGroups(groups, isOurs);
      if event in ours {
        kept := kept + ours[event];
      }
      assert kept == Stripped(At(merged, event), isOurs) + At(ours, event);
      ghost var was := merged;
      if kept != [] {
        merged := merged[event := kept];
      } else {
        merged := merged - {event};
      }
      assert At(merged, event) == kept;
      OneEventMerged(was, merged, existing, ours, isOurs, events, event);
      events := events - {event};
    }
  }

  lemma OneEventMerged<H, F>(
      was: Hooks<H, F>, now: Hooks<H, F>, existing: Hooks<H, F>, ours: Hooks<H, F>, isOurs: H -> bool,
      events: set<Event>, event: Event)
    requires MergedBut(was, existing, ours, isOurs, events) && event in events
    requires At(now, event) == Stripped(At(was, event), isOurs) + At(ours, event) && (event in now ==> now[event] != [])
    requires forall other :: other != event ==> At(now, other) == At(was, other) && (other in now <==> other in was)
    ensures MergedBut(now, existing, ours, isOurs, events - {event})
  {
  }

  /** The merge is a function of its inputs: the order of the events does not matter. */
  lemma MergeIsUnique<H, F>(a: Hooks<H, F>, b: Hooks<H, F>, existing: Hooks<H, F>, ours: Hooks<H, F>, isOurs: H -> bool)
    requires IsMerge(a, existing, ours, isOurs) && IsMerge(b, existing, ours, isOurs)
    ensures a == b
  {
  }

  // ----- laws -----

  lemma {:induction false} ForeignJoin<H>(a: seq<H>, b: seq<H>, isOurs: H -> bool)
    ensures Foreign(a + b, isOurs) == Foreign(a, isOurs) + Foreign(b, isOurs)
    decreases |b|
  {
    if b == [] {
      assert a + b == a;
    } else {
      ForeignJoin(a, b[..|b| - 1], isOurs);
      assert (a + b)[..|a + b| - 1] == a + b[..|b| - 1];
    }
  }

  lemma {:induction false} ForeignTwice<H>(handlers: seq<H>, isOurs: H -> bool)
    ensures Foreign(Foreign(handlers, isOurs), isOurs) == Foreign(handlers, isOurs)
    decreases |handlers|
  {
    if handlers != [] {
      var rest, last := handlers[..|handlers| - 1], handlers[|handlers| - 1];
      ForeignTwice(rest, isOurs);
      if !isOurs(last) {
        ForeignJoin(Foreign(rest, isOurs), [last], isOurs);
        assert [last][..0] == [];
      }
    }
  }

  lemma {:induction false} StrippedJoin<H, F>(a: seq<Group<H, F>>, b: seq<Group<H, F>>, isOurs: H -> bool)
    ensures Stripped(a + b, isOurs) == Stripped(a, isOurs) + Stripped(b, isOurs)
    decreases |b|
  {
    if b == [] {
      assert a + b == a;
    } else {
      StrippedJoin(a, b[..|b| - 1], isOurs);
      assert (a + b)[..|a + b| - 1] == a + b[..|b| - 1];
    }
  }

  lemma {:induction false} StrippedTwice<H, F>(groups: seq<Group<H, F>>, isOurs: H -> bool)
    ensures Stripped(Stripped(groups, isOurs), isOurs) == Stripped(groups, isOurs)
    decreases |groups|
  {
    if groups != [] {
      var rest, last := groups[..|groups| - 1], groups[|groups| - 1];
      StrippedTwice(rest, isOurs);
      var remainder := WithoutOurs(last, isOurs);
      if remainder.Some? {
        if last.Matcher? {
          ForeignTwice(last.handlers, isOurs);
        }
        StrippedJoin(Stripped(rest, isOurs), [remainder.value], isOurs);
        assert [remainder.value][..0] == [];
      }
    }
  }

  function GroupHandlers<H, F>(group: Group<H, F>): seq<H> {
    if group.Matcher? then group.handlers else []
  }

  /** Every handler of some groups, ours or not, in order. */
  function Handlers<H, F>(groups: seq<Group<H, F>>): seq<H> {
    if groups == [] then []
    else
      Handlers(groups[..|groups| - 1]) + GroupHandlers(groups[|groups| - 1])
  }

  lemma HandlersSnoc<H, F>(groups: seq<Group<H, F>>, last: Group<H, F>)
    ensures Handlers(groups + [last]) == Handlers(groups) + GroupHandlers(last)
  {
    assert (groups + [last])[..|groups|] == groups;
  }

  lemma {:induction false} HandlersJoin<H, F>(a: seq<Group<H, F>>, b: seq<Group<H, F>>)
    ensures Handlers(a + b) == Handlers(a) + Handlers(b)
    decreases |b|
  {
    if b == [] {
      assert a + b == a;
    } else {
      var rest, last := b[..|b| - 1], b[|b| - 1];
      HandlersJoin(a, rest);
      assert b == rest + [last];
      assert Handlers(a + b) == Handlers(a + rest) + GroupHandlers(last) by {
        assert a + b == a + rest + [last];
        HandlersSnoc(a + rest, last);
      }
      assert Handlers(b) == Handlers(rest) + GroupHandlers(last);
      Associates(Handlers(a), Handlers(rest), GroupHandlers(last));
    }
  }

  lemma {:induction false} HandlersStripped<H, F>(groups: seq<Group<H, F>>, isOurs: H -> bool)
    ensures Handlers(Stripped(groups, isOurs)) == Foreign(Handlers(groups), isOurs)
    decreases |groups|
  {
    if groups != [] {
      var rest, last := groups[..|groups| - 1], groups[|groups| - 1];
      HandlersStripped(rest, isOurs);
      if last.Matcher? {
        ForeignJoin(Handlers(rest), last.handlers, isOurs);
      } else {
        assert Handlers(groups) == Handlers(rest);
      }
      var remainder := WithoutOurs(last, isOurs);
      if remainder.Some? {
        HandlersJoin(Stripped(rest, isOurs), [remainder.value]);
        assert [remainder.value][..0] == [];
      }
    }
  }

  ghost predicate AreRests<H, F>(
      rests: seq<Group<H, F>>, groups: seq<Group<H, F>>, isOurs: H -> bool, at: seq<nat>)
  {
    && |at| == |rests|
    && (forall k :: 0 <= k < |at| ==> at[k] < |groups| && IsRest(rests[k], groups[at[k]], isOurs))
    && (forall j, k :: 0 <= j < k < |at| ==> at[j] < at[k])
    && (forall i :: 0 <= i < |groups| ==> (i in at <==> Stays(groups[i], isOurs)))
  }

  lemma OneMoreRest<H, F>(
      rests: seq<Group<H, F>>, groups: seq<Group<H, F>>, isOurs: H -> bool, at: seq<nat>, last: Group<H, F>)
    requires AreRests(rests, groups, isOurs, at)
    ensures match WithoutOurs(last, isOurs)
            case None => AreRests(rests, groups + [last], isOurs, at)
            case Some(rest) => AreRests(rests + [rest], groups + [last], isOurs, at + [|groups|])
  {
    GroupWithoutOurs(last, isOurs);
    assert forall i :: i in at + [|groups|] <==> i in at || i == |groups|;
  }

  lemma {:induction false} StrippedPositions<H, F>(groups: seq<Group<H, F>>, isOurs: H -> bool)
      returns (at: seq<nat>)
    ensures AreRests(Stripped(groups, isOurs), groups, isOurs, at)
    decreases |groups|
  {
    if groups == [] {
      at := [];
    } else {
      var n := |groups| - 1;
      at := StrippedPositions(groups[..n], isOurs);
      GroupWithoutOurs(groups[n], isOurs);
      OneMoreRest(Stripped(groups[..n], isOurs), groups[..n], isOurs, at, groups[n]);
      assert groups == groups[..n] + [groups[n]];
      if Stays(groups[n], isOurs) {
        at := at + [n];
      }
    }
  }

  /** At every event the groups are those of the existing ones in which something is left to run,
      in their order and with their own fields, and then the ones of `ours`. */
  lemma GroupsKept<H, F>(
      merged: Hooks<H, F>, existing: Hooks<H, F>, ours: Hooks<H, F>, isOurs: H -> bool, event: Event)
    requires IsMerge(merged, existing, ours, isOurs)
    ensures exists rests, at ::
              AreRests(rests, At(existing, event), isOurs, at) && At(merged, event) == rests + At(ours, event)
  {
    assert At(merged, event) == MergedAt(existing, ours, isOurs, event);
    var at := StrippedPositions(At(existing, event), isOurs);
    assert AreRests(Stripped(At(existing, event), isOurs), At(existing, event), isOurs, at);
  }

  /** At every event every foreign handler is kept, as often as it is there and in order, and none
      of the probe's; then comes what `ours` adds. */
  lemma ForeignHandlersKept<H, F>(
      merged: Hooks<H, F>, existing: Hooks<H, F>, ours: Hooks<H, F>, isOurs: H -> bool, event: Event)
    requires IsMerge(merged, existing, ours, isOurs)
    ensures exists kept ::
              && KeepsForeign(kept, Handlers(At(existing, event)), isOurs)
              && Handlers(At(merged, event)) == kept + Handlers(At(ours, event))
  {
    assert At(merged, event) == MergedAt(existing, ours, isOurs, event);
    HandlersJoin(Stripped(At(existing, event), isOurs), At(ours, event));
    HandlersStripped(At(existing, event), isOurs);
    ForeignIsFilter(Foreign(Handlers(At(existing, event)), isOurs), Handlers(At(existing, event)), isOurs);
  }

  // ----- merging again -----

  /** Every group is a matcher group of recognised handlers only. */
  ghost predicate Recognised<H, F>(groups: seq<Group<H, F>>, isOurs: H -> bool) {
    forall i :: 0 <= i < |groups| ==> groups[i].Matcher? && AllOurs(groups[i].handlers, isOurs)
  }

  ghost predicate AllRecognised<H, F>(ours: Hooks<H, F>, isOurs: H -> bool) {
    forall event :: event in ours ==> Recognised(ours[event], isOurs)
  }

  lemma {:induction false} RecognisedIsStripped<H, F>(groups: seq<Group<H, F>>, isOurs: H -> bool)
    ensures Recognised(groups, isOurs) <==> Stripped(groups, isOurs) == []
    decreases |groups|
  {
    if groups != [] {
      var n := |groups| - 1;
      RecognisedIsStripped(groups[..n], isOurs);
      GroupWithoutOurs(groups[n], isOurs);
      assert Recognised(groups, isOurs) <==> Recognised(groups[..n], isOurs) && !Stays(groups[n], isOurs) by {
        assert groups == groups[..n] + [groups[n]];
        assert forall i :: 0 <= i < n ==> groups[..n][i] == groups[i];
      }
    }
  }

  lemma MergeOfMerge<H, F>(
      once: Hooks<H, F>, twice: Hooks<H, F>, existing: Hooks<H, F>, ours: Hooks<H, F>, later: Hooks<H, F>,
      isOurs: H -> bool, event: Event)
    requires IsMerge(once, existing, ours, isOurs) && IsMerge(twice, once, later, isOurs)
    ensures At(twice, event) ==
            Stripped(At(existing, event), isOurs) + Stripped(At(ours, event), isOurs) + At(later, event)
  {
    assert At(once, event) == MergedAt(existing, ours, isOurs, event);
    assert At(twice, event) == MergedAt(once, later, isOurs, event);
    StrippedJoin(Stripped(At(existing, event), isOurs), At(ours, event), isOurs);
    StrippedTwice(At(existing, event), isOurs);
  }

  lemma MiddleIsNothing<T>(a: seq<T>, b: seq<T>, c: seq<T>)
    ensures a + b + c == a + c <==> b == []
  {
  }

  /** Installing twice is installing once, whatever was there - exactly when everything that is
      installed is recognised as the probe's own. */
  lemma InstallTwice<H, F>(
      once: Hooks<H, F>, twice: Hooks<H, F>, existing: Hooks<H, F>, ours: Hooks<H, F>, isOurs: H -> bool)
    requires IsMerge(once, existing, ours, isOurs) && IsMerge(twice, once, ours, isOurs)
    ensures twice == once <==> AllRecognised(ours, isOurs)
  {
    forall event
      ensures At(twice, event) == At(once, event) <==> Recognised(At(ours, event), isOurs)
    {
      MergeOfMerge(once, twice, existing, ours, ours, isOurs, event);
      assert At(once, event) == MergedAt(existing, ours, isOurs, event);
      MiddleIsNothing(Stripped(At(existing, event), isOurs), Stripped(At(ours, event), isOurs), At(ours, event));
      RecognisedIsStripped(At(ours, event), isOurs);
    }
    SameAtAll(once, twice);
    AtAll(ours, isOurs);
  }

  lemma SameAtAll<H, F>(a: Hooks<H, F>, b: Hooks<H, F>)
    requires forall event :: event in a ==> a[event] != []
    requires forall event :: event in b ==> b[event] != []
    ensures a == b <==> forall event :: At(b, event) == At(a, event)
  {
    if forall event :: At(b, event) == At(a, event) {
      forall event ensures event in a <==> event in b {
        assert At(b, event) == At(a, event);
      }
      forall event | event in a ensures a[event] == b[event] {
        assert At(b, event) == At(a, event);
      }
    }
  }

  lemma AtAll<H, F>(ours: Hooks<H, F>, isOurs: H -> bool)
    ensures AllRecognised(ours, isOurs) <==> forall event :: Recognised(At(ours, event), isOurs)
  {
    if forall event :: Recognised(At(ours, event), isOurs) {
      forall event | event in ours ensures Recognised(ours[event], isOurs) {
        assert Recognised(At(ours, event), isOurs);
      }
    }
  }

  /** Uninstalling after installing is uninstalling alone, under exactly the same condition. */
  lemma UninstallAfterInstall<H, F>(
      installed: Hooks<H, F>, uninstalled: Hooks<H, F>, alone: Hooks<H, F>,
      existing: Hooks<H, F>, ours: Hooks<H, F>, isOurs: H -> bool)
    requires IsMerge(installed, existing, ours, isOurs)
    requires IsMerge(uninstalled, installed, map[], isOurs) && IsMerge(alone, existing, map[], isOurs)
    ensures uninstalled == alone <==> AllRecognised(ours, isOurs)
  {
    forall event
      ensures At(uninstalled, event) == At(alone, event) <==> Recognised(At(ours, event), isOurs)
    {
      MergeOfMerge(installed, uninstalled, existing, ours, map[], isOurs, event);
      assert At(alone, event) == MergedAt(existing, map[], isOurs, event);
      MiddleIsNothing(Stripped(At(existing, event), isOurs), Stripped(At(ours, event), isOurs), []);
      RecognisedIsStripped(At(ours, event), isOurs);
    }
    SameAtAll(alone, uninstalled);
    AtAll(ours, isOurs);
  }

  /** No event and no group is empty, and no handler is recognised. */
  ghost predicate IsForeign<H, F>(groups: seq<Group<H, F>>, isOurs: H -> bool) {
    forall i :: 0 <= i < |groups| ==>
      groups[i].Opaque? || (groups[i].handlers != [] && NoneOurs(groups[i].handlers, isOurs))
  }

  lemma {:induction false} StrippedBound<H, F>(groups: seq<Group<H, F>>, isOurs: H -> bool)
    ensures |Stripped(groups, isOurs)| <= |groups|
    ensures Stripped(groups, isOurs) == groups <==> IsForeign(groups, isOurs)
    decreases |groups|
  {
    if groups != [] {
      var rest, last := groups[..|groups| - 1], groups[|groups| - 1];
      StrippedBound(rest, isOurs);
      assert groups == rest + [last];
      assert IsForeign(groups, isOurs) <==> IsForeign(rest, isOurs) && IsForeign([last], isOurs) by {
        ForeignSplit(rest, last, isOurs);
      }
      assert IsForeign([last], isOurs) <==> WithoutOurs(last, isOurs) == Some(last) by {
        assert [last][0] == last;
        if last.Matcher? {
          ForeignOfAlike(last.handlers, isOurs);
        }
      }
    }
  }

  lemma ForeignSplit<H, F>(rest: seq<Group<H, F>>, last: Group<H, F>, isOurs: H -> bool)
    ensures IsForeign(rest + [last], isOurs) <==> IsForeign(rest, isOurs) && IsForeign([last], isOurs)
  {
    var groups := rest + [last];
    assert groups[|rest|] == last && [last][0] == last;
    assert forall i :: 0 <= i < |rest| ==> groups[i] == rest[i];
  }

  /** Uninstalling leaves settings as they are exactly when nothing in them is recognised and
      nothing in them is empty. */
  lemma UninstallOfForeign<H, F>(uninstalled: Hooks<H, F>, existing: Hooks<H, F>, isOurs: H -> bool)
    requires IsMerge(uninstalled, existing, map[], isOurs)
    ensures uninstalled == existing <==>
            forall event :: event in existing ==> existing[event] != [] && IsForeign(existing[event], isOurs)
  {
    forall event ensures At(uninstalled, event) == Stripped(At(existing, event), isOurs) {
      assert At(uninstalled, event) == MergedAt(existing, map[], isOurs, event);
    }
    if uninstalled == existing {
      forall event | event in existing ensures existing[event] != [] && IsForeign(existing[event], isOurs) {
        assert At(uninstalled, event) == Stripped(At(existing, event), isOurs);
        StrippedBound(existing[event], isOurs);
      }
    }
    if forall event :: event in existing ==> existing[event] != [] && IsForeign(existing[event], isOurs) {
      forall event ensures At(uninstalled, event) == At(existing, event) {
        assert At(uninstalled, event) == Stripped(At(existing, event), isOurs);
        StrippedBound(At(existing, event), isOurs);
      }
      SameAtAll(existing, uninstalled);
    }
  }
}
