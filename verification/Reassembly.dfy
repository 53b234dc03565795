/** One message gathered across frames (sections 5.4, 5.5.2 and 5.5.3 of RFC 6455). */
module Reassembly {
  import opened Text
  import opened Octets
  import opened WebSocket

  datatype Refusal = ClosedTheWebSocket | UnexpectedOpcode(opcode: Byte) | PastTheLimit

  /** What is to be done about one frame: at most one of these is set. */
  datatype Step = Step(message: Option<Bytes>, pongWith: Option<Bytes>, refuse: Option<Refusal>)

  const MORE := Step(None, None, None)

  /** A frame as the caller decoded it, and the mask a pong for it would draw. */
  datatype Incoming = Incoming(opcode: Byte, final: bool, payload: Bytes, mask: Bytes)

  /** A frame's payload has a length a frame can carry. */
  predicate Arrived(f: Incoming) {
    Representable(|f.payload|) && |f.mask| == MASK_BYTES
  }

  datatype Gathering = Gathering(fragments: Bytes, started: bool)

  predicate IsData(opcode: Byte) {
    opcode == OPCODE_TEXT || opcode == OPCODE_BINARY
  }

  /** Whether the opcode may come now. */
  predicate Expected(g: Gathering, opcode: Byte) {
    if g.started then opcode == OPCODE_CONTINUATION else IsData(opcode)
  }

  function Refused(reason: Refusal): Step {
    MORE.(refuse := Some(reason))
  }

  function Took(g: Gathering, limit: int, f: Incoming): (Gathering, Step)
    requires Arrived(f)
  {
    if f.opcode == OPCODE_CLOSE then (g, Refused(ClosedTheWebSocket))
    else if f.opcode == OPCODE_PING then (g, MORE.(pongWith := Some(FrameOf(f.payload, OPCODE_PONG, f.mask))))
    else if f.opcode == OPCODE_PONG then (g, MORE)
    else if !Expected(g, f.opcode) then (g, Refused(UnexpectedOpcode(f.opcode)))
    else
      var fragments := g.fragments + f.payload;
      (Gathering(fragments, true),
       if |fragments| > limit then Refused(PastTheLimit)
       else if f.final then MORE.(message := Some(fragments)) else MORE)
  }

  class Reassembly {
    const limit: int
    var fragments: Bytes
    var started: bool

    function State(): Gathering
      reads this
    {
      Gathering(fragments, started)
    }

    constructor (limit: int)
      ensures State() == Gathering([], false) && this.limit == limit
    {
      this.limit := limit;
      fragments, started := [], false;
    }

    method Take(f: Incoming) returns (step: Step)
      requires Arrived(f)
      modifies this
      ensures (State(), step) == Took(old(State()), limit, f)
    {
      if f.opcode == OPCODE_CLOSE {
        return Refused(ClosedTheWebSocket);
      }
      if f.opcode == OPCODE_PING {
        var pong := ClientFrame(f.payload, OPCODE_PONG, f.mask);
        return MORE.(pongWith := pong);
      }
      if f.opcode == OPCODE_PONG {
        return MORE;
      }
      if IsData(f.opcode) && !started {
        started := true;
      } else if f.opcode != OPCODE_CONTINUATION || !started {
        return Refused(UnexpectedOpcode(f.opcode));
      }
      fragments := fragments + f.payload;
      if |fragments| > limit {
        return Refused(PastTheLimit);
      }
      return if f.final then MORE.(message := Some(fragments)) else MORE;
    }
  }

  // ----- whole runs of frames -----

  predicate AllArrived(frames: seq<Incoming>) {
    forall i :: 0 <= i < |frames| ==> Arrived(frames[i])
  }

  /** What an instance has gathered after the frames. */
  function After(limit: int, frames: seq<Incoming>): Gathering
    requires AllArrived(frames)
  {
    if frames == [] then Gathering([], false)
    else Took(After(limit, frames[..|frames| - 1]), limit, frames[|frames| - 1]).0
  }

  /** What it says about frame `i`. */
  function Answer(limit: int, frames: seq<Incoming>, i: nat): Step
    requires AllArrived(frames) && i < |frames|
  {
    Took(After(limit, frames[..i]), limit, frames[i]).1
  }

  predicate IsControl(opcode: Byte) {
    opcode == OPCODE_PING || opcode == OPCODE_PONG
  }

  /** The frames that carry the message, in order. */
  function Carriers(frames: seq<Incoming>): seq<Incoming> {
    if frames == [] then []
    else
      var last := frames[|frames| - 1];
      Carriers(frames[..|frames| - 1]) + if IsControl(last.opcode) then [] else [last]
  }

  function Payloads(frames: seq<Incoming>): Bytes {
    if frames == [] then [] else Payloads(frames[..|frames| - 1]) + frames[|frames| - 1].payload
  }

  /** One data frame, then continuations only. */
  predicate InGrammar(carriers: seq<Incoming>) {
    forall i :: 0 <= i < |carriers| ==>
      if i == 0 then IsData(carriers[i].opcode) else carriers[i].opcode == OPCODE_CONTINUATION
  }

  ghost predicate NothingRefused(limit: int, frames: seq<Incoming>)
    requires AllArrived(frames)
  {
    forall i :: 0 <= i < |frames| ==> Answer(limit, frames, i).refuse.None?
  }

  ghost predicate Acceptable(limit: int, frames: seq<Incoming>) {
    InGrammar(Carriers(frames)) && (Carriers(frames) != [] ==> |Payloads(Carriers(frames))| <= limit)
  }

  /** As long as nothing is refused, what is gathered is what the frames carried. */
  ghost predicate Gathered(g: Gathering, frames: seq<Incoming>) {
    g == Gathering(Payloads(Carriers(frames)), Carriers(frames) != [])
  }

  lemma CarriersOfMore(frames: seq<Incoming>, f: Incoming)
    ensures Carriers(frames + [f]) == Carriers(frames) + if IsControl(f.opcode) then [] else [f]
    ensures Payloads(frames + [f]) == Payloads(frames) + f.payload
  {
    assert (frames + [f])[..|frames|] == frames;
  }

  lemma GrammarOfMore(carriers: seq<Incoming>, f: Incoming)
    ensures InGrammar(carriers + [f]) <==>
            InGrammar(carriers) && if carriers == [] then IsData(f.opcode) else f.opcode == OPCODE_CONTINUATION
  {
    var more := carriers + [f];
    assert more[|carriers|] == f;
    assert forall i :: 0 <= i < |carriers| ==> more[i] == carriers[i];
  }

  lemma OneMoreCarrier(limit: int, frames: seq<Incoming>, f: Incoming)
    requires Acceptable(limit, frames) && !IsControl(f.opcode)
    ensures Carriers(frames + [f]) == Carriers(frames) + [f]
    ensures Payloads(Carriers(frames + [f])) == Payloads(Carriers(frames)) + f.payload
    ensures Acceptable(limit, frames + [f]) <==>
            && (if Carriers(frames) == [] then IsData(f.opcode) else f.opcode == OPCODE_CONTINUATION)
            && |Payloads(Carriers(frames)) + f.payload| <= limit
  {
    CarriersOfMore(frames, f);
    CarriersOfMore(Carriers(frames), f);
    GrammarOfMore(Carriers(frames), f);
  }

  /** One more frame: refused exactly when it leaves the grammar or passes the limit. */
  lemma OneMore(limit: int, g: Gathering, frames: seq<Incoming>, f: Incoming)
    requires Arrived(f) && Gathered(g, frames) && Acceptable(limit, frames)
    ensures var (g', step) := Took(g, limit, f);
            && (step.refuse.None? <==> Acceptable(limit, frames + [f]))
            && (step.refuse.None? ==> Gathered(g', frames + [f]))
  {
    if IsControl(f.opcode) {
      CarriersOfMore(frames, f);
      assert Carriers(frames) + [] == Carriers(frames);
    } else {
      OneMoreCarrier(limit, frames, f);
    }
  }

  lemma RefusalOfMore(limit: int, frames: seq<Incoming>, f: Incoming)
    requires AllArrived(frames) && Arrived(f)
    ensures AllArrived(frames + [f])
    ensures NothingRefused(limit, frames + [f]) <==>
            NothingRefused(limit, frames) && Took(After(limit, frames), limit, f).1.refuse.None?
    ensures After(limit, frames + [f]) == Took(After(limit, frames), limit, f).0
  {
    var more := frames + [f];
    assert more[..|frames|] == frames;
    assert Answer(limit, more, |frames|) == Took(After(limit, frames), limit, f).1;
    forall i | 0 <= i < |frames| ensures Answer(limit, more, i) == Answer(limit, frames, i) {
      assert more[..i] == frames[..i];
    }
    if NothingRefused(limit, frames) && Took(After(limit, frames), limit, f).1.refuse.None? {
      forall i | 0 <= i < |more| ensures Answer(limit, more, i).refuse.None? {
        assert i < |frames| ==> Answer(limit, more, i) == Answer(limit, frames, i);
      }
    }
    if NothingRefused(limit, more) {
      forall i | 0 <= i < |frames| ensures Answer(limit, frames, i).refuse.None? {
        assert Answer(limit, more, i) == Answer(limit, frames, i);
      }
    }
  }

  lemma AcceptableBefore(limit: int, frames: seq<Incoming>, f: Incoming)
    requires Acceptable(limit, frames + [f])
    ensures Acceptable(limit, frames)
  {
    CarriersOfMore(frames, f);
    CarriersOfMore(Carriers(frames), f);
    if !IsControl(f.opcode) {
      GrammarOfMore(Carriers(frames), f);
    } else {
      assert Carriers(frames) + [] == Carriers(frames);
    }
  }

  /** Refusal happens exactly outside the grammar or past the limit: nothing is refused if and
      only if, pings and pongs aside, the frames are one data frame and then continuations,
      within the limit together. Then exactly their payloads have been gathered. */
  lemma {:induction false} RefusedExactlyOutside(limit: int, frames: seq<Incoming>)
    requires AllArrived(frames)
    ensures NothingRefused(limit, frames) <==> Acceptable(limit, frames)
    ensures NothingRefused(limit, frames) ==> Gathered(After(limit, frames), frames)
    decreases |frames|
  {
    if frames == [] {
    } else {
      var before, f := frames[..|frames| - 1], frames[|frames| - 1];
      assert frames == before + [f];
      RefusedExactlyOutside(limit, before);
      RefusalOfMore(limit, before, f);
      if Acceptable(limit, before) {
        OneMore(limit, After(limit, before), before, f);
      } else if Acceptable(limit, frames) {
        AcceptableBefore(limit, before, f);
      }
    }
  }

  /** The limit of a prefix is the limit of the whole. */
  lemma {:induction false} AcceptablePrefix(limit: int, frames: seq<Incoming>, i: nat)
    requires Acceptable(limit, frames) && i <= |frames|
    ensures Acceptable(limit, frames[..i])
    decreases |frames|
  {
    if i == |frames| {
      assert frames[..i] == frames;
    } else {
      var before := frames[..|frames| - 1];
      assert frames == before + [frames[|frames| - 1]];
      AcceptableBefore(limit, before, frames[|frames| - 1]);
      AcceptablePrefix(limit, before, i);
      assert before[..i] == frames[..i];
    }
  }

  /** What a frame of an acceptable run is answered with, after the frames before it. */
  function Proper(before: seq<Incoming>, f: Incoming): Step
    requires Arrived(f)
  {
    if f.opcode == OPCODE_PING then MORE.(pongWith := Some(FrameOf(f.payload, OPCODE_PONG, f.mask)))
    else if f.opcode == OPCODE_PONG || !f.final then MORE
    else MORE.(message := Some(Payloads(Carriers(before)) + f.payload))
  }

  lemma NextAnswer(limit: int, g: Gathering, before: seq<Incoming>, f: Incoming)
    requires Arrived(f) && Gathered(g, before) && Acceptable(limit, before) && Acceptable(limit, before + [f])
    ensures Took(g, limit, f).1 == Proper(before, f)
  {
    OneMore(limit, g, before, f);
  }

  lemma GatheredBefore(limit: int, frames: seq<Incoming>, i: nat)
    requires AllArrived(frames) && Acceptable(limit, frames) && i < |frames|
    ensures AllArrived(frames[..i]) && Gathered(After(limit, frames[..i]), frames[..i])
    ensures Acceptable(limit, frames[..i]) && Acceptable(limit, frames[..i] + [frames[i]])
  {
    AcceptablePrefix(limit, frames, i);
    AcceptablePrefix(limit, frames, i + 1);
    assert frames[..i + 1] == frames[..i] + [frames[i]];
    RefusedExactlyOutside(limit, frames[..i]);
  }

  /** Each ping is answered with one pong of its own payload, wherever it comes; a pong and a
      fragment with nothing; a final frame with everything the frames have carried. */
  lemma AnswersInTheGrammar(limit: int, frames: seq<Incoming>, i: nat)
    requires AllArrived(frames) && Acceptable(limit, frames) && i < |frames|
    ensures Answer(limit, frames, i) == Proper(frames[..i], frames[i])
  {
    GatheredBefore(limit, frames, i);
    NextAnswer(limit, After(limit, frames[..i]), frames[..i], frames[i]);
  }

  /** The frames are the message cut anywhere: the first carrier is data, the others continue
      it, only the last is final - and it is the last frame read. */
  ghost predicate Carry(frames: seq<Incoming>, message: Bytes) {
    var carriers := Carriers(frames);
    && frames != [] && carriers != [] && InGrammar(carriers) && Payloads(carriers) == message
    && !IsControl(frames[|frames| - 1].opcode) && frames[|frames| - 1].final
    && forall i :: 0 <= i < |frames| - 1 && !IsControl(frames[i].opcode) ==> !frames[i].final
  }

  /** A message, cut into frames with pings and pongs anywhere between, arrives whole at its
      final frame and not before; past the limit it never arrives. */
  lemma MessageArrivesWhole(limit: int, frames: seq<Incoming>, message: Bytes)
    requires AllArrived(frames) && Carry(frames, message)
    ensures |message| <= limit ==> NothingRefused(limit, frames)
    ensures |message| <= limit ==> Answer(limit, frames, |frames| - 1) == MORE.(message := Some(message))
    ensures |message| <= limit ==>
              forall i :: 0 <= i < |frames| - 1 ==> Answer(limit, frames, i).message.None?
    ensures |message| > limit ==> !NothingRefused(limit, frames)
  {
    RefusedExactlyOutside(limit, frames);
    var before, last := frames[..|frames| - 1], frames[|frames| - 1];
    CarriersOfMore(before, last);
    CarriersOfMore(Carriers(before), last);
    assert frames == before + [last];
    if |message| <= limit {
      AnswersInTheGrammar(limit, frames, |frames| - 1);
      forall i | 0 <= i < |frames| - 1 ensures Answer(limit, frames, i).message.None? {
        AnswersInTheGrammar(limit, frames, i);
      }
    }
  }

  /** The pong is itself a frame that reads back with the ping's payload. */
  lemma PongReadsBack(g: Gathering, limit: int, f: Incoming, rest: Bytes)
    requires Arrived(f) && f.opcode == OPCODE_PING
    ensures var step := Took(g, limit, f).1;
            step.pongWith.Some? &&
            ReadFrame(step.pongWith.value + rest) == Read(AsRead(Sent(OPCODE_PONG, f.payload, f.mask)), rest)
  {
    FrameReadsBack(f.payload, OPCODE_PONG, f.mask, rest);
    OpcodeSurvives(OPCODE_PONG, |f.payload|);
  }
}
