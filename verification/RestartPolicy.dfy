/** The shell's restart rules. Times are whole milliseconds. */
module RestartPolicy {

  datatype EngineExit = EngineExit(code: int, ranFor: int)

  datatype SocketProbe = NotProbed | Answered | Silent

  datatype StopReason = RepeatedFailures(attempts: int) | AnotherEngineIsListening

  datatype RestartVerdict =
    | Restart(after: int, consecutiveFastFailures: nat)
    | GiveUp(reason: StopReason)

  const COULD_NOT_START := 2

  datatype Policy = Policy(firstDelay: int, delayCap: int, steadyState: int, failureCeiling: int) {

    predicate IsFastFailure(ranFor: int) {
      ranFor < steadyState
    }

    predicate ProbesTheSocket(exit: EngineExit) {
      exit.code == COULD_NOT_START
    }

    function Delay(n: int): int {
      if n <= 1 then firstDelay else Min(firstDelay * Power2(n - 1), delayCap)
    }

    function Verdict(exit: EngineExit, socket: SocketProbe, consecutiveFastFailures: nat): RestartVerdict {
      if socket.Answered? && ProbesTheSocket(exit) then GiveUp(AnotherEngineIsListening)
      else if !IsFastFailure(exit.ranFor) then Restart(firstDelay, 0)
      else
        var failures := consecutiveFastFailures + 1;
        if failures >= failureCeiling then GiveUp(RepeatedFailures(failures))
        else Restart(Delay(failures), failures)
    }
  }

  const DEFAULT := Policy(1_000, 30_000, 60_000, 5)

  function Min(a: int, b: int): int {
    if a < b then a else b
  }

  function Power2(n: nat): (p: int)
    ensures p >= 1
  {
    if n == 0 then 1 else 2 * Power2(n - 1)
  }

  lemma Doubling(p: Policy, n: int)
    requires 1 <= n && 0 <= p.firstDelay <= p.delayCap
    ensures p.Delay(n) <= p.Delay(n + 1) <= p.delayCap
  {
    assert p.firstDelay * Power2(n) == 2 * (p.firstDelay * Power2(n - 1));
    if n == 1 {
      assert p.firstDelay * Power2(0) == p.firstDelay;
    } else {
      assert 0 <= p.firstDelay * Power2(n - 1);
    }
  }

  ghost predicate NeverShorter(p: Policy) {
    forall n {:trigger p.Delay(n)} :: 1 <= n ==> p.Delay(n) <= p.Delay(n + 1) && p.Delay(n) <= p.delayCap
  }

  /** The delays never shrink and never pass the cap, exactly when the first delay is neither
      negative nor above the cap: the first delay is not capped, only the doubled ones are. */
  lemma DelaysClimbToCap(p: Policy)
    ensures NeverShorter(p) <==> 0 <= p.firstDelay <= p.delayCap
  {
    if 0 <= p.firstDelay <= p.delayCap {
      forall n {:trigger p.Delay(n)} | 1 <= n ensures p.Delay(n) <= p.Delay(n + 1) && p.Delay(n) <= p.delayCap {
        Doubling(p, n);
      }
    } else {
      FirstDelays(p);
    }
  }

  lemma FirstDelays(p: Policy)
    ensures p.Delay(1) == p.firstDelay && p.Delay(2) == Min(2 * p.firstDelay, p.delayCap)
  {
  }

  /** The delays between fast failures, from the first. */
  function Ladder(p: Policy, n: nat): seq<int> {
    if n == 0 then [] else Ladder(p, n - 1) + [p.Delay(n)]
  }

  /** Each delay after the first is twice the one before, or the cap. */
  lemma DelaysDouble(p: Policy, n: nat)
    requires n >= 1 && p.delayCap >= 0
    ensures p.Delay(1) == p.firstDelay
    ensures p.Delay(n + 1) == Min(2 * p.Delay(n), p.delayCap)
  {
    assert p.firstDelay * Power2(n) == 2 * (p.firstDelay * Power2(n - 1));
    if n == 1 {
      FirstDelays(p);
    }
  }

  /** Under the default policy: 1, 2, 4 and 8 seconds, and the fifth failure gives up; a run of a
      minute, and no shorter one, is no failure. */
  lemma DefaultLadder(exit: EngineExit, failures: nat)
    requires failures <= 4
    ensures Ladder(DEFAULT, 4) == [1_000, 2_000, 4_000, 8_000]
    ensures DEFAULT.Delay(5) == 16_000 && DEFAULT.Delay(6) == 30_000
    ensures DEFAULT.Verdict(exit, Silent, failures) ==
            if exit.ranFor >= 60_000 then Restart(1_000, 0)
            else if failures == 4 then GiveUp(RepeatedFailures(5))
            else Restart([1_000, 2_000, 4_000, 8_000][failures], failures + 1)
  {
  }
}
