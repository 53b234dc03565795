/** The latch that publishes a fact settled once: resolve it, wake everyone waiting, let late
    waiters through. Its critical sections are atomic, so a history of the latch is a list of
    calls; a waiter is the number of the call of `value` it made. */
module OneShot {
  import opened Text

  type Waiter = nat

  datatype Resumption<V> = Resumption(waiter: Waiter, value: V)

  datatype Latch<V> = Latch(stored: Option<V>, waiters: seq<Waiter>)

  function ResumeAll<V>(waiters: seq<Waiter>, value: V): (r: seq<Resumption<V>>)
    ensures |r| == |waiters|
    ensures forall i :: 0 <= i < |r| ==> r[i] == Resumption(waiters[i], value)
  {
    seq(|waiters|, i requires 0 <= i < |waiters| => Resumption(waiters[i], value))
  }

  function Resolved<V>(l: Latch<V>, value: V): (Latch<V>, seq<Resumption<V>>) {
    if l.stored.Some? then (l, []) else (Latch(Some(value), []), ResumeAll(l.waiters, value))
  }

  function Waited<V>(l: Latch<V>, w: Waiter): (Latch<V>, seq<Resumption<V>>) {
    match l.stored
    case Some(value) => (l, [Resumption(w, value)])
    case None => (l.(waiters := l.waiters + [w]), [])
  }

  class OneShot<V> {
    var stored: Option<V>
    var waiters: seq<Waiter>

    function State(): Latch<V>
      reads this
    {
      Latch(stored, waiters)
    }

    constructor ()
      ensures State() == Latch(None, [])
    {
      stored, waiters := None, [];
    }

    /** The waiters are taken out under the lock and resumed one by one after it. */
    method Resolve(value: V) returns (resumed: seq<Resumption<V>>)
      modifies this
      ensures (State(), resumed) == Resolved(old(State()), value)
    {
      var waiting := [];
      if stored.None? {
        stored := Some(value);
        waiting := waiters;
        waiters := [];
      }
      resumed := [];
      for i := 0 to |waiting|
        invariant resumed == ResumeAll(waiting, value)[..i]
        invariant State() == Resolved(old(State()), value).0
      {
        resumed := resumed + [Resumption(waiting[i], value)];
      }
      assert resumed == ResumeAll(waiting, value);
    }

    /** What `value` does before it suspends, if it does. */
    method Value(w: Waiter) returns (resumed: seq<Resumption<V>>)
      modifies this
      ensures (State(), resumed) == Waited(old(State()), w)
    {
      if stored.Some? {
        resumed := [Resumption(w, stored.value)];
      } else {
        waiters := waiters + [w];
        resumed := [];
      }
    }
  }

  // ----- every history -----

  datatype Call<V> = Resolves(value: V) | Waits

  /** The latch after some calls, how many of them were of `value`, and every resumption made. */
  datatype Outcome<V> = Outcome(latch: Latch<V>, arrived: nat, resumptions: seq<Resumption<V>>)

  function After<V>(calls: seq<Call<V>>): Outcome<V> {
    if calls == [] then Outcome(Latch(None, []), 0, [])
    else
      var o := After(calls[..|calls| - 1]);
      match calls[|calls| - 1]
      case Resolves(value) =>
        var (latch, resumed) := Resolved(o.latch, value);
        Outcome(latch, o.arrived, o.resumptions + resumed)
      case Waits =>
        var (latch, resumed) := Waited(o.latch, o.arrived);
        Outcome(latch, o.arrived + 1, o.resumptions + resumed)
  }

  function Arrivals<V>(calls: seq<Call<V>>): nat {
    if calls == [] then 0
    else Arrivals(calls[..|calls| - 1]) + if calls[|calls| - 1].Waits? then 1 else 0
  }

  /** The value of the first call of `resolve`. */
  function First<V>(calls: seq<Call<V>>): Option<V> {
    if calls == [] then None
    else if calls[0].Resolves? then Some(calls[0].value)
    else First(calls[1..])
  }

  function UpTo(n: nat): (r: seq<Waiter>)
    ensures |r| == n && forall i :: 0 <= i < n ==> r[i] == i
  {
    seq(n, i => i)
  }

  lemma {:induction false} FirstOfPrefix<V>(calls: seq<Call<V>>, last: Call<V>)
    ensures First(calls + [last]) ==
            if First(calls).Some? then First(calls) else if last.Resolves? then Some(last.value) else None
    decreases |calls|
  {
    if calls == [] {
      assert (calls + [last])[1..] == [];
    } else {
      assert (calls + [last])[1..] == calls[1..] + [last];
      FirstOfPrefix(calls[1..], last);
    }
  }

  /** In every history: until the first `resolve` nobody has been resumed and everybody who
      called `value` is suspended; from then on nobody is, and everybody who called `value`,
      early or late, has been resumed exactly once, in order, with the first resolved value. */
  lemma {:induction false} EverybodyOnceWithTheFirst<V>(calls: seq<Call<V>>)
    ensures var n := Arrivals(calls);
            After(calls) == match First(calls)
                            case None => Outcome(Latch(None, UpTo(n)), n, [])
                            case Some(v) => Outcome(Latch(Some(v), []), n, ResumeAll(UpTo(n), v))
    decreases |calls|
  {
    if calls != [] {
      var before, last := calls[..|calls| - 1], calls[|calls| - 1];
      assert calls == before + [last];
      EverybodyOnceWithTheFirst(before);
      FirstOfPrefix(before, last);
      var n := Arrivals(before);
      assert UpTo(n) + [n] == UpTo(n + 1);
      if First(before).Some? {
        var v := First(before).value;
        assert ResumeAll(UpTo(n), v) + [Resumption(n, v)] == ResumeAll(UpTo(n + 1), v);
      }
    }
  }
}
