/** Waiting for a condition against a monotonic deadline. */
module Polling {
  import opened Errors

  /** One wait between two evaluations: the clock reading it was decided on, and the seconds asked for. */
  datatype Nap = Nap(at: real, seconds: real)

  /** A monotonic clock, a predicate that may answer anything and take any time, and a log of both. */
  class Watch {
    var now: real
    ghost var answers: seq<bool>
    ghost var naps: seq<Nap>

    constructor (now: real)
      ensures this.now == now && answers == [] && naps == []
    {
      this.now := now;
      answers, naps := [], [];
    }

    method Evaluate() returns (met: bool)
      modifies this
      ensures now >= old(now) && naps == old(naps)
      ensures answers == old(answers) + [met]
    {
      var takes: real :| takes >= 0.0;
      met := *;
      now := now + takes;
      answers := answers + [met];
    }

    /** A sleep lasts at least as long as it was asked to. */
    method Sleep(seconds: real)
      requires seconds >= 0.0
      modifies this
      ensures now >= old(now) + seconds && answers == old(answers)
      ensures naps == old(naps) + [Nap(old(now), seconds)]
    {
      var over: real :| over >= 0.0;
      naps := naps + [Nap(now, seconds)];
      now := now + seconds + over;
    }
  }

  datatype PollResult = PollResult(elapsed: real, attempts: nat)

  ghost function Total(naps: seq<Nap>): real {
    if naps == [] then 0.0 else Total(naps[..|naps| - 1]) + naps[|naps| - 1].seconds
  }

  function Ceiling(x: real): int {
    -(-x).Floor
  }

  /** No evaluation before the last was true. */
  predicate OnlyLast(answers: seq<bool>, last: bool) {
    answers != [] && answers[|answers| - 1] == last && forall i | 0 <= i < |answers| - 1 :: !answers[i]
  }

  /** A wait is never longer than the interval and never reaches past the deadline; only one that ends there is
      shorter. */
  predicate Trimmed(nap: Nap, interval: real, deadline: real) {
    0.0 < nap.seconds <= interval && nap.at + nap.seconds <= deadline
    && (nap.seconds < interval ==> nap.at + nap.seconds == deadline)
  }

  lemma {:induction false} TotalOfEqual(naps: seq<Nap>, interval: real)
    requires forall nap | nap in naps :: nap.seconds == interval
    ensures Total(naps) == |naps| as real * interval
  {
    if naps != [] {
      var front, last := naps[..|naps| - 1], naps[|naps| - 1];
      assert last in naps && forall nap | nap in front :: nap in naps;
      TotalOfEqual(front, interval);
      assert |naps| as real * interval == |front| as real * interval + interval;
    }
  }

  /** Fewer than `timeout` seconds of whole intervals are fewer than the rounded-up quotient of them. */
  lemma FewerThanCeiling(n: nat, timeout: real, interval: real)
    requires interval > 0.0 && n as real * interval < timeout
    ensures n < Ceiling(timeout / interval)
  {
    var quotient := timeout / interval;
    assert quotient * interval == timeout;
    assert n as real * interval - quotient * interval == (n as real - quotient) * interval;
    assert n as real < quotient;
  }

  /** While the whole intervals slept are short of the timeout, so is their number of the bound. */
  lemma RoomForAnother(naps: seq<Nap>, timeout: real, interval: real)
    requires interval > 0.0 && Total(naps) < timeout
    requires forall nap | nap in naps :: nap.seconds == interval
    ensures |naps| < Ceiling(timeout / interval)
  {
    hide Total, Ceiling;
    TotalOfEqual(naps, interval);
    FewerThanCeiling(|naps|, timeout, interval);
  }

  lemma TotalOfNext(naps: seq<Nap>, nap: Nap)
    ensures Total(naps + [nap]) == Total(naps) + nap.seconds
  {
    assert (naps + [nap])[..|naps|] == naps;
  }

  lemma CeilingIsPositive(timeout: real, interval: real)
    requires timeout > 0.0 && interval > 0.0
    ensures Ceiling(timeout / interval) > 0
  {
    FewerThanCeiling(0, timeout, interval);
  }

  /** `poll_until`. The time between two readings of the clock is whatever evaluating and sleeping took. */
  method PollUntil(watch: Watch, timeout: real, interval: real) returns (r: Result<PollResult>)
    requires watch.answers == [] && watch.naps == []
    modifies watch
    ensures timeout <= 0.0 || interval <= 0.0 ==> r == Err(ConfigurationError) && watch.answers == []
    ensures timeout > 0.0 && interval > 0.0 ==>
              && OnlyLast(watch.answers, r.Ok?)
              && (r.Ok? ==> r.value == PollResult(watch.now - old(watch.now), |watch.answers|))
              && (r.Err? ==> r.error == OperationTimeoutError && watch.now >= old(watch.now) + timeout)
              && |watch.naps| == |watch.answers| - 1
              && (forall nap | nap in watch.naps :: Trimmed(nap, interval, old(watch.now) + timeout))
              && Total(watch.naps) <= timeout
              && |watch.answers| <= Ceiling(timeout / interval) + 1
  {
    if timeout <= 0.0 || interval <= 0.0 {
      return Err(ConfigurationError);
    }
    assert Total([]) == 0.0;
    CeilingIsPositive(timeout, interval);
    hide Total, Ceiling;
    var started := watch.now;
    var deadline := started + timeout;
    var attempts := 0;
    ghost var bound := Ceiling(timeout / interval);
    while true
      invariant attempts == |watch.answers| == |watch.naps|
      invariant forall i | 0 <= i < |watch.answers| :: !watch.answers[i]
      invariant forall nap | nap in watch.naps :: Trimmed(nap, interval, deadline)
      invariant started + Total(watch.naps) <= watch.now && Total(watch.naps) <= timeout
      invariant watch.now >= deadline || forall nap | nap in watch.naps :: nap.seconds == interval
      invariant 0 <= attempts <= bound
      decreases bound - attempts
    {
      attempts := attempts + 1;
      var met := watch.Evaluate();
      if met {
        return Ok(PollResult(watch.now - started, attempts));
      }
      var remaining := deadline - watch.now;
      if remaining <= 0.0 {
        return Err(OperationTimeoutError);
      }
      RoomForAnother(watch.naps, timeout, interval);
      var seconds := if interval < remaining then interval else remaining;
      TotalOfNext(watch.naps, Nap(watch.now, seconds));
      watch.Sleep(seconds);
    }
  }
}
