/** A monotonic clock and the single-operation budget measured on it. */
module Deadlines {
  import opened Errors

  /** Time passes only inside backend calls, each bounded by the timeout it was handed. */
  class Clock {
    var now: real
    /** For each call made, the latest moment at which the timeout it was handed would have let it return. */
    ghost var calls: seq<real>

    constructor (now: real)
      ensures this.now == now && calls == []
    {
      this.now := now;
      calls := [];
    }

    /** Since the calls `before` there were at most `most`, none handed more time than was left until `endsAt`. */
    ghost predicate CallsWithin(before: seq<real>, most: nat, endsAt: real)
      reads this
    {
      before <= calls && |calls| <= |before| + most && forall i | |before| <= i < |calls| :: calls[i] <= endsAt
    }

    /** The same for any number of calls. */
    ghost predicate HandedUntil(before: seq<real>, endsAt: real)
      reads this
    {
      before <= calls && forall i | |before| <= i < |calls| :: calls[i] <= endsAt
    }

    /** Time passes outside any bounded call. */
    method Pass()
      modifies this`now
      ensures now >= old(now)
    {
      var spent: real :| spent >= 0.0;
      now := now + spent;
    }

    /** A call that returns within `limit`. */
    method Elapse(limit: real)
      requires limit >= 0.0
      modifies this
      ensures old(now) <= now <= old(now) + limit
      ensures calls == old(calls) + [old(now) + limit]
    {
      calls := calls + [now + limit];
      var spent: real :| 0.0 <= spent <= limit;
      now := now + spent;
    }
  }

  datatype Deadline = Deadline(endsAt: real) {
    function Remaining(now: real): (r: Result<real>)
      ensures r.Ok? <==> now < endsAt
      ensures r.Ok? ==> r.value > 0.0 && now + r.value == endsAt
      ensures r.Err? ==> r.error == TransportTimeoutError
    {
      if endsAt - now <= 0.0 then Err(TransportTimeoutError) else Ok(endsAt - now)
    }
  }

  function NewDeadline(timeout: real, now: real): Result<Deadline> {
    if timeout <= 0.0 then Err(ConfigurationError) else Ok(Deadline(now + timeout))
  }

  /** `operation_deadline` for a transport with a configured default. */
  function OperationDeadline(defaultTimeout: real, timeout: Option<real>, now: real): Result<Deadline> {
    NewDeadline(if timeout.Some? then timeout.value else defaultTimeout, now)
  }
}
