/** Retrying an operation: how long to wait before each attempt, when to stop, and what the caller gets. */
module Retries {
  import opened Errors

  function Power(base: real, exponent: nat): real {
    if exponent == 0 then 1.0 else base * Power(base, exponent - 1)
  }

  datatype RetryPolicy = RetryPolicy(
    attempts: int,
    initialDelay: real,
    backoff: real,
    fastAttempts: int,
    maxDelay: Option<real>,
    maxElapsed: Option<real>
  ) {
    /** What the constructor checks. */
    predicate Accepted() {
      && attempts >= 1
      && initialDelay >= 0.0
      && backoff > 0.0
      && fastAttempts >= 0
      && (maxDelay.Some? ==> maxDelay.value > 0.0)
      && (maxElapsed.Some? ==> maxElapsed.value > 0.0)
    }

    /** How often the delay before `number` has been multiplied by the backoff. */
    function Exponent(number: int): nat {
      var plateau := if fastAttempts - 1 > 0 then fastAttempts - 1 else 0;
      if (number - 2) - plateau > 0 then (number - 2) - plateau else 0
    }

    function Uncapped(number: int): real {
      initialDelay * Power(backoff, Exponent(number))
    }

    function Capped(delay: real): real {
      if maxDelay.Some? && maxDelay.value < delay then maxDelay.value else delay
    }

    /** The seconds to wait before an attempt; the first attempt is number 1. */
    function DelayBefore(number: int): real {
      if number <= 1 then 0.0 else Capped(Uncapped(number))
    }
  }

  lemma {:induction false} PowerIsPositive(base: real, n: nat)
    requires base > 0.0
    ensures Power(base, n) > 0.0
  {
    if n > 0 {
      PowerIsPositive(base, n - 1);
    }
  }

  lemma {:induction false} PowerGrows(base: real, m: nat, n: nat)
    requires base > 0.0 && m <= n
    ensures base >= 1.0 ==> Power(base, m) <= Power(base, n)
    ensures base <= 1.0 ==> Power(base, m) >= Power(base, n)
    decreases n
  {
    if m < n {
      PowerGrows(base, m, n - 1);
      PowerIsPositive(base, n - 1);
      Scaled(base, Power(base, n - 1));
    }
  }

  lemma Scaled(base: real, x: real)
    requires x > 0.0
    ensures base >= 1.0 ==> base * x >= x
    ensures base <= 1.0 ==> base * x <= x
  {
    assert base * x - x == (base - 1.0) * x;
  }

  lemma ScaledOrder(factor: real, x: real, y: real)
    requires factor >= 0.0 && x <= y
    ensures factor * x <= factor * y
  {
    assert factor * y - factor * x == factor * (y - x);
  }

  lemma UncappedIsMonotone(policy: RetryPolicy, m: int, n: int)
    requires policy.Accepted() && m <= n
    ensures 0.0 <= policy.Uncapped(m)
    ensures policy.backoff >= 1.0 ==> policy.Uncapped(m) <= policy.Uncapped(n)
    ensures policy.backoff <= 1.0 ==> policy.Uncapped(m) >= policy.Uncapped(n)
  {
    var p, q := Power(policy.backoff, policy.Exponent(m)), Power(policy.backoff, policy.Exponent(n));
    PowerIsPositive(policy.backoff, policy.Exponent(m));
    PowerGrows(policy.backoff, policy.Exponent(m), policy.Exponent(n));
    ScaledOrder(policy.initialDelay, 0.0, p);
    if policy.backoff >= 1.0 {
      ScaledOrder(policy.initialDelay, p, q);
    }
    if policy.backoff <= 1.0 {
      ScaledOrder(policy.initialDelay, q, p);
    }
  }

  /** No delay is negative or above the cap. */
  lemma DelayIsBounded(policy: RetryPolicy, number: int)
    requires policy.Accepted()
    ensures policy.DelayBefore(number) >= 0.0
    ensures policy.maxDelay.Some? ==> policy.DelayBefore(number) <= policy.maxDelay.value
  {
    hide Power, RetryPolicy.Uncapped;
    UncappedIsMonotone(policy, number, number);
  }

  /** Nothing is waited before the first attempt; later, an uncapped delay not above the cap is waited in full, and the
      cap otherwise. */
  lemma WaitedInFull(policy: RetryPolicy, number: int)
    ensures number <= 1 ==> policy.DelayBefore(number) == 0.0
    ensures number >= 2 && (policy.maxDelay.None? || policy.Uncapped(number) <= policy.maxDelay.value) ==>
              policy.DelayBefore(number) == policy.Uncapped(number)
    ensures number >= 2 && policy.maxDelay.Some? && policy.Uncapped(number) > policy.maxDelay.value ==>
              policy.DelayBefore(number) == policy.maxDelay.value
  {
    hide Power, RetryPolicy.Uncapped;
  }

  /** Later attempts never wait less when the backoff is at least one, and never more, after the first wait,
      when it is at most one. */
  lemma DelaysAreMonotone(policy: RetryPolicy, m: int, n: int)
    requires policy.Accepted() && m <= n
    ensures policy.backoff >= 1.0 ==> policy.DelayBefore(m) <= policy.DelayBefore(n)
    ensures policy.backoff <= 1.0 && m >= 2 ==> policy.DelayBefore(m) >= policy.DelayBefore(n)
  {
    hide Power, RetryPolicy.Uncapped;
    DelayIsBounded(policy, n);
    UncappedIsMonotone(policy, m, n);
  }

  /** The waits before the fast attempts are the initial delay. From there each is the backoff times the one before,
      up to the cap; a backoff below one leaves the cap only when the uncapped delay has come down to it. */
  lemma PlateauThenGeometric(policy: RetryPolicy, number: int)
    requires policy.Accepted() && number >= 2
    ensures number == 2 || number <= policy.fastAttempts + 1 ==>
              policy.DelayBefore(number) == policy.Capped(policy.initialDelay)
    ensures number > policy.fastAttempts
            && (policy.backoff >= 1.0 || policy.Capped(policy.Uncapped(number)) == policy.Uncapped(number)) ==>
              policy.DelayBefore(number + 1) == policy.Capped(policy.backoff * policy.DelayBefore(number))
  {
    if number > policy.fastAttempts {
      UncappedGrows(policy, number);
      UncappedIsMonotone(policy, number, number);
      hide Power, RetryPolicy.Uncapped;
      if policy.backoff >= 1.0 && policy.maxDelay.Some? {
        Scaled(policy.backoff, policy.maxDelay.value);
        if policy.Uncapped(number) > 0.0 { Scaled(policy.backoff, policy.Uncapped(number)); }
      }
    }
  }

  lemma UncappedGrows(policy: RetryPolicy, number: int)
    requires number >= 2 && number > policy.fastAttempts
    ensures policy.Uncapped(number + 1) == policy.backoff * policy.Uncapped(number)
  {
    assert policy.Exponent(number + 1) == policy.Exponent(number) + 1;
    var p := Power(policy.backoff, policy.Exponent(number));
    assert policy.initialDelay * (policy.backoff * p) == policy.backoff * (policy.initialDelay * p);
  }

  // ---- a run of the loop

  /** How a call ended: with a value, with an error the caller retries on, or with any other. */
  datatype Outcome = Success(value: int) | Retryable(error: Error) | Fatal(error: Error)

  datatype Phase = Recovering | Operating

  /** What is reported to the observer after an attempt. */
  datatype Record = Record(number: int, total: int, error: Option<Error>, delay: real, phase: Phase)

  /** What the environment answers in attempt `n`, and how long it takes, beyond the sleep it was asked for. */
  datatype World = World(
    start: real,
    recovers: bool,
    operation: int -> Outcome,
    recovery: int -> Outcome,
    oversleep: int -> real,
    busy: int -> real
  ) {
    predicate RecoveryFails(n: int) {
      n > 1 && recovers && !recovery(n).Success?
    }

    function OutcomeOf(n: int): Outcome {
      if RecoveryFails(n) then recovery(n) else operation(n)
    }

    ghost predicate Monotone() {
      forall n :: oversleep(n) >= 0.0 && busy(n) >= 0.0
    }
  }

  datatype Event = Slept(seconds: real) | Recovered(outcome: Outcome) | Operated(outcome: Outcome)
      | Observed(record: Record)

  /** The loop's surroundings: a clock, and a log of every call out of the loop. */
  class Surroundings {
    const world: World
    var now: real
    ghost var trace: seq<Event>

    constructor (world: World)
      ensures this.world == world && now == world.start && trace == []
    {
      this.world := world;
      now := world.start;
      trace := [];
    }

    method Sleep(seconds: real, n: int)
      modifies this
      ensures now == old(now) + seconds + world.oversleep(n)
      ensures trace == old(trace) + [Slept(seconds)]
    {
      now := now + seconds + world.oversleep(n);
      trace := trace + [Slept(seconds)];
    }

    method Recover(n: int) returns (outcome: Outcome)
      modifies this`trace
      ensures outcome == world.recovery(n) && trace == old(trace) + [Recovered(outcome)]
    {
      outcome := world.recovery(n);
      trace := trace + [Recovered(outcome)];
    }

    method Operate(n: int) returns (outcome: Outcome)
      modifies this`trace
      ensures outcome == world.operation(n) && trace == old(trace) + [Operated(outcome)]
    {
      outcome := world.operation(n);
      trace := trace + [Operated(outcome)];
    }

    /** Reporting ends an attempt; the time the attempt took has passed by then. */
    method Observe(record: Record)
      modifies this
      ensures now == old(now) + world.busy(record.number)
      ensures trace == old(trace) + [Observed(record)]
    {
      now := now + world.busy(record.number);
      trace := trace + [Observed(record)];
    }
  }

  /** The clock when attempt `n` is considered, after the earlier ones failed. */
  function ClockBefore(policy: RetryPolicy, w: World, n: nat): real
    decreases n, 0
  {
    if n <= 1 then w.start else StartOf(policy, w, n - 1) + w.busy(n - 1)
  }

  /** The clock when attempt `n` starts. */
  function StartOf(policy: RetryPolicy, w: World, n: nat): real
    decreases n, 1
  {
    var delay := policy.DelayBefore(n);
    ClockBefore(policy, w, n) + if delay > 0.0 then delay + w.oversleep(n) else 0.0
  }

  predicate TooLate(policy: RetryPolicy, w: World, n: nat) {
    n > 1 && policy.maxElapsed.Some?
        && (ClockBefore(policy, w, n) - w.start) + policy.DelayBefore(n) > policy.maxElapsed.value
  }

  /** The loop makes exactly `n` attempts: all before it failed retryably and were in time for another,
      and the last one decided, was the last allowed, or left no time. */
  predicate Made(policy: RetryPolicy, w: World, n: nat) {
    && 1 <= n <= policy.attempts
    && (forall k | 1 <= k < n :: w.OutcomeOf(k).Retryable? && !TooLate(policy, w, k + 1))
    && (w.OutcomeOf(n).Retryable? ==> n == policy.attempts || TooLate(policy, w, n + 1))
  }

  function RecordOf(policy: RetryPolicy, w: World, n: nat): Record {
    var outcome := w.OutcomeOf(n);
    Record(n, policy.attempts, if outcome.Success? then None else Some(outcome.error), policy.DelayBefore(n),
           if w.RecoveryFails(n) then Recovering else Operating)
  }

  function SleepOf(policy: RetryPolicy, n: nat): seq<Event> {
    if policy.DelayBefore(n) > 0.0 then [Slept(policy.DelayBefore(n))] else []
  }

  function RecoveryOf(w: World, n: nat): seq<Event> {
    if n > 1 && w.recovers then [Recovered(w.recovery(n))] else []
  }

  function OperationOf(w: World, n: nat): seq<Event> {
    if w.RecoveryFails(n) then [] else [Operated(w.operation(n))]
  }

  function ReportOf(policy: RetryPolicy, w: World, n: nat): seq<Event> {
    if w.OutcomeOf(n).Fatal? then [] else [Observed(RecordOf(policy, w, n))]
  }

  /** The calls of one attempt, in order. */
  function Attempt(policy: RetryPolicy, w: World, n: nat): seq<Event> {
    SleepOf(policy, n) + RecoveryOf(w, n) + OperationOf(w, n) + ReportOf(policy, w, n)
  }

  lemma Regroup(before: seq<Event>, a: seq<Event>, b: seq<Event>, c: seq<Event>, d: seq<Event>)
    ensures before + a + b + c + d == before + (a + b + c + d)
  {}

  function Trace(policy: RetryPolicy, w: World, n: nat): seq<Event> {
    if n == 0 then [] else Trace(policy, w, n - 1) + Attempt(policy, w, n)
  }

  /** The body of the loop's `try`: recover before every attempt but the first, then run the operation. */
  method TryOnce(env: Surroundings, number: nat) returns (result: Outcome, phase: Phase)
    modifies env`trace
    ensures result == env.world.OutcomeOf(number)
    ensures phase == if env.world.RecoveryFails(number) then Recovering else Operating
    ensures env.trace == old(env.trace) + RecoveryOf(env.world, number) + OperationOf(env.world, number)
  {
    phase := Operating;
    if number > 1 && env.world.recovers {
      phase := Recovering;
      result := env.Recover(number);
      if !result.Success? {
        return;
      }
      phase := Operating;
    }
    result := env.Operate(number);
  }

  /** One round of the loop: sleep, try, and report what is not fatal. */
  method MakeAttempt(policy: RetryPolicy, env: Surroundings, number: nat) returns (result: Outcome)
    requires env.now == ClockBefore(policy, env.world, number)
    modifies env
    ensures result == env.world.OutcomeOf(number)
    ensures env.trace == old(env.trace) + Attempt(policy, env.world, number)
    ensures !result.Fatal? ==> env.now == StartOf(policy, env.world, number) + env.world.busy(number)
  {
    hide Power, RetryPolicy.Uncapped, RetryPolicy.DelayBefore;
    ghost var before, w := env.trace, env.world;
    var delay := policy.DelayBefore(number);
    if delay > 0.0 {
      env.Sleep(delay, number);
    }
    assert env.trace == before + SleepOf(policy, number);
    var phase: Phase;
    result, phase := TryOnce(env, number);
    Regroup(before, SleepOf(policy, number), RecoveryOf(w, number),
            OperationOf(w, number), ReportOf(policy, w, number));
    hide SleepOf, RecoveryOf, OperationOf;
    if result.Fatal? {
      assert env.trace + [] == env.trace;
      return;
    }
    env.Observe(Record(number, policy.attempts, if result.Success? then None else Some(result.error), delay, phase));
  }

  /** `run_with_retry`. An outcome that is not a success is the exception that leaves the call. */
  method RunWithRetry(policy: RetryPolicy, env: Surroundings) returns (outcome: Outcome, ghost made: nat)
    requires policy.Accepted() && env.now == env.world.start && env.trace == []
    modifies env
    ensures Made(policy, env.world, made)
    ensures outcome == if made > 1 && env.world.recovers && !env.world.recovery(made).Success?
                       then env.world.recovery(made) else env.world.operation(made)
    ensures env.trace == Trace(policy, env.world, made)
  {
    hide Power, RetryPolicy.Uncapped, RetryPolicy.DelayBefore, Attempt, StartOf;
    ghost var w := env.world;
    var lastError: Option<Error> := None;
    var start := env.now;
    var number := 1;
    while number <= policy.attempts
      invariant 1 <= number <= policy.attempts + 1
      invariant forall k | 1 <= k < number :: w.OutcomeOf(k).Retryable?
      invariant forall k | 2 <= k < number :: !TooLate(policy, w, k)
      invariant lastError == if number == 1 then None else Some(w.OutcomeOf(number - 1).error)
      invariant env.now == ClockBefore(policy, w, number)
      invariant env.trace == Trace(policy, w, number - 1)
    {
      if number > 1 && policy.maxElapsed.Some?
         && (env.now - start) + policy.DelayBefore(number) > policy.maxElapsed.value {
        break;
      }
      var result := MakeAttempt(policy, env, number);
      if result.Fatal? || result.Success? {
        return result, number;
      }
      lastError := Some(result.error);
      number := number + 1;
    }
    // The guard against running no attempt at all never fires.
    assert lastError.Some?;
    outcome, made := Retryable(lastError.value), number - 1;
  }

  // ---- what follows for every run

  lemma {:induction false} MadeFrom(policy: RetryPolicy, w: World, n: nat) returns (made: nat)
    requires 1 <= n <= policy.attempts
    requires forall k | 1 <= k < n :: w.OutcomeOf(k).Retryable? && !TooLate(policy, w, k + 1)
    ensures Made(policy, w, made)
    decreases policy.attempts - n
  {
    hide TooLate;
    if w.OutcomeOf(n).Retryable? && n < policy.attempts && !TooLate(policy, w, n + 1) {
      made := MadeFrom(policy, w, n + 1);
    } else {
      made := n;
    }
  }

  /** Policy and environment settle how many attempts there are. */
  lemma ExactlyOneNumber(policy: RetryPolicy, w: World)
    requires policy.Accepted()
    ensures exists n :: Made(policy, w, n)
    ensures forall m: nat, n: nat | Made(policy, w, m) && Made(policy, w, n) :: m == n
  {
    hide TooLate;
    var n := MadeFrom(policy, w, 1);
    forall m: nat, n: nat | Made(policy, w, m) && Made(policy, w, n)
      ensures m == n
    {
      NotLater(policy, w, m, n);
      NotLater(policy, w, n, m);
    }
  }

  lemma NotLater(policy: RetryPolicy, w: World, m: nat, n: nat)
    requires Made(policy, w, m) && Made(policy, w, n)
    ensures m <= n
  {
    hide TooLate;
    assert n < m ==> w.OutcomeOf(n).Retryable?;
  }

  function Recoveries(events: seq<Event>): nat {
    if events == [] then 0
    else Recoveries(events[..|events| - 1]) + if events[|events| - 1].Recovered? then 1 else 0
  }

  function Operations(events: seq<Event>): nat {
    if events == [] then 0
    else Operations(events[..|events| - 1]) + if events[|events| - 1].Operated? then 1 else 0
  }

  function Records(events: seq<Event>): seq<Record> {
    if events == [] then []
    else
      var last := events[|events| - 1];
      Records(events[..|events| - 1]) + if last.Observed? then [last.record] else []
  }

  lemma {:induction false} CountsAppend(a: seq<Event>, b: seq<Event>)
    ensures Recoveries(a + b) == Recoveries(a) + Recoveries(b)
    ensures Operations(a + b) == Operations(a) + Operations(b)
    ensures Records(a + b) == Records(a) + Records(b)
    decreases |b|
  {
    if b == [] {
      assert a + b == a;
    } else {
      var front := b[..|b| - 1];
      assert (a + b)[..|a + b| - 1] == a + front;
      CountsAppend(a, front);
    }
  }

  lemma CountsOfOne(e: Event)
    ensures Recoveries([e]) == if e.Recovered? then 1 else 0
    ensures Operations([e]) == if e.Operated? then 1 else 0
    ensures Records([e]) == if e.Observed? then [e.record] else []
  {
    assert [e][..0] == [];
  }

  lemma CountsOfAttempt(policy: RetryPolicy, w: World, n: nat)
    ensures var a := Attempt(policy, w, n);
            && Recoveries(a) == (if n > 1 && w.recovers then 1 else 0)
            && Operations(a) == (if w.RecoveryFails(n) then 0 else 1)
            && Records(a) == if w.OutcomeOf(n).Fatal? then [] else [RecordOf(policy, w, n)]
  {
    hide Recoveries, Operations, Records;
    var slept, recovered, operated := SleepOf(policy, n), RecoveryOf(w, n), OperationOf(w, n);
    CountsAppend(slept + recovered + operated, ReportOf(policy, w, n));
    CountsAppend(slept + recovered, operated);
    CountsAppend(slept, recovered);
    CountsOfNone();
    CountsOfOne(Slept(policy.DelayBefore(n)));
    CountsOfOne(Recovered(w.recovery(n)));
    CountsOfOne(Operated(w.operation(n)));
    CountsOfOne(Observed(RecordOf(policy, w, n)));
  }

  lemma CountsOfNone()
    ensures Recoveries([]) == 0 && Operations([]) == 0 && Records([]) == []
  {}

  /** The report of attempt `n`: its number, the wait before it, and what ended it; the recovery if that failed. */
  predicate Reports(policy: RetryPolicy, w: World, n: nat, record: Record) {
    var recovers := n > 1 && w.recovers;
    && record.number == n && record.total == policy.attempts && record.delay == policy.DelayBefore(n)
    && (recovers && !w.recovery(n).Success? ==>
          record.phase == Recovering && record.error == Some(w.recovery(n).error))
    && (!(recovers && !w.recovery(n).Success?) ==>
          && record.phase == Operating
          && (w.operation(n).Success? ==> record.error == None)
          && (!w.operation(n).Success? ==> record.error == Some(w.operation(n).error)))
  }

  lemma RecordReports(policy: RetryPolicy, w: World, n: nat)
    ensures Reports(policy, w, n, RecordOf(policy, w, n))
  {}

  /** In a run of `n` attempts recovery is called for each attempt from the second on, the operation at most once
      an attempt and in all of them when every recovery succeeds, and the reports are numbered from one without a
      gap. */
  lemma {:induction false} RunIsCounted(policy: RetryPolicy, w: World, n: nat)
    requires forall k | 1 <= k < n :: w.OutcomeOf(k).Retryable?
    ensures Recoveries(Trace(policy, w, n)) == if w.recovers && n > 0 then n - 1 else 0
    ensures Operations(Trace(policy, w, n)) <= n
    ensures (forall k | 1 <= k <= n :: !w.RecoveryFails(k)) ==> Operations(Trace(policy, w, n)) == n
    ensures |Records(Trace(policy, w, n))| == if n > 0 && w.OutcomeOf(n).Fatal? then n - 1 else n
    ensures forall i | 0 <= i < |Records(Trace(policy, w, n))| ::
              Records(Trace(policy, w, n))[i] == RecordOf(policy, w, i + 1)
              && Reports(policy, w, i + 1, Records(Trace(policy, w, n))[i])
  {
    hide Recoveries, Operations, Records, Attempt, RecordOf, Reports;
    if n == 0 {
      CountsOfNone();
    } else {
      RunIsCounted(policy, w, n - 1);
      CountsOfAttempt(policy, w, n);
      RecordReports(policy, w, n);
      CountsAppend(Trace(policy, w, n - 1), Attempt(policy, w, n));
    }
  }

  lemma {:induction false} ClockIsMonotone(policy: RetryPolicy, w: World, n: nat)
    requires policy.Accepted() && w.Monotone()
    ensures w.start <= ClockBefore(policy, w, n) <= StartOf(policy, w, n)
  {
    DelayIsBounded(policy, n);
    if n > 1 {
      ClockIsMonotone(policy, w, n - 1);
    }
  }

  /** No attempt after the first starts later than the elapsed-time bound, but for what its own sleep overran. */
  lemma NoLateStart(policy: RetryPolicy, w: World, made: nat, n: nat)
    requires policy.Accepted() && w.Monotone() && policy.maxElapsed.Some?
    requires Made(policy, w, made) && 2 <= n <= made
    ensures w.start <= StartOf(policy, w, n) <= w.start + policy.maxElapsed.value + w.oversleep(n)
  {
    ClockIsMonotone(policy, w, n);
    DelayIsBounded(policy, n);
    assert w.OutcomeOf(n - 1).Retryable? && !TooLate(policy, w, n);
  }

  function TotalSleep(policy: RetryPolicy, n: nat): real {
    if n == 0 then 0.0 else TotalSleep(policy, n - 1) + policy.DelayBefore(n)
  }

  lemma {:induction false} SleepFitsClock(policy: RetryPolicy, w: World, n: nat)
    requires policy.Accepted() && w.Monotone() && n >= 1
    ensures w.start + TotalSleep(policy, n) <= StartOf(policy, w, n)
  {
    DelayIsBounded(policy, n);
    if n > 1 {
      SleepFitsClock(policy, w, n - 1);
    } else {
      assert TotalSleep(policy, 0) == 0.0;
    }
  }

  /** With exact sleeps all the backoff together stays within the elapsed-time bound. */
  lemma BackoffIsBounded(policy: RetryPolicy, w: World, made: nat)
    requires policy.Accepted() && w.Monotone() && policy.maxElapsed.Some? && Made(policy, w, made)
    requires forall n :: w.oversleep(n) == 0.0
    ensures TotalSleep(policy, made) <= policy.maxElapsed.value
  {
    SleepFitsClock(policy, w, made);
    if made >= 2 {
      NoLateStart(policy, w, made, made);
    } else {
      assert TotalSleep(policy, 0) == 0.0;
    }
  }

  /** The loop gives up early only when the next attempt would start too late. */
  lemma GivesUpOnlyLate(policy: RetryPolicy, w: World, made: nat)
    requires policy.Accepted() && Made(policy, w, made) && made < policy.attempts && w.OutcomeOf(made).Retryable?
    ensures policy.maxElapsed.Some?
    ensures StartOf(policy, w, made) + w.busy(made) + policy.DelayBefore(made + 1) > w.start + policy.maxElapsed.value
  {}

  lemma CallsOfAttempt(policy: RetryPolicy, w: World, n: nat)
    ensures var a, b, c, d := SleepOf(policy, n), RecoveryOf(w, n), OperationOf(w, n), ReportOf(policy, w, n);
            && |a| <= 1 && |b| <= 1 && |c| <= 1 && |d| <= 1
            && (a != [] ==> Place(a[0]) == 0) && (b != [] ==> Place(b[0]) == 1)
            && (c != [] ==> Place(c[0]) == 2) && (d != [] ==> Place(d[0]) == 3)
  {
    hide Power, RetryPolicy.Uncapped, RetryPolicy.DelayBefore;
  }

  /** In every attempt the sleep comes first, then the recovery, then the operation, then the report, none of them
      twice. */
  lemma CallsInOrder(policy: RetryPolicy, w: World, n: nat)
    ensures InPlaces(Attempt(policy, w, n), 4)
  {
    CallsOfAttempt(policy, w, n);
    hide SleepOf, RecoveryOf, OperationOf, ReportOf, Place, InPlaces;
    var a, b, c, d := SleepOf(policy, n), RecoveryOf(w, n), OperationOf(w, n), ReportOf(policy, w, n);
    NothingPlaced();
    NextPlace([], a, 0);
    assert [] + a == a;
    NextPlace(a, b, 1);
    NextPlace(a + b, c, 2);
    NextPlace(a + b + c, d, 3);
  }

  lemma NothingPlaced()
    ensures InPlaces([], 0)
  {}

  /** An attempt waits if there is something to wait, recovers from the second on, and operates unless that failed. */
  lemma CallsMade(policy: RetryPolicy, w: World, n: nat)
    ensures Slept(policy.DelayBefore(n)) in Attempt(policy, w, n) <==> policy.DelayBefore(n) > 0.0
    ensures Recovered(w.recovery(n)) in Attempt(policy, w, n) <==> n > 1 && w.recovers
    ensures Operated(w.operation(n)) in Attempt(policy, w, n) <==> n <= 1 || !w.recovers || w.recovery(n).Success?
  {
    hide Power, RetryPolicy.Uncapped, RetryPolicy.DelayBefore;
    var a, b, c, d := SleepOf(policy, n), RecoveryOf(w, n), OperationOf(w, n), ReportOf(policy, w, n);
    assert forall e :: e in a + b + c + d <==> e in a || e in b || e in c || e in d;
  }

  predicate InPlaces(events: seq<Event>, below: nat) {
    && (forall i | 0 <= i < |events| :: Place(events[i]) < below)
    && (forall i, j | 0 <= i < j < |events| :: Place(events[i]) < Place(events[j]))
  }

  lemma NextPlace(before: seq<Event>, next: seq<Event>, place: nat)
    requires InPlaces(before, place) && |next| <= 1 && (next != [] ==> Place(next[0]) == place)
    ensures InPlaces(before + next, place + 1)
  {
    hide Place;
  }

  function Place(e: Event): nat {
    match e
    case Slept(_) => 0
    case Recovered(_) => 1
    case Operated(_) => 2
    case Observed(_) => 3
  }
}
