/** The SCPI client and the instrument's error queue: what a drain reports, what it loses, and the log of every
    operation. */
module Clients {
  import opened Errors
  import opened WireLogs

  /** What the error parser makes of a reply. */
  datatype Reply = Entry(code: int, message: string) | Unparsable

  const NO_ERROR := Entry(0, "No error")

  datatype ErrorQueue = ErrorQueue(noErrorCodes: set<int>, maximumEntries: int) {
    predicate Accepted() {
      noErrorCodes != {} && maximumEntries > 0
    }

    predicate Stops(reply: Reply) {
      reply.Unparsable? || reply.code in noErrorCodes
    }
  }

  datatype Failure = Failed(error: Error) | QueueError(errors: seq<Reply>, complete: bool)

  datatype Outcome<+T> = Value(value: T) | Raised(failure: Failure)

  // ---- the instrument's side

  function ReplyAt(errors: seq<Reply>, i: nat): Reply {
    if i < |errors| then errors[i] else NO_ERROR
  }

  /** The queue after answering `n` error queries. */
  function Popped(errors: seq<Reply>, n: nat): seq<Reply> {
    if n < |errors| then errors[n..] else []
  }

  /** A command that reached the instrument, and its answer. */
  datatype Exchange = Exchange(text: string, answer: Reply)

  class Instrument {
    var errors: seq<Reply>
    /** Every command but error queries, in order; only `Obey` adds to it. */
    ghost var exchanges: seq<Exchange>

    constructor ()
      ensures errors == [] && exchanges == []
    {
      errors, exchanges := [], [];
    }

    method NextErrorReply() returns (reply: Reply)
      modifies this`errors
      ensures reply == ReplyAt(old(errors), 0) && errors == Popped(old(errors), 1)
    {
      if errors == [] {
        reply := NO_ERROR;
      } else {
        reply := errors[0];
        errors := errors[1..];
      }
    }

    /** Any other command: it may leave errors behind. */
    method Obey(text: string) returns (answer: Reply)
      modifies this
      ensures old(errors) <= errors
      ensures exchanges == old(exchanges) + [Exchange(text, answer)]
    {
      var left: seq<Reply> := *;
      answer := *;
      exchanges := exchanges + [Exchange(text, answer)];
      errors := errors + left;
    }
  }

  // ---- what a drain of the queue does, with `inner` consulted after every query

  datatype DrainResult = DrainResult(outcome: Outcome<seq<Reply>>, left: seq<Reply>)

  function DrainFrom(errors: seq<Reply>, q: ErrorQueue, limit: nat, collected: seq<Reply>,
                     inner: Option<ErrorQueue>): DrainResult
    decreases inner.Some?, 1, limit
  {
    if limit == 0 then DrainResult(Raised(QueueError(collected, false)), errors)
    else
      var reply := ReplyAt(errors, 0);
      var check := CheckFrom(Popped(errors, 1), inner);
      if check.outcome.Raised? then check
      else if reply.Unparsable? then DrainResult(Raised(QueueError(collected, false)), check.left)
      else if q.Stops(reply) then DrainResult(Value(collected), check.left)
      else DrainFrom(check.left, q, limit - 1, collected + [reply], inner)
  }

  /** The automatic check: its own queries are not checked again. */
  function CheckFrom(errors: seq<Reply>, inner: Option<ErrorQueue>): DrainResult
    decreases inner.Some?, 0
  {
    if inner.None? then DrainResult(Value([]), errors)
    else
      var entries := if inner.value.maximumEntries > 0 then inner.value.maximumEntries else 0;
      var drained := DrainFrom(errors, inner.value, entries, [], None);
      if drained.outcome.Value? && drained.outcome.value != []
      then drained.(outcome := Raised(QueueError(drained.outcome.value, true)))
      else drained
  }

  lemma DrainStep(errors: seq<Reply>, q: ErrorQueue, limit: nat, collected: seq<Reply>, inner: Option<ErrorQueue>)
    requires limit > 0
    ensures var reply, check := ReplyAt(errors, 0), CheckFrom(Popped(errors, 1), inner);
            DrainFrom(errors, q, limit, collected, inner)
            == if check.outcome.Raised? then check
               else if reply.Unparsable? then DrainResult(Raised(QueueError(collected, false)), check.left)
               else if q.Stops(reply) then DrainResult(Value(collected), check.left)
               else DrainFrom(check.left, q, limit - 1, collected + [reply], inner)
  {}

  lemma DrainEnd(errors: seq<Reply>, q: ErrorQueue, collected: seq<Reply>, inner: Option<ErrorQueue>)
    ensures DrainFrom(errors, q, 0, collected, inner) == DrainResult(Raised(QueueError(collected, false)), errors)
  {}

  function Prefix(errors: seq<Reply>, n: nat): (r: seq<Reply>)
    ensures |r| == n
  {
    seq(n, i requires 0 <= i < n => ReplyAt(errors, i))
  }

  /** The first position below `limit` whose reply ends a drain, or `limit`. */
  predicate EndsAt(errors: seq<Reply>, q: ErrorQueue, limit: nat, n: nat) {
    n <= limit && (forall i | 0 <= i < n :: !q.Stops(ReplyAt(errors, i))) && (n < limit ==> q.Stops(ReplyAt(errors, n)))
  }

  lemma {:induction false} DrainFromEnd(errors: seq<Reply>, q: ErrorQueue, limit: nat, collected: seq<Reply>, n: nat)
    requires EndsAt(errors, q, limit, n)
    ensures var d := DrainFrom(errors, q, limit, collected, None);
            && d.left == Popped(errors, if n < limit then n + 1 else n)
            && d.outcome == if n < limit && !ReplyAt(errors, n).Unparsable? then Value(collected + Prefix(errors, n))
                            else Raised(QueueError(collected + Prefix(errors, n), false))
    decreases limit
  {
    if n == 0 {
      assert collected + Prefix(errors, 0) == collected;
    } else {
      var rest, head := Popped(errors, 1), ReplyAt(errors, 0);
      assert forall i: nat :: ReplyAt(rest, i) == ReplyAt(errors, i + 1);
      assert !q.Stops(head);
      DrainFromEnd(rest, q, limit - 1, collected + [head], n - 1);
      assert Prefix(errors, n) == [head] + Prefix(rest, n - 1);
      assert collected + [head] + Prefix(rest, n - 1) == collected + Prefix(errors, n);
    }
  }

  /** An unchecked drain reports exactly the replies before the first that ends it, in order: it returns them when that
      reply means "no error", and raises with them, incomplete, when it is unparsable or none of the first `limit`
      ends it. It pops those replies and the one that ended it, no others. */
  lemma DrainExactly(errors: seq<Reply>, q: ErrorQueue, limit: nat, n: nat)
    requires EndsAt(errors, q, limit, n)
    ensures var d := DrainFrom(errors, q, limit, [], None);
            && d.left == Popped(errors, if n < limit then n + 1 else n)
            && d.outcome == if n < limit && !ReplyAt(errors, n).Unparsable? then Value(Prefix(errors, n))
                            else Raised(QueueError(Prefix(errors, n), false))
  {
    DrainFromEnd(errors, q, limit, [], n);
    assert [] + Prefix(errors, n) == Prefix(errors, n);
  }

  /** An ordinary queue: every entry is an error, and the empty queue answers with a code that means "no error". */
  predicate Ordinary(errors: seq<Reply>, q: ErrorQueue) {
    NO_ERROR.code in q.noErrorCodes && forall reply | reply in errors :: !q.Stops(reply)
  }

  lemma OrdinaryEnd(errors: seq<Reply>, q: ErrorQueue, limit: nat)
    requires Ordinary(errors, q)
    ensures EndsAt(errors, q, limit, if |errors| < limit then |errors| else limit)
  {}

  /** The entries a caller learns of. */
  function Reported(outcome: Outcome<seq<Reply>>): seq<Reply> {
    match outcome
    case Value(entries) => entries
    case Raised(QueueError(entries, _)) => entries
    case Raised(Failed(_)) => []
  }

  /** An ordinary queue is returned whole if and only if it holds fewer than `limit` entries; otherwise the drain raises
      with exactly the first `limit`. Either way nothing is lost. */
  lemma OrdinaryDrain(errors: seq<Reply>, q: ErrorQueue, limit: nat)
    requires Ordinary(errors, q)
    ensures var d := DrainFrom(errors, q, limit, [], None);
            && (d.outcome.Value? <==> |errors| < limit)
            && (|errors| < limit ==> d.outcome == Value(errors) && d.left == [])
            && (|errors| >= limit ==>
                d.outcome == Raised(QueueError(errors[..limit], false)) && d.left == errors[limit..])
            && Reported(d.outcome) + d.left == errors
  {
    hide DrainFrom;
    var n := if |errors| < limit then |errors| else limit;
    OrdinaryEnd(errors, q, limit);
    DrainExactly(errors, q, limit, n);
    assert Prefix(errors, n) == errors[..n];
    assert |errors| < limit ==> errors[..n] == errors;
    assert errors[..n] + errors[n..] == errors;
  }

  /** An automatic check reports an ordinary queue: nothing when it is empty, all of it when it holds fewer entries
      than the check reads, the oldest ones otherwise. No entry is lost. */
  lemma CheckConserves(errors: seq<Reply>, p: ErrorQueue)
    requires Ordinary(errors, p) && p.Accepted()
    ensures var check := CheckFrom(errors, Some(p));
            && (check.outcome.Value? <==> errors == [])
            && (check.outcome.Raised? ==> check.outcome.failure.QueueError?)
            && (check.outcome.Raised? ==> (check.outcome.failure.complete <==> |errors| < p.maximumEntries))
            && Reported(check.outcome) + check.left == errors
  {
    hide DrainFrom;
    OrdinaryDrain(errors, p, p.maximumEntries);
  }

  /** The first query of a checked drain, on two or more entries: the check raises with what follows the entry
      just popped. */
  lemma CheckedDrainDropsFirst(errors: seq<Reply>, q: ErrorQueue, limit: nat, p: ErrorQueue)
    requires Ordinary(errors, p) && p.Accepted() && limit > 0 && |errors| >= 2
    ensures var d := DrainFrom(errors, q, limit, [], Some(p));
            d.outcome.Raised? && d.outcome.failure.QueueError? && Reported(d.outcome) + d.left == errors[1..]
  {
    assert Ordinary(errors[1..], p);
    OrdinaryDrain(errors[1..], p, p.maximumEntries);
  }

  /** Draining by hand while checks after queries are on: an ordinary queue is conserved if and only if it holds
      at most one entry. With more, the check after the first query raises and the entry that query popped is lost. */
  lemma CheckedDrainConservesIff(errors: seq<Reply>, q: ErrorQueue, limit: nat, p: ErrorQueue)
    requires Ordinary(errors, q) && Ordinary(errors, p) && p.Accepted() && limit > 0
    ensures var d := DrainFrom(errors, q, limit, [], Some(p));
            Reported(d.outcome) + d.left == errors <==> |errors| <= 1
  {
    if |errors| >= 2 {
      hide DrainFrom;
      CheckedDrainDropsFirst(errors, q, limit, p);
    } else if |errors| == 1 {
      ChecksCleanly(p);
      assert Popped(errors, 1) == [] && errors == [] + [errors[0]];
      assert errors[0] in errors;
      var collected := [] + [errors[0]];
      assert collected == errors && Popped([], 1) == [];
      assert limit > 1 ==> DrainFrom([], q, limit - 1, collected, Some(p)) == DrainResult(Value(collected), []);
    } else {
      ChecksCleanly(p);
    }
  }

  lemma ChecksCleanly(p: ErrorQueue)
    requires Ordinary([], p) && p.Accepted()
    ensures CheckFrom([], Some(p)) == DrainResult(Value([]), [])
  {
    OrdinaryDrain([], p, p.maximumEntries);
  }

  /** A queue of two errors, drained by hand with the default limits and checks on: the older one disappears. */
  lemma CheckedDrainLosesOne(a: Reply, b: Reply)
    requires a.Entry? && a.code == -113 && b.Entry? && b.code == -222
    ensures DrainFrom([a, b], ErrorQueue({0}, 32), 32, [], Some(ErrorQueue({0}, 32)))
            == DrainResult(Raised(QueueError([b], true)), [])
  {
    OrdinaryDrain([b], ErrorQueue({0}, 32), 32);
  }

  // ---- the client

  /** An exception other than the error queue's own. */
  predicate Broke<T>(r: Outcome<T>) {
    r.Raised? && r.failure.Failed?
  }

  /** How many error queries reached the instrument. */
  function Asked(op: Transcript): nat {
    if op == [] then 0 else Asked(op[..|op| - 1]) + if op[|op| - 1].Sent? then 1 else 0
  }

  lemma {:induction false} AskedAppend(a: Transcript, b: Transcript)
    ensures Asked(a + b) == Asked(a) + Asked(b)
    decreases |b|
  {
    if b == [] {
      assert a + b == a;
    } else {
      var front := b[..|b| - 1];
      assert (a + b)[..|a + b| - 1] == a + front;
      AskedAppend(a, front);
    }
  }

  lemma AskedOne(e: Execution)
    ensures Asked([e]) == if e.Sent? then 1 else 0
  {
    assert [e][..0] == [];
  }

  lemma NothingAsked(errors: seq<Reply>, used: nat)
    ensures Asked([]) == 0 && Popped(errors, 0) == errors && Events([], used) == []
  {}

  lemma PoppedTwice(errors: seq<Reply>, m: nat, n: nat)
    ensures Popped(Popped(errors, m), n) == Popped(errors, m + n)
  {}

  /** What a drain may come to: the answers decide it unless one of its queries breaks, and what it asked was popped. */
  predicate DrainedAs(errors: seq<Reply>, q: ErrorQueue, limit: nat, inner: Option<ErrorQueue>,
                      r: Outcome<seq<Reply>>, left: seq<Reply>, op: Transcript)
  {
    && ErrorQueries(op) && (r.Value? ==> AllAnswered(op)) && (inner.None? ==> |op| <= limit)
    && (limit > 0 ==> op != [])
    && left == Popped(errors, Asked(op))
    && (!Broke(r) ==> DrainResult(r, left) == DrainFrom(errors, q, limit, [], inner))
  }

  /** Draining an ordinary queue keeps every entry, reported or left, if and only if there was none, or nothing had been
      asked when a query broke, or all queries were answered and either none was checked or there was one entry at
      most. */
  lemma DrainConservesIff(errors: seq<Reply>, q: ErrorQueue, limit: nat, inner: Option<ErrorQueue>,
                          r: Outcome<seq<Reply>>, left: seq<Reply>, op: Transcript)
    requires limit > 0 && Ordinary(errors, q)
    requires inner.Some? ==> inner.value.Accepted() && Ordinary(errors, inner.value)
    requires DrainedAs(errors, q, limit, inner, r, left, op)
    ensures Reported(r) + left == errors <==>
            errors == [] || (if Broke(r) then Asked(op) == 0 else inner.None? || |errors| <= 1)
  {
    hide DrainFrom, Asked;
    if Broke(r) {
      assert [] + left == left;
    } else if inner.None? {
      OrdinaryDrain(errors, q, limit);
    } else {
      CheckedDrainConservesIff(errors, q, limit, inner.value);
    }
  }

  /** A drain of one error whose first query is answered and whose second is never sent: nobody learns of the error. */
  lemma BrokenDrainLosesOne(a: Reply)
    requires a.Entry? && a.code == -113
    ensures var r, op := Raised(Failed(TransportTimeoutError)), [Sent(ErrorQuery, 1), Unsent];
            DrainedAs([a], ErrorQueue({0}, 32), 32, None, r, [], op) && Reported(r) == []
  {
    AskedOne(Sent(ErrorQuery, 1));
    AskedOne(Unsent);
    AskedAppend([Sent(ErrorQuery, 1)], [Unsent]);
    assert [Sent(ErrorQuery, 1), Unsent] == [Sent(ErrorQuery, 1)] + [Unsent];
  }

  /** The operation raised what its check raised, or nothing. */
  predicate CheckedAs<T>(r: Outcome<T>, check: DrainResult) {
    if check.outcome.Raised? then r.Raised? && r.failure == check.outcome.failure else r.Value?
  }

  /** The number of queries a drain may make; none when the bound given is refused. */
  function Limit(q: ErrorQueue, maxEntries: Option<int>): (limit: nat)
    ensures maxEntries.Some? && maxEntries.value > 0 ==> limit == maxEntries.value
    ensures maxEntries.Some? && maxEntries.value <= 0 ==> limit == 0
    ensures maxEntries.None? && q.Accepted() ==> limit == q.maximumEntries
  {
    var limit := if maxEntries.Some? then maxEntries.value else q.maximumEntries;
    if limit <= 0 then 0 else limit
  }

  class ScpiClient {
    const instrument: Instrument
    var queue: Option<ErrorQueue>
    var afterWrite: bool
    var afterQuery: bool
    var checkingErrors: bool
    /** Operation ids given out so far. */
    var used: nat
    ghost var log: seq<Event>
    /** How many trips to the instrument failed. */
    ghost var failures: nat

    constructor (instrument: Instrument)
      ensures this.instrument == instrument && queue == None && !afterWrite && !afterQuery && !checkingErrors
      ensures used == 0 && log == []
    {
      this.instrument := instrument;
      queue, afterWrite, afterQuery, checkingErrors := None, false, false, false;
      used, log, failures := 0, [], 0;
    }

    ghost predicate Valid()
      reads this
    {
      queue.Some? ==> queue.value.Accepted()
    }

    /** Nothing but the queue and the log was touched: in particular the checking flag is as before. */
    twostate predicate Settled()
      reads this
    {
      && queue == old(queue) && afterWrite == old(afterWrite) && afterQuery == old(afterQuery)
      && checkingErrors == old(checkingErrors)
    }

    /** The operation is on the log, under ids of its own. */
    twostate predicate Logged(op: Transcript)
      reads this
    {
      used == old(used) + |op| && log == old(log) + Events(op, old(used))
    }

    /** The queue that is consulted after an operation, if any. */
    function Active(wanted: bool): Option<ErrorQueue>
      reads this
    {
      if checkingErrors || !wanted then None else queue
    }

    /** The choke point: a fresh id, one write, and the reads of the reply; any of them may fail, and so may
        decoding. */
    method Execute(command: Command, least: nat, most: nat) returns (r: Outcome<Reply>, ghost op: Transcript)
      requires least <= most
      modifies this`used, this`log, this`failures, instrument
      ensures Logged(op)
      ensures |op| == 1 && (op[0].Sent? ==> op[0].command == command && op[0].replies <= most)
      ensures r.Value? ==> op[0].Sent? && op[0].replies >= least
      ensures r.Raised? ==> r.failure.Failed?
      ensures failures == old(failures) + if r.Raised? then 1 else 0
      ensures command.ErrorQuery? ==> instrument.errors == Popped(old(instrument.errors), Asked(op))
      ensures command.ErrorQuery? && r.Value? ==> r.value == ReplyAt(old(instrument.errors), 0)
      ensures command.ErrorQuery? ==> instrument.exchanges == old(instrument.exchanges)
      ensures command.Other? ==> old(instrument.errors) <= instrument.errors
      ensures command.Other? && op[0].Unsent? ==> instrument.exchanges == old(instrument.exchanges)
      ensures command.Other? && op[0].Sent? ==>
                exists answer :: instrument.exchanges == old(instrument.exchanges) + [Exchange(command.text, answer)]
                                 && (r.Value? ==> r.value == answer)
    {
      used := used + 1;
      var fails: bool := *;
      if fails {
        failures := failures + 1;
        op := [Unsent];
        EventsOfOne(Unsent, old(used));
        AskedOne(Unsent);
        assert log == log + [];
        return Raised(Failed(TransportError)), op;
      }
      fails := *;
      ghost var got: nat;
      if fails {
        got :| got <= most;
      } else {
        got :| least <= got <= most;
      }
      op := [Sent(command, got)];
      EventsOfOne(op[0], old(used));
      AskedOne(op[0]);
      log := log + Events(op, used - 1);
      var answer: Reply;
      match command {
        case ErrorQuery => answer := instrument.NextErrorReply();
        case Other(text) => answer := instrument.Obey(text);
      }
      if fails {
        failures := failures + 1;
        return Raised(Failed(TransportTimeoutError)), op;
      }
      r := Value(answer);
    }

    /** One query of the error queue; its reply is checked like any other unless a check is already under way. */
    method QueryErrors() returns (r: Outcome<Reply>, ghost op: Transcript)
      requires Valid()
      modifies this, instrument
      ensures Valid() && Settled() && Logged(op)
      ensures failures == old(failures) + if Broke(r) then 1 else 0
      ensures instrument.exchanges == old(instrument.exchanges)
      ensures Whole(op, ErrorQuery, 1, 1)
      ensures old(Active(afterQuery)).None? ==> |op| == 1
      ensures r.Value? ==> AllAnswered(op)
      ensures instrument.errors == Popped(old(instrument.errors), Asked(op))
      ensures !Broke(r) ==> (
                var check := CheckFrom(Popped(old(instrument.errors), 1), old(Active(afterQuery)));
                && instrument.errors == check.left
                && r == (if check.outcome.Raised? then Raised(check.outcome.failure)
                         else Value(ReplyAt(old(instrument.errors), 0))))
      decreases if checkingErrors then 0 else 1, 1
    {
      hide Events, Asked, Popped, DrainFrom, CheckFrom, ReplyAt;
      r, op := Execute(ErrorQuery, 1, 1);
      if r.Value? {
        AskedOne(op[0]);
        assert op == [op[0]] && Asked(op) == 1;
        var check, checks := CheckErrors(true);
        EventsAppend(op, checks, old(used));
        AskedAppend(op, checks);
        PoppedTwice(old(instrument.errors), Asked(op), Asked(checks));
        op := op + checks;
        if check.Raised? {
          r := Raised(check.failure);
        }
      }
    }

    method CheckErrors(wasQuery: bool) returns (r: Outcome<()>, ghost op: Transcript)
      requires Valid()
      modifies this, instrument
      ensures Valid() && Settled() && Logged(op) && ErrorQueries(op)
      ensures failures == old(failures) + if Broke(r) then 1 else 0
      // it asks the instrument exactly when it is wanted and not under way already
      ensures op == [] <==> queue.None? || old(checkingErrors) || !(if wasQuery then afterQuery else afterWrite)
      ensures queue.Some? ==> |op| <= queue.value.maximumEntries
      ensures r.Value? ==> AllAnswered(op)
      ensures instrument.errors == Popped(old(instrument.errors), Asked(op))
      ensures !Broke(r) ==> (
                var check := CheckFrom(old(instrument.errors),
                    old(Active(if wasQuery then afterQuery else afterWrite)));
                && instrument.errors == check.left
                && r == (if check.outcome.Raised? then Raised(check.outcome.failure) else Value(())))
      ensures instrument.exchanges == old(instrument.exchanges)
      decreases if checkingErrors then 0 else 1, 0
    {
      var wanted := if wasQuery then afterQuery else afterWrite;
      if queue.None? || checkingErrors || !wanted {
        op := [];
        assert log == log + [];
        return Value(()), op;
      }
      checkingErrors := true;
      r, op := RaiseIfErrors(queue.value, None);
      checkingErrors := false;
    }

    method RaiseIfErrors(q: ErrorQueue, maxEntries: Option<int>) returns (r: Outcome<()>, ghost op: Transcript)
      requires Valid() && q.Accepted()
      modifies this, instrument
      ensures Valid() && Settled() && Logged(op) && ErrorQueries(op)
      ensures Limit(q, maxEntries) > 0 ==> op != []
      ensures r.Value? ==> AllAnswered(op)
      ensures old(Active(afterQuery)).None? ==> |op| <= Limit(q, maxEntries)
      ensures instrument.errors == Popped(old(instrument.errors), Asked(op))
      ensures Limit(q, maxEntries) > 0 ==> failures == old(failures) + if Broke(r) then 1 else 0
      ensures !Broke(r) ==> (
                var drained := DrainFrom(old(instrument.errors), q, Limit(q, maxEntries), [], old(Active(afterQuery)));
                && instrument.errors == drained.left
                && r == (if drained.outcome.Raised? then Raised(drained.outcome.failure)
                         else if drained.outcome.value == [] then Value(())
                         else Raised(QueueError(drained.outcome.value, true))))
      ensures instrument.exchanges == old(instrument.exchanges)
      decreases if checkingErrors then 0 else 1, 4
    {
      var drained;
      drained, op := Drain(q, maxEntries);
      if drained.Raised? {
        return Raised(drained.failure), op;
      }
      r := if drained.value != [] then Raised(QueueError(drained.value, true)) else Value(());
    }

    method Drain(q: ErrorQueue, maxEntries: Option<int>) returns (r: Outcome<seq<Reply>>, ghost op: Transcript)
      requires Valid() && q.Accepted()
      modifies this, instrument
      ensures Valid() && Settled() && Logged(op)
      ensures Limit(q, maxEntries) == 0 ==> r == Raised(Failed(ConfigurationError)) && op == []
      ensures Limit(q, maxEntries) > 0 ==> failures == old(failures) + if Broke(r) then 1 else 0
      ensures DrainedAs(old(instrument.errors), q, Limit(q, maxEntries), old(Active(afterQuery)), r,
          instrument.errors, op)
      // no entry is lost, exactly when
      ensures Limit(q, maxEntries) > 0 && Ordinary(old(instrument.errors), q)
              && (old(Active(afterQuery)).Some? ==> Ordinary(old(instrument.errors), old(Active(afterQuery)).value)) ==>
                (Reported(r) + instrument.errors == old(instrument.errors) <==>
                 || old(instrument.errors) == []
                 || if Broke(r) then Asked(op) == 0 else old(Active(afterQuery)).None? || |old(instrument.errors)| <= 1)
      ensures instrument.exchanges == old(instrument.exchanges)
      decreases if checkingErrors then 0 else 1, 3
    {
      r, op := DrainQueries(q, maxEntries);
      if Limit(q, maxEntries) > 0 && Ordinary(old(instrument.errors), q)
         && (old(Active(afterQuery)).Some? ==> Ordinary(old(instrument.errors), old(Active(afterQuery)).value)) {
        DrainConservesIff(old(instrument.errors), q, Limit(q, maxEntries), old(Active(afterQuery)), r,
            instrument.errors, op);
      }
    }

    /** The loop of the drain. */
    method DrainQueries(q: ErrorQueue, maxEntries: Option<int>) returns (r: Outcome<seq<Reply>>, ghost op: Transcript)
      requires Valid() && q.Accepted()
      modifies this, instrument
      ensures Valid() && Settled() && Logged(op)
      ensures Limit(q, maxEntries) == 0 ==> r == Raised(Failed(ConfigurationError)) && op == []
      ensures Limit(q, maxEntries) > 0 ==> failures == old(failures) + if Broke(r) then 1 else 0
      ensures DrainedAs(old(instrument.errors), q, Limit(q, maxEntries), old(Active(afterQuery)), r,
          instrument.errors, op)
      ensures instrument.exchanges == old(instrument.exchanges)
      decreases if checkingErrors then 0 else 1, 2
    {
      hide Events, Asked, Popped, DrainFrom, CheckFrom, ReplyAt;
      var limit := if maxEntries.Some? then maxEntries.value else q.maximumEntries;
      ghost var inner := Active(afterQuery);
      op := [];
      NothingAsked(instrument.errors, used);
      assert log == log + [];
      if limit <= 0 {
        return Raised(Failed(ConfigurationError)), op;
      }
      var collected: seq<Reply> := [];
      for i := 0 to limit
        invariant Valid() && Settled() && Logged(op) && failures == old(failures)
        invariant instrument.exchanges == old(instrument.exchanges)
        invariant AllAnswered(op) && (i > 0 ==> op != [])
        invariant old(Active(afterQuery)).None? ==> |op| == i
        invariant instrument.errors == Popped(old(instrument.errors), Asked(op))
        invariant DrainFrom(old(instrument.errors), q, limit, [], inner)
                  == DrainFrom(instrument.errors, q, limit - i, collected, inner)
      {
        DrainStep(instrument.errors, q, limit - i, collected, inner);
        var reply, query := QueryErrors();
        EventsAppend(op, query, old(used));
        AskedAppend(op, query);
        PoppedTwice(old(instrument.errors), Asked(op), Asked(query));
        op := op + query;
        if reply.Raised? {
          return Raised(reply.failure), op;
        }
        if reply.value.Unparsable? {
          return Raised(QueueError(collected, false)), op;
        }
        if q.Stops(reply.value) {
          return Value(collected), op;
        }
        collected := collected + [reply.value];
      }
      DrainEnd(instrument.errors, q, collected, inner);
      r := Raised(QueueError(collected, false));
    }

    /** Sends one command, and a binary block the same way; the check after it, when on, happens under the same
        hold of the lock. */
    method Write(text: string) returns (r: Outcome<()>, ghost op: Transcript, ghost mid: seq<Reply>)
      requires Valid()
      modifies this, instrument
      ensures Valid() && Settled() && Logged(op)
      ensures Whole(op, Other(text), 0, 0) && (r.Value? ==> AllAnswered(op[1..]))
      ensures queue.None? || checkingErrors || !afterWrite ==> |op| == 1
      ensures queue.Some? && !checkingErrors && afterWrite && r.Value? ==> |op| > 1
      ensures old(instrument.errors) <= mid && instrument.errors == Popped(mid, Asked(op[1..]))
      ensures failures == old(failures) + if Broke(r) then 1 else 0
      ensures r.Value? ==> exists answer ::
                instrument.exchanges == old(instrument.exchanges) + [Exchange(text, answer)]
      ensures instrument.exchanges == old(instrument.exchanges)
              || exists answer :: instrument.exchanges == old(instrument.exchanges) + [Exchange(text, answer)]
      ensures !Broke(r) ==> (
                var check := CheckFrom(mid, old(Active(afterWrite)));
                instrument.errors == check.left && CheckedAs(r, check))
    {
      hide Events, Asked, Popped, DrainFrom, CheckFrom, ReplyAt;
      var answer;
      answer, op := Execute(Other(text), 0, 0);
      mid := instrument.errors;
      NothingAsked(mid, used);
      if answer.Raised? {
        assert op[1..] == [];
        return Raised(answer.failure), op, mid;
      }
      var check, checks := CheckErrors(false);
      EventsAppend(op, checks, old(used));
      op := op + checks;
      assert op[1..] == checks;
      r := if check.Raised? then Raised(check.failure) else Value(());
    }

    /** One attempt of a text query. */
    method Query(text: string) returns (r: Outcome<Reply>, ghost op: Transcript, ghost mid: seq<Reply>)
      requires Valid()
      modifies this, instrument
      ensures Valid() && Settled() && Logged(op)
      ensures Whole(op, Other(text), 1, 1) && (r.Value? ==> AllAnswered(op[1..]))
      ensures queue.None? || checkingErrors || !afterQuery ==> |op| == 1
      ensures queue.Some? && !checkingErrors && afterQuery && r.Value? ==> |op| > 1
      ensures old(instrument.errors) <= mid && instrument.errors == Popped(mid, Asked(op[1..]))
      ensures failures == old(failures) + if Broke(r) then 1 else 0
      // the value is the instrument's answer to this very command, which it saw once
      ensures r.Value? ==> instrument.exchanges == old(instrument.exchanges) + [Exchange(text, r.value)]
      ensures instrument.exchanges == old(instrument.exchanges)
              || exists answer :: instrument.exchanges == old(instrument.exchanges) + [Exchange(text, answer)]
      ensures !Broke(r) ==> (
                var check := CheckFrom(mid, old(Active(afterQuery)));
                instrument.errors == check.left && CheckedAs(r, check))
    {
      hide Events, Asked, Popped, DrainFrom, CheckFrom, ReplyAt;
      var answer;
      answer, op := Execute(Other(text), 1, 1);
      mid := instrument.errors;
      NothingAsked(mid, used);
      if answer.Raised? {
        assert op[1..] == [];
        return Raised(answer.failure), op, mid;
      }
      var check, checks := CheckErrors(true);
      EventsAppend(op, checks, old(used));
      op := op + checks;
      assert op[1..] == checks;
      r := if check.Raised? then Raised(check.failure) else Value(answer.value);
    }

    /** A block query: one write and up to four reads under one operation id. */
    method QueryBinaryBlock(text: string) returns (r: Outcome<Reply>, ghost op: Transcript, ghost mid: seq<Reply>)
      requires Valid()
      modifies this, instrument
      ensures Valid() && Settled() && Logged(op)
      ensures Whole(op, Other(text), 2, 4) && (r.Value? ==> AllAnswered(op[1..]))
      ensures queue.None? || checkingErrors || !afterQuery ==> |op| == 1
      ensures queue.Some? && !checkingErrors && afterQuery && r.Value? ==> |op| > 1
      ensures old(instrument.errors) <= mid && instrument.errors == Popped(mid, Asked(op[1..]))
      ensures failures == old(failures) + if Broke(r) then 1 else 0
      // the value is the instrument's answer to this very command, which it saw once
      ensures r.Value? ==> instrument.exchanges == old(instrument.exchanges) + [Exchange(text, r.value)]
      ensures instrument.exchanges == old(instrument.exchanges)
              || exists answer :: instrument.exchanges == old(instrument.exchanges) + [Exchange(text, answer)]
      ensures !Broke(r) ==> (
                var check := CheckFrom(mid, old(Active(afterQuery)));
                instrument.errors == check.left && CheckedAs(r, check))
    {
      hide Events, Asked, Popped, DrainFrom, CheckFrom, ReplyAt;
      var answer;
      answer, op := Execute(Other(text), 2, 4);
      mid := instrument.errors;
      NothingAsked(mid, used);
      if answer.Raised? {
        assert op[1..] == [];
        return Raised(answer.failure), op, mid;
      }
      var check, checks := CheckErrors(true);
      EventsAppend(op, checks, old(used));
      op := op + checks;
      assert op[1..] == checks;
      r := if check.Raised? then Raised(check.failure) else Value(answer.value);
    }
  }
}
