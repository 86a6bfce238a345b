/** The session: one connection's life, its generation and its cached identity, and when a closed session stays
    closed. */
module Sessions {
  import opened Errors
  import opened Transports

  type Identity = string
  type Validator = Identity -> bool

  // ---- the transport state over session operations

  /** How a reopening goes on after the transport connected: the probe and the validation pass or not. */
  datatype Reopening = Unreachable | Rejected | Accepted

  datatype Op =
    | OpenSession(how: Reopening)
    | Recover(how: Reopening)
    | CloseSession
    | Transfer(x: Exchange)
    | Query(x: Exchange)
    | Invalidate
    | SimulateDisconnect

  /** The transport state after reopening it: a failed probe or validation closes it again. */
  function AfterReopen(s: State, how: Reopening): State {
    match how
    case Unreachable => AfterOpen(s, false)
    case Rejected => AfterClose(AfterOpen(s, true))
    case Accepted => AfterOpen(s, true)
  }

  function Step(backend: Backend, s: State, op: Op): State {
    match op
    case OpenSession(how) => AfterReopen(s, how)
    case Recover(how) => if s == FAULTED then AfterReopen(s, how) else s
    case CloseSession => AfterClose(s)
    case Transfer(x) => AfterIo(s, x)
    case Query(x) => AfterTransact(backend, s, x)
    case Invalidate => AfterInvalidate(s)
    case SimulateDisconnect => if backend == Mock then FAULTED else s
  }

  function Run(backend: Backend, s: State, ops: seq<Op>): State {
    if ops == [] then s else Step(backend, Run(backend, s, ops[..|ops| - 1]), ops[|ops| - 1])
  }

  /** No explicit `open`. */
  predicate Unopened(ops: seq<Op>) {
    forall op | op in ops :: !op.OpenSession?
  }

  /** The operations that move a closed transport: a disconnect simulated on it, or a query on TCP. */
  predicate Disturbs(backend: Backend, op: Op) {
    if backend == Mock then op.SimulateDisconnect? else op.Query?
  }

  lemma RunStep(backend: Backend, s: State, ops: seq<Op>, i: nat)
    requires i < |ops|
    ensures Run(backend, s, ops[..i + 1]) == Step(backend, Run(backend, s, ops[..i]), ops[i])
  {
    assert ops[..i + 1][..i] == ops[..i];
  }

  lemma {:induction false} UndisturbedStaysClosed(backend: Backend, ops: seq<Op>)
    requires Unopened(ops) && forall op | op in ops :: !Disturbs(backend, op)
    ensures Run(backend, CLOSED, ops) == CLOSED
  {
    if ops != [] {
      var front, last := ops[..|ops| - 1], ops[|ops| - 1];
      assert last in ops && forall op | op in front :: op in ops;
      UndisturbedStaysClosed(backend, front);
    }
  }

  /** A closed session is still closed after every prefix of a run without `open`
      exactly when the run holds no disturbing operation. */
  lemma StaysClosedIff(backend: Backend, ops: seq<Op>)
    requires Unopened(ops)
    ensures (forall n | 0 <= n <= |ops| :: Run(backend, CLOSED, ops[..n]) == CLOSED)
            <==> (forall op | op in ops :: !Disturbs(backend, op))
  {
    hide Run;
    if forall n | 0 <= n <= |ops| :: Run(backend, CLOSED, ops[..n]) == CLOSED {
      forall op | op in ops
        ensures !Disturbs(backend, op)
      {
        var i :| 0 <= i < |ops| && ops[i] == op;
        RunStep(backend, CLOSED, ops, i);
        assert Run(backend, CLOSED, ops[..i]) == CLOSED && Run(backend, CLOSED, ops[..i + 1]) == CLOSED;
      }
    }
    if forall op | op in ops :: !Disturbs(backend, op) {
      forall n | 0 <= n <= |ops|
        ensures Run(backend, CLOSED, ops[..n]) == CLOSED
      {
        assert forall op | op in ops[..n] :: op in ops;
        UndisturbedStaysClosed(backend, ops[..n]);
      }
    }
  }

  /** The operations after which a faulted transport rests CLOSED. */
  predicate Settles(op: Op) {
    op.CloseSession? || (op.Recover? && op.how.Rejected?)
  }

  /** Since position `from` nothing has settled the transport. */
  predicate Unsettled(ops: seq<Op>, from: nat) {
    forall k | from <= k < |ops| :: !Settles(ops[k])
  }

  /** Some disturbing operation has not been settled since. */
  predicate Pending(backend: Backend, ops: seq<Op>) {
    exists i :: 0 <= i < |ops| && Disturbs(backend, ops[i]) && Unsettled(ops, i + 1)
  }

  /** The first position at which the run is open again: an accepted recovery while a disturbance is pending. */
  predicate Reopens(backend: Backend, ops: seq<Op>) {
    exists j :: 0 <= j < |ops| && ops[j] == Recover(Accepted) && Pending(backend, ops[..j])
  }

  lemma ReopensGrows(backend: Backend, ops: seq<Op>, n: nat)
    requires n <= |ops| && Reopens(backend, ops[..n])
    ensures Reopens(backend, ops)
  {
    hide Pending;
    var j :| 0 <= j < n && ops[..n][j] == Recover(Accepted) && Pending(backend, ops[..n][..j]);
    assert ops[..n][..j] == ops[..j];
    assert ops[j] == Recover(Accepted) && Pending(backend, ops[..j]);
  }

  lemma ReopensNow(backend: Backend, ops: seq<Op>, j: nat)
    requires j < |ops| && ops[j] == Recover(Accepted) && Pending(backend, ops[..j])
    ensures Reopens(backend, ops)
  {}

  /** While a run without `open` has not reopened, it is CLOSED or FAULTED, and FAULTED exactly when disturbed. */
  lemma {:induction false} ClosedOrPending(backend: Backend, ops: seq<Op>)
    requires Unopened(ops) && !Reopens(backend, ops)
    ensures Run(backend, CLOSED, ops) == if Pending(backend, ops) then FAULTED else CLOSED
  {
    hide Reopens, Pending;
    if ops == [] {
      NothingPending(backend);
    } else {
      var front, last := ops[..|ops| - 1], ops[|ops| - 1];
      assert last in ops && forall op | op in front :: op in ops;
      if Reopens(backend, front) { ReopensGrows(backend, ops, |front|); }
      ClosedOrPending(backend, front);
      PendingStep(backend, ops);
      if last == Recover(Accepted) && Pending(backend, front) { ReopensNow(backend, ops, |front|); }
    }
  }

  lemma NothingPending(backend: Backend)
    ensures !Pending(backend, [])
  {}

  lemma PendingStep(backend: Backend, ops: seq<Op>)
    requires ops != []
    ensures var front, last := ops[..|ops| - 1], ops[|ops| - 1];
            Pending(backend, ops) <==> Disturbs(backend, last) || (Pending(backend, front) && !Settles(last))
  {
    var front, last := ops[..|ops| - 1], ops[|ops| - 1];
    if Pending(backend, ops) {
      var i :| 0 <= i < |ops| && Disturbs(backend, ops[i]) && Unsettled(ops, i + 1);
      if i < |front| {
        assert Disturbs(backend, front[i]) && Unsettled(front, i + 1);
        assert !Settles(ops[|front|]);
      }
    }
    if Disturbs(backend, last) {
      assert Disturbs(backend, ops[|front|]) && Unsettled(ops, |front| + 1);
    }
    if Pending(backend, front) && !Settles(last) {
      var i :| 0 <= i < |front| && Disturbs(backend, front[i]) && Unsettled(front, i + 1);
      assert Disturbs(backend, ops[i]);
      assert forall k | i + 1 <= k < |ops| :: k < |front| ==> ops[k] == front[k];
      assert Unsettled(ops, i + 1);
    }
  }

  /** A run without `open` brings a closed session back to OPEN exactly when a recovery is accepted
      while a disturbance of the closed transport has not been settled. */
  lemma ReopensIff(backend: Backend, ops: seq<Op>)
    requires Unopened(ops)
    ensures (exists n :: 0 <= n <= |ops| && Run(backend, CLOSED, ops[..n]) == OPEN) <==> Reopens(backend, ops)
  {
    if Reopens(backend, ops) {
      var j := FirstReopening(backend, ops);
      assert forall op | op in ops[..j] :: op in ops;
      ClosedOrPending(backend, ops[..j]);
      RunStep(backend, CLOSED, ops, j);
      assert Run(backend, CLOSED, ops[..j + 1]) == OPEN;
    }
    if exists n :: 0 <= n <= |ops| && Run(backend, CLOSED, ops[..n]) == OPEN {
      hide Reopens, Pending, Run;
      var n :| 0 <= n <= |ops| && Run(backend, CLOSED, ops[..n]) == OPEN;
      assert forall op | op in ops[..n] :: op in ops;
      if !Reopens(backend, ops[..n]) { ClosedOrPending(backend, ops[..n]); }
      ReopensGrows(backend, ops, n);
    }
  }

  lemma FirstReopening(backend: Backend, ops: seq<Op>) returns (j: nat)
    requires Reopens(backend, ops)
    ensures j < |ops| && ops[j] == Recover(Accepted) && Pending(backend, ops[..j]) && !Reopens(backend, ops[..j])
    decreases |ops|
  {
    var k :| 0 <= k < |ops| && ops[k] == Recover(Accepted) && Pending(backend, ops[..k]);
    if Reopens(backend, ops[..k]) {
      j := FirstReopening(backend, ops[..k]);
      assert ops[..k][..j] == ops[..j];
    } else {
      j := k;
    }
  }

  /** A retried query on a closed session: the failed attempt, then the recovery that retrying runs.
      The mock stays closed; TCP is opened again although nobody called `open`. */
  lemma RetriedQueryReopensTcp()
    ensures var ops := [Query(Failure(true)), Recover(Accepted)];
            Run(Mock, CLOSED, ops) == CLOSED && Run(Tcp, CLOSED, ops) == OPEN
  {
    var ops := [Query(Failure(true)), Recover(Accepted)];
    assert ops[..1] == [ops[0]] && ops[..1][..0] == [];
  }

  // ---- what a session did, and what that makes of it

  datatype Config = Config(probe: bool, validator: Option<Validator>)

  datatype Event =
    | Connected
    | Probed
    | Identified(identity: Identity)
    | Validated(validator: Validator, identity: Identity)
    | Adopted(config: Config)
    | Disconnected

  /** How often the transport's `open` returned to the session. */
  ghost function Connections(events: seq<Event>): nat {
    if events == [] then 0
    else Connections(events[..|events| - 1]) + if events[|events| - 1].Connected? then 1 else 0
  }

  /** The identity read last, unless the connection was renewed or ended after it. */
  ghost function CurrentIdentity(events: seq<Event>): Option<Identity> {
    if events == [] then None
    else
      match events[|events| - 1]
      case Connected => None
      case Disconnected => None
      case Identified(identity) => Some(identity)
      case _ => CurrentIdentity(events[..|events| - 1])
  }

  /** What the last successful explicit `open` asked for. */
  ghost function CurrentConfig(events: seq<Event>): Config {
    if events == [] then Config(false, None)
    else
      match events[|events| - 1]
      case Adopted(config) => config
      case _ => CurrentConfig(events[..|events| - 1])
  }

  /** A cached identity was read in the current connection: no renewal or end lies behind it. */
  lemma {:induction false} CachedIdentityIsCurrent(events: seq<Event>)
    requires CurrentIdentity(events).Some?
    ensures exists i :: 0 <= i < |events| && events[i] == Identified(CurrentIdentity(events).value)
                        && forall k | i < k < |events| :: !events[k].Connected? && !events[k].Disconnected?
  {
    var last := events[|events| - 1];
    if !last.Identified? {
      var front := events[..|events| - 1];
      CachedIdentityIsCurrent(front);
      var i :| 0 <= i < |front| && front[i] == Identified(CurrentIdentity(front).value)
               && forall k | i < k < |front| :: !front[k].Connected? && !front[k].Disconnected?;
      assert events[i] == front[i];
      assert forall k | i < k < |events| :: k < |front| ==> events[k] == front[k];
    } else {
      assert events[|events| - 1] == Identified(CurrentIdentity(events).value);
    }
  }

  /** The events of probing and validating under a configuration, when everything passes. */
  ghost function Checks(config: Config, identity: Identity): seq<Event> {
    (if config.probe then [Probed] else [])
    + (if config.validator.Some? then [Identified(identity), Validated(config.validator.value, identity)] else [])
  }

  /** What asking the instrument for its identity comes to. */
  datatype Identifying = Answers(identity: Identity) | Unparsable | Fails(faults: bool)

  function ExchangeOf(how: Identifying): Exchange {
    if how.Fails? then Failure(how.faults) else Success
  }

  predicate Identifies(validator: Validator, identifying: Identifying) {
    identifying.Answers? && validator(identifying.identity)
  }

  /** The probe and the validation that a configuration asks for succeed. */
  predicate Passes(config: Config, probing: Exchange, identifying: Identifying) {
    && (config.probe ==> probing.Success?)
    && (config.validator.Some? ==> Identifies(config.validator.value, identifying))
  }

  /** How reopening a transport in state `s` goes on. */
  function Course(s: State, connects: bool, config: Config, probing: Exchange, identifying: Identifying): Reopening {
    if !connects && s != OPEN then Unreachable else if Passes(config, probing, identifying) then Accepted else Rejected
  }

  class ScpiSession {
    const backend: Backend
    var state: State
    var generation: nat
    var identity: Option<Identity>
    var probeOnRecover: bool
    var validator: Option<Validator>
    ghost var events: seq<Event>

    ghost predicate Valid()
      reads this
    {
      && generation == Connections(events)
      && identity == CurrentIdentity(events)
      && Config(probeOnRecover, validator) == CurrentConfig(events)
      && state != OPENING && state != CLOSING
    }

    constructor (backend: Backend)
      ensures Valid() && state == CREATED && generation == 0 && identity == None && this.backend == backend
    {
      this.backend := backend;
      state, generation, identity := CREATED, 0, None;
      probeOnRecover, validator, events := false, None, [];
    }

    ghost method Log(event: Event)
      modifies this`events
      ensures events == old(events) + [event]
      ensures Connections(events) == Connections(old(events)) + if event.Connected? then 1 else 0
      ensures CurrentIdentity(events) ==
              if event.Connected? || event.Disconnected? then None
              else if event.Identified? then Some(event.identity) else CurrentIdentity(old(events))
      ensures CurrentConfig(events) == if event.Adopted? then event.config else CurrentConfig(old(events))
    {
      assert (events + [event])[..|events|] == events;
      events := events + [event];
    }

    /** The transport's `open`, and what the session forgets with it. */
    method ReopenTransport(connects: bool) returns (ok: bool)
      requires Valid()
      modifies this
      ensures Valid() && state == AfterOpen(old(state), connects)
      ensures ok <==> state == OPEN
      ensures generation == old(generation) + if ok then 1 else 0
      ensures events == old(events) + if ok then [Connected] else []
      ensures probeOnRecover == old(probeOnRecover) && validator == old(validator)
    {
      hide CurrentConfig, CurrentIdentity, Connections;
      state := AfterOpen(state, connects);
      ok := state == OPEN;
      if ok {
        generation := generation + 1;
        identity := None;
        Log(Connected);
      }
    }

    method Probe(x: Exchange) returns (ok: bool)
      requires Valid()
      modifies this`state, this`events
      ensures Valid() && state == Step(backend, old(state), Query(x))
      ensures ok <==> old(state) == OPEN && x.Success?
      ensures events == old(events) + if ok then [Probed] else []
      ensures CurrentConfig(events) == CurrentConfig(old(events)) && Connections(events) == Connections(old(events))
    {
      hide CurrentConfig, CurrentIdentity, Connections;
      ok := state == OPEN && x.Success?;
      state := AfterTransact(backend, state, x);
      if ok { Log(Probed); }
    }

    method Identify(how: Identifying) returns (r: Result<Identity>)
      requires Valid()
      modifies this`state, this`identity, this`events
      ensures Valid() && state == Step(backend, old(state), Query(ExchangeOf(how)))
      ensures r.Ok? <==> old(state) == OPEN && how.Answers?
      ensures r.Ok? ==> how == Answers(r.value) && identity == Some(r.value)
      ensures r.Err? ==> identity == old(identity)
      ensures events == old(events) + if r.Ok? then [Identified(r.value)] else []
      ensures CurrentConfig(events) == CurrentConfig(old(events)) && Connections(events) == Connections(old(events))
    {
      hide CurrentConfig, CurrentIdentity, Connections;
      var wasOpen := state == OPEN;
      state := AfterTransact(backend, state, ExchangeOf(how));
      if !wasOpen { return Err(NotConnectedError); }
      match how
      case Answers(answer) =>
        identity := Some(answer);
        Log(Identified(answer));
        r := Ok(answer);
      case Unparsable =>
        r := Err(IdentityError);
      case Fails(_) =>
        r := Err(TransportError);
    }

    /** The common tail of `open` and recovery, inside their guard. The validator does not touch the transport. */
    method Check(config: Config, probing: Exchange, identifying: Identifying) returns (ok: bool)
      requires Valid() && state == OPEN
      modifies this`state, this`identity, this`events
      ensures Valid() && (if ok then state == OPEN else state == OPEN || state == FAULTED)
      ensures ok <==> Passes(config, probing, identifying)
      ensures ok && config.validator.Some? ==> identity == Some(identifying.identity)
      ensures ok ==> events == old(events) + Checks(config, if identity.Some? then identity.value else "")
      ensures CurrentConfig(events) == CurrentConfig(old(events)) && Connections(events) == Connections(old(events))
    {
      hide CurrentConfig, CurrentIdentity, Connections;
      if config.probe {
        ok := Probe(probing);
        if !ok { return; }
      }
      ghost var probed := if config.probe then [Probed] else [];
      assert events == old(events) + probed;
      if config.validator.Some? {
        ok := CheckIdentity(config.validator.value, identifying);
        if !ok { return; }
        Regroup(old(events), probed, [Identified(identity.value), Validated(config.validator.value, identity.value)]);
      } else {
        Regroup(old(events), probed, []);
        ok := true;
      }
    }

    static lemma Regroup(a: seq<Event>, b: seq<Event>, c: seq<Event>)
      ensures a + (b + c) == (a + b) + c && a + [] == a
    {}

    method CheckIdentity(validator: Validator, identifying: Identifying) returns (ok: bool)
      requires Valid() && state == OPEN
      modifies this`state, this`identity, this`events
      ensures Valid() && (if ok then state == OPEN else state == OPEN || state == FAULTED)
      ensures ok <==> Identifies(validator, identifying)
      ensures ok ==> identity == Some(identifying.identity)
                     && events == old(events) + [Identified(identity.value), Validated(validator, identity.value)]
      ensures CurrentConfig(events) == CurrentConfig(old(events)) && Connections(events) == Connections(old(events))
    {
      hide CurrentConfig, CurrentIdentity, Connections;
      var found := Identify(identifying);
      if found.Err? { return false; }
      Log(Validated(validator, found.value));
      ok := validator(found.value);
    }

    /** Leaving the guard of `open` or recovery with an exception. */
    method Abandon()
      requires Valid()
      modifies this`state, this`identity, this`events
      ensures Valid() && state == AfterClose(old(state)) && identity == None
      ensures CurrentConfig(events) == CurrentConfig(old(events)) && Connections(events) == Connections(old(events))
    {
      hide CurrentConfig, CurrentIdentity, Connections;
      state := AfterClose(state);
      identity := None;
      Log(Disconnected);
    }

    method Open(connects: bool, probe: bool, validate: Option<Validator>, probing: Exchange, identifying: Identifying)
      returns (ok: bool, ghost how: Reopening)
      requires Valid()
      modifies this
      ensures Valid() && state == Step(backend, old(state), OpenSession(how))
      ensures how == Course(old(state), connects, Config(probe, validate), probing, identifying)
      ensures ok <==> how.Accepted?
      ensures ok <==>
              && (connects || old(state) == OPEN) && (probe ==> probing.Success?)
              && (validate.Some? ==> identifying.Answers? && validate.value(identifying.identity))
      ensures ok && probe ==> old(events) + [Connected, Probed] <= events
      ensures ok ==> events == old(events) + [Connected]
                               + Checks(Config(probe, validate), if identity.Some? then identity.value else "")
                               + [Adopted(Config(probe, validate))]
      // one more generation for every transport open that returned, even on a session already open
      ensures generation == old(generation) + if how.Unreachable? then 0 else 1
      // a failed probe or validation leaves nothing behind
      ensures how.Rejected? ==> state == CLOSED && identity == None
      ensures ok ==> probeOnRecover == probe && validator == validate
      ensures !ok ==> probeOnRecover == old(probeOnRecover) && validator == old(validator)
      ensures ok && validate.Some? ==> identity == Some(identifying.identity)
    {
      hide CurrentConfig, CurrentIdentity, Connections;
      how := Unreachable;
      ok := ReopenTransport(connects);
      if !ok { return; }
      ok := Check(Config(probe, validate), probing, identifying);
      if !ok {
        Abandon();
        how := Rejected;
        return;
      }
      how := Accepted;
      probeOnRecover := probe;
      validator := validate;
      assert old(events) + [Connected] + [Probed] == old(events) + [Connected, Probed];
      Log(Adopted(Config(probe, validate)));
    }

    method RecoverIfFaulted(connects: bool, probing: Exchange, identifying: Identifying)
      returns (r: Result<()>, ghost how: Reopening)
      requires Valid()
      modifies this
      ensures Valid() && state == Step(backend, old(state), Recover(how))
      ensures old(state) != FAULTED ==> state == old(state)
      ensures old(state) == OPEN ==> r.Ok? && events == old(events)
      ensures old(state) != OPEN && old(state) != FAULTED ==> r == Err(SessionClosedError) && events == old(events)
      ensures old(state) == FAULTED ==>
                && how == Course(FAULTED, connects, CurrentConfig(old(events)), probing, identifying)
                && (r.Ok? <==> how.Accepted?)
                && (r.Ok? <==>
                    && connects && (old(probeOnRecover) ==> probing.Success?)
                    && (old(validator).Some? ==>
                        identifying.Answers? && old(validator).value(identifying.identity)))
      ensures generation == old(generation) + if old(state) == FAULTED && !how.Unreachable? then 1 else 0
      ensures old(state) == FAULTED && how.Rejected? ==> state == CLOSED && identity == None
      // a successful recovery probes and validates exactly as the last successful open did
      ensures old(state) == FAULTED && r.Ok? ==>
                var config := CurrentConfig(old(events));
                && events == old(events) + [Connected] + Checks(config, if identity.Some? then identity.value else "")
                && (config.validator.Some? ==> identity == Some(identifying.identity))
      ensures probeOnRecover == old(probeOnRecover) && validator == old(validator)
    {
      hide CurrentConfig, CurrentIdentity, Connections;
      how := Unreachable;
      if state == OPEN { return Ok(()), how; }
      if state != FAULTED { return Err(SessionClosedError), how; }
      var ok := ReopenTransport(connects);
      if !ok { return Err(TransportError), how; }
      ok := Check(Config(probeOnRecover, validator), probing, identifying);
      if !ok {
        Abandon();
        return Err(TransportError), Rejected;
      }
      how := Accepted;
      r := Ok(());
    }

    /** The identity is forgotten even when closing the transport raises, which then leaves the call. */
    method Close(releaseRaises: bool) returns (r: Result<()>)
      requires Valid()
      modifies this
      ensures Valid() && state == Step(backend, old(state), CloseSession) && identity == None
      ensures r.Err? <==> old(state) == OPEN && releaseRaises
      ensures generation == old(generation) && probeOnRecover == old(probeOnRecover) && validator == old(validator)
    {
      r := if state == OPEN && releaseRaises then Err(TransportError) else Ok(());
      Abandon();
    }

    /** The cached identity, or a fresh one. A failed refresh keeps the identity of the current connection. */
    method GetIdentity(refresh: bool, identifying: Identifying) returns (r: Result<Identity>)
      requires Valid()
      modifies this`state, this`identity, this`events
      ensures Valid()
      ensures !refresh && old(identity).Some? ==>
                r == Ok(old(identity).value) && state == old(state) && events == old(events)
      ensures refresh || old(identity).None? ==> state == Step(backend, old(state), Query(ExchangeOf(identifying)))
      ensures refresh || old(identity).None? ==> (r.Ok? <==> old(state) == OPEN && identifying.Answers?)
      ensures (refresh || old(identity).None?) && r.Ok? ==> r.value == identifying.identity
      ensures r.Ok? ==> identity == Some(r.value)
      ensures r.Err? ==> identity == old(identity)
    {
      if identity.None? || refresh {
        r := Identify(identifying);
      } else {
        r := Ok(identity.value);
      }
    }

    method CheckCommunication(probing: Exchange) returns (ok: bool)
      requires Valid()
      modifies this`state, this`events
      ensures Valid() && state == Step(backend, old(state), Query(probing))
      ensures ok <==> old(state) == OPEN && probing.Success?
    {
      ok := Probe(probing);
    }
  }

  /** A session's cached identity was read in its current generation: no connection was made or ended since. */
  lemma CachedInThisGeneration(s: ScpiSession)
    requires s.Valid() && s.identity.Some?
    ensures exists i :: 0 <= i < |s.events| && s.events[i] == Identified(s.identity.value)
                        && Connections(s.events[..i]) == s.generation
                        && forall k | i < k < |s.events| :: !s.events[k].Connected? && !s.events[k].Disconnected?
  {
    CachedIdentityIsCurrent(s.events);
    var i :| 0 <= i < |s.events| && s.events[i] == Identified(s.identity.value)
             && forall k | i < k < |s.events| :: !s.events[k].Connected? && !s.events[k].Disconnected?;
    NoConnections(s.events, i);
  }

  lemma {:induction false} NoConnections(events: seq<Event>, i: nat)
    requires i <= |events| && forall k | i <= k < |events| :: !events[k].Connected?
    ensures Connections(events[..i]) == Connections(events)
    decreases |events|
  {
    if i == |events| {
      assert events[..i] == events;
    } else {
      var front := events[..|events| - 1];
      NoConnections(front, i);
      assert front[..i] == events[..i];
    }
  }
}
