/** Every code path takes the locks of client, session and transport in one order, so no run gets stuck. */
module LockOrder {
  import opened Scripts
  import opened WireLogs

  function Rank(l: Lock): nat {
    match l
    case ClientLock => 0
    case SessionLock => 1
    case TransportLock => 2
    case StateLock => 3
    case IdLock => 4
  }

  predicate Ordered(script: Script, held: set<Lock>) {
    match script
    case Then(first, second) => Ordered(first, held) && Ordered(second, held)
    case Try(body, handler, _) => Ordered(body, held) && Ordered(handler, held)
    case With(l, body) =>
      && (if l in held then Reentrant(l) else forall h | h in held :: Rank(h) < Rank(l))
      && Ordered(body, held + {l})
    case _ => true
  }

  // ---- the code paths are ordered

  lemma {:induction false} RepeatOrdered(n: nat, script: Script, held: set<Lock>)
    requires Ordered(script, held)
    ensures Ordered(Repeat(n, script), held)
  {
    if n > 0 {
      RepeatOrdered(n - 1, script, held);
    }
  }

  lemma BothOrdered(first: Script, second: Script, held: set<Lock>)
    requires Ordered(first, held) && Ordered(second, held)
    ensures Ordered(Then(first, second), held)
  {}

  lemma TryOrdered(body: Script, handler: Script, rethrow: bool, held: set<Lock>)
    requires Ordered(body, held) && Ordered(handler, held)
    ensures Ordered(Try(body, handler, rethrow), held)
  {}

  /** The locks a caller may hold when it enters the transport. */
  predicate AboveTransport(held: set<Lock>) {
    held <= {ClientLock, SessionLock, TransportLock}
  }

  lemma TransportLockOrdered(body: Script, held: set<Lock>)
    requires AboveTransport(held) && Ordered(body, held + {TransportLock})
    ensures Ordered(With(TransportLock, body), held)
  {}

  lemma TransportCallOrdered(n: nat, traffic: Script, held: set<Lock>)
    requires AboveTransport(held) && (traffic.Skip? || traffic.Emit?)
    ensures Ordered(TransportCall(n, traffic), held)
  {
    var inner := held + {TransportLock};
    assert Ordered(STATE, inner);
    RepeatOrdered(n, STATE, inner);
    hide Repeat;
    TryOrdered(Then(Repeat(n, STATE), traffic), Repeat(n, STATE), true, inner);
  }

  lemma TransactOrdered(n: nat, command: Command, held: set<Lock>)
    requires AboveTransport(held)
    ensures Ordered(Transact(n, command), held)
  {
    hide TransportCall;
    TransportCallOrdered(n, Emit(Write(command)), held + {TransportLock});
    TransportCallOrdered(n, Emit(Read), held + {TransportLock});
    BothOrdered(SendCall(n, command), ReadCall(n), held + {TransportLock});
    TransportLockOrdered(Then(SendCall(n, command), ReadCall(n)), held);
  }

  lemma BlockExchangeOrdered(n: nat, command: Command, replies: nat, held: set<Lock>)
    requires AboveTransport(held)
    ensures Ordered(BlockExchange(n, command, replies), held)
  {
    hide TransportCall, Repeat;
    var inner := held + {TransportLock};
    TransportCallOrdered(n, Emit(Write(command)), inner);
    TransportCallOrdered(n, Emit(Read), inner);
    TransportCallOrdered(n, Skip, inner);
    RepeatOrdered(replies, ReadCall(n), inner);
    BothOrdered(SendCall(n, command), Repeat(replies, ReadCall(n)), inner);
    TryOrdered(Then(SendCall(n, command), Repeat(replies, ReadCall(n))), TransportCall(n, Skip), true, inner);
    TransportLockOrdered(Try(Then(SendCall(n, command), Repeat(replies, ReadCall(n))), TransportCall(n, Skip), true),
        held);
  }

  /** The locks a caller may hold when it enters the client: a session lock only together with the client's. */
  predicate AboveClient(held: set<Lock>) {
    held == {} || held == {ClientLock} || held == {ClientLock, SessionLock}
  }

  lemma ExecuteOrdered(action: Script, held: set<Lock>)
    requires AboveClient(held) && Ordered(action, held + {ClientLock})
    ensures Ordered(Execute(action), held)
  {
    var inner := held + {ClientLock};
    var counted := Then(With(IdLock, TakeId), action);
    assert Ordered(With(IdLock, TakeId), inner);
    assert Ordered(With(SessionLock, Skip), inner);
    BothOrdered(With(IdLock, TakeId), action, inner);
    TryOrdered(With(SessionLock, Skip), Skip, false, inner);
    TryOrdered(counted, NOTIFY, true, inner);
    BothOrdered(Try(counted, NOTIFY, true), NOTIFY, inner);
  }

  lemma DrainOrdered(n: nat, checks: nat, held: set<Lock>)
    requires AboveClient(held)
    ensures Ordered(DrainScript(n, checks), held)
  {
    hide Transact, Execute, Repeat;
    var inner := held + {ClientLock};
    assert inner + {ClientLock} == inner;
    TransactOrdered(n, ErrorQuery, inner);
    ExecuteOrdered(Transact(n, ErrorQuery), inner);
    RepeatOrdered(checks, ErrorQueryScript(n), inner);
  }

  lemma CheckedOrdered(action: Script, n: nat, checks: nat, held: set<Lock>)
    requires AboveClient(held) && Ordered(action, held + {ClientLock})
    ensures Ordered(Checked(action, n, checks), held)
  {
    hide Execute, DrainScript;
    var inner := held + {ClientLock};
    assert inner + {ClientLock} == inner;
    ExecuteOrdered(action, inner);
    DrainOrdered(n, checks, inner);
    BothOrdered(Execute(action), DrainScript(n, checks), inner);
  }

  lemma QueryOrdered(n: nat, command: Command, checks: nat, held: set<Lock>)
    requires AboveClient(held)
    ensures Ordered(QueryScript(n, command, checks), held)
  {
    hide Checked, Transact;
    TransactOrdered(n, command, held + {ClientLock});
    CheckedOrdered(Transact(n, command), n, checks, held);
  }

  /** A session operation may be entered with nothing held, or nested in another one. */
  lemma SessionOperationOrdered(body: Script, held: set<Lock>)
    requires AboveClient(held) && Ordered(body, {ClientLock, SessionLock})
    ensures Ordered(SessionOperation(body), held)
  {
    assert held + {ClientLock} + {SessionLock} == {ClientLock, SessionLock};
    assert Ordered(With(SessionLock, body), held + {ClientLock});
  }

  lemma ValidationOrdered(n: nat, probe: bool, health: string, validate: bool, checks: nat)
    ensures Ordered(Validation(n, probe, health, validate, checks), {ClientLock, SessionLock})
  {
    hide QueryScript, SessionOperation;
    var held := {ClientLock, SessionLock};
    QueryOrdered(n, Other(health), checks, held);
    QueryOrdered(n, IDENTIFY, checks, held);
    SessionOperationOrdered(QueryScript(n, IDENTIFY, checks), held);
  }

  lemma EstablishOrdered(n: nat, probe: bool, health: string, validate: bool, checks: nat)
    ensures Ordered(Establish(n, probe, health, validate, checks), {ClientLock, SessionLock})
  {
    hide TransportCall, Validation;
    var held := {ClientLock, SessionLock};
    var validation := Validation(n, probe, health, validate, checks);
    TransportCallOrdered(n, Skip, held);
    ValidationOrdered(n, probe, health, validate, checks);
    TryOrdered(TransportCall(n, Skip), Skip, false, held);
    TryOrdered(validation, Try(TransportCall(n, Skip), Skip, false), true, held);
    BothOrdered(TransportCall(n, Skip), Try(validation, Try(TransportCall(n, Skip), Skip, false), true), held);
  }

  /** Every code path takes its locks in the one order, alone or inside the client's operation lock. */
  lemma {:induction false} PathsAreOrdered(op: Operation, held: set<Lock>)
    requires held == {} || held == {ClientLock}
    ensures Ordered(ScriptOf(op), held)
    decreases op
  {
    hide Checked, TransportCall, Transact, BlockExchange, Establish, SessionOperation, QueryScript, DrainScript;
    var inner := held + {ClientLock};
    var both := {ClientLock, SessionLock};
    match op
    case WriteOp(n, text, checks) =>
      TransportCallOrdered(n, Emit(Write(Other(text))), inner);
      CheckedOrdered(SendCall(n, Other(text)), n, checks, held);
    case QueryOp(n, text, checks) => QueryOrdered(n, Other(text), checks, held);
    case BlockQueryOp(n, text, replies, checks) =>
      BlockExchangeOrdered(n, Other(text), replies, inner);
      CheckedOrdered(BlockExchange(n, Other(text), replies), n, checks, held);
    case DrainOp(n, checks) => DrainOrdered(n, checks, held);
    case OpenOp(n, probe, health, validate, checks) =>
      EstablishOrdered(n, probe, health, validate, checks);
      SessionOperationOrdered(Establish(n, probe, health, validate, checks), held);
    case RecoverOp(n, faulted, probe, health, validate, checks) =>
      EstablishOrdered(n, probe, health, validate, checks);
      var rest := if faulted then Establish(n, probe, health, validate, checks) else Skip;
      assert Ordered(STATE, both);
      BothOrdered(STATE, rest, both);
      SessionOperationOrdered(Then(STATE, rest), held);
    case CloseOp(n) =>
      TransportCallOrdered(n, Skip, both);
      SessionOperationOrdered(TransportCall(n, Skip), held);
    case CheckCommunicationOp(n, health, checks) =>
      QueryOrdered(n, Other(health), checks, both);
      TryOrdered(QueryScript(n, Other(health), checks), Skip, false, both);
      SessionOperationOrdered(Try(QueryScript(n, Other(health), checks), Skip, false), held);
    case GetIdentityOp(n, cached, checks) =>
      QueryOrdered(n, IDENTIFY, checks, both);
      SessionOperationOrdered(if cached then Skip else QueryScript(n, IDENTIFY, checks), held);
    case HealthOp => assert Ordered(STATE, held + {SessionLock});
    case GenerationOp =>
    case IsConnectedOp => assert Ordered(STATE, held);
    case InvalidateOp(n) => TransportCallOrdered(n, Skip, held);
    case OperationLockOp(calls) =>
      assert inner == {ClientLock};
      AllOrdered(calls);
  }

  lemma {:induction false} AllOrdered(calls: seq<Call>)
    ensures Ordered(AllOf(calls), {ClientLock})
  {
    hide ScriptOf;
    if calls != [] {
      CallOrdered(calls[0]);
      AllOrdered(calls[1..]);
    }
  }

  lemma {:induction false} CallOrdered(call: Call)
    ensures Ordered(ScriptOfCall(call), {ClientLock})
  {
    hide ScriptOf;
    PathsAreOrdered(call.op, {ClientLock});
  }

  // ---- the invariant of a run

  /** Every script still to be run is ordered above the locks that will be held when it runs. */
  predicate FramesOk(frames: seq<Frame>) {
    frames == [] ||
    (&& FramesOk(frames[1..])
     && (frames[0].Do? ==> Ordered(frames[0].script, Held(frames[1..])))
     && (frames[0].Handler? ==> Ordered(frames[0].handler, Held(frames[1..]))))
  }

  predicate Exclusive(s: System) {
    forall t, u | 0 <= t < u < |s.threads| :: Held(s.threads[t].frames) !! Held(s.threads[u].frames)
  }

  predicate Inv(s: System) {
    (forall t | 0 <= t < |s.threads| :: FramesOk(s.threads[t].frames)) && Exclusive(s)
  }

  lemma Pushed(frame: Frame, rest: seq<Frame>)
    requires FramesOk(rest)
    requires frame.Do? ==> Ordered(frame.script, Held(rest))
    requires frame.Handler? ==> Ordered(frame.handler, Held(rest))
    ensures FramesOk([frame] + rest)
    ensures Held([frame] + rest) == Held(rest) + if frame.Release? then {frame.lock} else {}
  {
    hide Ordered;
    assert ([frame] + rest)[1..] == rest;
  }

  lemma PushedTwice(above: Frame, frame: Frame, rest: seq<Frame>)
    requires FramesOk(rest) && (above.Do? || above.Rethrow?)
    requires frame.Do? ==> Ordered(frame.script, Held(rest))
    requires frame.Handler? ==> Ordered(frame.handler, Held(rest))
    requires above.Do? ==> Ordered(above.script, Held(rest) + if frame.Release? then {frame.lock} else {})
    ensures FramesOk([above, frame] + rest)
    ensures Held([above, frame] + rest) == Held(rest) + if frame.Release? then {frame.lock} else {}
  {
    hide Ordered, FramesOk, Held;
    Pushed(frame, rest);
    Pushed(above, [frame] + rest);
    assert [above, frame] + rest == [above] + ([frame] + rest);
  }

  function Wanted(c: Config): set<Lock>
    requires c.frames != []
  {
    if !c.raising && c.frames[0].Do? && c.frames[0].script.With? then {c.frames[0].script.lock} else {}
  }

  lemma AdvanceOk(c: Config, raises: bool)
    requires c.frames != [] && FramesOk(c.frames)
    ensures FramesOk(Advance(c, raises).0.frames)
    ensures Held(Advance(c, raises).0.frames) <= Held(c.frames) + if raises then {} else Wanted(c)
  {
    var rest := c.frames[1..];
    assert FramesOk(rest) && Held(rest) <= Held(c.frames);
    if c.frames[0].Handler? {
      var h := c.frames[0].handler;
      assert Ordered(h, Held(rest));
      hide Ordered, FramesOk, Held;
      Pushed(Do(h), rest);
      Pushed(Rethrow, rest);
      assert Held(rest) + {} == Held(rest);
      PushedTwice(Do(h), Rethrow, rest);
      assert [Do(h)] + [] + rest == [Do(h)] + rest && [Do(h)] + [Rethrow] + rest == [Do(h), Rethrow] + rest;
    } else if c.frames[0].Do? && !c.raising && !raises {
      DoOk(c);
    }
  }

  lemma DoOk(c: Config)
    requires c.frames != [] && FramesOk(c.frames) && c.frames[0].Do? && !c.raising
    ensures FramesOk(Advance(c, false).0.frames)
    ensures Held(Advance(c, false).0.frames) <= Held(c.frames) + Wanted(c)
  {
    var rest := c.frames[1..];
    var script := c.frames[0].script;
    assert FramesOk(rest) && Held(rest) <= Held(c.frames);
    match script
    case Then(first, second) =>
      assert Ordered(first, Held(rest)) && Ordered(second, Held(rest));
      hide Ordered, FramesOk, Held;
      assert Held(rest) + {} == Held(rest);
      PushedTwice(Do(first), Do(second), rest);
    case With(l, body) =>
      assert Ordered(body, Held(rest) + {l});
      hide Ordered, FramesOk, Held;
      PushedTwice(Do(body), Release(l), rest);
    case Try(body, h, rethrow) =>
      assert Ordered(body, Held(rest)) && Ordered(h, Held(rest));
      hide Ordered, FramesOk, Held;
      assert Held(rest) + {} == Held(rest);
      PushedTwice(Do(body), Handler(h, rethrow), rest);
    case _ =>
  }

  lemma NextOk(programs: Programs, s: System, s': System)
    requires Inv(s) && Next(programs, s, s')
    ensures Inv(s')
  {
    hide FramesOk, Held, Advance, Enabled, TurnsAfter;
    var t: nat, raises: bool :| Acts(programs, s, t, raises, s');
    var th := s.threads[t];
    if th.frames == [] {
      OneScriptOk(programs[t][th.begun]);
    } else {
      AdvanceOk(Config(th.frames, th.raising, Ids(th.mine, s.used)), raises);
      if !raises { WantedIsFree(programs, s, t); }
    }
    KeepsExclusive(s, s', t);
  }

  lemma OneScriptOk(op: Operation)
    ensures FramesOk([Do(ScriptOf(op))]) && Held([Do(ScriptOf(op))]) == {}
  {
    hide ScriptOf, Ordered;
    PathsAreOrdered(op, {});
    assert [Do(ScriptOf(op))][1..] == [];
  }

  lemma WantedIsFree(programs: Programs, s: System, t: nat)
    requires Enabled(programs, s, t) && s.threads[t].frames != []
    ensures forall l | l in Wanted(Config(s.threads[t].frames, s.threads[t].raising, Ids(0, 0))) :: Free(s, t, l)
  {
    hide Free, Held;
    var th := s.threads[t];
    assert forall l | l in Wanted(Config(th.frames, th.raising, Ids(0, 0))) :: Wants(th, l);
  }

  lemma KeepsExclusive(s: System, s': System, t: nat)
    requires Exclusive(s) && t < |s.threads| && |s'.threads| == |s.threads|
    requires forall u | 0 <= u < |s.threads| && u != t :: s'.threads[u] == s.threads[u]
    requires forall l | l in Held(s'.threads[t].frames) :: l in Held(s.threads[t].frames) || Free(s, t, l)
    ensures Exclusive(s')
  {
    hide Held;
    forall a, b | 0 <= a < b < |s'.threads|
      ensures Held(s'.threads[a].frames) !! Held(s'.threads[b].frames)
    {
      assert Held(s.threads[a].frames) !! Held(s.threads[b].frames);
    }
  }

  lemma {:induction false} BehaviourOk(programs: Programs, states: seq<System>, i: nat)
    requires Behaviour(programs, states) && i < |states|
    ensures Inv(states[i]) && |states[i].threads| == |programs|
  {
    if i > 0 {
      BehaviourOk(programs, states, i - 1);
      assert Next(programs, states[i - 1], states[i - 1 + 1]);
      NextOk(programs, states[i - 1], states[i]);
    }
  }

  // ---- progress

  lemma {:induction false} HolderHasMore(frames: seq<Frame>, l: Lock)
    requires l in Held(frames)
    ensures frames != []
  {}

  lemma OwnLockIsFree(s: System, t: nat, l: Lock)
    requires Exclusive(s) && t < |s.threads|
    ensures l in Held(s.threads[t].frames) ==> Free(s, t, l)
  {}

  /** A thread that cannot go on wants a lock that another thread holds, and that ranks above all it holds itself. */
  lemma Blocked(programs: Programs, s: System, t: nat) returns (l: Lock, u: nat)
    requires Inv(s) && |s.threads| == |programs| && t < |programs| && s.threads[t].frames != []
        && !Enabled(programs, s, t)
    ensures Wants(s.threads[t], l) && forall h | h in Held(s.threads[t].frames) :: Rank(h) < Rank(l)
    ensures u < |s.threads| && u != t && l in Held(s.threads[u].frames)
  {
    var th := s.threads[t];
    l :| Wants(th, l) && !(Free(s, t, l) && (l in Held(th.frames) ==> Reentrant(l)));
    assert Held(th.frames) == Held(th.frames[1..]);
    OwnLockIsFree(s, t, l);
    u :| 0 <= u < |s.threads| && u != t && l in Held(s.threads[u].frames);
  }

  /** From a blocked thread, follow the holders upwards: the wanted locks rank ever higher, so someone can step. */
  lemma Progress(programs: Programs, s: System, t: nat, least: nat) returns (u: nat)
    requires Inv(s) && |s.threads| == |programs| && t < |programs| && least <= 5
    requires s.threads[t].frames != [] || s.threads[t].begun < |programs[t]|
    requires least > 0 ==> exists h :: h in Held(s.threads[t].frames) && Rank(h) + 1 == least
    ensures Enabled(programs, s, u)
    decreases 5 - least
  {
    if Enabled(programs, s, t) {
      return t;
    }
    var l, holder := Blocked(programs, s, t);
    HolderHasMore(s.threads[holder].frames, l);
    u := Progress(programs, s, holder, Rank(l) + 1);
  }

  /** No deadlock: over every interleaving of every set of programs, with exceptions anywhere,
      some thread can take a step as long as one has work left. */
  lemma NeverStuck(programs: Programs, states: seq<System>, i: nat)
    requires Behaviour(programs, states) && i < |states|
    requires exists t :: 0 <= t < |states[i].threads| && t < |programs|
                         && (states[i].threads[t].frames != [] || states[i].threads[t].begun < |programs[t]|)
    ensures exists u: nat, s' :: Acts(programs, states[i], u, false, s')
  {
    hide FramesOk, Held, Enabled;
    BehaviourOk(programs, states, i);
    var s := states[i];
    var t :| 0 <= t < |s.threads| && t < |programs|
        && (s.threads[t].frames != [] || s.threads[t].begun < |programs[t]|);
    var u := Progress(programs, s, t, 0);
    CanAct(programs, s, u);
  }

  lemma CanAct(programs: Programs, s: System, u: nat)
    requires Enabled(programs, s, u)
    ensures exists s' :: Acts(programs, s, u, false, s')
  {
    var s' := if s.threads[u].frames == [] then Begin(programs, s, u) else Moved(s, u, false);
    assert Acts(programs, s, u, false, s');
  }
}
