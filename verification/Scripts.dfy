/** The locking and the wire traffic of every client and session operation, and threads that run them. */
module Scripts {
  import opened WireLogs

  datatype Lock = ClientLock | SessionLock | TransportLock | StateLock | IdLock

  /** The tiny locks around the transport state and the operation counter are plain ones. */
  predicate Reentrant(l: Lock) {
    !l.StateLock? && !l.IdLock?
  }

  datatype Traffic = Write(command: Command) | Read

  /** A piece of code, as far as locks, operation ids and the wire go.

      `With` releases its lock however its body is left. `Try` runs its handler when the body raises, and then raises
      again or goes on. */
  datatype Script =
    | Skip
    | TakeId
    | Emit(traffic: Traffic)
    | Then(first: Script, second: Script)
    | With(lock: Lock, body: Script)
    | Try(body: Script, handler: Script, rethrow: bool)

  // ---- the code paths

  function Repeat(n: nat, script: Script): Script {
    if n == 0 then Skip else Then(script, Repeat(n - 1, script))
  }

  /** One look at, or change of, the transport state. */
  const STATE := With(StateLock, Skip)

  /** A transport call that touches its state up to `n` times, and as often again when it faults. */
  function TransportCall(n: nat, traffic: Script): Script {
    With(TransportLock, Try(Then(Repeat(n, STATE), traffic), Repeat(n, STATE), true))
  }

  function SendCall(n: nat, command: Command): Script {
    TransportCall(n, Emit(Write(command)))
  }

  function ReadCall(n: nat): Script {
    TransportCall(n, Emit(Read))
  }

  function Transact(n: nat, command: Command): Script {
    With(TransportLock, Then(SendCall(n, command), ReadCall(n)))
  }

  /** A block exchange holds the transport for its write and all its reads, and invalidates it after a failure. */
  function BlockExchange(n: nat, command: Command, replies: nat): Script {
    With(TransportLock, Try(Then(SendCall(n, command), Repeat(replies, ReadCall(n))), TransportCall(n, Skip), true))
  }

  /** The outcome listener that the session registers; its exceptions are suppressed. */
  const NOTIFY := Try(With(SessionLock, Skip), Skip, false)

  /** The client's choke point: its lock, an operation id, the action, and the outcome listener either way. */
  function Execute(action: Script): Script {
    With(ClientLock, Then(Try(Then(With(IdLock, TakeId), action), NOTIFY, true), NOTIFY))
  }

  /** A query of the error queue while a check is under way: it is not checked again. */
  function ErrorQueryScript(n: nat): Script {
    With(ClientLock, Execute(Transact(n, ErrorQuery)))
  }

  /** Draining holds the client's operation lock over all its queries. */
  function DrainScript(n: nat, checks: nat): Script {
    With(ClientLock, Repeat(checks, ErrorQueryScript(n)))
  }

  /** An operation and the `checks` queries of its own error check, under one hold of the client's lock. */
  function Checked(action: Script, n: nat, checks: nat): Script {
    With(ClientLock, Then(Execute(action), DrainScript(n, checks)))
  }

  function QueryScript(n: nat, command: Command, checks: nat): Script {
    Checked(Transact(n, command), n, checks)
  }

  /** Cross-layer order: client, then session. */
  function SessionOperation(body: Script): Script {
    With(ClientLock, With(SessionLock, body))
  }

  const IDENTIFY := Other("*IDN?")

  /** The operations of a client and its session. `n` is how often a transport call touches its state, `checks` how many
      error queries the operation's own check comes to; both may be anything. */
  datatype Operation =
    | WriteOp(n: nat, text: string, checks: nat)
    | QueryOp(n: nat, text: string, checks: nat)
    | BlockQueryOp(n: nat, text: string, replies: nat, checks: nat)
    | DrainOp(n: nat, checks: nat)
    | OpenOp(n: nat, probe: bool, health: string, validate: bool, checks: nat)
    | RecoverOp(n: nat, faulted: bool, probe: bool, health: string, validate: bool, checks: nat)
    | CloseOp(n: nat)
    | CheckCommunicationOp(n: nat, health: string, checks: nat)
    | GetIdentityOp(n: nat, cached: bool, checks: nat)
    | HealthOp
    | GenerationOp
    | IsConnectedOp
    | InvalidateOp(n: nat)
    | OperationLockOp(calls: seq<Call>)

  /** A call made under the operation lock; its caller may catch what it raises and go on. */
  datatype Call = Call(op: Operation, caught: bool)

  function ScriptOf(op: Operation): Script {
    match op
    case WriteOp(n, text, checks) => Checked(SendCall(n, Other(text)), n, checks)
    case QueryOp(n, text, checks) => QueryScript(n, Other(text), checks)
    case BlockQueryOp(n, text, replies, checks) => Checked(BlockExchange(n, Other(text), replies), n, checks)
    case DrainOp(n, checks) => DrainScript(n, checks)
    case OpenOp(n, probe, health, validate, checks) => SessionOperation(Establish(n, probe, health, validate, checks))
    case RecoverOp(n, faulted, probe, health, validate, checks) =>
      SessionOperation(Then(STATE, if faulted then Establish(n, probe, health, validate, checks) else Skip))
    case CloseOp(n) => SessionOperation(TransportCall(n, Skip))
    case CheckCommunicationOp(n, health, checks) =>
      SessionOperation(Try(QueryScript(n, Other(health), checks), Skip, false))
    case GetIdentityOp(n, cached, checks) => SessionOperation(if cached then Skip else QueryScript(n, IDENTIFY, checks))
    case HealthOp => With(SessionLock, STATE)
    case GenerationOp => With(SessionLock, Skip)
    case IsConnectedOp => STATE
    case InvalidateOp(n) => TransportCall(n, Skip)
    case OperationLockOp(calls) => With(ClientLock, AllOf(calls))
  }

  function AllOf(calls: seq<Call>): Script {
    if calls == [] then Skip
    else Then(ScriptOfCall(calls[0]), AllOf(calls[1..]))
  }

  function ScriptOfCall(call: Call): Script {
    if call.caught then Try(ScriptOf(call.op), Skip, false) else ScriptOf(call.op)
  }

  /** What opening and recovery do once the transport has connected; getting the identity locks again. */
  function Validation(n: nat, probe: bool, health: string, validate: bool, checks: nat): Script {
    Then(if probe then QueryScript(n, Other(health), checks) else Skip,
         if validate then SessionOperation(QueryScript(n, IDENTIFY, checks)) else Skip)
  }

  /** Connecting, and closing again when a probe or validation fails. */
  function Establish(n: nat, probe: bool, health: string, validate: bool, checks: nat): Script {
    Then(TransportCall(n, Skip),
         Try(Validation(n, probe, health, validate, checks), Try(TransportCall(n, Skip), Skip, false), true))
  }

  // ---- running threads

  /** What a thread has still to do, innermost first: run a script, release a lock it holds, handle an exception that
      arrives here, or raise again. */
  datatype Frame = Do(script: Script) | Release(lock: Lock) | Handler(handler: Script, rethrow: bool) | Rethrow

  function Held(frames: seq<Frame>): set<Lock> {
    if frames == [] then {}
    else Held(frames[1..]) + if frames[0].Release? then {frames[0].lock} else {}
  }

  /** The client's counter of operation ids, and the id a thread has taken last. */
  datatype Ids = Ids(mine: nat, used: nat)

  datatype Config = Config(frames: seq<Frame>, raising: bool, ids: Ids)

  function EventOf(traffic: Traffic, id: nat): Event {
    match traffic
    case Write(command) => Wrote(id, command)
    case Read => Got(id)
  }

  /** One step of a thread by itself, with what it puts on the wire. Any script may raise instead of running. */
  function Advance(c: Config, raises: bool): (Config, seq<Event>)
    requires c.frames != []
  {
    var rest := c.frames[1..];
    match c.frames[0]
    case Release(_) => (c.(frames := rest), [])
    case Rethrow => (c.(frames := rest, raising := true), [])
    case Handler(h, rethrow) =>
      if c.raising then (c.(frames := [Do(h)] + (if rethrow then [Rethrow] else []) + rest, raising := false), [])
      else (c.(frames := rest), [])
    case Do(script) =>
      if c.raising then (c.(frames := rest), [])
      else if raises then (c.(frames := rest, raising := true), [])
      else
        match script
        case Skip => (c.(frames := rest), [])
        case TakeId => (c.(frames := rest, ids := Ids(c.ids.used + 1, c.ids.used + 1)), [])
        case Emit(traffic) => (c.(frames := rest), [EventOf(traffic, c.ids.mine)])
        case Then(first, second) => (c.(frames := [Do(first), Do(second)] + rest), [])
        case With(l, body) => (c.(frames := [Do(body), Release(l)] + rest), [])
        case Try(body, h, rethrow) => (c.(frames := [Do(body), Handler(h, rethrow)] + rest), [])
  }

  /** A thread has begun the first `begun` operations of its program; `frames` is what is left of the last of them. */
  datatype Thread = Thread(begun: nat, frames: seq<Frame>, raising: bool, mine: nat)

  /** An operation that took the client's lock when it was free: whose, with which ids, at which place of the log,
      and, once it has released it, whether it was raising. */
  datatype Turn = Turn(thread: nat, index: nat, start: Ids, from: nat, done: bool, raised: bool)

  /** `turns` is a record that no step looks at. */
  datatype System = System(threads: seq<Thread>, used: nat, log: seq<Event>, turns: seq<Turn>)

  type Programs = seq<seq<Operation>>

  predicate Free(s: System, t: nat, l: Lock) {
    forall u | 0 <= u < |s.threads| && u != t :: l !in Held(s.threads[u].frames)
  }

  /** The lock that the thread's next step takes, if it does not raise instead. */
  predicate Wants(th: Thread, l: Lock) {
    th.frames != [] && !th.raising && th.frames[0].Do? && th.frames[0].script.With? && th.frames[0].script.lock == l
  }

  /** The thread can go on by itself. A plain lock also blocks its own holder. */
  predicate Enabled(programs: Programs, s: System, t: nat) {
    && t < |s.threads| && t < |programs|
    && var th := s.threads[t];
       && (th.frames == [] ==> th.begun < |programs[t]|)
       && forall l | Wants(th, l) :: Free(s, t, l) && (l in Held(th.frames) ==> Reentrant(l))
  }

  function Begin(programs: Programs, s: System, t: nat): System
    requires t < |s.threads| && t < |programs| && s.threads[t].begun < |programs[t]|
  {
    var th := s.threads[t];
    s.(threads := s.threads[t := Thread(th.begun + 1, [Do(ScriptOf(programs[t][th.begun]))], false, th.mine)])
  }

  function Moved(s: System, t: nat, raises: bool): System
    requires t < |s.threads| && s.threads[t].frames != []
  {
    var th := s.threads[t];
    var step := Advance(Config(th.frames, th.raising, Ids(th.mine, s.used)), raises);
    System(s.threads[t := Thread(th.begun, step.0.frames, step.0.raising, step.0.ids.mine)],
           step.0.ids.used, s.log + step.1, TurnsAfter(s, t, step.0))
  }

  function Opened(s: System, t: nat): Turn
    requires t < |s.threads|
  {
    var th := s.threads[t];
    Turn(t, if th.begun > 0 then th.begun - 1 else 0, Ids(th.mine, s.used), |s.log|, false, false)
  }

  /** The record grows when the thread takes the client's lock from outside, and is closed when it gives it back. */
  function TurnsAfter(s: System, t: nat, after: Config): seq<Turn>
    requires t < |s.threads|
  {
    var th := s.threads[t];
    var before, now := ClientLock in Held(th.frames), ClientLock in Held(after.frames);
    if !before && now then s.turns + [Opened(s, t)]
    else if before && !now && s.turns != [] then
      var last := |s.turns| - 1;
      s.turns[last := s.turns[last].(done := true, raised := after.raising)]
    else s.turns
  }

  /** A thread begins its next operation, goes on, or raises; raising needs no lock. */
  predicate Acts(programs: Programs, s: System, t: nat, raises: bool, s': System) {
    && t < |s.threads| && t < |programs|
    && if s.threads[t].frames == [] then s.threads[t].begun < |programs[t]| && s' == Begin(programs, s, t)
       else (raises || Enabled(programs, s, t)) && s' == Moved(s, t, raises)
  }

  ghost predicate Next(programs: Programs, s: System, s': System) {
    exists t: nat, raises: bool :: Acts(programs, s, t, raises, s')
  }

  function Starting(programs: Programs): System {
    System(seq(|programs|, t => Thread(0, [], false, 0)), 0, [], [])
  }

  ghost predicate Behaviour(programs: Programs, states: seq<System>) {
    && states != [] && states[0] == Starting(programs)
    && forall i | 0 <= i < |states| - 1 :: Next(programs, states[i], states[i + 1])
  }
}
