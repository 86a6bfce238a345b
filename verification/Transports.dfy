/** Read requests, their meaning on a flat byte stream, and the state machine every transport shares. */
module Transports {
  import opened ByteStrings
  import opened Errors

  // ---- read requests

  datatype ReadRequest =
    | UntilTerminator(terminator: Bytes, includeTerminator: bool, maximumSize: int)
    | ExactLength(length: int, maximumSize: int)
    | UpToLength(length: int, maximumSize: int)
    | Available(maximumSize: int)
    | BackendDefinedMessage(maximumSize: int)
  {
    /** What the constructor enforces. */
    predicate WellFormed() {
      && maximumSize > 0
      && (UntilTerminator? ==> terminator != [])
      && (ExactLength? || UpToLength? ==> 0 < length <= maximumSize)
    }
  }

  /** The outcome of a request on a flat stream: a value and how many bytes it uses up, or why there is none. */
  datatype Outcome = Got(value: Bytes, used: nat) | TooLarge | Missing

  function Min(a: int, b: int): int {
    if a < b then a else b
  }

  function Line(stream: Bytes, request: ReadRequest): Outcome
    requires request.UntilTerminator? && request.WellFormed()
  {
    var at := Find(stream, request.terminator, 0);
    var end := at + |request.terminator|;
    if at < 0 then (if |stream| >= request.maximumSize then TooLarge else Missing)
    else if end > request.maximumSize then TooLarge
    else Got(stream[..if request.includeTerminator then end else at], end)
  }

  function FlatRead(stream: Bytes, request: ReadRequest): (r: Outcome)
    requires request.WellFormed() && !request.BackendDefinedMessage?
    ensures r.Got? ==> 0 < r.used <= |stream| && r.value <= stream[..r.used]
  {
    match request
    case UntilTerminator(_, _, _) => Line(stream, request)
    case ExactLength(length, _) => if |stream| < length then Missing else Got(stream[..length], length)
    case UpToLength(length, _) =>
      if stream == [] then Missing else Got(stream[..Min(|stream|, length)], Min(|stream|, length))
    case Available(maximumSize) =>
      if stream == [] then Missing else Got(stream[..Min(|stream|, maximumSize)], Min(|stream|, maximumSize))
  }

  /** The counted modes take all there is up to their bound; an exact read takes exactly its length or nothing. */
  lemma CountedExactly(stream: Bytes, request: ReadRequest)
    requires request.WellFormed()
    ensures request.ExactLength? ==>
              FlatRead(stream, request)
              == if |stream| >= request.length then Got(stream[..request.length], request.length) else Missing
    ensures request.UpToLength? || request.Available? ==>
              var limit := if request.UpToLength? then request.length else request.maximumSize;
              && (FlatRead(stream, request) == Missing <==> stream == [])
              && (stream != [] && |stream| <= limit ==> FlatRead(stream, request) == Got(stream, |stream|))
              && (|stream| > limit ==> FlatRead(stream, request) == Got(stream[..limit], limit))
  {
    assert stream[..|stream|] == stream;
  }

  /** A terminated read gives the bytes up to the first terminator, with it or without it, and uses it up, exactly when
      it ends within the bound; without one it waits until the bound is reached. */
  lemma LineExactly(stream: Bytes, request: ReadRequest, at: nat)
    requires request.UntilTerminator? && request.WellFormed()
    requires forall j | 0 <= j < at :: !OccursAt(stream, request.terminator, j)
    requires OccursAt(stream, request.terminator, at) || at == |stream|
    ensures var end := at + |request.terminator|;
            FlatRead(stream, request)
            == if at == |stream| then (if |stream| >= request.maximumSize then TooLarge else Missing)
               else if end > request.maximumSize then TooLarge
               else if request.includeTerminator then Got(stream[..end], end) else Got(stream[..at], end)
  {
    var found := Find(stream, request.terminator, 0);
    if at == |stream| {
      assert found < |stream|;
    }
  }

  /** Bytes that arrive later do not change the outcome of a terminated or exact read once it is decided. */
  lemma FlatReadIsStable(stream: Bytes, more: Bytes, request: ReadRequest)
    requires request.WellFormed() && (request.UntilTerminator? || request.ExactLength?)
    requires !FlatRead(stream, request).Missing?
    ensures FlatRead(stream + more, request) == FlatRead(stream, request)
  {
    var all := stream + more;
    if request.UntilTerminator? {
      var t := request.terminator;
      var at, atAll := Find(stream, t, 0), Find(all, t, 0);
      PrefixOccurs(stream, more, t);
      if at >= 0 {
        assert OccursAt(all, t, at);
        assert atAll == at;
        assert all[..at + |t|] == stream[..at + |t|];
        assert all[..at] == stream[..at];
      } else if atAll >= 0 {
        assert !OccursAt(stream, t, atAll);
      }
    } else {
      assert all[..request.length] == stream[..request.length];
    }
  }

  /** A buffer that holds the terminator, or is full, settles a terminated read whatever follows. */
  lemma LineSettled(buffer: Bytes, more: Bytes, request: ReadRequest)
    requires request.UntilTerminator? && request.WellFormed()
    ensures var at, t := Find(buffer, request.terminator, 0), request.terminator;
            && (at >= 0 && at + |t| <= request.maximumSize ==>
                  FlatRead(buffer + more, request)
                  == Got(buffer[..if request.includeTerminator then at + |t| else at], at + |t|))
            && (at >= 0 && at + |t| > request.maximumSize ==> FlatRead(buffer + more, request) == TooLarge)
            && (at < 0 && |buffer| >= request.maximumSize ==> FlatRead(buffer + more, request) == TooLarge)
  {
    hide Find;
    if !FlatRead(buffer, request).Missing? {
      FlatReadIsStable(buffer, more, request);
    }
  }

  lemma PrefixOccurs(stream: Bytes, more: Bytes, t: Bytes)
    ensures forall i | 0 <= i && i + |t| <= |stream| :: OccursAt(stream + more, t, i) == OccursAt(stream, t, i)
  {
    forall i | 0 <= i && i + |t| <= |stream|
      ensures OccursAt(stream + more, t, i) == OccursAt(stream, t, i)
    {
      assert (stream + more)[i..i + |t|] == stream[i..i + |t|];
    }
  }

  /** A search resumed `|t| - 1` bytes before the old end misses no occurrence, however the bytes were cut. */
  lemma ResumedSearch(buffer: Bytes, chunk: Bytes, t: Bytes, from: nat)
    requires t != [] && (forall j | 0 <= j :: !OccursAt(buffer, t, j))
    requires from == if |buffer| - |t| + 1 > 0 then |buffer| - |t| + 1 else 0
    ensures Find(buffer + chunk, t, from) == Find(buffer + chunk, t, 0)
  {
    PrefixOccurs(buffer, chunk, t);
    var all := buffer + chunk;
    assert forall j | 0 <= j < from :: !OccursAt(all, t, j);
    var a, b := Find(all, t, from), Find(all, t, 0);
    if a >= 0 { assert OccursAt(all, t, a); }
    if b >= 0 { assert OccursAt(all, t, b); }
  }

  // ---- queued pieces

  /** Queued chunks or messages as one stream. */
  function Flat(chunks: seq<Bytes>): Bytes {
    if chunks == [] then [] else chunks[0] + Flat(chunks[1..])
  }

  lemma {:induction false} FlatAppend(chunks: seq<Bytes>, chunk: Bytes)
    ensures Flat(chunks + [chunk]) == Flat(chunks) + chunk
  {
    if chunks == [] {
      assert [] + [chunk] == [chunk];
      assert Flat([chunk]) == chunk + Flat([]);
    } else {
      assert (chunks + [chunk])[1..] == chunks[1..] + [chunk];
      FlatAppend(chunks[1..], chunk);
    }
  }

  // ---- the shared state machine

  datatype State = CREATED | OPENING | OPEN | FAULTED | CLOSING | CLOSED

  /** The steps a transport may take, apart from a disconnect simulated while it is not open. */
  predicate Edge(from: State, to: State) {
    match from
    case CREATED => to == OPENING
    case OPENING => to == OPEN || to == FAULTED
    case OPEN => to == FAULTED || to == CLOSING
    case FAULTED => to == OPENING || to == CLOSING
    case CLOSING => to == CLOSED
    case CLOSED => to == OPENING
  }

  /** The graph: a transport opens through OPENING and closes through CLOSING, and only an open or opening one
      faults. */
  lemma EdgesExactly(from: State, to: State)
    ensures Edge(from, to) <==>
            (from, to) in {(CREATED, OPENING), (FAULTED, OPENING), (CLOSED, OPENING), (OPENING, OPEN),
                           (OPENING, FAULTED), (OPEN, FAULTED), (OPEN, CLOSING), (FAULTED, CLOSING),
                           (CLOSING, CLOSED)}
  {}

  predicate Walk(from: State, steps: seq<State>)
    decreases |steps|
  {
    steps == [] || (Edge(from, steps[0]) && Walk(steps[0], steps[1..]))
  }

  function LastOf(from: State, steps: seq<State>): State {
    if steps == [] then from else steps[|steps| - 1]
  }

  lemma {:induction false} WalkMore(from: State, steps: seq<State>, more: seq<State>)
    ensures Walk(from, steps + more) <==> Walk(from, steps) && Walk(LastOf(from, steps), more)
    decreases |steps|
  {
    if steps == [] {
      assert steps + more == more;
    } else {
      assert (steps + more)[1..] == steps[1..] + more;
      WalkMore(steps[0], steps[1..], more);
      assert LastOf(steps[0], steps[1..]) == LastOf(from, steps);
    }
  }

  /** The two families of transports differ in one way: whether the open check of `transact` is inside its fault
      guard. */
  datatype Backend = Mock | Tcp

  /** How one exchange on an open transport went. */
  datatype Exchange = Success | Failure(faults: bool)

  function AfterOpen(s: State, connects: bool): State {
    if s == OPEN || connects then OPEN else FAULTED
  }

  function AfterClose(s: State): State {
    if s == CREATED || s == CLOSED then s else CLOSED
  }

  function AfterInvalidate(s: State): State {
    if s == OPEN then FAULTED else s
  }

  /** A `write` or `read`: the open check comes before the fault guard. */
  function AfterIo(s: State, x: Exchange): State {
    if s == OPEN && x.Failure? && x.faults then FAULTED else s
  }

  function AfterTransact(backend: Backend, s: State, x: Exchange): State {
    if s == OPEN then AfterIo(s, x)
    else if backend == Tcp then FAULTED
    else s
  }

  /** Where the calls lead. A failed connect, a faulting exchange and an invalidation end FAULTED; closing ends CLOSED
      unless nothing was ever opened; what is not open only TCP's `transact` moves. */
  lemma Lifecycle(s: State, connects: bool, faults: bool)
    ensures AfterOpen(s, true) == OPEN && AfterOpen(OPEN, connects) == OPEN
    ensures s != OPEN ==> AfterOpen(s, false) == FAULTED
    ensures AfterClose(CREATED) == CREATED && (s != CREATED ==> AfterClose(s) == CLOSED)
    ensures AfterInvalidate(OPEN) == FAULTED && (s != OPEN ==> AfterInvalidate(s) == s)
    ensures AfterIo(OPEN, Failure(true)) == FAULTED
    ensures AfterIo(OPEN, Failure(false)) == OPEN && AfterIo(OPEN, Success) == OPEN
    ensures s != OPEN ==> AfterIo(s, Failure(faults)) == AfterIo(s, Success) == s
    ensures forall backend, x :: AfterTransact(backend, OPEN, x) == AfterIo(OPEN, x)
    ensures s != OPEN ==> forall x :: AfterTransact(Mock, s, x) == s && AfterTransact(Tcp, s, x) == FAULTED
  {}
}
