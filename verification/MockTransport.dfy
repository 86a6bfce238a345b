/** The in-memory reference transport: a queue of fed chunks, injected failures, and a full record of its life. */
module MockTransports {
  import opened ByteStrings
  import opened Deadlines
  import opened Errors
  import opened Transports

  datatype Injection = Injection(error: Error, fault: bool)

  datatype Operation = OpenOp | CloseOp | WriteOp(data: Bytes) | ReadOp(data: Bytes)

  lemma MoveChunk(data: Bytes, chunk: Bytes, rest: seq<Bytes>)
    ensures data + Flat([chunk] + rest) == (data + chunk) + Flat(rest)
  {
    assert ([chunk] + rest)[1..] == rest;
  }

  lemma SplitChunk(data: Bytes, chunk: Bytes, rest: seq<Bytes>, n: nat)
    requires n <= |chunk|
    ensures data + Flat([chunk] + rest) == (data + chunk[..n]) + Flat([chunk[n..]] + rest)
  {
    assert ([chunk] + rest)[1..] == rest && ([chunk[n..]] + rest)[1..] == rest;
  }

  lemma Regroup(a: Bytes, b: Bytes, c: Bytes)
    ensures a + (b + c) == (a + b) + c
  {}

  /** The pieces of `size` bytes that a chunked write is sent in. */
  function Chunks(data: Bytes, size: nat): seq<Bytes>
    requires size > 0
  {
    if data == [] then [] else if |data| <= size then [data] else [data[..size]] + Chunks(data[size..], size)
  }

  /** The pieces hold exactly the data, in order; none is empty and only the last may be short. */
  lemma {:induction false} ChunksExactly(data: Bytes, size: nat)
    requires size > 0
    ensures Flat(Chunks(data, size)) == data
    ensures forall k | 0 <= k < |Chunks(data, size)| :: 0 < |Chunks(data, size)[k]| <= size
    ensures forall k | 0 <= k < |Chunks(data, size)| - 1 :: |Chunks(data, size)[k]| == size
    decreases |data|
  {
    if data == [] {
    } else if |data| <= size {
      assert [data][1..] == [] && data + [] == data;
    } else {
      ChunksExactly(data[size..], size);
      var rest := Chunks(data[size..], size);
      assert ([data[..size]] + rest)[1..] == rest && data[..size] + data[size..] == data;
    }
  }

  lemma NextChunk(data: Bytes, start: nat, size: nat, sent: seq<Bytes>)
    requires size > 0 && start < |data|
    ensures var end := Min(start + size, |data|);
            sent + Chunks(data[start..], size) == (sent + [data[start..end]]) + Chunks(data[end..], size)
  {
    var rest := data[start..];
    if |rest| <= size {
      assert rest == data[start..|data|] && data[|data|..] == [];
    } else {
      assert rest[..size] == data[start..start + size] && rest[size..] == data[start + size..];
    }
  }

  class MockTransport {
    const defaultTimeout: real
    const maxWriteChunk: Option<nat>
    const faultOnTimeout: bool
    const emptyWhenUnavailable: bool
    var state: State
    var inbound: seq<Bytes>
    var held: bool
    var failOpen: Option<Injection>
    var failWrite: Option<Injection>
    var failRead: Option<Injection>
    var transitions: seq<State>
    var operations: seq<Operation>
    var writeChunks: seq<Bytes>
    var openCount: nat
    var releaseCount: nat

    /** All bytes fed, and all bytes taken by reads, since the queue was last cleared. */
    ghost var fed: Bytes
    ghost var taken: Bytes
    /** A disconnect was simulated while the transport was not open. */
    ghost var disconnectedIdle: bool

    /** What holds between any two operations. */
    ghost predicate Valid()
      reads this
    {
      && defaultTimeout > 0.0 && (maxWriteChunk.Some? ==> maxWriteChunk.value > 0)
      && (state == OPEN <==> held)
      && openCount == releaseCount + (if state == OPEN then 1 else 0)
      && state != OPENING && state != CLOSING
      && state == LastOf(CREATED, transitions)
      && (!disconnectedIdle ==> Walk(CREATED, transitions))
      && fed == taken + Flat(inbound)
    }

    /** The same with the resource accounting left open, for the middle of an operation. */
    ghost predicate Midway()
      reads this
    {
      && defaultTimeout > 0.0 && (maxWriteChunk.Some? ==> maxWriteChunk.value > 0)
      && openCount == releaseCount + (if held then 1 else 0)
      && state == LastOf(CREATED, transitions)
      && (!disconnectedIdle ==> Walk(CREATED, transitions))
      && fed == taken + Flat(inbound)
    }

    constructor (defaultTimeout: real, maxWriteChunk: Option<nat>, faultOnTimeout: bool, emptyWhenUnavailable: bool)
      requires defaultTimeout > 0.0 && (maxWriteChunk.Some? ==> maxWriteChunk.value > 0)
      ensures Valid() && state == CREATED && inbound == [] && transitions == []
      ensures this.defaultTimeout == defaultTimeout && this.maxWriteChunk == maxWriteChunk
      ensures this.faultOnTimeout == faultOnTimeout && this.emptyWhenUnavailable == emptyWhenUnavailable
    {
      this.defaultTimeout, this.maxWriteChunk := defaultTimeout, maxWriteChunk;
      this.faultOnTimeout, this.emptyWhenUnavailable := faultOnTimeout, emptyWhenUnavailable;
      state, inbound, held := CREATED, [], false;
      failOpen, failWrite, failRead := None, None, None;
      transitions, operations, writeChunks, openCount, releaseCount := [], [], [], 0, 0;
      fed, taken, disconnectedIdle := [], [], false;
    }

    // ---- the state machine

    method SetState(to: State)
      requires Midway() && (disconnectedIdle || Edge(state, to))
      modifies this`state, this`transitions
      ensures Midway() && state == to && transitions == old(transitions) + [to]
    {
      WalkMore(CREATED, transitions, [to]);
      assert Walk(state, [to]) <==> Edge(state, to);
      state := to;
      transitions := transitions + [to];
    }

    method ReleaseResource()
      requires Midway()
      modifies this`held, this`releaseCount
      ensures Midway() && !held && releaseCount == old(releaseCount) + if old(held) then 1 else 0
    {
      if held {
        held := false;
        releaseCount := releaseCount + 1;
      }
    }

    method OnClosed()
      requires Midway()
      modifies this`inbound, this`fed, this`taken
      ensures Midway() && inbound == []
    {
      inbound := [];
      fed, taken := [], [];
    }

    method Fault()
      requires Midway() && (disconnectedIdle || state == OPEN)
      modifies this`state, this`transitions, this`held, this`releaseCount, this`inbound, this`fed, this`taken
      ensures Valid() && state == FAULTED && inbound == [] && transitions == old(transitions) + [FAULTED]
    {
      ReleaseResource();
      OnClosed();
      SetState(FAULTED);
    }

    method Open() returns (r: Result<()>)
      requires Valid()
      modifies this`state, this`transitions, this`operations, this`held, this`openCount, this`releaseCount,
          this`failOpen
      ensures Valid() && state == AfterOpen(old(state), old(failOpen).None?)
      ensures r.Ok? <==> state == OPEN
      ensures r.Err? ==> old(failOpen).Some? && old(failOpen).value.error == r.error
      ensures failOpen == if old(state) == OPEN then old(failOpen) else None
      ensures old(state) == OPEN ==> openCount == old(openCount)
                                     && transitions == old(transitions) && operations == old(operations)
      ensures old(state) != OPEN ==> openCount == old(openCount) + (if r.Ok? then 1 else 0)
                                     && transitions == old(transitions) + [OPENING, state]
                                     && operations == old(operations) + (if r.Ok? then [OpenOp] else [])
    {
      hide Walk, Flat, LastOf;
      if state == OPEN { return Ok(()); }
      if state == FAULTED { ReleaseResource(); }
      SetState(OPENING);
      var injection := failOpen;
      failOpen := None;
      if injection.Some? {
        SetState(FAULTED);
        return Err(injection.value.error);
      }
      Connect();
      r := Ok(());
    }

    method Connect()
      requires Midway() && state == OPENING && !held
      modifies this`state, this`transitions, this`operations, this`held, this`openCount
      ensures Valid() && state == OPEN && openCount == old(openCount) + 1
      ensures transitions == old(transitions) + [OPEN] && operations == old(operations) + [OpenOp]
    {
      hide Walk, Flat, LastOf;
      held := true;
      openCount := openCount + 1;
      SetState(OPEN);
      operations := operations + [OpenOp];
    }

    method Close()
      requires Valid()
      modifies this`state, this`transitions, this`operations, this`held, this`releaseCount,
               this`inbound, this`fed, this`taken
      ensures Valid() && state == AfterClose(old(state))
      ensures old(state) == state ==>
                inbound == old(inbound) && transitions == old(transitions) && operations == old(operations)
      ensures old(state) != state ==>
                && state == CLOSED && inbound == []
                && transitions == old(transitions) + [CLOSING, CLOSED] && operations == old(operations) + [CloseOp]
    {
      hide Walk, Flat, LastOf;
      if state == CREATED || state == CLOSED { return; }
      SetState(CLOSING);
      ReleaseResource();
      OnClosed();
      SetState(CLOSED);
      operations := operations + [CloseOp];
    }

    method Invalidate()
      requires Valid()
      modifies this`state, this`transitions, this`held, this`releaseCount, this`inbound, this`fed, this`taken
      ensures Valid() && state == AfterInvalidate(old(state))
      ensures old(state) != OPEN ==> inbound == old(inbound) && transitions == old(transitions)
      ensures old(state) == OPEN ==> inbound == [] && transitions == old(transitions) + [FAULTED]
    {
      if state == OPEN { Fault(); }
    }

    method SimulateDisconnect()
      requires Valid()
      modifies this`state, this`transitions, this`held, this`releaseCount,
               this`inbound, this`fed, this`taken, this`disconnectedIdle
      ensures Valid() && state == FAULTED && inbound == [] && transitions == old(transitions) + [FAULTED]
      ensures disconnectedIdle == (old(disconnectedIdle) || old(state) != OPEN)
    {
      disconnectedIdle := disconnectedIdle || state != OPEN;
      ReleaseResource();
      OnClosed();
      SetState(FAULTED);
    }

    method Feed(data: Bytes)
      requires Valid()
      modifies this`inbound, this`fed
      ensures Valid() && inbound == old(inbound) + [data] && fed == old(fed) + data
    {
      FlatAppend(inbound, data);
      inbound := inbound + [data];
      fed := fed + data;
      assert fed == taken + Flat(inbound);
    }

    method FailNextOpen(error: Error)
      requires Valid()
      modifies this`failOpen
      ensures Valid() && failOpen == Some(Injection(error, true))
    {
      failOpen := Some(Injection(error, true));
    }

    method FailNextWrite(error: Error, fault: bool)
      requires Valid()
      modifies this`failWrite
      ensures Valid() && failWrite == Some(Injection(error, fault))
    {
      failWrite := Some(Injection(error, fault));
    }

    method FailNextRead(error: Error, fault: bool)
      requires Valid()
      modifies this`failRead
      ensures Valid() && failRead == Some(Injection(error, fault))
    {
      failRead := Some(Injection(error, fault));
    }

    // ---- transfers

    method Write(data: Bytes) returns (r: Result<nat>)
      requires Valid()
      modifies this`state, this`transitions, this`operations, this`held, this`releaseCount,
               this`inbound, this`fed, this`taken, this`failWrite, this`writeChunks
      ensures Valid()
      ensures writeChunks == old(writeChunks) + if r.Ok? then Chunks(data, ChunkSize(data)) else []
      ensures state == AfterIo(old(state), ExchangeOf(old(failWrite)))
      ensures failWrite == if old(state) == OPEN then None else old(failWrite)
      ensures r == if old(state) != OPEN then Err(NotConnectedError)
                   else if old(failWrite).Some? then Err(old(failWrite).value.error) else Ok(|data|)
      ensures operations == old(operations) + if r.Ok? then [WriteOp(data)] else []
      ensures state == OPEN || old(state) != OPEN ==> inbound == old(inbound) && taken == old(taken) && fed == old(fed)
      ensures old(state) == OPEN && state != OPEN ==> inbound == []
    {
      if state != OPEN { return Err(NotConnectedError); }
      var injection := failWrite;
      failWrite := None;
      if injection.Some? {
        if injection.value.fault { Fault(); }
        return Err(injection.value.error);
      }
      RecordChunks(data);
      operations := operations + [WriteOp(data)];
      r := Ok(|data|);
    }

    function ChunkSize(data: Bytes): (size: nat)
      ensures maxWriteChunk.None? ==> size >= |data|
    {
      if maxWriteChunk.Some? && maxWriteChunk.value > 0 then maxWriteChunk.value else if |data| > 1 then |data| else 1
    }

    method RecordChunks(data: Bytes)
      modifies this`writeChunks
      ensures writeChunks == old(writeChunks) + Chunks(data, ChunkSize(data))
    {
      var size := ChunkSize(data);
      var start := 0;
      assert data[0..] == data;
      while start < |data|
        invariant 0 <= start <= |data|
        invariant writeChunks + Chunks(data[start..], size) == old(writeChunks) + Chunks(data, size)
        decreases |data| - start
      {
        var end := Min(start + size, |data|);
        NextChunk(data, start, size, writeChunks);
        writeChunks := writeChunks + [data[start..end]];
        start := end;
      }
      assert data[start..] == [];
    }

    static function ExchangeOf(injection: Option<Injection>): Exchange {
      if injection.None? then Success else Failure(injection.value.fault)
    }

    /** Take `count` bytes off the front of the queue, splitting the last chunk if need be. */
    method Consume(count: nat) returns (data: Bytes)
      requires Valid() && count <= |Flat(inbound)|
      modifies this`inbound, this`taken
      ensures Valid()
      ensures data == old(Flat(inbound))[..count] && Flat(inbound) == old(Flat(inbound))[count..]
      ensures taken == old(taken) + data
    {
      hide Walk;
      data := [];
      var left := count;
      ghost var stream := Flat(inbound);
      while left > 0 && inbound != []
        invariant 0 <= left && |data| + left == count
        invariant data + Flat(inbound) == stream && taken == old(taken)
        decreases |inbound|, left
      {
        var chunk, rest := inbound[0], inbound[1..];
        assert inbound == [chunk] + rest;
        if |chunk| > left {
          SplitChunk(data, chunk, rest, left);
          data := data + chunk[..left];
          inbound := [chunk[left..]] + rest;
          left := 0;
          break;
        }
        MoveChunk(data, chunk, rest);
        data := data + chunk;
        inbound := rest;
        left := left - |chunk|;
      }
      if inbound == [] {
        assert Flat(inbound) == [];
      }
      Regroup(taken, data, Flat(inbound));
      assert stream[..count] == data && stream[count..] == Flat(inbound);
      taken := taken + data;
    }

    method TimedOut<T>() returns (r: Result<T>)
      requires Valid() && state == OPEN
      modifies this`state, this`transitions, this`held, this`releaseCount, this`inbound, this`fed, this`taken
      ensures Valid() && r == Err(TransportTimeoutError)
      ensures state == (if faultOnTimeout then FAULTED else OPEN)
      ensures faultOnTimeout ==> inbound == []
      ensures !faultOnTimeout ==> inbound == old(inbound) && taken == old(taken) && fed == old(fed)
    {
      if faultOnTimeout { Fault(); }
      r := Err(TransportTimeoutError);
    }

    /** What a read on the open transport with this queue returns. */
    ghost predicate Reads(stream: Bytes, head: Option<Bytes>, request: ReadRequest, r: Result<Bytes>)
      requires request.WellFormed()
    {
      if request.BackendDefinedMessage? then
        r == if head.None? then Err(TransportTimeoutError)
             else if |head.value| > request.maximumSize then Err(TransportError) else Ok(head.value)
      else if request.Available? && stream == [] && emptyWhenUnavailable then r == Ok([])
      else match FlatRead(stream, request)
           case Got(value, _) => r == Ok(value)
           case TooLarge => r == Err(TransportError)
           case Missing => r == Err(TransportTimeoutError)
    }

    method ReadMessage(maximumSize: nat) returns (r: Result<Bytes>)
      requires Valid() && state == OPEN && inbound != []
      modifies this`inbound, this`taken
      ensures Valid() && inbound == old(inbound)[1..] && taken == old(taken) + old(inbound)[0]
      ensures r == if |old(inbound)[0]| > maximumSize then Err(TransportError) else Ok(old(inbound)[0])
    {
      hide Walk;
      var message := inbound[0];
      assert fed == (taken + message) + Flat(inbound[1..]);
      inbound := inbound[1..];
      taken := taken + message;
      r := if |message| > maximumSize then Err(TransportError) else Ok(message);
    }

    /** The byte-stream modes: take what `FlatRead` says, or report why there is nothing to take. */
    method ReadStream(request: ReadRequest) returns (r: Result<Bytes>)
      requires Valid() && state == OPEN && request.WellFormed() && !request.BackendDefinedMessage?
      modifies this`inbound, this`taken
      ensures Valid()
      ensures var outcome := FlatRead(old(Flat(inbound)), request);
              && r == (match outcome case Got(value, _) => Ok(value)
                                     case TooLarge => Err(TransportError)
                                     case Missing => Err(TransportTimeoutError))
              && Flat(inbound) == old(Flat(inbound))[if outcome.Got? then outcome.used else 0..]
              && taken == old(taken) + old(Flat(inbound))[..if outcome.Got? then outcome.used else 0]
              && (r.Err? ==> inbound == old(inbound))
    {
      hide Walk, Find;
      var stream := Flat(inbound);
      match request
      case Available(maximumSize) =>
        if stream == [] { return Err(TransportTimeoutError); }
        r := Take(Min(|stream|, maximumSize));
      case ExactLength(length, _) =>
        if |stream| < length { return Err(TransportTimeoutError); }
        r := Take(length);
      case UpToLength(length, _) =>
        if stream == [] { return Err(TransportTimeoutError); }
        r := Take(Min(|stream|, length));
      case UntilTerminator(terminator, includeTerminator, maximumSize) =>
        var index := Find(stream, terminator, 0);
        if index < 0 { return Err(if |stream| >= maximumSize then TransportError else TransportTimeoutError); }
        var end := index + |terminator|;
        if end > maximumSize { return Err(TransportError); }
        var data := Consume(end);
        assert stream[..end][..end - |terminator|] == stream[..index];
        r := Ok(if includeTerminator then data else data[..|data| - |terminator|]);
    }

    method Take(count: nat) returns (r: Result<Bytes>)
      requires Valid() && count <= |Flat(inbound)|
      modifies this`inbound, this`taken
      ensures Valid()
      ensures r == Ok(old(Flat(inbound))[..count]) && Flat(inbound) == old(Flat(inbound))[count..]
      ensures taken == old(taken) + old(Flat(inbound))[..count]
    {
      var data := Consume(count);
      r := Ok(data);
    }

    method ReadBuffered(request: ReadRequest) returns (r: Result<Bytes>)
      requires Valid() && state == OPEN && request.WellFormed()
      modifies this`state, this`transitions, this`held, this`releaseCount, this`inbound, this`fed, this`taken
      ensures Valid()
      ensures Reads(old(Flat(inbound)), if old(inbound) == [] then None else Some(old(inbound)[0]), request, r)
      ensures request.BackendDefinedMessage? && old(inbound) != [] ==>
                inbound == old(inbound)[1..] && taken == old(taken) + old(inbound)[0]
      ensures r.Ok? && !request.BackendDefinedMessage? && old(Flat(inbound)) != [] ==>
                Flat(inbound) == old(Flat(inbound))[FlatRead(old(Flat(inbound)), request).used..]
      ensures state == if r == Err(TransportTimeoutError) && faultOnTimeout then FAULTED else OPEN
      ensures state == FAULTED ==> inbound == []
      ensures state == OPEN && r.Err? && !request.BackendDefinedMessage? ==> inbound == old(inbound)
      ensures r.Ok? ==> fed == old(fed) && old(taken) <= taken && r.value <= taken[|old(taken)|..]
      ensures r.Ok? && !request.BackendDefinedMessage? && old(Flat(inbound)) != [] ==>
                taken == old(taken) + old(Flat(inbound))[..FlatRead(old(Flat(inbound)), request).used]
    {
      hide Walk, Line;
      if request.BackendDefinedMessage? {
        if inbound == [] {
          r := TimedOut();
        } else {
          r := ReadMessage(request.maximumSize);
        }
        return;
      }
      if request.Available? && Flat(inbound) == [] && emptyWhenUnavailable {
        return Ok([]);
      }
      r := ReadStream(request);
      if r == Err(TransportTimeoutError) {
        r := TimedOut();
      }
    }

    method Read(request: ReadRequest) returns (r: Result<Bytes>)
      requires Valid() && request.WellFormed()
      modifies this`state, this`transitions, this`operations, this`held, this`releaseCount,
               this`inbound, this`fed, this`taken, this`failRead
      ensures Valid()
      ensures old(state) != OPEN ==>
                r == Err(NotConnectedError) && state == old(state) && inbound == old(inbound)
                    && failRead == old(failRead)
      ensures old(state) == OPEN && old(failRead).Some? ==>
                && r == Err(old(failRead).value.error)
                && if old(failRead).value.fault then state == FAULTED else state == OPEN && inbound == old(inbound)
      ensures old(state) == OPEN ==> failRead == None
      ensures old(state) == OPEN && old(failRead).None? ==>
                && Reads(old(Flat(inbound)), if old(inbound) == [] then None else Some(old(inbound)[0]), request, r)
                && (state == if r == Err(TransportTimeoutError) && faultOnTimeout then FAULTED else OPEN)
      ensures r.Ok? && request.BackendDefinedMessage? ==> old(inbound) != [] && r.value == old(inbound)[0]
      ensures r.Ok? && request.Available? && old(Flat(inbound)) == [] ==> r.value == [] && emptyWhenUnavailable
      ensures old(state) == OPEN && old(failRead).None? && request.BackendDefinedMessage? && old(inbound) != [] ==>
                inbound == old(inbound)[1..] && taken == old(taken) + old(inbound)[0]
      ensures old(state) == OPEN && state != OPEN ==> inbound == []
      ensures state == OPEN && r.Err? && !request.BackendDefinedMessage? ==> inbound == old(inbound)
      ensures operations == old(operations) + if r.Ok? then [ReadOp(r.value)] else []
      ensures r.Ok? ==> state == OPEN && fed == old(fed) && old(taken) <= taken && r.value <= taken[|old(taken)|..]
      ensures r.Ok? && !request.BackendDefinedMessage? && old(Flat(inbound)) != [] ==>
                && taken == old(taken) + old(Flat(inbound))[..FlatRead(old(Flat(inbound)), request).used]
                && Flat(inbound) == old(Flat(inbound))[FlatRead(old(Flat(inbound)), request).used..]
    {
      hide Walk, Line, Flat;
      if state != OPEN { return Err(NotConnectedError); }
      var injection := failRead;
      failRead := None;
      if injection.Some? {
        if injection.value.fault { Fault(); }
        return Err(injection.value.error);
      }
      r := ReadBuffered(request);
      if r.Ok? {
        operations := operations + [ReadOp(r.value)];
      }
    }

    /** Write then read, both out of one deadline; time may pass in between. */
    method Transact(outbound: Bytes, request: ReadRequest, timeout: Option<real>, clock: Clock)
      returns (r: Result<Bytes>)
      requires Valid() && request.WellFormed()
      modifies this`state, this`transitions, this`operations, this`held, this`releaseCount, this`writeChunks,
               this`inbound, this`fed, this`taken, this`failWrite, this`failRead, clock`now
      ensures Valid() && clock.now >= old(clock.now)
      ensures timeout.Some? && timeout.value <= 0.0 ==>
                r == Err(ConfigurationError) && state == old(state) && operations == old(operations)
                    && inbound == old(inbound)
      ensures !(timeout.Some? && timeout.value <= 0.0) && old(state) != OPEN ==>
                r == Err(NotConnectedError) && state == old(state) && operations == old(operations)
      ensures !(timeout.Some? && timeout.value <= 0.0) && old(state) == OPEN ==>
                var late := clock.now >= old(clock.now) + (if timeout.Some? then timeout.value else defaultTimeout);
                var wrote, faults := old(failWrite).None?, r == Err(TransportTimeoutError) && faultOnTimeout;
                && (!wrote ==> r == Err(old(failWrite).value.error))
                && (wrote && late ==> r == Err(TransportTimeoutError))
                && (wrote && !late && old(failRead).Some? ==> r == Err(old(failRead).value.error))
                && (wrote && !late && old(failRead).None? ==>
                      Reads(old(Flat(inbound)), if old(inbound) == [] then None else Some(old(inbound)[0]), request, r))
                && operations == old(operations) + (if wrote then [WriteOp(outbound)] else [])
                                 + (if r.Ok? then [ReadOp(r.value)] else [])
                && state == AfterTransact(Mock, OPEN,
                     if r.Ok? then Success
                     else Failure(faults || (if !wrote then old(failWrite).value.fault
                                             else !late && old(failRead).Some? && old(failRead).value.fault)))
    {
      var made := OperationDeadline(defaultTimeout, timeout, clock.now);
      if made.Err? { return Err(made.error); }
      var deadline := made.value;
      var written := Write(outbound);
      if written.Err? {
        r := Err(written.error);
      } else {
        clock.Pass();
        if deadline.Remaining(clock.now).Err? {
          r := Err(TransportTimeoutError);
        } else {
          r := Read(request);
        }
      }
      if r == Err(TransportTimeoutError) && faultOnTimeout {
        Invalidate();
      }
    }
  }
}
