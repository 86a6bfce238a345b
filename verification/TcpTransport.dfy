/** The raw TCP transport: an incremental reader over a stream that arrives in arbitrary pieces. */
module TcpTransports {
  import opened ByteStrings
  import opened Deadlines
  import opened Errors
  import opened Transports

  /** What connecting meets: a refusal, or a peer that will send `incoming` piece by piece. */
  datatype Endpoint = Refused | Peer(incoming: Bytes)

  /** A timeout argument: none stands for the transport's default, and one that is not positive is refused. */
  predicate Refuses(timeout: Option<real>) {
    timeout.Some? && timeout.value <= 0.0
  }

  class TcpTransport {
    const receiveChunkSize: nat
    const defaultTimeout: real
    const clock: Clock
    var state: State
    var held: bool
    var buffer: Bytes
    /** The network: what the peer has yet to deliver, and what it has accepted. */
    var incoming: Bytes
    var accepted: Bytes

    /** Since the socket was opened: everything delivered, and everything taken out by reads. */
    ghost var received: Bytes
    ghost var consumed: Bytes
    /** The largest size of the buffer so far. */
    ghost var peak: nat
    /** How many calls of the socket failed: a timeout, a disconnect, an error, or a send that took nothing. A call that
        could not be made because the deadline had passed counts too. */
    ghost var failures: nat

    ghost predicate Valid()
      reads this
    {
      && receiveChunkSize > 0 && defaultTimeout > 0.0
      && state != OPENING && state != CLOSING
      && (state == OPEN <==> held)
      && (state != OPEN ==> buffer == [])
      && (state == OPEN ==> received == consumed + buffer && |buffer| <= peak)
    }

    /** Everything a read may still see, if the peer delivers it. */
    function Flat(): Bytes
      reads this
    {
      buffer + incoming
    }

    /** The moment at which a transfer started now has to be over. */
    function EndOf(timeout: Option<real>): real
      reads clock
    {
      clock.now + if timeout.Some? then timeout.value else defaultTimeout
    }

    constructor (receiveChunkSize: nat, defaultTimeout: real, clock: Clock)
      requires receiveChunkSize > 0 && defaultTimeout > 0.0
      ensures Valid() && state == CREATED && fresh(this)
      ensures this.receiveChunkSize == receiveChunkSize && this.defaultTimeout == defaultTimeout && this.clock == clock
    {
      this.receiveChunkSize, this.defaultTimeout, this.clock := receiveChunkSize, defaultTimeout, clock;
      state, held, buffer, incoming, accepted := CREATED, false, [], [], [];
      received, consumed, peak, failures := [], [], 0, 0;
    }

    // ---- lifecycle

    method Open(endpoint: Endpoint) returns (r: Result<()>)
      requires Valid()
      modifies this
      ensures Valid() && state == AfterOpen(old(state), endpoint.Peer?)
      ensures r.Ok? <==> state == OPEN
      ensures old(state) == OPEN ==> Flat() == old(Flat()) && buffer == old(buffer) && consumed == old(consumed)
      ensures old(state) != OPEN && r.Ok? ==>
                buffer == [] && incoming == endpoint.incoming && consumed == received == []
    {
      if state == OPEN { return Ok(()); }
      state := OPENING;
      if endpoint.Refused? {
        state := FAULTED;
        return Err(TransportError);
      }
      held := true;
      incoming, accepted := endpoint.incoming, [];
      buffer := [];
      received, consumed, peak := [], [], 0;
      state := OPEN;
      r := Ok(());
    }

    /** Closing the socket may itself raise; `releaseRaises` is then what leaves the call, and the state is still
        CLOSED. */
    method Close(releaseRaises: bool) returns (r: Result<()>)
      requires Valid()
      modifies this
      ensures Valid() && state == AfterClose(old(state))
      ensures old(state) == OPEN ==> (r.Err? <==> releaseRaises)
      ensures old(state) != OPEN ==> r.Ok?
    {
      r := Ok(());
      if state == CREATED || state == CLOSED { return; }
      state := CLOSING;
      if held && releaseRaises { r := Err(TransportError); }
      held := false;
      buffer := [];
      state := CLOSED;
    }

    method Invalidate(releaseRaises: bool) returns (r: Result<()>)
      requires Valid()
      modifies this
      ensures Valid() && state == AfterInvalidate(old(state))
      ensures r.Err? ==> old(state) == OPEN && releaseRaises
    {
      r := Ok(());
      if state == OPEN {
        if releaseRaises { r := Err(TransportError); }
        Fault();
      }
    }

    /** The fault guard's handler: it runs from any state, and an exception of the release is suppressed. */
    method Fault()
      modifies this`state, this`held, this`buffer
      ensures state == FAULTED && !held && buffer == []
    {
      held := false;
      buffer := [];
      state := FAULTED;
    }

    // ---- the network

    /** `recv`: one or more bytes, at most `limit`; or a timeout, a disconnect, an error. How long it may take is set on
        the socket before. */
    method Recv(limit: nat) returns (r: Result<Bytes>)
      requires limit > 0
      modifies this`incoming, this`failures
      ensures failures == old(failures) + if r.Err? then 1 else 0
      ensures r.Ok? ==> 1 <= |r.value| <= limit && old(incoming) == r.value + incoming
      ensures r.Err? ==> incoming == old(incoming) && (r.error == TransportTimeoutError || r.error == TransportError)
    {
      failures := failures + 1;
      if * {
        return Err(TransportTimeoutError);
      } else if * {
        return Err(TransportError);
      }
      if incoming == [] { return Err(TransportTimeoutError); }
      failures := failures - 1;
      var n: nat :| 1 <= n <= limit && n <= |incoming|;
      r := Ok(incoming[..n]);
      incoming := incoming[n..];
    }

    /** `send`: how many bytes the peer's side took, possibly none. */
    method Send(data: Bytes) returns (r: Result<nat>)
      modifies this`accepted, this`failures
      ensures failures == old(failures) + if r.Err? || (r.value == 0 && data != []) then 1 else 0
      ensures r.Ok? ==> r.value <= |data| && accepted == old(accepted) + data[..r.value]
      ensures r.Err? ==> accepted == old(accepted)
    {
      if * {
        failures := failures + 1;
        return Err(TransportTimeoutError);
      }
      var n: nat :| n <= |data|;
      failures := failures + if n == 0 && data != [] then 1 else 0;
      accepted := accepted + data[..n];
      r := Ok(n);
    }

    // ---- the reader

    ghost predicate Reading()
      reads this
    {
      && receiveChunkSize > 0 && defaultTimeout > 0.0 && state == OPEN && held
      && received == consumed + buffer && |buffer| <= peak
    }

    /** The next chunk goes to the end of the buffer. */
    method Append(count: int) returns (r: Result<()>)
      requires Reading()
      modifies this`buffer, this`incoming, this`received, this`peak, this`failures
      ensures Reading() && Flat() == old(Flat())
      ensures r.Ok? ==> old(buffer) < buffer && |buffer| <= |old(buffer)| + Grow(count)
      ensures r.Err? ==> buffer == old(buffer) && received == old(received)
      ensures failures == old(failures) + if r.Err? then 1 else 0
      ensures old(peak) <= peak <= Top(old(peak), |buffer|)
      ensures received == old(received) + buffer[|old(buffer)|..] && old(buffer) <= buffer
    {
      var chunk := Recv(Grow(Min(count, receiveChunkSize)));
      if chunk.Err? { return Err(chunk.error); }
      assert (buffer + chunk.value) + incoming == old(Flat());
      buffer := buffer + chunk.value;
      received := received + chunk.value;
      peak := Top(peak, |buffer|);
      r := Ok(());
    }

    /** Wait for a chunk, for no longer than what remains until the deadline. */
    method Receive(count: int, deadline: Deadline) returns (r: Result<()>)
      requires Reading()
      modifies this`buffer, this`incoming, this`received, this`peak, this`failures, clock
      ensures Reading() && Flat() == old(Flat())
      ensures r.Ok? ==> old(buffer) < buffer && |buffer| <= |old(buffer)| + Grow(count)
      ensures r.Err? ==> buffer == old(buffer) && received == old(received)
      ensures failures == old(failures) + if r.Err? then 1 else 0
      ensures old(peak) <= peak <= Top(old(peak), |buffer|)
      ensures received == old(received) + buffer[|old(buffer)|..] && old(buffer) <= buffer
      ensures Timely(old(clock.now), old(clock.calls), deadline)
    {
      var left := deadline.Remaining(clock.now);
      if left.Err? {
        failures := failures + 1;
        return Err(left.error);
      }
      clock.Elapse(left.value);
      r := Append(count);
    }

    /** Time has gone on from `before`, not past the deadline unless it was over already, and no call was handed
        more than what remained. */
    ghost predicate Timely(before: real, calls: seq<real>, deadline: Deadline)
      reads clock
    {
      && before <= clock.now && (before <= deadline.endsAt ==> clock.now <= deadline.endsAt)
      && clock.HandedUntil(calls, deadline.endsAt)
    }

    static function Grow(count: int): nat {
      if count < 1 then 1 else count
    }

    static function Top(a: nat, b: nat): nat {
      if a < b then b else a
    }

    /** Take whatever has already arrived, without waiting. */
    method ReceiveAvailable(maximumSize: nat) returns (r: Result<()>)
      requires Reading()
      modifies this`buffer, this`incoming, this`received, this`peak, this`failures
      ensures Reading() && Flat() == old(Flat())
      ensures old(buffer) <= buffer && |buffer| <= Top(|old(buffer)|, maximumSize)
      ensures received == old(received) + buffer[|old(buffer)|..]
      ensures old(peak) <= peak <= Top(old(peak), Top(|old(buffer)|, maximumSize))
      ensures failures == old(failures) + if r.Err? then 1 else 0
    {
      while |buffer| < maximumSize
        invariant failures == old(failures)
        invariant Reading() && Flat() == old(Flat())
        invariant old(buffer) <= buffer && |buffer| <= Top(|old(buffer)|, maximumSize)
        invariant received == old(received) + buffer[|old(buffer)|..]
        invariant old(peak) <= peak <= Top(old(peak), Top(|old(buffer)|, maximumSize))
        decreases maximumSize - |buffer|
      {
        if * { break; }
        ghost var before := buffer;
        var got := Append(maximumSize - |buffer|);
        if got.Err? { return got; }
        assert buffer[|old(buffer)|..] == before[|old(buffer)|..] + buffer[|before|..];
      }
      r := Ok(());
    }

    method FillTo(count: nat, maximumSize: nat, deadline: Deadline) returns (r: Result<()>)
      requires Reading() && count <= maximumSize
      modifies this`buffer, this`incoming, this`received, this`peak, this`failures, clock
      ensures Reading() && Flat() == old(Flat())
      ensures r.Ok? ==> |buffer| >= count
      ensures |buffer| <= Top(|old(buffer)|, count)
      ensures old(peak) <= peak <= Top(old(peak), Top(|old(buffer)|, count))
      ensures Timely(old(clock.now), old(clock.calls), deadline)
      ensures failures == old(failures) + if r.Err? then 1 else 0
    {
      while |buffer| < count
        invariant failures == old(failures)
        invariant Timely(old(clock.now), old(clock.calls), deadline)
        invariant Reading() && Flat() == old(Flat())
        invariant |buffer| <= Top(|old(buffer)|, count)
        invariant old(peak) <= peak <= Top(old(peak), Top(|old(buffer)|, count))
        decreases count - |buffer|
      {
        r := Receive(count - |buffer|, deadline);
        if r.Err? { return; }
      }
      r := Ok(());
    }

    method Take(count: nat) returns (data: Bytes)
      requires Reading() && count <= |buffer|
      modifies this`buffer, this`consumed
      ensures Reading()
      ensures data == old(buffer)[..count] && buffer == old(buffer)[count..]
      ensures consumed == old(consumed) + data
      ensures data == old(Flat())[..count] && Flat() == old(Flat())[count..]
    {
      data := buffer[..count];
      buffer := buffer[count..];
      consumed := consumed + data;
      assert received == consumed + buffer;
    }

    /** The flat stream decides the request, and `r` is its outcome. */
    static predicate Decided(outcome: Outcome, r: Result<Bytes>) {
      && (outcome.Got? ==> r == Ok(outcome.value))
      && (outcome.TooLarge? ==> r == Err(TransportError))
      && !outcome.Missing?
    }

    /** What a read whose socket calls all succeed comes to. The modes that take what is there always succeed. */
    static predicate Answered(flat: Bytes, request: ReadRequest, r: Result<Bytes>)
      requires request.WellFormed() && !request.BackendDefinedMessage?
    {
      if request.UntilTerminator? || request.ExactLength? then Decided(FlatRead(flat, request), r) else r.Ok?
    }

    /** The terminated read: unless the socket fails, the outcome is the flat stream's. */
    method ReadLine(request: ReadRequest, deadline: Deadline) returns (r: Result<Bytes>)
      requires Reading() && request.WellFormed() && request.UntilTerminator?
      modifies this`buffer, this`incoming, this`received, this`consumed, this`peak, this`failures, clock
      ensures Reading() && Timely(old(clock.now), old(clock.calls), deadline)
      ensures failures == old(failures) ==> Decided(FlatRead(old(Flat()), request), r)
      ensures r.Ok? ==> failures == old(failures) && FlatRead(old(Flat()), request).Got? &&
                        var used := FlatRead(old(Flat()), request).used;
                        Flat() == old(Flat())[used..] && consumed == old(consumed) + old(Flat())[..used]
      ensures old(peak) <= peak <= Top(old(peak), Top(|old(buffer)|, request.maximumSize))
    {
      hide Find, Line, FlatRead;
      var t := request.terminator;
      var searchFrom := 0;
      while true
        invariant Reading() && Flat() == old(Flat()) && consumed == old(consumed) && failures == old(failures)
        invariant |buffer| <= Top(|old(buffer)|, request.maximumSize)
        invariant Timely(old(clock.now), old(clock.calls), deadline)
        invariant old(peak) <= peak <= Top(old(peak), Top(|old(buffer)|, request.maximumSize))
        invariant 0 <= searchFrom && Find(buffer, t, searchFrom) == Find(buffer, t, 0)
        decreases request.maximumSize - |buffer|
      {
        LineSettled(buffer, incoming, request);
        var end := Find(buffer, t, searchFrom);
        if end >= 0 {
          var count := end + |t|;
          if count > request.maximumSize { return Err(TransportError); }
          ghost var before := buffer;
          var data := Take(count);
          assert data[..|data| - |t|] == before[..end];
          return Ok(if request.includeTerminator then data else data[..|data| - |t|]);
        }
        if |buffer| >= request.maximumSize {
          return Err(TransportError);
        }
        searchFrom := if |buffer| - |t| + 1 > 0 then |buffer| - |t| + 1 else 0;
        ghost var before := buffer;
        var got := Receive(request.maximumSize - |buffer|, deadline);
        if got.Err? { return Err(got.error); }
        ResumedSearch(before, buffer[|before|..], t, searchFrom);
        assert buffer == before + buffer[|before|..];
      }
    }

    method ReadMode(request: ReadRequest, deadline: Deadline) returns (r: Result<Bytes>)
      requires Reading() && request.WellFormed() && !request.BackendDefinedMessage?
      modifies this`buffer, this`incoming, this`received, this`consumed, this`peak, this`failures, clock
      ensures Reading() && Timely(old(clock.now), old(clock.calls), deadline)
      ensures failures == old(failures) ==> Answered(old(Flat()), request, r)
      ensures r.Ok? ==> failures == old(failures) && Took(old(Flat()), old(consumed), request, r.value)
      ensures old(peak) <= peak <= Top(old(peak), Top(|old(buffer)|, request.maximumSize))
    {
      hide Find;
      match request
      case UntilTerminator(_, _, _) =>
        r := ReadLine(request, deadline);
      case ExactLength(length, maximumSize) =>
        var filled := FillTo(length, maximumSize, deadline);
        if filled.Err? { return Err(filled.error); }
        var data := Take(length);
        r := Ok(data);
      case UpToLength(length, maximumSize) =>
        r := ReadSome(Min(length, maximumSize), deadline);
      case Available(maximumSize) =>
        r := ReadSome(maximumSize, deadline);
    }

    /** A successful read took this value off the front of the flat stream. */
    ghost predicate Took(flat: Bytes, before: Bytes, request: ReadRequest, value: Bytes)
      requires request.WellFormed() && !request.BackendDefinedMessage?
      reads this
    {
      if request.UntilTerminator? || request.ExactLength? then
        var outcome := FlatRead(flat, request);
        && outcome.Got? && value == outcome.value
        && Flat() == flat[outcome.used..] && consumed == before + flat[..outcome.used]
      else
        var limit := if request.UpToLength? then request.length else request.maximumSize;
        && 1 <= |value| <= limit && (|value| == limit || buffer == [])
        && value <= flat && Flat() == flat[|value|..] && consumed == before + value
    }

    method ReadSome(limit: nat, deadline: Deadline) returns (r: Result<Bytes>)
      requires Reading() && limit > 0
      modifies this`buffer, this`incoming, this`received, this`consumed, this`peak, this`failures, clock
      ensures Reading() && Timely(old(clock.now), old(clock.calls), deadline)
      ensures r.Ok? <==> failures == old(failures)
      ensures r.Ok? ==>
                && 1 <= |r.value| <= limit && (|r.value| == limit || buffer == []) && r.value <= old(Flat())
                && Flat() == old(Flat())[|r.value|..] && consumed == old(consumed) + r.value
      ensures old(peak) <= peak <= Top(old(peak), Top(|old(buffer)|, limit))
    {
      if buffer == [] {
        var got := Receive(limit, deadline);
        if got.Err? { return Err(got.error); }
      }
      var more := ReceiveAvailable(limit);
      if more.Err? { return Err(more.error); }
      var data := Take(Min(limit, |buffer|));
      r := Ok(data);
    }

    method Read(request: ReadRequest, timeout: Option<real>) returns (r: Result<Bytes>)
      requires Valid() && request.WellFormed()
      modifies this, clock
      ensures Valid()
      ensures Refuses(timeout) ==> r == Err(ConfigurationError)
      ensures !Refuses(timeout) && old(state) != OPEN ==> r == Err(NotConnectedError)
      ensures !Refuses(timeout) && old(state) == OPEN && request.BackendDefinedMessage? ==>
                r == Err(UnsupportedOperationError)
      ensures Refuses(timeout) || old(state) != OPEN || request.BackendDefinedMessage? ==>
                && state == old(state) && Flat() == old(Flat()) && consumed == old(consumed)
                && clock.now == old(clock.now) && failures == old(failures)
      ensures !Refuses(timeout) && old(state) == OPEN && !request.BackendDefinedMessage? ==>
                && state == AfterIo(OPEN, if r.Ok? then Success else Failure(true))
                && (failures == old(failures) ==> Answered(old(Flat()), request, r))
                && (r.Ok? ==> Took(old(Flat()), old(consumed), request, r.value) && failures == old(failures))
      ensures !Refuses(timeout) ==> Timely(old(clock.now), old(clock.calls), Deadline(old(EndOf(timeout))))
      ensures old(peak) <= peak <= Top(old(peak), Top(|old(buffer)|, request.maximumSize))
      ensures accepted == old(accepted)
    {
      if Refuses(timeout) { return Err(ConfigurationError); }
      if state != OPEN { return Err(NotConnectedError); }
      if request.BackendDefinedMessage? { return Err(UnsupportedOperationError); }
      r := ReadMode(request, Deadline(EndOf(timeout)));
      if r.Err? { Fault(); }
    }

    // ---- the writer

    method Write(data: Bytes, timeout: Option<real>) returns (r: Result<nat>)
      requires Valid()
      modifies this, clock
      ensures Valid()
      ensures Refuses(timeout) ==> r == Err(ConfigurationError)
      ensures !Refuses(timeout) && old(state) != OPEN ==> r == Err(NotConnectedError)
      ensures Refuses(timeout) || old(state) != OPEN ==>
                state == old(state) && accepted == old(accepted) && failures == old(failures)
                    && clock.now == old(clock.now)
      ensures !Refuses(timeout) && old(state) == OPEN ==>
                && state == AfterIo(OPEN, if r.Ok? then Success else Failure(true))
                && (r.Ok? ==> r.value == |data| && accepted == old(accepted) + data)
                && (r.Err? ==> old(accepted) <= accepted <= old(accepted) + data)
                && (r.Ok? <==> failures == old(failures))
      ensures !Refuses(timeout) ==> Timely(old(clock.now), old(clock.calls), Deadline(old(EndOf(timeout))))
      ensures state == OPEN ==> buffer == old(buffer) && incoming == old(incoming)
                                && consumed == old(consumed) && peak == old(peak)
    {
      if Refuses(timeout) { return Err(ConfigurationError); }
      if state != OPEN { return Err(NotConnectedError); }
      var deadline := Deadline(EndOf(timeout));
      var sent := 0;
      while sent < |data|
        invariant 0 <= sent <= |data| && accepted == old(accepted) + data[..sent]
        invariant Reading() && buffer == old(buffer) && incoming == old(incoming)
        invariant consumed == old(consumed) && peak == old(peak) && failures == old(failures)
        invariant Timely(old(clock.now), old(clock.calls), deadline)
        decreases |data| - sent
      {
        var count := SendBy(data[sent..], deadline);
        if count.Err? {
          Fault();
          return Err(count.error);
        }
        assert accepted == old(accepted) + (data[..sent] + data[sent..][..count.value]);
        assert data[..sent] + data[sent..][..count.value] == data[..sent + count.value];
        if count.value == 0 {
          Fault();
          return Err(TransportError);
        }
        sent := sent + count.value;
      }
      assert data[..sent] == data;
      r := Ok(sent);
    }

    /** One `send`, for no longer than what remains until the deadline. */
    method SendBy(data: Bytes, deadline: Deadline) returns (r: Result<nat>)
      requires data != []
      modifies this`accepted, this`failures, clock
      ensures failures == old(failures) + if r.Err? || r.value == 0 then 1 else 0
      ensures r.Ok? ==> r.value <= |data| && accepted == old(accepted) + data[..r.value]
      ensures r.Err? ==> accepted == old(accepted)
      ensures Timely(old(clock.now), old(clock.calls), deadline)
    {
      var left := deadline.Remaining(clock.now);
      if left.Err? {
        failures := failures + 1;
        return Err(left.error);
      }
      clock.Elapse(left.value);
      r := Send(data);
    }

    /** One deadline over both transfers. The open checks, and the check of the timeout, are inside this call's
        own fault guard. */
    method Transact(outbound: Bytes, request: ReadRequest, timeout: Option<real>) returns (r: Result<Bytes>)
      requires Valid() && request.WellFormed()
      modifies this, clock
      ensures Valid() && state == AfterTransact(Tcp, old(state), if r.Ok? then Success else Failure(true))
      ensures Refuses(timeout) ==> r == Err(ConfigurationError)
      ensures !Refuses(timeout) && old(state) != OPEN ==> r == Err(NotConnectedError)
      ensures r.Ok? ==> accepted == old(accepted) + outbound
                        && !request.BackendDefinedMessage? && Took(old(Flat()), old(consumed), request, r.value)
      ensures !Refuses(timeout) ==> Timely(old(clock.now), old(clock.calls), Deadline(old(EndOf(timeout))))
      ensures !Refuses(timeout) && old(state) == OPEN && failures == old(failures)
              && clock.now < old(EndOf(timeout)) ==>
                if request.BackendDefinedMessage? then r == Err(UnsupportedOperationError)
                else Answered(old(Flat()), request, r)
    {
      if Refuses(timeout) {
        Fault();
        return Err(ConfigurationError);
      }
      var deadline := Deadline(EndOf(timeout));
      var written := Write(outbound, Some(deadline.Remaining(clock.now).value));
      if written.Err? {
        r := Err(written.error);
      } else {
        var left := deadline.Remaining(clock.now);
        if left.Err? {
          r := Err(left.error);
        } else {
          r := Read(request, Some(left.value));
        }
      }
      if r.Err? { Fault(); }
    }
  }
}
