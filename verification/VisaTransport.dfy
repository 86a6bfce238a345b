/** The VISA transport: the same buffered reads over a backend that delivers whole messages, under one deadline. */
module VisaTransports {
  import opened ByteStrings
  import opened Deadlines
  import opened Errors
  import opened Transports

  /** The outcome of a terminated read that fetches whole messages until the terminator is in the buffer. */
  function MessageLine(buffer: Bytes, messages: seq<Bytes>, request: ReadRequest): (r: Outcome)
    requires request.UntilTerminator? && request.WellFormed()
    ensures r.Got? ==> r.used <= |buffer| + |Flat(messages)|
    decreases |messages|
  {
    if Find(buffer, request.terminator, 0) >= 0 || |buffer| >= request.maximumSize then Line(buffer, request)
    else if messages == [] then Missing
    else if |messages[0]| > request.maximumSize - |buffer| then TooLarge
    else MessageLine(buffer + messages[0], messages[1..], request)
  }

  /** One round of the reader: it is settled by the buffer, or by the next message being too long, or goes on with
      that message. */
  lemma MessageLineRound(buffer: Bytes, messages: seq<Bytes>, request: ReadRequest)
    requires request.UntilTerminator? && request.WellFormed()
    ensures var settled := Find(buffer, request.terminator, 0) >= 0 || |buffer| >= request.maximumSize;
            && (settled ==> MessageLine(buffer, messages, request) == Line(buffer, request))
            && (!settled && messages != [] ==>
                  MessageLine(buffer, messages, request)
                  == if |messages[0]| > request.maximumSize - |buffer| then TooLarge
                     else MessageLine(buffer + messages[0], messages[1..], request))
  {
    hide Find;
  }

  /** How long the buffer gets when whole messages are fetched until it holds `end` bytes. */
  function Fetched(buffer: Bytes, messages: seq<Bytes>, end: nat): nat
    decreases |messages|
  {
    if end <= |buffer| || messages == [] then |buffer|
    else Fetched(buffer + messages[0], messages[1..], end)
  }

  lemma {:induction false} FetchedGrows(buffer: Bytes, messages: seq<Bytes>, end: nat)
    ensures Fetched(buffer, messages, end) >= |buffer|
    decreases |messages|
  {
    if !(end <= |buffer| || messages == []) {
      FetchedGrows(buffer + messages[0], messages[1..], end);
    }
  }

  /** Where the flat stream has a line within the bound, this read succeeds exactly when the line is already buffered
      or the messages that complete it fit the bound as a whole. Otherwise it never succeeds. */
  lemma {:induction false} MessageLineExactly(buffer: Bytes, messages: seq<Bytes>, request: ReadRequest)
    requires request.UntilTerminator? && request.WellFormed()
    ensures var flat := FlatRead(buffer + Flat(messages), request);
            MessageLine(buffer, messages, request).Got? <==>
            flat.Got? && (flat.used <= |buffer| || Fetched(buffer, messages, flat.used) <= request.maximumSize)
    ensures MessageLine(buffer, messages, request).Got? ==>
              MessageLine(buffer, messages, request) == FlatRead(buffer + Flat(messages), request)
    decreases |messages|
  {
    hide Find;
    var all := buffer + Flat(messages);
    if Find(buffer, request.terminator, 0) >= 0 || |buffer| >= request.maximumSize {
      FlatReadIsStable(buffer, Flat(messages), request);
      if Find(buffer, request.terminator, 0) < 0 {
        assert FlatRead(all, request).TooLarge?;
      }
    } else if messages == [] {
      assert all == buffer;
    } else {
      var next := buffer + messages[0];
      assert all == next + Flat(messages[1..]);
      MessageLineExactly(next, messages[1..], request);
      LineEndsBehind(buffer, Flat(messages), request);
      var flat := FlatRead(all, request);
      if flat.Got? {
        FetchedGrows(next, messages[1..], flat.used);
      }
    }
  }

  /** A line that a byte stream would give back is refused here when its message runs over the bound. */
  lemma LineInLongMessageIsRefused()
    ensures var request := UntilTerminator([NL], true, 2); var messages: seq<Bytes> := [[NL, SPACE, SPACE]];
            FlatRead(Flat(messages), request) == Got([NL], 1) && MessageLine([], messages, request) == TooLarge
  {
    var messages: seq<Bytes> := [[NL, SPACE, SPACE]];
    assert Flat(messages) == messages[0] + Flat([]);
    assert OccursAt(Flat(messages), [NL], 0);
  }

  lemma LineEndsBehind(buffer: Bytes, more: Bytes, request: ReadRequest)
    requires request.UntilTerminator? && request.WellFormed() && Find(buffer, request.terminator, 0) < 0
    ensures FlatRead(buffer + more, request).Got? ==> FlatRead(buffer + more, request).used > |buffer|
  {
    var t := request.terminator;
    var at := Find(buffer + more, t, 0);
    if at >= 0 && at + |t| <= |buffer| {
      PrefixOccurs(buffer, more, t);
      assert OccursAt(buffer, t, at);
    }
  }

  class VisaTransport {
    const chunkSize: nat
    const messageBased: bool
    const clock: Clock
    var state: State
    var held: bool
    var buffer: Bytes
    /** The backend: messages it will deliver, and bytes it has accepted. */
    var messages: seq<Bytes>
    var accepted: Bytes
    ghost var consumed: Bytes
    ghost var received: Bytes
    /** How many backend calls failed, or could not be made because the deadline had passed. */
    ghost var failures: nat

    ghost predicate Valid()
      reads this
    {
      && chunkSize > 0
      && state != OPENING && state != CLOSING
      && (state == OPEN <==> held)
      && (state != OPEN ==> buffer == [])
      && (state == OPEN ==> Reading())
    }

    ghost predicate Reading()
      reads this
    {
      && chunkSize > 0 && state == OPEN && held
      && received == consumed + buffer
      && forall m | m in messages :: m != []
    }

    function Stream(): Bytes
      reads this
    {
      buffer + Flat(messages)
    }

    constructor (chunkSize: nat, messageBased: bool, clock: Clock)
      requires chunkSize > 0
      ensures Valid() && state == CREATED && fresh(this)
      ensures this.chunkSize == chunkSize && this.messageBased == messageBased && this.clock == clock
    {
      this.chunkSize, this.messageBased, this.clock := chunkSize, messageBased, clock;
      state, held, buffer, messages, accepted := CREATED, false, [], [], [];
      consumed, received, failures := [], [], 0;
    }

    /** `device` is what the opened resource will deliver; without it, opening fails. */
    method Open(device: Option<seq<Bytes>>) returns (r: Result<()>)
      requires Valid() && (device.Some? ==> forall m | m in device.value :: m != [])
      modifies this
      ensures Valid() && state == AfterOpen(old(state), device.Some?)
      ensures r.Ok? <==> state == OPEN
      ensures old(state) != OPEN && r.Ok? ==> buffer == [] && messages == device.value && consumed == received == []
    {
      if state == OPEN { return Ok(()); }
      state := OPENING;
      buffer := [];
      if device.None? {
        state := FAULTED;
        return Err(TransportError);
      }
      held, messages, accepted := true, device.value, [];
      consumed, received := [], [];
      state := OPEN;
      r := Ok(());
    }

    method Close()
      requires Valid()
      modifies this
      ensures Valid() && state == AfterClose(old(state))
    {
      if state == CREATED || state == CLOSED { return; }
      state := CLOSING;
      held, buffer := false, [];
      state := CLOSED;
    }

    method Fault()
      modifies this`state, this`held, this`buffer
      ensures state == FAULTED && !held && buffer == []
    {
      held, buffer := false, [];
      state := FAULTED;
    }

    // ---- the backend

    /** One low-level read: a piece of the first message, and whether more of that message follows.
        It returns within what is left of the deadline. */
    method Fetch(want: nat, deadline: Deadline) returns (r: Result<Bytes>, more: bool)
      requires Reading() && want > 0
      modifies this`messages, this`failures, clock
      ensures old(clock.now) <= clock.now && (old(clock.now) <= deadline.endsAt ==> clock.now <= deadline.endsAt)
      ensures failures == old(failures) + if r.Err? then 1 else 0
      ensures clock.calls == old(clock.calls) || clock.calls == old(clock.calls) + [deadline.endsAt]
      ensures r.Err? ==> messages == old(messages) && (r.error == TransportTimeoutError || r.error == TransportError)
      ensures r.Ok? ==>
                && 1 <= |r.value| <= want
                && old(messages) != []
                && r.value <= old(messages)[0]
                && (more <==> |r.value| < |old(messages)[0]|)
                && messages == (if more then [old(messages)[0][|r.value|..]] else []) + old(messages)[1..]
                && (forall m | m in messages :: m != [])
                && Flat(old(messages)) == r.value + Flat(messages)
    {
      more := false;
      failures := failures + 1;
      var left := deadline.Remaining(clock.now);
      if left.Err? { return Err(left.error), more; }
      clock.Elapse(left.value);
      if * {
        return Err(TransportError), more;
      }
      if messages == [] { return Err(TransportTimeoutError), more; }
      failures := failures - 1;
      var head, tail := messages[0], messages[1..];
      assert messages == [head] + tail && head in messages;
      assert 1 <= 1 <= want && 1 <= |head|;
      var n: nat :| 1 <= n <= want && n <= |head|;
      r := Ok(head[..n]);
      more := n < |head|;
      FlatSplit(head, tail, n);
      assert forall m | m in tail :: m in messages;
      messages := (if more then [head[n..]] else []) + tail;
    }

    static lemma FlatSplit(head: Bytes, tail: seq<Bytes>, n: nat)
      requires n <= |head|
      ensures Flat([head] + tail) == head[..n] + Flat((if n < |head| then [head[n..]] else []) + tail)
    {
      assert ([head] + tail)[1..] == tail;
      if n < |head| {
        assert ([head[n..]] + tail)[1..] == tail;
        assert head + Flat(tail) == head[..n] + (head[n..] + Flat(tail));
      } else {
        assert [] + tail == tail;
      }
    }

    /** One whole message of at most `maximumSize` bytes. */
    method ReadMessageBounded(maximumSize: nat, deadline: Deadline) returns (r: Result<Bytes>)
      requires Reading()
      modifies this`messages, this`failures, clock
      ensures Reading()
      ensures old(clock.now) <= clock.now && (old(clock.now) <= deadline.endsAt ==> clock.now <= deadline.endsAt)
      ensures failures == old(failures) ==>
                && old(messages) != []
                && r == if |old(messages)[0]| > maximumSize then Err(TransportError) else Ok(old(messages)[0])
      ensures r.Ok? ==> failures == old(failures) && messages == old(messages)[1..]
    {
      var out: Bytes := [];
      while true
        invariant forall m | m in messages :: m != []
        invariant |out| <= maximumSize && failures == old(failures)
        invariant out == [] ==> messages == old(messages)
        invariant out != [] ==> old(messages) != [] && messages != [] && out + messages[0] == old(messages)[0]
                                && messages[1..] == old(messages)[1..]
        invariant old(clock.now) <= clock.now && (old(clock.now) <= deadline.endsAt ==> clock.now <= deadline.endsAt)
        decreases maximumSize - |out|
      {
        var want := Min(chunkSize, maximumSize + 1 - |out|);
        if want <= 0 { return Err(TransportError); }
        ghost var before := messages;
        var chunk, more := Fetch(want, deadline);
        if chunk.Err? { return Err(chunk.error); }
        ghost var head := old(messages)[0];
        assert out + before[0] == head;
        assert out + chunk.value <= head;
        assert more ==> out + chunk.value + before[0][|chunk.value|..] == head;
        out := out + chunk.value;
        if |out| > maximumSize { return Err(TransportError); }
        if !more {
          assert out == head;
          assert [] + before[1..] == before[1..];
          return Ok(out);
        }
      }
    }

    method Take(count: nat) returns (data: Bytes)
      requires Reading() && count <= |buffer|
      modifies this`buffer, this`consumed
      ensures Reading()
      ensures data == old(buffer)[..count] && buffer == old(buffer)[count..]
      ensures consumed == old(consumed) + data
      ensures data == old(Stream())[..count] && Stream() == old(Stream())[count..]
    {
      data := buffer[..count];
      buffer := buffer[count..];
      consumed := consumed + data;
    }

    /** Append the next whole message to the buffer, if it fits into `room`. */
    method Extend(room: nat, deadline: Deadline) returns (r: Result<()>)
      requires Reading()
      modifies this`buffer, this`messages, this`received, this`failures, clock
      ensures Reading()
      ensures old(clock.now) <= clock.now && (old(clock.now) <= deadline.endsAt ==> clock.now <= deadline.endsAt)
      ensures failures == old(failures) ==>
                old(messages) != [] && r == if |old(messages)[0]| > room then Err(TransportError) else Ok(())
      ensures r.Ok? ==>
                && failures == old(failures)
                && buffer == old(buffer) + old(messages)[0] && messages == old(messages)[1..]
                    && Stream() == old(Stream())
    {
      ghost var before := messages;
      var message := ReadMessageBounded(room, deadline);
      if message.Err? { return Err(message.error); }
      assert Flat(before) == message.value + Flat(messages);
      Regroup(buffer, message.value, Flat(messages));
      Regroup(consumed, buffer, message.value);
      buffer := buffer + message.value;
      received := received + message.value;
      r := Ok(());
    }

    /** The messages decide the request, and `r` is its outcome. */
    static predicate Decided(outcome: Outcome, r: Result<Bytes>) {
      && (outcome.Got? ==> r == Ok(outcome.value))
      && (outcome.TooLarge? ==> r == Err(TransportError))
      && !outcome.Missing?
    }

    method ReadLine(request: ReadRequest, deadline: Deadline) returns (r: Result<Bytes>)
      requires Reading() && request.WellFormed() && request.UntilTerminator?
      modifies this`buffer, this`messages, this`received, this`consumed, this`failures, clock
      ensures Reading()
      ensures old(clock.now) <= clock.now && (old(clock.now) <= deadline.endsAt ==> clock.now <= deadline.endsAt)
      ensures failures == old(failures) ==> Decided(MessageLine(old(buffer), old(messages), request), r)
      ensures r.Ok? ==>
                && failures == old(failures) && MessageLine(old(buffer), old(messages), request).Got?
                && var used := MessageLine(old(buffer), old(messages), request).used;
                   Stream() == old(Stream())[used..] && consumed == old(consumed) + old(Stream())[..used]
    {
      hide Find, MessageLine;
      var t := request.terminator;
      var searchFrom := 0;
      while true
        invariant failures == old(failures) && Reading() && Stream() == old(Stream()) && consumed == old(consumed)
        invariant old(clock.now) <= clock.now && (old(clock.now) <= deadline.endsAt ==> clock.now <= deadline.endsAt)
        invariant 0 <= searchFrom && Find(buffer, t, searchFrom) == Find(buffer, t, 0)
        invariant MessageLine(buffer, messages, request) == MessageLine(old(buffer), old(messages), request)
        decreases |messages|
      {
        MessageLineRound(buffer, messages, request);
        var index := Find(buffer, t, searchFrom);
        if index >= 0 {
          var end := index + |t|;
          if end > request.maximumSize { return Err(TransportError); }
          ghost var before := buffer;
          var data := Take(end);
          assert data[..|data| - |t|] == before[..index];
          return Ok(if request.includeTerminator then data else data[..|data| - |t|]);
        }
        if |buffer| >= request.maximumSize { return Err(TransportError); }
        searchFrom := if |buffer| - |t| + 1 > 0 then |buffer| - |t| + 1 else 0;
        if messages != [] { ResumedSearch(buffer, messages[0], t, searchFrom); }
        var extended := Extend(request.maximumSize - |buffer|, deadline);
        if extended.Err? { return Err(extended.error); }
      }
    }

    /** The counted modes: keep fetching until `count` bytes are buffered. */
    method FillTo(count: nat, deadline: Deadline) returns (r: Result<()>)
      requires Reading()
      modifies this`buffer, this`messages, this`received, this`failures, clock
      ensures Reading() && Stream() == old(Stream()) && (r.Ok? ==> |buffer| >= count)
      ensures |buffer| <= if |old(buffer)| < count then count else |old(buffer)|
      ensures r.Ok? <==> failures == old(failures)
      ensures old(clock.now) <= clock.now && (old(clock.now) <= deadline.endsAt ==> clock.now <= deadline.endsAt)
    {
      while |buffer| < count
        invariant Reading() && Stream() == old(Stream())
        invariant |buffer| <= if |old(buffer)| < count then count else |old(buffer)|
        invariant failures == old(failures)
        invariant old(clock.now) <= clock.now && (old(clock.now) <= deadline.endsAt ==> clock.now <= deadline.endsAt)
        decreases count - |buffer|
      {
        var chunk, more := Fetch(Min(chunkSize, count - |buffer|), deadline);
        if chunk.Err? { return Err(chunk.error); }
        Regroup(buffer, chunk.value, Flat(messages));
        Regroup(consumed, buffer, chunk.value);
        buffer := buffer + chunk.value;
        received := received + chunk.value;
      }
      r := Ok(());
    }

    method ReadSome(limit: nat, deadline: Deadline) returns (r: Result<Bytes>)
      requires Reading() && limit > 0
      modifies this`buffer, this`messages, this`received, this`consumed, this`failures, clock
      ensures Reading()
      ensures r.Ok? ==> Front(old(Stream()), old(consumed), r.value) && 1 <= |r.value| <= limit
      ensures r.Ok? ==> |r.value| == limit || buffer == []
      ensures r.Ok? <==> failures == old(failures)
      ensures old(clock.now) <= clock.now && (old(clock.now) <= deadline.endsAt ==> clock.now <= deadline.endsAt)
    {
      if buffer == [] {
        var chunk, more := Fetch(Min(chunkSize, limit), deadline);
        if chunk.Err? { return Err(chunk.error); }
        Regroup(buffer, chunk.value, Flat(messages));
        Regroup(consumed, buffer, chunk.value);
        buffer := buffer + chunk.value;
        received := received + chunk.value;
      }
      var data := Take(Min(|buffer|, limit));
      r := Ok(data);
    }

    /** `value` was taken off the front of the stream, and nothing else. */
    ghost predicate Front(stream: Bytes, before: Bytes, value: Bytes)
      reads this
    {
      value <= stream && Stream() == stream[|value|..] && consumed == before + value
    }

    static predicate MessageRead(buffer: Bytes, messages: seq<Bytes>, maximumSize: nat, r: Result<Bytes>) {
      if buffer != [] then r == Ok(buffer[..Min(|buffer|, maximumSize)])
      else messages != [] && r == if |messages[0]| > maximumSize then Err(TransportError) else Ok(messages[0])
    }

    /** What a read whose backend calls all succeed in time comes to. */
    predicate Answered(buffer: Bytes, messages: seq<Bytes>, request: ReadRequest, r: Result<Bytes>)
      requires request.WellFormed()
    {
      match request
      case UntilTerminator(_, _, _) => Decided(MessageLine(buffer, messages, request), r)
      case BackendDefinedMessage(maximumSize) =>
        if messageBased then MessageRead(buffer, messages, maximumSize, r) else r == Err(TransportError)
      case _ => r.Ok?
    }

    /** A whole backend message, or what an earlier read left of one. */
    method ReadBackendMessage(maximumSize: nat, deadline: Deadline) returns (r: Result<Bytes>)
      requires Reading() && maximumSize > 0
      modifies this`buffer, this`messages, this`received, this`consumed, this`failures, clock
      ensures Reading()
      ensures old(clock.now) <= clock.now && (old(clock.now) <= deadline.endsAt ==> clock.now <= deadline.endsAt)
      ensures r.Ok? ==> Front(old(Stream()), old(consumed), r.value)
      ensures r.Ok? && old(buffer) != [] ==> |r.value| == maximumSize || buffer == []
      ensures failures == old(failures) ==> MessageRead(old(buffer), old(messages), maximumSize, r)
      ensures r.Ok? ==> failures == old(failures)
    {
      if buffer != [] {
        var data := Take(Min(|buffer|, maximumSize));
        return Ok(data);
      }
      r := ReadMessageBounded(maximumSize, deadline);
      if r.Ok? {
        received := received + r.value;
        consumed := consumed + r.value;
        assert old(Stream()) == r.value + Flat(messages);
      }
    }

    /** What a successful read returned, in terms of the stream and the messages it found. */
    ghost predicate Took(stream: Bytes, oldBuffer: Bytes, oldMessages: seq<Bytes>, before: Bytes,
                         request: ReadRequest, value: Bytes)
      requires request.WellFormed()
      reads this
    {
      match request
      case UntilTerminator(_, _, _) =>
        var outcome := MessageLine(oldBuffer, oldMessages, request);
        && outcome.Got? && value == outcome.value
        && outcome.used <= |stream| && Stream() == stream[outcome.used..] && consumed == before + stream[..outcome.used]
      case ExactLength(length, _) =>
        |value| == length && Front(stream, before, value)
      case UpToLength(length, _) =>
        1 <= |value| <= length && (|value| == length || buffer == []) && Front(stream, before, value)
      case Available(maximumSize) =>
        1 <= |value| <= maximumSize && (|value| == maximumSize || buffer == []) && Front(stream, before, value)
      case BackendDefinedMessage(maximumSize) =>
        && messageBased && |value| <= maximumSize && Front(stream, before, value)
        && (oldBuffer == [] ==> oldMessages != [] && value == oldMessages[0])
        && (oldBuffer != [] ==> |value| == maximumSize || buffer == [])
    }

    method ReadMode(request: ReadRequest, deadline: Deadline) returns (r: Result<Bytes>)
      requires Reading() && request.WellFormed()
      modifies this`buffer, this`messages, this`received, this`consumed, this`failures, clock
      ensures Reading()
      ensures old(clock.now) <= clock.now && (old(clock.now) <= deadline.endsAt ==> clock.now <= deadline.endsAt)
      ensures r.Ok? ==> Took(old(Stream()), old(buffer), old(messages), old(consumed), request, r.value)
      ensures failures == old(failures) ==> Answered(old(buffer), old(messages), request, r)
    {
      hide Find, MessageLine;
      match request
      case UntilTerminator(_, _, _) =>
        r := ReadLine(request, deadline);
      case ExactLength(length, _) =>
        var filled := FillTo(length, deadline);
        if filled.Err? { return Err(filled.error); }
        var data := Take(length);
        r := Ok(data);
      case UpToLength(length, maximumSize) =>
        r := ReadSome(Min(length, maximumSize), deadline);
      case Available(maximumSize) =>
        r := ReadSome(maximumSize, deadline);
      case BackendDefinedMessage(maximumSize) =>
        // the refusal is raised inside the fault guard and leaves it as a transport error
        if !messageBased { return Err(TransportError); }
        r := ReadBackendMessage(maximumSize, deadline);
    }

    method Read(request: ReadRequest, timeout: real) returns (r: Result<Bytes>)
      requires Valid() && request.WellFormed()
      modifies this, clock
      ensures Valid()
      ensures timeout <= 0.0 ==> r == Err(ConfigurationError)
      ensures timeout > 0.0 && old(state) != OPEN ==> r == Err(NotConnectedError)
      ensures timeout <= 0.0 || old(state) != OPEN ==>
                && state == old(state) && clock.now == old(clock.now)
                && Stream() == old(Stream()) && failures == old(failures)
      ensures timeout > 0.0 && old(state) == OPEN ==> state == AfterIo(OPEN, if r.Ok? then Success else Failure(true))
      ensures r.Ok? ==> Took(old(Stream()), old(buffer), old(messages), old(consumed), request, r.value)
      ensures timeout > 0.0 ==> old(clock.now) <= clock.now <= old(clock.now) + timeout
      ensures r.Ok? ==> clock.now < old(clock.now) + timeout
      ensures state == OPEN ==> accepted == old(accepted)
      ensures timeout > 0.0 && old(state) == OPEN
              && failures == old(failures) && clock.now < old(clock.now) + timeout ==>
                Answered(old(buffer), old(messages), request, r)
    {
      if timeout <= 0.0 { return Err(ConfigurationError); }
      if state != OPEN { return Err(NotConnectedError); }
      var deadline := Deadline(clock.now + timeout);
      r := ReadMode(request, deadline);
      if r.Ok? && deadline.Remaining(clock.now).Err? {
        r := Err(TransportTimeoutError);
      }
      if r.Err? { Fault(); }
    }

    /** The write loop: every round hands the backend what is left of one deadline and must make progress. */
    method Write(data: Bytes, timeout: real) returns (r: Result<nat>)
      requires Valid()
      modifies this, clock
      ensures Valid()
      ensures timeout <= 0.0 ==> r == Err(ConfigurationError)
      ensures timeout > 0.0 && old(state) != OPEN ==> r == Err(NotConnectedError)
      ensures timeout <= 0.0 || old(state) != OPEN ==>
                && state == old(state) && accepted == old(accepted)
                && failures == old(failures) && clock.now == old(clock.now)
      ensures timeout > 0.0 && old(state) == OPEN ==>
                && state == AfterIo(OPEN, if r.Ok? then Success else Failure(true))
                && (r.Ok? ==> r.value == |data| && accepted == old(accepted) + data)
                && (r.Err? ==> old(accepted) <= accepted <= old(accepted) + data)
                && (failures == old(failures) && clock.now < old(clock.now) + timeout ==> r.Ok?)
                && (r.Ok? ==> failures == old(failures))
      ensures state == OPEN ==> buffer == old(buffer) && messages == old(messages) && consumed == old(consumed)
      ensures timeout > 0.0 ==> old(clock.now) <= clock.now <= old(clock.now) + timeout
      ensures r.Ok? ==> clock.now < old(clock.now) + timeout
    {
      if timeout <= 0.0 { return Err(ConfigurationError); }
      if state != OPEN { return Err(NotConnectedError); }
      var deadline := Deadline(clock.now + timeout);
      var sent := 0;
      while sent < |data|
        invariant 0 <= sent <= |data| && accepted == old(accepted) + data[..sent]
        invariant Reading() && buffer == old(buffer) && messages == old(messages) && consumed == old(consumed)
        invariant old(clock.now) <= clock.now < deadline.endsAt && failures == old(failures)
        decreases |data| - sent
      {
        var left := deadline.Remaining(clock.now);
        clock.Elapse(left.value);
        if * {
          failures := failures + 1;
          Fault();
          return Err(TransportError);
        }
        var count: nat :| count <= |data| - sent;
        assert data[..sent] + data[sent..sent + count] == data[..sent + count];
        accepted := accepted + data[sent..sent + count];
        if count == 0 {
          failures := failures + 1;
          Fault();
          return Err(TransportTimeoutError);
        }
        sent := sent + count;
        if deadline.Remaining(clock.now).Err? {
          Fault();
          return Err(TransportTimeoutError);
        }
      }
      assert data[..sent] == data;
      r := Ok(sent);
    }

    /** Write then read, both out of one deadline; any failure faults, from any state. */
    method Transact(outbound: Bytes, request: ReadRequest, timeout: real) returns (r: Result<Bytes>)
      requires Valid() && request.WellFormed()
      modifies this, clock
      ensures Valid() && state == AfterTransact(Tcp, old(state), if r.Ok? then Success else Failure(true))
      ensures timeout <= 0.0 ==> r == Err(ConfigurationError)
      ensures timeout > 0.0 && old(state) != OPEN ==> r == Err(NotConnectedError)
      ensures r.Ok? ==> Took(old(Stream()), old(buffer), old(messages), old(consumed), request, r.value)
                        && accepted == old(accepted) + outbound
      ensures timeout > 0.0 && old(state) == OPEN
              && failures == old(failures) && clock.now < old(clock.now) + timeout ==>
                Answered(old(buffer), old(messages), request, r)
      ensures timeout > 0.0 ==> old(clock.now) <= clock.now <= old(clock.now) + timeout
      ensures r.Ok? ==> clock.now < old(clock.now) + timeout
    {
      if timeout <= 0.0 {
        Fault();
        return Err(ConfigurationError);
      }
      var deadline := Deadline(clock.now + timeout);
      var written := Write(outbound, deadline.Remaining(clock.now).value);
      if written.Err? {
        r := Err(written.error);
      } else {
        r := Read(request, deadline.Remaining(clock.now).value);
      }
      if r.Err? { Fault(); }
    }

    static lemma Regroup(a: Bytes, b: Bytes, c: Bytes)
      ensures a + (b + c) == (a + b) + c
    {}
  }
}
