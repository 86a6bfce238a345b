/** The streaming block reader: it agrees with the pure decoder, uses up exactly one block, and keeps one budget. */
module BlockReader {
  import opened ByteStrings
  import opened BinaryBlock
  import opened Deadlines
  import opened Errors
  import opened MockTransports
  import opened Transports

  // ---- what the reader must do, in terms of the pure decoder

  datatype Block = Block(payload: Bytes, used: nat)

  function Used(data: Bytes, payload: Bytes): nat {
    if LengthDigitCount(data).Ok? then 2 + LengthDigitCount(data).value + |payload| else 0
  }

  /** The block at the head of a stream, followed by the expected terminator. */
  function HeadBlock(stream: Bytes, maximumSize: int, terminator: Bytes): (r: Result<Block>) {
    var payload :- DecodeBlock(stream, maximumSize, true);
    var end := Used(stream, payload);
    if end + |terminator| > |stream| then Err(TransportTimeoutError)
    else if stream[end..end + |terminator|] != terminator then Err(ProtocolError)
    else Ok(Block(payload, end + |terminator|))
  }

  /** A stream has a block at its head exactly when it starts with a well-formed frame within the bound and the
      terminator behind it. */
  lemma HeadBlockExactly(stream: Bytes, maximumSize: int, terminator: Bytes, payload: Bytes, used: nat)
    ensures HeadBlock(stream, maximumSize, terminator) == Ok(Block(payload, used)) <==>
            exists field, rest :: HeadedBy(stream, maximumSize, terminator, payload, used, field, rest)
  {
    if HeadBlock(stream, maximumSize, terminator) == Ok(Block(payload, used)) {
      HeadIsFrame(stream, maximumSize, terminator, payload, used);
    }
    if field, rest :| HeadedBy(stream, maximumSize, terminator, payload, used, field, rest) {
      FrameIsHead(stream, maximumSize, terminator, payload, used, field, rest);
    }
  }

  ghost predicate HeadedBy(stream: Bytes, maximumSize: int, terminator: Bytes, payload: Bytes, used: nat,
                           field: Bytes, rest: Bytes) {
    var frame := [HASH, ZERO + |field|] + field + payload;
    && 1 <= |field| <= 9 && AllDigits(field) && Value(field) == |payload| <= maximumSize
    && used == |frame| + |terminator|
    && stream == frame + terminator + rest
  }

  lemma HeadIsFrame(stream: Bytes, maximumSize: int, terminator: Bytes, payload: Bytes, used: nat)
    requires HeadBlock(stream, maximumSize, terminator) == Ok(Block(payload, used))
    ensures exists field, rest :: HeadedBy(stream, maximumSize, terminator, payload, used, field, rest)
  {
    var count := LengthDigitCount(stream).value;
    var field, end := stream[2..2 + count], 2 + count + |payload|;
    assert Slice(stream, 2, 2 + count) == field;
    assert stream[..2] == [HASH, ZERO + count];
    assert stream[..end] == [HASH, ZERO + |field|] + field + payload;
    assert stream == stream[..end] + stream[end..end + |terminator|] + stream[end + |terminator|..];
    assert HeadedBy(stream, maximumSize, terminator, payload, used, field, stream[end + |terminator|..]);
  }

  lemma FrameIsHead(stream: Bytes, maximumSize: int, terminator: Bytes,
                    payload: Bytes, used: nat, field: Bytes, rest: Bytes)
    requires HeadedBy(stream, maximumSize, terminator, payload, used, field, rest)
    ensures HeadBlock(stream, maximumSize, terminator) == Ok(Block(payload, used))
  {
    var frame := [HASH, ZERO + |field|] + field + payload;
    var end := |frame|;
    assert stream == frame + (terminator + rest);
    FrameDecodes(stream, frame, field, payload, maximumSize, true);
    assert stream[0] == HASH && stream[1] == ZERO + |field|;
    assert stream[end..end + |terminator|] == terminator;
  }

  function Frames(payloads: seq<Bytes>, terminator: Bytes): Bytes
    requires forall p | p in payloads :: |p| < 1_000_000_000
  {
    if payloads == [] then []
    else
      EncodeIsFrame(payloads[0]);
      Encode(payloads[0]).value + terminator + Frames(payloads[1..], terminator)
  }

  /** `count` successive reads from one stream: the payloads, and what is left. */
  function HeadBlocks(stream: Bytes, count: nat, maximumSize: int, terminator: Bytes): Result<(seq<Bytes>, Bytes)> {
    if count == 0 then Ok(([], stream))
    else
      var block :- HeadBlock(stream, maximumSize, terminator);
      if block.used > |stream| then Err(ProtocolError)
      else
        var (rest, left) :- HeadBlocks(stream[block.used..], count - 1, maximumSize, terminator);
        Ok(([block.payload] + rest, left))
  }

  lemma EncodedHead(payload: Bytes, terminator: Bytes, rest: Bytes, maximumSize: int)
    requires |payload| < 1_000_000_000 && |payload| <= maximumSize
    ensures Encode(payload).Ok?
    ensures var frame := Encode(payload).value;
            HeadBlock(frame + terminator + rest, maximumSize, terminator)
            == Ok(Block(payload, |frame| + |terminator|))
  {
    EncodeIsFrame(payload);
    hide Decimal, DecodeBlock;
    var frame := Encode(payload).value;
    var stream := frame + terminator + rest;
    assert stream == frame + (terminator + rest);
    EncodeDecode(payload, terminator + rest, maximumSize);
    assert stream[0] == frame[0] && stream[1] == frame[1];
    assert Used(stream, payload) == |frame|;
    assert stream[|frame|..|frame| + |terminator|] == terminator;
  }

  /** Concatenated blocks are read back as the same payloads in order, and nothing behind them is touched. */
  lemma {:induction false} BlocksRoundTrip(payloads: seq<Bytes>, terminator: Bytes, rest: Bytes, maximumSize: int)
    requires forall p | p in payloads :: |p| < 1_000_000_000 && |p| <= maximumSize
    ensures HeadBlocks(Frames(payloads, terminator) + rest, |payloads|, maximumSize, terminator) == Ok((payloads, rest))
  {
    hide HeadBlock, Encode, Frames, HeadBlocks;
    if payloads == [] {
      NoBlocks(terminator, rest, maximumSize);
    } else {
      var p, tail := payloads[0], payloads[1..];
      assert p in payloads && forall q | q in tail :: q in payloads;
      BlocksRoundTrip(tail, terminator, rest, maximumSize);
      FramesUnfold(payloads, terminator, rest);
      BlocksStep(p, terminator, Frames(tail, terminator) + rest, tail, rest, maximumSize);
      assert [p] + tail == payloads;
    }
  }

  lemma NoBlocks(terminator: Bytes, rest: Bytes, maximumSize: int)
    ensures HeadBlocks(Frames([], terminator) + rest, 0, maximumSize, terminator) == Ok(([], rest))
  {
    assert [] + rest == rest;
  }

  lemma BlocksStep(p: Bytes, terminator: Bytes, others: Bytes, tail: seq<Bytes>, rest: Bytes, maximumSize: int)
    requires |p| < 1_000_000_000 && |p| <= maximumSize
    requires HeadBlocks(others, |tail|, maximumSize, terminator) == Ok((tail, rest))
    ensures Encode(p).Ok?
    ensures HeadBlocks(Encode(p).value + terminator + others, |tail| + 1, maximumSize, terminator)
            == Ok(([p] + tail, rest))
  {
    hide HeadBlock, HeadBlocks, Encode;
    EncodedHead(p, terminator, others, maximumSize);
    var front := Encode(p).value + terminator;
    DropFront(front, others);
    OneMore(front + others, p, |front|, tail, rest, maximumSize, terminator);
  }

  lemma FramesUnfold(payloads: seq<Bytes>, terminator: Bytes, rest: Bytes)
    requires payloads != [] && forall p | p in payloads :: |p| < 1_000_000_000
    ensures Encode(payloads[0]).Ok?
    ensures Frames(payloads, terminator) + rest
         == Encode(payloads[0]).value + terminator + (Frames(payloads[1..], terminator) + rest)
  {
    EncodeIsFrame(payloads[0]);
    hide Encode, IsFrame;
    FramesHead(payloads, terminator);
    hide Frames;
    Associate(Encode(payloads[0]).value + terminator, Frames(payloads[1..], terminator), rest);
  }

  lemma FramesHead(payloads: seq<Bytes>, terminator: Bytes)
    requires payloads != [] && forall p | p in payloads :: |p| < 1_000_000_000
    requires Encode(payloads[0]).Ok?
    ensures Frames(payloads, terminator) == Encode(payloads[0]).value + terminator + Frames(payloads[1..], terminator)
  {
    hide Encode;
  }

  lemma Associate(a: Bytes, b: Bytes, c: Bytes)
    ensures (a + b) + c == a + (b + c)
  {}

  lemma DropFront(a: Bytes, b: Bytes)
    ensures (a + b)[|a|..] == b
  {}

  lemma OneMore(stream: Bytes, payload: Bytes, used: nat, tail: seq<Bytes>, rest: Bytes,
                maximumSize: int, terminator: Bytes)
    requires HeadBlock(stream, maximumSize, terminator) == Ok(Block(payload, used)) && used <= |stream|
    requires HeadBlocks(stream[used..], |tail|, maximumSize, terminator) == Ok((tail, rest))
    ensures HeadBlocks(stream, |tail| + 1, maximumSize, terminator) == Ok(([payload] + tail, rest))
  {
    hide HeadBlock;
  }

  // ---- the reader

  datatype Header = Header(count: nat, length: nat)

  /** The block at the head of a stream as the reader's takes see it: first the header, then the rest. */
  function StagedHeader(stream: Bytes, maximumSize: int): (h: Option<Header>)
    ensures h.Some? ==> 2 + h.value.count <= |stream|
  {
    if |stream| < 2 || LengthDigitCount(stream[..2]).Err? then None
    else
      var count := LengthDigitCount(stream[..2]).value;
      if |stream[2..]| < count then None
      else
        var length := DeclaredLength(stream[2..][..count], count, maximumSize);
        if length.Err? then None else Some(Header(count, length.value))
  }

  predicate StagedBody(rest: Bytes, length: nat, terminator: Bytes) {
    length + |terminator| <= |rest| && rest[length..][..|terminator|] == terminator
  }

  function Staged(stream: Bytes, maximumSize: int, terminator: Bytes): Option<Block> {
    var h := StagedHeader(stream, maximumSize);
    if h.None? then None
    else
      var rest := stream[2 + h.value.count..];
      if StagedBody(rest, h.value.length, terminator)
      then Some(Block(rest[..h.value.length], 2 + h.value.count + h.value.length + |terminator|))
      else None
  }

  lemma StagedIsHead(stream: Bytes, maximumSize: int, terminator: Bytes)
    ensures Staged(stream, maximumSize, terminator).Some? <==> HeadBlock(stream, maximumSize, terminator).Ok?
    ensures Staged(stream, maximumSize, terminator).Some? ==>
              Staged(stream, maximumSize, terminator).value == HeadBlock(stream, maximumSize, terminator).value
              && Staged(stream, maximumSize, terminator).value.used <= |stream|
  {
    hide Value, AllDigits;
    if |stream| >= 2 {
      assert LengthDigitCount(stream) == LengthDigitCount(stream[..2]);
      var count := LengthDigitCount(stream);
      if count.Ok? && 2 + count.value <= |stream| {
        assert Slice(stream, 2, 2 + count.value) == stream[2..][..count.value];
        var length := DeclaredLength(stream[2..][..count.value], count.value, maximumSize);
        if length.Ok? && 2 + count.value + length.value <= |stream| {
          var end := 2 + count.value + length.value;
          assert stream[2 + count.value..][..length.value] == stream[2 + count.value..end];
          if end + |terminator| <= |stream| {
            assert stream[2 + count.value..][length.value..][..|terminator|] == stream[end..end + |terminator|];
          }
        }
      }
    }
  }

  function Max(a: int, b: int): int {
    if a > b then a else b
  }

  ghost function Later(a: real, b: real): real {
    if a > b then a else b
  }

  method ReadExactly(t: MockTransport, clock: Clock, budget: Deadline, count: nat)
    returns (r: Result<Bytes>, ghost late: bool)
    requires t.Valid() && count > 0
    modifies t, clock
    ensures t.Valid() && old(t.operations) <= t.operations
    ensures old(clock.now) <= clock.now <= Later(old(clock.now), budget.endsAt)
    ensures late <==> old(clock.now) >= budget.endsAt
    ensures late ==> r == Err(TransportTimeoutError)
    ensures r.Ok? ==> t.state == OPEN && old(t.state) == OPEN && t.failRead == None
    ensures r.Ok? ==> |r.value| == count <= |old(Flat(t.inbound))|
    ensures r.Ok? ==> r.value == old(Flat(t.inbound))[..count] && Flat(t.inbound) == old(Flat(t.inbound))[count..]
    ensures r.Ok? ==> t.taken == old(t.taken) + r.value
    ensures old(t.state) == OPEN && old(t.failRead).None? && !late ==>
              (r.Ok? <==> count <= |old(Flat(t.inbound))|) && (r.Err? ==> r.error == TransportTimeoutError)
    ensures old(t.state) != OPEN ==> t.state == old(t.state)
    ensures t.state == old(t.state) || t.state == FAULTED
    ensures clock.CallsWithin(old(clock.calls), 1, budget.endsAt)
  {
    late := false;
    var remaining := budget.Remaining(clock.now);
    if remaining.Err? {
      late := true;
      return Err(TransportTimeoutError), late;
    }
    r := t.Read(ExactLength(count, Max(count, 1)));
    clock.Elapse(remaining.value);
  }

  /** `given` is the budget of a surrounding operation, if there is one; an empty `terminator` means none is expected.

      `late` tells that the budget ran out, and a check of it failed. */
  method ReadDefiniteLengthBlock(t: MockTransport, clock: Clock, defaultTimeout: real, timeout: Option<real>,
                                 maximumSize: int, terminator: Bytes, given: Option<Deadline>)
    returns (r: Result<Bytes>, ghost late: bool)
    requires t.Valid() && defaultTimeout > 0.0
    modifies t, clock
    ensures t.Valid() && old(t.operations) <= t.operations
    // bad arguments raise before the transport is touched
    ensures maximumSize <= 0 || (given.None? && timeout.Some? && timeout.value <= 0.0) ==>
              r == Err(ConfigurationError) && t.state == old(t.state) && t.inbound == old(t.inbound)
    ensures !late && maximumSize > 0 && !(given.None? && timeout.Some? && timeout.value <= 0.0)
            && old(t.state) == OPEN && old(t.failRead).None? ==>
              var block := HeadBlock(old(Flat(t.inbound)), maximumSize, terminator);
              && (r.Ok? <==> block.Ok?)
              && (r.Ok? ==> r.value == block.value.payload)
    // success uses up exactly one block
    ensures r.Ok? ==>
              var block := HeadBlock(old(Flat(t.inbound)), maximumSize, terminator);
              && t.state == OPEN && t.failRead.None? && block.Ok? && r.value == block.value.payload
              && block.value.used <= |old(Flat(t.inbound))|
              && Flat(t.inbound) == old(Flat(t.inbound))[block.value.used..]
              && t.taken == old(t.taken) + old(Flat(t.inbound))[..block.value.used]
    // failure past the argument checks leaves no half-read stream behind
    ensures r.Err? && maximumSize > 0 && !(given.None? && timeout.Some? && timeout.value <= 0.0) ==> t.state != OPEN
    ensures old(t.state) == OPEN ==> t.state == OPEN || t.state == FAULTED
    // the budget
    ensures var endsAt := if given.Some? then given.value.endsAt
                          else old(clock.now) + (if timeout.Some? then timeout.value else defaultTimeout);
            && old(clock.now) <= clock.now <= Later(old(clock.now), endsAt)
            && (r.Ok? ==> clock.now < endsAt)
            && (late ==> clock.now >= endsAt)
            && clock.CallsWithin(old(clock.calls), 4, endsAt)
  {
    late := false;
    if maximumSize <= 0 { return Err(ConfigurationError), late; }
    var budget: Deadline;
    if given.Some? {
      budget := given.value;
    } else {
      var made := OperationDeadline(defaultTimeout, timeout, clock.now);
      if made.Err? { return Err(made.error), late; }
      budget := made.value;
    }
    StagedIsHead(Flat(t.inbound), maximumSize, terminator);
    hide HeadBlock, Staged;
    r, late := ReadStages(t, clock, budget, maximumSize, terminator);
    if r.Err? {
      t.Invalidate();
    }
  }

  /** The stages inside the reader's guard. */
  method ReadStages(t: MockTransport, clock: Clock, budget: Deadline, maximumSize: int, terminator: Bytes)
    returns (r: Result<Bytes>, ghost late: bool)
    requires t.Valid() && maximumSize > 0
    modifies t, clock
    ensures t.Valid() && old(t.operations) <= t.operations
    ensures old(t.state) == OPEN ==> t.state == OPEN || t.state == FAULTED
    ensures !late && old(t.state) == OPEN && old(t.failRead).None? ==>
              (r.Ok? <==> Staged(old(Flat(t.inbound)), maximumSize, terminator).Some?)
    ensures r.Ok? ==>
              var block := Staged(old(Flat(t.inbound)), maximumSize, terminator);
              && t.state == OPEN && block.Some? && r.value == block.value.payload
              && block.value.used <= |old(Flat(t.inbound))|
              && Flat(t.inbound) == old(Flat(t.inbound))[block.value.used..]
              && t.taken == old(t.taken) + old(Flat(t.inbound))[..block.value.used]
    ensures old(clock.now) <= clock.now <= Later(old(clock.now), budget.endsAt)
    ensures r.Ok? ==> clock.now < budget.endsAt && t.failRead.None?
    ensures late ==> clock.now >= budget.endsAt
    ensures clock.CallsWithin(old(clock.calls), 4, budget.endsAt)
  {
    hide StagedHeader, StagedBody, Flat;
    ghost var stream := Flat(t.inbound);
    var header: Result<Header>;
    header, late := ReadHeader(t, clock, budget, maximumSize);
    if header.Err? { return Err(header.error), late; }
    r, late := ReadBody(t, clock, budget, header.value.length, terminator);
    if r.Ok? {
      BodyFits(stream[2 + header.value.count..], header.value.length, terminator);
      TakeTwice(stream, 2 + header.value.count, header.value.length + |terminator|);
    }
  }

  lemma BodyFits(rest: Bytes, length: nat, terminator: Bytes)
    requires StagedBody(rest, length, terminator)
    ensures length + |terminator| <= |rest|
  {}

  lemma TakeTwice(s: Bytes, a: nat, b: nat)
    requires a + b <= |s|
    ensures s[a..][b..] == s[a + b..] && s[..a] + s[a..][..b] == s[..a + b]
  {}

  method ReadHeader(t: MockTransport, clock: Clock, budget: Deadline, maximumSize: int)
    returns (r: Result<Header>, ghost late: bool)
    requires t.Valid() && maximumSize > 0
    modifies t, clock
    ensures t.Valid() && old(t.operations) <= t.operations
    ensures old(t.state) == OPEN ==> t.state == OPEN || t.state == FAULTED
    ensures !late && old(t.state) == OPEN && old(t.failRead).None? ==>
              (r.Ok? <==> StagedHeader(old(Flat(t.inbound)), maximumSize).Some?)
    ensures r.Ok? ==>
              && StagedHeader(old(Flat(t.inbound)), maximumSize) == Some(r.value)
              && old(t.state) == OPEN && t.state == OPEN && t.failRead.None?
              && Flat(t.inbound) == old(Flat(t.inbound))[2 + r.value.count..]
              && t.taken == old(t.taken) + old(Flat(t.inbound))[..2 + r.value.count]
    ensures late ==> r.Err? && clock.now >= budget.endsAt
    ensures old(clock.now) <= clock.now <= Later(old(clock.now), budget.endsAt)
    ensures clock.CallsWithin(old(clock.calls), 2, budget.endsAt)
  {
    hide LengthDigitCount, DeclaredLength, Flat;
    ghost var stream := Flat(t.inbound);
    var prefix: Result<Bytes>;
    prefix, late := ReadExactly(t, clock, budget, 2);
    if prefix.Err? { return Err(prefix.error), late; }
    var count := LengthDigitCount(prefix.value);
    if count.Err? { return Err(count.error), late; }
    var field: Result<Bytes>;
    field, late := ReadExactly(t, clock, budget, count.value);
    if field.Err? { return Err(field.error), late; }
    var length := DeclaredLength(field.value, count.value, maximumSize);
    if length.Err? { return Err(length.error), late; }
    TakeTwice(stream, 2, count.value);
    r := Ok(Header(count.value, length.value));
  }

  method ReadBody(t: MockTransport, clock: Clock, budget: Deadline, length: nat, terminator: Bytes)
    returns (r: Result<Bytes>, ghost late: bool)
    requires t.Valid()
    modifies t, clock
    ensures t.Valid() && old(t.operations) <= t.operations
    ensures old(t.state) == OPEN ==> t.state == OPEN || t.state == FAULTED
    ensures !late && old(t.state) == OPEN && old(t.failRead).None? ==>
              (r.Ok? <==> StagedBody(old(Flat(t.inbound)), length, terminator))
    ensures r.Ok? && old(t.state) == OPEN ==>
              var stream := old(Flat(t.inbound));
              && StagedBody(stream, length, terminator) && r.value == stream[..length]
              && t.state == OPEN
              && Flat(t.inbound) == stream[length + |terminator|..]
              && t.taken == old(t.taken) + stream[..length + |terminator|]
    ensures old(clock.now) <= clock.now <= Later(old(clock.now), budget.endsAt)
    ensures r.Ok? ==> clock.now < budget.endsAt && (old(t.failRead).None? ==> t.failRead.None?)
    ensures late ==> clock.now >= budget.endsAt
    ensures clock.CallsWithin(old(clock.calls), 2, budget.endsAt)
  {
    hide Flat;
    late := false;
    ghost var stream := Flat(t.inbound);
    var payload: Result<Bytes> := Ok([]);
    if length > 0 {
      payload, late := ReadExactly(t, clock, budget, length);
      if payload.Err? { return Err(payload.error), late; }
    }
    assert old(t.state) == OPEN ==> Flat(t.inbound) == stream[length..] && t.taken == old(t.taken) + stream[..length];
    if terminator != [] {
      var trailing: Result<Bytes>;
      trailing, late := ReadExactly(t, clock, budget, |terminator|);
      if trailing.Err? { return Err(trailing.error), late; }
      if trailing.value != terminator { return Err(ProtocolError), late; }
      TakeTwice(stream, length, |terminator|);
    }
    var left := budget.Remaining(clock.now);
    if left.Err? { late := true; return Err(left.error), late; }
    r := Ok(payload.value);
  }

  /** The client's block query: one write and one block, under one budget that starts with the call.

      `late` tells that the budget ran out, and a check of it failed. */
  method QueryBinaryBlock(t: MockTransport, clock: Clock, defaultTimeout: real, timeout: Option<real>,
                          outbound: Bytes, maximumSize: int, terminator: Bytes)
    returns (r: Result<Bytes>, ghost late: bool)
    requires t.Valid() && defaultTimeout > 0.0
    modifies t, clock
    ensures t.Valid() && old(t.operations) <= t.operations
    ensures timeout.Some? && timeout.value <= 0.0 ==>
              && r == Err(ConfigurationError) && t.state == old(t.state) && t.inbound == old(t.inbound)
              && t.operations == old(t.operations) && clock.now == old(clock.now)
    ensures r.Ok? ==> old(t.operations) + [WriteOp(outbound)] <= t.operations
    // the budget bounds the whole operation, and every call in it was handed no more than was left
    ensures !(timeout.Some? && timeout.value <= 0.0) ==>
              var endsAt := old(clock.now) + (if timeout.Some? then timeout.value else defaultTimeout);
              && old(clock.now) <= clock.now <= endsAt
              && (r.Ok? ==> clock.now < endsAt)
              && (late ==> clock.now >= endsAt)
              && clock.CallsWithin(old(clock.calls), 5, endsAt)
    // the payload is the block that was waiting, and exactly it is used up
    ensures r.Ok? ==>
              var block := HeadBlock(old(Flat(t.inbound)), maximumSize, terminator);
              block.Ok? && r.value == block.value.payload && t.state == OPEN
              && block.value.used <= |old(Flat(t.inbound))|
              && Flat(t.inbound) == old(Flat(t.inbound))[block.value.used..]
    ensures !late && maximumSize > 0 && !(timeout.Some? && timeout.value <= 0.0)
            && old(t.state) == OPEN && old(t.failWrite).None? && old(t.failRead).None? ==>
              (r.Ok? <==> HeadBlock(old(Flat(t.inbound)), maximumSize, terminator).Ok?)
    // any failure leaves the stream unusable
    ensures r.Err? && !(timeout.Some? && timeout.value <= 0.0) ==> t.state != OPEN
  {
    hide HeadBlock, Flat, FlatRead, Line, Walk, LastOf, Edge;
    late := false;
    if timeout.Some? && timeout.value <= 0.0 { return Err(ConfigurationError), late; }
    var deadline := OperationDeadline(defaultTimeout, timeout, clock.now).value;
    var writeTimeout := deadline.Remaining(clock.now);
    var written := t.Write(outbound);
    clock.Elapse(writeTimeout.value);
    if written.Err? {
      r := Err(written.error);
    } else {
      r, late := ReadDefiniteLengthBlock(t, clock, defaultTimeout, timeout, maximumSize, terminator, Some(deadline));
    }
    if r.Err? {
      t.Invalidate();
    }
  }

  // ---- one block after another

  /** `count` successive reads, each under a budget of its own: what the pure decoder makes of the stream. */
  method ReadBlocks(t: MockTransport, clock: Clock, defaultTimeout: real, maximumSize: int, terminator: Bytes,
      count: nat)
    returns (r: Result<seq<Bytes>>, ghost late: bool)
    requires t.Valid() && defaultTimeout > 0.0 && maximumSize > 0
    requires t.state == OPEN && t.failRead.None?
    modifies t, clock
    ensures t.Valid() && old(t.operations) <= t.operations
    ensures !late ==> (r.Ok? <==> HeadBlocks(old(Flat(t.inbound)), count, maximumSize, terminator).Ok?)
    ensures r.Ok? ==>
              && t.state == OPEN && t.failRead.None? && old(t.taken) <= t.taken
              && HeadBlocks(old(Flat(t.inbound)), count, maximumSize, terminator) == Ok((r.value, Flat(t.inbound)))
              && t.taken + Flat(t.inbound) == old(t.taken) + old(Flat(t.inbound))
    ensures r.Err? ==> t.state == FAULTED
    // late only when one of the reads has used up its budget
    ensures old(clock.now) <= clock.now && (late ==> clock.now >= old(clock.now) + defaultTimeout)
    decreases count
  {
    hide HeadBlock, Flat;
    late := false;
    if count == 0 {
      return Ok([]), late;
    }
    ghost var stream := Flat(t.inbound);
    var payload: Result<Bytes>;
    payload, late := ReadDefiniteLengthBlock(t, clock, defaultTimeout, None, maximumSize, terminator, None);
    if payload.Err? { return Err(payload.error), late; }
    ghost var used := HeadBlock(stream, maximumSize, terminator).value.used;
    assert t.taken + Flat(t.inbound) == old(t.taken) + stream by { assert stream[..used] + stream[used..] == stream; }
    var others: Result<seq<Bytes>>;
    others, late := ReadBlocks(t, clock, defaultTimeout, maximumSize, terminator, count - 1);
    r := if others.Err? then Err(others.error) else Ok([payload.value] + others.value);
  }

  /** Concatenated blocks waiting on an open transport are read back as the same payloads in order, and nothing behind
      them is touched. */
  method ReadBack(t: MockTransport, clock: Clock, defaultTimeout: real, maximumSize: int, terminator: Bytes, count: nat,
                  ghost payloads: seq<Bytes>, ghost rest: Bytes)
    returns (r: Result<seq<Bytes>>, ghost late: bool)
    requires t.Valid() && defaultTimeout > 0.0 && maximumSize > 0
    requires t.state == OPEN && t.failRead.None?
    requires count == |payloads| && forall p | p in payloads :: |p| < 1_000_000_000 && |p| <= maximumSize
    requires Flat(t.inbound) == Frames(payloads, terminator) + rest
    modifies t, clock
    ensures t.Valid()
    ensures !late ==> r == Ok(payloads)
    ensures late ==> clock.now >= old(clock.now) + defaultTimeout
    ensures r.Ok? ==> r.value == payloads && t.state == OPEN && Flat(t.inbound) == rest
    ensures r.Ok? ==> t.taken == old(t.taken) + Frames(payloads, terminator)
  {
    hide HeadBlocks, Frames, Flat;
    BlocksRoundTrip(payloads, terminator, rest, maximumSize);
    r, late := ReadBlocks(t, clock, defaultTimeout, maximumSize, terminator, count);
    if r.Ok? {
      Associate(old(t.taken), Frames(payloads, terminator), rest);
      SameFront(t.taken, old(t.taken) + Frames(payloads, terminator), rest);
    }
  }

  lemma SameFront(a: Bytes, b: Bytes, rest: Bytes)
    requires a + rest == b + rest
    ensures a == b
  {
    assert a == (a + rest)[..|a|] && b == (b + rest)[..|b|] && |a + rest| == |b + rest|;
  }
}
