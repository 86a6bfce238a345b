/** What a scan finds, on every input: ordered parts, framed payloads, and payload bytes that are never syntax. */
module Opacity {
  import opened ByteStrings
  import opened BinaryBlock
  import opened Errors
  import opened HeaderPaths
  import opened ProgramMessage

  // ---- where the parts lie

  function EndOf(p: Part): nat {
    if p.payload.Some? then p.payload.value.hi else p.header.hi
  }

  /** A payload begins behind its header and the block's own header of at least three bytes. */
  predicate PartOrdered(p: Part) {
    p.header.lo <= p.header.hi &&
    (p.payload.Some? ==> p.header.hi + 3 <= p.payload.value.lo <= p.payload.value.hi)
  }

  predicate Ordered(parts: seq<Part>, from: nat) {
    && (forall i | 0 <= i < |parts| :: PartOrdered(parts[i]) && from <= parts[i].header.lo)
    && (forall i, j | 0 <= i < j < |parts| :: EndOf(parts[i]) <= parts[j].header.lo)
  }

  /** The parts stand in the order of the bytes and do not overlap. */
  lemma {:induction false} ScanOrdered(data: Bytes, c: Cursor)
    requires At(data, c)
    ensures Ordered(Scan(data, c).parts, c.start)
    ensures forall p | p in Scan(data, c).parts :: p.payload.Some? ==> c.index + 3 <= p.payload.value.lo
    decreases |data| - c.index
  {
    hide Strip, AfterPayload;
    if c.index < |data| {
      var step := StepAt(data, c);
      StepOrdered(data, c);
      hide StepAt;
      if step.next.Ok? {
        ScanOrdered(data, step.next.value);
      }
    }
  }

  lemma StepOrdered(data: Bytes, c: Cursor)
    requires At(data, c) && c.index < |data|
    ensures var step := StepAt(data, c);
            && |step.emitted| <= 1
            && (forall p | p in step.emitted :: PartOrdered(p) && c.start <= p.header.lo)
            && (forall p | p in step.emitted :: p.payload.Some? ==> c.index + 3 <= p.payload.value.lo)
            && (step.next.Ok? ==> c.start <= step.next.value.start)
            && (forall p | p in step.emitted :: step.next.Ok? ==> EndOf(p) <= step.next.value.start)
  {
    hide Strip, PayloadRange, AfterPayload;
  }

  // ---- the payload is what the client's decoder would read

  ghost predicate Framed(data: Bytes, p: Part) {
    && p.header.hi <= |data|
    && p.payload.Some?
    && p.payload.value.lo <= p.payload.value.hi <= |data|
    && DecodeBlock(data[p.header.hi..], DEFAULT_MAXIMUM_BLOCK_SIZE, true)
       == Ok(data[p.payload.value.lo..p.payload.value.hi])
  }

  /** The instrument's scanner and the client's block decoder read the same payload at every block. */
  lemma {:induction false} ScanFramed(data: Bytes, c: Cursor)
    requires At(data, c)
    ensures forall p | p in Scan(data, c).parts :: p.payload.Some? ==> Framed(data, p)
    decreases |data| - c.index
  {
    hide Framed;
    if c.index < |data| {
      var step := StepAt(data, c);
      StepFramed(data, c);
      hide StepAt;
      if step.next.Ok? {
        ScanFramed(data, step.next.value);
      }
    }
  }

  lemma StepFramed(data: Bytes, c: Cursor)
    requires At(data, c) && c.index < |data|
    ensures forall p | p in StepAt(data, c).emitted :: p.payload.Some? ==> Framed(data, p)
  {
    hide Strip, AfterPayload, Framed, PayloadRange;
    if c.start < c.index && data[c.index] == HASH {
      var range := PayloadRange(data, c.index);
      if range.Ok? {
        RangeFramed(data, c.index);
        RangeIsFramed(data, Part(Range(c.start, c.index), Some(range.value)));
      }
    }
  }

  lemma RangeIsFramed(data: Bytes, p: Part)
    requires p.payload.Some? && p.header.hi < |data| && p.payload.value.lo <= p.payload.value.hi <= |data|
    requires DecodeBlock(data[p.header.hi..], DEFAULT_MAXIMUM_BLOCK_SIZE, true)
             == Ok(data[p.payload.value.lo..p.payload.value.hi])
    ensures Framed(data, p)
  {}

  lemma RangeFramed(data: Bytes, index: nat)
    requires index < |data| && data[index] == HASH && PayloadRange(data, index).Ok?
    ensures var r := PayloadRange(data, index).value;
            DecodeBlock(data[index..], DEFAULT_MAXIMUM_BLOCK_SIZE, true) == Ok(data[r.lo..r.hi])
  {
    var r := PayloadRange(data, index).value;
    var block := data[index..];
    var field := data[index + 2..r.lo];
    assert Slice(block, 2, 2 + |field|) == field;
    assert block[2 + |field|..2 + |field| + (r.hi - r.lo)] == data[r.lo..r.hi];
  }

  // ---- payload bytes are opaque

  ghost predicate InPayload(parts: seq<Part>, k: nat) {
    exists p | p in parts :: p.payload.Some? && p.payload.value.lo <= k < p.payload.value.hi
  }

  /** From `from` on, the inputs differ at most inside the payloads of `parts`. */
  ghost predicate AgreeFrom(a: Bytes, b: Bytes, parts: seq<Part>, from: nat) {
    |a| == |b| && forall k | from <= k < |a| :: !InPayload(parts, k) ==> a[k] == b[k]
  }

  /** Two inputs that differ only inside the payloads of the first have the same layout, errors included. */
  lemma {:induction false} ScanOpaque(a: Bytes, b: Bytes, c: Cursor)
    requires At(a, c)
    requires AgreeFrom(a, b, Scan(a, c).parts, c.start)
    ensures |a| == |b| && Scan(b, c) == Scan(a, c)
    decreases |a| - c.index
  {
    hide Strip, StepAt;
    if c.index == |a| {
      assert Scan(a, c).parts == Segment(a, c.start, |a|);
      assert forall k | c.start <= k < |a| :: !InPayload(Scan(a, c).parts, k);
      assert a[c.start..|a|] == b[c.start..|a|];
    } else {
      var step := StepAt(a, c);
      var rest := if step.next.Ok? then Scan(a, step.next.value).parts else [];
      assert Scan(a, c).parts == step.emitted + rest by {
        assert step.emitted + [] == step.emitted;
      }
      StepAgrees(a, b, c, rest);
      if step.next.Ok? {
        var next := step.next.value;
        AgreeOnRest(a, b, c, step.emitted, rest, next);
        ScanOpaque(a, b, next);
      }
    }
  }

  lemma AgreeOnRest(a: Bytes, b: Bytes, c: Cursor, emitted: seq<Part>, rest: seq<Part>, next: Cursor)
    requires AgreeFrom(a, b, emitted + rest, c.start)
    requires c.start <= next.start
    requires forall p | p in emitted :: EndOf(p) <= next.start
    ensures AgreeFrom(a, b, rest, next.start)
  {
    forall k | next.start <= k < |a| && !InPayload(rest, k)
      ensures a[k] == b[k]
    {
      assert !InPayload(emitted + rest, k);
    }
  }

  /** A step looks only at bytes that the two inputs share. */
  lemma StepAgrees(a: Bytes, b: Bytes, c: Cursor, rest: seq<Part>)
    requires At(a, c) && c.index < |a|
    requires AgreeFrom(a, b, StepAt(a, c).emitted + rest, c.start)
    requires rest == if StepAt(a, c).next.Ok? then Scan(a, StepAt(a, c).next.value).parts else []
    ensures StepAt(b, c) == StepAt(a, c)
    ensures var step := StepAt(a, c);
            step.next.Ok? ==> c.start <= step.next.value.start &&
                              forall p | p in step.emitted :: EndOf(p) <= step.next.value.start
  {
    hide Scan;
    var step := StepAt(a, c);
    StepOrdered(a, c);
    if step.next.Ok? {
      ScanOrdered(a, step.next.value);
    }
    hide StepAt;
    Near(a, b, c, step, rest);
    if IsBlock(a, c) {
      BlockAgrees(a, b, c, rest);
    } else {
      PlainAgrees(a, b, c);
    }
  }

  predicate IsBlock(a: Bytes, c: Cursor)
    requires At(a, c) && c.index < |a|
  {
    a[c.index] == HASH && !c.quoted && IsBlockMark(a, c.start, c.index)
  }

  /** No payload begins before three bytes behind the cursor. */
  lemma Near(a: Bytes, b: Bytes, c: Cursor, step: Step, rest: seq<Part>)
    requires At(a, c) && c.index < |a|
    requires AgreeFrom(a, b, step.emitted + rest, c.start)
    requires forall p | p in step.emitted + rest :: p.payload.Some? ==> c.index + 3 <= p.payload.value.lo
    ensures forall k | c.start <= k < |a| && k < c.index + 3 :: a[k] == b[k]
  {
    forall k | c.start <= k < |a| && k < c.index + 3
      ensures a[k] == b[k]
    {
      assert !InPayload(step.emitted + rest, k);
    }
  }

  lemma PlainAgrees(a: Bytes, b: Bytes, c: Cursor)
    requires At(a, c) && c.index < |a| == |b|
    requires forall k | c.start <= k < |a| && k < c.index + 3 :: a[k] == b[k]
    requires !IsBlock(a, c)
    ensures StepAt(b, c) == StepAt(a, c)
  {
    hide Strip;
    assert a[c.start..c.index] == b[c.start..c.index];
  }

  lemma BlockAgrees(a: Bytes, b: Bytes, c: Cursor, rest: seq<Part>)
    requires At(a, c) && c.index < |a| == |b| && IsBlock(a, c)
    requires forall k | c.start <= k < |a| && k < c.index + 3 :: a[k] == b[k]
    requires AgreeFrom(a, b, StepAt(a, c).emitted + rest, c.start)
    requires StepAt(a, c).next.Err? ==> rest == []
    requires StepAt(a, c).next.Ok? ==>
               forall p | p in rest :: p.payload.Some? ==> StepAt(a, c).next.value.index + 3 <= p.payload.value.lo
    ensures StepAt(b, c) == StepAt(a, c)
  {
    hide Strip, PayloadRange, AfterPayload;
    assert a[c.start..c.index] == b[c.start..c.index];
    var step := BlockStep(a, c.start, c.index);
    assert StepAt(a, c) == step;
    HeaderAgrees(a, b, c, rest);
    if step.emitted != [] {
      var hi := PayloadRange(a, c.index).value.hi;
      TrailAgrees(a, b, c, hi, rest);
    }
    assert IsBlockMark(b, c.start, c.index);
  }

  /** The block's own header lies before its payload and before every later one. */
  lemma HeaderAgrees(a: Bytes, b: Bytes, c: Cursor, rest: seq<Part>)
    requires At(a, c) && c.start < c.index < |a| == |b|
    requires forall k | c.start <= k < |a| && k < c.index + 3 :: a[k] == b[k]
    requires var step := BlockStep(a, c.start, c.index);
             && AgreeFrom(a, b, step.emitted + rest, c.start)
             && (step.next.Err? ==> rest == [])
             && (step.next.Ok? ==>
                   forall p | p in rest :: p.payload.Some? ==> step.next.value.index + 3 <= p.payload.value.lo)
    ensures PayloadRange(b, c.index) == PayloadRange(a, c.index)
  {
    var step := BlockStep(a, c.start, c.index);
    var i := c.index;
    if i + 2 <= |a| && IsDigit(a[i + 1]) && i + 2 + (a[i + 1] - ZERO) <= |a| {
      var end := i + 2 + (a[i + 1] - ZERO);
      forall k | i <= k < end
        ensures a[k] == b[k]
      {
        hide Strip, AfterPayload, Value;
        assert !InPayload(step.emitted + rest, k);
      }
      assert a[i + 2..end] == b[i + 2..end];
    }
  }

  lemma TrailAgrees(a: Bytes, b: Bytes, c: Cursor, hi: nat, rest: seq<Part>)
    requires At(a, c) && c.start < c.index < |a| == |b|
    requires var step := BlockStep(a, c.start, c.index);
             && step.emitted != []
             && AgreeFrom(a, b, step.emitted + rest, c.start)
             && (step.next.Err? ==> rest == [])
             && (step.next.Ok? ==>
                   forall p | p in rest :: p.payload.Some? ==> step.next.value.index + 3 <= p.payload.value.lo)
    requires PayloadRange(a, c.index).Ok? && hi == PayloadRange(a, c.index).value.hi
    ensures AfterPayload(b, hi) == AfterPayload(a, hi)
  {
    hide Strip, PayloadRange;
    var step := BlockStep(a, c.start, c.index);
    var gap := SkipBlanks(a, hi);
    forall k | hi <= k <= gap && k < |a|
      ensures a[k] == b[k]
    {
      assert !InPayload(step.emitted + rest, k);
    }
    SkipAgrees(a, b, hi, gap);
  }

  lemma {:induction false} SkipAgrees(a: Bytes, b: Bytes, i: nat, gap: nat)
    requires i <= gap <= |a| == |b| && gap == SkipBlanks(a, i)
    requires forall k | i <= k <= gap && k < |a| :: a[k] == b[k]
    ensures SkipBlanks(b, i) == gap
    decreases gap - i
  {
    if i < gap {
      SkipAgrees(a, b, i + 1, gap);
    }
  }

  // ---- what the instrument serves

  lemma HeaderOutside(a: Bytes, b: Bytes, parts: seq<Part>, i: nat)
    requires Ordered(parts, 0) && AgreeFrom(a, b, parts, 0) && Inside(a, parts) && Inside(b, parts) && i < |parts|
    ensures parts[i].header.hi <= |a| && parts[i].header.hi <= |b|
    ensures a[parts[i].header.lo..parts[i].header.hi] == b[parts[i].header.lo..parts[i].header.hi]
  {
    var h := parts[i].header;
    assert parts[i] in parts;
    forall k | h.lo <= k < h.hi
      ensures !InPayload(parts, k)
    {
      forall p | p in parts && p.payload.Some?
        ensures !(p.payload.value.lo <= k < p.payload.value.hi)
      {
        var j :| 0 <= j < |parts| && parts[j] == p;
      }
    }
  }

  lemma HeadersAgree(a: Bytes, b: Bytes, parts: seq<Part>)
    requires Ordered(parts, 0) && AgreeFrom(a, b, parts, 0) && Inside(a, parts) && Inside(b, parts)
    ensures Headers(ExtractAll(a, parts)) == Headers(ExtractAll(b, parts))
  {
    hide Strip, Ordered, AgreeFrom;
    var xs, ys := Headers(ExtractAll(a, parts)), Headers(ExtractAll(b, parts));
    forall i | 0 <= i < |parts|
      ensures xs[i] == ys[i]
    {
      HeaderOutside(a, b, parts, i);
      assert parts[i] in parts;
    }
    assert forall i | 0 <= i < |parts| :: xs[i] == ys[i];
  }

  /** `after` is `before` with its payloads read from `b` at the ranges of `parts`. */
  ghost predicate OnlyPayloadsFrom(b: Bytes, parts: seq<Part>, before: seq<Command>, after: seq<Command>) {
    && Inside(b, parts)
    && |after| == |before|
    && forall i | 0 <= i < |before| ::
         && after[i].text == before[i].text
         && (before[i].payload.None? ==> after[i].payload.None?)
         && (before[i].payload.Some? ==> i < |parts| && after[i].payload == Extract(b, parts[i]).payload)
  }

  ghost predicate SameButPayloads(b: Bytes, parts: seq<Part>, before: Result<seq<Command>>,
      after: Result<seq<Command>>) {
    if before.Err? then after == before
    else after.Ok? && OnlyPayloadsFrom(b, parts, before.value, after.value)
  }

  lemma TextUnchanged(b: Bytes, parts: seq<Part>, r: Result<seq<Command>>)
    requires Inside(b, parts)
    requires r.Ok? ==> forall i | 0 <= i < |r.value| :: r.value[i].payload.None?
    ensures SameButPayloads(b, parts, r, r)
  {
    hide Extract;
  }

  lemma PairOpaque(a: Bytes, b: Bytes, parts: seq<Part>, resolved: seq<Text>)
    requires Inside(a, parts) && Inside(b, parts) && |resolved| == |parts|
    ensures OnlyPayloadsFrom(b, parts, Pair(resolved, ExtractAll(a, parts)), Pair(resolved, ExtractAll(b, parts)))
  {
    hide Strip;
    var foundA, foundB := ExtractAll(a, parts), ExtractAll(b, parts);
    forall i | 0 <= i < |parts|
      ensures foundB[i] == Extract(b, parts[i]) && (foundA[i].payload.None? ==> foundB[i].payload.None?)
    {}
    hide Extract, Inside;
  }

  lemma DeclaredIsFound(data: Bytes, parts: seq<Part>)
    requires Inside(data, parts) && exists p :: p in parts && p.payload.Some?
    ensures AnyPayload(ExtractAll(data, parts))
  {
    hide Strip;
    var p :| p in parts && p.payload.Some?;
    var i :| 0 <= i < |parts| && parts[i] == p;
    assert ExtractAll(data, parts)[i].payload.Some?;
  }

  lemma FinishOpaque(a: Bytes, b: Bytes, parts: seq<Part>)
    requires Inside(a, parts) && Inside(b, parts)
    requires Headers(ExtractAll(a, parts)) == Headers(ExtractAll(b, parts))
    requires exists p :: p in parts && p.payload.Some?
    ensures SameButPayloads(b, parts, Finish(a, ExtractAll(a, parts)), Finish(b, ExtractAll(b, parts)))
  {
    DeclaredIsFound(a, parts);
    DeclaredIsFound(b, parts);
    hide Inherit, TextCommands, Extract, AnyPayload, Inside, OnlyPayloadsFrom;
    var headers := Headers(ExtractAll(a, parts));
    if Inherit(headers, []).Ok? {
      InheritPointwise(headers, []);
      PairOpaque(a, b, parts, Inherit(headers, []).value);
    }
  }

  /** Overwriting declared payloads changes the served payloads and nothing else. */
  lemma PayloadsAreOpaque(a: Bytes, b: Bytes)
    requires AgreeFrom(a, b, Scan(a, ORIGIN).parts, 0)
    ensures SameButPayloads(b, Scan(a, ORIGIN).parts, Outbound(a), Outbound(b))
  {
    ScanOpaque(a, b, ORIGIN);
    ScanInside(a, ORIGIN);
    ScanInside(b, ORIGIN);
    ScanOrdered(a, ORIGIN);
    hide Scan, Extract, Finish, TextCommands, Inside, Ordered, OnlyPayloadsFrom;
    var layout := Scan(a, ORIGIN);
    if forall p | p in layout.parts :: p.payload.None? {
      assert a == b by {
        assert forall k | 0 <= k < |a| :: !InPayload(layout.parts, k);
      }
      NothingDeclared(a);
      TextUnchanged(b, layout.parts, Outbound(a));
    } else {
      if HASH !in a { NoHashNoPayload(a, ORIGIN); }
      if HASH !in b { NoHashNoPayload(b, ORIGIN); }
      if layout.error.None? {
        HeadersAgree(a, b, layout.parts);
        FinishOpaque(a, b, layout.parts);
      }
    }
  }

  lemma NothingDeclared(a: Bytes)
    requires forall p | p in Scan(a, ORIGIN).parts :: p.payload.None?
    ensures Outbound(a).Ok? ==> forall i | 0 <= i < |Outbound(a).value| :: Outbound(a).value[i].payload.None?
  {
    hide Scan, Inherit, TextCommands;
    ScanInside(a, ORIGIN);
    var parts := Scan(a, ORIGIN).parts;
    assert forall i | 0 <= i < |parts| :: parts[i] in parts;
  }
}
