/** The program-message scanner of the scripted instrument.

    `Scan` describes what one pass over the bytes finds, as positions; the methods are the loops that find it.
 */
module ProgramMessage {
  import opened ByteStrings
  import opened BinaryBlock
  import opened Errors
  import opened HeaderPaths

  /** One command as the instrument serves it: its text, and the payload if a block followed. */
  datatype Command = Command(text: Text, payload: Option<Bytes>)

  /** A half-open range of positions. */
  datatype Range = Range(lo: nat, hi: nat)

  /** One part of a message: the positions of its text, before stripping, and of its payload. */
  datatype Part = Part(header: Range, payload: Option<Range>)

  /** What a scan found before it ended, and the exception that ended it, if any. */
  datatype Layout = Layout(parts: seq<Part>, error: Option<Error>)

  datatype Cursor = Cursor(start: nat, index: nat, quoted: bool)

  /** One round of the scanning loop: the parts it emits (none or one) and where it goes on. */
  datatype Step = Step(emitted: seq<Part>, next: Result<Cursor>)

  ghost predicate At(data: seq<int>, c: Cursor) {
    c.start <= c.index <= |data|
  }

  predicate IsBlockLead(b: Byte) {
    b == SPACE || b == TAB || b == COMMA
  }

  /** The letters that make a hash a non-decimal numeric, IEEE 488.2 section 7.7.4. */
  predicate IsRadix(b: Byte) {
    b == 72 || b == 104 || b == 81 || b == 113 || b == 66 || b == 98
  }

  predicate IsSeparator(b: Byte) {
    b == NL || b == SEMICOLON
  }

  /** The hash at `index` introduces a block in the segment that begins at `start`. */
  predicate IsBlockMark(data: Bytes, start: nat, index: nat)
    requires start <= index < |data|
  {
    && data[index] == HASH
    && index > start
    && IsBlockLead(data[index - 1])
    && !(index + 1 < |data| && IsRadix(data[index + 1]))
  }

  /** A block begins at a hash behind a blank, a tab or a comma of its segment, unless one of the letters H, Q and B
      follows it, in either case. */
  lemma BlockMarkExactly(data: Bytes, start: nat, index: nat)
    requires start <= index < |data|
    ensures IsBlockMark(data, start, index) <==>
            && data[index] == 35 && index > start && data[index - 1] in {32, 9, 44}
            && (index + 1 < |data| ==> data[index + 1] !in {72, 104, 81, 113, 66, 98})
  {}

  function SkipBlanks(data: Bytes, index: nat): (r: nat)
    requires index <= |data|
    ensures index <= r <= |data|
    ensures forall i | index <= i < r :: data[i] == SPACE || data[i] == TAB
    ensures r < |data| ==> data[r] != SPACE && data[r] != TAB
    decreases |data| - index
  {
    if index < |data| && (data[index] == SPACE || data[index] == TAB) then SkipBlanks(data, index + 1) else index
  }

  function Segment(data: Bytes, lo: nat, hi: nat): seq<Part>
    requires lo <= hi <= |data|
  {
    if Strip(data[lo..hi], ByteBlanks) == [] then [] else [Part(Range(lo, hi), None)]
  }

  /** The declared payload of the block whose hash is at `index`. */
  function PayloadRange(data: Bytes, index: nat): (r: Result<Range>)
    requires index < |data|
    ensures r.Ok? ==> index + 3 <= r.value.lo <= r.value.hi <= |data|
  {
    if index + 2 > |data| then Err(ProtocolError)
    else if data[index + 1] == ZERO then Err(UnsupportedOperationError)
    else if !IsDigit(data[index + 1]) then Err(ProtocolError)
    else
      var lengthEnd := index + 2 + (data[index + 1] - ZERO);
      if lengthEnd > |data| then Err(ProtocolError)
      else if !AllDigits(data[index + 2..lengthEnd]) then Err(ProtocolError)
      else
        var size := Value(data[index + 2..lengthEnd]);
        if size > DEFAULT_MAXIMUM_BLOCK_SIZE then Err(ProtocolError)
        else if lengthEnd + size > |data| then Err(ProtocolError)
        else Ok(Range(lengthEnd, lengthEnd + size))
  }

  /** Where scanning goes on after a payload that ends at `end`. */
  function AfterPayload(data: Bytes, end: nat): (r: Result<nat>)
    requires end <= |data|
    ensures r.Ok? ==> end <= r.value <= |data|
  {
    var gap := SkipBlanks(data, end);
    if gap == |data| then Ok(gap)
    else if IsSeparator(data[gap]) then Ok(gap + 1)
    else Err(ProtocolError)
  }

  /** The scanner accepts a block exactly where the client's decoder does, with the largest size it allows, takes the
      same payload, and refuses with the same error: only an indefinite length, a zero digit, is unsupported. */
  lemma ScannerIsDecoder(data: Bytes, index: nat)
    requires index < |data| && data[index] == HASH
    ensures var decoded, range := DecodeBlock(data[index..], 64 * 1024 * 1024, true), PayloadRange(data, index);
            && (range.Ok? ==> decoded == Ok(data[range.value.lo..range.value.hi]))
            && (range.Err? ==> decoded == Err(range.error))
            && (range == Err(UnsupportedOperationError) <==> index + 1 < |data| && data[index + 1] == 48)
  {
    var block := data[index..];
    assert [HASH] <= block && (|block| >= 2 ==> block[1] == data[index + 1]);
    if |block| >= 2 && IsDigit(block[1]) && block[1] != ZERO {
      var count := block[1] - ZERO;
      var field := Slice(block, 2, 2 + count);
      if 2 + count <= |block| {
        assert field == data[index + 2..index + 2 + count];
        var size := if AllDigits(field) then Value(field) else 0;
        if 2 + count + size <= |block| {
          assert block[2 + count..2 + count + size] == data[index + 2 + count..index + 2 + count + size];
        }
      } else {
        assert |field| < count;
      }
    }
  }

  function BlockStep(data: Bytes, start: nat, index: nat): (s: Step)
    requires start < index < |data|
    ensures s.next.Ok? ==> At(data, s.next.value) && index < s.next.value.index
  {
    var range := PayloadRange(data, index);
    if range.Err? then Step([], Err(range.error))
    else if Strip(data[start..index], ByteBlanks) == [] then Step([], Err(ProtocolError))
    else
      var part := Part(Range(start, index), Some(range.value));
      var after := AfterPayload(data, range.value.hi);
      if after.Err? then Step([part], Err(after.error))
      else Step([part], Ok(Cursor(after.value, after.value, false)))
  }

  function StepAt(data: Bytes, c: Cursor): (s: Step)
    requires At(data, c) && c.index < |data|
    ensures s.next.Ok? ==> At(data, s.next.value) && c.index < s.next.value.index
  {
    if data[c.index] == QUOTE then
      if c.quoted && c.index + 1 < |data| && data[c.index + 1] == QUOTE then
        Step([], Ok(c.(index := c.index + 2)))
      else
        Step([], Ok(c.(index := c.index + 1, quoted := !c.quoted)))
    else if !c.quoted && IsSeparator(data[c.index]) then
      Step(Segment(data, c.start, c.index), Ok(Cursor(c.index + 1, c.index + 1, false)))
    else if !c.quoted && IsBlockMark(data, c.start, c.index) then
      BlockStep(data, c.start, c.index)
    else
      Step([], Ok(c.(index := c.index + 1)))
  }

  function Scan(data: Bytes, c: Cursor): Layout
    requires At(data, c)
    decreases |data| - c.index
  {
    if c.index == |data| then Layout(Segment(data, c.start, |data|), None)
    else
      var s := StepAt(data, c);
      match s.next
      case Err(e) => Layout(s.emitted, Some(e))
      case Ok(next) =>
        var rest := Scan(data, next);
        Layout(s.emitted + rest.parts, rest.error)
  }

  const ORIGIN := Cursor(0, 0, false)

  ghost predicate Inside(data: Bytes, parts: seq<Part>) {
    forall p | p in parts ::
      p.header.lo <= p.header.hi <= |data| && (p.payload.Some? ==> p.payload.value.lo <= p.payload.value.hi <= |data|)
  }

  /** The bytes of a part: its stripped header and its payload. */
  function Extract(data: Bytes, p: Part): Command
    requires p.header.lo <= p.header.hi <= |data|
    requires p.payload.Some? ==> p.payload.value.lo <= p.payload.value.hi <= |data|
  {
    Command(Strip(data[p.header.lo..p.header.hi], ByteBlanks),
            match p.payload case None => None case Some(r) => Some(data[r.lo..r.hi]))
  }

  function ExtractAll(data: Bytes, parts: seq<Part>): (cs: seq<Command>)
    requires Inside(data, parts)
    ensures |cs| == |parts|
    ensures forall i | 0 <= i < |parts| :: cs[i] == Extract(data, parts[i])
  {
    if parts == [] then [] else [Extract(data, parts[0])] + ExtractAll(data, parts[1..])
  }

  lemma {:induction false} ScanInside(data: Bytes, c: Cursor)
    requires At(data, c)
    ensures Inside(data, Scan(data, c).parts)
    decreases |data| - c.index
  {
    if c.index < |data| {
      var s := StepAt(data, c);
      if s.next.Ok? {
        ScanInside(data, s.next.value);
      }
    }
  }

  /** Without a hash there is no block and no framing error, so decoding such a message as text loses nothing. */
  lemma {:induction false} NoHashNoPayload(data: Bytes, c: Cursor)
    requires At(data, c) && HASH !in data
    ensures Scan(data, c).error == None && forall p | p in Scan(data, c).parts :: p.payload.None?
    decreases |data| - c.index
  {
    hide Strip;
    if c.index < |data| {
      assert data[c.index] in data;
      var step := StepAt(data, c);
      NoHashNoPayload(data, step.next.value);
      hide StepAt;
    }
  }

  // ---- text messages

  /** `text.split("\n")`. */
  function Lines(t: Text): (lines: seq<Text>)
    ensures |lines| >= 1
  {
    var i := IndexOf(t, NL);
    if i == |t| then [t] else [t[..i]] + Lines(t[i + 1..])
  }

  /** The position of the first `c`, or the length. */
  function IndexOf(t: Text, c: int): (i: nat)
    ensures i <= |t| && (i < |t| ==> t[i] == c)
    ensures forall j | 0 <= j < i :: t[j] != c
  {
    if t == [] || t[0] == c then 0 else 1 + IndexOf(t[1..], c)
  }

  /** One round over a line: the piece it cuts off (none or one) and where it goes on. */
  function PieceStep(line: Text, c: Cursor): (s: (seq<Text>, Cursor))
    requires At(line, c) && c.index < |line|
    ensures At(line, s.1) && c.index < s.1.index
  {
    if line[c.index] == QUOTE then
      if c.quoted && c.index + 1 < |line| && line[c.index + 1] == QUOTE then
        ([], c.(index := c.index + 2))
      else
        ([], c.(index := c.index + 1, quoted := !c.quoted))
    else if line[c.index] == SEMICOLON && !c.quoted then
      ([Strip(line[c.start..c.index], TextBlanks)], Cursor(c.index + 1, c.index + 1, false))
    else
      ([], c.(index := c.index + 1))
  }

  /** The stripped pieces of one line between the semicolons outside quotes. */
  function Pieces(line: Text, c: Cursor): seq<Text>
    requires At(line, c)
    decreases |line| - c.index
  {
    if c.index == |line| then [Strip(line[c.start..], TextBlanks)]
    else
      var s := PieceStep(line, c);
      s.0 + Pieces(line, s.1)
  }

  lemma PiecesUnfold(line: Text, c: Cursor)
    requires At(line, c)
    ensures Pieces(line, c) ==
            if c.index == |line| then [Strip(line[c.start..], TextBlanks)]
            else PieceStep(line, c).0 + Pieces(line, PieceStep(line, c).1)
  {}

  function NonEmpty(parts: seq<Text>): seq<Text> {
    if parts == [] then []
    else (if parts[0] == [] then [] else [parts[0]]) + NonEmpty(parts[1..])
  }

  function LinePieces(line: Text): seq<Text> {
    NonEmpty(Pieces(line, ORIGIN))
  }

  function AllPieces(lines: seq<Text>): seq<Text> {
    if lines == [] then []
    else (if Strip(lines[0], TextBlanks) == [] then [] else LinePieces(lines[0])) + AllPieces(lines[1..])
  }

  function TextCommands(data: Bytes): Result<seq<Text>> {
    Inherit(AllPieces(Lines(Decode(data))), [])
  }

  function AsCommands(texts: seq<Text>): (cs: seq<Command>)
    ensures |cs| == |texts|
    ensures forall i | 0 <= i < |texts| :: cs[i] == Command(texts[i], None)
  {
    if texts == [] then [] else [Command(texts[0], None)] + AsCommands(texts[1..])
  }

  function Headers(cs: seq<Command>): (hs: seq<Text>)
    ensures |hs| == |cs|
    ensures forall i | 0 <= i < |cs| :: hs[i] == Decode(cs[i].text)
  {
    if cs == [] then [] else [Decode(cs[0].text)] + Headers(cs[1..])
  }

  /** The resolved headers paired with the payloads in order. */
  function Pair(headers: seq<Text>, cs: seq<Command>): (r: seq<Command>)
    requires |headers| == |cs|
    ensures |r| == |cs|
    ensures forall i | 0 <= i < |cs| :: r[i] == Command(headers[i], cs[i].payload)
  {
    if cs == [] then [] else [Command(headers[0], cs[0].payload)] + Pair(headers[1..], cs[1..])
  }

  predicate AnyPayload(cs: seq<Command>) {
    exists i | 0 <= i < |cs| :: cs[i].payload.Some?
  }

  /** Everything the instrument makes of one write. */
  function Outbound(data: Bytes): Result<seq<Command>> {
    if HASH !in data then
      var texts :- TextCommands(data);
      Ok(AsCommands(texts))
    else
      var layout := Scan(data, ORIGIN);
      if layout.error.Some? then Err(layout.error.value)
      else
        ScanInside(data, ORIGIN);
        Finish(data, ExtractAll(data, layout.parts))
  }

  /** A message without a block is decoded as text; otherwise the found headers go through the path fold. */
  function Finish(data: Bytes, found: seq<Command>): Result<seq<Command>> {
    if !AnyPayload(found) then
      var texts :- TextCommands(data);
      Ok(AsCommands(texts))
    else
      match Inherit(Headers(found), [])
      case Err(e) => Err(e)
      case Ok(resolved) =>
        InheritPointwise(Headers(found), []);
        Ok(Pair(resolved, found))
  }

  // ---- the loops

  method SplitSemicolons(line: Text) returns (parts: seq<Text>)
    ensures parts == LinePieces(line)
  {
    hide Strip, Pieces;
    parts := [];
    var start, index, quoted := 0, 0, false;
    assert [] + Pieces(line, ORIGIN) == Pieces(line, ORIGIN);
    while index < |line|
      invariant 0 <= start <= index <= |line|
      invariant Pieces(line, ORIGIN) == parts + Pieces(line, Cursor(start, index, quoted))
    {
      PiecesUnfold(line, Cursor(start, index, quoted));
      ghost var step := PieceStep(line, Cursor(start, index, quoted));
      assert parts + (step.0 + Pieces(line, step.1)) == (parts + step.0) + Pieces(line, step.1);
      assert parts + [] == parts;
      if line[index] == QUOTE {
        if quoted && index + 1 < |line| && line[index + 1] == QUOTE {
          index := index + 2;
          continue;
        }
        quoted := !quoted;
      } else if line[index] == SEMICOLON && !quoted {
        parts := parts + [Strip(line[start..index], TextBlanks)];
        start := index + 1;
      }
      index := index + 1;
    }
    PiecesUnfold(line, Cursor(start, index, quoted));
    parts := parts + [Strip(line[start..], TextBlanks)];
    return NonEmpty(parts);
  }

  method SplitProgramMessage(data: Bytes) returns (r: Result<seq<Text>>)
    ensures r == TextCommands(data)
  {
    var physical := Lines(Decode(data));
    var commands := SplitLines(physical);
    r := InheritHeaderPaths(commands);
  }

  method SplitLines(physical: seq<Text>) returns (commands: seq<Text>)
    ensures commands == AllPieces(physical)
  {
    commands := [];
    assert physical[0..] == physical;
    for i := 0 to |physical|
      invariant AllPieces(physical) == commands + AllPieces(physical[i..])
    {
      ghost var rest := AllPieces(physical[i + 1..]);
      assert physical[i..][1..] == physical[i + 1..];
      if Strip(physical[i], TextBlanks) == [] {
        assert AllPieces(physical[i..]) == [] + rest == rest;
        continue;
      }
      var pieces := SplitSemicolons(physical[i]);
      assert commands + (pieces + rest) == (commands + pieces) + rest;
      commands := commands + pieces;
    }
  }

  /** The block branch of the scanning loop: the payload it appends, then the position after its separator. */
  method ReadBlock(data: Bytes, start: nat, index: nat) returns (range: Result<Range>, after: Result<nat>)
    requires start < index < |data|
    ensures BlockStep(data, start, index) ==
            if range.Err? then Step([], Err(range.error))
            else Step([Part(Range(start, index), Some(range.value))],
                      if after.Err? then Err(after.error) else Ok(Cursor(after.value, after.value, false)))
  {
    hide Strip, Value;
    after := Ok(0);
    if index + 2 > |data| { return Err(ProtocolError), after; }
    var digit := data[index + 1];
    if digit == ZERO { return Err(UnsupportedOperationError), after; }
    if !(49 <= digit <= 57) { return Err(ProtocolError), after; }
    var width := digit - ZERO;
    var lengthEnd := index + 2 + width;
    if lengthEnd > |data| { return Err(ProtocolError), after; }
    var field := data[index + 2..lengthEnd];
    if !AllDigits(field) { return Err(ProtocolError), after; }
    var size := Value(field);
    if size > DEFAULT_MAXIMUM_BLOCK_SIZE { return Err(ProtocolError), after; }
    var end := lengthEnd + size;
    if end > |data| { return Err(ProtocolError), after; }
    if Strip(data[start..index], ByteBlanks) == [] { return Err(ProtocolError), after; }
    range := Ok(Range(lengthEnd, end));
    var gap := end;
    while gap < |data| && (data[gap] == SPACE || data[gap] == TAB)
      invariant end <= gap <= |data|
      invariant SkipBlanks(data, end) == SkipBlanks(data, gap)
    {
      gap := gap + 1;
    }
    if gap < |data| {
      if data[gap] == NL {
        gap := gap + 1;
      } else if data[gap] == SEMICOLON {
        gap := gap + 1;
      } else {
        return range, Err(ProtocolError);
      }
    }
    after := Ok(gap);
  }

  /** The scanning loop. The parts are kept as ranges of the message, which does not change. */
  method ScanBlocks(data: Bytes) returns (r: Result<seq<Part>>)
    ensures var layout := Scan(data, ORIGIN);
            r == if layout.error.Some? then Err(layout.error.value) else Ok(layout.parts)
  {
    hide Scan;
    var parts: seq<Part> := [];
    var start, index, quoted := 0, 0, false;
    AfterNothing(Scan(data, ORIGIN));
    while index < |data|
      invariant 0 <= start <= index <= |data|
      invariant Scan(data, ORIGIN) == After(parts, Scan(data, Cursor(start, index, quoted)))
    {
      AfterStep(data, parts, Cursor(start, index, quoted));
      if data[index] == QUOTE {
        if quoted && index + 1 < |data| && data[index + 1] == QUOTE {
          index := index + 2;
          continue;
        }
        quoted := !quoted;
        index := index + 1;
        continue;
      }
      if !quoted && (data[index] == NL || data[index] == SEMICOLON) {
        if Strip(data[start..index], ByteBlanks) != [] {
          parts := parts + [Part(Range(start, index), None)];
        }
        index := index + 1;
        start := index;
        continue;
      }
      if !quoted && IsBlockMark(data, start, index) {
        var range, after := ReadBlock(data, start, index);
        if range.Err? { return Err(range.error); }
        if after.Err? { return Err(after.error); }
        parts := parts + [Part(Range(start, index), Some(range.value))];
        index := after.value;
        start := index;
        continue;
      }
      index := index + 1;
    }
    ScanEnd(data, start, quoted);
    if Strip(data[start..|data|], ByteBlanks) != [] {
      parts := parts + [Part(Range(start, |data|), None)];
    } else {
      assert parts + [] == parts;
    }
    r := Ok(parts);
  }

  method SplitOutbound(data: Bytes) returns (r: Result<seq<Command>>)
    ensures r == Outbound(data)
  {
    hide Scan, Inherit, TextCommands;
    if HASH !in data {
      var texts := SplitProgramMessage(data);
      return if texts.Ok? then Ok(AsCommands(texts.value)) else Err(texts.error);
    }
    var parts := ScanBlocks(data);
    if parts.Err? { return Err(parts.error); }
    ScanInside(data, ORIGIN);
    var found := ExtractAll(data, parts.value);
    if forall i | 0 <= i < |found| :: found[i].payload.None? {
      var texts := SplitProgramMessage(data);
      return if texts.Ok? then Ok(AsCommands(texts.value)) else Err(texts.error);
    }
    var resolved := InheritHeaderPaths(Headers(found));
    if resolved.Err? { return Err(resolved.error); }
    InheritPointwise(Headers(found), []);
    return Ok(Pair(resolved.value, found));
  }

  ghost function After(done: seq<Part>, rest: Layout): Layout {
    Layout(done + rest.parts, rest.error)
  }

  /** One round of the scanning loop, seen from the parts already found. */
  lemma AfterStep(data: Bytes, done: seq<Part>, c: Cursor)
    requires At(data, c) && c.index < |data|
    ensures var s := StepAt(data, c);
            After(done, Scan(data, c)) ==
            if s.next.Err? then Layout(done + s.emitted, Some(s.next.error))
            else After(if s.emitted == [] then done else done + [s.emitted[0]], Scan(data, s.next.value))
    ensures |StepAt(data, c).emitted| <= 1
  {
    EmitsOne(data, c);
    hide StepAt;
    var s := StepAt(data, c);
    if s.next.Ok? {
      var rest := Scan(data, s.next.value);
      assert done + (s.emitted + rest.parts) == (done + s.emitted) + rest.parts;
      assert s.emitted == [] || s.emitted == [s.emitted[0]];
      assert done + [] == done;
    }
  }

  lemma EmitsOne(data: Bytes, c: Cursor)
    requires At(data, c) && c.index < |data|
    ensures |StepAt(data, c).emitted| <= 1
  {
    hide IsBlockMark, AfterPayload, PayloadRange, Strip;
  }

  lemma ScanEnd(data: Bytes, start: nat, quoted: bool)
    requires start <= |data|
    ensures Scan(data, Cursor(start, |data|, quoted)) == Layout(Segment(data, start, |data|), None)
  {}

  lemma AfterNothing(rest: Layout)
    ensures After([], rest) == rest
  {
    assert [] + rest.parts == rest.parts;
  }
}
