/** The client's printed messages, scanned by the instrument, give back the printed items. */
module RoundTrip {
  import opened ByteStrings
  import opened BinaryBlock
  import opened Errors
  import opened HeaderPaths
  import opened ProgramMessage

  /** What a client sends: a text command, or a header in front of a block, with blanks after the block. */
  datatype Item = TextItem(command: Bytes) | BlockItem(header: Bytes, payload: Bytes, gap: Bytes)

  /** An item and the separator written after it; only the last item may have none. */
  datatype Sent = Sent(item: Item, separator: Option<Byte>)

  /** From position `i` on: quotes balance, no separator or block mark stands outside them, and no line break inside. */
  predicate Clean(t: Bytes, i: nat, quoted: bool)
    requires i <= |t|
    decreases |t| - i
  {
    if i == |t| then !quoted
    else if t[i] == NL then false
    else if t[i] == QUOTE then
      if quoted && i + 1 < |t| && t[i + 1] == QUOTE then Clean(t, i + 2, quoted) else Clean(t, i + 1, !quoted)
    else (quoted || (t[i] != SEMICOLON && !IsBlockMark(t, 0, i))) && Clean(t, i + 1, quoted)
  }

  predicate ItemOk(item: Item) {
    match item
    case TextItem(command) =>
      Clean(command, 0, false) && Trimmed(command, TextBlanks)
    case BlockItem(header, payload, gap) =>
      && Clean(header, 0, false)
      && header != [] && IsBlockLead(header[|header| - 1])
      && Strip(header, ByteBlanks) != []
      && |payload| <= DEFAULT_MAXIMUM_BLOCK_SIZE
      && forall i | 0 <= i < |gap| :: gap[i] == SPACE || gap[i] == TAB
  }

  predicate MessageOk(message: seq<Sent>) {
    && (forall m | m in message :: ItemOk(m.item))
    && (forall m | m in message :: m.separator.Some? ==> IsSeparator(m.separator.value))
    && (forall i | 0 <= i < |message| - 1 :: message[i].separator.Some?)
  }

  function Frame(payload: Bytes): Bytes {
    var block := Encode(payload);
    if block.Ok? then block.value else []
  }

  function Body(item: Item): Bytes {
    match item
    case TextItem(command) => command
    case BlockItem(header, payload, gap) => header + Frame(payload) + gap
  }

  function Ending(m: Sent): Bytes {
    if m.separator.Some? then [m.separator.value] else []
  }

  function Render(message: seq<Sent>): Bytes {
    if message == [] then [] else Body(message[0].item) + Ending(message[0]) + Render(message[1..])
  }

  /** The parts a scan of the rendered message must find when it starts at `offset`. */
  function PartsOf(message: seq<Sent>, offset: nat): seq<Part> {
    if message == [] then []
    else
      [PartOf(message[0].item, offset)]
      + PartsOf(message[1..], offset + |Body(message[0].item)| + |Ending(message[0])|)
  }

  function PartOf(item: Item, offset: nat): Part {
    match item
    case TextItem(command) => Part(Range(offset, offset + |command|), None)
    case BlockItem(header, payload, gap) =>
      var lo := offset + |header| + 2 + |Decimal(|payload|)|;
      Part(Range(offset, offset + |header|), Some(Range(lo, lo + |payload|)))
  }

  // ---- reading a concatenation

  predicate Has(data: Bytes, offset: nat, t: Bytes) {
    offset + |t| <= |data| && data[offset..offset + |t|] == t
  }

  lemma HasBoth(data: Bytes, offset: nat, a: Bytes, b: Bytes)
    requires Has(data, offset, a + b)
    ensures Has(data, offset, a) && Has(data, offset + |a|, b)
  {
    assert data[offset..offset + |a|] == (a + b)[..|a|];
    assert data[offset + |a|..offset + |a + b|] == (a + b)[|a|..];
  }

  lemma HasAt(data: Bytes, offset: nat, t: Bytes)
    requires Has(data, offset, t)
    ensures forall k | 0 <= k < |t| :: data[offset + k] == t[k]
  {
    assert forall k | 0 <= k < |t| :: data[offset..offset + |t|][k] == t[k];
  }

  lemma HasFits(data: Bytes, offset: nat, t: Bytes)
    requires Has(data, offset, t)
    ensures offset + |t| <= |data|
  {}

  lemma HasNth(data: Bytes, offset: nat, t: Bytes, k: nat)
    requires Has(data, offset, t) && k < |t|
    ensures data[offset + k] == t[k]
  {
    assert data[offset..offset + |t|][k] == t[k];
  }

  // ---- scanning one item

  /** One step over clean bytes emits nothing and stays on clean bytes. */
  lemma CleanStep(data: Bytes, offset: nat, t: Bytes, i: nat, quoted: bool)
    requires i < |t| && Clean(t, i, quoted)
    requires Has(data, offset, t)
    requires offset + |t| < |data| ==> data[offset + |t|] != QUOTE
    ensures At(data, Cursor(offset, offset + i, quoted)) && offset + i < |data|
    ensures var step := StepAt(data, Cursor(offset, offset + i, quoted));
            && step.emitted == [] && step.next.Ok? && step.next.value.start == offset
            && offset + i < step.next.value.index <= offset + |t|
            && Clean(t, step.next.value.index - offset, step.next.value.quoted)
  {
    hide Strip, BlockStep, Segment;
    HasAt(data, offset, t);
    assert data[offset + i] == t[i];
    if i + 1 < |t| { assert data[offset + i + 1] == t[i + 1]; }
    if i > 0 { assert data[offset + i - 1] == t[i - 1]; }
  }

  /** Clean bytes are walked over without a part, whatever follows them. */
  lemma {:induction false} WalkClean(data: Bytes, offset: nat, t: Bytes, i: nat, quoted: bool)
    requires i <= |t| && Clean(t, i, quoted)
    requires Has(data, offset, t)
    requires offset + |t| < |data| ==> data[offset + |t|] != QUOTE
    ensures Scan(data, Cursor(offset, offset + i, quoted)) == Scan(data, Cursor(offset, offset + |t|, false))
    decreases |t| - i
  {
    hide *;
    CleanEnds(t, quoted);
    if i < |t| {
      CleanStep(data, offset, t, i, quoted);
      var c := Cursor(offset, offset + i, quoted);
      ScanSilent(data, c);
      var next := StepAt(data, c).next.value;
      WalkClean(data, offset, t, next.index - offset, next.quoted);
    }
  }

  lemma CleanEnds(t: Bytes, quoted: bool)
    ensures Clean(t, |t|, quoted) ==> !quoted
  {}

  lemma ScanSilent(data: Bytes, c: Cursor)
    requires At(data, c) && c.index < |data|
    requires StepAt(data, c).emitted == [] && StepAt(data, c).next.Ok?
    ensures Scan(data, c) == Scan(data, StepAt(data, c).next.value)
  {
    hide StepAt;
    var rest := Scan(data, StepAt(data, c).next.value);
    assert [] + rest.parts == rest.parts;
  }

  lemma ScanEmits(data: Bytes, c: Cursor, step: Step)
    requires At(data, c) && c.index < |data| && StepAt(data, c) == step && step.next.Ok?
    ensures var rest := Scan(data, step.next.value);
            Scan(data, c) == Layout(step.emitted + rest.parts, rest.error)
  {
    hide StepAt;
  }

  lemma FrameShape(payload: Bytes)
    requires |payload| <= DEFAULT_MAXIMUM_BLOCK_SIZE
    ensures |Decimal(|payload|)| <= 9
    ensures Frame(payload) == [HASH, ZERO + |Decimal(|payload|)|] + (Decimal(|payload|) + payload)
  {
    NineDigits(|payload|);
    var digits := Decimal(|payload|);
    assert [HASH, ZERO + |digits|] + digits + payload == [HASH, ZERO + |digits|] + (digits + payload);
  }

  lemma FieldIsRead(data: Bytes, index: nat, field: Bytes, size: nat)
    requires 1 <= |field| <= 9 && AllDigits(field) && Value(field) == size <= DEFAULT_MAXIMUM_BLOCK_SIZE
    requires index + 2 + |field| + size <= |data|
    requires data[index + 1] == ZERO + |field| && Has(data, index + 2, field)
    ensures var lo := index + 2 + |field|; PayloadRange(data, index) == Ok(Range(lo, lo + size))
  {
    hide Value;
  }

  /** The scanner reads exactly the payload that was encoded. */
  lemma FrameIsRead(data: Bytes, index: nat, payload: Bytes)
    requires |payload| <= DEFAULT_MAXIMUM_BLOCK_SIZE
    requires index + 2 <= |data| && Has(data, index, Frame(payload))
    ensures var lo := index + |Frame(payload)| - |payload|;
            index + 3 <= lo && PayloadRange(data, index) == Ok(Range(lo, lo + |payload|)) && Has(data, lo, payload)
    ensures |Frame(payload)| == 2 + |Decimal(|payload|)| + |payload|
    ensures data[index] == HASH && IsDigit(data[index + 1])
  {
    hide PayloadRange, Value, Decimal, Frame, Has;
    FrameShape(payload);
    var digits := Decimal(|payload|);
    HasBoth(data, index, [HASH, ZERO + |digits|], digits + payload);
    HasNth(data, index, [HASH, ZERO + |digits|], 0);
    HasNth(data, index, [HASH, ZERO + |digits|], 1);
    HasBoth(data, index + 2, digits, payload);
    ValueOfDecimal(|payload|);
    FieldIsRead(data, index, digits, |payload|);
    assert index + |Frame(payload)| - |payload| == index + 2 + |digits|;
    HasFits(data, index, Frame(payload));
  }

  lemma {:induction false} SkipGap(data: Bytes, i: nat, gap: Bytes)
    requires Has(data, i, gap)
    requires forall k | 0 <= k < |gap| :: gap[k] == SPACE || gap[k] == TAB
    requires i + |gap| < |data| ==> IsSeparator(data[i + |gap|])
    ensures SkipBlanks(data, i) == i + |gap|
    decreases |gap|
  {
    if gap != [] {
      HasAt(data, i, gap);
      assert gap == [gap[0]] + gap[1..];
      HasBoth(data, i, [gap[0]], gap[1..]);
      SkipGap(data, i + 1, gap[1..]);
    }
  }

  ghost predicate Separated(data: Bytes, end: nat, m: Sent) {
    match m.separator
    case Some(b) => IsSeparator(b) && end < |data| && data[end] == b
    case None => end == |data|
  }

  /** What scanning one item and its separator must come to. */
  ghost predicate ScansTo(data: Bytes, offset: nat, m: Sent)
    requires offset + |Body(m.item)| + |Ending(m)| <= |data|
  {
    var next := offset + |Body(m.item)| + |Ending(m)|;
    var rest := Scan(data, Cursor(next, next, false));
    Scan(data, Cursor(offset, offset, false)) == Layout([PartOf(m.item, offset)] + rest.parts, rest.error)
  }

  lemma ScanTextItem(data: Bytes, offset: nat, m: Sent)
    requires m.item.TextItem? && ItemOk(m.item)
    requires Has(data, offset, m.item.command) && Separated(data, offset + |m.item.command|, m)
    ensures ScansTo(data, offset, m)
  {
    hide Clean, Segment, Scan, Strip;
    var t := m.item.command;
    var end := offset + |t|;
    WalkClean(data, offset, t, 0, false);
    TextSegment(data, offset, t);
    if m.separator.Some? {
      var step := Step([PartOf(m.item, offset)], Ok(Cursor(end + 1, end + 1, false)));
      assert StepAt(data, Cursor(offset, end, false)) == step;
      hide StepAt;
      ScanEmits(data, Cursor(offset, end, false), step);
    } else {
      hide StepAt;
      ScanTail(data, offset);
      ScanTail(data, end);
      EmptySegment(data);
      assert [PartOf(m.item, offset)] + [] == [PartOf(m.item, offset)];
    }
  }

  lemma ScanTail(data: Bytes, start: nat)
    requires start <= |data|
    ensures Scan(data, Cursor(start, |data|, false)) == Layout(Segment(data, start, |data|), None)
  {}

  lemma EmptySegment(data: Bytes)
    ensures Segment(data, |data|, |data|) == []
  {
    assert data[|data|..|data|] == [];
  }

  lemma TextSegment(data: Bytes, offset: nat, t: Bytes)
    requires Has(data, offset, t) && Trimmed(t, TextBlanks)
    ensures Segment(data, offset, offset + |t|) == [Part(Range(offset, offset + |t|), None)]
  {
    StripTrimmed(t, ByteBlanks);
  }

  lemma ScanBlockItem(data: Bytes, offset: nat, m: Sent)
    requires m.item.BlockItem? && ItemOk(m.item)
    requires Has(data, offset, Body(m.item)) && Separated(data, offset + |Body(m.item)|, m)
    ensures ScansTo(data, offset, m)
  {
    hide ItemOk, Clean, Scan, StepAt, PartOf, Has, Body, Ending, Separated;
    ScanBlockStep(data, offset, m);
    WalkClean(data, offset, m.item.header, 0, false);
    ScanEmits(data, Cursor(offset, offset + |m.item.header|, false), BlockStepOf(m, offset));
  }

  function BlockStepOf(m: Sent, offset: nat): Step {
    var next := offset + |Body(m.item)| + |Ending(m)|;
    Step([PartOf(m.item, offset)], Ok(Cursor(next, next, false)))
  }

  lemma ScanBlockStep(data: Bytes, offset: nat, m: Sent)
    requires m.item.BlockItem? && ItemOk(m.item)
    requires Has(data, offset, Body(m.item)) && Separated(data, offset + |Body(m.item)|, m)
    ensures Clean(m.item.header, 0, false) && Has(data, offset, m.item.header)
    ensures offset + |Body(m.item)| + |Ending(m)| <= |data|
    ensures offset + |m.item.header| < |data| && data[offset + |m.item.header|] == HASH
    ensures StepAt(data, Cursor(offset, offset + |m.item.header|, false)) == BlockStepOf(m, offset)
  {
    hide Strip, Clean, Frame, SkipBlanks, PayloadRange, StepAt, PartOf, Has;
    var BlockItem(header, payload, gap) := m.item;
    var mark := offset + |header|;
    var end := mark + |Frame(payload)|;
    HasThree(data, offset, header, Frame(payload), gap);
    SkipGap(data, end, gap);
    HasNth(data, offset, header, |header| - 1);
    FrameShape(payload);
    FrameIsRead(data, mark, payload);
    BlockStepIs(data, offset, m, mark, end, end + |gap| + |Ending(m)|);
  }

  lemma HasThree(data: Bytes, offset: nat, a: Bytes, b: Bytes, c: Bytes)
    requires Has(data, offset, a + b + c)
    ensures offset + |a| + |b| + |c| <= |data|
    ensures Has(data, offset, a) && Has(data, offset + |a|, b) && Has(data, offset + |a| + |b|, c)
  {
    HasFits(data, offset, a + b + c);
    hide *;
    HasBoth(data, offset, a + b, c);
    HasBoth(data, offset, a, b);
  }

  lemma BlockStepIs(data: Bytes, offset: nat, m: Sent, mark: nat, end: nat, next: nat)
    requires m.item.BlockItem? && m.item.header != [] && Strip(m.item.header, ByteBlanks) != []
    requires Has(data, offset, m.item.header) && mark == offset + |m.item.header|
    requires mark + 1 < |data| && data[mark] == HASH && IsBlockLead(data[mark - 1]) && IsDigit(data[mark + 1])
    requires |m.item.payload| <= end <= |data|
    requires PayloadRange(data, mark) == Ok(Range(end - |m.item.payload|, end))
    requires end == mark + 2 + |Decimal(|m.item.payload|)| + |m.item.payload|
    requires Separated(data, SkipBlanks(data, end), m) && next == SkipBlanks(data, end) + |Ending(m)|
    ensures StepAt(data, Cursor(offset, mark, false)) == Step([PartOf(m.item, offset)], Ok(Cursor(next, next, false)))
  {
    hide Strip, PayloadRange, SkipBlanks;
    assert IsBlockMark(data, offset, mark);
    assert data[offset..mark] == m.item.header;
    assert AfterPayload(data, end) == Ok(next);
  }

  lemma ScanItem(data: Bytes, offset: nat, m: Sent)
    requires ItemOk(m.item)
    requires Has(data, offset, Body(m.item)) && Separated(data, offset + |Body(m.item)|, m)
    ensures ScansTo(data, offset, m)
  {
    hide ItemOk, ScansTo, Separated;
    if m.item.TextItem? { ScanTextItem(data, offset, m); } else { ScanBlockItem(data, offset, m); }
  }

  lemma {:induction false} ScanRender(data: Bytes, offset: nat, message: seq<Sent>)
    requires MessageOk(message)
    requires Has(data, offset, Render(message)) && offset + |Render(message)| == |data|
    ensures Scan(data, Cursor(offset, offset, false)) == Layout(PartsOf(message, offset), None)
    decreases |message|
  {
    hide *;
    if message == [] {
      NothingToScan(data, offset);
    } else {
      RenderUnfolds(message, offset);
      FirstOk(message);
      var m := message[0];
      var body, ending, rest := Body(m.item), Ending(m), Render(message[1..]);
      var next := offset + |body| + |ending|;
      HasBoth(data, offset, body + ending, rest);
      HasBoth(data, offset, body, ending);
      IsSeparated(data, offset + |body|, message);
      ScanItem(data, offset, m);
      TailOk(message);
      ScanRender(data, next, message[1..]);
      UseScansTo(data, offset, m, PartsOf(message[1..], next));
    }
  }

  lemma NothingToScan(data: Bytes, offset: nat)
    requires Has(data, offset, Render([])) && offset + |Render([])| == |data|
    ensures Scan(data, Cursor(offset, offset, false)) == Layout(PartsOf([], offset), None)
  {
    ScanTail(data, offset);
    EmptySegment(data);
  }

  lemma UseScansTo(data: Bytes, offset: nat, m: Sent, parts: seq<Part>)
    requires offset + |Body(m.item)| + |Ending(m)| <= |data| && ScansTo(data, offset, m)
    requires var next := offset + |Body(m.item)| + |Ending(m)|;
             Scan(data, Cursor(next, next, false)) == Layout(parts, None)
    ensures Scan(data, Cursor(offset, offset, false)) == Layout([PartOf(m.item, offset)] + parts, None)
  {
    hide Scan, Body, PartOf;
  }

  lemma IsSeparated(data: Bytes, end: nat, message: seq<Sent>)
    requires MessageOk(message) && message != []
    requires Has(data, end, Ending(message[0])) && end + |Ending(message[0])| + |Render(message[1..])| == |data|
    ensures Separated(data, end, message[0])
  {
    hide ItemOk;
    if Ending(message[0]) != [] { HasNth(data, end, Ending(message[0]), 0); }
    assert message[0] in message;
    assert message[0].separator.None? ==> message[1..] == [];
  }

  /** The hypotheses of a message pass to its tail. */
  lemma TailOk(message: seq<Sent>)
    requires MessageOk(message) && message != []
    ensures MessageOk(message[1..])
  {
    hide ItemOk;
    assert forall m | m in message[1..] :: m in message;
    assert forall i | 0 <= i < |message[1..]| - 1 :: message[1..][i] == message[i + 1];
  }

  // ---- splitting text

  /** Clean text is one piece up to the semicolon or the end behind it. */
  lemma {:induction false} WalkPieces(line: Text, t: Bytes, i: nat, quoted: bool)
    requires i <= |t| <= |line| && Clean(t, i, quoted)
    requires forall k | 0 <= k < |t| :: line[k] == DecodeByte(t[k])
    requires |t| < |line| ==> line[|t|] == SEMICOLON
    ensures Pieces(line, Cursor(0, i, quoted)) == Pieces(line, Cursor(0, |t|, false))
    decreases |t| - i
  {
    if i < |t| {
      var c := Cursor(0, i, quoted);
      var next := PieceStep(line, c).1;
      assert PieceStep(line, c).0 == [];
      PiecesSilent(line, c);
      hide Pieces;
      WalkPieces(line, t, next.index, next.quoted);
    }
  }

  lemma PiecesSilent(line: Text, c: Cursor)
    requires At(line, c) && c.index < |line| && PieceStep(line, c).0 == []
    ensures Pieces(line, c) == Pieces(line, PieceStep(line, c).1)
  {
    hide PieceStep;
    assert [] + Pieces(line, PieceStep(line, c).1) == Pieces(line, PieceStep(line, c).1);
  }

  /** Pieces of a suffix do not depend on what stood before it. */
  lemma {:induction false} PiecesShift(whole: Text, k: nat, line: Text, c: Cursor)
    requires At(line, c)
    requires k + |line| == |whole| && forall j | k <= j < |whole| :: whole[j] == line[j - k]
    ensures Pieces(whole, Cursor(k + c.start, k + c.index, c.quoted)) == Pieces(line, c)
    decreases |line| - c.index
  {
    hide Pieces, PieceStep, Strip;
    var d := Cursor(k + c.start, k + c.index, c.quoted);
    PiecesUnfold(line, c);
    PiecesUnfold(whole, d);
    if c.index == |line| {
      assert whole[d.start..] == line[c.start..];
    } else {
      PieceStepShift(whole, k, line, c);
      PiecesShift(whole, k, line, PieceStep(line, c).1);
    }
  }

  lemma PieceStepShift(whole: Text, k: nat, line: Text, c: Cursor)
    requires At(line, c) && c.index < |line|
    requires k + |line| == |whole| && forall j | k <= j < |whole| :: whole[j] == line[j - k]
    ensures var (pieces, next) := PieceStep(line, c);
            PieceStep(whole, Cursor(k + c.start, k + c.index, c.quoted)) ==
            (pieces, Cursor(k + next.start, k + next.index, next.quoted))
  {
    assert whole[k + c.start..k + c.index] == line[c.start..c.index];
  }

  lemma DecodeTrimmed(t: Bytes)
    requires Trimmed(t, TextBlanks)
    ensures Strip(Decode(t), TextBlanks) == Decode(t) != []
  {
    StripTrimmed(Decode(t), TextBlanks);
  }

  /** A line made of one clean text. */
  lemma LineOfOne(t: Bytes)
    requires Clean(t, 0, false) && Trimmed(t, TextBlanks)
    ensures LinePieces(Decode(t)) == [Decode(t)]
  {
    hide Clean, Strip, Pieces;
    var line := Decode(t);
    DecodeTrimmed(t);
    WalkPieces(line, t, 0, false);
    PiecesUnfold(line, Cursor(0, |t|, false));
    assert line[0..] == line;
    OnePiece(line, []);
  }

  /** A line made of a clean text, a semicolon and more. */
  lemma LineOfMore(t: Bytes, more: Text)
    requires Clean(t, 0, false) && Trimmed(t, TextBlanks)
    ensures LinePieces(Decode(t) + [SEMICOLON] + more) == [Decode(t)] + LinePieces(more)
  {
    hide Clean, Strip, Pieces;
    var line := Decode(t) + [SEMICOLON] + more;
    DecodeTrimmed(t);
    WalkPieces(line, t, 0, false);
    PiecesShift(line, |t| + 1, more, ORIGIN);
    PiecesUnfold(line, Cursor(0, |t|, false));
    assert line[0..|t|] == Decode(t);
    OnePiece(Decode(t), Pieces(more, ORIGIN));
  }

  lemma OnePiece(piece: Text, rest: seq<Text>)
    requires piece != []
    ensures NonEmpty([piece] + rest) == [piece] + NonEmpty(rest)
    ensures NonEmpty([piece]) == [piece]
  {
    assert ([piece] + rest)[1..] == rest;
    assert [piece] + NonEmpty([]) == [piece];
  }

  lemma {:induction false} BlankPieces(line: Text, i: nat)
    requires i <= |line| && forall k | 0 <= k < |line| :: IsBlank(line[k], TextBlanks)
    ensures Pieces(line, Cursor(0, i, false)) == [[]]
    decreases |line| - i
  {
    if i == |line| {
      StripBlankIff(line, TextBlanks);
      assert line[0..] == line;
    } else {
      BlankPieces(line, i + 1);
    }
  }

  /** Skipping a blank line loses nothing. */
  lemma AllPiecesHead(lines: seq<Text>)
    requires lines != []
    ensures AllPieces(lines) == LinePieces(lines[0]) + AllPieces(lines[1..])
  {
    if Strip(lines[0], TextBlanks) == [] {
      StripBlankIff(lines[0], TextBlanks);
      BlankPieces(lines[0], 0);
      assert LinePieces(lines[0]) == NonEmpty([[]]) == [];
    }
  }

  lemma {:induction false} CleanHasNoLineBreak(t: Bytes, i: nat, quoted: bool)
    requires i <= |t| && Clean(t, i, quoted)
    ensures forall k | i <= k < |t| :: t[k] != NL
    decreases |t| - i
  {
    if i < |t| {
      if t[i] == QUOTE {
        if quoted && i + 1 < |t| && t[i + 1] == QUOTE {
          CleanHasNoLineBreak(t, i + 2, quoted);
        } else {
          CleanHasNoLineBreak(t, i + 1, !quoted);
        }
      } else {
        CleanHasNoLineBreak(t, i + 1, quoted);
      }
    }
  }

  lemma {:induction false} IndexOfConcat(front: Text, rest: Text, c: int)
    requires forall k | 0 <= k < |front| :: front[k] != c
    ensures IndexOf(front + rest, c) == |front| + IndexOf(rest, c)
  {
    if front == [] {
      assert front + rest == rest;
    } else {
      assert (front + rest)[1..] == front[1..] + rest;
      IndexOfConcat(front[1..], rest, c);
    }
  }

  /** Text without a line break only lengthens the first line. */
  lemma LinesConcat(front: Text, rest: Text)
    requires forall k | 0 <= k < |front| :: front[k] != NL
    ensures Lines(front + rest) == [front + Lines(rest)[0]] + Lines(rest)[1..]
  {
    hide *;
    IndexOfConcat(front, rest, NL);
    LinesUnfold(rest);
    LinesUnfold(front + rest);
    var i := IndexOf(rest, NL);
    if i < |rest| {
      CutBehind(front, rest, i);
      HeadAndTail(rest[..i], Lines(rest[i + 1..]));
    } else {
      HeadAndTail(rest, []);
      assert [front + rest] + [] == [front + rest] && [rest] + [] == [rest];
    }
  }

  lemma CutBehind(front: Text, rest: Text, i: nat)
    requires i < |rest|
    ensures (front + rest)[..|front| + i] == front + rest[..i]
    ensures (front + rest)[|front| + i + 1..] == rest[i + 1..]
  {}

  lemma HeadAndTail<T>(head: T, tail: seq<T>)
    ensures ([head] + tail)[0] == head && ([head] + tail)[1..] == tail
  {}

  lemma LinesUnfold(t: Text)
    ensures var i := IndexOf(t, NL);
            Lines(t) == if i == |t| then [t] else [t[..i]] + Lines(t[i + 1..])
  {
    hide IndexOf;
  }

  lemma LinesBreak(front: Text, rest: Text)
    requires forall k | 0 <= k < |front| :: front[k] != NL
    ensures Lines(front + [NL] + rest) == [front] + Lines(rest)
  {
    assert front + [NL] + rest == front + ([NL] + rest);
    LinesConcat(front, [NL] + rest);
    assert ([NL] + rest)[..0] == [] && ([NL] + rest)[1..] == rest;
    assert front + [] == front;
  }

  function Texts(message: seq<Sent>): (ts: seq<Text>)
    requires forall m | m in message :: m.item.TextItem?
    ensures |ts| == |message|
  {
    if message == [] then [] else [Decode(message[0].item.command)] + Texts(message[1..])
  }

  lemma CleanLines(t: Bytes, tail: Text)
    requires Clean(t, 0, false)
    ensures Lines(Decode(t) + [SEMICOLON] + tail) == [Decode(t) + [SEMICOLON] + Lines(tail)[0]] + Lines(tail)[1..]
  {
    CleanHasNoLineBreak(t, 0, false);
    LinesConcat(Decode(t) + [SEMICOLON], tail);
  }

  lemma SplitMore(t: Bytes, tail: Text)
    requires Clean(t, 0, false) && Trimmed(t, TextBlanks)
    ensures AllPieces(Lines(Decode(t) + [SEMICOLON] + tail)) == [Decode(t)] + AllPieces(Lines(tail))
  {
    hide Clean, Strip, LinePieces, AllPieces, Lines, Trimmed;
    var first, others := Lines(tail)[0], Lines(tail)[1..];
    CleanLines(t, tail);
    LineOfMore(t, first);
    hide Decode;
    var lines := [Decode(t) + [SEMICOLON] + first] + others;
    AllPiecesHead(lines);
    AllPiecesHead(Lines(tail));
    assert lines[0] == Decode(t) + [SEMICOLON] + first && lines[1..] == others;
    assert ([Decode(t)] + LinePieces(first)) + AllPieces(others)
        == [Decode(t)] + (LinePieces(first) + AllPieces(others));
  }

  lemma SplitBreak(t: Bytes, tail: Text)
    requires Clean(t, 0, false) && Trimmed(t, TextBlanks)
    ensures AllPieces(Lines(Decode(t) + [NL] + tail)) == [Decode(t)] + AllPieces(Lines(tail))
  {
    CleanHasNoLineBreak(t, 0, false);
    hide Clean, Strip, LinePieces, AllPieces, Lines;
    LinesBreak(Decode(t), tail);
    AllPiecesHead([Decode(t)] + Lines(tail));
    LineOfOne(t);
  }

  lemma SplitLast(t: Bytes)
    requires Clean(t, 0, false) && Trimmed(t, TextBlanks)
    ensures AllPieces(Lines(Decode(t))) == [Decode(t)]
  {
    CleanHasNoLineBreak(t, 0, false);
    hide Clean, Strip, LinePieces, AllPieces;
    IndexOfConcat(Decode(t), [], NL);
    assert Decode(t) + [] == Decode(t);
    LinesUnfold(Decode(t));
    hide Lines;
    AllPiecesHead([Decode(t)]);
    LineOfOne(t);
    NothingSplits();
  }

  /** The text splitter finds the sent texts, whichever separators stand between them. */
  lemma {:induction false} SplitRender(message: seq<Sent>)
    requires MessageOk(message) && forall m | m in message :: m.item.TextItem?
    ensures AllPieces(Lines(Decode(Render(message)))) == Texts(message)
  {
    hide Clean, AllPieces, Decode, Lines;
    if message == [] {
      NothingSplits();
    } else {
      var m, rest := message[0], Render(message[1..]);
      var t := m.item.command;
      TailOk(message);
      SplitRender(message[1..]);
      assert m in message;
      DecodeConcat(t + Ending(m), rest);
      DecodeConcat(t, Ending(m));
      DecodeSeparator(m);
      if m.separator == Some(SEMICOLON) {
        SplitMore(t, Decode(rest));
      } else if m.separator == Some(NL) {
        SplitBreak(t, Decode(rest));
      } else {
        assert message[1..] == [];
        NothingSplits();
        assert Decode(t) + [] + [] == Decode(t);
        SplitLast(t);
      }
    }
  }

  lemma NothingSplits()
    ensures AllPieces(Lines(Decode([]))) == [] && AllPieces([]) == [] && Decode([]) == [] && Texts([]) == []
        && Render([]) == []
  {
    assert Decode([]) == [];
    assert Lines([]) == [[]];
    AllPiecesHead([[]]);
    BlankPieces([], 0);
  }

  lemma DecodeSeparator(m: Sent)
    requires m.separator.Some? ==> IsSeparator(m.separator.value)
    ensures Decode(Ending(m)) == Ending(m)
  {}

  // ---- the whole message

  /** The sent items as commands, before the path fold. */
  function CommandOf(item: Item): Command {
    match item
    case TextItem(command) => Command(command, None)
    case BlockItem(header, payload, gap) => Command(Strip(header, ByteBlanks), Some(payload))
  }

  function CommandsOf(message: seq<Sent>): (cs: seq<Command>)
    ensures |cs| == |message|
    ensures forall i | 0 <= i < |message| :: cs[i] == CommandOf(message[i].item)
  {
    if message == [] then [] else [CommandOf(message[0].item)] + CommandsOf(message[1..])
  }

  /** What the instrument must serve: the sent texts through the path fold, each with its own payload. */
  function Served(message: seq<Sent>): Result<seq<Command>> {
    var headers := Headers(CommandsOf(message));
    match Inherit(headers, [])
    case Err(e) => Err(e)
    case Ok(resolved) =>
      InheritPointwise(headers, []);
      Ok(Pair(resolved, CommandsOf(message)))
  }

  lemma ExtractItem(data: Bytes, offset: nat, item: Item)
    requires ItemOk(item) && Has(data, offset, Body(item))
    ensures Inside(data, [PartOf(item, offset)]) && Extract(data, PartOf(item, offset)) == CommandOf(item)
  {
    hide Clean, Strip, Frame, Decimal;
    match item
    case TextItem(command) => StripTrimmed(command, ByteBlanks);
    case BlockItem(header, payload, gap) => BlockParts(data, offset, header, payload, gap);
  }

  /** Where header and payload of a sent block stand. */
  lemma BlockParts(data: Bytes, offset: nat, header: Bytes, payload: Bytes, gap: Bytes)
    requires Has(data, offset, header + Frame(payload) + gap) && |payload| <= DEFAULT_MAXIMUM_BLOCK_SIZE
    ensures Has(data, offset, header) && Has(data, offset + |header| + 2 + |Decimal(|payload|)|, payload)
  {
    hide Has, Frame, Decimal;
    FrameShape(payload);
    HasFirstAndFourth(data, offset, header, [HASH, ZERO + |Decimal(|payload|)|], Decimal(|payload|), payload, gap);
  }

  lemma HasFirstAndFourth(data: Bytes, offset: nat, a: Bytes, b: Bytes, c: Bytes, d: Bytes, e: Bytes)
    requires Has(data, offset, a + (b + (c + d)) + e)
    ensures Has(data, offset, a) && Has(data, offset + |a| + |b| + |c|, d)
  {
    hide *;
    HasBoth(data, offset, a + (b + (c + d)), e);
    HasBoth(data, offset, a, b + (c + d));
    HasBoth(data, offset + |a|, b, c + d);
    HasBoth(data, offset + |a| + |b|, c, d);
  }

  lemma RenderUnfolds(message: seq<Sent>, offset: nat)
    requires message != []
    ensures var m := message[0];
            var body, ending := Body(m.item), Ending(m);
            && Render(message) == body + ending + Render(message[1..])
            && PartsOf(message, offset) == [PartOf(m.item, offset)] + PartsOf(message[1..], offset + |body| + |ending|)
            && CommandsOf(message) == [CommandOf(m.item)] + CommandsOf(message[1..])
  {
    hide Body, PartOf, CommandOf;
  }

  lemma {:induction false} ExtractRender(data: Bytes, offset: nat, message: seq<Sent>)
    requires MessageOk(message)
    requires Has(data, offset, Render(message))
    ensures Inside(data, PartsOf(message, offset))
    ensures ExtractAll(data, PartsOf(message, offset)) == CommandsOf(message)
    decreases |message|
  {
    hide *;
    if message == [] {
      NothingExtracted(data, offset);
    } else {
      RenderUnfolds(message, offset);
      TailOk(message);
      var m := message[0];
      FirstOk(message);
      var body, ending, rest := Body(m.item), Ending(m), Render(message[1..]);
      HasBoth(data, offset, body + ending, rest);
      HasBoth(data, offset, body, ending);
      ExtractRender(data, offset + |body| + |ending|, message[1..]);
      ExtractItem(data, offset, m.item);
      ExtractFirst(data, PartOf(m.item, offset), PartsOf(message[1..], offset + |body| + |ending|));
      ExtractedOne(data, PartOf(m.item, offset));
    }
  }

  lemma FirstOk(message: seq<Sent>)
    requires message != [] && MessageOk(message)
    ensures ItemOk(message[0].item)
  {
    assert message[0] in message;
  }

  lemma NothingExtracted(data: Bytes, offset: nat)
    ensures Inside(data, PartsOf([], offset)) && ExtractAll(data, PartsOf([], offset)) == CommandsOf([])
  {}

  lemma ExtractFirst(data: Bytes, p: Part, ps: seq<Part>)
    requires Inside(data, [p]) && Inside(data, ps)
    ensures Inside(data, [p] + ps) && ExtractAll(data, [p] + ps) == [Extract(data, p)] + ExtractAll(data, ps)
  {
    hide Extract;
    assert p in [p];
    assert ([p] + ps)[1..] == ps;
  }

  lemma ExtractedOne(data: Bytes, p: Part)
    requires Inside(data, [p])
    ensures p in [p] && ExtractAll(data, [p]) == [Extract(data, p)]
  {
    hide Extract;
    assert p in [p] && [p][1..] == [];
  }

  lemma TextsAreHeaders(message: seq<Sent>)
    requires forall m | m in message :: m.item.TextItem?
    ensures Texts(message) == Headers(CommandsOf(message))
  {
    if message != [] {
      assert message[0] in message;
      TextsAreHeaders(message[1..]);
      assert CommandsOf(message)[1..] == CommandsOf(message[1..]);
    }
  }

  /** The instrument serves exactly the items that were sent, for all items, payloads and separators. */
  lemma PrintedIsServed(message: seq<Sent>)
    requires MessageOk(message)
    ensures Outbound(Render(message)) == Served(message)
  {
    hide Scan, Inherit, AllPieces, Lines, Decode, Render, CommandsOf, MessageOk, PartsOf;
    var data := Render(message);
    var found := CommandsOf(message);
    assert Has(data, 0, data);
    ScanRender(data, 0, message);
    ExtractRender(data, 0, message);
    if AnyPayload(found) {
      PayloadNeedsHash(data, found);
    } else {
      forall m | m in message
        ensures m.item.TextItem?
      {
        var i :| 0 <= i < |message| && message[i] == m;
        assert found[i] == CommandOf(m.item);
      }
      SplitRender(message);
      TextsAreHeaders(message);
      OnlyTexts(message, found);
      assert TextCommands(data) == Inherit(Headers(found), []);
    }
  }

  lemma PayloadNeedsHash(data: Bytes, found: seq<Command>)
    requires Inside(data, Scan(data, ORIGIN).parts) && found == ExtractAll(data, Scan(data, ORIGIN).parts)
    requires AnyPayload(found)
    ensures HASH in data
  {
    var parts := Scan(data, ORIGIN).parts;
    var i :| 0 <= i < |found| && found[i].payload.Some?;
    assert found[i] == Extract(data, parts[i]) && parts[i] in parts;
    hide Scan, Extract;
    if HASH !in data {
      NoHashNoPayload(data, ORIGIN);
    }
  }

  lemma OnlyTexts(message: seq<Sent>, found: seq<Command>)
    requires found == CommandsOf(message) && !AnyPayload(found)
    ensures Served(message) ==
            match Inherit(Headers(found), []) case Err(e) => Err(e) case Ok(texts) => Ok(AsCommands(texts))
  {
    if Inherit(Headers(found), []).Ok? {
      var texts := Inherit(Headers(found), []).value;
      InheritPointwise(Headers(found), []);
      assert Pair(texts, found) == AsCommands(texts);
    }
  }

  // ---- what may be sent

  /** A non-decimal numeric, #H1F, #Q17 or #B101 in either case, is part of a text command. */
  lemma NumericIsText(head: Bytes, letter: Byte, digits: Bytes)
    requires Clean(head, 0, false) && head != [] && !IsBlank(head[0], TextBlanks) && head[|head| - 1] in {32, 9, 44}
    requires letter in {72, 104, 81, 113, 66, 98}
    requires forall d | d in digits :: 48 <= d <= 57 || 65 <= d <= 70 || 97 <= d <= 102
    ensures ItemOk(TextItem(head + [HASH, letter] + digits))
  {
    var numeric := [HASH, letter] + digits;
    var t := head + numeric;
    assert t == head + [HASH, letter] + digits;
    assert t[|head|] == HASH && t[|head| + 1] == letter;
    forall i | |head| < i < |t|
      ensures t[i] == letter || t[i] in digits
    {
      assert i > |head| + 1 ==> t[i] == digits[i - |head| - 2];
    }
    PlainTail(t, |head|);
    CleanThenMore(head, numeric, 0, false);
    assert t[0] == head[0] && (t[|t| - 1] == letter || t[|t| - 1] in digits);
  }

  /** From a position outside quotes, bytes without quote, separator or block mark are clean. */
  lemma {:induction false} PlainTail(t: Bytes, i: nat)
    requires i <= |t|
    requires forall k | i <= k < |t| :: t[k] != NL && t[k] != QUOTE && t[k] != SEMICOLON && !IsBlockMark(t, 0, k)
    ensures Clean(t, i, false)
    decreases |t| - i
  {
    if i < |t| {
      PlainTail(t, i + 1);
    }
  }

  /** Clean bytes stay clean in front of a tail that is clean behind them and begins with neither quote nor radix. */
  lemma {:induction false} CleanThenMore(head: Bytes, tail: Bytes, i: nat, quoted: bool)
    requires i <= |head| && Clean(head, i, quoted)
    requires head != [] && head[|head| - 1] in {32, 9, 44} && tail != []
    requires Clean(head + tail, |head|, false)
    ensures Clean(head + tail, i, quoted)
    decreases |head| - i
  {
    var t := head + tail;
    if i < |head| {
      assert t[i] == head[i];
      if head[i] == QUOTE {
        assert i + 1 < |head| && t[i + 1] == head[i + 1];
        if quoted && head[i + 1] == QUOTE {
          CleanThenMore(head, tail, i + 2, quoted);
        } else {
          CleanThenMore(head, tail, i + 1, !quoted);
        }
      } else {
        CleanThenMore(head, tail, i + 1, quoted);
        assert i + 1 < |head| ==> t[i + 1] == head[i + 1];
        assert i > 0 ==> t[i - 1] == head[i - 1];
      }
    }
  }

  /** A clean header with a blank, a tab or a comma behind it may introduce any payload of up to 64 MiB. */
  lemma BlockIsIntroduced(header: Bytes, lead: Byte, payload: Bytes)
    requires Clean(header, 0, false) && Strip(header, ByteBlanks) != [] && lead in {32, 9, 44}
    requires |payload| <= 64 * 1024 * 1024
    ensures ItemOk(BlockItem(header + [lead], payload, []))
  {
    var t := header + [lead];
    StripBlankIff(header, ByteBlanks);
    StripBlankIff(t, ByteBlanks);
    var k :| 0 <= k < |header| && !IsBlank(header[k], ByteBlanks);
    assert t[k] == header[k];
    assert Clean(t, |header|, false);
    CleanThenLead(header, lead, 0, false);
  }

  lemma {:induction false} CleanThenLead(header: Bytes, lead: Byte, i: nat, quoted: bool)
    requires i <= |header| && Clean(header, i, quoted) && lead in {32, 9, 44}
    ensures Clean(header + [lead], i, quoted)
    decreases |header| - i
  {
    var t := header + [lead];
    if i < |header| {
      assert t[i] == header[i];
      if header[i] == QUOTE {
        assert i + 1 < |header| ==> t[i + 1] == header[i + 1];
        if quoted && i + 1 < |header| && header[i + 1] == QUOTE {
          CleanThenLead(header, lead, i + 2, quoted);
        } else {
          CleanThenLead(header, lead, i + 1, !quoted);
        }
      } else {
        CleanThenLead(header, lead, i + 1, quoted);
        assert i + 1 < |header| ==> t[i + 1] == header[i + 1];
        assert i > 0 ==> t[i - 1] == header[i - 1];
      }
    } else {
      assert t[i] == lead;
    }
  }

  /** Two commands on the wire, with a semicolon or a line feed between them: the second continues the first one's
      path. */
  lemma PathIsServed(path: Bytes, leaf: Bytes, part: Bytes, separator: Byte)
    requires IsPath(path) && path[0] != COLON && IsNode(leaf) && separator in {59, 10}
    requires ItemOk(TextItem(path + [COLON] + leaf)) && ItemOk(TextItem(part)) && part[0] != COLON && part[0] != STAR
    requires forall b | b in path + [COLON] + leaf + part :: b < 128
    ensures Outbound(path + [COLON] + leaf + [separator] + part + [NL])
            == Ok([Command(path + [COLON] + leaf, None), Command(path + [COLON] + part, None)])
  {
    var first: Bytes := path + [COLON] + leaf;
    var message := [Sent(TextItem(first), Some(separator)), Sent(TextItem(part), Some(NL))];
    TwoRendered(first, separator, part);
    hide Outbound, Inherit, Clean, Resolve;
    PrintedIsServed(message);
    forall k | 0 <= k < |first| ensures first[k] in path + [COLON] + leaf + part {
      assert (path + [COLON] + leaf + part)[k] == first[k];
    }
    forall k | 0 <= k < |part| ensures part[k] in path + [COLON] + leaf + part {
      assert (path + [COLON] + leaf + part)[|first| + k] == part[k];
    }
    assert Decode(first) == first && Decode(part) == part;
    assert first + [] == first;
    RelativeContinues(path, leaf, [], part);
    TwoServed(message, first, part);
  }

  lemma TwoRendered(first: Bytes, separator: Byte, part: Bytes)
    ensures Render([Sent(TextItem(first), Some(separator)), Sent(TextItem(part), Some(NL))])
            == first + [separator] + part + [NL]
  {
    var b := Sent(TextItem(part), Some(NL));
    assert [Sent(TextItem(first), Some(separator)), b][1..] == [b] && [b][1..] == [];
    assert Render([b]) == part + [NL] + [];
  }

  lemma TwoServed(message: seq<Sent>, first: Text, part: Text)
    requires |message| == 2 && message[0].item.TextItem? && message[1].item.TextItem?
    requires Decode(message[0].item.command) == first && Decode(message[1].item.command) == part
    requires Inherit([first, part], []).Ok? && |Inherit([first, part], []).value| == 2
    ensures var served := Inherit([first, part], []).value;
            Served(message) == Ok([Command(served[0], None), Command(served[1], None)])
  {
    hide Inherit, Decode;
    var cs, served := CommandsOf(message), Inherit([first, part], []).value;
    assert Headers(cs) == [first, part];
    assert Pair(served, cs) == [Command(served[0], None), Command(served[1], None)];
  }
}
