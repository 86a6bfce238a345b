/** SCPI text framing and string quoting on the client's side, and what the instrument makes of them. */
module TextCodec {
  import opened ByteStrings
  import opened BinaryBlock
  import opened Errors
  import opened HeaderPaths
  import opened ProgramMessage
  import opened RoundTrip

  /** The codec with the default `ascii` encoding and `\n` terminators. */
  datatype Codec = Codec(maximumCommandSize: nat, maximumResponseSize: nat) {

    function EncodeCommand(command: Text): Result<Bytes> {
      if !IsAscii(command) then Err(ConfigurationError)
      else
        var body := if EndsWith(command, NL) then command[..|command| - 1] else command;
        if CR in body || NL in body then Err(ConfigurationError)
        else if |body| + 1 > maximumCommandSize then Err(ConfigurationError)
        else Ok(AsBytes(body) + [NL])
    }

    function EncodeBlockCommand(prefix: Text, block: Bytes): Result<Bytes> {
      if CR in prefix || NL in prefix then Err(ConfigurationError)
      else if !IsAscii(prefix) then Err(ConfigurationError)
      else if |prefix| > maximumCommandSize then Err(ConfigurationError)
      else Ok(AsBytes(prefix) + block + [NL])
    }

    function DecodeResponse(data: Bytes): Result<Text> {
      if |data| > maximumResponseSize then Err(ProtocolError)
      else
        var payload := if EndsWith(data, NL) then data[..|data| - 1] else data;
        if IsAscii(payload) then Ok(payload) else Err(ResponseParseError)
    }

    /** The encodings of a command are exactly: one line within the size bound, ended by the only line break. */
    lemma EncodeCommandExactly(command: Text, encoded: Bytes)
      ensures EncodeCommand(command) == Ok(encoded) <==>
              && EndsWith(encoded, NL) && |encoded| <= maximumCommandSize && IsAscii(encoded)
              && CR !in encoded && NL !in encoded[..|encoded| - 1]
              && (command == encoded || command == encoded[..|encoded| - 1])
    {
      if EncodeCommand(command) == Ok(encoded) {
        EncodedIsLine(command, encoded);
      }
      if && EndsWith(encoded, NL) && |encoded| <= maximumCommandSize && IsAscii(encoded)
         && CR !in encoded && NL !in encoded[..|encoded| - 1]
         && (command == encoded || command == encoded[..|encoded| - 1]) {
        LineIsEncoded(command, encoded);
      }
    }

    lemma EncodedIsLine(command: Text, encoded: Bytes)
      requires EncodeCommand(command) == Ok(encoded)
      ensures && EndsWith(encoded, NL) && |encoded| <= maximumCommandSize && IsAscii(encoded)
              && CR !in encoded && NL !in encoded[..|encoded| - 1]
              && (command == encoded || command == encoded[..|encoded| - 1])
    {
      var body := if EndsWith(command, NL) then command[..|command| - 1] else command;
      assert IsAscii(body) && encoded == AsBytes(body) + [NL];
      assert EndsWith(command, NL) ==> command == body + [NL];
      hide IsAscii;
      LineOf(body, encoded);
    }

    lemma LineOf(body: Text, line: Bytes)
      requires IsAscii(body) && CR !in body && NL !in body && line == AsBytes(body) + [NL]
      ensures line == body + [NL] && line[..|line| - 1] == body
      ensures EndsWith(line, NL) && IsAscii(line) && CR !in line
    {}

    lemma LineIsEncoded(command: Text, encoded: Bytes)
      requires EndsWith(encoded, NL) && |encoded| <= maximumCommandSize && IsAscii(encoded)
      requires CR !in encoded && NL !in encoded[..|encoded| - 1]
      requires command == encoded || command == encoded[..|encoded| - 1]
      ensures EncodeCommand(command) == Ok(encoded)
    {
      var body: Bytes := encoded[..|encoded| - 1];
      assert encoded == body + [NL];
      assert EndsWith(body, NL) ==> NL in body;
      assert AsBytes(body) == body;
      assert forall c | c in body :: c in encoded;
    }

    /** A block command is its prefix, the block and one terminator, and is refused exactly when the prefix is not one
        ASCII line within the size bound; the block itself is never looked at. */
    lemma EncodeBlockCommandExactly(prefix: Text, block: Bytes, encoded: Bytes)
      ensures EncodeBlockCommand(prefix, block) == Ok(encoded) <==>
              && IsAscii(prefix) && CR !in prefix && NL !in prefix && |prefix| <= maximumCommandSize
              && encoded == prefix + block + [NL]
      ensures EncodeBlockCommand(prefix, block).Err? ==> EncodeBlockCommand(prefix, block).error == ConfigurationError
    {
      if IsAscii(prefix) {
        assert AsBytes(prefix) + block + [NL] == prefix + block + [NL];
      }
    }

    /** A response decodes to a text exactly when it is that text, ASCII, followed by one terminator or by none if it
        does not end in one, within the size bound. Too long a response and an undecodable one are told apart. */
    lemma DecodeResponseExactly(data: Bytes, text: Text)
      ensures DecodeResponse(data) == Ok(text) <==>
              |data| <= maximumResponseSize && IsAscii(text)
                  && (data == text + [NL] || (data == text && !EndsWith(text, NL)))
      ensures DecodeResponse(data) == Err(ProtocolError) <==> |data| > maximumResponseSize
      ensures DecodeResponse(data) == Err(ResponseParseError) <==> |data| <= maximumResponseSize && !IsAscii(data)
      ensures DecodeResponse(data).Err? ==>
                DecodeResponse(data) == Err(ProtocolError) || DecodeResponse(data) == Err(ResponseParseError)
    {
      var payload := if EndsWith(data, NL) then data[..|data| - 1] else data;
      if EndsWith(data, NL) {
        assert data == payload + [NL];
        assert forall i | 0 <= i < |data| :: data[i] == if i < |payload| then payload[i] else NL;
      }
      if data == text + [NL] {
        assert data[..|data| - 1] == text && data[|data| - 1] == NL;
      }
    }
  }

  predicate IsAscii(t: Text) {
    forall i | 0 <= i < |t| :: 0 <= t[i] < 128
  }

  predicate EndsWith(t: Text, c: int) {
    t != [] && t[|t| - 1] == c
  }

  function AsBytes(t: Text): (b: Bytes)
    requires IsAscii(t)
    ensures b == t
  {
    seq(|t|, i requires 0 <= i < |t| => t[i])
  }

  // ---- quoting

  function Doubled(value: Bytes): Bytes {
    if value == [] then []
    else (if value[0] == QUOTE then [QUOTE, QUOTE] else [value[0]]) + Doubled(value[1..])
  }

  /** `quote_scpi_string`, IEEE 488.2 section 7.7.5. */
  function QuoteScpiString(value: Bytes): Result<Bytes> {
    if CR in value || NL in value then Err(ConfigurationError)
    else Ok([QUOTE] + Doubled(value) + [QUOTE])
  }

  /** Reading a quoted string back: the outer quotes go, and each pair of quotes inside stands for one. */
  function Unquoted(s: Bytes): Option<Bytes> {
    if |s| >= 2 && s[0] == QUOTE && s[|s| - 1] == QUOTE then Halved(s[1..|s| - 1]) else None
  }

  function Halved(s: Bytes): Option<Bytes> {
    if s == [] then Some([])
    else
      var pair := |s| >= 2 && s[0] == QUOTE && s[1] == QUOTE;
      if s[0] == QUOTE && !pair then None
      else
        var rest := Halved(if pair then s[2..] else s[1..]);
        if rest.None? then None else Some([s[0]] + rest.value)
  }

  lemma {:induction false} HalvedDoubled(value: Bytes)
    ensures Halved(Doubled(value)) == Some(value)
  {
    if value != [] {
      HalvedDoubled(value[1..]);
      var step := if value[0] == QUOTE then [QUOTE, QUOTE] else [value[0]];
      var s := step + Doubled(value[1..]);
      assert s[|step|..] == Doubled(value[1..]) && s[0] == value[0];
      assert value[0] == QUOTE ==> s[1] == QUOTE;
      assert [value[0]] + value[1..] == value;
    }
  }

  /** A value is refused exactly when it has a line break, and otherwise a reader of the quoted string gets it back. */
  lemma QuoteRoundTrip(value: Bytes)
    ensures QuoteScpiString(value).Ok? <==> CR !in value && NL !in value
    ensures QuoteScpiString(value).Err? ==> QuoteScpiString(value).error == ConfigurationError
    ensures QuoteScpiString(value).Ok? ==> Unquoted(QuoteScpiString(value).value) == Some(value)
  {
    HalvedDoubled(value);
    if CR !in value && NL !in value {
      var s := QuoteScpiString(value).value;
      assert s[1..|s| - 1] == Doubled(value);
    }
  }

  /** Inside quotes, the doubled value is clean up to a closing quote, whatever it holds. */
  lemma {:induction false} DoubledClean(front: Bytes, value: Bytes)
    requires NL !in value
    ensures Clean(front + Doubled(value) + [QUOTE], |front|, true)
    decreases |value|
  {
    var t := front + Doubled(value) + [QUOTE];
    if value == [] {
      assert t == front + [QUOTE];
    } else {
      var step := if value[0] == QUOTE then [QUOTE, QUOTE] else [value[0]];
      assert value[0] in value && forall c | c in value[1..] :: c in value;
      assert t == (front + step) + Doubled(value[1..]) + [QUOTE];
      DoubledClean(front + step, value[1..]);
      assert t[|front|..|front| + |step|] == step;
      assert t[|front|] == step[0] && (value[0] == QUOTE ==> t[|front| + 1] == step[1]);
      if value[0] != QUOTE {
        assert step[0] == value[0];
      }
    }
  }

  /** Extending clean bytes by a string that begins with a quote keeps what has been walked. */
  lemma {:induction false} CleanThenQuote(head: Bytes, tail: Bytes, i: nat, quoted: bool)
    requires i <= |head| && Clean(head, i, quoted)
    requires head != [] && IsBlockLead(head[|head| - 1]) && tail != [] && tail[0] == QUOTE
    requires Clean(head + tail, |head|, false)
    ensures Clean(head + tail, i, quoted)
    decreases |head| - i
  {
    var t := head + tail;
    if i < |head| {
      assert t[i] == head[i];
      if head[i] == QUOTE {
        assert i + 1 < |head|;
        assert t[i + 1] == head[i + 1];
        if quoted && head[i + 1] == QUOTE {
          CleanThenQuote(head, tail, i + 2, quoted);
        } else {
          CleanThenQuote(head, tail, i + 1, !quoted);
        }
      } else {
        CleanThenQuote(head, tail, i + 1, quoted);
        if i + 1 < |head| {
          assert t[i + 1] == head[i + 1];
        }
        assert i > 0 ==> t[i - 1] == head[i - 1];
      }
    }
  }

  /** A quoted string is one harmless argument: separators, hashes and quotes in the value are never syntax. */
  lemma QuotedArgument(head: Bytes, value: Bytes)
    requires Clean(head, 0, false) && head != [] && IsBlockLead(head[|head| - 1]) && !IsBlank(head[0], TextBlanks)
    requires CR !in value && NL !in value
    ensures QuoteScpiString(value).Ok? && ItemOk(TextItem(head + QuoteScpiString(value).value))
  {
    var quoted := QuoteScpiString(value).value;
    var t := head + quoted;
    DoubledClean(head + [QUOTE], value);
    assert t == (head + [QUOTE]) + Doubled(value) + [QUOTE];
    assert t[|head|] == QUOTE;
    assert Clean(t, |head|, false);
    CleanThenQuote(head, quoted, 0, false);
    assert t[0] == head[0] && t[|t| - 1] == QUOTE;
  }

  // ---- one client call, one served command

  /** A clean command written by the client is served once, with a leading colon removed. */
  lemma CommandIsServed(codec: Codec, command: Bytes)
    requires ItemOk(TextItem(command)) && codec.EncodeCommand(command).Ok?
    ensures Outbound(codec.EncodeCommand(command).value) ==
            if command == [COLON] then Err(IndexError)
            else Ok([Command(Resolve(Decode(command), []), None)])
  {
    var message := [Sent(TextItem(command), Some(NL))];
    CleanHasNoLineBreak(command, 0, false);
    assert Render(message) == command + [NL] + Render([]) == codec.EncodeCommand(command).value;
    PrintedIsServed(message);
    DecodeTrimmed(command);
    ServedAlone(message[0]);
    ResolveBlankIff(Decode(command), []);
    assert Decode(command) == [COLON] <==> command == [COLON];
  }

  lemma ServedAlone(m: Sent)
    ensures var header := Decode(CommandOf(m.item).text);
            var command := Resolve(header, []);
            Served([m]) ==
            if Strip(command, TextBlanks) == [] then Err(IndexError)
            else Ok([Command(command, CommandOf(m.item).payload)])
  {
    hide Resolve, Strip, CommandOf, ParentOf;
    var header := Decode(CommandOf(m.item).text);
    var cs := CommandsOf([m]);
    assert cs == [CommandOf(m.item)];
    assert Headers(cs) == [header];
    var command := Resolve(header, []);
    assert Inherit([header][1..], ParentOf(command)) == Ok([]);
    assert [command] + [] == [command];
    assert Inherit([header], []) == if Strip(command, TextBlanks) == [] then Err(IndexError) else Ok([command]);
    if Strip(command, TextBlanks) != [] {
      assert Pair([command], cs) == [Command(command, CommandOf(m.item).payload)];
    }
  }

  /** An upload by the client is served once: its header, and the payload byte for byte. */
  lemma UploadIsServed(codec: Codec, prefix: Bytes, payload: Bytes)
    requires ItemOk(BlockItem(prefix, payload, []))
    requires Encode(payload).Ok? && codec.EncodeBlockCommand(prefix, Encode(payload).value).Ok?
    ensures var header := Decode(Strip(prefix, ByteBlanks));
            var command := Resolve(header, []);
            Outbound(codec.EncodeBlockCommand(prefix, Encode(payload).value).value) ==
            if Strip(command, TextBlanks) == [] then Err(IndexError)
            else Ok([Command(command, Some(payload))])
  {
    hide Clean, Strip, Resolve;
    var message := [Sent(BlockItem(prefix, payload, []), Some(NL))];
    var block := Encode(payload).value;
    assert Body(message[0].item) == prefix + block;
    assert Render(message) == prefix + block + [NL] + Render([]);
    assert Render(message) == codec.EncodeBlockCommand(prefix, block).value;
    PrintedIsServed(message);
    ServedAlone(message[0]);
  }
}
