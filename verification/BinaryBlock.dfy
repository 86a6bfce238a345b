/** Definite-length arbitrary block data, IEEE 488.2 sections 7.7.6 and 8.7.9: the printer and the pure decoder. */
module BinaryBlock {
  import opened ByteStrings
  import opened Errors

  const DEFAULT_MAXIMUM_BLOCK_SIZE: nat := 64 * 1024 * 1024
  const MAX_LENGTH_DIGITS: nat := 9

  function Encode(payload: Bytes): Result<Bytes> {
    var digits := Decimal(|payload|);
    if |digits| > MAX_LENGTH_DIGITS then Err(ConfigurationError)
    else Ok([HASH, ZERO + |digits|] + digits + payload)
  }

  function LengthDigitCount(prefix: Bytes): (r: Result<nat>)
    ensures r.Ok? ==> 1 <= r.value <= 9
  {
    if !([HASH] <= prefix) then Err(ProtocolError)
    else if |prefix| < 2 then Err(ProtocolError)
    else if !IsDigit(prefix[1]) then Err(ProtocolError)
    else if prefix[1] == ZERO then Err(UnsupportedOperationError)
    else Ok(prefix[1] - ZERO)
  }

  function DeclaredLength(field: Bytes, count: nat, maximumSize: int): Result<nat> {
    if |field| < count then Err(ProtocolError)
    else if !AllDigits(field) then Err(ProtocolError)
    else if Value(field) > maximumSize then Err(ProtocolError)
    else Ok(Value(field))
  }

  /** Python slicing: an upper bound past the end is cut to the end. */
  function Slice(s: Bytes, lo: nat, hi: nat): Bytes {
    if lo >= |s| || hi <= lo then [] else s[lo..if hi < |s| then hi else |s|]
  }

  function DecodeBlock(data: Bytes, maximumSize: int, allowTrailing: bool): Result<Bytes> {
    var count :- LengthDigitCount(data);
    var length :- DeclaredLength(Slice(data, 2, 2 + count), count, maximumSize);
    var headerLength := 2 + count;
    var end := headerLength + length;
    if |data| - headerLength < length then Err(ProtocolError)
    else if !allowTrailing && |data| > end then Err(ProtocolError)
    else Ok(data[headerLength..end])
  }

  /** `frame` is a well-formed block around `payload`: the length field may carry leading zeros. */
  ghost predicate IsFrame(frame: Bytes, field: Bytes, payload: Bytes) {
    && 1 <= |field| <= MAX_LENGTH_DIGITS
    && AllDigits(field)
    && Value(field) == |payload|
    && frame == [HASH, ZERO + |field|] + field + payload
  }

  /** Encoding fails exactly for payloads of a gigabyte (10^9 bytes) or more, and otherwise prints a frame. */
  lemma EncodeIsFrame(payload: Bytes)
    ensures Encode(payload).Ok? <==> |payload| < 1_000_000_000
    ensures Encode(payload).Err? ==> Encode(payload).error == ConfigurationError
    ensures Encode(payload).Ok? ==> IsFrame(Encode(payload).value, Decimal(|payload|), payload)
  {
    NineDigits(|payload|);
    ValueOfDecimal(|payload|);
  }

  /** A payload of 12 bytes is sent as #212 and the payload, most significant digit first. */
  lemma TwoDigitsPrinted(payload: Bytes)
    requires 10 <= |payload| < 100
    ensures Encode(payload) == Ok([35, 50, 48 + |payload| / 10, 48 + |payload| % 10] + payload)
  {
    var n := |payload|;
    assert Decimal(n / 10) == [ZERO + n / 10] && Decimal(n) == [ZERO + n / 10, ZERO + n % 10];
    assert [HASH, ZERO + 2] + Decimal(n) == [35, 50, 48 + n / 10, 48 + n % 10];
  }

  lemma NineDigits(n: nat)
    ensures |Decimal(n)| <= MAX_LENGTH_DIGITS <==> n < 1_000_000_000
  {
    DecimalWidth(n, MAX_LENGTH_DIGITS);
    assert Power10(3) == 1000;
    assert Power10(6) == 1000 * Power10(3);
    assert Power10(9) == 1000 * Power10(6);
  }

  /** The decoder accepts exactly the data that start with a well-formed frame, and returns its payload. */
  lemma DecodeExactly(data: Bytes, maximumSize: int, allowTrailing: bool, payload: Bytes)
    ensures DecodeBlock(data, maximumSize, allowTrailing) == Ok(payload) <==>
            |payload| <= maximumSize &&
            exists frame, field ::
              IsFrame(frame, field, payload) && frame <= data && (allowTrailing || frame == data)
  {
    if DecodeBlock(data, maximumSize, allowTrailing) == Ok(payload) {
      var count := LengthDigitCount(data).value;
      var field := Slice(data, 2, 2 + count);
      var frame := data[..2 + count + |payload|];
      assert frame == [HASH, ZERO + |field|] + field + payload;
      assert IsFrame(frame, field, payload);
    }
    if |payload| <= maximumSize && exists frame, field ::
        IsFrame(frame, field, payload) && frame <= data && (allowTrailing || frame == data) {
      var frame, field :|
        IsFrame(frame, field, payload) && frame <= data && (allowTrailing || frame == data);
      FrameDecodes(data, frame, field, payload, maximumSize, allowTrailing);
    }
  }

  lemma FrameDecodes(data: Bytes, frame: Bytes, field: Bytes, payload: Bytes, maximumSize: int, allowTrailing: bool)
    requires IsFrame(frame, field, payload) && frame <= data && (allowTrailing || frame == data)
    requires |payload| <= maximumSize
    ensures DecodeBlock(data, maximumSize, allowTrailing) == Ok(payload)
  {
    assert frame[0] == HASH && frame[1] == ZERO + |field|;
    assert data[0] == frame[0] && data[1] == frame[1];
    assert Slice(data, 2, 2 + |field|) == frame[2..2 + |field|] == field;
    assert data[2 + |field|..2 + |field| + |payload|] == frame[2 + |field|..] == payload;
  }

  /** Whatever follows an encoded block, decoding gives the payload back, exactly when it fits the bound. */
  lemma EncodeDecode(payload: Bytes, rest: Bytes, maximumSize: int)
    requires |payload| < 1_000_000_000
    ensures Encode(payload).Ok?
    ensures DecodeBlock(Encode(payload).value + rest, maximumSize, true) ==
            if |payload| <= maximumSize then Ok(payload) else Err(ProtocolError)
    ensures DecodeBlock(Encode(payload).value + rest, maximumSize, false) ==
            if |payload| <= maximumSize && rest == [] then Ok(payload) else Err(ProtocolError)
  {
    EncodeIsFrame(payload);
    var frame, field := Encode(payload).value, Decimal(|payload|);
    var data := frame + rest;
    assert data[0] == HASH && data[1] == ZERO + |field|;
    assert Slice(data, 2, 2 + |field|) == field;
    if |payload| <= maximumSize {
      FrameDecodes(data, frame, field, payload, maximumSize, true);
    }
  }
}
