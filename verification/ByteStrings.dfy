/** Byte strings, decoded text, and the few library operations the program uses on them. */
module ByteStrings {
  type Byte = b: int | 0 <= b < 256
  type Bytes = seq<Byte>

  /** Decoded text as a sequence of code points. */
  type Text = seq<int>

  const TAB: Byte := 9
  const NL: Byte := 10
  const CR: Byte := 13
  const SPACE: Byte := 32
  const QUOTE: Byte := 34
  const HASH: Byte := 35
  const STAR: Byte := 42
  const COMMA: Byte := 44
  const ZERO: Byte := 48
  const NINE: Byte := 57
  const COLON: Byte := 58
  const SEMICOLON: Byte := 59
  const QUESTION: Byte := 63

  // ---- decoding

  /** Python's `ascii` codec with `errors="replace"`; it equals the strict decoding whenever that succeeds. */
  function DecodeByte(b: int): int {
    if b < 128 then b else 0xFFFD
  }

  function Decode(s: Text): (t: Text)
    ensures |t| == |s|
    ensures forall i | 0 <= i < |s| :: t[i] == DecodeByte(s[i])
  {
    seq(|s|, i requires 0 <= i < |s| => DecodeByte(s[i]))
  }

  lemma DecodeConcat(a: Text, b: Text)
    ensures Decode(a + b) == Decode(a) + Decode(b)
  {
    assert forall i | 0 <= i < |a| + |b| :: Decode(a + b)[i] == (Decode(a) + Decode(b))[i];
  }

  // ---- stripping

  /** What `bytes.strip` removes, and the larger set that `str.strip` and `str.split` treat as blank. */
  datatype Blanks = ByteBlanks | TextBlanks

  predicate IsBlank(c: int, blanks: Blanks) {
    9 <= c <= 13 || c == 32 || (blanks == TextBlanks && 28 <= c <= 31)
  }

  lemma BlanksExactly(c: int)
    ensures IsBlank(c, ByteBlanks) <==> c in {9, 10, 11, 12, 13, 32}
    ensures IsBlank(c, TextBlanks) <==> c in {9, 10, 11, 12, 13, 28, 29, 30, 31, 32}
  {}

  function StripLeft(s: Text, blanks: Blanks): Text {
    if s != [] && IsBlank(s[0], blanks) then StripLeft(s[1..], blanks) else s
  }

  function StripRight(s: Text, blanks: Blanks): (t: Text)
    ensures t <= s
    ensures t != [] ==> !IsBlank(t[|t| - 1], blanks)
  {
    if s != [] && IsBlank(s[|s| - 1], blanks) then StripRight(s[..|s| - 1], blanks) else s
  }

  function Strip(s: Text, blanks: Blanks): (t: Text)
  {
    StripRight(StripLeft(s, blanks), blanks)
  }

  /** No blank at either end, and not empty. */
  predicate Trimmed(s: Text, blanks: Blanks) {
    s != [] && !IsBlank(s[0], blanks) && !IsBlank(s[|s| - 1], blanks)
  }

  lemma StripTrimmed(s: Text, blanks: Blanks)
    requires Trimmed(s, blanks)
    ensures Strip(s, blanks) == s
  {}

  lemma {:induction false} StripLeftShape(s: Text, blanks: Blanks)
    ensures |StripLeft(s, blanks)| <= |s| && StripLeft(s, blanks) == s[|s| - |StripLeft(s, blanks)|..]
    ensures StripLeft(s, blanks) != [] ==> !IsBlank(StripLeft(s, blanks)[0], blanks)
    ensures forall i | 0 <= i < |s| - |StripLeft(s, blanks)| :: IsBlank(s[i], blanks)
  {
    if s != [] && IsBlank(s[0], blanks) {
      StripLeftShape(s[1..], blanks);
    }
  }

  lemma StripShape(s: Text, blanks: Blanks)
    ensures Strip(s, blanks) == [] || Trimmed(Strip(s, blanks), blanks)
  {
    StripLeftShape(s, blanks);
  }

  lemma StripBlankIff(s: Text, blanks: Blanks)
    ensures Strip(s, blanks) == [] <==> forall i | 0 <= i < |s| :: IsBlank(s[i], blanks)
  {
    StripLeftShape(s, blanks);
    var left := StripLeft(s, blanks);
    if left != [] {
      StripRightKeepsFirst(left, blanks);
    }
  }

  lemma {:induction false} StripRightKeepsFirst(s: Text, blanks: Blanks)
    requires s != [] && !IsBlank(s[0], blanks)
    ensures StripRight(s, blanks) != []
  {
    if |s| > 1 && IsBlank(s[|s| - 1], blanks) {
      StripRightKeepsFirst(s[..|s| - 1], blanks);
    }
  }

  // ---- searching

  predicate OccursAt(s: Bytes, t: Bytes, i: int) {
    0 <= i && i + |t| <= |s| && s[i..i + |t|] == t
  }

  /** `bytes.find(t, from)`: the first occurrence at or after `from`, or -1. */
  function Find(s: Bytes, t: Bytes, from: nat): (r: int)
    ensures r >= 0 ==> from <= r && OccursAt(s, t, r) && forall j | from <= j < r :: !OccursAt(s, t, j)
    ensures r < 0 ==> r == -1 && forall j | from <= j :: !OccursAt(s, t, j)
    decreases |s| - from
  {
    if from + |t| > |s| then -1
    else if OccursAt(s, t, from) then from
    else Find(s, t, from + 1)
  }

  // ---- decimal numerals

  predicate IsDigit(b: Byte) {
    ZERO <= b <= NINE
  }

  predicate AllDigits(s: Bytes) {
    forall i | 0 <= i < |s| :: IsDigit(s[i])
  }

  /** `int(field)` on a field of ASCII digits; leading zeros are allowed. */
  function Value(s: Bytes): nat
    requires AllDigits(s)
  {
    if s == [] then 0 else 10 * Value(s[..|s| - 1]) + (s[|s| - 1] - ZERO)
  }

  /** `str(n)` for a natural number. */
  function Decimal(n: nat): (s: Bytes)
    ensures |s| >= 1 && AllDigits(s)
  {
    if n < 10 then [ZERO + n] else Decimal(n / 10) + [ZERO + n % 10]
  }

  lemma {:induction false} ValueOfDecimal(n: nat)
    ensures Value(Decimal(n)) == n
  {
    if n >= 10 {
      ValueOfDecimal(n / 10);
      assert Decimal(n)[..|Decimal(n)| - 1] == Decimal(n / 10);
    }
  }

  function Power10(k: nat): (p: nat)
    ensures p >= 1
  {
    if k == 0 then 1 else 10 * Power10(k - 1)
  }

  /** The number of digits of `n` is at most `k` exactly when `n < 10^k`. */
  lemma {:induction false} DecimalWidth(n: nat, k: nat)
    requires k >= 1
    ensures |Decimal(n)| <= k <==> n < Power10(k)
  {
    if n >= 10 && k > 1 {
      DecimalWidth(n / 10, k - 1);
      assert n / 10 < Power10(k - 1) <==> n < 10 * Power10(k - 1);
    } else {
      assert Power10(1) == 10;
      if k > 1 { PowerAtLeastTen(k); }
    }
  }

  lemma {:induction false} PowerAtLeastTen(k: nat)
    requires k >= 1
    ensures Power10(k) >= 10
  {
    if k > 1 { PowerAtLeastTen(k - 1); }
  }
}
