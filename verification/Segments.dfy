/** The bit form of text segments (section 6.4 of ISO/IEC 18004:2006) and its reading back. */
module Segments {
  import opened BitStream
  import opened QRTables

  /** A UTF-16 code unit. */
  type CodeUnit = c: nat | c < 0x10000
  type Text = seq<CodeUnit>

  const NUMERIC := 1
  const ALPHANUMERIC := 2
  const EIGHT_BIT := 4
  const TERMINATOR := 0

  datatype Segment = Segment(mode: nat, text: Text)

  predicate IsTextMode(mode: nat) {
    mode == NUMERIC || mode == ALPHANUMERIC || mode == EIGHT_BIT
  }

  /** Width of the character count field; the source throws for any other mode. */
  function NCountBits(mode: nat, version: nat): (n: nat)
    requires IsTextMode(mode)
    ensures 8 <= n <= 16
  {
    if mode == EIGHT_BIT then
      if version < 10 then 8 else 16
    else if mode == ALPHANUMERIC then
      if version < 10 then 9 else if version < 27 then 11 else 13
    else
      if version < 10 then 10 else if version < 27 then 12 else 14
  }

  // ---------------------------------------------------------------------------
  // Characters

  predicate IsDigit(c: CodeUnit) {
    48 <= c <= 57
  }

  /** Character i of the 45-character alphabet: digits, capitals, then " $%*+-./:". */
  function AlphaNum(i: nat): CodeUnit
    requires i < 45
  {
    if i < 10 then 48 + i
    else if i < 36 then 55 + i
    else if i == 36 then 32 else if i == 37 then 36 else if i == 38 then 37
    else if i == 39 then 42 else if i == 40 then 43 else if i == 41 then 45
    else if i == 42 then 46 else if i == 43 then 47 else 58
  }

  predicate IsAlphaNum(c: CodeUnit) {
    || c == 32 || 36 <= c <= 37 || 42 <= c <= 43 || 45 <= c <= 58 || 65 <= c <= 90
  }

  /** The index of a character in the alphabet. */
  function AlphaNumRev(c: CodeUnit): (i: nat)
    requires IsAlphaNum(c)
    ensures i < 45 && AlphaNum(i) == c
  {
    if c == 32 then 36 else if c == 36 then 37 else if c == 37 then 38
    else if c == 42 then 39 else if c == 43 then 40 else if c == 45 then 41
    else if c == 46 then 42 else if c == 47 then 43 else if c <= 57 then c - 48
    else if c == 58 then 44 else c - 55
  }

  /** The characters addTextImplementation accepts in a mode: it does not look at those of an
      eight-bit text. */
  ghost predicate Accepted(mode: nat, text: Text) {
    && (mode == NUMERIC ==> forall i :: 0 <= i < |text| ==> IsDigit(text[i]))
    && (mode == ALPHANUMERIC ==> forall i :: 0 <= i < |text| ==> IsAlphaNum(text[i]))
  }

  /** The texts a mode can represent. */
  ghost predicate Encodable(mode: nat, text: Text) {
    && IsTextMode(mode) && Accepted(mode, text)
    && (mode == EIGHT_BIT ==> forall i :: 0 <= i < |text| ==> text[i] < 256)
  }

  // ---------------------------------------------------------------------------
  // Bits of a segment

  function DigitValue(c: CodeUnit): (d: nat)
    requires IsDigit(c)
    ensures d < 10
  {
    c as int - 48
  }

  function Digits(t: Text): (d: nat)
    requires 0 < |t| <= 3 && forall i :: 0 <= i < |t| ==> IsDigit(t[i])
    ensures d < if |t| == 1 then 10 else if |t| == 2 then 100 else 1000
  {
    if |t| == 1 then DigitValue(t[0])
    else if |t| == 2 then 10 * DigitValue(t[0]) + DigitValue(t[1])
    else 100 * DigitValue(t[0]) + 10 * DigitValue(t[1]) + DigitValue(t[2])
  }

  ghost function NumericBits(t: Text): BitSeq
    requires forall i :: 0 <= i < |t| ==> IsDigit(t[i])
  {
    if |t| == 0 then []
    else if |t| == 1 then Bits(Digits(t), 4)
    else if |t| == 2 then Bits(Digits(t), 7)
    else Bits(Digits(t[..3]), 10) + NumericBits(t[3..])
  }

  ghost function AlphaNumBits(t: Text): BitSeq
    requires forall i :: 0 <= i < |t| ==> IsAlphaNum(t[i])
  {
    if |t| == 0 then []
    else if |t| == 1 then Bits(AlphaNumRev(t[0]), 6)
    else Bits(45 * AlphaNumRev(t[0]) + AlphaNumRev(t[1]), 11) + AlphaNumBits(t[2..])
  }

  ghost function EightBits(t: Text): BitSeq {
    if |t| == 0 then [] else Bits(t[0], 8) + EightBits(t[1..])
  }

  ghost function PayloadBits(mode: nat, t: Text): BitSeq
    requires IsTextMode(mode) && Accepted(mode, t)
  {
    if mode == NUMERIC then NumericBits(t)
    else if mode == ALPHANUMERIC then AlphaNumBits(t)
    else EightBits(t)
  }

  ghost function SegmentBits(s: Segment, version: nat): BitSeq
    requires IsTextMode(s.mode) && Accepted(s.mode, s.text)
  {
    Bits(s.mode, 4) + Bits(|s.text|, NCountBits(s.mode, version)) + PayloadBits(s.mode, s.text)
  }

  /** Number of payload bits of n characters. */
  function PayloadLength(mode: nat, n: nat): nat
    requires IsTextMode(mode)
  {
    if mode == NUMERIC then 10 * (n / 3) + (if n % 3 == 0 then 0 else if n % 3 == 1 then 4 else 7)
    else if mode == ALPHANUMERIC then 11 * (n / 2) + 6 * (n % 2)
    else 8 * n
  }

  function SegmentLength(mode: nat, n: nat, version: nat): nat
    requires IsTextMode(mode)
  {
    4 + NCountBits(mode, version) + PayloadLength(mode, n)
  }

  lemma {:induction false} PayloadBitsLength(mode: nat, t: Text)
    requires IsTextMode(mode) && Accepted(mode, t)
    ensures |PayloadBits(mode, t)| == PayloadLength(mode, |t|)
    decreases |t|
  {
    if mode == NUMERIC {
      if |t| >= 3 {
        PayloadBitsLength(mode, t[3..]);
      }
    } else if mode == ALPHANUMERIC {
      if |t| >= 2 {
        PayloadBitsLength(mode, t[2..]);
      }
    } else if |t| >= 1 {
      PayloadBitsLength(mode, t[1..]);
    }
  }

  /** A group of three digits in a digit string. */
  lemma NumericStep(t: Text, i: nat)
    requires i + 3 <= |t| && Accepted(NUMERIC, t)
    ensures var x := 100 * DigitValue(t[i]) + 10 * DigitValue(t[i + 1]) + DigitValue(t[i + 2]);
      x < Pow2(10) && NumericBits(t[i..]) == Bits(x, 10) + NumericBits(t[i + 3..])
  {
    SmallPowers();
    assert t[i..][..3] == t[i..i + 3] && t[i..][3..] == t[i + 3..];
    assert Digits(t[i..i + 3]) < 1000;
  }

  lemma AlphaNumStep(t: Text, i: nat)
    requires i + 2 <= |t| && Accepted(ALPHANUMERIC, t)
    ensures AlphaNumBits(t[i..])
         == Bits(45 * AlphaNumRev(t[i]) + AlphaNumRev(t[i + 1]), 11) + AlphaNumBits(t[i + 2..])
  {
    assert t[i..][2..] == t[i + 2..];
  }

  lemma AlphaNumEnd(t: Text, i: nat)
    requires i + 1 == |t| && Accepted(ALPHANUMERIC, t)
    ensures AlphaNumRev(t[i]) < Pow2(6)
    ensures AlphaNumBits(t[i..]) == Bits(AlphaNumRev(t[i]), 6) + []
  {
    SmallPowers();
  }

  lemma EightBitStep(t: Text, i: nat)
    requires i < |t| && Encodable(EIGHT_BIT, t)
    ensures t[i] < Pow2(8) && EightBits(t[i..]) == Bits(t[i], 8) + EightBits(t[i + 1..])
  {
    SmallPowers();
    assert t[i..][1..] == t[i + 1..];
  }

  lemma SegmentShape(s: Segment, version: nat)
    requires IsTextMode(s.mode) && Accepted(s.mode, s.text)
    ensures SegmentBits(s, version)
         == Bits(s.mode, 4) + (Bits(|s.text|, NCountBits(s.mode, version)) + PayloadBits(s.mode, s.text))
  {}

  /** The one or two digits left over. */
  lemma NumericEnd(t: Text, i: nat)
    requires Accepted(NUMERIC, t) && (i + 1 == |t| || i + 2 == |t|)
    ensures i + 1 == |t| ==> DigitValue(t[i]) < Pow2(4) && NumericBits(t[i..]) == Bits(DigitValue(t[i]), 4) + []
    ensures i + 2 == |t| ==>
      var x := 10 * DigitValue(t[i]) + DigitValue(t[i + 1]);
      x < Pow2(7) && NumericBits(t[i..]) == Bits(x, 7) + []
  {
    SmallPowers();
    var u := t[i..];
    assert Accepted(NUMERIC, u) && Digits(u) < 100;
  }

  // ---------------------------------------------------------------------------
  // Reading back

  /** The digits of a three-digit group, as the source splits them. */
  function ThreeDigits(x: nat): Text
    requires x < 0x8000
  {
    [48 + x / 100, 48 + x % 100 / 10, 48 + x % 10]
  }

  function TwoDigits(x: nat): Text
    requires x < 0x8000
  {
    [48 + x / 10, 48 + x % 10]
  }

  const UNDEFINED: Text := [117, 110, 100, 101, 102, 105, 110, 101, 100]

  /** Entry x of the alphabet; an index past its end appends the nine letters of "undefined". */
  function AlphaNumText(x: nat): Text {
    if x < 45 then [AlphaNum(x)] else UNDEFINED
  }

  /** Characters, bits and text of the next group when k characters of a mode are left. */
  function GroupSize(mode: nat, k: nat): (size: nat)
    requires 0 < k
    ensures 0 < size <= k
  {
    if mode == NUMERIC && k >= 3 then 3
    else if (mode == NUMERIC || mode == ALPHANUMERIC) && k >= 2 then 2
    else 1
  }

  function GroupBits(mode: nat, k: nat): (width: nat)
    requires 0 < k
    ensures width <= 11
  {
    if mode == NUMERIC then if k >= 3 then 10 else if k == 2 then 7 else 4
    else if mode == ALPHANUMERIC then if k >= 2 then 11 else 6
    else 8
  }

  function GroupText(mode: nat, k: nat, x: nat): Text
    requires 0 < k && x < Pow2(GroupBits(mode, k))
  {
    SmallPowers();
    if mode == NUMERIC then if k >= 3 then ThreeDigits(x) else if k == 2 then TwoDigits(x) else [48 + x]
    else if mode == ALPHANUMERIC then if k >= 2 then AlphaNumText(x / 45) + AlphaNumText(x % 45) else AlphaNumText(x)
    else [x]
  }

  /** The next n characters of a mode at pos. */
  function ReadPayload(mode: nat, bytes: seq<nat>, pos: nat, n: nat): Text
    requires IsTextMode(mode)
    decreases n, pos
  {
    if n == 0 then []
    else
      var width := GroupBits(mode, n);
      GroupText(mode, n, Extract(bytes, pos, width)) + ReadPayload(mode, bytes, pos + width, n - GroupSize(mode, n))
  }

  /** t, and the k characters still to be read at pos, are the payload of n characters at start. */
  ghost predicate ReadUpTo(mode: nat, bytes: seq<nat>, start: nat, n: nat, pos: nat, k: nat, t: Text)
    requires IsTextMode(mode)
  {
    t + ReadPayload(mode, bytes, pos, k) == ReadPayload(mode, bytes, start, n)
  }

  lemma AppendTexts(a: Text, b: Text, c: Text)
    ensures a + (b + c) == (a + b) + c
  {}

  lemma ReadUpToStep(mode: nat, bytes: seq<nat>, start: nat, n: nat, pos: nat, k: nat, t: Text, x: nat)
    requires IsTextMode(mode) && 0 < k && ReadUpTo(mode, bytes, start, n, pos, k, t)
    requires x == Extract(bytes, pos, GroupBits(mode, k))
    ensures ReadUpTo(mode, bytes, start, n, pos + GroupBits(mode, k), k - GroupSize(mode, k), t + GroupText(mode, k, x))
  {
    var u := GroupText(mode, k, x);
    var rest := ReadPayload(mode, bytes, pos + GroupBits(mode, k), k - GroupSize(mode, k));
    assert ReadPayload(mode, bytes, pos, k) == u + rest;
    AppendTexts(t, u, rest);
  }

  lemma ReadUpToEnd(mode: nat, bytes: seq<nat>, start: nat, n: nat, pos: nat, t: Text)
    requires IsTextMode(mode) && ReadUpTo(mode, bytes, start, n, pos, 0, t)
    ensures t == ReadPayload(mode, bytes, start, n)
  {
    assert t + [] == t;
  }

  datatype Outcome = Ok(text: Text) | Failed(reason: string)

  function Prepend(text: Text, rest: Outcome): Outcome {
    if rest.Ok? then Ok(text + rest.text) else rest
  }

  lemma PrependTwice(a: Text, b: Text, rest: Outcome)
    ensures Prepend(a, Prepend(b, rest)) == Prepend(a + b, rest)
  {
    if rest.Ok? {
      AppendTexts(a, b, rest.text);
    }
  }

  /** What extractData makes of bytes from position pos on, nBits being its bit count. */
  function ReadSegments(bytes: seq<nat>, pos: nat, nBits: nat, version: nat): Outcome
    decreases nBits - pos
  {
    if pos + 4 >= nBits then Ok([])
    else
      var mode := Extract(bytes, pos, 4);
      if mode == TERMINATOR then Ok([])
      else if IsTextMode(mode) then
        var width := NCountBits(mode, version);
        var n := Extract(bytes, pos + 4, width);
        var start := pos + 4 + width;
        Prepend(ReadPayload(mode, bytes, start, n),
                ReadSegments(bytes, start + PayloadLength(mode, n), nBits, version))
      else Failed("Unsupported ECI mode")
  }

  /** t is the text of a segment of this mode whose count field starts at pos, and ends at end. */
  ghost predicate IsPayload(bytes: seq<nat>, version: nat, mode: nat, pos: nat, t: Text, end: nat)
    requires IsTextMode(mode)
  {
    var w := NCountBits(mode, version);
    var n := Extract(bytes, pos, w);
    t == ReadPayload(mode, bytes, pos + w, n) && end == pos + w + PayloadLength(mode, n)
  }

  lemma ReadSegmentsStep(bytes: seq<nat>, pos: nat, nBits: nat, version: nat, mode: nat, t: Text, end: nat)
    requires pos + 4 < nBits && mode == Extract(bytes, pos, 4) && IsTextMode(mode)
    requires IsPayload(bytes, version, mode, pos + 4, t, end)
    ensures ReadSegments(bytes, pos, nBits, version) == Prepend(t, ReadSegments(bytes, end, nBits, version))
  {}

  /** t, and what is still to be read at pos, are what extractData makes of bytes. */
  ghost predicate Reads(bytes: seq<nat>, nBits: nat, version: nat, t: Text, pos: nat) {
    Prepend(t, ReadSegments(bytes, pos, nBits, version)) == ReadSegments(bytes, 0, nBits, version)
  }

  lemma PayloadRead(bytes: seq<nat>, version: nat, mode: nat, pos: nat, start: nat, n: nat, t: Text, end: nat)
    requires IsTextMode(mode) && start == pos + NCountBits(mode, version)
    requires n == Extract(bytes, pos, NCountBits(mode, version)) && end == start + PayloadLength(mode, n)
    requires ReadUpTo(mode, bytes, start, n, end, 0, t)
    ensures IsPayload(bytes, version, mode, pos, t, end)
  {
    ReadUpToEnd(mode, bytes, start, n, end, t);
  }

  lemma ReadsStep(bytes: seq<nat>, nBits: nat, version: nat, t: Text, pos: nat, mode: nat, u: Text, end: nat)
    requires Reads(bytes, nBits, version, t, pos) && pos + 4 < nBits
    requires mode == Extract(bytes, pos, 4) && IsTextMode(mode) && IsPayload(bytes, version, mode, pos + 4, u, end)
    ensures Reads(bytes, nBits, version, t + u, end)
  {
    ReadSegmentsStep(bytes, pos, nBits, version, mode, u, end);
    PrependTwice(t, u, ReadSegments(bytes, end, nBits, version));
  }

  /** What the next mode means for the whole reading. */
  lemma ReadsMode(bytes: seq<nat>, nBits: nat, version: nat, t: Text, pos: nat, mode: nat, u: Text, end: nat)
    requires Reads(bytes, nBits, version, t, pos) && pos + 4 < nBits && mode == Extract(bytes, pos, 4)
    requires IsTextMode(mode) ==> IsPayload(bytes, version, mode, pos + 4, u, end)
    ensures mode == TERMINATOR ==> ReadSegments(bytes, 0, nBits, version) == Ok(t)
    ensures IsTextMode(mode) ==> Reads(bytes, nBits, version, t + u, end)
    ensures mode != TERMINATOR && !IsTextMode(mode) ==> ReadSegments(bytes, 0, nBits, version).Failed?
  {
    if IsTextMode(mode) {
      ReadsStep(bytes, nBits, version, t, pos, mode, u, end);
    }
  }

  lemma ReadsEnd(bytes: seq<nat>, nBits: nat, version: nat, t: Text, pos: nat)
    requires Reads(bytes, nBits, version, t, pos) && pos + 4 >= nBits
    ensures ReadSegments(bytes, 0, nBits, version) == Ok(t)
  {}

  // ---------------------------------------------------------------------------
  // Round trip

  /** The bits m stand at position pos. */
  ghost predicate HoldsAt(bytes: seq<nat>, pos: nat, m: BitSeq) {
    pos + |m| <= 8 * |bytes| && ByteBits(bytes)[pos..pos + |m|] == m
  }

  lemma HoldsSplit(bytes: seq<nat>, pos: nat, a: BitSeq, b: BitSeq)
    requires HoldsAt(bytes, pos, a + b)
    ensures HoldsAt(bytes, pos, a) && HoldsAt(bytes, pos + |a|, b)
  {
    var all := ByteBits(bytes);
    assert all[pos..pos + |a + b|][..|a|] == (a + b)[..|a|] == a;
    assert all[pos..pos + |a + b|][|a|..] == (a + b)[|a|..] == b;
  }

  /** Entries past the last two bytes are never cut by the three-byte window. */
  ghost predicate Roomy(bytes: seq<nat>, limit: nat) {
    AreBytes(bytes) && limit + 24 <= 8 * |bytes|
  }

  lemma ReadFinds(bytes: seq<nat>, pos: nat, len: nat, value: nat, limit: nat)
    requires Roomy(bytes, limit) && pos <= limit && len <= 16
    requires value < Pow2(len) && HoldsAt(bytes, pos, Bits(value, len))
    ensures Extract(bytes, pos, len) == value
  {
    ExtractFinds(bytes, pos, len, value);
  }

  lemma ThreeDigitsBack(t: Text)
    requires |t| == 3 && Accepted(NUMERIC, t)
    ensures ThreeDigits(Digits(t)) == t
  {
    var a, b, c := DigitValue(t[0]), DigitValue(t[1]), DigitValue(t[2]);
    var x := 100 * a + 10 * b + c;
    assert x / 100 == a && x % 100 == 10 * b + c;
    assert (10 * b + c) / 10 == b && x % 10 == c;
    assert ThreeDigits(x) == [t[0], t[1], t[2]];
  }

  lemma TwoDigitsBack(t: Text)
    requires |t| == 2 && Accepted(NUMERIC, t)
    ensures TwoDigits(Digits(t)) == t
  {
    var a, b := DigitValue(t[0]), DigitValue(t[1]);
    assert (10 * a + b) / 10 == a && (10 * a + b) % 10 == b;
    assert TwoDigits(10 * a + b) == [t[0], t[1]];
  }

  /** One group, and what is behind it. */
  lemma ReadPayloadStep(mode: nat, bytes: seq<nat>, pos: nat, k: nat, x: nat)
    requires IsTextMode(mode) && 0 < k && x == Extract(bytes, pos, GroupBits(mode, k))
    ensures ReadPayload(mode, bytes, pos, k)
         == GroupText(mode, k, x) + ReadPayload(mode, bytes, pos + GroupBits(mode, k), k - GroupSize(mode, k))
  {}

  lemma NumericLast(bytes: seq<nat>, pos: nat, t: Text, limit: nat)
    requires Roomy(bytes, limit) && Accepted(NUMERIC, t) && 1 <= |t| <= 2
    requires HoldsAt(bytes, pos, NumericBits(t)) && pos + |NumericBits(t)| <= limit
    ensures ReadPayload(NUMERIC, bytes, pos, |t|) == t
  {
    SmallPowers();
    if |t| == 1 {
      ReadFinds(bytes, pos, 4, Digits(t), limit);
      assert t == [t[0]];
    } else {
      ReadFinds(bytes, pos, 7, Digits(t), limit);
      TwoDigitsBack(t);
    }
  }

  /** The first three digits, and where the others are. */
  lemma NumericFirst(bytes: seq<nat>, pos: nat, t: Text, limit: nat)
    requires Roomy(bytes, limit) && |t| >= 3 && Accepted(NUMERIC, t)
    requires HoldsAt(bytes, pos, NumericBits(t)) && pos + |NumericBits(t)| <= limit
    ensures HoldsAt(bytes, pos + 10, NumericBits(t[3..])) && pos + 10 + |NumericBits(t[3..])| <= limit
    ensures ReadPayload(NUMERIC, bytes, pos, |t|) == t[..3] + ReadPayload(NUMERIC, bytes, pos + 10, |t| - 3)
  {
    var head := t[..3];
    SmallPowers();
    HoldsSplit(bytes, pos, Bits(Digits(head), 10), NumericBits(t[3..]));
    ReadFinds(bytes, pos, 10, Digits(head), limit);
    ThreeDigitsBack(head);
    ReadPayloadStep(NUMERIC, bytes, pos, |t|, Digits(head));
  }

  lemma {:induction false} NumericRoundTrip(bytes: seq<nat>, pos: nat, t: Text, limit: nat)
    requires Roomy(bytes, limit) && Accepted(NUMERIC, t)
    requires HoldsAt(bytes, pos, NumericBits(t)) && pos + |NumericBits(t)| <= limit
    ensures ReadPayload(NUMERIC, bytes, pos, |t|) == t
    decreases |t|
  {
    if 1 <= |t| <= 2 {
      NumericLast(bytes, pos, t, limit);
    } else if |t| >= 3 {
      NumericFirst(bytes, pos, t, limit);
      NumericRoundTrip(bytes, pos + 10, t[3..], limit);
      assert t == t[..3] + t[3..];
    }
  }

  lemma PairBack(a: nat, b: nat)
    requires a < 45 && b < 45
    ensures (45 * a + b) / 45 == a && (45 * a + b) % 45 == b
  {}

  lemma AlphaNumSingle(bytes: seq<nat>, pos: nat, c: CodeUnit, limit: nat)
    requires Roomy(bytes, limit) && IsAlphaNum(c) && pos <= limit
    requires HoldsAt(bytes, pos, Bits(AlphaNumRev(c), 6))
    ensures ReadPayload(ALPHANUMERIC, bytes, pos, 1) == [c]
  {
    SmallPowers();
    ReadFinds(bytes, pos, 6, AlphaNumRev(c), limit);
  }

  lemma AlphaNumPair(bytes: seq<nat>, pos: nat, c: CodeUnit, d: CodeUnit, rest: BitSeq, limit: nat)
    requires Roomy(bytes, limit) && IsAlphaNum(c) && IsAlphaNum(d) && pos <= limit
    requires HoldsAt(bytes, pos, Bits(45 * AlphaNumRev(c) + AlphaNumRev(d), 11) + rest)
    ensures Extract(bytes, pos, 11) == 45 * AlphaNumRev(c) + AlphaNumRev(d)
    ensures HoldsAt(bytes, pos + 11, rest)
  {
    var x := 45 * AlphaNumRev(c) + AlphaNumRev(d);
    HoldsSplit(bytes, pos, Bits(x, 11), rest);
    SmallPowers();
    ReadFinds(bytes, pos, 11, x, limit);
  }

  lemma PairText(k: nat, c: CodeUnit, d: CodeUnit, x: nat)
    requires k >= 2 && IsAlphaNum(c) && IsAlphaNum(d) && x == 45 * AlphaNumRev(c) + AlphaNumRev(d)
    requires x < Pow2(GroupBits(ALPHANUMERIC, k))
    ensures GroupText(ALPHANUMERIC, k, x) == [c, d]
  {
    PairBack(AlphaNumRev(c), AlphaNumRev(d));
    assert [c] + [d] == [c, d];
  }

  lemma AlphaNumPairBack(mode: nat, bytes: seq<nat>, pos: nat, k: nat, x: nat, u: Text)
    requires mode == ALPHANUMERIC && k >= 2
    requires x == Extract(bytes, pos, 11) && x < Pow2(GroupBits(mode, k)) && u == GroupText(mode, k, x)
    ensures ReadPayload(mode, bytes, pos, k) == u + ReadPayload(mode, bytes, pos + 11, k - 2)
  {
    PairGroup(k);
    ReadPayloadStep(mode, bytes, pos, k, x);
  }

  lemma PairGroup(k: nat)
    requires k >= 2
    ensures GroupBits(ALPHANUMERIC, k) == 11 && GroupSize(ALPHANUMERIC, k) == 2
  {}

  lemma AlphaNumHead(t: Text)
    requires |t| >= 2 && forall i :: 0 <= i < |t| ==> IsAlphaNum(t[i])
    ensures AlphaNumBits(t) == Bits(45 * AlphaNumRev(t[0]) + AlphaNumRev(t[1]), 11) + AlphaNumBits(t[2..])
    ensures t == [t[0], t[1]] + t[2..]
  {}

  /** Two characters are found, and the rest behind them. */
  lemma PairFinds(bytes: seq<nat>, pos: nat, c: CodeUnit, d: CodeUnit, rest: BitSeq, limit: nat, k: nat, x: nat)
    requires Roomy(bytes, limit) && k >= 2 && IsAlphaNum(c) && IsAlphaNum(d) && pos <= limit
    requires HoldsAt(bytes, pos, Bits(45 * AlphaNumRev(c) + AlphaNumRev(d), 11) + rest) && x == Extract(bytes, pos, 11)
    ensures x < Pow2(GroupBits(ALPHANUMERIC, k)) && GroupText(ALPHANUMERIC, k, x) == [c, d]
    ensures HoldsAt(bytes, pos + 11, rest)
  {
    AlphaNumPair(bytes, pos, c, d, rest, limit);
    PairGroup(k);
    PairText(k, c, d, x);
  }

  lemma AlphaNumLast(bytes: seq<nat>, pos: nat, t: Text, limit: nat)
    requires Roomy(bytes, limit) && |t| == 1 && IsAlphaNum(t[0]) && pos <= limit
    requires HoldsAt(bytes, pos, AlphaNumBits(t))
    ensures ReadPayload(ALPHANUMERIC, bytes, pos, 1) == t
  {
    AlphaNumSingle(bytes, pos, t[0], limit);
    assert t == [t[0]];
  }

  lemma {:induction false} AlphaNumRoundTrip(bytes: seq<nat>, pos: nat, t: Text, limit: nat)
    requires Roomy(bytes, limit) && forall i :: 0 <= i < |t| ==> IsAlphaNum(t[i])
    requires HoldsAt(bytes, pos, AlphaNumBits(t)) && pos + |AlphaNumBits(t)| <= limit
    ensures ReadPayload(ALPHANUMERIC, bytes, pos, |t|) == t
    decreases |t|
  {
    if |t| == 1 {
      AlphaNumLast(bytes, pos, t, limit);
    } else if |t| >= 2 {
      var rest := AlphaNumTail(bytes, pos, t, limit);
      AlphaNumRoundTrip(bytes, pos + 11, t[2..], limit);
      AlphaNumMore(ALPHANUMERIC, bytes, pos, t, t[2..], rest, limit);
    }
  }

  lemma AlphaNumMore(mode: nat, bytes: seq<nat>, pos: nat, t: Text, tail: Text, rest: BitSeq, limit: nat)
    requires Roomy(bytes, limit) && pos <= limit && mode == ALPHANUMERIC
    requires |t| >= 2 && IsAlphaNum(t[0]) && IsAlphaNum(t[1]) && t == [t[0], t[1]] + tail
    requires HoldsAt(bytes, pos, Bits(45 * AlphaNumRev(t[0]) + AlphaNumRev(t[1]), 11) + rest)
    requires ReadPayload(mode, bytes, pos + 11, |tail|) == tail
    ensures ReadPayload(mode, bytes, pos, |t|) == t
  {
    var x := Extract(bytes, pos, 11);
    PairFinds(bytes, pos, t[0], t[1], rest, limit, |t|, x);
    AlphaNumPairBack(mode, bytes, pos, |t|, x, [t[0], t[1]]);
  }

  /** Where the others are. */
  lemma AlphaNumTail(bytes: seq<nat>, pos: nat, t: Text, limit: nat) returns (rest: BitSeq)
    requires |t| >= 2 && forall i :: 0 <= i < |t| ==> IsAlphaNum(t[i])
    requires HoldsAt(bytes, pos, AlphaNumBits(t)) && pos + |AlphaNumBits(t)| <= limit
    ensures rest == AlphaNumBits(t[2..]) && HoldsAt(bytes, pos + 11, rest) && pos + 11 + |rest| <= limit
    ensures HoldsAt(bytes, pos, Bits(45 * AlphaNumRev(t[0]) + AlphaNumRev(t[1]), 11) + rest)
    ensures t == [t[0], t[1]] + t[2..]
  {
    AlphaNumHead(t);
    rest := AlphaNumBits(t[2..]);
    HoldsSplit(bytes, pos, Bits(45 * AlphaNumRev(t[0]) + AlphaNumRev(t[1]), 11), rest);
  }

  lemma {:induction false} EightBitRoundTrip(bytes: seq<nat>, pos: nat, t: Text, limit: nat)
    requires Roomy(bytes, limit) && Encodable(EIGHT_BIT, t)
    requires HoldsAt(bytes, pos, EightBits(t)) && pos + |EightBits(t)| <= limit
    ensures ReadPayload(EIGHT_BIT, bytes, pos, |t|) == t
    decreases |t|
  {
    SmallPowers();
    if |t| > 0 {
      HoldsSplit(bytes, pos, Bits(t[0], 8), EightBits(t[1..]));
      ReadFinds(bytes, pos, 8, t[0], limit);
      EightBitRoundTrip(bytes, pos + 8, t[1..], limit);
    }
  }

  lemma PayloadRoundTrip(bytes: seq<nat>, pos: nat, s: Segment, limit: nat)
    requires Roomy(bytes, limit) && Encodable(s.mode, s.text)
    requires HoldsAt(bytes, pos, PayloadBits(s.mode, s.text))
    requires pos + |PayloadBits(s.mode, s.text)| <= limit
    ensures ReadPayload(s.mode, bytes, pos, |s.text|) == s.text
  {
    if s.mode == NUMERIC {
      NumericRoundTrip(bytes, pos, s.text, limit);
    } else if s.mode == ALPHANUMERIC {
      AlphaNumRoundTrip(bytes, pos, s.text, limit);
    } else {
      EightBitRoundTrip(bytes, pos, s.text, limit);
    }
  }

  /** A segment a symbol of this version can carry. */
  ghost predicate Carried(s: Segment, version: nat) {
    Encodable(s.mode, s.text) && |s.text| < Pow2(NCountBits(s.mode, version))
  }

  ghost predicate AllCarried(segs: seq<Segment>, version: nat) {
    forall i :: 0 <= i < |segs| ==> Carried(segs[i], version)
  }

  ghost function AllBits(segs: seq<Segment>, version: nat): BitSeq
    requires AllCarried(segs, version)
  {
    if |segs| == 0 then []
    else
      assert Carried(segs[0], version);
      SegmentBits(segs[0], version) + AllBits(segs[1..], version)
  }

  /** The texts of all segments in order. */
  function AllText(segs: seq<Segment>): Text {
    if |segs| == 0 then [] else segs[0].text + AllText(segs[1..])
  }

  lemma {:induction false} AllBitsAppend(segs: seq<Segment>, s: Segment, version: nat)
    requires AllCarried(segs, version) && Carried(s, version)
    ensures AllCarried(segs + [s], version)
    ensures AllBits(segs + [s], version) == AllBits(segs, version) + SegmentBits(s, version)
  {
    if |segs| == 0 {
      assert segs + [s] == [s];
      assert [s][1..] == [];
    } else {
      assert (segs + [s])[1..] == segs[1..] + [s];
      AllBitsAppend(segs[1..], s, version);
      AppendStep(SegmentBits(segs[0], version), AllBits(segs[1..], version), SegmentBits(s, version));
    }
  }

  lemma AppendStep(a: BitSeq, b: BitSeq, c: BitSeq)
    ensures a + (b + c) == (a + b) + c
  {}

  /** Mode and character count are read, and the payload is behind them. */
  lemma HeaderFields(bytes: seq<nat>, pos: nat, nBits: nat, s: Segment, version: nat, w: nat)
    requires Roomy(bytes, nBits) && Carried(s, version) && w == NCountBits(s.mode, version)
    requires HoldsAt(bytes, pos, SegmentBits(s, version)) && pos + |SegmentBits(s, version)| <= nBits
    ensures Extract(bytes, pos, 4) == s.mode && Extract(bytes, pos + 4, w) == |s.text|
    ensures HoldsAt(bytes, pos + 4 + w, PayloadBits(s.mode, s.text))
    ensures |SegmentBits(s, version)| == 4 + w + |PayloadBits(s.mode, s.text)|
  {
    HoldsThree(bytes, pos, Bits(s.mode, 4), Bits(|s.text|, w), PayloadBits(s.mode, s.text));
    SmallPowers();
    ReadFinds(bytes, pos, 4, s.mode, nBits);
    ReadFinds(bytes, pos + 4, w, |s.text|, nBits);
  }

  lemma SegmentFields(bytes: seq<nat>, pos: nat, nBits: nat, s: Segment, version: nat, end: nat)
    requires Roomy(bytes, nBits) && Carried(s, version)
    requires HoldsAt(bytes, pos, SegmentBits(s, version)) && end == pos + |SegmentBits(s, version)| <= nBits
    ensures pos + 4 < nBits && Extract(bytes, pos, 4) == s.mode
    ensures IsPayload(bytes, version, s.mode, pos + 4, s.text, end)
  {
    var w := NCountBits(s.mode, version);
    HeaderFields(bytes, pos, nBits, s, version, w);
    PayloadBitsLength(s.mode, s.text);
    PayloadRoundTrip(bytes, pos + 4 + w, s, nBits);
  }

  lemma HoldsThree(bytes: seq<nat>, pos: nat, a: BitSeq, b: BitSeq, c: BitSeq)
    requires HoldsAt(bytes, pos, a + b + c)
    ensures HoldsAt(bytes, pos, a) && HoldsAt(bytes, pos + |a|, b) && HoldsAt(bytes, pos + |a| + |b|, c)
  {
    HoldsSplit(bytes, pos, a + b, c);
    HoldsSplit(bytes, pos, a, b);
  }

  /** One segment is read back, and reading goes on behind it. */
  lemma SegmentRoundTrip(bytes: seq<nat>, pos: nat, nBits: nat, s: Segment, version: nat, end: nat)
    requires Roomy(bytes, nBits) && Carried(s, version)
    requires HoldsAt(bytes, pos, SegmentBits(s, version)) && end == pos + |SegmentBits(s, version)| <= nBits
    ensures ReadSegments(bytes, pos, nBits, version) == Prepend(s.text, ReadSegments(bytes, end, nBits, version))
  {
    SegmentFields(bytes, pos, nBits, s, version, end);
    ReadSegmentsStep(bytes, pos, nBits, version, s.mode, s.text, end);
  }

  /** The segments' bits stand at pos, then a terminator or fewer than five bits. */
  ghost predicate StreamAt(bytes: seq<nat>, pos: nat, nBits: nat, segs: seq<Segment>, version: nat) {
    && Roomy(bytes, nBits) && AllCarried(segs, version) && HoldsAt(bytes, pos, AllBits(segs, version))
    && var end := pos + |AllBits(segs, version)|;
      end <= nBits && (end + 4 < nBits ==> HoldsAt(bytes, end, Bits(TERMINATOR, 4)))
  }

  lemma StreamSplit(bytes: seq<nat>, pos: nat, nBits: nat, segs: seq<Segment>, version: nat)
    requires StreamAt(bytes, pos, nBits, segs, version) && |segs| > 0
    ensures Carried(segs[0], version)
    ensures var m := SegmentBits(segs[0], version);
      HoldsAt(bytes, pos, m) && pos + |m| <= nBits && StreamAt(bytes, pos + |m|, nBits, segs[1..], version)
  {
    HoldsSplit(bytes, pos, SegmentBits(segs[0], version), AllBits(segs[1..], version));
  }

  lemma StreamEnd(bytes: seq<nat>, pos: nat, nBits: nat, version: nat)
    requires StreamAt(bytes, pos, nBits, [], version)
    ensures ReadSegments(bytes, pos, nBits, version) == Ok([])
  {
    if pos + 4 < nBits {
      ReadFinds(bytes, pos, 4, TERMINATOR, nBits);
    }
  }

  /** Reading a stream of segments returns their texts, up to a terminator or the last four bits. */
  lemma {:induction false} SegmentsRoundTrip(bytes: seq<nat>, pos: nat, nBits: nat, segs: seq<Segment>, version: nat)
    requires StreamAt(bytes, pos, nBits, segs, version)
    ensures ReadSegments(bytes, pos, nBits, version) == Ok(AllText(segs))
    decreases |segs|
  {
    if |segs| == 0 {
      StreamEnd(bytes, pos, nBits, version);
    } else {
      StreamSplit(bytes, pos, nBits, segs, version);
      var end := pos + |SegmentBits(segs[0], version)|;
      SegmentsRoundTrip(bytes, end, nBits, segs[1..], version);
      SegmentRoundTrip(bytes, pos, nBits, segs[0], version, end);
    }
  }

  // ---------------------------------------------------------------------------
  // Characters that are not read back

  ghost predicate BelowByte(t: Text) {
    forall i :: 0 <= i < |t| ==> t[i] < 256
  }

  lemma GroupBelowByte(mode: nat, k: nat, x: nat)
    requires IsTextMode(mode) && 0 < k && x < Pow2(GroupBits(mode, k))
    ensures BelowByte(GroupText(mode, k, x))
  {
    SmallPowers();
  }

  /** The first group that is read. */
  lemma FirstGroup(mode: nat, bytes: seq<nat>, pos: nat, n: nat) returns (head: Text)
    requires IsTextMode(mode) && 0 < n
    ensures BelowByte(head)
    ensures ReadPayload(mode, bytes, pos, n)
         == head + ReadPayload(mode, bytes, pos + GroupBits(mode, n), n - GroupSize(mode, n))
  {
    var x := Extract(bytes, pos, GroupBits(mode, n));
    head := GroupText(mode, n, x);
    GroupBelowByte(mode, n, x);
    ReadPayloadStep(mode, bytes, pos, n, x);
  }

  lemma {:induction false} PayloadBelowByte(mode: nat, bytes: seq<nat>, pos: nat, n: nat) returns (t: Text)
    requires IsTextMode(mode)
    ensures t == ReadPayload(mode, bytes, pos, n) && BelowByte(t)
    decreases n
  {
    if n == 0 {
      t := [];
    } else {
      var head := FirstGroup(mode, bytes, pos, n);
      var rest := PayloadBelowByte(mode, bytes, pos + GroupBits(mode, n), n - GroupSize(mode, n));
      BelowByteConcat(head, rest);
      t := head + rest;
    }
  }

  /** Whatever is read, no character of it is 256 or more. */
  lemma {:induction false} ReadBelowByte(bytes: seq<nat>, pos: nat, nBits: nat, version: nat) returns (r: Outcome)
    ensures r == ReadSegments(bytes, pos, nBits, version) && (r.Ok? ==> BelowByte(r.text))
    decreases nBits - pos
  {
    r := ReadSegments(bytes, pos, nBits, version);
    if pos + 4 < nBits && IsTextMode(Extract(bytes, pos, 4)) {
      var mode := Extract(bytes, pos, 4);
      var t, end := FirstPayload(bytes, pos + 4, version, mode);
      var rest := ReadBelowByte(bytes, end, nBits, version);
      ReadSegmentsStep(bytes, pos, nBits, version, mode, t, end);
      if rest.Ok? {
        BelowByteConcat(t, rest.text);
      }
    }
  }

  /** The text of the first segment. */
  lemma FirstPayload(bytes: seq<nat>, pos: nat, version: nat, mode: nat) returns (t: Text, end: nat)
    requires IsTextMode(mode)
    ensures IsPayload(bytes, version, mode, pos, t, end) && BelowByte(t) && end >= pos
  {
    var w := NCountBits(mode, version);
    var n := Extract(bytes, pos, w);
    t := PayloadBelowByte(mode, bytes, pos + w, n);
    end := pos + w + PayloadLength(mode, n);
  }

  /** The coder accepts an eight-bit text with the character 256, and nothing reads as that text. */
  lemma AcceptedButLost(bytes: seq<nat>, nBits: nat, version: nat)
    ensures Accepted(EIGHT_BIT, [256]) && ReadSegments(bytes, 0, nBits, version) != Ok([256])
  {
    var _ := ReadBelowByte(bytes, 0, nBits, version);
    var t: Text := [256];
    assert t[0] == 256;
    assert !BelowByte(t);
  }

  ghost predicate AllAccepted(segs: seq<Segment>) {
    forall i :: 0 <= i < |segs| ==> IsTextMode(segs[i].mode) && Accepted(segs[i].mode, segs[i].text)
  }

  /** Among accepted segments, those that can be read back are the ones without such characters. */
  lemma {:induction false} EncodableIffBelowByte(segs: seq<Segment>)
    requires AllAccepted(segs)
    ensures AllEncodable(segs) <==> BelowByte(AllText(segs))
  {
    if |segs| > 0 {
      var s, rest := segs[0], segs[1..];
      EncodableIffBelowByte(rest);
      SegmentEncodable(s);
      BelowByteConcat(s.text, AllText(rest));
      assert AllEncodable(segs) <==> Encodable(s.mode, s.text) && AllEncodable(rest) by {
        assert segs == [s] + rest;
      }
    }
  }

  lemma SegmentEncodable(s: Segment)
    requires IsTextMode(s.mode) && Accepted(s.mode, s.text)
    ensures Encodable(s.mode, s.text) <==> BelowByte(s.text)
  {}

  lemma BelowByteConcat(a: Text, b: Text)
    ensures BelowByte(a + b) <==> BelowByte(a) && BelowByte(b)
  {
    if BelowByte(a + b) {
      forall i | 0 <= i < |a| ensures a[i] < 256 {
        assert (a + b)[i] == a[i];
      }
      forall i | 0 <= i < |b| ensures b[i] < 256 {
        assert (a + b)[|a| + i] == b[i];
      }
    }
  }

  ghost predicate AllEncodable(segs: seq<Segment>) {
    forall i :: 0 <= i < |segs| ==> IsTextMode(segs[i].mode) && Encodable(segs[i].mode, segs[i].text)
  }

  /** Bits of all segments. */
  ghost function TotalLength(segs: seq<Segment>, version: nat): nat
    requires AllAccepted(segs)
  {
    if |segs| == 0 then 0
    else
      var last := segs[|segs| - 1];
      TotalLength(segs[..|segs| - 1], version) + SegmentLength(last.mode, |last.text|, version)
  }

  lemma TotalLengthStep(segs: seq<Segment>, i: nat, version: nat)
    requires i < |segs| && AllAccepted(segs)
    ensures TotalLength(segs[..i + 1], version)
         == TotalLength(segs[..i], version) + SegmentLength(segs[i].mode, |segs[i].text|, version)
    ensures segs[..i + 1] == segs[..i] + [Segment(segs[i].mode, segs[i].text)]
  {
    assert segs[..i + 1][..i] == segs[..i];
  }

  lemma {:induction false} TotalLengthMonotone(segs: seq<Segment>, i: nat, version: nat)
    requires i <= |segs| && AllAccepted(segs)
    ensures TotalLength(segs[..i], version) <= TotalLength(segs, version)
    decreases |segs| - i
  {
    if i < |segs| {
      TotalLengthStep(segs, i, version);
      TotalLengthMonotone(segs, i + 1, version);
    } else {
      assert segs[..i] == segs;
    }
  }

  // ---------------------------------------------------------------------------
  // Capacity

  /** Characters of one mode that fit in so many payload bits. */
  function CapacityOf(bits: nat, mode: nat): (cap: nat)
    requires IsTextMode(mode)
  {
    if mode == ALPHANUMERIC then
      var cap := bits / 11 * 2;
      if bits >= cap / 2 * 11 + 6 then cap + 1 else cap
    else if mode == EIGHT_BIT then
      bits / 8
    else
      var cap := bits / 10 * 3;
      if bits >= cap / 3 * 10 + 4 then
        if bits >= cap / 3 * 10 + 7 then cap + 2 else cap + 1
      else cap
  }

  /** Characters of one mode that a symbol holds, as getDataCapacity works it out. */
  function DataCapacity(version: nat, level: nat, mode: nat): (cap: nat)
    requires IsSymbol(version, level) && IsTextMode(mode)
  {
    AllShapes(version, level);
    CapacityOf(8 * (NCodewords(version) - EcLevel(version, level).ec) - 4 - NCountBits(mode, version), mode)
  }

  lemma CapacityOfExact(bits: nat, mode: nat, n: nat)
    requires IsTextMode(mode)
    ensures PayloadLength(mode, n) <= bits <==> n <= CapacityOf(bits, mode)
  {
    if mode == NUMERIC {
      var q, r, k := n / 3, n % 3, bits / 10;
      assert n == 3 * q + r && k * 3 / 3 == k;
    } else if mode == ALPHANUMERIC {
      var q, r, k := n / 2, n % 2, bits / 11;
      assert n == 2 * q + r && k * 2 / 2 == k;
    }
  }

  /** The capacity is exact: n characters fit if and only if n does not exceed it. */
  lemma CapacityExact(version: nat, level: nat, mode: nat, n: nat)
    requires IsSymbol(version, level) && IsTextMode(mode)
    ensures SegmentLength(mode, n, version) <= 8 * SymbolShape(version, level).DataWords()
       <==> n <= DataCapacity(version, level, mode)
  {
    AllShapes(version, level);
    CapacityAt(version, level, mode, n, SymbolShape(version, level).DataWords());
  }

  lemma CapacityAt(version: nat, level: nat, mode: nat, n: nat, words: nat)
    requires IsSymbol(version, level) && IsTextMode(mode)
    requires words + EcLevel(version, level).ec == NCodewords(version) && words >= 9
    ensures SegmentLength(mode, n, version) <= 8 * words <==> n <= DataCapacity(version, level, mode)
  {
    CapacityIs(version, level, mode, words);
    CapacityOfExact(8 * words - 4 - NCountBits(mode, version), mode, n);
  }

  lemma CapacityIs(version: nat, level: nat, mode: nat, words: nat)
    requires IsSymbol(version, level) && IsTextMode(mode)
    requires words + EcLevel(version, level).ec == NCodewords(version) && words >= 9
    ensures DataCapacity(version, level, mode) == CapacityOf(8 * words - 4 - NCountBits(mode, version), mode)
  {}

  /** A text that fits a symbol has a length that fits its count field. */
  lemma CountFits(version: nat, mode: nat, n: nat)
    requires IsTextMode(mode)
    requires SegmentLength(mode, n, version) <= 8 * DataBound(version)
    ensures n < Pow2(NCountBits(mode, version))
  {
    SmallPowers();
  }

  /** A text of n characters fits the symbol of this version and level. */
  predicate FitsVersion(level: nat, mode: nat, n: nat, version: nat) {
    && IsSymbol(version, level) && IsTextMode(mode)
    && SegmentLength(mode, n, version) <= 8 * SymbolShape(version, level).DataWords()
  }

  lemma FitsExactly(level: nat, mode: nat, n: nat, version: nat)
    requires IsSymbol(version, level) && IsTextMode(mode)
    ensures FitsVersion(level, mode, n, version) <==> n <= DataCapacity(version, level, mode)
  {
    CapacityExact(version, level, mode, n);
  }
}
