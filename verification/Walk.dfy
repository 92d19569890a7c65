/** Walking the module matrix: placing the bits of the codewords, and collecting them again. */
module Walk {
  import opened BitStream
  import opened Placement

  // ---------------------------------------------------------------------------
  // Placing

  /** The codeword being placed, the number of its bits already placed, and the mask of the next. */
  datatype Pen = Pen(n: nat, bitsWritten: nat, mask: nat)

  /** The pen stands at bit k of the codewords. */
  ghost predicate AtBit(pen: Pen, k: nat) {
    pen.bitsWritten < 8 && k == 8 * pen.n + pen.bitsWritten && pen.mask == Pow2(7 - pen.bitsWritten)
  }

  /** v & mask, for a mask of one bit. */
  predicate HasBit(v: nat, mask: nat)
    requires mask > 0
  {
    v / mask % 2 == 1
  }

  lemma HasBitIsBit(v: nat, j: nat)
    requires j < 8
    ensures HasBit(v, Pow2(j)) == BitAt(v, j)
  {
    ShiftRightIs(v, j);
    BitOfShiftRight(v, j, 0);
  }

  lemma PenBit(bytes: seq<nat>, pen: Pen, k: nat)
    requires AtBit(pen, k)
    ensures HasBit(EntryAt(bytes, pen.n), pen.mask) == DataBit(bytes, k)
  {
    HasBitIsBit(EntryAt(bytes, pen.n), 7 - pen.bitsWritten);
    if pen.n >= |bytes| {
      BitOfZero(7 - pen.bitsWritten);
    }
  }

  /** Place one bit, unless the module belongs to a function pattern. */
  method PlaceCell(g: Grid, f: Grid, n: nat, mask: nat, x: nat, y: nat, bytes: seq<nat>, pen: Pen, ghost k: nat)
    returns (r: Grid, q: Pen)
    requires IsGrid(g, n) && IsGrid(f, n) && x < n && y < n && AtBit(pen, k)
    ensures r == Written(g, f, n, MaskOf(mask), x, y, DataBit(bytes, k)) && AtBit(q, Next(f, n, x, y, k))
  {
    r, q := g, pen;
    if !f[x][y] {
      PenBit(bytes, pen, k);
      SmallPowers();
      var bit := HasBit(EntryAt(bytes, pen.n), pen.mask);
      r := SetModule(g, x, y, if MaskValue(mask, x, y) == 0 then !bit else bit);
      if pen.bitsWritten + 1 == 8 {
        q := Pen(pen.n + 1, 0, 128);
      } else {
        q := Pen(pen.n, pen.bitsWritten + 1, pen.mask / 2);
      }
    }
  }

  /** Place the bits of one row of the column pair whose right column is j. */
  method PlaceRow(g: Grid, f: Grid, n: nat, mask: nat, j: nat, i: nat, ghost p: nat, ghost count: nat,
                  bytes: seq<nat>, pen: Pen, ghost k: nat) returns (r: Grid, q: Pen)
    requires IsWidth(n) && IsGrid(g, n) && IsGrid(f, n) && p < Pairs(n) && count < n && AtBit(pen, k)
    requires j == PairColumn(n, p) && i == RowAt(n, p, count)
    ensures r == RowWritten(g, f, n, MaskOf(mask), p, count, bytes, k) && AtBit(q, NextRow(f, n, p, count, k))
  {
    ghost var k1 := Next(f, n, j, i, k);
    r, q := g, pen;
    for col := 0 to 2
      invariant IsGrid(r, n)
      invariant col == 0 ==> r == g && q == pen
      invariant col == 1 ==> r == Written(g, f, n, MaskOf(mask), j, i, DataBit(bytes, k)) && AtBit(q, k1)
      invariant col == 2 ==>
        r == RowWritten(g, f, n, MaskOf(mask), p, count, bytes, k) && AtBit(q, NextRow(f, n, p, count, k))
    {
      r, q := PlaceCell(r, f, n, mask, j - col, i, bytes, q, if col == 0 then k else k1);
    }
  }

  /** Place the bits of one column pair, upwards or downwards. */
  method PlacePair(g: Grid, f: Grid, n: nat, mask: nat, j: nat, writingUp: bool, ghost p: nat,
                   bytes: seq<nat>, pen: Pen, ghost k: nat) returns (r: Grid, q: Pen, ghost k1: nat)
    requires IsWidth(n) && IsGrid(g, n) && IsGrid(f, n) && p < Pairs(n) && AtBit(pen, k)
    requires j == PairColumn(n, p) && writingUp == (p % 2 == 0)
    requires Placed(g, f, n, MaskOf(mask), p, 0, bytes, k)
    ensures IsGrid(r, n) && SameFixed(g, r, f, n)
    ensures Placed(r, f, n, MaskOf(mask), p, n, bytes, k1) && AtBit(q, k1)
  {
    r, q, k1 := g, pen, k;
    for count := 0 to n
      invariant IsGrid(r, n) && SameFixed(g, r, f, n)
      invariant Placed(r, f, n, MaskOf(mask), p, count, bytes, k1) && AtBit(q, k1)
    {
      RowPlaced(r, f, n, MaskOf(mask), p, count, bytes, k1);
      ghost var k0 := k1;
      k1 := NextRow(f, n, p, count, k0);
      r, q := PlaceRow(r, f, n, mask, j, if writingUp then n - 1 - count else count, p, count, bytes, q, k0);
    }
  }

  // ---------------------------------------------------------------------------
  // Collecting

  /** The codewords read so far, the one being read, and the weight of its next bit (0 stands for
      the one half the source's division leaves after the last bit). */
  datatype Reading = Reading(codewords: seq<nat>, currentByte: nat, factor: nat)

  /** Exactly these bits have been read. */
  ghost predicate HasRead(s: Reading, bits: BitSeq) {
    var c := 8 * |s.codewords|;
    && c <= |bits| < c + 8 && AreBytes(s.codewords) && ByteBits(s.codewords) == bits[..c]
    && s.factor == Pow2(7 - (|bits| - c))
    && s.currentByte == ShiftLeft(Value(bits[c..]), 8 - (|bits| - c))
  }

  function Advanced(s: Reading, bit: bool): Reading {
    var currentByte := if bit then s.currentByte + s.factor else s.currentByte;
    var factor := s.factor / 2;
    if factor < 1 then Reading(s.codewords + [currentByte], 0, 128) else Reading(s.codewords, currentByte, factor)
  }

  lemma {:induction false} ShiftedOne(k: nat)
    ensures ShiftLeft(1, k) == Pow2(k)
  {
    if k > 0 {
      ShiftedOne(k - 1);
    }
  }

  /** One more bit of a byte of which partial has been read. */
  lemma PartialStep(partial: BitSeq, next: BitSeq, bit: bool, k: nat)
    requires next == partial + [bit]
    ensures ShiftLeft(Value(next), k) == ShiftLeft(Value(partial), k + 1) + if bit then Pow2(k) else 0
  {
    ValueAppend(partial, bit);
    BitShifted(Value(partial), Value(next), bit, k, k + 1);
  }

  lemma ValueAppend(bits: BitSeq, bit: bool)
    ensures Value(bits + [bit]) == 2 * Value(bits) + if bit then 1 else 0
  {
    assert (bits + [bit])[..|bits|] == bits;
  }

  lemma BitShifted(v: nat, w: nat, bit: bool, k: nat, k1: nat)
    requires w == 2 * v + (if bit then 1 else 0) && k1 == k + 1
    ensures ShiftLeft(w, k) == ShiftLeft(v, k1) + if bit then Pow2(k) else 0
  {
    ShiftLeftTwice(v, 1, k);
    assert ShiftLeft(v, 1) == 2 * v;
    if bit {
      ShiftLeftAdd(2 * v, 1, k);
      ShiftedOne(k);
    }
  }

  lemma {:induction false} ShiftedZero(k: nat)
    ensures ShiftLeft(0, k) == 0
  {
    if k > 0 {
      ShiftedZero(k - 1);
    }
  }

  lemma LastBit(s: Reading, bits: BitSeq, bit: bool)
    requires HasRead(s, bits) && |bits| + 1 == 8 * |s.codewords| + 8
    ensures HasRead(Advanced(s, bit), bits + [bit])
  {
    var c := 8 * |s.codewords|;
    var next := bits[c..] + [bit];
    PartialStep(bits[c..], next, bit, 0);
    WholeByte(next);
    ByteBitsConcat(s.codewords, [Value(next)]);
    assert bits + [bit] == bits[..c] + next;
    assert (bits + [bit])[c + 8..] == [];
    ShiftedZero(8);
    SmallPowers();
  }

  lemma ReadingStep(s: Reading, bits: BitSeq, bit: bool)
    requires HasRead(s, bits)
    ensures HasRead(Advanced(s, bit), bits + [bit])
  {
    var c := 8 * |s.codewords|;
    if |bits| + 1 == c + 8 {
      LastBit(s, bits, bit);
    } else {
      var next := (bits + [bit])[c..];
      assert next == bits[c..] + [bit];
      PartialStep(bits[c..], next, bit, c + 7 - |bits|);
      assert (bits + [bit])[..c] == bits[..c];
    }
  }

  /** Read one bit, unless the module belongs to a function pattern. */
  method ReadCell(g: Grid, f: Grid, n: nat, mask: nat, x: nat, y: nat, s: Reading, ghost bits: BitSeq)
    returns (t: Reading)
    requires IsGrid(g, n) && IsGrid(f, n) && x < n && y < n && HasRead(s, bits)
    ensures HasRead(t, bits + CellBits(g, f, n, MaskOf(mask), x, y))
  {
    t := s;
    if !f[x][y] {
      var bit := if MaskValue(mask, x, y) == 0 then !g[x][y] else g[x][y];
      t := Advanced(s, bit);
      ReadingStep(s, bits, bit);
    } else {
      assert bits + [] == bits;
    }
  }

  /** The bits of the first col cells of a row. */
  ghost function CellsBits(g: Grid, f: Grid, n: nat, m: Mask, x: nat, y: nat, col: nat): BitSeq
    requires IsGrid(g, n) && IsGrid(f, n) && x < n && 0 < x && y < n && col <= 2
  {
    if col == 0 then []
    else if col == 1 then CellBits(g, f, n, m, x, y)
    else CellBits(g, f, n, m, x, y) + CellBits(g, f, n, m, x - 1, y)
  }

  lemma CellsBitsStep(g: Grid, f: Grid, n: nat, m: Mask, x: nat, y: nat, col: nat, bits: BitSeq)
    requires IsGrid(g, n) && IsGrid(f, n) && x < n && 0 < x && y < n && col < 2
    ensures bits + CellsBits(g, f, n, m, x, y, col) + CellBits(g, f, n, m, x - col, y)
         == bits + CellsBits(g, f, n, m, x, y, col + 1)
  {}

  method ReadCellOf(g: Grid, f: Grid, n: nat, mask: nat, j: nat, i: nat, col: nat, s: Reading, ghost bits: BitSeq)
    returns (t: Reading)
    requires IsGrid(g, n) && IsGrid(f, n) && 0 < j < n && i < n && col < 2
    requires HasRead(s, bits + CellsBits(g, f, n, MaskOf(mask), j, i, col))
    ensures HasRead(t, bits + CellsBits(g, f, n, MaskOf(mask), j, i, col + 1))
  {
    CellsBitsStep(g, f, n, MaskOf(mask), j, i, col, bits);
    t := ReadCell(g, f, n, mask, j - col, i, s, bits + CellsBits(g, f, n, MaskOf(mask), j, i, col));
  }

  method ReadRow(g: Grid, f: Grid, n: nat, mask: nat, j: nat, i: nat, ghost p: nat, ghost count: nat,
                 s: Reading, ghost bits: BitSeq) returns (t: Reading)
    requires IsWidth(n) && IsGrid(g, n) && IsGrid(f, n) && p < Pairs(n) && count < n && HasRead(s, bits)
    requires j == PairColumn(n, p) && i == RowAt(n, p, count)
    ensures HasRead(t, bits + RowBits(g, f, n, MaskOf(mask), p, count))
  {
    t := s;
    assert bits + [] == bits;
    for col := 0 to 2
      invariant HasRead(t, bits + CellsBits(g, f, n, MaskOf(mask), j, i, col))
    {
      t := ReadCellOf(g, f, n, mask, j, i, col, t, bits);
    }
  }

  method ReadPair(g: Grid, f: Grid, n: nat, mask: nat, j: nat, readingUp: bool, ghost p: nat,
                  s: Reading, ghost bits: BitSeq) returns (t: Reading)
    requires IsWidth(n) && IsGrid(g, n) && IsGrid(f, n) && p < Pairs(n) && HasRead(s, bits)
    requires j == PairColumn(n, p) && readingUp == (p % 2 == 0)
    ensures HasRead(t, bits + PairBits(g, f, n, MaskOf(mask), p, n))
  {
    t := s;
    assert bits + [] == bits;
    for count := 0 to n
      invariant HasRead(t, bits + PairBits(g, f, n, MaskOf(mask), p, count))
    {
      ghost var a, b := PairBits(g, f, n, MaskOf(mask), p, count), RowBits(g, f, n, MaskOf(mask), p, count);
      t := ReadRow(g, f, n, mask, j, if readingUp then n - 1 - count else count, p, count, t, bits + a);
      assert bits + a + b == bits + (a + b);
    }
  }

  // ---------------------------------------------------------------------------
  // All column pairs

  /** Before pair p: the column counter, ahead of the test for column 6, and the direction. */
  ghost predicate AtPair(n: nat, p: nat, j: int, up: bool)
    requires IsWidth(n)
  {
    && p <= Pairs(n) && up == (p % 2 == 0)
    && j == if n - 1 - 2 * p >= 6 then n - 1 - 2 * p else n - 2 - 2 * p
  }

  lemma FirstPair(n: nat)
    requires IsWidth(n)
    ensures AtPair(n, 0, n - 1, true)
  {}

  lemma NextPair(n: nat, p: nat, j: int, up: bool)
    requires IsWidth(n) && AtPair(n, p, j, up) && j > 0
    ensures p < Pairs(n) && PairColumn(n, p) == (if j == 6 then 5 else j)
    ensures AtPair(n, p + 1, (if j == 6 then 5 else j) - 2, !up)
  {}

  lemma LastPair(n: nat, p: nat, j: int, up: bool)
    requires IsWidth(n) && AtPair(n, p, j, up) && j <= 0
    ensures p == Pairs(n)
  {}

  /** The first p pairs hold the first k bits of the codewords, and function modules are as in g. */
  ghost predicate PlacedPairs(g: Grid, r: Grid, f: Grid, n: nat, m: Mask, p: nat, bytes: seq<nat>, k: nat)
    requires IsWidth(n) && IsGrid(g, n) && IsGrid(f, n) && p <= Pairs(n)
  {
    IsGrid(r, n) && SameFixed(g, r, f, n) && WalkBits(r, f, n, m, p) == DataBits(bytes, k)
  }

  /** Place one pair behind those already there. */
  method PlaceNextPair(r0: Grid, f: Grid, n: nat, mask: nat, j: nat, writingUp: bool, bytes: seq<nat>, pen: Pen,
                       ghost g: Grid, ghost p: nat, ghost k: nat) returns (r: Grid, q: Pen, ghost k1: nat)
    requires IsWidth(n) && IsGrid(g, n) && IsGrid(f, n) && p < Pairs(n) && AtBit(pen, k)
    requires j == PairColumn(n, p) && writingUp == (p % 2 == 0)
    requires PlacedPairs(g, r0, f, n, MaskOf(mask), p, bytes, k)
    ensures PlacedPairs(g, r, f, n, MaskOf(mask), p + 1, bytes, k1) && AtBit(q, k1)
  {
    assert WalkBits(r0, f, n, MaskOf(mask), p) + [] == WalkBits(r0, f, n, MaskOf(mask), p);
    r, q, k1 := PlacePair(r0, f, n, mask, j, writingUp, p, bytes, pen, k);
  }

  method NewPen() returns (pen: Pen)
    ensures AtBit(pen, 0)
  {
    SmallPowers();
    pen := Pen(0, 0, 128);
  }

  lemma AllPlaced(g: Grid, r: Grid, f: Grid, n: nat, m: Mask, p: nat, bytes: seq<nat>, k: nat)
    requires IsWidth(n) && IsGrid(g, n) && IsGrid(f, n) && p == Pairs(n) && PlacedPairs(g, r, f, n, m, p, bytes, k)
    ensures IsGrid(r, n) && SameFixed(g, r, f, n) && HoldsData(r, f, n, m, bytes)
  {}

  /** Skip column 6, and place the pair there. */
  method PlaceFrom(r0: Grid, f: Grid, n: nat, mask: nat, j0: int, writingUp: bool, bytes: seq<nat>, pen: Pen,
                   ghost g: Grid, ghost p: nat, ghost k: nat) returns (r: Grid, q: Pen, j: int, up: bool, ghost k1: nat)
    requires IsWidth(n) && IsGrid(g, n) && IsGrid(f, n) && AtPair(n, p, j0, writingUp) && j0 > 0 && AtBit(pen, k)
    requires PlacedPairs(g, r0, f, n, MaskOf(mask), p, bytes, k)
    ensures AtPair(n, p + 1, j, up) && j < j0 && AtBit(q, k1)
    ensures PlacedPairs(g, r, f, n, MaskOf(mask), p + 1, bytes, k1)
  {
    NextPair(n, p, j0, writingUp);
    j := j0;
    if j == 6 {
      j := j - 1;
    }
    r, q, k1 := PlaceNextPair(r0, f, n, mask, j, writingUp, bytes, pen, g, p, k);
    up := !writingUp;
    j := j - 2;
  }

  /** The loop over the pairs. */
  method PlacePairs(g: Grid, f: Grid, n: nat, mask: nat, bytes: seq<nat>) returns (r: Grid, ghost k: nat)
    requires IsWidth(n) && IsGrid(g, n) && IsGrid(f, n)
    ensures PlacedPairs(g, r, f, n, MaskOf(mask), Pairs(n), bytes, k)
  {
    r := g;
    k := 0;
    var writingUp := true;
    var pen := NewPen();
    var j: int := n - 1;
    ghost var p := 0;
    FirstPair(n);
    while j > 0
      invariant AtPair(n, p, j, writingUp) && AtBit(pen, k)
      invariant PlacedPairs(g, r, f, n, MaskOf(mask), p, bytes, k)
      decreases j
    {
      r, pen, j, writingUp, k := PlaceFrom(r, f, n, mask, j, writingUp, bytes, pen, g, p, k);
      p := p + 1;
    }
    LastPair(n, p, j, writingUp);
  }

  /** Place all codewords. */
  method PlaceAll(g: Grid, f: Grid, n: nat, mask: nat, bytes: seq<nat>) returns (r: Grid)
    requires IsWidth(n) && IsGrid(g, n) && IsGrid(f, n)
    ensures IsGrid(r, n) && SameFixed(g, r, f, n) && HoldsData(r, f, n, MaskOf(mask), bytes)
  {
    ghost var k;
    r, k := PlacePairs(g, f, n, mask, bytes);
    AllPlaced(g, r, f, n, MaskOf(mask), Pairs(n), bytes, k);
  }

  /** What has been read is the bits of the first p pairs. */
  ghost predicate HasReadPairs(s: Reading, g: Grid, f: Grid, n: nat, m: Mask, p: nat)
    requires IsWidth(n) && IsGrid(g, n) && IsGrid(f, n) && p <= Pairs(n)
  {
    HasRead(s, WalkBits(g, f, n, m, p))
  }

  method ReadNextPair(s: Reading, g: Grid, f: Grid, n: nat, mask: nat, j: nat, readingUp: bool, ghost p: nat)
    returns (t: Reading)
    requires IsWidth(n) && IsGrid(g, n) && IsGrid(f, n) && p < Pairs(n)
    requires j == PairColumn(n, p) && readingUp == (p % 2 == 0)
    requires HasReadPairs(s, g, f, n, MaskOf(mask), p)
    ensures HasReadPairs(t, g, f, n, MaskOf(mask), p + 1)
  {
    t := ReadPair(g, f, n, mask, j, readingUp, p, s, WalkBits(g, f, n, MaskOf(mask), p));
  }

  lemma NothingRead(g: Grid, f: Grid, n: nat, m: Mask)
    requires IsWidth(n) && IsGrid(g, n) && IsGrid(f, n)
    ensures HasReadPairs(Reading([], 0, 128), g, f, n, m, 0)
  {
    SmallPowers();
    ShiftedZero(8);
  }

  lemma AllRead(s: Reading, g: Grid, f: Grid, n: nat, m: Mask)
    requires IsWidth(n) && IsGrid(g, n) && IsGrid(f, n) && HasReadPairs(s, g, f, n, m, Pairs(n))
    ensures var bits := SymbolBits(g, f, n, m);
      |s.codewords| == |bits| / 8 && AreBytes(s.codewords) && ByteBits(s.codewords) == bits[..8 * |s.codewords|]
  {}

  /** Skip column 6, and read the pair there. */
  method ReadFrom(s: Reading, g: Grid, f: Grid, n: nat, mask: nat, j0: int, readingUp: bool, ghost p: nat)
    returns (t: Reading, j: int)
    requires IsWidth(n) && IsGrid(g, n) && IsGrid(f, n) && AtPair(n, p, j0, readingUp) && j0 > 0
    requires HasReadPairs(s, g, f, n, MaskOf(mask), p)
    ensures AtPair(n, p + 1, j, !readingUp) && j < j0 && HasReadPairs(t, g, f, n, MaskOf(mask), p + 1)
  {
    NextPair(n, p, j0, readingUp);
    j := j0;
    if j == 6 {
      j := j - 1;
    }
    t := ReadNextPair(s, g, f, n, mask, j, readingUp, p);
    j := j - 2;
  }

  /** Collect all codewords. */
  method ReadAll(g: Grid, f: Grid, n: nat, mask: nat) returns (codewords: seq<nat>)
    requires IsWidth(n) && IsGrid(g, n) && IsGrid(f, n)
    ensures AreBytes(codewords)
    ensures var bits := SymbolBits(g, f, n, MaskOf(mask));
      |codewords| == |bits| / 8 && ByteBits(codewords) == bits[..8 * |codewords|]
  {
    var readingUp := true;
    var reading := Reading([], 0, 128);
    var j: int := n - 1;
    ghost var p := 0;
    NothingRead(g, f, n, MaskOf(mask));
    FirstPair(n);
    while j > 0
      invariant AtPair(n, p, j, readingUp) && HasReadPairs(reading, g, f, n, MaskOf(mask), p)
      decreases j
    {
      reading, j := ReadFrom(reading, g, f, n, mask, j, readingUp, p);
      readingUp := !readingUp;
      p := p + 1;
    }
    LastPair(n, p, j, readingUp);
    AllRead(reading, g, f, n, MaskOf(mask));
    codewords := reading.codewords;
  }
}
