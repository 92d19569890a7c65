/** The QR coder: from text segments to the module matrix and back. */
module QRCoder {
  import opened BitStream
  import opened QRTables
  import opened Segments
  import opened Blocks
  import opened BlockCoding
  import opened Placement
  import opened FunctionPatterns
  import opened Rendering
  import opened Symbols
  import opened Walk
  import RS = ReedSolomonCoder

  datatype Status = Done | Error(reason: string)

  /** A list written at index i, growing as needed. */
  function WrittenAt(s: seq<nat>, i: nat, v: nat): (r: seq<nat>)
    ensures |r| == if i < |s| then |s| else i + 1
  {
    if i < |s| then s[i := v] else s + seq(i - |s|, _ => 0) + [v]
  }

  class QRCode {
    var version: nat
    var level: nat
    var nModules: nat
    var nDataCodewords: nat
    var nBlockEcWords: nat
    var blockDataLengths: seq<nat>
    var blockIndices: seq<seq<nat>>
    var data: seq<nat>
    var bitIdx: nat
    var bytes: seq<nat>
    var codewords: seq<nat>
    var text: Text
    var mask: nat
    var pixels: Grid
    var functionalPattern: Grid
    var image: Grid

    constructor ()
    {
      version, level, nModules, nDataCodewords, nBlockEcWords := 0, 0, 0, 0, 0;
      blockDataLengths, blockIndices, data, bytes, codewords, text := [], [], [], [], [], [];
      bitIdx, mask, pixels, functionalPattern, image := 0, 0, [], [], [];
    }

    // -------------------------------------------------------------------------
    // Adding text

    /** Pack len bits of value at the end of the stream. */
    method AppendBits(len: nat, value: nat)
      requires len <= 16 && bitIdx / 8 < |data|
      modifies this`data, this`bitIdx
      ensures bitIdx == old(bitIdx) + len && bitIdx / 8 < |data| && |data| >= old(|data|)
      ensures data == Packed(old(data), old(bitIdx), len, value)
      ensures value < Pow2(len) ==> Appended(old(data), old(bitIdx), data, bitIdx, Bits(value, len))
    {
      ghost var before, idx := data, bitIdx;
      var i := bitIdx / 8;
      var v := ShiftLeft(value, 24 - bitIdx % 8 - len) % 0x1_0000_0000;
      data := WrittenAt(data, i + 2, v % 256);
      data := WrittenAt(data, i + 1, v / 256 % 256);
      data := data[i := data[i] + v / 65536 % 256];
      assert data == Packed(before, idx, len, value);
      if Clean(before, idx) && value < Pow2(len) {
        PackedAppends(before, idx, len, value);
        assert Stream(data, idx + len) + [] == Stream(data, idx + len);
      }
      bitIdx := bitIdx + len;
    }

    /** The character count, then digits in groups of three. */
    method AddNumeric(t: Text) returns (r: Status)
      requires bitIdx / 8 < |data|
      modifies this`data, this`bitIdx
      ensures bitIdx / 8 < |data| && |data| >= old(|data|)
      ensures r == Done <==> Accepted(NUMERIC, t)
      ensures r == Done ==> bitIdx == old(bitIdx) + NCountBits(NUMERIC, version) + PayloadLength(NUMERIC, |t|)
      ensures r == Done && |t| < Pow2(NCountBits(NUMERIC, version)) ==>
        Appended(old(data), old(bitIdx), data, bitIdx, Bits(|t|, NCountBits(NUMERIC, version)) + NumericBits(t))
    {
      ghost var data0, idx0 := data, bitIdx;
      var w := NCountBits(NUMERIC, version);
      AppendBits(w, |t|);
      ghost var data1, idx1 := data, bitIdx;
      var num: seq<nat> := [];
      for i := 0 to |t|
        invariant |num| == i && data == data1 && bitIdx == idx1
        invariant forall k :: 0 <= k < i ==> IsDigit(t[k]) && num[k] == DigitValue(t[k])
      {
        if !IsDigit(t[i]) {
          return Error("Invalid character for Numeric encoding");
        }
        num := num + [t[i] - 48];
      }
      AddDigits(t, num);
      if |t| < Pow2(w) {
        AppendedTwice(data0, idx0, data1, idx1, data, bitIdx, Bits(|t|, w), NumericBits(t));
      }
      return Done;
    }

    /** Pack the next field of a longer stretch m that started at data1. */
    method AppendNext(len: nat, value: nat, ghost data1: seq<nat>, ghost idx1: nat, ghost rest: BitSeq, ghost m: BitSeq)
      requires len <= 16 && bitIdx / 8 < |data| && value < Pow2(len)
      requires AppendedUpTo(data1, idx1, data, bitIdx, Bits(value, len) + rest, m)
      modifies this`data, this`bitIdx
      ensures bitIdx == old(bitIdx) + len && bitIdx / 8 < |data| && |data| >= old(|data|)
      ensures AppendedUpTo(data1, idx1, data, bitIdx, rest, m)
    {
      ghost var d, x := data, bitIdx;
      AppendBits(len, value);
      AppendedStep(data1, idx1, d, x, data, bitIdx, Bits(value, len), rest, m);
    }

    /** Three digits at i as one field of ten bits. */
    method AddThree(t: Text, num: seq<nat>, i: nat, ghost data1: seq<nat>, ghost idx1: nat, ghost m: BitSeq)
      requires bitIdx / 8 < |data| && |num| == |t| && i + 3 <= |t|
      requires forall k :: 0 <= k < |t| ==> IsDigit(t[k]) && num[k] == DigitValue(t[k])
      requires AppendedUpTo(data1, idx1, data, bitIdx, NumericBits(t[i..]), m)
      modifies this`data, this`bitIdx
      ensures bitIdx == old(bitIdx) + 10 && bitIdx / 8 < |data| && |data| >= old(|data|)
      ensures AppendedUpTo(data1, idx1, data, bitIdx, NumericBits(t[i + 3..]), m)
    {
      NumericStep(t, i);
      AppendNext(10, 100 * num[i] + 10 * num[i + 1] + num[i + 2], data1, idx1, NumericBits(t[i + 3..]), m);
    }

    /** The one or two digits left over from i on, in four or seven bits. */
    method AddLast(t: Text, num: seq<nat>, i: nat, ghost data1: seq<nat>, ghost idx1: nat, ghost m: BitSeq)
      requires bitIdx / 8 < |data| && |num| == |t| && |t| - 2 <= i <= |t|
      requires forall k :: 0 <= k < |t| ==> IsDigit(t[k]) && num[k] == DigitValue(t[k])
      requires AppendedUpTo(data1, idx1, data, bitIdx, NumericBits(t[i..]), m)
      modifies this`data, this`bitIdx
      ensures bitIdx == old(bitIdx) + (if i + 1 == |t| then 4 else if i + 2 == |t| then 7 else 0)
      ensures bitIdx / 8 < |data| && |data| >= old(|data|)
      ensures AppendedUpTo(data1, idx1, data, bitIdx, [], m)
    {
      var n := |t|;
      if i + 1 == n {
        NumericEnd(t, i);
        AppendNext(4, num[n - 1], data1, idx1, [], m);
      } else if i + 2 == n {
        NumericEnd(t, i);
        AppendNext(7, 10 * num[n - 2] + num[n - 1], data1, idx1, [], m);
      }
    }

    method AddDigits(t: Text, num: seq<nat>)
      requires bitIdx / 8 < |data| && |num| == |t|
      requires forall k :: 0 <= k < |t| ==> IsDigit(t[k]) && num[k] == DigitValue(t[k])
      modifies this`data, this`bitIdx
      ensures bitIdx / 8 < |data| && |data| >= old(|data|)
      ensures bitIdx == old(bitIdx) + PayloadLength(NUMERIC, |t|)
      ensures Appended(old(data), old(bitIdx), data, bitIdx, NumericBits(t))
    {
      ghost var data1, idx1, m := data, bitIdx, NumericBits(t);
      var n := |t|;
      var i := 0;
      AppendedStart(data, bitIdx, m);
      assert t[0..] == t;
      ghost var groups := 0;
      while i + 2 < n
        invariant 0 <= i <= n && i == 3 * groups
        invariant bitIdx / 8 < |data| && |data| >= |data1| && bitIdx == idx1 + 10 * groups
        invariant AppendedUpTo(data1, idx1, data, bitIdx, NumericBits(t[i..]), m)
      {
        AddThree(t, num, i, data1, idx1, m);
        i, groups := i + 3, groups + 1;
      }
      assert n / 3 == groups && n % 3 == n - i;
      AddLast(t, num, i, data1, idx1, m);
    }

    /** The character count, then characters in pairs. */
    method AddAlphaNum(t: Text) returns (r: Status)
      requires bitIdx / 8 < |data|
      modifies this`data, this`bitIdx
      ensures bitIdx / 8 < |data| && |data| >= old(|data|)
      ensures r == Done <==> Accepted(ALPHANUMERIC, t)
      ensures r == Done ==>
        bitIdx == old(bitIdx) + NCountBits(ALPHANUMERIC, version) + PayloadLength(ALPHANUMERIC, |t|)
      ensures r == Done && |t| < Pow2(NCountBits(ALPHANUMERIC, version)) ==>
        Appended(old(data), old(bitIdx), data, bitIdx, Bits(|t|, NCountBits(ALPHANUMERIC, version)) + AlphaNumBits(t))
    {
      ghost var data0, idx0 := data, bitIdx;
      var w := NCountBits(ALPHANUMERIC, version);
      AppendBits(w, |t|);
      ghost var data1, idx1 := data, bitIdx;
      r := AddPairs(t);
      if r == Done && |t| < Pow2(w) {
        AppendedTwice(data0, idx0, data1, idx1, data, bitIdx, Bits(|t|, w), AlphaNumBits(t));
      }
    }

    /** Two characters at i as one field of eleven bits. */
    method AddPair(t: Text, i: nat, ghost data1: seq<nat>, ghost idx1: nat, ghost m: BitSeq)
      requires bitIdx / 8 < |data| && i + 2 <= |t| && IsAlphaNum(t[i]) && IsAlphaNum(t[i + 1])
      requires Accepted(ALPHANUMERIC, t) ==> AppendedUpTo(data1, idx1, data, bitIdx, AlphaNumBits(t[i..]), m)
      modifies this`data, this`bitIdx
      ensures bitIdx == old(bitIdx) + 11 && bitIdx / 8 < |data| && |data| >= old(|data|)
      ensures Accepted(ALPHANUMERIC, t) ==> AppendedUpTo(data1, idx1, data, bitIdx, AlphaNumBits(t[i + 2..]), m)
    {
      var val := 45 * AlphaNumRev(t[i]) + AlphaNumRev(t[i + 1]);
      SmallPowers();
      ghost var d, x := data, bitIdx;
      AppendBits(11, val);
      if Accepted(ALPHANUMERIC, t) {
        AlphaNumStep(t, i);
        AppendedStep(data1, idx1, d, x, data, bitIdx, Bits(val, 11), AlphaNumBits(t[i + 2..]), m);
      }
    }

    method AddPairs(t: Text) returns (r: Status)
      requires bitIdx / 8 < |data|
      modifies this`data, this`bitIdx
      ensures bitIdx / 8 < |data| && |data| >= old(|data|)
      ensures r == Done <==> Accepted(ALPHANUMERIC, t)
      ensures r == Done ==> bitIdx == old(bitIdx) + PayloadLength(ALPHANUMERIC, |t|)
      ensures r == Done ==> Appended(old(data), old(bitIdx), data, bitIdx, AlphaNumBits(t))
    {
      ghost var data1, idx1 := data, bitIdx;
      ghost var m := if Accepted(ALPHANUMERIC, t) then AlphaNumBits(t) else [];
      ghost var pairs := 0;
      var n := |t|;
      var i := 0;
      AppendedStart(data, bitIdx, m);
      assert t[0..] == t;
      while i + 1 < n
        invariant 0 <= i <= n && i == 2 * pairs
        invariant bitIdx / 8 < |data| && |data| >= |data1| && bitIdx == idx1 + 11 * pairs
        invariant forall k :: 0 <= k < i ==> IsAlphaNum(t[k])
        invariant Accepted(ALPHANUMERIC, t) ==> AppendedUpTo(data1, idx1, data, bitIdx, AlphaNumBits(t[i..]), m)
      {
        if !IsAlphaNum(t[i]) || !IsAlphaNum(t[i + 1]) {
          return Error("Invalid character for Alphanumeric encoding");
        }
        AddPair(t, i, data1, idx1, m);
        i, pairs := i + 2, pairs + 1;
      }
      assert n / 2 == pairs && n % 2 == n - i;
      if n % 2 != 0 {
        if !IsAlphaNum(t[n - 1]) {
          return Error("Invalid character for Alphanumeric encoding");
        }
        AddSingle(t, i, data1, idx1, m);
      }
      return Done;
    }

    /** The last character of an odd number. */
    method AddSingle(t: Text, i: nat, ghost data1: seq<nat>, ghost idx1: nat, ghost m: BitSeq)
      requires bitIdx / 8 < |data| && i + 1 == |t| && Accepted(ALPHANUMERIC, t)
      requires AppendedUpTo(data1, idx1, data, bitIdx, AlphaNumBits(t[i..]), m)
      modifies this`data, this`bitIdx
      ensures bitIdx == old(bitIdx) + 6 && bitIdx / 8 < |data| && |data| >= old(|data|)
      ensures AppendedUpTo(data1, idx1, data, bitIdx, [], m)
    {
      AlphaNumEnd(t, i);
      AppendNext(6, AlphaNumRev(t[i]), data1, idx1, [], m);
    }

    /** The character count, then the low eight bits of each character, as far as they fit. */
    method Add8bit(t: Text)
      requires bitIdx / 8 < |data|
      modifies this`data, this`bitIdx
      ensures bitIdx / 8 < |data| && |data| >= old(|data|)
      ensures bitIdx == old(bitIdx) + NCountBits(EIGHT_BIT, version) + PayloadLength(EIGHT_BIT, |t|)
      ensures Encodable(EIGHT_BIT, t) && |t| < Pow2(NCountBits(EIGHT_BIT, version)) ==>
        Appended(old(data), old(bitIdx), data, bitIdx, Bits(|t|, NCountBits(EIGHT_BIT, version)) + EightBits(t))
      ensures var w := NCountBits(EIGHT_BIT, version);
        data == PackedEach(Packed(old(data), old(bitIdx), w, |t|), old(bitIdx) + w, t)
    {
      ghost var data0, idx0 := data, bitIdx;
      var w := NCountBits(EIGHT_BIT, version);
      AppendBits(w, |t|);
      ghost var data1, idx1 := data, bitIdx;
      AddOctets(t);
      if Encodable(EIGHT_BIT, t) && |t| < Pow2(w) {
        AppendedTwice(data0, idx0, data1, idx1, data, bitIdx, Bits(|t|, w), EightBits(t));
      }
    }

    method AddOctets(t: Text)
      requires bitIdx / 8 < |data|
      modifies this`data, this`bitIdx
      ensures bitIdx / 8 < |data| && |data| >= old(|data|)
      ensures bitIdx == old(bitIdx) + PayloadLength(EIGHT_BIT, |t|)
      ensures Encodable(EIGHT_BIT, t) ==> Appended(old(data), old(bitIdx), data, bitIdx, EightBits(t))
      ensures data == PackedEach(old(data), old(bitIdx), t)
    {
      ghost var data1, idx1, m := data, bitIdx, EightBits(t);
      AppendedStart(data, bitIdx, m);
      assert t[0..] == t;
      for i := 0 to |t|
        invariant bitIdx / 8 < |data| && |data| >= |data1| && bitIdx == idx1 + 8 * i
        invariant Encodable(EIGHT_BIT, t) ==> AppendedUpTo(data1, idx1, data, bitIdx, EightBits(t[i..]), m)
        invariant PackedEach(data, bitIdx, t[i..]) == PackedEach(data1, idx1, t)
      {
        AddOctet(t, i, data1, idx1);
      }
      assert t[|t|..] == [];
    }

    /** One of the characters, when those before it are in the stream. */
    method AddOctet(t: Text, i: nat, ghost data1: seq<nat>, ghost idx1: nat)
      requires bitIdx / 8 < |data| && i < |t|
      requires Encodable(EIGHT_BIT, t) ==> AppendedUpTo(data1, idx1, data, bitIdx, EightBits(t[i..]), EightBits(t))
      modifies this`data, this`bitIdx
      ensures bitIdx == old(bitIdx) + 8 && bitIdx / 8 < |data| && |data| >= old(|data|)
      ensures PackedEach(data, bitIdx, t[i + 1..]) == PackedEach(old(data), old(bitIdx), t[i..])
      ensures Encodable(EIGHT_BIT, t) ==> AppendedUpTo(data1, idx1, data, bitIdx, EightBits(t[i + 1..]), EightBits(t))
    {
      ghost var d, x := data, bitIdx;
      PackedEachAt(data, bitIdx, t, i);
      AppendBits(8, t[i]);
      if Encodable(EIGHT_BIT, t) {
        EightBitStep(t, i);
        AppendedStep(data1, idx1, d, x, data, bitIdx, Bits(t[i], 8), EightBits(t[i + 1..]), EightBits(t));
      }
    }

    /** Add one segment, or a terminator.  A segment is refused if its mode or a character is not
        supported, or if the stream has become longer than the symbol's data codewords. */
    method AddText(mode: nat, t: Text) returns (r: Status)
      requires bitIdx / 8 < |data|
      modifies this`data, this`bitIdx
      ensures bitIdx / 8 < |data| && |data| >= old(|data|)
      ensures mode == TERMINATOR ==> r == Done && bitIdx == old(bitIdx) + 4
      ensures mode == TERMINATOR ==> Appended(old(data), old(bitIdx), data, bitIdx, Bits(TERMINATOR, 4))
      ensures mode != TERMINATOR ==> (r == Done <==>
        (IsTextMode(mode) && Accepted(mode, t)
         && old(bitIdx) + SegmentLength(mode, |t|, version) <= 8 * nDataCodewords))
      ensures mode != TERMINATOR && r == Done ==> bitIdx == old(bitIdx) + SegmentLength(mode, |t|, version)
      ensures mode != TERMINATOR && r == Done && Encodable(mode, t) && nDataCodewords <= DataBound(version) ==>
        && Carried(Segment(mode, t), version)
        && Appended(old(data), old(bitIdx), data, bitIdx, SegmentBits(Segment(mode, t), version))
    {
      ghost var data0, idx0 := data, bitIdx;
      SmallPowers();
      AppendBits(4, mode);
      ghost var data1, idx1 := data, bitIdx;
      if mode == ALPHANUMERIC {
        r := AddAlphaNum(t);
        if r != Done { return; }
      } else if mode == EIGHT_BIT {
        Add8bit(t);
      } else if mode == NUMERIC {
        r := AddNumeric(t);
        if r != Done { return; }
      } else if mode == TERMINATOR {
        return Done;
      } else {
        return Error("Unsupported ECI mode");
      }
      if bitIdx > 8 * nDataCodewords {
        return Error("Text too long for this EC version");
      }
      r := Done;
      if Encodable(mode, t) && nDataCodewords <= DataBound(version) {
        CountFits(version, mode, |t|);
        SegmentShape(Segment(mode, t), version);
        AppendedTwice(data0, idx0, data1, idx1, data, bitIdx, Bits(mode, 4),
                      Bits(|t|, NCountBits(mode, version)) + PayloadBits(mode, t));
      }
    }

    // -------------------------------------------------------------------------
    // Blocks

    /** The symbol's table entry is loaded and its blocks are laid out. */
    ghost predicate BlocksSet()
      reads this
    {
      && IsSymbol(version, level)
      && nDataCodewords == SymbolShape(version, level).DataWords()
      && nBlockEcWords == SymbolShape(version, level).ec
      && IsLayout(SymbolShape(version, level), blockDataLengths, blockIndices)
    }

    /** Work out the block shape of the symbol and deal out the codeword indices. */
    method SetBlocks()
      requires IsSymbol(version, level)
      modifies this`nDataCodewords, this`nBlockEcWords, this`blockDataLengths, this`blockIndices
      ensures BlocksSet()
    {
      AllShapes(version, level);
      var nCodewords := NCodewords(version);
      var ecBlocks := EcLevel(version, level);
      nDataCodewords := nCodewords - ecBlocks.ec;
      var nBlocks := ecBlocks.first + ecBlocks.second;
      var s := Shape(ecBlocks.first, ecBlocks.second, nDataCodewords / nBlocks, ecBlocks.ec / nBlocks);
      assert s == SymbolShape(version, level);
      nBlockEcWords := s.ec;
      blockDataLengths := seq(nBlocks, b => if b < s.first then s.words else s.words + 1);
      blockIndices := DealIndices(s);
    }

    /** Deal the codeword indices out to the blocks: the data words row by row, the last words of
        the longer blocks, the error correction words row by row. */
    static method DealIndices(s: Shape) returns (indices: seq<seq<nat>>)
      ensures |indices| == s.Blocks() && forall b :: 0 <= b < s.Blocks() ==> indices[b] == Indices(s, b)
    {
      var nBlocks := s.Blocks();
      var ix := new seq<nat>[nBlocks](_ => []);
      var w := 0;
      for i := 0 to s.words
        invariant w == Rows(i, nBlocks)
        invariant forall b :: 0 <= b < nBlocks ==> ix[b] == Dealt(s, b, i)
      {
        w := DealRow(ix, w);
      }
      for b := s.first to nBlocks
        invariant w == Rows(s.words, nBlocks) + (b - s.first)
        invariant forall c :: 0 <= c < b ==> ix[c] == Dealt(s, c, DataLength(s, c))
        invariant forall c :: b <= c < nBlocks ==> ix[c] == Dealt(s, c, s.words)
      {
        ix[b] := ix[b] + [w];
        w := w + 1;
      }
      for i := 0 to s.ec
        invariant w == s.DataWords() + Rows(i, nBlocks)
        invariant forall b :: 0 <= b < nBlocks ==> ix[b] == Dealt(s, b, DataLength(s, b) + i)
      {
        w := DealRow(ix, w);
      }
      indices := ix[..];
    }

    /** Push the next index to every block. */
    static method DealRow(ix: array<seq<nat>>, w0: nat) returns (w: nat)
      modifies ix
      ensures w == w0 + ix.Length
      ensures forall b :: 0 <= b < ix.Length ==> ix[b] == old(ix[b]) + [w0 + b]
    {
      w := w0;
      for b := 0 to ix.Length
        invariant w == w0 + b
        invariant forall c :: 0 <= c < b ==> ix[c] == old(ix[c]) + [w0 + c]
        invariant forall c :: b <= c < ix.Length ==> ix[c] == old(ix[c])
      {
        ix[b] := ix[b] + [w];
        w := w + 1;
      }
    }

    // -------------------------------------------------------------------------
    // Encoding text to data codewords

    /** The stream holds exactly these segments, and they fit. */
    ghost predicate HoldsSegments(segs: seq<Segment>)
      reads this
    {
      && BlocksSet() && bitIdx / 8 < |data| && |data| >= nDataCodewords
      && bitIdx <= 8 * nDataCodewords && Clean(data, bitIdx)
      && AllCarried(segs, version) && Stream(data, bitIdx) == AllBits(segs, version)
    }

    /** Start an empty symbol of a version and level. */
    method EncodeInit(v: nat, l: nat)
      requires IsSymbol(v, l)
      modifies this
      ensures version == v && level == l && nModules == 17 + 4 * v
      ensures HoldsSegments([]) && pixels == BlankGrid(nModules)
    {
      version, level := v, l;
      nModules := 17 + 4 * v;
      bitIdx := 0;
      AllShapes(v, l);
      SetBlocks();
      data := seq(nDataCodewords, _ => 0);
      assert ZeroFrom(ByteBits(data), 0) by {
        ZeroBytes(data);
      }
      pixels := BlankGrid(nModules);
    }

    /** Add a segment behind those already there. */
    method EncodeAddText(mode: nat, t: Text, ghost segs: seq<Segment>) returns (r: Status)
      requires HoldsSegments(segs)
      modifies this`data, this`bitIdx
      ensures mode != TERMINATOR ==> (r == Done <==>
        (IsTextMode(mode) && Accepted(mode, t)
         && old(bitIdx) + SegmentLength(mode, |t|, version) <= 8 * nDataCodewords))
      ensures r == Done && Encodable(mode, t) ==> HoldsSegments(segs + [Segment(mode, t)])
      ensures r == Done && Encodable(mode, t) ==> bitIdx == old(bitIdx) + SegmentLength(mode, |t|, version)
    {
      ghost var data0, idx0 := data, bitIdx;
      r := AddText(mode, t);
      if r == Done && Encodable(mode, t) {
        AllShapes(version, level);
        AllBitsAppend(segs, Segment(mode, t), version);
        assert Stream(data, bitIdx) + [] == Stream(data, bitIdx);
      }
    }

    /** Fill the data codewords up with the two pad bytes in turn. */
    method AppendPadding()
      requires bitIdx > 0 && bitIdx <= 8 * |data| && |data| >= nDataCodewords
      modifies this`data
      ensures |data| >= nDataCodewords && |data| >= |old(data)|
      ensures forall k :: 0 <= k < |old(data)| && 8 * k < bitIdx ==> data[k] == old(data)[k]
      ensures var start := (bitIdx - 1) / 8 + 1;
        forall k :: start <= k < nDataCodewords ==> data[k] == if (k - start) % 2 == 0 then 0xEC else 0x11
    {
      var i := (bitIdx - 1) / 8 + 1;
      ghost var start, data0 := i, data;
      while i < nDataCodewords
        invariant start <= i && (i - start) % 2 == 0
        invariant |data| >= |data0|
        invariant forall k :: 0 <= k < start ==> data[k] == data0[k]
        invariant forall k :: start <= k < i && k < |data| ==> data[k] == if (k - start) % 2 == 0 then 0xEC else 0x11
      {
        data := WrittenAt(data, i, 0xEC);
        data := WrittenAt(data, i + 1, 0x11);
        i := i + 2;
      }
    }

    /** End the stream with a terminator. */
    method AddTerminator(ghost segs: seq<Segment>)
      requires HoldsSegments(segs)
      modifies this`data, this`bitIdx
      ensures bitIdx == old(bitIdx) + 4 && |data| >= nDataCodewords && Clean(data, bitIdx)
      ensures Stream(data, bitIdx) == AllBits(segs, version) + Bits(TERMINATOR, 4)
    {
      var _ := AddText(TERMINATOR, []);
      assert Stream(data, bitIdx) + [] == Stream(data, bitIdx);
    }

    /** Close the stream: terminator and padding.  The data codewords then read as the segments. */
    method FinishData(ghost segs: seq<Segment>)
      requires HoldsSegments(segs)
      modifies this`data, this`bitIdx
      ensures |data| >= nDataCodewords && AreBytes(data[..nDataCodewords])
      ensures ReadsAs(data[..nDataCodewords], version, AllText(segs))
    {
      AddTerminator(segs);
      ghost var data1 := data;
      AppendPadding();
      PaddedReads(data1, bitIdx, data, nDataCodewords, version, segs);
    }

    // -------------------------------------------------------------------------
    // Error correction

    /** Compute each block's parity and interleave the blocks. */
    method AddErrorCorrection()
      requires BlocksSet() && |data| >= nDataCodewords && AreBytes(data[..nDataCodewords])
      modifies this`bytes
      ensures IsEncoded(bytes, SymbolShape(version, level), data[..nDataCodewords])
    {
      AllShapes(version, level);
      var rs := new RS.ReedSolomon(nBlockEcWords);
      bytes := EncodeBlocks(rs, data, nDataCodewords, NCodewords(version), blockDataLengths, blockIndices,
                            SymbolShape(version, level));
    }

    /** Decode each block of the codewords read and join their data.  If every block is within
        half its error correction words of an encoded one, the data is what was encoded. */
    method CorrectErrors() returns (r: Status)
      requires BlocksSet() && |codewords| >= NCodewords(version) && AreBytes(codewords)
      modifies this`bytes
      ensures forall sent: seq<nat>, words: seq<nat> ::
        Recoverable(codewords[..NCodewords(version)], sent, SymbolShape(version, level), words)
        ==> r == Done && bytes == words
    {
      AllShapes(version, level);
      var rs := new RS.ReedSolomon(nBlockEcWords);
      var ok, out := DecodeBlocks(rs, codewords, blockIndices, SymbolShape(version, level));
      if !ok {
        r := Error("Unable to correct errors");
        return;
      }
      bytes := out;
      r := Done;
    }

    // -------------------------------------------------------------------------
    // Reading the text

    /** Read len bits and move on. */
    method ExtractBits(len: nat) returns (x: nat)
      requires len <= 16
      modifies this`bitIdx
      ensures x == Extract(bytes, old(bitIdx), len) && x < Pow2(len) && bitIdx == old(bitIdx) + len
    {
      x := Extract(bytes, bitIdx, len);
      bitIdx := bitIdx + len;
    }

    /** One group of characters behind t0, of the k still to be read of a run of n. */
    method ExtractGroup(mode: nat, k: nat, t0: Text, ghost start: nat, ghost n: nat) returns (t: Text)
      requires IsTextMode(mode) && 0 < k && ReadUpTo(mode, bytes, start, n, bitIdx, k, t0)
      modifies this`bitIdx
      ensures bitIdx == old(bitIdx) + GroupBits(mode, k)
      ensures ReadUpTo(mode, bytes, start, n, bitIdx, k - GroupSize(mode, k), t)
    {
      ghost var pos := bitIdx;
      var x := ExtractBits(GroupBits(mode, k));
      ReadUpToStep(mode, bytes, start, n, pos, k, t0, x);
      t := t0 + GroupText(mode, k, x);
    }

    /** The characters left over when they are fewer than a full group. */
    method ExtractLast(mode: nat, k: nat, t0: Text, ghost start: nat, ghost n: nat) returns (t: Text)
      requires IsTextMode(mode) && ReadUpTo(mode, bytes, start, n, bitIdx, k, t0)
      requires k > 0 ==> GroupSize(mode, k) == k
      modifies this`bitIdx
      ensures bitIdx == old(bitIdx) + if k == 0 then 0 else GroupBits(mode, k)
      ensures ReadUpTo(mode, bytes, start, n, bitIdx, 0, t)
    {
      t := t0;
      if k != 0 {
        t := ExtractGroup(mode, k, t0, start, n);
      }
    }

    /** The character count, then that many characters of eight bits. */
    method Extract8bit() returns (t: Text)
      modifies this`bitIdx
      ensures IsPayload(bytes, version, EIGHT_BIT, old(bitIdx), t, bitIdx)
    {
      ghost var pos := bitIdx;
      var n := ExtractBits(NCountBits(EIGHT_BIT, version));
      ghost var start := bitIdx;
      t := ExtractOctets(n);
      PayloadRead(bytes, version, EIGHT_BIT, pos, start, n, t, bitIdx);
    }

    method ExtractOctets(n: nat) returns (t: Text)
      modifies this`bitIdx
      ensures ReadUpTo(EIGHT_BIT, bytes, old(bitIdx), n, bitIdx, 0, t)
      ensures bitIdx == old(bitIdx) + PayloadLength(EIGHT_BIT, n)
    {
      ghost var start := bitIdx;
      t := [];
      for i := 0 to n
        invariant bitIdx == start + 8 * i
        invariant ReadUpTo(EIGHT_BIT, bytes, start, n, bitIdx, n - i, t)
      {
        t := ExtractGroup(EIGHT_BIT, n - i, t, start, n);
      }
    }

    /** The character count, then that many characters in pairs of eleven bits. */
    method ExtractAlphaNum() returns (t: Text)
      modifies this`bitIdx
      ensures IsPayload(bytes, version, ALPHANUMERIC, old(bitIdx), t, bitIdx)
    {
      ghost var pos := bitIdx;
      var n := ExtractBits(NCountBits(ALPHANUMERIC, version));
      ghost var start := bitIdx;
      t := ExtractPairs(n);
      PayloadRead(bytes, version, ALPHANUMERIC, pos, start, n, t, bitIdx);
    }

    method ExtractPairs(n: nat) returns (t: Text)
      modifies this`bitIdx
      ensures ReadUpTo(ALPHANUMERIC, bytes, old(bitIdx), n, bitIdx, 0, t)
      ensures bitIdx == old(bitIdx) + PayloadLength(ALPHANUMERIC, n)
    {
      ghost var start := bitIdx;
      t := [];
      var k := n;
      for i := 0 to n / 2
        invariant bitIdx == start + 11 * i && k == n - 2 * i
        invariant ReadUpTo(ALPHANUMERIC, bytes, start, n, bitIdx, k, t)
      {
        t := ExtractGroup(ALPHANUMERIC, k, t, start, n);
        k := k - 2;
      }
      t := ExtractLast(ALPHANUMERIC, k, t, start, n);
    }

    /** The character count, then that many digits in threes of ten bits. */
    method ExtractNumeric() returns (t: Text)
      modifies this`bitIdx
      ensures IsPayload(bytes, version, NUMERIC, old(bitIdx), t, bitIdx)
    {
      ghost var pos := bitIdx;
      var n := ExtractBits(NCountBits(NUMERIC, version));
      ghost var start := bitIdx;
      t := ExtractDigits(n);
      PayloadRead(bytes, version, NUMERIC, pos, start, n, t, bitIdx);
    }

    method ExtractDigits(n: nat) returns (t: Text)
      modifies this`bitIdx
      ensures ReadUpTo(NUMERIC, bytes, old(bitIdx), n, bitIdx, 0, t)
      ensures bitIdx == old(bitIdx) + PayloadLength(NUMERIC, n)
    {
      ghost var start := bitIdx;
      t := [];
      var k := n;
      for i := 0 to n / 3
        invariant bitIdx == start + 10 * i && k == n - 3 * i
        invariant ReadUpTo(NUMERIC, bytes, start, n, bitIdx, k, t)
      {
        t := ExtractGroup(NUMERIC, k, t, start, n);
        k := k - 3;
      }
      t := ExtractLast(NUMERIC, k, t, start, n);
    }

    /** The payload of one segment, according to its mode. */
    method ExtractPayload(mode: nat) returns (r: Status, t: Text)
      requires mode != TERMINATOR
      modifies this`bitIdx
      ensures bitIdx >= old(bitIdx)
      ensures if IsTextMode(mode) then r == Done && IsPayload(bytes, version, mode, old(bitIdx), t, bitIdx)
              else r.Error?
    {
      r, t := Done, [];
      if mode == ALPHANUMERIC {
        t := ExtractAlphaNum();
      } else if mode == EIGHT_BIT {
        t := Extract8bit();
      } else if mode == NUMERIC {
        t := ExtractNumeric();
      } else {
        r := Error("Unsupported ECI mode");
      }
    }

    /** The text of one segment, unless there is a terminator or a mode that is not supported. */
    method ExtractSegment(ghost nBits: nat) returns (r: Status, ended: bool, t: Text)
      requires bitIdx + 4 < nBits && Reads(bytes, nBits, version, text, bitIdx)
      modifies this`bitIdx
      ensures old(bitIdx) < bitIdx && (!ended ==> Reads(bytes, nBits, version, text + t, bitIdx))
      ensures ended && r == Done ==> ReadSegments(bytes, 0, nBits, version) == Ok(text)
      ensures ended && r != Done ==> r.Error? && ReadSegments(bytes, 0, nBits, version).Failed?
    {
      ghost var pos := bitIdx;
      t := [];
      var mode := ExtractBits(4);
      if mode == TERMINATOR {
        ReadsMode(bytes, nBits, version, text, pos, mode, t, pos);
        return Done, true, t;
      }
      r, t := ExtractPayload(mode);
      ended := r != Done;
      ReadsMode(bytes, nBits, version, text, pos, mode, t, bitIdx);
    }

    /** Read segments until a terminator or the last four bits. */
    method ExtractData() returns (r: Status)
      modifies this`bytes, this`text, this`bitIdx
      ensures bytes == old(bytes) + [0, 0, 0, 0]
      ensures var read := ReadSegments(bytes, 0, 8 * |old(bytes)|, version);
        if read.Ok? then r == Done && text == read.text else r.Error?
      ensures r == Done ==> BelowByte(text)
    {
      ghost var _ := ReadBelowByte(bytes + [0, 0, 0, 0], 0, 8 * |bytes|, version);
      var nBits := 8 * |bytes|;
      bytes := bytes + [0, 0, 0, 0];
      text := [];
      bitIdx := 0;
      while bitIdx + 4 < nBits
        invariant bytes == old(bytes) + [0, 0, 0, 0]
        invariant Reads(bytes, nBits, version, text, bitIdx)
        decreases nBits - bitIdx
      {
        var ended, t;
        r, ended, t := ExtractSegment(nBits);
        if ended {
          return;
        }
        text := text + t;
      }
      ReadsEnd(bytes, nBits, version, text, bitIdx);
      r := Done;
    }

    // -------------------------------------------------------------------------
    // The module matrix

    method SetFunctionalPattern()
      requires 1 <= version <= 40
      modifies this`functionalPattern
      ensures functionalPattern == FunctionMap(version)
    {
      functionalPattern := MarkPatterns(version);
    }

    /** Draw the function patterns of this version and level, with the format code of a mask. */
    method EncodeFunctionalPatterns(qrmask: nat)
      requires 1 <= version <= 40 && IsGrid(pixels, Width(version))
      modifies this`pixels
      ensures Darkened(old(pixels), pixels, Width(version), PatternCells(version, level, qrmask))
    {
      pixels := DrawPatterns(pixels, version, level, qrmask);
    }

    /** Place the codewords on the modules outside the function patterns. */
    method EncodeData(qrmask: nat)
      requires IsWidth(nModules) && IsGrid(pixels, nModules) && IsGrid(functionalPattern, nModules)
      modifies this`pixels
      ensures DataPlaced(old(pixels), pixels, functionalPattern, nModules, MaskOf(qrmask), bytes)
    {
      pixels := PlaceAll(pixels, functionalPattern, nModules, qrmask, bytes);
    }

    /** The codewords in the modules of the image outside the function patterns. */
    method ExtractCodewords()
      requires IsWidth(nModules) && IsGrid(image, nModules) && IsGrid(functionalPattern, nModules)
      modifies this`codewords
      ensures AreBytes(codewords)
      ensures var bits := SymbolBits(image, functionalPattern, nModules, MaskOf(mask));
        |codewords| == |bits| / 8 && ByteBits(codewords) == bits[..8 * |codewords|]
    {
      codewords := ReadAll(image, functionalPattern, nModules, mask);
    }

    /** The matrix for a mask: blank, function patterns, data. */
    method Render(qrmask: nat, ghost drawing: seq<Grid>)
      requires 1 <= version <= 40 && nModules == Width(version) && functionalPattern == FunctionMap(version)
      requires qrmask < 8 && AreRenderings(drawing, bytes, version, level)
      modifies this`pixels
      ensures |pixels| == nModules && pixels == drawing[qrmask]
    {
      pixels := BlankGrid(nModules);
      EncodeFunctionalPatterns(qrmask);
      ghost var drawn := pixels;
      EncodeData(qrmask);
      DrawnIsRendered(drawn, pixels, functionalPattern, nModules, bytes, version, level, qrmask, drawing);
    }

    /** Render the symbol with each mask, and leave it with the first one of least penalty. */
    method EncodeBestMask(penalty: Grid -> int)
      returns (ghost drawing: seq<Grid>, ghost penalties: seq<int>, ghost least: int)
      requires 1 <= version <= 40 && nModules == Width(version)
      modifies this`functionalPattern, this`pixels, this`mask
      ensures AreRenderings(drawing, bytes, version, level)
      ensures mask < 8 && |pixels| == nModules && pixels == drawing[mask]
      ensures |penalties| == 8 && ArePenalties(penalties, penalty, drawing) && FirstLeast(penalties, mask, least)
    {
      SetFunctionalPattern();
      drawing := Renderings(bytes, version, level);
      penalties, least := SearchMasks(penalty, drawing);
    }

    /** Render with one mask, and keep it if its penalty is below the least so far. */
    method NextMask(qrmask: nat, penalty: Grid -> int, bestMask: nat, bestPenalty: int,
                    ghost drawing: seq<Grid>, ghost penalties: seq<int>)
      returns (best: nat, least: int, ghost more: seq<int>)
      requires 1 <= version <= 40 && nModules == Width(version) && functionalPattern == FunctionMap(version)
      requires qrmask < 8 && AreRenderings(drawing, bytes, version, level)
      requires |penalties| == qrmask && ArePenalties(penalties, penalty, drawing)
      requires (bestMask, bestPenalty) == Search(penalties)
      modifies this`pixels
      ensures |more| == qrmask + 1 && ArePenalties(more, penalty, drawing) && (best, least) == Search(more)
      ensures |pixels| == nModules && pixels == drawing[qrmask]
    {
      Render(qrmask, drawing);
      var p := penalty(pixels);
      SearchStep(penalties, p);
      NextPenalty(penalties, p, penalty, drawing);
      more := penalties + [p];
      best, least := bestMask, bestPenalty;
      if p < bestPenalty {
        least := p;
        best := qrmask;
      }
    }

    method SearchMasks(penalty: Grid -> int, ghost drawing: seq<Grid>)
      returns (ghost penalties: seq<int>, ghost least: int)
      requires 1 <= version <= 40 && nModules == Width(version) && functionalPattern == FunctionMap(version)
      requires AreRenderings(drawing, bytes, version, level)
      modifies this`pixels, this`mask
      ensures mask < 8 && |pixels| == nModules && pixels == drawing[mask]
      ensures |penalties| == 8 && ArePenalties(penalties, penalty, drawing) && FirstLeast(penalties, mask, least)
    {
      var bestMask, bestPenalty := 0, 999999;
      penalties := [];
      for qrmask := 0 to 8
        invariant |penalties| == qrmask && ArePenalties(penalties, penalty, drawing)
        invariant (bestMask, bestPenalty) == Search(penalties)
        invariant qrmask > 0 ==> |pixels| == nModules && pixels == drawing[qrmask - 1]
      {
        bestMask, bestPenalty, penalties := NextMask(qrmask, penalty, bestMask, bestPenalty, drawing, penalties);
      }
      SearchFindsFirstLeast(penalties);
      mask := bestMask;
      if mask != 7 {
        Render(mask, drawing);
      }
      least := bestPenalty;
    }

    // -------------------------------------------------------------------------
    // Whole symbols

    /** Finish the symbol: it carries the text of its segments. */
    method Encode(penalty: Grid -> int, ghost segs: seq<Segment>)
      requires HoldsSegments(segs) && nModules == Width(version)
      modifies this`data, this`bitIdx, this`bytes, this`functionalPattern, this`pixels, this`mask
      ensures mask < 8 && IsGrid(pixels, nModules) && Carries(pixels, version, level, mask, AllText(segs))
    {
      FinishData(segs);
      assert BlocksSet();
      ghost var words := data[..nDataCodewords];
      AddErrorCorrection();
      RenderingCarries(bytes, version, level, AllText(segs), words);
      ghost var drawing, _, _ := EncodeBestMask(penalty);
      RenderedExists(bytes, version, level, mask);
    }

    /** Collect the codewords of an image whose version, level and mask are known. */
    method ReadImage(img: Grid, v: nat, l: nat, m: nat)
      requires IsSymbol(v, l) && IsGrid(img, Width(v))
      modifies this
      ensures version == v && level == l
      ensures |codewords| >= NCodewords(v) && AreBytes(codewords)
      ensures codewords[..NCodewords(v)] == SymbolWords(img, v, m)
    {
      image, version, level, mask := img, v, l, m;
      nModules := Width(v);
      SetFunctionalPattern();
      ExtractCodewords();
      CollectedWords(codewords, img, functionalPattern, v, m);
    }

    /** Correct the codewords and read their text. */
    method ReadText() returns (r: Status)
      requires BlocksSet() && |codewords| >= NCodewords(version) && AreBytes(codewords)
      modifies this`bytes, this`text, this`bitIdx
      ensures ReadsWords(codewords[..NCodewords(version)], version, level, r == Done, text)
      ensures r == Done ==> BelowByte(text)
    {
      r := CorrectErrors();
      if r == Done {
        r := ExtractData();
      }
    }

    /** Read a module matrix.  If it is a damaged copy of one that carries a text, that text is
        read.  No matrix reads as a text with a character past 255. */
    method Decode(img: Grid, v: nat, l: nat, m: nat) returns (r: Status)
      requires IsSymbol(v, l) && m < 8 && IsGrid(img, Width(v))
      modifies this
      ensures ReadsImage(img, v, l, m, r == Done, text)
      ensures r == Done ==> BelowByte(text)
    {
      ReadImage(img, v, l, m);
      SetBlocks();
      r := ReadText();
      WordsToImage(img, v, l, m, r == Done, text);
    }

    // -------------------------------------------------------------------------
    // Capacity

    /** The least version whose symbol of this level holds a text of so many characters. */
    static method GetVersionFromLength(l: nat, mode: nat, length: nat) returns (r: Status, v: nat)
      requires l < 4
      ensures r == Done ==> FitsVersion(l, mode, length, v)
      ensures forall u :: FitsVersion(l, mode, length, u) ==> r == Done && v <= u
    {
      if !IsTextMode(mode) {
        return Error("Unsupported ECI mode"), 0;
      }
      v := 1;
      while v <= 40
        invariant 1 <= v <= 41
        invariant forall u :: 1 <= u < v ==> !FitsVersion(l, mode, length, u)
      {
        var fits := DataCapacity(v, l, mode) >= length;
        FitsExactly(l, mode, length, v);
        if fits {
          return Done, v;
        }
        v := v + 1;
      }
      return Error("Text is too long, even for a version 40 QR Code"), 0;
    }
  }

  /** A caller's round trip: a new symbol takes the segments, and another coder reads a copy of its
      matrix with any damage.  The segments are accepted exactly if they fit, and if the damage stays
      within the bound the text comes back. */
  method EncodeThenDecode(segs: seq<Segment>, v: nat, l: nat, penalty: Grid -> int, damage: Grid -> Grid)
    returns (added: bool, r: Status, text: Text, g: Grid, m: nat)
    requires IsSymbol(v, l) && AllEncodable(segs)
    requires forall h :: IsGrid(h, Width(v)) ==> IsGrid(damage(h), Width(v))
    ensures added <==> TotalLength(segs, v) <= 8 * SymbolShape(v, l).DataWords()
    ensures added ==> m < 8 && Carries(g, v, l, m, AllText(segs))
    ensures added && DamagedSymbol(damage(g), g, v, l, m) ==> r == Done && text == AllText(segs)
  {
    added, r, g, m := EncodeNew(segs, v, l, penalty);
    text := [];
    if added {
      r, text := DecodeNew(damage(g), v, l, m);
    }
  }

  method EncodeNew(segs: seq<Segment>, v: nat, l: nat, penalty: Grid -> int)
    returns (added: bool, r: Status, g: Grid, m: nat)
    requires IsSymbol(v, l) && AllEncodable(segs)
    ensures added <==> TotalLength(segs, v) <= 8 * SymbolShape(v, l).DataWords()
    ensures added ==> m < 8 && IsGrid(g, Width(v)) && Carries(g, v, l, m, AllText(segs))
  {
    var encoder := new QRCode();
    encoder.EncodeInit(v, l);
    g, m := [], 0;
    added, r := AddAll(encoder, segs, v, l);
    if added {
      encoder.Encode(penalty, segs);
      g, m := encoder.pixels, encoder.mask;
    }
  }

  method DecodeNew(img: Grid, v: nat, l: nat, m: nat) returns (r: Status, text: Text)
    requires IsSymbol(v, l) && m < 8 && IsGrid(img, Width(v))
    ensures ReadsImage(img, v, l, m, r == Done, text)
    ensures r == Done ==> BelowByte(text)
  {
    var decoder := new QRCode();
    r := decoder.Decode(img, v, l, m);
    text := decoder.text;
  }

  /** Add segments one by one, up to the first that is refused. */
  method AddAll(encoder: QRCode, segs: seq<Segment>, v: nat, l: nat) returns (added: bool, r: Status)
    requires encoder.HoldsSegments([]) && encoder.bitIdx == 0 && encoder.version == v && encoder.level == l
    requires AllEncodable(segs)
    modifies encoder`data, encoder`bitIdx
    ensures added <==> TotalLength(segs, v) <= 8 * SymbolShape(v, l).DataWords()
    ensures added ==> encoder.HoldsSegments(segs)
  {
    r := Done;
    for i := 0 to |segs|
      invariant encoder.HoldsSegments(segs[..i]) && encoder.bitIdx == TotalLength(segs[..i], v)
    {
      r := AddOne(encoder, segs, i, v, l);
      if r != Done {
        TotalLengthMonotone(segs, i + 1, v);
        return false, r;
      }
    }
    assert segs[..|segs|] == segs;
    added := true;
  }

  method AddOne(encoder: QRCode, segs: seq<Segment>, i: nat, v: nat, l: nat) returns (r: Status)
    requires i < |segs| && AllEncodable(segs) && encoder.version == v && encoder.level == l
    requires encoder.HoldsSegments(segs[..i]) && encoder.bitIdx == TotalLength(segs[..i], v)
    modifies encoder`data, encoder`bitIdx
    ensures r == Done <==> TotalLength(segs[..i + 1], v) <= 8 * SymbolShape(v, l).DataWords()
    ensures r == Done ==> encoder.HoldsSegments(segs[..i + 1]) && encoder.bitIdx == TotalLength(segs[..i + 1], v)
  {
    TotalLengthStep(segs, i, v);
    r := encoder.EncodeAddText(segs[i].mode, segs[i].text, segs[..i]);
  }

  /** A clean stream has become a clean stream that is longer by m. */
  ghost predicate Appended(data0: seq<nat>, idx0: nat, data: seq<nat>, idx: nat, m: BitSeq) {
    AppendedUpTo(data0, idx0, data, idx, [], m)
  }

  /** A clean stream has become a clean stream that lacks only rest to be longer by m. */
  ghost predicate AppendedUpTo(data0: seq<nat>, idx0: nat, data: seq<nat>, idx: nat, rest: BitSeq, m: BitSeq) {
    Clean(data0, idx0) ==>
      Clean(data, idx) && Stream(data, idx) + rest == Stream(data0, idx0) + m
  }

  lemma AppendedStart(data: seq<nat>, idx: nat, m: BitSeq)
    ensures AppendedUpTo(data, idx, data, idx, m, m)
  {}

  lemma AppendedStep(data0: seq<nat>, idx0: nat, d: seq<nat>, x: nat, data: seq<nat>, idx: nat,
                     step: BitSeq, rest: BitSeq, m: BitSeq)
    requires AppendedUpTo(data0, idx0, d, x, step + rest, m)
    requires Appended(d, x, data, idx, step)
    ensures AppendedUpTo(data0, idx0, data, idx, rest, m)
  {
    if Clean(data0, idx0) {
      assert Stream(data, idx) + [] == Stream(data, idx);
      AppendStep(Stream(d, x), step, rest);
    }
  }

  lemma AppendedTwice(data0: seq<nat>, idx0: nat, data1: seq<nat>, idx1: nat, data: seq<nat>, idx: nat,
                      a: BitSeq, b: BitSeq)
    requires Appended(data0, idx0, data1, idx1, a) && Appended(data1, idx1, data, idx, b)
    ensures Appended(data0, idx0, data, idx, a + b)
  {
    if Clean(data0, idx0) {
      assert Stream(data, idx) + [] == Stream(data, idx);
      assert Stream(data1, idx1) + [] == Stream(data1, idx1);
      AppendStep(Stream(data0, idx0), a, b);
    }
  }

  lemma ZeroBytes(data: seq<nat>)
    requires forall k :: 0 <= k < |data| ==> data[k] == 0
    ensures Clean(data, 0)
  {
    forall k | 0 <= k < 8 * |data| ensures !ByteBits(data)[k] {
      BitOfZero(7 - k % 8);
    }
  }
}
