/** What it means for a module matrix to carry a text, and to be damaged. */
module Symbols {
  import opened BitStream
  import opened QRTables
  import opened Segments
  import opened BlockCoding
  import opened Placement
  import opened FunctionPatterns
  import opened FreeModules
  import opened Rendering

  /** Data codewords from which extractData returns this text. */
  ghost predicate ReadsAs(data: seq<nat>, version: nat, t: Text) {
    ReadSegments(data + [0, 0, 0, 0], 0, 8 * |data|, version) == Ok(t)
  }

  // ---------------------------------------------------------------------------
  // Codewords of a matrix

  /** The first k bytes of a bit sequence. */
  function WordsOf(bits: BitSeq, k: nat): (w: seq<nat>)
    requires 8 * k <= |bits|
    ensures |w| == k
  {
    seq(k, i requires 0 <= i < k => Value(bits[8 * i..8 * i + 8]))
  }

  lemma WordsOfByteBits(w: seq<nat>, bits: BitSeq, k: nat)
    requires AreBytes(w) && k <= |w| && 8 * |w| <= |bits| && ByteBits(w) == bits[..8 * |w|]
    ensures w[..k] == WordsOf(bits, k)
  {
    SmallPowers();
    forall i | 0 <= i < k ensures w[i] == Value(bits[8 * i..8 * i + 8]) {
      forall j | 0 <= j < 8 ensures Bits(w[i], 8)[j] == bits[8 * i + j] {
        assert ByteBits(w)[8 * i + j] == BitAt(w[i], 7 - j);
      }
      assert Bits(w[i], 8) == bits[8 * i..8 * i + 8];
      ValueOfBits(w[i], 8);
    }
  }

  /** The codewords in the data modules of a matrix. */
  ghost function SymbolWords(g: Grid, version: nat, mask: nat): (w: seq<nat>)
    requires 1 <= version <= 40 && IsGrid(g, Width(version))
    ensures |w| == NCodewords(version)
  {
    RoomForCodewords(g, version, MaskOf(mask));
    WordsOf(SymbolBits(g, FunctionMap(version), Width(version), MaskOf(mask)), NCodewords(version))
  }

  /** What the reader collects starts with the codewords of the matrix. */
  lemma CollectedWords(w: seq<nat>, g: Grid, f: Grid, version: nat, mask: nat)
    requires 1 <= version <= 40 && IsGrid(g, Width(version)) && f == FunctionMap(version) && AreBytes(w)
    requires var bits := SymbolBits(g, f, Width(version), MaskOf(mask));
      |w| == |bits| / 8 && ByteBits(w) == bits[..8 * |w|]
    ensures |w| >= NCodewords(version) && w[..NCodewords(version)] == SymbolWords(g, version, mask)
  {
    RoomForCodewords(g, version, MaskOf(mask));
    WordsOfByteBits(w, SymbolBits(g, f, Width(version), MaskOf(mask)), NCodewords(version));
  }

  lemma HeldWords(g: Grid, f: Grid, n: nat, m: Mask, bytes: seq<nat>)
    requires IsWidth(n) && IsGrid(g, n) && IsGrid(f, n) && HoldsData(g, f, n, m, bytes) && AreBytes(bytes)
    requires 8 * |bytes| <= |SymbolBits(g, f, n, m)|
    ensures WordsOf(SymbolBits(g, f, n, m), |bytes|) == bytes
  {
    var bits := SymbolBits(g, f, n, m);
    DataBitsPrefix(bytes, |bits|);
    WordsOfByteBits(bytes, bits, |bytes|);
  }

  /** The codewords of a rendered symbol are those that were rendered. */
  lemma RenderedWords(g: Grid, bytes: seq<nat>, version: nat, level: nat, mask: nat)
    requires 1 <= version <= 40 && IsRendering(g, bytes, version, level, mask)
    requires |bytes| == NCodewords(version) && AreBytes(bytes)
    ensures SymbolWords(g, version, mask) == bytes
  {
    RoomForCodewords(g, version, MaskOf(mask));
    HeldWords(g, FunctionMap(version), Width(version), MaskOf(mask), bytes);
  }

  // ---------------------------------------------------------------------------
  // Carrying a text

  /** The matrix is the rendering of the codewords sent, which encode the data words, which read as t. */
  ghost predicate CarriesWords(g: Grid, version: nat, level: nat, mask: nat, t: Text, sent: seq<nat>, words: seq<nat>) {
    && IsSymbol(version, level) && IsEncoded(sent, SymbolShape(version, level), words)
    && ReadsAs(words, version, t) && IsRendering(g, sent, version, level, mask)
  }

  ghost predicate Carries(g: Grid, version: nat, level: nat, mask: nat, t: Text) {
    exists sent: seq<nat>, words: seq<nat> :: CarriesWords(g, version, level, mask, t, sent, words)
  }

  /** An encoding of the data words, once rendered, carries their text. */
  lemma RenderingCarries(sent: seq<nat>, version: nat, level: nat, t: Text, words: seq<nat>)
    requires IsSymbol(version, level) && IsEncoded(sent, SymbolShape(version, level), words)
    requires ReadsAs(words, version, t)
    ensures forall g, mask: nat :: IsRendering(g, sent, version, level, mask) ==> Carries(g, version, level, mask, t)
  {
    forall g, mask: nat | IsRendering(g, sent, version, level, mask) ensures Carries(g, version, level, mask, t) {
      assert CarriesWords(g, version, level, mask, t, sent, words);
    }
  }

  /** In every block, at most half as many codewords of the two matrices differ as the block has
      error correction words; function modules may differ anywhere. */
  ghost predicate DamagedSymbol(image: Grid, g: Grid, version: nat, level: nat, mask: nat) {
    && IsSymbol(version, level) && IsGrid(image, Width(version)) && IsGrid(g, Width(version))
    && Damaged(SymbolWords(image, version, mask), SymbolWords(g, version, mask), SymbolShape(version, level))
  }

  /** A damaged symbol that carries a text shows recoverable codewords. */
  lemma DamagedIsRecoverable(image: Grid, g: Grid, version: nat, level: nat, mask: nat, t: Text)
    returns (sent: seq<nat>, words: seq<nat>)
    requires Carries(g, version, level, mask, t) && DamagedSymbol(image, g, version, level, mask)
    ensures Recoverable(SymbolWords(image, version, mask), sent, SymbolShape(version, level), words)
    ensures ReadsAs(words, version, t)
  {
    sent, words :| CarriesWords(g, version, level, mask, t, sent, words);
    AllShapes(version, level);
    EncodedAreBytes(sent, SymbolShape(version, level), words);
    RenderedWords(g, sent, version, level, mask);
  }

  /** Reading these codewords gave the text of every symbol they can have come from. */
  ghost predicate ReadsWords(read: seq<nat>, version: nat, level: nat, ok: bool, text: Text) {
    forall sent: seq<nat>, words: seq<nat>, t ::
      (Recoverable(read, sent, SymbolShape(version, level), words) && ReadsAs(words, version, t)) ==> ok && text == t
  }

  /** Reading this image gave the text of every symbol of which it is a damaged copy. */
  ghost predicate ReadsImage(image: Grid, version: nat, level: nat, mask: nat, ok: bool, text: Text) {
    forall g, t :: (Carries(g, version, level, mask, t) && DamagedSymbol(image, g, version, level, mask)) ==>
      ok && text == t
  }

  lemma WordsToImage(image: Grid, version: nat, level: nat, mask: nat, ok: bool, text: Text)
    requires IsSymbol(version, level) && IsGrid(image, Width(version))
    requires ReadsWords(SymbolWords(image, version, mask), version, level, ok, text)
    ensures ReadsImage(image, version, level, mask, ok, text)
  {
    forall g, t | Carries(g, version, level, mask, t) && DamagedSymbol(image, g, version, level, mask)
      ensures ok && text == t
    {
      var sent, words := DamagedIsRecoverable(image, g, version, level, mask, t);
    }
  }

  // ---------------------------------------------------------------------------
  // The best mask

  /** The rendering with a mask. */
  ghost function Rendered(bytes: seq<nat>, version: nat, level: nat, mask: nat): Grid
    requires version >= 1
  {
    if exists g :: IsRendering(g, bytes, version, level, mask)
    then var g :| IsRendering(g, bytes, version, level, mask); g
    else []
  }

  /** Where it is a matrix, it is the rendering. */
  lemma RenderedExists(bytes: seq<nat>, version: nat, level: nat, mask: nat)
    requires version >= 1 && |Rendered(bytes, version, level, mask)| > 0
    ensures IsRendering(Rendered(bytes, version, level, mask), bytes, version, level, mask)
  {}

  lemma RenderedIs(g: Grid, bytes: seq<nat>, version: nat, level: nat, mask: nat)
    requires version >= 1 && IsRendering(g, bytes, version, level, mask)
    ensures Rendered(bytes, version, level, mask) == g
  {
    var r := Rendered(bytes, version, level, mask);
    RenderingUnique(g, r, bytes, version, level, mask);
  }

  /** The renderings with masks 0 to 7. */
  ghost predicate AreRenderings(drawing: seq<Grid>, bytes: seq<nat>, version: nat, level: nat)
    requires version >= 1
  {
    && |drawing| == 8
    && forall k: nat {:trigger Rendered(bytes, version, level, k)} :: k < 8 ==>
         drawing[k] == Rendered(bytes, version, level, k)
  }

  ghost function Renderings(bytes: seq<nat>, version: nat, level: nat): (drawing: seq<Grid>)
    requires version >= 1
    ensures AreRenderings(drawing, bytes, version, level)
  {
    seq(8, k requires 0 <= k < 8 => Rendered(bytes, version, level, k))
  }

  /** Patterns on a blank matrix, then data, make the rendering with a mask. */
  lemma DrawnIsRendered(drawn: Grid, r: Grid, f: Grid, n: nat, bytes: seq<nat>, version: nat, level: nat, mask: nat,
                        drawing: seq<Grid>)
    requires version >= 1 && n == Width(version) && f == FunctionMap(version) && mask < 8
    requires Darkened(BlankGrid(n), drawn, n, PatternCells(version, level, mask))
    requires DataPlaced(drawn, r, f, n, MaskOf(mask), bytes) && AreRenderings(drawing, bytes, version, level)
    ensures |r| == n && r == drawing[mask]
  {
    PatternsAndDataFinish(drawn, r, f, n, PatternCells(version, level, mask), MaskOf(mask), bytes);
    RenderedIs(r, bytes, version, level, mask);
  }

  /** Penalties of the first matrices. */
  ghost predicate ArePenalties(penalties: seq<int>, penalty: Grid -> int, drawing: seq<Grid>) {
    |penalties| <= |drawing| && forall k :: 0 <= k < |penalties| ==> penalties[k] == penalty(drawing[k])
  }

  lemma NextPenalty(penalties: seq<int>, p: int, penalty: Grid -> int, drawing: seq<Grid>)
    requires ArePenalties(penalties, penalty, drawing) && |penalties| < |drawing|
    requires p == penalty(drawing[|penalties|])
    ensures ArePenalties(penalties + [p], penalty, drawing)
  {}

  /** Place and value of the first least penalty below 999999; place 0 if there is none. */
  ghost predicate FirstLeast(penalties: seq<int>, best: nat, least: int) {
    && least <= 999999
    && (if least == 999999 then best == 0 else best < |penalties| && penalties[best] == least)
    && forall k :: 0 <= k < |penalties| ==> least <= penalties[k] && (k < best ==> least < penalties[k])
  }

  /** The search for the first least penalty. */
  function Search(ps: seq<int>): (nat, int) {
    if |ps| == 0 then (0, 999999)
    else
      var (best, least) := Search(ps[..|ps| - 1]);
      var p := ps[|ps| - 1];
      if p < least then (|ps| - 1, p) else (best, least)
  }

  lemma SearchStep(ps: seq<int>, p: int)
    ensures Search(ps + [p]) == if p < Search(ps).1 then (|ps|, p) else Search(ps)
  {
    assert (ps + [p])[..|ps|] == ps;
  }

  lemma {:induction false} SearchFindsFirstLeast(ps: seq<int>)
    ensures FirstLeast(ps, Search(ps).0, Search(ps).1)
    ensures Search(ps).0 < |ps| || Search(ps).0 == 0
  {
    if |ps| > 0 {
      SearchFindsFirstLeast(ps[..|ps| - 1]);
    }
  }

  // ---------------------------------------------------------------------------
  // Which texts can be read

  /** Bits below idx depend only on the bytes below it. */
  lemma SameBits(a: seq<nat>, b: seq<nat>, idx: nat)
    requires idx <= 8 * |a| && idx <= 8 * |b|
    requires forall k :: 0 <= k < |a| && 8 * k < idx ==> k < |b| && b[k] == a[k]
    ensures ByteBits(a)[..idx] == ByteBits(b)[..idx]
  {}

  /** However the stream ends, terminator, padding or cut off, the segments are read back. */
  lemma PaddedReads(data1: seq<nat>, idx: nat, data: seq<nat>, n: nat, version: nat, segs: seq<Segment>)
    requires AllCarried(segs, version) && Clean(data1, idx)
    requires Stream(data1, idx) == AllBits(segs, version) + Bits(TERMINATOR, 4)
    requires |AllBits(segs, version)| <= 8 * n && n <= |data| && n <= |data1|
    requires forall k :: 0 <= k < |data1| && 8 * k < idx && k < n ==> data[k] == data1[k]
    requires forall k :: 0 <= k < n && 8 * k >= idx ==> data[k] < 256
    ensures AreBytes(data[..n]) && ReadsAs(data[..n], version, AllText(segs))
  {
    var m := AllBits(segs, version);
    var end := |m|;
    var b := data[..n] + [0, 0, 0, 0];
    var e := if idx <= 8 * n then idx else 8 * n;
    SameBits(b, data1, e);
    var all, s := ByteBits(b), Stream(data1, idx);
    assert all[..e] == s[..e];
    assert HoldsAt(b, 0, m) by {
      assert all[0..end] == all[..e][..end] == s[..end];
    }
    if end + 4 < 8 * n {
      assert all[end..end + 4] == all[..e][end..] == s[end..] == Bits(TERMINATOR, 4);
    }
    SegmentsRoundTrip(b, 0, 8 * n, segs, version);
  }

  /** Whole bytes hold their bits. */
  lemma {:induction false} WordsHold(bits: BitSeq, k: nat)
    requires 8 * k <= |bits|
    ensures AreBytes(WordsOf(bits, k)) && ByteBits(WordsOf(bits, k)) == bits[..8 * k]
  {
    if k > 0 {
      var w, last := WordsOf(bits, k - 1), bits[8 * (k - 1)..8 * k];
      WordsHold(bits, k - 1);
      WholeByte(last);
      assert WordsOf(bits, k) == w + [Value(last)];
      ByteBitsConcat(w, [Value(last)]);
      assert bits[..8 * k] == bits[..8 * (k - 1)] + last;
    }
  }

  /** Segments that fit together fit their count fields, and their bits are as many as they need. */
  lemma {:induction false} FittingCarried(segs: seq<Segment>, version: nat)
    requires AllEncodable(segs) && TotalLength(segs, version) <= 8 * DataBound(version)
    ensures AllCarried(segs, version) && |AllBits(segs, version)| == TotalLength(segs, version)
  {
    if |segs| > 0 {
      var k := |segs| - 1;
      var before, s := segs[..k], segs[k];
      assert segs == before + [s];
      FittingCarried(before, version);
      CountFits(version, s.mode, |s.text|);
      AllBitsAppend(before, s, version);
      SegmentShape(s, version);
      PayloadBitsLength(s.mode, s.text);
    }
  }

  /** Some n data codewords are read as t. */
  ghost predicate CanRead(t: Text, version: nat, n: nat) {
    exists data :: IsReading(data, t, version, n)
  }

  ghost predicate IsReading(data: seq<nat>, t: Text, version: nat, n: nat) {
    |data| == n && AreBytes(data) && ReadsAs(data, version, t)
  }

  /** Carried segments, closed and padded with zeros, make such data codewords. */
  lemma CarriedReads(segs: seq<Segment>, version: nat, n: nat)
    requires AllCarried(segs, version) && |AllBits(segs, version)| <= 8 * n
    ensures CanRead(AllText(segs), version, n)
  {
    var m := AllBits(segs, version) + Bits(TERMINATOR, 4);
    var k := n + 4;
    var bits := m + Falses(8 * k - |m|);
    var data := WordsOf(bits, k);
    WordsHold(bits, k);
    assert bits[..8 * k] == bits && ByteBits(data)[..|m|] == m;
    PaddedReads(data, |m|, data, n, version, segs);
    assert IsReading(data[..n], AllText(segs), version, n);
  }

  /** Accepted segments that fit a symbol are what some data codewords of it are read as, exactly if
      no character of their text is past 255. */
  lemma ReadableIff(segs: seq<Segment>, version: nat, level: nat)
    requires IsSymbol(version, level) && AllAccepted(segs)
    requires TotalLength(segs, version) <= 8 * SymbolShape(version, level).DataWords()
    ensures CanRead(AllText(segs), version, SymbolShape(version, level).DataWords()) <==> BelowByte(AllText(segs))
  {
    var n, t := SymbolShape(version, level).DataWords(), AllText(segs);
    AllShapes(version, level);
    if BelowByte(t) {
      EncodableIffBelowByte(segs);
      FittingCarried(segs, version);
      CarriedReads(segs, version, n);
    } else if CanRead(t, version, n) {
      var data :| IsReading(data, t, version, n);
      var _ := ReadBelowByte(data + [0, 0, 0, 0], 0, 8 * n, version);
      assert false;
    }
  }
}
