/** The blocks of a symbol, encoded, interleaved, damaged and decoded (section 6.5 and 6.6 of
    ISO/IEC 18004:2006). */
module BlockCoding {
  import opened GF256
  import opened Codewords
  import opened ByteValues
  import opened BitStream
  import opened QRTables
  import opened Blocks
  import RS = ReedSolomonCoder

  /** g is the data of block b followed by its parity. */
  ghost predicate IsEncodedBlock(g: seq<nat>, s: Shape, words: seq<nat>, b: nat)
    requires b < s.Blocks() && |words| == s.DataWords()
  {
    && |g| == BlockLength(s, b) && AreBytes(g)
    && g[..DataLength(s, b)] == BlockData(words, s, b)
    && IsCodeword(ToBytes(g), s.ec)
  }

  /** bytes are the interleaved blocks of these data words. */
  ghost predicate IsEncoded(bytes: seq<nat>, s: Shape, words: seq<nat>) {
    && s.Valid() && |bytes| == s.Codewords() && |words| == s.DataWords()
    && forall b :: 0 <= b < s.Blocks() ==> IsEncodedBlock(Gathered(bytes, s, b), s, words, b)
  }

  /** Every data word is the codeword at its place. */
  lemma CodewordAt(bytes: seq<nat>, s: Shape, words: seq<nat>, p: Place)
    requires IsEncoded(bytes, s, words) && IsPlace(s, p) && IsData(s, p)
    ensures IndexOf(s, p) < |bytes| && DataStart(s, p.block) + p.word < |words|
    ensures bytes[IndexOf(s, p)] == words[DataStart(s, p.block) + p.word]
  {
    IndexInjective(s, p);
    DataStartEnd(s);
    DataStartMonotone(s, p.block + 1, s.Blocks());
    var g := Gathered(bytes, s, p.block);
    assert IsEncodedBlock(g, s, words, p.block);
    assert g[..DataLength(s, p.block)][p.word] == BlockData(words, s, p.block)[p.word];
  }

  /** In every block, at most half as many codewords differ as there are error correction words. */
  ghost predicate Damaged(read: seq<nat>, sent: seq<nat>, s: Shape) {
    && s.Valid() && |read| == |sent| == s.Codewords()
    && forall b :: 0 <= b < s.Blocks() ==> 2 * Differences(Gathered(read, s, b), Gathered(sent, s, b)) <= s.ec
  }

  lemma BlockDataAt(s: Shape, data: seq<nat>, words: seq<nat>, n: nat, b: nat)
    requires b < s.Blocks() && |words| == s.DataWords() <= |data| && words == data[..|words|]
    requires n == DataStart(s, b) && AreBytes(words)
    ensures n + DataLength(s, b) == DataStart(s, b + 1) <= |data|
    ensures data[n..n + DataLength(s, b)] == BlockData(words, s, b)
    ensures AreBytes(BlockData(words, s, b))
  {
    DataStartEnd(s);
    DataStartMonotone(s, b + 1, s.Blocks());
  }

  lemma BlockEncoded(out0: seq<nat>, out1: seq<nat>, out: seq<nat>, s: Shape, words: seq<nat>, b: nat,
                     bytesIn: seq<nat>, parity: seq<Byte>)
    requires s.Valid() && b < s.Blocks() && |words| == s.DataWords() && bytesIn == BlockData(words, s, b)
    requires AreBytes(bytesIn) && |parity| == s.ec && IsCodeword(ToBytes(bytesIn) + parity, s.ec)
    requires IsScattered(out1, out0, s, b, 0, bytesIn)
    requires IsScattered(out, out1, s, b, |bytesIn|, ToNats(parity))
    ensures IsEncodedBlock(Gathered(out, s, b), s, words, b)
    ensures forall c :: 0 <= c < s.Blocks() && c != b ==> Gathered(out, s, c) == Gathered(out0, s, c)
  {
    var g := bytesIn + ToNats(parity);
    assert Gathered(out, s, b) == g;
    ToBytesToNats(parity);
    assert ToBytes(g) == ToBytes(bytesIn) + ToBytes(ToNats(parity));
  }

  /** The codewords read are a damaged copy of the interleaved blocks of these data words. */
  ghost predicate Recoverable(read: seq<nat>, sent: seq<nat>, s: Shape, words: seq<nat>) {
    IsEncoded(sent, s, words) && Damaged(read, sent, s)
  }

  lemma EncodedAreBytes(sent: seq<nat>, s: Shape, words: seq<nat>)
    requires IsEncoded(sent, s, words)
    ensures AreBytes(sent)
  {
    forall i | 0 <= i < |sent| ensures sent[i] < 256 {
      IndexSurjective(s, i);
      var p := Blocks.PlaceOf(s, i);
      assert IsEncodedBlock(Gathered(sent, s, p.block), s, words, p.block);
      assert Gathered(sent, s, p.block)[p.word] == sent[i];
    }
  }

  ghost function JoinedData(words: seq<nat>, s: Shape, b: nat): seq<nat>
    requires |words| == s.DataWords() && b <= s.Blocks()
  {
    if b == 0 then [] else JoinedData(words, s, b - 1) + BlockData(words, s, b - 1)
  }

  lemma {:induction false} JoinedIsPrefix(words: seq<nat>, s: Shape, b: nat)
    requires |words| == s.DataWords() && b <= s.Blocks()
    ensures DataStart(s, b) <= |words| && JoinedData(words, s, b) == words[..DataStart(s, b)]
  {
    DataStartEnd(s);
    DataStartMonotone(s, b, s.Blocks());
    if b > 0 {
      JoinedIsPrefix(words, s, b - 1);
    }
  }

  lemma JoinedAll(s: Shape)
    ensures forall words: seq<nat> :: |words| == s.DataWords() ==> JoinedData(words, s, s.Blocks()) == words
  {
    forall words: seq<nat> | |words| == s.DataWords() ensures JoinedData(words, s, s.Blocks()) == words {
      JoinedIsPrefix(words, s, s.Blocks());
      DataStartEnd(s);
    }
  }

  lemma RecoveredBlock(read: seq<nat>, sent: seq<nat>, s: Shape, words: seq<nat>, b: nat)
    requires Recoverable(read, sent, s, words) && b < s.Blocks() && AreBytes(Gathered(read, s, b))
    ensures var c := ToBytes(Gathered(sent, s, b));
      && InRadius(c, ToBytes(Gathered(read, s, b)), s.ec)
      && ToNats(c[..|c| - s.ec]) == BlockData(words, s, b)
  {
    var v, g := Gathered(read, s, b), Gathered(sent, s, b);
    assert IsEncodedBlock(g, s, words, b);
    DifferencesSymmetric(g, v);
    DifferencesIsDistance(g, v);
    var c := ToBytes(g);
    ToNatsToBytes(g);
    assert ToNats(c[..|c| - s.ec]) == ToNats(c)[..|c| - s.ec];
  }

  // ---------------------------------------------------------------------------
  // The coder's loops

  /** Write one block's data and parity to their places. */
  method EncodeBlock(rs: RS.ReedSolomon, out0: seq<nat>, ix: seq<nat>, bytesIn: seq<nat>,
                            ghost s: Shape, ghost words: seq<nat>, ghost b: nat) returns (out: seq<nat>)
    requires s.Valid() && b < s.Blocks() && |words| == s.DataWords() && |out0| == s.Codewords()
    requires ix == Indices(s, b) && bytesIn == BlockData(words, s, b) && AreBytes(bytesIn)
    requires rs.Valid() && rs.n == s.ec
    modifies rs
    ensures rs.Valid() && |out| == s.Codewords()
    ensures IsEncodedBlock(Gathered(out, s, b), s, words, b)
    ensures forall c :: 0 <= c < s.Blocks() && c != b ==> Gathered(out, s, c) == Gathered(out0, s, c)
  {
    var out1 := Scatter(out0, s, ix, b, 0, bytesIn);
    var bytesOut := rs.Encode(ToBytes(bytesIn));
    out := Scatter(out1, s, ix, b, |bytesIn|, ToNats(bytesOut));
    BlockEncoded(out0, out1, out, s, words, b, bytesIn, bytesOut);
  }

  /** Encode every block and interleave them. */
  method EncodeBlocks(rs: RS.ReedSolomon, data: seq<nat>, nData: nat, nCodewords: nat, lengths: seq<nat>,
                      indices: seq<seq<nat>>, ghost s: Shape) returns (out: seq<nat>)
    requires s.Valid() && IsLayout(s, lengths, indices) && nCodewords == s.Codewords()
    requires nData == s.DataWords() <= |data| && AreBytes(data[..nData])
    requires rs.Valid() && rs.n == s.ec
    modifies rs
    ensures IsEncoded(out, s, data[..nData])
  {
    ghost var words := data[..nData];
    out := seq(nCodewords, _ => 0);
    var n := 0;
    for b := 0 to |lengths|
      invariant rs.Valid() && n == DataStart(s, b) && |out| == s.Codewords()
      invariant forall c :: 0 <= c < b ==> IsEncodedBlock(Gathered(out, s, c), s, words, c)
    {
      var m := lengths[b];
      BlockDataAt(s, data, words, n, b);
      out := EncodeBlock(rs, out, indices[b], data[n..n + m], s, words, b);
      n := n + m;
    }
  }

  method DecodeBlock(rs: RS.ReedSolomon, read: seq<nat>, ix: seq<nat>, ghost s: Shape, ghost b: nat)
    returns (ok: bool, bytesOut: seq<nat>)
    requires s.Valid() && b < s.Blocks() && ix == Indices(s, b)
    requires |read| >= s.Codewords() && AreBytes(read)
    requires rs.Valid() && rs.n == s.ec
    modifies rs
    ensures rs.Valid()
    ensures forall sent: seq<nat>, words: seq<nat> ::
      Recoverable(read[..s.Codewords()], sent, s, words) ==> ok && bytesOut == BlockData(words, s, b)
  {
    var bytesIn := Gather(read, s, ix, b);
    forall i | 0 <= i < |bytesIn| ensures bytesIn[i] < 256 {
      IndexInjective(s, Place(b, i));
    }
    var msg := rs.Decode(ToBytes(bytesIn));
    ok := rs.corrected;
    bytesOut := ToNats(msg);
    forall sent: seq<nat>, words: seq<nat> | Recoverable(read[..s.Codewords()], sent, s, words)
      ensures ok && bytesOut == BlockData(words, s, b)
    {
      RecoveredBlock(read[..s.Codewords()], sent, s, words, b);
    }
  }

  /** Decode every block and join their data. */
  method DecodeBlocks(rs: RS.ReedSolomon, read: seq<nat>, indices: seq<seq<nat>>, ghost s: Shape)
    returns (ok: bool, out: seq<nat>)
    requires s.Valid() && |indices| == s.Blocks()
    requires forall b :: 0 <= b < s.Blocks() ==> indices[b] == Indices(s, b)
    requires |read| >= s.Codewords() && AreBytes(read)
    requires rs.Valid() && rs.n == s.ec
    modifies rs
    ensures forall sent: seq<nat>, words: seq<nat> ::
      Recoverable(read[..s.Codewords()], sent, s, words) ==> ok && out == words
  {
    ok, out := true, [];
    for b := 0 to |indices|
      invariant rs.Valid()
      invariant forall sent: seq<nat>, words: seq<nat> ::
        Recoverable(read[..s.Codewords()], sent, s, words) ==> out == JoinedData(words, s, b)
    {
      var bytesOut;
      ok, bytesOut := DecodeBlock(rs, read, indices[b], s, b);
      if !ok {
        return;
      }
      out := out + bytesOut;
    }
    JoinedAll(s);
    ok := true;
  }
}
