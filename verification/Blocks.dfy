/** Splitting codewords into blocks and interleaving them (sections 6.5 and 6.6 of
    ISO/IEC 18004:2006). */
module Blocks {
  import opened QRTables

  function DataLength(s: Shape, b: nat): nat {
    if b < s.first then s.words else s.words + 1
  }

  function BlockLength(s: Shape, b: nat): nat {
    DataLength(s, b) + s.ec
  }

  /** A place in a block: word i of block b. */
  datatype Place = Place(block: nat, word: nat)

  predicate IsPlace(s: Shape, p: Place) {
    p.block < s.Blocks() && p.word < BlockLength(s, p.block)
  }

  /** The codeword index of a place: data words by rows, the longer blocks' last words, then error
      correction words by rows. */
  function IndexOf(s: Shape, p: Place): nat
    requires IsPlace(s, p)
  {
    var n, d := s.Blocks(), DataLength(s, p.block);
    if p.word < s.words then Rows(p.word, n) + p.block
    else if p.word < d then Rows(s.words, n) + (p.block - s.first)
    else s.DataWords() + Rows(p.word - d, n) + p.block
  }

  /** The row that holds entry w. */
  function RowOf(w: nat, n: nat): nat
    requires n > 0
  {
    if w < n then 0 else 1 + RowOf(w - n, n)
  }

  function PlaceOf(s: Shape, w: nat): Place
    requires s.Blocks() > 0
  {
    var n := s.Blocks();
    if w < Rows(s.words, n) then
      RowExists(w, n, s.words);
      Place(w - Rows(RowOf(w, n), n), RowOf(w, n))
    else if w < s.DataWords() then
      Place(s.first + (w - Rows(s.words, n)), s.words)
    else
      var x := w - s.DataWords();
      RowOfBounds(x, n);
      var b := x - Rows(RowOf(x, n), n);
      Place(b, DataLength(s, b) + RowOf(x, n))
  }

  lemma {:induction false} RowsMonotone(i: nat, j: nat, n: nat)
    requires i <= j
    ensures Rows(i, n) <= Rows(j, n)
  {
    if i < j {
      RowsMonotone(i, j - 1, n);
    }
  }

  lemma {:induction false} RowOfBounds(w: nat, n: nat)
    requires n > 0
    ensures Rows(RowOf(w, n), n) <= w < Rows(RowOf(w, n), n) + n
  {
    if w >= n {
      RowOfBounds(w - n, n);
    }
  }

  lemma {:induction false} RowOfEntry(i: nat, n: nat, b: nat)
    requires b < n
    ensures RowOf(Rows(i, n) + b, n) == i
  {
    if i > 0 {
      RowOfEntry(i - 1, n, b);
    }
  }

  lemma RowExists(w: nat, n: nat, rows: nat)
    requires n > 0 && w < Rows(rows, n)
    ensures RowOf(w, n) < rows && Rows(RowOf(w, n), n) <= w < Rows(RowOf(w, n), n) + n
  {
    RowOfBounds(w, n);
    if RowOf(w, n) >= rows {
      RowsMonotone(rows, RowOf(w, n), n);
    }
  }

  /** From places to indices and back. */
  lemma IndexInjective(s: Shape, p: Place)
    requires s.Blocks() > 0 && IsPlace(s, p)
    ensures IndexOf(s, p) < s.Codewords() && PlaceOf(s, IndexOf(s, p)) == p
  {
    var n, d := s.Blocks(), DataLength(s, p.block);
    if p.word < s.words {
      RowsMonotone(p.word + 1, s.words, n);
      RowOfEntry(p.word, n, p.block);
    } else if p.word >= d {
      RowsMonotone(p.word - d + 1, s.ec, n);
      RowOfEntry(p.word - d, n, p.block);
    }
  }

  /** From indices to places and back: with IndexInjective, interleaving is a bijection between
      the places of all blocks and 0 .. codewords-1. */
  lemma IndexSurjective(s: Shape, w: nat)
    requires s.Blocks() > 0 && w < s.Codewords()
    ensures IsPlace(s, PlaceOf(s, w)) && IndexOf(s, PlaceOf(s, w)) == w
  {
    var n := s.Blocks();
    if w < Rows(s.words, n) {
      RowExists(w, n, s.words);
    } else if w >= s.DataWords() {
      RowExists(w - s.DataWords(), n, s.ec);
    }
  }

  // ---------------------------------------------------------------------------
  // The order of dealing

  predicate IsData(s: Shape, p: Place) {
    p.word < DataLength(s, p.block)
  }

  /** Dealing takes the data words of all blocks before the error correction words; of each kind, the first
      of every block, then the second of every block, and so on; and the blocks in order. */
  ghost predicate DealtBefore(s: Shape, p: Place, q: Place)
    requires IsPlace(s, p) && IsPlace(s, q)
  {
    if IsData(s, p) != IsData(s, q) then IsData(s, p)
    else
      var i := if IsData(s, p) then p.word else p.word - DataLength(s, p.block);
      var j := if IsData(s, q) then q.word else q.word - DataLength(s, q.block);
      i < j || (i == j && p.block < q.block)
  }

  lemma DealtEarlier(s: Shape, p: Place, q: Place)
    requires IsPlace(s, p) && IsPlace(s, q) && DealtBefore(s, p, q)
    ensures IndexOf(s, p) < IndexOf(s, q)
  {
    var n := s.Blocks();
    if IsData(s, p) {
      if p.word < s.words {
        RowsMonotone(p.word + 1, s.words, n);
        if q.word < s.words && p.word < q.word {
          RowsMonotone(p.word + 1, q.word, n);
        }
      }
    } else {
      var i, j := p.word - DataLength(s, p.block), q.word - DataLength(s, q.block);
      if i < j {
        RowsMonotone(i + 1, j, n);
      }
    }
  }

  /** Codewords are in the order of dealing.  With the bijection this fixes the index of every place. */
  lemma IndexOrder(s: Shape, p: Place, q: Place)
    requires IsPlace(s, p) && IsPlace(s, q)
    ensures DealtBefore(s, p, q) <==> IndexOf(s, p) < IndexOf(s, q)
  {
    if DealtBefore(s, p, q) {
      DealtEarlier(s, p, q);
    } else if p != q {
      assert DealtBefore(s, q, p) by {
        assert p.block != q.block || p.word != q.word;
      }
      DealtEarlier(s, q, p);
    }
  }

  // ---------------------------------------------------------------------------
  // Gathering and scattering

  /** The codeword indices of block b. */
  function Indices(s: Shape, b: nat): (ix: seq<nat>)
    requires b < s.Blocks()
    ensures |ix| == BlockLength(s, b)
  {
    seq(BlockLength(s, b), i requires 0 <= i < BlockLength(s, b) => IndexOf(s, Place(b, i)))
  }

  /** The first k indices of block b. */
  ghost function Dealt(s: Shape, b: nat, k: nat): (ix: seq<nat>)
    requires b < s.Blocks() && k <= BlockLength(s, b)
    ensures |ix| == k
  {
    Indices(s, b)[..k]
  }

  /** The lists setBlocks leaves behind. */
  ghost predicate IsLayout(s: Shape, lengths: seq<nat>, indices: seq<seq<nat>>) {
    && |lengths| == |indices| == s.Blocks()
    && forall b :: 0 <= b < s.Blocks() ==> lengths[b] == DataLength(s, b) && indices[b] == Indices(s, b)
  }

  function Gathered<T>(ws: seq<T>, s: Shape, b: nat): (r: seq<T>)
    requires s.Valid() && b < s.Blocks() && |ws| == s.Codewords()
    ensures |r| == BlockLength(s, b)
  {
    seq(BlockLength(s, b), i requires 0 <= i < BlockLength(s, b) =>
      (IndexInjective(s, Place(b, i)); ws[IndexOf(s, Place(b, i))]))
  }

  /** Blocks determine the codewords: gathering undoes any scattering. */
  lemma GatheredDetermine<T>(v: seq<T>, w: seq<T>, s: Shape)
    requires s.Valid() && |v| == |w| == s.Codewords()
    requires forall b :: 0 <= b < s.Blocks() ==> Gathered(v, s, b) == Gathered(w, s, b)
    ensures v == w
  {
    forall i | 0 <= i < |v| ensures v[i] == w[i] {
      IndexSurjective(s, i);
      var p := PlaceOf(s, i);
      assert Gathered(v, s, p.block)[p.word] == v[i];
      assert Gathered(w, s, p.block)[p.word] == w[i];
    }
  }

  /** Writing one place changes just that word of that block. */
  lemma GatheredUpdate<T>(ws: seq<T>, s: Shape, p: Place, v: T, b: nat)
    requires s.Valid() && |ws| == s.Codewords() && IsPlace(s, p) && b < s.Blocks()
    ensures IndexOf(s, p) < |ws|
    ensures Gathered(ws[IndexOf(s, p) := v], s, b)
         == if b == p.block then Gathered(ws, s, b)[p.word := v] else Gathered(ws, s, b)
  {
    IndexInjective(s, p);
    var us := ws[IndexOf(s, p) := v];
    forall i | 0 <= i < BlockLength(s, b)
      ensures Gathered(us, s, b)[i] == if Place(b, i) == p then v else Gathered(ws, s, b)[i]
    {
      IndexInjective(s, Place(b, i));
    }
  }

  // ---------------------------------------------------------------------------
  // The data of each block

  /** Where the data of block b starts. */
  function DataStart(s: Shape, b: nat): nat
    requires b <= s.Blocks()
  {
    if b == 0 then 0 else DataStart(s, b - 1) + DataLength(s, b - 1)
  }

  lemma {:induction false} DataStartIs(s: Shape, b: nat)
    requires b <= s.Blocks()
    ensures DataStart(s, b) == Rows(b, s.words) + if b > s.first then b - s.first else 0
  {
    if b > 0 {
      DataStartIs(s, b - 1);
    }
  }

  lemma {:induction false} DataStartMonotone(s: Shape, a: nat, b: nat)
    requires a <= b <= s.Blocks()
    ensures DataStart(s, a) <= DataStart(s, b)
  {
    if a < b {
      DataStartMonotone(s, a, b - 1);
    }
  }

  /** The blocks use all data words. */
  lemma DataStartEnd(s: Shape)
    ensures DataStart(s, s.Blocks()) == s.DataWords()
  {
    DataStartIs(s, s.Blocks());
    RowsIsProduct(s.Blocks(), s.words);
    RowsIsProduct(s.words, s.Blocks());
    assert s.words * s.Blocks() == s.Blocks() * s.words;
  }

  /** The shorter blocks come first, and no block is longer than another by more than one word. */
  lemma ShorterFirst(s: Shape, b: nat, c: nat)
    requires b <= c < s.Blocks()
    ensures DataLength(s, b) <= DataLength(s, c) <= DataLength(s, b) + 1
    ensures DataLength(s, b) < DataLength(s, c) <==> b < s.first <= c
  {}

  /** The blocks hold the data words in order: each block a stretch of them, behind those of the blocks
      before. */
  lemma DataOrder(s: Shape, p: Place, q: Place)
    requires IsPlace(s, p) && IsPlace(s, q) && IsData(s, p) && IsData(s, q)
    ensures DataStart(s, p.block) + p.word < DataStart(s, q.block) + q.word
       <==> p.block < q.block || (p.block == q.block && p.word < q.word)
  {
    if p.block < q.block {
      DataStartMonotone(s, p.block + 1, q.block);
    } else if q.block < p.block {
      DataStartMonotone(s, q.block + 1, p.block);
    }
  }

  function BlockData<T>(data: seq<T>, s: Shape, b: nat): (r: seq<T>)
    requires b < s.Blocks() && |data| >= s.DataWords()
    ensures |r| == DataLength(s, b)
  {
    DataStartEnd(s);
    DataStartMonotone(s, b + 1, s.Blocks());
    data[DataStart(s, b)..DataStart(s, b + 1)]
  }

  // ---------------------------------------------------------------------------
  // Writing a stretch of one block

  /** ws with vs written at the words from i on of block b. */
  ghost predicate IsScattered<T>(r: seq<T>, ws: seq<T>, s: Shape, b: nat, i: nat, vs: seq<T>)
    requires s.Valid() && b < s.Blocks() && i + |vs| <= BlockLength(s, b)
  {
    && |r| == |ws| == s.Codewords()
    && Gathered(r, s, b) == Gathered(ws, s, b)[..i] + vs + Gathered(ws, s, b)[i + |vs|..]
    && forall c :: 0 <= c < s.Blocks() && c != b ==> Gathered(r, s, c) == Gathered(ws, s, c)
  }

  /** Scatter values to the words from i on of a block whose codeword indices are ix. */
  method Scatter<T>(ws: seq<T>, ghost s: Shape, ix: seq<nat>, ghost b: nat, i: nat, vs: seq<T>) returns (r: seq<T>)
    requires s.Valid() && b < s.Blocks() && |ws| == s.Codewords() && ix == Indices(s, b)
    requires i + |vs| <= BlockLength(s, b)
    ensures IsScattered(r, ws, s, b, i, vs)
  {
    r := ws;
    for k := 0 to |vs|
      invariant |r| == s.Codewords() && IsScattered(r, ws, s, b, i, vs[..k])
    {
      ghost var p := Place(b, i + k);
      IndexInjective(s, p);
      ghost var r0 := r;
      r := r[ix[i + k] := vs[k]];
      ScatterStep(r0, r, ws, s, b, i, vs, k);
    }
    assert vs[..|vs|] == vs;
  }

  lemma ScatterStep<T>(r0: seq<T>, r: seq<T>, ws: seq<T>, s: Shape, b: nat, i: nat, vs: seq<T>, k: nat)
    requires s.Valid() && b < s.Blocks() && i + |vs| <= BlockLength(s, b) && k < |vs|
    requires IsScattered(r0, ws, s, b, i, vs[..k])
    requires IndexOf(s, Place(b, i + k)) < |r0| && r == r0[IndexOf(s, Place(b, i + k)) := vs[k]]
    ensures IsScattered(r, ws, s, b, i, vs[..k + 1])
  {
    var p := Place(b, i + k);
    forall c | 0 <= c < s.Blocks() && c != b ensures Gathered(r, s, c) == Gathered(ws, s, c) {
      GatheredUpdate(r0, s, p, vs[k], c);
    }
    GatheredUpdate(r0, s, p, vs[k], b);
    var now, base := Gathered(r0, s, b), Gathered(ws, s, b);
    assert |vs[..k]| == k && Gathered(r, s, b) == now[i + k := vs[k]];
    SpliceStep(now, base, i, vs, k);
    assert |vs[..k + 1]| == k + 1;
  }

  /** One more value written behind those already there. */
  lemma SpliceStep<T>(now: seq<T>, base: seq<T>, i: nat, vs: seq<T>, k: nat)
    requires k < |vs| && i + |vs| <= |base| && now == base[..i] + vs[..k] + base[i + k..]
    ensures now[i + k := vs[k]] == base[..i] + vs[..k + 1] + base[i + k + 1..]
  {}

  /** The codewords of a block, in order. */
  method Gather<T>(ws: seq<T>, ghost s: Shape, ix: seq<nat>, ghost b: nat) returns (r: seq<T>)
    requires s.Valid() && b < s.Blocks() && |ws| >= s.Codewords() && ix == Indices(s, b)
    ensures r == Gathered(ws[..s.Codewords()], s, b)
  {
    r := [];
    for i := 0 to |ix|
      invariant r == Gathered(ws[..s.Codewords()], s, b)[..i]
    {
      IndexInjective(s, Place(b, i));
      r := r + [ws[ix[i]]];
    }
  }
}
