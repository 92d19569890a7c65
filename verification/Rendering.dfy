/** The whole module matrix: function patterns and data together determine it. */
module Rendering {
  import opened BitStream
  import opened Placement
  import opened FunctionPatterns

  // ---------------------------------------------------------------------------
  // The number of data modules

  lemma {:induction false} FlatCount(ss: seq<BitSeq>, tt: seq<BitSeq>, k: nat)
    requires k <= |ss| && k <= |tt| && forall i :: 0 <= i < k ==> |ss[i]| == |tt[i]|
    ensures |Flat(ss, k)| == |Flat(tt, k)|
    decreases k
  {
    if k > 0 {
      FlatCount(ss, tt, k - 1);
    }
  }

  lemma PairCount(g: Grid, h: Grid, f: Grid, n: nat, m: Mask, k: Mask, p: nat)
    requires IsWidth(n) && IsGrid(g, n) && IsGrid(h, n) && IsGrid(f, n) && p < Pairs(n)
    ensures |PairBits(g, f, n, m, p, n)| == |PairBits(h, f, n, k, p, n)|
  {
    FlatCount(PairRows(g, f, n, m, p), PairRows(h, f, n, k, p), n);
  }

  /** How many bits a symbol holds depends on the function modules only. */
  lemma WalkCount(g: Grid, h: Grid, f: Grid, n: nat, m: Mask, k: Mask)
    requires IsWidth(n) && IsGrid(g, n) && IsGrid(h, n) && IsGrid(f, n)
    ensures |SymbolBits(g, f, n, m)| == |SymbolBits(h, f, n, k)|
  {
    var ss, tt := WalkPairs(g, f, n, m), WalkPairs(h, f, n, k);
    forall p | 0 <= p < Pairs(n) ensures |ss[p]| == |tt[p]| {
      PairCount(g, h, f, n, m, k, p);
    }
    FlatCount(ss, tt, Pairs(n));
  }

  // ---------------------------------------------------------------------------
  // The bits determine the modules

  lemma SplitEqual(a: BitSeq, b: BitSeq, c: BitSeq, d: BitSeq)
    requires |a| == |c| && a + b == c + d
    ensures a == c && b == d
  {
    assert a == (a + b)[..|a|] && c == (c + d)[..|c|];
    assert b == (a + b)[|a|..] && d == (c + d)[|c|..];
  }

  lemma RowDetermines(g: Grid, h: Grid, f: Grid, n: nat, m: Mask, p: nat, count: nat, col: nat)
    requires IsWidth(n) && IsGrid(g, n) && IsGrid(h, n) && IsGrid(f, n) && p < Pairs(n) && count < n && col < 2
    requires RowBits(g, f, n, m, p, count) == RowBits(h, f, n, m, p, count)
    ensures var x, y := PairColumn(n, p) - col, RowAt(n, p, count); f[x][y] || g[x][y] == h[x][y]
  {
    var x, y := PairColumn(n, p), RowAt(n, p, count);
    SplitEqual(CellBits(g, f, n, m, x, y), CellBits(g, f, n, m, x - 1, y),
               CellBits(h, f, n, m, x, y), CellBits(h, f, n, m, x - 1, y));
    if !f[x - col][y] {
      assert CellBits(g, f, n, m, x - col, y)[0] == CellBits(h, f, n, m, x - col, y)[0];
    }
  }

  /** Equal concatenations of pieces of equal lengths have equal pieces. */
  lemma {:induction false} FlatDetermines(ss: seq<BitSeq>, tt: seq<BitSeq>, k: nat, i: nat)
    requires i < k <= |ss| && k <= |tt| && (forall j :: 0 <= j < k ==> |ss[j]| == |tt[j]|)
    requires Flat(ss, k) == Flat(tt, k)
    ensures ss[i] == tt[i]
    decreases k
  {
    FlatCount(ss, tt, k - 1);
    SplitEqual(Flat(ss, k - 1), ss[k - 1], Flat(tt, k - 1), tt[k - 1]);
    if i < k - 1 {
      FlatDetermines(ss, tt, k - 1, i);
    }
  }

  lemma PairDetermines(g: Grid, h: Grid, f: Grid, n: nat, m: Mask, p: nat, c: nat)
    requires IsWidth(n) && IsGrid(g, n) && IsGrid(h, n) && IsGrid(f, n) && p < Pairs(n) && c < n
    requires PairBits(g, f, n, m, p, n) == PairBits(h, f, n, m, p, n)
    ensures RowBits(g, f, n, m, p, c) == RowBits(h, f, n, m, p, c)
  {
    FlatDetermines(PairRows(g, f, n, m, p), PairRows(h, f, n, m, p), n, c);
  }

  lemma WalkDetermines(g: Grid, h: Grid, f: Grid, n: nat, m: Mask, p: nat)
    requires IsWidth(n) && IsGrid(g, n) && IsGrid(h, n) && IsGrid(f, n) && p < Pairs(n)
    requires SymbolBits(g, f, n, m) == SymbolBits(h, f, n, m)
    ensures PairBits(g, f, n, m, p, n) == PairBits(h, f, n, m, p, n)
  {
    var ss, tt := WalkPairs(g, f, n, m), WalkPairs(h, f, n, m);
    forall q | 0 <= q < Pairs(n) ensures |ss[q]| == |tt[q]| {
      PairCount(g, h, f, n, m, m, q);
    }
    FlatDetermines(ss, tt, Pairs(n), p);
  }

  /** Two symbols with the same bits have the same data modules. */
  lemma BitsDetermine(g: Grid, h: Grid, f: Grid, n: nat, m: Mask, x: nat, y: nat)
    requires IsWidth(n) && IsGrid(g, n) && IsGrid(h, n) && IsGrid(f, n) && x < n && y < n && x != 6
    requires SymbolBits(g, f, n, m) == SymbolBits(h, f, n, m) && !f[x][y]
    ensures g[x][y] == h[x][y]
  {
    VisitReaches(x, y, n);
    var v := VisitOf(x, y, n);
    WalkDetermines(g, h, f, n, m, v.pair);
    PairDetermines(g, h, f, n, m, v.pair, v.count);
    RowDetermines(g, h, f, n, m, v.pair, v.count, v.col);
  }

  lemma GridsEqual(g: Grid, h: Grid, n: nat)
    requires IsGrid(g, n) && IsGrid(h, n)
    requires forall x, y :: 0 <= x < n && 0 <= y < n ==> g[x][y] == h[x][y]
    ensures g == h
  {
    forall x | 0 <= x < n ensures g[x] == h[x] {}
  }

  /** Symbols with the same bits and the same function modules are the same. */
  lemma SymbolDetermined(g: Grid, h: Grid, f: Grid, n: nat, m: Mask)
    requires IsWidth(n) && IsGrid(g, n) && IsGrid(h, n) && IsGrid(f, n)
    requires SymbolBits(g, f, n, m) == SymbolBits(h, f, n, m) && SameFixed(g, h, f, n)
    ensures g == h
  {
    forall x, y | 0 <= x < n && 0 <= y < n ensures g[x][y] == h[x][y] {
      if !f[x][y] && x != 6 {
        BitsDetermine(g, h, f, n, m, x, y);
      }
    }
    GridsEqual(g, h, n);
  }

  // ---------------------------------------------------------------------------
  // Patterns and data

  /** Reading the bits looks only at data modules. */
  lemma FreeFrame(g: Grid, h: Grid, f: Grid, n: nat, m: Mask)
    requires IsWidth(n) && IsGrid(g, n) && IsGrid(h, n) && IsGrid(f, n)
    requires forall x, y :: 0 <= x < n && 0 <= y < n && !f[x][y] ==> g[x][y] == h[x][y]
    ensures SymbolBits(g, f, n, m) == SymbolBits(h, f, n, m)
  {
    var ss, tt := WalkPairs(g, f, n, m), WalkPairs(h, f, n, m);
    forall p | 0 <= p < Pairs(n) ensures ss[p] == tt[p] {
      FlatFrame(PairRows(g, f, n, m, p), PairRows(h, f, n, m, p), n);
    }
    FlatFrame(ss, tt, Pairs(n));
  }

  /** p holds function modules only, and so does column 6. */
  ghost predicate OnFunctionModules(p: Cells, f: Grid, n: nat)
    requires IsGrid(f, n)
  {
    forall x, y :: 0 <= x < n && 0 <= y < n && (p(x, y) || x == 6) ==> f[x][y]
  }

  lemma PatternsOnFunctionModules(version: nat, level: nat, mask: nat)
    requires version >= 1
    ensures OnFunctionModules(PatternCells(version, level, mask), FunctionMap(version), Width(version))
  {
    PatternsAreMarked(version, level, mask);
    ColumnSixIsMarked(version);
  }

  lemma HoldsSameData(g: Grid, h: Grid, f: Grid, n: nat, m: Mask, bytes: seq<nat>)
    requires IsWidth(n) && IsGrid(g, n) && IsGrid(h, n) && IsGrid(f, n)
    requires HoldsData(g, f, n, m, bytes) && HoldsData(h, f, n, m, bytes)
    ensures SymbolBits(g, f, n, m) == SymbolBits(h, f, n, m)
  {
    WalkCount(g, h, f, n, m, m);
  }

  /** r is g with these codewords placed on its data modules. */
  ghost predicate DataPlaced(g: Grid, r: Grid, f: Grid, n: nat, m: Mask, bytes: seq<nat>)
    requires IsWidth(n) && IsGrid(g, n) && IsGrid(f, n)
  {
    IsGrid(r, n) && SameFixed(g, r, f, n) && HoldsData(r, f, n, m, bytes)
  }

  /** Drawing function patterns p and placing data commute. */
  lemma PatternsAndDataCommute(g: Grid, a: Grid, ab: Grid, b: Grid, ba: Grid,
                               f: Grid, n: nat, p: Cells, m: Mask, bytes: seq<nat>)
    requires IsWidth(n) && IsGrid(g, n) && IsGrid(f, n) && OnFunctionModules(p, f, n)
    requires Darkened(g, a, n, p) && DataPlaced(a, ab, f, n, m, bytes)
    requires DataPlaced(g, b, f, n, m, bytes) && Darkened(b, ba, n, p)
    ensures ab == ba
  {
    FreeFrame(b, ba, f, n, m);
    HoldsSameData(ab, b, f, n, m, bytes);
    forall x, y | 0 <= x < n && 0 <= y < n && (f[x][y] || x == 6) ensures ab[x][y] == ba[x][y] {
      assert ab[x][y] == a[x][y] && b[x][y] == g[x][y];
    }
    SymbolDetermined(ab, ba, f, n, m);
  }

  /** A finished symbol: its function modules show the patterns p, its data modules these codewords. */
  ghost predicate IsFinished(g: Grid, f: Grid, n: nat, p: Cells, m: Mask, bytes: seq<nat>)
    requires IsWidth(n) && IsGrid(f, n)
  {
    && IsGrid(g, n) && HoldsData(g, f, n, m, bytes)
    && forall x, y {:trigger g[x][y]} :: 0 <= x < n && 0 <= y < n && f[x][y] ==> g[x][y] == p(x, y)
  }

  /** There is only one. */
  lemma FinishedUnique(g: Grid, h: Grid, f: Grid, n: nat, p: Cells, m: Mask, bytes: seq<nat>)
    requires IsWidth(n) && IsGrid(f, n) && OnFunctionModules(p, f, n)
    requires IsFinished(g, f, n, p, m, bytes) && IsFinished(h, f, n, p, m, bytes)
    ensures g == h
  {
    HoldsSameData(g, h, f, n, m, bytes);
    SymbolDetermined(g, h, f, n, m);
  }

  /** Patterns on a blank matrix, then data, make a finished symbol. */
  lemma PatternsAndDataFinish(a: Grid, r: Grid, f: Grid, n: nat, p: Cells, m: Mask, bytes: seq<nat>)
    requires IsWidth(n) && IsGrid(f, n) && Darkened(BlankGrid(n), a, n, p) && DataPlaced(a, r, f, n, m, bytes)
    ensures IsFinished(r, f, n, p, m, bytes)
  {}

  /** The symbol of a version, level and mask for these codewords. */
  ghost predicate IsRendering(g: Grid, bytes: seq<nat>, version: nat, level: nat, mask: nat)
    requires version >= 1
  {
    IsFinished(g, FunctionMap(version), Width(version), PatternCells(version, level, mask), MaskOf(mask), bytes)
  }

  lemma AllFinishedUnique(f: Grid, n: nat, p: Cells, m: Mask, bytes: seq<nat>)
    requires IsWidth(n) && IsGrid(f, n) && OnFunctionModules(p, f, n)
    ensures forall g, h :: IsFinished(g, f, n, p, m, bytes) && IsFinished(h, f, n, p, m, bytes) ==> g == h
  {
    forall g, h | IsFinished(g, f, n, p, m, bytes) && IsFinished(h, f, n, p, m, bytes) ensures g == h {
      FinishedUnique(g, h, f, n, p, m, bytes);
    }
  }

  lemma RenderingUnique(g: Grid, h: Grid, bytes: seq<nat>, version: nat, level: nat, mask: nat)
    requires version >= 1
    requires IsRendering(g, bytes, version, level, mask) && IsRendering(h, bytes, version, level, mask)
    ensures g == h
  {
    PatternsOnFunctionModules(version, level, mask);
    AllFinishedUnique(FunctionMap(version), Width(version), PatternCells(version, level, mask), MaskOf(mask), bytes);
  }
}
