/** Where the bits of the codewords lie in the module matrix (sections 6.7 and 6.8 of
    ISO/IEC 18004:2006): the zigzag walk in column pairs, and the mask. */
module Placement {
  import opened BitStream

  /** Modules by column, then row. */
  type Grid = seq<seq<bool>>

  predicate IsGrid(g: Grid, n: nat) {
    |g| == n && forall x :: 0 <= x < n ==> |g[x]| == n
  }

  /** Symbol widths: 17 + 4 * version. */
  predicate IsWidth(n: nat) {
    n >= 21 && n % 2 == 1
  }

  function SetModule(g: Grid, x: nat, y: nat, v: bool): (r: Grid)
    requires x < |g| && y < |g[x]|
  {
    g[x := g[x][y := v]]
  }

  function BlankGrid(n: nat): (g: Grid)
    ensures IsGrid(g, n)
  {
    seq(n, _ => seq(n, _ => false))
  }

  // ---------------------------------------------------------------------------
  // The walk

  /** Number of column pairs. */
  function Pairs(n: nat): nat {
    n / 2
  }

  /** The right column of pair p; column 6 is skipped. */
  function PairColumn(n: nat, p: nat): nat
    requires IsWidth(n) && p < Pairs(n)
  {
    if n - 1 - 2 * p > 6 then n - 1 - 2 * p else n - 2 - 2 * p
  }

  /** The row visited at a step of pair p: upwards in even pairs. */
  function RowAt(n: nat, p: nat, count: nat): nat
    requires count < n
  {
    if p % 2 == 0 then n - 1 - count else count
  }

  /** One visit of the walk. */
  datatype Visit = Visit(pair: nat, count: nat, col: nat)

  ghost predicate IsVisit(v: Visit, n: nat) {
    v.pair < Pairs(n) && v.count < n && v.col < 2
  }

  ghost function ModuleOf(v: Visit, n: nat): (int, int)
    requires IsWidth(n) && IsVisit(v, n)
  {
    (PairColumn(n, v.pair) - v.col, RowAt(n, v.pair, v.count))
  }

  /** The visit to the module in column x and row y. */
  ghost function VisitOf(x: nat, y: nat, n: nat): Visit
    requires IsWidth(n) && x < n && x != 6 && y < n
  {
    var d := if x > 6 then n - 1 - x else n - 2 - x;
    Visit(d / 2, if d / 2 % 2 == 0 then n - 1 - y else y, d % 2)
  }

  lemma VisitReaches(x: nat, y: nat, n: nat)
    requires IsWidth(n) && x < n && x != 6 && y < n
    ensures IsVisit(VisitOf(x, y, n), n) && ModuleOf(VisitOf(x, y, n), n) == (x, y)
  {
    var d := if x > 6 then n - 1 - x else n - 2 - x;
    var q, r := d / 2, d % 2;
    assert d == 2 * q + r;
  }

  lemma VisitIsUnique(v: Visit, n: nat)
    requires IsWidth(n) && IsVisit(v, n)
    ensures var m := ModuleOf(v, n); 0 <= m.0 < n && m.0 != 6 && 0 <= m.1 < n && VisitOf(m.0, m.1, n) == v
  {
    var x := PairColumn(n, v.pair) - v.col;
    var d := if x > 6 then n - 1 - x else n - 2 - x;
    assert d == 2 * v.pair + v.col;
    assert d / 2 == v.pair && d % 2 == v.col;
  }

  /** The walk visits every module outside column 6 exactly once, and no module in column 6. */
  lemma WalkIsBijective(n: nat)
    requires IsWidth(n)
    ensures forall x, y :: 0 <= x < n && x != 6 && 0 <= y < n ==>
      IsVisit(VisitOf(x, y, n), n) && ModuleOf(VisitOf(x, y, n), n) == (x, y)
    ensures forall v :: IsVisit(v, n) ==>
      var m := ModuleOf(v, n);
      0 <= m.0 < n && m.0 != 6 && 0 <= m.1 < n && VisitOf(m.0, m.1, n) == v
  {
    forall x, y | 0 <= x < n && x != 6 && 0 <= y < n
      ensures IsVisit(VisitOf(x, y, n), n) && ModuleOf(VisitOf(x, y, n), n) == (x, y)
    {
      VisitReaches(x, y, n);
    }
    forall v | IsVisit(v, n)
      ensures var m := ModuleOf(v, n); 0 <= m.0 < n && m.0 != 6 && 0 <= m.1 < n && VisitOf(m.0, m.1, n) == v
    {
      VisitIsUnique(v, n);
    }
  }

  // ---------------------------------------------------------------------------
  // The mask

  /** The mask condition of pattern mask at column j, row i: the bit is inverted when this is 0. */
  function MaskValue(mask: nat, j: nat, i: nat): nat {
    match mask
    case 0 => (i + j) % 2
    case 1 => i % 2
    case 2 => j % 3
    case 3 => (i + j) % 3
    case 4 => (i / 2 + j / 3) % 2
    case 5 => i * j % 2 + i * j % 3
    case 6 => (i * j % 2 + i * j % 3) % 2
    case _ => ((i + j) % 2 + i * j % 3) % 2
  }

  /** The modules a mask inverts, by column and row. */
  type Mask = (nat, nat) -> bool

  function MaskOf(mask: nat): Mask {
    (j: nat, i: nat) => MaskValue(mask, j, i) == 0
  }

  /** Masking and unmasking are the same operation. */
  function Masked(m: Mask, j: nat, i: nat, f: bool): bool {
    if m(j, i) then !f else f
  }

  // ---------------------------------------------------------------------------
  // Reading the walk

  /** The unmasked bit of the module in column x, row y, if it carries data. */
  function CellBits(g: Grid, f: Grid, n: nat, m: Mask, x: nat, y: nat): (bs: BitSeq)
    requires IsGrid(g, n) && IsGrid(f, n) && x < n && y < n
    ensures |bs| == if f[x][y] then 0 else 1
  {
    if f[x][y] then [] else [Masked(m, x, y, g[x][y])]
  }

  function RowBits(g: Grid, f: Grid, n: nat, m: Mask, p: nat, count: nat): BitSeq
    requires IsWidth(n) && IsGrid(g, n) && IsGrid(f, n) && p < Pairs(n) && count < n
  {
    var x, y := PairColumn(n, p), RowAt(n, p, count);
    CellBits(g, f, n, m, x, y) + CellBits(g, f, n, m, x - 1, y)
  }

  /** The first k sequences, one after the other. */
  function Flat(ss: seq<BitSeq>, k: nat): BitSeq
    requires k <= |ss|
    decreases k
  {
    if k == 0 then [] else Flat(ss, k - 1) + ss[k - 1]
  }

  /** The data bits of each row of pair p. */
  function PairRows(g: Grid, f: Grid, n: nat, m: Mask, p: nat): (rows: seq<BitSeq>)
    requires IsWidth(n) && IsGrid(g, n) && IsGrid(f, n) && p < Pairs(n)
    ensures |rows| == n
  {
    seq(n, count requires 0 <= count < n => RowBits(g, f, n, m, p, count))
  }

  /** The data bits of the first count rows of pair p. */
  function PairBits(g: Grid, f: Grid, n: nat, m: Mask, p: nat, count: nat): BitSeq
    requires IsWidth(n) && IsGrid(g, n) && IsGrid(f, n) && p < Pairs(n) && count <= n
  {
    Flat(PairRows(g, f, n, m, p), count)
  }

  /** The data bits of each pair. */
  function WalkPairs(g: Grid, f: Grid, n: nat, m: Mask): (pairs: seq<BitSeq>)
    requires IsWidth(n) && IsGrid(g, n) && IsGrid(f, n)
    ensures |pairs| == Pairs(n)
  {
    seq(Pairs(n), p requires 0 <= p < Pairs(n) => PairBits(g, f, n, m, p, n))
  }

  /** The data bits of the first p pairs. */
  function WalkBits(g: Grid, f: Grid, n: nat, m: Mask, p: nat): BitSeq
    requires IsWidth(n) && IsGrid(g, n) && IsGrid(f, n) && p <= Pairs(n)
  {
    Flat(WalkPairs(g, f, n, m), p)
  }

  /** All data bits of the symbol, in the order of the walk. */
  function SymbolBits(g: Grid, f: Grid, n: nat, m: Mask): BitSeq
    requires IsWidth(n) && IsGrid(g, n) && IsGrid(f, n)
  {
    WalkBits(g, f, n, m, Pairs(n))
  }

  /** Every column the first p pairs use lies right of this one. */
  function PairLimit(n: nat, p: nat): int
    requires IsWidth(n) && p <= Pairs(n)
  {
    if p < Pairs(n) then PairColumn(n, p) else -1
  }

  ghost predicate AgreeRightOf(g: Grid, h: Grid, limit: int) {
    |g| == |h| && forall x :: 0 <= x < |g| && limit < x ==> g[x] == h[x]
  }

  lemma {:induction false} FlatFrame(ss: seq<BitSeq>, tt: seq<BitSeq>, k: nat)
    requires k <= |ss| && k <= |tt| && forall i :: 0 <= i < k ==> ss[i] == tt[i]
    ensures Flat(ss, k) == Flat(tt, k)
    decreases k
  {
    if k > 0 {
      FlatFrame(ss, tt, k - 1);
    }
  }

  ghost predicate RowsAgree(g: Grid, h: Grid, n: nat, p: nat, count: nat)
    requires IsWidth(n) && IsGrid(g, n) && IsGrid(h, n) && p < Pairs(n) && count <= n
  {
    forall c :: 0 <= c < count ==> RowAgrees(g, h, n, p, c)
  }

  ghost predicate RowAgrees(g: Grid, h: Grid, n: nat, p: nat, c: nat)
    requires IsWidth(n) && IsGrid(g, n) && IsGrid(h, n) && p < Pairs(n) && c < n
  {
    var x, y := PairColumn(n, p), RowAt(n, p, c);
    g[x][y] == h[x][y] && g[x - 1][y] == h[x - 1][y]
  }

  lemma PairFrame(g: Grid, h: Grid, f: Grid, n: nat, m: Mask, p: nat, count: nat)
    requires IsWidth(n) && IsGrid(g, n) && IsGrid(h, n) && IsGrid(f, n) && p < Pairs(n) && count <= n
    requires RowsAgree(g, h, n, p, count)
    ensures PairBits(g, f, n, m, p, count) == PairBits(h, f, n, m, p, count)
  {
    var ss, tt := PairRows(g, f, n, m, p), PairRows(h, f, n, m, p);
    forall c | 0 <= c < count ensures ss[c] == tt[c] {
      assert RowAgrees(g, h, n, p, c);
    }
    FlatFrame(ss, tt, count);
  }

  lemma ColumnsAgree(g: Grid, h: Grid, n: nat, p: nat, q: nat)
    requires IsWidth(n) && IsGrid(g, n) && IsGrid(h, n) && q < p <= Pairs(n) && AgreeRightOf(g, h, PairLimit(n, p))
    ensures RowsAgree(g, h, n, q, n)
  {
    assert g[PairColumn(n, q)] == h[PairColumn(n, q)];
    assert g[PairColumn(n, q) - 1] == h[PairColumn(n, q) - 1];
  }

  /** Reading the first pairs looks only at their columns. */
  lemma WalkFrame(g: Grid, h: Grid, f: Grid, n: nat, m: Mask, p: nat)
    requires IsWidth(n) && IsGrid(g, n) && IsGrid(h, n) && IsGrid(f, n) && p <= Pairs(n)
    requires AgreeRightOf(g, h, PairLimit(n, p))
    ensures WalkBits(g, f, n, m, p) == WalkBits(h, f, n, m, p)
  {
    var ss, tt := WalkPairs(g, f, n, m), WalkPairs(h, f, n, m);
    forall q | 0 <= q < p ensures ss[q] == tt[q] {
      ColumnsAgree(g, h, n, p, q);
      PairFrame(g, h, f, n, m, q, n);
    }
    FlatFrame(ss, tt, p);
  }

  // ---------------------------------------------------------------------------
  // The bits to be placed

  /** Bit k of the codewords; past their end, zero. */
  function DataBit(bytes: seq<nat>, k: nat): bool {
    k / 8 < |bytes| && BitAt(bytes[k / 8], 7 - k % 8)
  }

  function DataBits(bytes: seq<nat>, k: nat): (bs: BitSeq)
    ensures |bs| == k
  {
    seq(k, i requires 0 <= i < k => DataBit(bytes, i))
  }

  /** The data modules hold the codewords bit by bit, and zeros (before masking) behind them. */
  ghost predicate HoldsData(g: Grid, f: Grid, n: nat, m: Mask, bytes: seq<nat>)
    requires IsWidth(n) && IsGrid(g, n) && IsGrid(f, n)
  {
    var bits := SymbolBits(g, f, n, m);
    bits == DataBits(bytes, |bits|)
  }

  /** Codewords read from a walk that holds DataBits are the codewords, then zeros. */
  lemma DataBitsPrefix(bytes: seq<nat>, k: nat)
    requires 8 * |bytes| <= k
    ensures DataBits(bytes, k)[..8 * |bytes|] == ByteBits(bytes)
  {}

  // ---------------------------------------------------------------------------
  // Writing a cell

  /** The grid with data bit d, masked, in column x and row y, unless the module carries no data. */
  function Written(g: Grid, f: Grid, n: nat, m: Mask, x: nat, y: nat, d: bool): (r: Grid)
    requires IsGrid(g, n) && IsGrid(f, n) && x < n && y < n
    ensures IsGrid(r, n)
  {
    if f[x][y] then g else SetModule(g, x, y, Masked(m, x, y, d))
  }

  /** What has been placed so far: the first pairs and the first rows of pair p hold DataBits. */
  ghost predicate Placed(g: Grid, f: Grid, n: nat, m: Mask, p: nat, count: nat, bytes: seq<nat>, k: nat)
    requires IsWidth(n) && IsGrid(g, n) && IsGrid(f, n) && p < Pairs(n) && count <= n
  {
    WalkBits(g, f, n, m, p) + PairBits(g, f, n, m, p, count) == DataBits(bytes, k)
  }

  /** Only data modules may differ. */
  ghost predicate SameFixed(g: Grid, h: Grid, f: Grid, n: nat)
    requires IsGrid(g, n) && IsGrid(h, n) && IsGrid(f, n)
  {
    forall x, y :: 0 <= x < n && 0 <= y < n && (f[x][y] || x == 6) ==> g[x][y] == h[x][y]
  }

  /** The grid after placing one row of pair p from bit k on, and the number of bits placed. */
  function RowWritten(g: Grid, f: Grid, n: nat, m: Mask, p: nat, count: nat, bytes: seq<nat>, k: nat): (r: Grid)
    requires IsWidth(n) && IsGrid(g, n) && IsGrid(f, n) && p < Pairs(n) && count < n
    ensures IsGrid(r, n)
  {
    var x, y := PairColumn(n, p), RowAt(n, p, count);
    var g1 := Written(g, f, n, m, x, y, DataBit(bytes, k));
    Written(g1, f, n, m, x - 1, y, DataBit(bytes, Next(f, n, x, y, k)))
  }

  function Next(f: Grid, n: nat, x: nat, y: nat, k: nat): nat
    requires IsGrid(f, n) && x < n && y < n
  {
    if f[x][y] then k else k + 1
  }

  function NextRow(f: Grid, n: nat, p: nat, count: nat, k: nat): nat
    requires IsWidth(n) && IsGrid(f, n) && p < Pairs(n) && count < n
  {
    var x, y := PairColumn(n, p), RowAt(n, p, count);
    Next(f, n, x - 1, y, Next(f, n, x, y, k))
  }

  lemma RowWrittenFrame(g: Grid, f: Grid, n: nat, m: Mask, p: nat, count: nat, bytes: seq<nat>, k: nat)
    requires IsWidth(n) && IsGrid(g, n) && IsGrid(f, n) && p < Pairs(n) && count < n
    ensures var r := RowWritten(g, f, n, m, p, count, bytes, k);
      AgreeRightOf(g, r, PairLimit(n, p)) && RowsAgree(g, r, n, p, count) && SameFixed(g, r, f, n)
  {
    var r := RowWritten(g, f, n, m, p, count, bytes, k);
    forall c | 0 <= c < count ensures RowAgrees(g, r, n, p, c) {}
  }

  /** What a module carries once it is written. */
  lemma CellWritten(g: Grid, f: Grid, n: nat, m: Mask, x: nat, y: nat, d: bool)
    requires IsGrid(g, n) && IsGrid(f, n) && x < n && y < n
    ensures CellBits(Written(g, f, n, m, x, y, d), f, n, m, x, y) == if f[x][y] then [] else [d]
  {}

  lemma NextBits(f: Grid, n: nat, x: nat, y: nat, bytes: seq<nat>, k: nat)
    requires IsGrid(f, n) && x < n && y < n
    ensures DataBits(bytes, Next(f, n, x, y, k)) == DataBits(bytes, k) + if f[x][y] then [] else [DataBit(bytes, k)]
  {}

  lemma RowWrittenBits(g: Grid, f: Grid, n: nat, m: Mask, p: nat, count: nat, bytes: seq<nat>, k: nat)
    requires IsWidth(n) && IsGrid(g, n) && IsGrid(f, n) && p < Pairs(n) && count < n
    ensures var r := RowWritten(g, f, n, m, p, count, bytes, k);
      DataBits(bytes, k) + RowBits(r, f, n, m, p, count) == DataBits(bytes, NextRow(f, n, p, count, k))
  {
    var x, y := PairColumn(n, p), RowAt(n, p, count);
    var k1 := Next(f, n, x, y, k);
    var g1 := Written(g, f, n, m, x, y, DataBit(bytes, k));
    var r := Written(g1, f, n, m, x - 1, y, DataBit(bytes, k1));
    CellWritten(g, f, n, m, x, y, DataBit(bytes, k));
    CellWritten(g1, f, n, m, x - 1, y, DataBit(bytes, k1));
    assert r[x] == g1[x];
    NextBits(f, n, x, y, bytes, k);
    NextBits(f, n, x - 1, y, bytes, k1);
    AppendTwo(DataBits(bytes, k), CellBits(r, f, n, m, x, y), CellBits(r, f, n, m, x - 1, y));
  }

  lemma AppendTwo(a: BitSeq, b: BitSeq, c: BitSeq)
    ensures a + (b + c) == (a + b) + c
  {}

  /** Placing one row's two bits goes on with DataBits and leaves everything else alone. */
  lemma RowPlaced(g: Grid, f: Grid, n: nat, m: Mask, p: nat, count: nat, bytes: seq<nat>, k: nat)
    requires IsWidth(n) && IsGrid(g, n) && IsGrid(f, n) && p < Pairs(n) && count < n
    requires Placed(g, f, n, m, p, count, bytes, k)
    ensures var r := RowWritten(g, f, n, m, p, count, bytes, k);
      Placed(r, f, n, m, p, count + 1, bytes, NextRow(f, n, p, count, k)) && SameFixed(g, r, f, n)
  {
    var r := RowWritten(g, f, n, m, p, count, bytes, k);
    RowWrittenFrame(g, f, n, m, p, count, bytes, k);
    WalkFrame(g, r, f, n, m, p);
    PairFrame(g, r, f, n, m, p, count);
    RowWrittenBits(g, f, n, m, p, count, bytes, k);
  }
}
