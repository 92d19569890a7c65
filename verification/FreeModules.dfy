/** The room of every symbol: counting the modules outside the function patterns. */
module FreeModules {
  import opened BitStream
  import opened QRTables
  import opened Placement
  import opened FunctionPatterns
  import opened Centres

  // ---------------------------------------------------------------------------
  // Counting along the walk

  /** Number of unmarked modules in a stretch of a column. */
  function Free(col: seq<bool>): nat {
    if |col| == 0 then 0 else Free(col[..|col| - 1]) + if col[|col| - 1] then 0 else 1
  }

  lemma {:induction false} FreeConcat(a: seq<bool>, b: seq<bool>)
    ensures Free(a + b) == Free(a) + Free(b)
    decreases |b|
  {
    if |b| == 0 {
      assert a + b == a;
    } else {
      FreeConcat(a, b[..|b| - 1]);
      assert (a + b)[..|a + b| - 1] == a + b[..|b| - 1];
    }
  }

  /** The part of a column that the first count rows of an upward or downward pair cover. */
  function Covered(col: seq<bool>, up: bool, count: nat): seq<bool>
    requires count <= |col|
  {
    if up then col[|col| - count..] else col[..count]
  }

  lemma CoveredStep(col: seq<bool>, up: bool, count: nat)
    requires count < |col|
    ensures Free(Covered(col, up, count + 1))
         == Free(Covered(col, up, count)) + if col[if up then |col| - 1 - count else count] then 0 else 1
  {
    if up {
      var i := |col| - 1 - count;
      assert col[i..] == [col[i]] + col[i + 1..];
      FreeConcat([col[i]], col[i + 1..]);
    } else {
      assert col[..count + 1] == col[..count] + [col[count]];
      FreeConcat(col[..count], [col[count]]);
    }
  }

  lemma {:induction false} PairLength(g: Grid, f: Grid, n: nat, m: Mask, p: nat, count: nat)
    requires IsWidth(n) && IsGrid(g, n) && IsGrid(f, n) && p < Pairs(n) && count <= n
    ensures var x, up := PairColumn(n, p), p % 2 == 0;
      |PairBits(g, f, n, m, p, count)| == Free(Covered(f[x], up, count)) + Free(Covered(f[x - 1], up, count))
    decreases count
  {
    if count > 0 {
      var x, up := PairColumn(n, p), p % 2 == 0;
      PairLength(g, f, n, m, p, count - 1);
      CoveredStep(f[x], up, count - 1);
      CoveredStep(f[x - 1], up, count - 1);
    }
  }

  /** Unmarked modules in columns x and to its right, without column 6. */
  function FreeRight(f: Grid, x: nat): nat
    decreases |f| - x
  {
    if x >= |f| then 0 else (if x == 6 then 0 else Free(f[x])) + FreeRight(f, x + 1)
  }

  lemma FreeRightPair(f: Grid, n: nat, p: nat)
    requires IsWidth(n) && |f| == n && 0 < p <= Pairs(n)
    ensures var x := PairColumn(n, p - 1);
      FreeRight(f, PairLimit(n, p) + 1) == Free(f[x - 1]) + Free(f[x]) + FreeRight(f, PairLimit(n, p - 1) + 1)
  {
    var x := PairColumn(n, p - 1);
    assert FreeRight(f, x - 1) == Free(f[x - 1]) + FreeRight(f, x);
    assert FreeRight(f, x) == Free(f[x]) + FreeRight(f, x + 1);
    if PairLimit(n, p) + 1 != x - 1 {
      assert FreeRight(f, 6) == FreeRight(f, 7);
    }
  }

  lemma PairFree(g: Grid, f: Grid, n: nat, m: Mask, p: nat)
    requires IsWidth(n) && IsGrid(g, n) && IsGrid(f, n) && p < Pairs(n)
    ensures var x := PairColumn(n, p); |PairBits(g, f, n, m, p, n)| == Free(f[x]) + Free(f[x - 1])
  {
    var x, up := PairColumn(n, p), p % 2 == 0;
    PairLength(g, f, n, m, p, n);
    assert Covered(f[x], up, n) == f[x] && Covered(f[x - 1], up, n) == f[x - 1];
  }

  /** A sequence of pieces whose lengths are the free modules of the pairs. */
  lemma {:induction false} FlatLength(ss: seq<BitSeq>, f: Grid, n: nat, p: nat)
    requires IsWidth(n) && |f| == n && p <= Pairs(n) == |ss|
    requires forall q :: 0 <= q < p ==> |ss[q]| == Free(f[PairColumn(n, q)]) + Free(f[PairColumn(n, q) - 1])
    ensures |Flat(ss, p)| == FreeRight(f, PairLimit(n, p) + 1)
    decreases p
  {
    if p > 0 {
      FlatLength(ss, f, n, p - 1);
      FreeRightPair(f, n, p);
    }
  }

  lemma SymbolLength(g: Grid, f: Grid, n: nat, m: Mask)
    requires IsWidth(n) && IsGrid(g, n) && IsGrid(f, n)
    ensures |SymbolBits(g, f, n, m)| == FreeRight(f, 0)
  {
    forall q | 0 <= q < Pairs(n)
      ensures |WalkPairs(g, f, n, m)[q]| == Free(f[PairColumn(n, q)]) + Free(f[PairColumn(n, q) - 1])
    {
      PairFree(g, f, n, m, q);
    }
    FlatLength(WalkPairs(g, f, n, m), f, n, Pairs(n));
  }

  // ---------------------------------------------------------------------------
  // Counting marks in a column

  /** Number of y below n in p. */
  function Count(p: int -> bool, n: nat): nat {
    if n == 0 then 0 else Count(p, n - 1) + if p(n - 1) then 1 else 0
  }

  lemma {:induction false} CountUnion(p: int -> bool, q: int -> bool, r: int -> bool, n: nat)
    requires forall y: nat :: y < n ==> (p(y) <==> q(y) || r(y)) && !(q(y) && r(y))
    ensures Count(p, n) == Count(q, n) + Count(r, n)
  {
    if n > 0 {
      CountUnion(p, q, r, n - 1);
    }
  }

  lemma {:induction false} CountSpan(p: int -> bool, lo: nat, len: nat, n: nat)
    requires forall y: nat :: y < n ==> (p(y) <==> lo <= y < lo + len)
    ensures Count(p, n) == if n <= lo then 0 else if n <= lo + len then n - lo else len
  {
    if n > 0 {
      CountSpan(p, lo, len, n - 1);
    }
  }

  lemma {:induction false} FreeIsCount(col: seq<bool>, p: int -> bool, k: nat)
    requires k <= |col| && forall y :: 0 <= y < |col| ==> col[y] == p(y)
    ensures Free(col[..k]) == k - Count(p, k)
  {
    if k > 0 {
      FreeIsCount(col, p, k - 1);
      assert col[..k][..k - 1] == col[..k - 1];
    }
  }

  // ---------------------------------------------------------------------------
  // Alignment patterns

  /** Rows that the first j patterns of column i of the alignment grid take of one column of modules,
      row 6 not counted. */
  function ColumnWeight(k: nat, i: nat, j: nat): nat
    decreases j
  {
    if j == 0 then 0
    else ColumnWeight(k, i, j - 1) + if Skipped(i, j - 1, k) then 0 else if j == 1 then 4 else 5
  }

  predicate Near(x: int, c: nat) {
    c as int - 2 <= x < c as int + 3
  }

  function ColumnMarks(c: seq<nat>, i: nat, j: nat, x: int): int -> bool
    requires i < |c| && j <= |c|
  {
    y => InColumn(Box(5, 5), c, i, j, x, y) && y != 6
  }

  function PatternMarks(a: nat): int -> bool {
    y => a as int - 2 <= y < a as int + 3 && y != 6
  }

  lemma PatternCount(a: nat, n: nat)
    requires (a == 6 || a >= 9) && a + 3 <= n
    ensures Count(PatternMarks(a), n) == if a == 6 then 4 else 5
  {
    if a == 6 {
      var q: int -> bool, r: int -> bool := y => 4 <= y < 6, y => 7 <= y < 9;
      CountSpan(q, 4, 2, n);
      CountSpan(r, 7, 2, n);
      CountUnion(PatternMarks(6), q, r, n);
    } else {
      CountSpan(PatternMarks(a), a - 2, 5, n);
    }
  }

  lemma InnerCentre(c: seq<nat>, n: nat, i: nat)
    requires AreApart(c, n) && i < |c|
    ensures if i == 0 then c[i] == 6 else if i == |c| - 1 then c[i] + 7 == n else 18 <= c[i] && c[i] + 19 <= n
  {
    if 0 < i < |c| - 1 {
      assert c[0] + 12 <= c[i] && c[i] + 12 <= c[|c| - 1];
    }
  }

  /** Earlier patterns of a column lie above the next one. */
  lemma {:induction false} BeforeInColumn(c: seq<nat>, n: nat, i: nat, j: nat, next: nat, x: int, y: int)
    requires AreApart(c, n) && i < |c| && j <= next < |c| && InColumn(Box(5, 5), c, i, j, x, y)
    ensures y + 2 < c[next]
    decreases j
  {
    assert c[j - 1] + 12 <= c[next];
    if InColumn(Box(5, 5), c, i, j - 1, x, y) {
      BeforeInColumn(c, n, i, j - 1, next, x, y);
    }
  }

  lemma {:induction false} ColumnCount(c: seq<nat>, i: nat, j: nat, x: int, n: nat)
    requires AreApart(c, n) && i < |c| && j <= |c|
    ensures Count(ColumnMarks(c, i, j, x), n) == if Near(x, c[i]) then ColumnWeight(|c|, i, j) else 0
    decreases j
  {
    if j == 0 || !Near(x, c[i]) {
      NotInColumn(c, i, j, x);
      CountSpan(ColumnMarks(c, i, j, x), 0, 0, n);
    } else {
      ColumnCount(c, i, j - 1, x, n);
      ColumnCountStep(c, i, j - 1, x, n);
    }
  }

  lemma ColumnCountStep(c: seq<nat>, i: nat, j: nat, x: int, n: nat)
    requires AreApart(c, n) && i < |c| && j < |c| && Near(x, c[i])
    ensures Count(ColumnMarks(c, i, j + 1, x), n)
         == Count(ColumnMarks(c, i, j, x), n) + if Skipped(i, j, |c|) then 0 else if j == 0 then 4 else 5
  {
    var p, q := ColumnMarks(c, i, j + 1, x), ColumnMarks(c, i, j, x);
    if Skipped(i, j, |c|) {
      CountSpan(y => false, 0, 0, n);
      CountUnion(p, q, y => false, n);
    } else {
      forall y: nat | y < n && q(y) ensures !PatternMarks(c[j])(y) {
        BeforeInColumn(c, n, i, j, j, x, y);
      }
      InnerCentre(c, n, j);
      PatternCount(c[j], n);
      CountUnion(p, q, PatternMarks(c[j]), n);
    }
  }

  lemma NotInColumn(c: seq<nat>, i: nat, j: nat, x: int)
    requires i < |c| && j <= |c| && (j == 0 || !Near(x, c[i]))
    ensures forall y :: !ColumnMarks(c, i, j, x)(y)
  {
    forall y ensures !InColumn(Box(5, 5), c, i, j, x, y) {
      OutsideColumn(c, i, j, x, y);
    }
  }

  lemma {:induction false} OutsideColumn(c: seq<nat>, i: nat, j: nat, x: int, y: int)
    requires i < |c| && j <= |c| && (j == 0 || !Near(x, c[i]))
    ensures !InColumn(Box(5, 5), c, i, j, x, y)
    decreases j
  {
    if j > 0 {
      OutsideColumn(c, i, j - 1, x, y);
    }
  }

  function AlignmentMarks(c: seq<nat>, i: nat, x: int): int -> bool
    requires i <= |c|
  {
    y => InAlignment(Box(5, 5), c, i, x, y) && y != 6
  }

  /** What the first i columns of patterns take of column x. */
  function AlignmentWeight(c: seq<nat>, i: nat, x: int): nat
    requires i <= |c|
  {
    if i == 0 then 0
    else AlignmentWeight(c, i - 1, x) + if Near(x, c[i - 1]) then ColumnWeight(|c|, i - 1, |c|) else 0
  }

  /** Earlier columns of patterns lie to the left of the next one. */
  lemma {:induction false} BeforeInRows(c: seq<nat>, n: nat, i: nat, next: nat, x: int, y: int)
    requires AreApart(c, n) && i <= next < |c| && InAlignment(Box(5, 5), c, i, x, y)
    ensures x + 2 < c[next]
    decreases i
  {
    assert c[i - 1] + 12 <= c[next];
    if InAlignment(Box(5, 5), c, i - 1, x, y) {
      BeforeInRows(c, n, i - 1, next, x, y);
    } else if !Near(x, c[i - 1]) {
      OutsideColumn(c, i - 1, |c|, x, y);
    }
  }

  lemma ColumnsApart(c: seq<nat>, n: nat, i: nat, x: int)
    requires AreApart(c, n) && i < |c|
    ensures var p, q := AlignmentMarks(c, i, x), ColumnMarks(c, i, |c|, x);
      forall y: nat :: y < n ==> !(p(y) && q(y))
  {
    var p, q := AlignmentMarks(c, i, x), ColumnMarks(c, i, |c|, x);
    if Near(x, c[i]) {
      forall y: nat | y < n ensures !p(y) {
        if p(y) {
          BeforeInRows(c, n, i, i, x, y);
        }
      }
    } else {
      NotInColumn(c, i, |c|, x);
    }
  }

  lemma {:induction false} AlignmentCount(c: seq<nat>, i: nat, x: int, n: nat)
    requires AreApart(c, n) && i <= |c|
    ensures Count(AlignmentMarks(c, i, x), n) == AlignmentWeight(c, i, x)
    decreases i
  {
    if i == 0 {
      CountSpan(AlignmentMarks(c, i, x), 0, 0, n);
    } else {
      AlignmentCount(c, i - 1, x, n);
      ColumnCount(c, i - 1, |c|, x, n);
      ColumnsApart(c, n, i - 1, x);
      CountUnion(AlignmentMarks(c, i, x), AlignmentMarks(c, i - 1, x), ColumnMarks(c, i - 1, |c|, x), n);
    }
  }

  // ---------------------------------------------------------------------------
  // The other patterns

  /** What the corners, timing and version patterns take of column x. */
  function BaseWeight(version: nat, x: int): nat {
    var n := Width(version);
    if x < 9 then if version >= 7 && x < 6 then 20 else 17
    else if x < n - 8 then if version >= 7 && x >= n - 11 then 7 else 1
    else 9
  }

  function BaseColumn(version: nat, x: int): int -> bool {
    var n := Width(version);
    y => CornerMarks(n)(x, y) || TimingMarks(n)(x, y) || (version >= 7 && VersionMarks(n)(x, y))
  }

  lemma BaseRows(version: nat, x: int, y: int)
    requires version >= 1 && 0 <= x < Width(version) && x != 6
    ensures var n := Width(version);
      BaseColumn(version, x)(y) <==>
        if x < 9 then 0 <= y < 9 || n - (if version >= 7 && x < 6 then 11 else 8) <= y < n
        else if x < n - 8 then y == 6 || (version >= 7 && x >= n - 11 && 0 <= y < 6)
        else 0 <= y < 9
  {
    var n := Width(version);
    assert CornerMarks(n)(x, y) <==> (0 <= x < 9 && (0 <= y < 9 || n - 8 <= y < n)) || (n - 8 <= x && 0 <= y < 9);
    assert TimingMarks(n)(x, y) <==> 8 <= x < n - 8 && y == 6;
    assert VersionMarks(n)(x, y) <==> (0 <= x < 6 && n - 11 <= y < n - 8) || (n - 11 <= x < n - 8 && 0 <= y < 6);
  }

  lemma BaseCount(version: nat, x: int)
    requires version >= 1 && 0 <= x < Width(version) && x != 6
    ensures Count(BaseColumn(version, x), Width(version)) == BaseWeight(version, x)
  {
    var n, p := Width(version), BaseColumn(version, x);
    forall y: nat | y < n
      ensures p(y) <==>
        if x < 9 then y < 9 || n - (if version >= 7 && x < 6 then 11 else 8) <= y
        else if x < n - 8 then y == 6 || (version >= 7 && x >= n - 11 && y < 6)
        else y < 9
    {
      BaseRows(version, x, y);
    }
    if x < 9 {
      var len := if version >= 7 && x < 6 then 11 else 8;
      var q: int -> bool, r: int -> bool := y => 0 <= y < 9, y => n - len <= y < n;
      CountSpan(q, 0, 9, n);
      CountSpan(r, n - len, len, n);
      CountUnion(p, q, r, n);
    } else if x < n - 8 {
      var len := if version >= 7 && x >= n - 11 then 7 else 1;
      CountSpan(p, 7 - len, len, n);
    } else {
      CountSpan(p, 0, 9, n);
    }
  }

  function MarkedColumn(version: nat, x: int): int -> bool {
    y => MarkedCells(version)(x, y)
  }

  lemma MarksSplit(version: nat, x: int, y: int)
    requires version >= 1
    ensures var c := AlignmentPatterns(version);
      MarkedColumn(version, x)(y) <==> BaseColumn(version, x)(y) || InAlignment(Box(5, 5), c, |c|, x, y)
  {
    var n, c := Width(version), AlignmentPatterns(version);
    assert BaseMarks(n, c)(x, y) <==>
      CornerMarks(n)(x, y) || TimingMarks(n)(x, y) || InAlignment(Box(5, 5), c, |c|, x, y);
    assert MarkedCells(version)(x, y) <==> BaseMarks(n, c)(x, y) || (version >= 7 && VersionMarks(n)(x, y));
  }

  /** The centre whose pattern covers a module. */
  lemma {:induction false} CentreInColumn(c: seq<nat>, i: nat, j: nat, x: int, y: int) returns (k: nat)
    requires i < |c| && j <= |c| && InColumn(Box(5, 5), c, i, j, x, y)
    ensures k < |c| && !Skipped(i, k, |c|) && Near(x, c[i]) && Near(y, c[k])
    decreases j
  {
    k := j - 1;
    if InColumn(Box(5, 5), c, i, j - 1, x, y) {
      k := CentreInColumn(c, i, j - 1, x, y);
    }
  }

  lemma {:induction false} CentreOf(c: seq<nat>, i: nat, x: int, y: int) returns (h: nat, k: nat)
    requires i <= |c| && InAlignment(Box(5, 5), c, i, x, y)
    ensures h < |c| && k < |c| && !Skipped(h, k, |c|) && Near(x, c[h]) && Near(y, c[k])
    decreases i
  {
    if InAlignment(Box(5, 5), c, i - 1, x, y) {
      h, k := CentreOf(c, i - 1, x, y);
    } else {
      h := i - 1;
      k := CentreInColumn(c, i - 1, |c|, x, y);
    }
  }

  /** But for row 6, alignment patterns touch no other patterns. */
  lemma AlignmentIsApart(version: nat, c: seq<nat>, x: int, y: int)
    requires version >= 1 && AreApart(c, Width(version)) && 0 <= x < Width(version) && x != 6 && y != 6
    requires InAlignment(Box(5, 5), c, |c|, x, y)
    ensures !BaseColumn(version, x)(y)
  {
    var h, k := CentreOf(c, |c|, x, y);
    InnerCentre(c, Width(version), h);
    InnerCentre(c, Width(version), k);
    BaseRows(version, x, y);
  }

  lemma RowSixIsBase(version: nat, x: int)
    requires version >= 1 && 0 <= x < Width(version)
    ensures BaseColumn(version, x)(6)
  {
    var n := Width(version);
    if 9 <= x < n - 8 {
      assert TimingMarks(n)(x, 6);
    } else {
      assert CornerMarks(n)(x, 6);
    }
  }

  /** Column x has exactly its weight of marked modules. */
  lemma ColumnFree(version: nat, x: nat)
    requires 1 <= version <= 40 && x < Width(version) && x != 6
    ensures var c := AlignmentPatterns(version);
      Free(FunctionMap(version)[x]) + BaseWeight(version, x) + AlignmentWeight(c, |c|, x) == Width(version)
  {
    var n, c := Width(version), AlignmentPatterns(version);
    PatternsApart(version);
    MapColumn(version, x);
    BaseCount(version, x);
    AlignmentCount(c, |c|, x, n);
    forall y: nat | y < n
      ensures MarkedColumn(version, x)(y) <==> BaseColumn(version, x)(y) || AlignmentMarks(c, |c|, x)(y)
      ensures !(BaseColumn(version, x)(y) && AlignmentMarks(c, |c|, x)(y))
    {
      MarksSplit(version, x, y);
      RowSixIsBase(version, x);
      if AlignmentMarks(c, |c|, x)(y) {
        AlignmentIsApart(version, c, x, y);
      }
    }
    CountUnion(MarkedColumn(version, x), BaseColumn(version, x), AlignmentMarks(c, |c|, x), n);
  }

  lemma MapColumn(version: nat, x: nat)
    requires version >= 1 && x < Width(version)
    ensures Free(FunctionMap(version)[x]) == Width(version) - Count(MarkedColumn(version, x), Width(version))
  {
    var col := FunctionMap(version)[x];
    FreeIsCount(col, MarkedColumn(version, x), |col|);
    assert col[..|col|] == col;
  }

  // ---------------------------------------------------------------------------
  // Adding up

  lemma ColumnWeightIs(k: nat, i: nat)
    requires i < k && 2 <= k
    ensures ColumnWeight(k, i, k) == if i == 0 then 5 * (k - 2) else if i == k - 1 then 5 * (k - 1) else 5 * k - 1
  {
    ColumnWeightUpTo(k, i, k);
  }

  lemma {:induction false} ColumnWeightUpTo(k: nat, i: nat, j: nat)
    requires i < k && 2 <= k && j <= k
    ensures ColumnWeight(k, i, j) ==
      if j == 0 then 0
      else if i == 0 then 5 * (j - 1) - (if j == k then 5 else 0)
      else if i == k - 1 then 5 * (j - 1)
      else 5 * j - 1
    decreases j
  {
    if j > 0 {
      ColumnWeightUpTo(k, i, j - 1);
    }
  }

  /** Weights near one column of alignment patterns, added up from column x to column hi - 1. */
  function NearRight(a: nat, w: nat, x: nat, hi: nat): nat
    decreases hi - x
  {
    if x >= hi then 0 else (if x != 6 && Near(x, a) then w else 0) + NearRight(a, w, x + 1, hi)
  }

  lemma {:induction false} NearRightFar(a: nat, w: nat, x: nat, hi: nat)
    requires x >= a + 3
    ensures NearRight(a, w, x, hi) == 0
    decreases hi - x
  {
    if x < hi {
      NearRightFar(a, w, x + 1, hi);
    }
  }

  lemma {:induction false} NearRightBefore(a: nat, w: nat, x: nat, hi: nat)
    requires x + 2 <= a
    ensures NearRight(a, w, x, hi) == NearRight(a, w, a - 2, hi)
    decreases a - x
  {
    if x + 2 < a && x < hi {
      NearRightBefore(a, w, x + 1, hi);
    } else if x >= hi {
    }
  }

  /** Five columns are near, four if column 6 is one of them. */
  lemma NearRightAll(a: nat, w: nat, hi: nat)
    requires (a == 6 || a >= 9) && a + 3 <= hi
    ensures NearRight(a, w, 0, hi) == if a == 6 then 4 * w else 5 * w
  {
    NearRightBefore(a, w, 0, hi);
    NearRightFar(a, w, a + 3, hi);
    assert NearRight(a, w, a + 1, hi) == 2 * w;
    assert NearRight(a, w, a - 1, hi) == if a == 6 then 3 * w else 4 * w;
  }

  /** Alignment weights of the first i columns of patterns, added up from column x on. */
  function AlignmentRight(c: seq<nat>, i: nat, x: nat, hi: nat): nat
    requires i <= |c|
    decreases hi - x
  {
    if x >= hi then 0
    else (if x == 6 then 0 else AlignmentWeight(c, i, x)) + AlignmentRight(c, i, x + 1, hi)
  }

  lemma {:induction false} AlignmentRightStep(c: seq<nat>, i: nat, x: nat, hi: nat)
    requires i < |c|
    ensures AlignmentRight(c, i + 1, x, hi)
         == AlignmentRight(c, i, x, hi) + NearRight(c[i], ColumnWeight(|c|, i, |c|), x, hi)
    decreases hi - x
  {
    if x < hi {
      AlignmentRightStep(c, i, x + 1, hi);
    }
  }

  lemma {:induction false} AlignmentRightNone(c: seq<nat>, x: nat, hi: nat)
    ensures AlignmentRight(c, 0, x, hi) == 0
    decreases hi - x
  {
    if x < hi {
      AlignmentRightNone(c, x + 1, hi);
    }
  }

  /** All alignment weights: k by k patterns without three corners. */
  function AlignmentTotal(k: nat, i: nat): nat {
    if i == 0 then 0
    else AlignmentTotal(k, i - 1) + if i == 1 then 4 * ColumnWeight(k, 0, k) else 5 * ColumnWeight(k, i - 1, k)
  }

  lemma {:induction false} AlignmentRightAll(c: seq<nat>, i: nat, hi: nat)
    requires i <= |c| && AreApart(c, hi)
    ensures AlignmentRight(c, i, 0, hi) == AlignmentTotal(|c|, i)
    decreases i
  {
    if i == 0 {
      AlignmentRightNone(c, 0, hi);
    } else {
      AlignmentRightAll(c, i - 1, hi);
      AlignmentRightStep(c, i - 1, 0, hi);
      InnerCentre(c, hi, i - 1);
      NearRightAll(c[i - 1], ColumnWeight(|c|, i - 1, |c|), hi);
    }
  }

  /** Base weights from column x on. */
  function BaseRight(version: nat, x: nat): nat
    decreases Width(version) - x
  {
    if x >= Width(version) then 0 else (if x == 6 then 0 else BaseWeight(version, x)) + BaseRight(version, x + 1)
  }

  lemma {:induction false} BaseRightIs(version: nat, x: nat)
    requires version >= 1 && x <= Width(version)
    ensures var n := Width(version);
      var v := if version >= 7 then 1 else 0;
      BaseRight(version, x) ==
        if x >= n - 8 then 9 * (n - x)
        else if x >= 9 then 72 + (n - 8 - x) + (if v == 0 then 0 else if x >= n - 11 then 6 * (n - 8 - x) else 18)
        else 72 + (n - 17) + 18 * v + 17 * (if x > 6 then 9 - x else 8 - x)
             + (if v == 1 && x < 6 then 3 * (6 - x) else 0)
    decreases Width(version) - x
  {
    if x < Width(version) {
      BaseRightIs(version, x + 1);
    }
  }

  lemma BaseRightTotal(version: nat)
    requires version >= 1
    ensures BaseRight(version, 0) == 191 + Width(version) + (if version >= 7 then 36 else 0)
  {
    BaseRightIs(version, 0);
  }

  ghost predicate Weighted(f: Grid, version: nat, c: seq<nat>, x: nat)
    requires x < |f|
  {
    x == 6 || Free(f[x]) + BaseWeight(version, x) + AlignmentWeight(c, |c|, x) == |f|
  }

  /** Unmarked modules from column x on, and the weights there. */
  lemma {:induction false} FreeRightCount(f: Grid, version: nat, c: seq<nat>, x: nat)
    requires |f| == Width(version) && x <= |f|
    requires forall y :: 0 <= y < |f| ==> Weighted(f, version, c, y)
    ensures FreeRight(f, x) + BaseRight(version, x) + AlignmentRight(c, |c|, x, |f|)
        == Rows(|f| - x, |f|) - (if x <= 6 then |f| else 0)
    decreases |f| - x
  {
    if x < |f| {
      FreeRightCount(f, version, c, x + 1);
      assert Weighted(f, version, c, x);
    }
  }

  lemma AllWeighted(version: nat)
    requires 1 <= version <= 40
    ensures forall x :: 0 <= x < Width(version) ==>
      Weighted(FunctionMap(version), version, AlignmentPatterns(version), x)
  {
    forall x | 0 <= x < Width(version) ensures Weighted(FunctionMap(version), version, AlignmentPatterns(version), x) {
      if x != 6 {
        ColumnFree(version, x);
      }
    }
  }

  /** The count, in the numbers of the version. */
  lemma FreeCount(f: Grid, version: nat, c: seq<nat>)
    requires version >= 1 && |f| == Width(version) && AreApart(c, |f|)
    requires forall x :: 0 <= x < |f| ==> Weighted(f, version, c, x)
    ensures FreeRight(f, 0) + AlignmentTotal(|c|, |c|) + 2 * |f| + 191 + (if version >= 7 then 36 else 0)
         == Rows(|f|, |f|)
  {
    FreeRightCount(f, version, c, 0);
    BaseRightTotal(version);
    AlignmentRightAll(c, |c|, |f|);
  }

  lemma {:induction false} AlignmentTotalUpTo(k: nat, i: nat)
    requires 2 <= k <= 7 && i <= k
    ensures AlignmentTotal(k, i) ==
      if i == 0 then 0
      else if i < k then 20 * (k - 2) + Rows(i - 1, 25 * k - 5)
      else 20 * (k - 2) + Rows(k - 2, 25 * k - 5) + 25 * (k - 1)
    decreases i
  {
    if i > 0 {
      AlignmentTotalUpTo(k, i - 1);
      ColumnWeightIs(k, i - 1);
      ColumnWeightIs(k, 0);
    }
  }

  /** All alignment weights, by the number of patterns on a side. */
  lemma AlignmentTotals(k: nat)
    requires k == 0 || 2 <= k <= 7
    ensures AlignmentTotal(k, k) ==
      if k == 0 then 0 else if k == 2 then 25 else if k == 3 then 140 else if k == 4 then 305
      else if k == 5 then 520 else if k == 6 then 785 else 1100
  {
    if k > 0 {
      AlignmentTotalUpTo(k, k);
      RowsIsProduct(k - 2, 25 * k - 5);
      AlignmentSum(k, (25 * k - 5) * (k - 2));
    }
  }

  lemma AlignmentSum(k: nat, inner: nat)
    requires 2 <= k <= 7 && inner == (25 * k - 5) * (k - 2)
    ensures 20 * (k - 2) + inner + 25 * (k - 1) ==
      if k == 2 then 25 else if k == 3 then 140 else if k == 4 then 305
      else if k == 5 then 520 else if k == 6 then 785 else 1100
  {
    if k == 2 {
    } else if k == 3 {
    } else if k == 4 {
    } else if k == 5 {
    } else if k == 6 {
    } else {
      assert k == 7;
    }
  }

  /** Modules behind the last codeword. */
  function RemainderBits(version: nat): nat {
    if version <= 1 then 0 else if version <= 6 then 7 else if version <= 13 then 0 else if version <= 20 then 3
    else if version <= 27 then 4 else if version <= 34 then 3 else 0
  }

  /** What is left after the patterns is what the codewords and the remainder take. */
  ghost predicate AddsUp(version: nat) {
    var n, v, k := Width(version), if version >= 7 then 1 else 0, Side(version);
    var total := if k == 0 then 0 else if k == 2 then 25 else if k == 3 then 140 else if k == 4 then 305
                 else if k == 5 then 520 else if k == 6 then 785 else 1100;
    n * n == 2 * n + 191 + 36 * v + total + 8 * NCodewords(version) + RemainderBits(version)
  }

  lemma AddsUp1to13(version: nat)
    requires 1 <= version <= 13
    ensures AddsUp(version)
  {}

  lemma AddsUp14to27(version: nat)
    requires 14 <= version <= 27
    ensures AddsUp(version)
  {}

  lemma AddsUp28to40(version: nat)
    requires 28 <= version <= 40
    ensures AddsUp(version)
  {}

  lemma AlwaysAddsUp(version: nat)
    requires 1 <= version <= 40
    ensures AddsUp(version)
  {
    if version <= 13 {
      AddsUp1to13(version);
    } else if version <= 27 {
      AddsUp14to27(version);
    } else {
      AddsUp28to40(version);
    }
  }

  /** Every symbol has eight free modules for each of its codewords, and its remainder bits besides. */
  lemma RoomForCodewords(g: Grid, version: nat, m: Mask)
    requires 1 <= version <= 40 && IsGrid(g, Width(version))
    ensures |SymbolBits(g, FunctionMap(version), Width(version), m)| == 8 * NCodewords(version) + RemainderBits(version)
  {
    var n, c := Width(version), AlignmentPatterns(version);
    var k := |c|;
    SymbolLength(g, FunctionMap(version), n, m);
    PatternsApart(version);
    AllWeighted(version);
    FreeCount(FunctionMap(version), version, c);
    AlignmentTotals(k);
    RowsIsProduct(n, n);
    AlwaysAddsUp(version);
  }
}
