/** The order of the zigzag walk by coordinates: where it starts, and which module comes after which.  The
    bits of a symbol are those of its unmarked modules in that order (section 6.7.3 of ISO/IEC 18004:2006). */
module WalkOrder {
  import opened BitStream
  import opened Placement

  /** A module, and whether the walk goes up there. */
  datatype Spot = Spot(x: int, y: int, up: bool)

  /** Column pairs have their right column at even places right of column 6, at odd places left of it. */
  predicate IsRight(x: int) {
    if x > 6 then x % 2 == 0 else x % 2 == 1
  }

  /** From the right module of a row to the left one; from there to the right module of the neighbouring row;
      from the end of a pair of columns to the next pair, in the same row, the other way. */
  function NextSpot(s: Spot, n: nat): Spot {
    if IsRight(s.x) then Spot(s.x - 1, s.y, s.up)
    else if s.up && s.y > 0 then Spot(s.x + 1, s.y - 1, true)
    else if !s.up && s.y < n - 1 then Spot(s.x + 1, s.y + 1, false)
    else Spot(if s.x == 7 then 5 else s.x - 1, s.y, !s.up)
  }

  type Walk = nat -> Spot

  /** The walk starts in the lower right corner, going up. */
  ghost predicate IsWalk(spot: Walk, n: nat) {
    spot(0) == Spot(n - 1, n - 1, true) && forall i: nat {:trigger Continues(spot, n, i)} :: Continues(spot, n, i)
  }

  ghost predicate Continues(spot: Walk, n: nat, i: nat) {
    spot(i + 1) == NextSpot(spot(i), n)
  }

  predicate OnGrid(s: Spot, n: nat) {
    0 <= s.x < n && 0 <= s.y < n
  }

  /** The unmasked bit of a module, if it is not marked. */
  function SpotBits(g: Grid, f: Grid, n: nat, m: Mask, s: Spot): (bs: BitSeq)
    requires IsGrid(g, n) && IsGrid(f, n)
    ensures |bs| <= 1
  {
    if OnGrid(s, n) && !f[s.x][s.y] then [Masked(m, s.x, s.y, g[s.x][s.y])] else []
  }

  /** Those of the walk, one after the other. */
  function Spots(g: Grid, f: Grid, n: nat, m: Mask, spot: Walk): (ss: seq<BitSeq>)
    requires IsGrid(g, n) && IsGrid(f, n)
    ensures |ss| == PairStart(n, Pairs(n))
  {
    seq(PairStart(n, Pairs(n)), i requires 0 <= i < PairStart(n, Pairs(n)) => SpotBits(g, f, n, m, spot(i)))
  }

  /** How many of the first i modules are not marked. */
  function Unmarked(f: Grid, n: nat, spot: Walk, i: nat): nat
    requires IsGrid(f, n)
  {
    if i == 0 then 0
    else
      var s := spot(i - 1);
      Unmarked(f, n, spot, i - 1) + if OnGrid(s, n) && !f[s.x][s.y] then 1 else 0
  }

  // ---------------------------------------------------------------------------
  // The visits of the walk are these modules

  /** Where pair p starts. */
  function PairStart(n: nat, p: nat): nat {
    if p == 0 then 0 else PairStart(n, p - 1) + 2 * n
  }

  lemma {:induction false} PairStartMonotone(n: nat, p: nat, q: nat)
    requires p <= q
    ensures PairStart(n, p) <= PairStart(n, q)
  {
    if p < q {
      PairStartMonotone(n, p, q - 1);
    }
  }

  function SpotOf(n: nat, p: nat, count: nat, col: nat): Spot
    requires IsWidth(n) && p < Pairs(n) && count < n
  {
    Spot(PairColumn(n, p) - col, RowAt(n, p, count), p % 2 == 0)
  }

  lemma PairColumnIsRight(n: nat, p: nat)
    requires IsWidth(n) && p < Pairs(n)
    ensures 1 <= PairColumn(n, p) < n && IsRight(PairColumn(n, p)) && !IsRight(PairColumn(n, p) - 1)
    ensures p + 1 < Pairs(n) ==>
      PairColumn(n, p + 1) == if PairColumn(n, p) - 1 == 7 then 5 else PairColumn(n, p) - 2
    ensures p == 0 ==> PairColumn(n, p) == n - 1
  {
    var h := n / 2;
    assert n == 2 * h + 1;
  }

  lemma NextInPair(n: nat, p: nat, count: nat)
    requires IsWidth(n) && p < Pairs(n) && count < n
    ensures NextSpot(SpotOf(n, p, count, 0), n) == SpotOf(n, p, count, 1)
    ensures count + 1 < n ==> NextSpot(SpotOf(n, p, count, 1), n) == SpotOf(n, p, count + 1, 0)
    ensures count == n - 1 && p + 1 < Pairs(n) ==> NextSpot(SpotOf(n, p, count, 1), n) == SpotOf(n, p + 1, 0, 0)
  {
    PairColumnIsRight(n, p);
  }

  lemma SpotStep(spot: Walk, n: nat, i: nat, s: Spot)
    requires IsWalk(spot, n) && spot(i) == s
    ensures spot(i + 1) == NextSpot(s, n)
  {
    assert Continues(spot, n, i);
  }

  lemma {:induction false} RightSpotIs(spot: Walk, n: nat, p: nat, count: nat)
    requires IsWalk(spot, n) && IsWidth(n) && p < Pairs(n) && count < n
    ensures spot(PairStart(n, p) + 2 * count) == SpotOf(n, p, count, 0)
    decreases p, count
  {
    if count > 0 {
      RightSpotIs(spot, n, p, count - 1);
      TwoSteps(spot, n, PairStart(n, p) + 2 * (count - 1), p, count - 1);
    } else if p > 0 {
      RightSpotIs(spot, n, p - 1, n - 1);
      TwoSteps(spot, n, PairStart(n, p - 1) + 2 * (n - 1), p - 1, n - 1);
    } else {
      PairColumnIsRight(n, p);
    }
  }

  /** From the right module of a row to what comes after the left one. */
  lemma TwoSteps(spot: Walk, n: nat, i: nat, p: nat, count: nat)
    requires IsWalk(spot, n) && IsWidth(n) && p < Pairs(n) && count < n && spot(i) == SpotOf(n, p, count, 0)
    ensures spot(i + 1) == SpotOf(n, p, count, 1)
    ensures count + 1 < n ==> spot(i + 2) == SpotOf(n, p, count + 1, 0)
    ensures count == n - 1 && p + 1 < Pairs(n) ==> spot(i + 2) == SpotOf(n, p + 1, 0, 0)
  {
    NextInPair(n, p, count);
    SpotStep(spot, n, i, SpotOf(n, p, count, 0));
    SpotStep(spot, n, i + 1, SpotOf(n, p, count, 1));
  }

  lemma SpotIs(spot: Walk, n: nat, p: nat, count: nat)
    requires IsWalk(spot, n) && IsWidth(n) && p < Pairs(n) && count < n
    ensures spot(PairStart(n, p) + 2 * count) == SpotOf(n, p, count, 0)
    ensures spot(PairStart(n, p) + 2 * count + 1) == SpotOf(n, p, count, 1)
  {
    RightSpotIs(spot, n, p, count);
    TwoSteps(spot, n, PairStart(n, p) + 2 * count, p, count);
  }

  // ---------------------------------------------------------------------------
  // The bits

  lemma SpotIsCell(g: Grid, f: Grid, n: nat, m: Mask, spot: Walk, i: nat, x: nat, y: nat)
    requires IsGrid(g, n) && IsGrid(f, n) && x < n && y < n && spot(i).x == x && spot(i).y == y
    requires i < PairStart(n, Pairs(n))
    ensures Spots(g, f, n, m, spot)[i] == CellBits(g, f, n, m, x, y)
  {}

  lemma RowIsCells(g: Grid, f: Grid, n: nat, m: Mask, p: nat, count: nat, x: nat, y: nat)
    requires IsWidth(n) && IsGrid(g, n) && IsGrid(f, n) && p < Pairs(n) && count < n
    requires x == PairColumn(n, p) && y == RowAt(n, p, count)
    ensures 1 <= x < n && y < n
    ensures RowBits(g, f, n, m, p, count) == CellBits(g, f, n, m, x, y) + CellBits(g, f, n, m, x - 1, y)
  {}

  lemma RowIsSpots(g: Grid, f: Grid, n: nat, m: Mask, spot: Walk, p: nat, count: nat, i: nat)
    requires IsWalk(spot, n) && IsWidth(n) && IsGrid(g, n) && IsGrid(f, n) && p < Pairs(n) && count < n
    requires i == PairStart(n, p) + 2 * count && i + 1 < PairStart(n, Pairs(n))
    ensures RowBits(g, f, n, m, p, count) == Spots(g, f, n, m, spot)[i] + Spots(g, f, n, m, spot)[i + 1]
  {
    var x, y := PairColumn(n, p), RowAt(n, p, count);
    SpotIs(spot, n, p, count);
    RowIsCells(g, f, n, m, p, count, x, y);
    SpotsAreCells(g, f, n, m, spot, i, x, y);
  }

  lemma SpotsAreCells(g: Grid, f: Grid, n: nat, m: Mask, spot: Walk, i: nat, x: nat, y: nat)
    requires IsGrid(g, n) && IsGrid(f, n) && 1 <= x < n && y < n && i + 1 < PairStart(n, Pairs(n))
    requires spot(i).x == x && spot(i).y == y && spot(i + 1).x == x - 1 && spot(i + 1).y == y
    ensures Spots(g, f, n, m, spot)[i] == CellBits(g, f, n, m, x, y)
    ensures Spots(g, f, n, m, spot)[i + 1] == CellBits(g, f, n, m, x - 1, y)
  {
    SpotIsCell(g, f, n, m, spot, i, x, y);
    SpotIsCell(g, f, n, m, spot, i + 1, x - 1, y);
  }

  lemma FlatStep(ss: seq<BitSeq>, k: nat)
    requires k < |ss|
    ensures Flat(ss, k + 1) == Flat(ss, k) + ss[k]
  {}

  /** The rows are those sequences two by two, from k on. */
  ghost predicate AreRows(ss: seq<BitSeq>, rows: seq<BitSeq>, k: nat) {
    k + 2 * |rows| <= |ss| && forall c :: 0 <= c < |rows| ==> rows[c] == ss[k + 2 * c] + ss[k + 2 * c + 1]
  }

  ghost function RowsFrom(ss: seq<BitSeq>, k: nat): iset<seq<BitSeq>> {
    iset rows: seq<BitSeq> | AreRows(ss, rows, k)
  }

  lemma {:induction false} FlatRows(ss: seq<BitSeq>, rows: seq<BitSeq>, k: nat, j: nat)
    requires rows in RowsFrom(ss, k) && j <= |rows| && k + 2 * j <= |ss|
    ensures Flat(ss, k + 2 * j) == Flat(ss, k) + Flat(rows, j)
    decreases j
  {
    if j > 0 {
      var i := k + 2 * (j - 1);
      FlatRows(ss, rows, k, j - 1);
      FlatStep(ss, i);
      FlatStep(ss, i + 1);
      FlatStep(rows, j - 1);
      FourParts(Flat(ss, k), Flat(rows, j - 1), ss[i], ss[i + 1]);
    }
  }

  lemma FourParts(a: BitSeq, b: BitSeq, c: BitSeq, d: BitSeq)
    ensures ((a + b) + c) + d == a + (b + (c + d))
  {}

  lemma PairRowIsSpots(g: Grid, f: Grid, n: nat, m: Mask, spot: Walk, p: nat, count: nat, i: nat)
    requires IsWalk(spot, n) && IsWidth(n) && IsGrid(g, n) && IsGrid(f, n) && p < Pairs(n) && count < n
    requires i == PairStart(n, p) + 2 * count && i + 1 < PairStart(n, Pairs(n))
    ensures PairRows(g, f, n, m, p)[count] == Spots(g, f, n, m, spot)[i] + Spots(g, f, n, m, spot)[i + 1]
  {
    RowIsSpots(g, f, n, m, spot, p, count, i);
  }

  lemma PairIsSpots(g: Grid, f: Grid, n: nat, m: Mask, spot: Walk, p: nat)
    requires IsWalk(spot, n) && IsWidth(n) && IsGrid(g, n) && IsGrid(f, n) && p < Pairs(n)
    ensures PairRows(g, f, n, m, p) in RowsFrom(Spots(g, f, n, m, spot), PairStart(n, p))
  {
    PairStartMonotone(n, p + 1, Pairs(n));
    forall c | 0 <= c < n ensures var i := PairStart(n, p) + 2 * c;
      PairRows(g, f, n, m, p)[c] == Spots(g, f, n, m, spot)[i] + Spots(g, f, n, m, spot)[i + 1]
    {
      PairRowIsSpots(g, f, n, m, spot, p, c, PairStart(n, p) + 2 * c);
    }
  }

  /** Pair q is these rows, from its start on. */
  ghost predicate IsPair(ss: seq<BitSeq>, pair: BitSeq, rows: seq<BitSeq>, k: nat, next: nat, n: nat) {
    k + 2 * n == next <= |ss| && |rows| == n && rows in RowsFrom(ss, k) && pair == Flat(rows, n)
  }

  lemma {:induction false} FlatPairs(ss: seq<BitSeq>, pairs: seq<BitSeq>, rows: seq<seq<BitSeq>>, starts: seq<nat>,
                                     n: nat, p: nat)
    requires p <= |pairs| == |rows| == |starts| - 1 && starts[0] == 0
    requires forall q :: 0 <= q < |pairs| ==> IsPair(ss, pairs[q], rows[q], starts[q], starts[q + 1], n)
    ensures starts[p] <= |ss| && Flat(ss, starts[p]) == Flat(pairs, p)
    decreases p
  {
    if p > 0 {
      FlatPairs(ss, pairs, rows, starts, n, p - 1);
      assert IsPair(ss, pairs[p - 1], rows[p - 1], starts[p - 1], starts[p], n);
      FlatNext(ss, pairs, rows[p - 1], n, p, starts[p - 1], starts[p]);
    }
  }

  lemma FlatNext(ss: seq<BitSeq>, pairs: seq<BitSeq>, rows: seq<BitSeq>, n: nat, p: nat, k: nat, next: nat)
    requires 0 < p <= |pairs| && k + 2 * n == next <= |ss| && |rows| == n && rows in RowsFrom(ss, k)
    requires Flat(ss, k) == Flat(pairs, p - 1) && pairs[p - 1] == Flat(rows, n)
    ensures Flat(ss, next) == Flat(pairs, p)
  {
    FlatRows(ss, rows, k, n);
    FlatStep(pairs, p - 1);
  }

  /** The bits of a symbol are those of its unmarked modules, in the order of the walk. */
  lemma SymbolInOrder(g: Grid, f: Grid, n: nat, m: Mask, spot: Walk)
    requires IsWalk(spot, n) && IsWidth(n) && IsGrid(g, n) && IsGrid(f, n)
    ensures SymbolBits(g, f, n, m) == Flat(Spots(g, f, n, m, spot), PairStart(n, Pairs(n)))
  {
    var ss, pairs := Spots(g, f, n, m, spot), WalkPairs(g, f, n, m);
    var rows := seq(Pairs(n), p requires 0 <= p < Pairs(n) => PairRows(g, f, n, m, p));
    var starts := seq(Pairs(n) + 1, p requires 0 <= p <= Pairs(n) => PairStart(n, p));
    forall p | 0 <= p < Pairs(n) ensures IsPair(ss, pairs[p], rows[p], starts[p], starts[p + 1], n) {
      PairIsSpots(g, f, n, m, spot, p);
      PairStartMonotone(n, p + 1, Pairs(n));
    }
    FlatPairs(ss, pairs, rows, starts, n, Pairs(n));
  }

  // ---------------------------------------------------------------------------
  // Each module's bit

  lemma {:induction false} FlatAt(ss: seq<BitSeq>, i: nat, j: nat)
    requires i < j <= |ss| && |ss[i]| == 1
    ensures |Flat(ss, i)| < |Flat(ss, j)| && Flat(ss, j)[|Flat(ss, i)|] == ss[i][0]
    decreases j
  {
    if i < j - 1 {
      FlatAt(ss, i, j - 1);
    }
  }

  lemma {:induction false} UnmarkedAre(g: Grid, f: Grid, n: nat, m: Mask, spot: Walk, i: nat)
    requires IsGrid(g, n) && IsGrid(f, n) && i <= PairStart(n, Pairs(n))
    ensures |Flat(Spots(g, f, n, m, spot), i)| == Unmarked(f, n, spot, i)
    decreases i
  {
    if i > 0 {
      UnmarkedAre(g, f, n, m, spot, i - 1);
    }
  }

  /** The place of a module in the walk. */
  function PlaceInWalk(x: nat, y: nat, n: nat): nat
    requires IsWidth(n) && x < n && x != 6 && y < n
  {
    var d := if x > 6 then n - 1 - x else n - 2 - x;
    PairStart(n, d / 2) + 2 * (if d / 2 % 2 == 0 then n - 1 - y else y) + d % 2
  }

  lemma PlaceIs(spot: Walk, x: nat, y: nat, n: nat)
    requires IsWalk(spot, n) && IsWidth(n) && x < n && x != 6 && y < n
    ensures var s := spot(PlaceInWalk(x, y, n)); s.x == x && s.y == y
    ensures PlaceInWalk(x, y, n) < PairStart(n, Pairs(n))
  {
    VisitReaches(x, y, n);
    var v := VisitOf(x, y, n);
    SpotIs(spot, n, v.pair, v.count);
    PairStartMonotone(n, v.pair + 1, Pairs(n));
  }

  /** For every unmarked module outside column 6: the bit of the symbol whose number is that of the unmarked
      modules before it in the walk is its unmasked value. */
  lemma BitOfModule(g: Grid, f: Grid, n: nat, m: Mask, spot: Walk, x: nat, y: nat)
    requires IsWalk(spot, n) && IsWidth(n) && IsGrid(g, n) && IsGrid(f, n) && x < n && x != 6 && y < n && !f[x][y]
    ensures var s, k := spot(PlaceInWalk(x, y, n)), Unmarked(f, n, spot, PlaceInWalk(x, y, n));
      && s.x == x && s.y == y
      && k < |SymbolBits(g, f, n, m)| && SymbolBits(g, f, n, m)[k] == Masked(m, x, y, g[x][y])
  {
    var i, last, ss := PlaceInWalk(x, y, n), PairStart(n, Pairs(n)), Spots(g, f, n, m, spot);
    PlaceIs(spot, x, y, n);
    SymbolInOrder(g, f, n, m, spot);
    UnmarkedAre(g, f, n, m, spot, i);
    assert ss[i] == [Masked(m, x, y, g[x][y])];
    FlatAt(ss, i, last);
  }

  /** In a symbol that holds codewords, every such module carries the bit of the codewords whose number is that
      of the unmarked modules before it, inverted where the mask says so. */
  lemma ModuleHolds(g: Grid, f: Grid, n: nat, m: Mask, spot: Walk, bytes: seq<nat>, x: nat, y: nat)
    requires IsWalk(spot, n) && IsWidth(n) && IsGrid(g, n) && IsGrid(f, n) && x < n && x != 6 && y < n && !f[x][y]
    requires HoldsData(g, f, n, m, bytes)
    ensures g[x][y] == Masked(m, x, y, DataBit(bytes, Unmarked(f, n, spot, PlaceInWalk(x, y, n))))
  {
    BitOfModule(g, f, n, m, spot, x, y);
  }

  function SpotAt(n: nat, i: nat): Spot {
    if i == 0 then Spot(n - 1, n - 1, true) else NextSpot(SpotAt(n, i - 1), n)
  }

  /** There is such a walk. */
  lemma WalkExists(n: nat) returns (spot: Walk)
    ensures IsWalk(spot, n)
  {
    spot := (i: nat) => SpotAt(n, i);
    forall i: nat ensures Continues(spot, n, i) {}
  }
}
