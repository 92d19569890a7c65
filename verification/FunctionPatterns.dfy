/** The function patterns: where setFunctionalPattern marks them, and what encodeFunctionalPatterns
    draws. */
module FunctionPatterns {
  import opened Arithmetic
  import opened BitStream
  import opened QRTables
  import opened Placement

  function Width(version: nat): (n: nat)
    ensures version >= 1 ==> IsWidth(n)
  {
    OddIs(17 + 4 * version, 8 + 2 * version);
    17 + 4 * version
  }

  // ---------------------------------------------------------------------------
  // Sets of modules

  /** A set of modules, by column and row. */
  type Cells = (int, int) -> bool

  function NoCells(): Cells {
    (x, y) => false
  }

  function One(x: int, y: int): Cells {
    (a, b) => a == x && b == y
  }

  function Either(p: Cells, q: Cells): Cells {
    (x, y) => p(x, y) || q(x, y)
  }

  /** p moved to x, y. */
  function At(p: Cells, x: int, y: int): Cells {
    (a, b) => p(a - x, b - y)
  }

  function Box(w: int, h: int): Cells {
    (a, b) => 0 <= a < w && 0 <= b < h
  }

  ghost predicate Within(p: Cells, q: Cells) {
    forall x, y :: p(x, y) ==> q(x, y)
  }

  /** r is g with the modules p made dark. */
  ghost predicate Darkened(g: Grid, r: Grid, n: nat, p: Cells)
    requires IsGrid(g, n)
  {
    IsGrid(r, n) && forall x, y {:trigger r[x][y]} :: 0 <= x < n && 0 <= y < n ==> r[x][y] == (g[x][y] || p(x, y))
  }

  lemma DarkenedOne(g: Grid, r: Grid, n: nat, p: Cells, x: nat, y: nat)
    requires IsGrid(g, n) && Darkened(g, r, n, p) && x < n && y < n
    ensures Darkened(g, SetModule(r, x, y, true), n, Either(p, One(x, y)))
  {}

  lemma DarkenedTwice(g: Grid, r: Grid, s: Grid, n: nat, p: Cells, q: Cells)
    requires IsGrid(g, n) && Darkened(g, r, n, p) && Darkened(r, s, n, q)
    ensures Darkened(g, s, n, Either(p, q))
  {}

  // ---------------------------------------------------------------------------
  // Marking

  /** Make a rectangle dark (or marked). */
  method MarkSquare(g: Grid, n: nat, x: nat, y: nat, w: nat, h: nat) returns (r: Grid)
    requires IsGrid(g, n) && x + w <= n && y + h <= n
    ensures Darkened(g, r, n, At(Box(w, h), x, y))
  {
    r := g;
    for i := x to x + w
      invariant Darkened(g, r, n, At(Box(i - x, h), x, y))
    {
      ghost var p, r0 := At(Box(i - x, h), x, y), r;
      for j := y to y + h
        invariant Darkened(r0, r, n, At(Box(1, j - y), i, y))
      {
        DarkenedOne(r0, r, n, At(Box(1, j - y), i, y), i, j);
        r := SetModule(r, i, j, true);
      }
      DarkenedTwice(g, r0, r, n, p, At(Box(1, h), i, y));
    }
  }

  /** The three corners without an alignment pattern. */
  predicate Skipped(i: nat, j: nat, k: nat) {
    (i == 0 && j == 0) || (i == 0 && j == k - 1) || (i == k - 1 && j == 0)
  }

  /** Whether a module belongs to a pattern p at one of the first j centres of column i of the
      alignment grid. */
  predicate InColumn(p: Cells, c: seq<nat>, i: nat, j: nat, x: int, y: int)
    requires i < |c| && j <= |c|
    decreases j
  {
    && j > 0
    && (InColumn(p, c, i, j - 1, x, y)
        || (!Skipped(i, j - 1, |c|) && p(x - (c[i] as int - 2), y - (c[j - 1] as int - 2))))
  }

  predicate InAlignment(p: Cells, c: seq<nat>, i: nat, x: int, y: int)
    requires i <= |c|
    decreases i
  {
    i > 0 && (InAlignment(p, c, i - 1, x, y) || InColumn(p, c, i - 1, |c|, x, y))
  }

  function AlignmentColumn(p: Cells, c: seq<nat>, i: nat, j: nat): Cells
    requires i < |c| && j <= |c|
  {
    (x, y) => InColumn(p, c, i, j, x, y)
  }

  function AlignmentCells(p: Cells, c: seq<nat>, i: nat): Cells
    requires i <= |c|
  {
    (x, y) => InAlignment(p, c, i, x, y)
  }

  /** Every alignment pattern lies inside the symbol. */
  ghost predicate AreCentres(c: seq<nat>, n: nat) {
    forall i :: 0 <= i < |c| ==> 2 <= c[i] && c[i] + 2 < n
  }

  lemma AlignmentStep(g: Grid, r0: Grid, r: Grid, n: nat, p: Cells, c: seq<nat>, i: nat, j: nat)
    requires IsGrid(g, n) && i < |c| && j < |c| && Darkened(g, r0, n, AlignmentColumn(p, c, i, j))
    requires if Skipped(i, j, |c|) then r == r0 else Darkened(r0, r, n, At(p, c[i] as int - 2, c[j] as int - 2))
    ensures Darkened(g, r, n, AlignmentColumn(p, c, i, j + 1))
  {}

  lemma AlignmentNext(g: Grid, r0: Grid, r: Grid, n: nat, p: Cells, c: seq<nat>, i: nat)
    requires IsGrid(g, n) && i < |c| && Darkened(g, r0, n, AlignmentCells(p, c, i))
    requires Darkened(r0, r, n, AlignmentColumn(p, c, i, |c|))
    ensures Darkened(g, r, n, AlignmentCells(p, c, i + 1))
  {}

  /** Mark the pattern at centre j of column i, unless it is a corner. */
  method MarkAlignmentAt(r0: Grid, n: nat, c: seq<nat>, i: nat, j: nat, ghost g: Grid) returns (r: Grid)
    requires IsGrid(g, n) && AreCentres(c, n) && i < |c| && j < |c|
    requires Darkened(g, r0, n, AlignmentColumn(Box(5, 5), c, i, j))
    ensures Darkened(g, r, n, AlignmentColumn(Box(5, 5), c, i, j + 1))
  {
    r := r0;
    if !Skipped(i, j, |c|) {
      r := MarkSquare(r, n, c[i] - 2, c[j] - 2, 5, 5);
    }
    AlignmentStep(g, r0, r, n, Box(5, 5), c, i, j);
  }

  method MarkAlignmentColumn(g: Grid, n: nat, c: seq<nat>, i: nat) returns (r: Grid)
    requires IsGrid(g, n) && AreCentres(c, n) && i < |c|
    ensures Darkened(g, r, n, AlignmentColumn(Box(5, 5), c, i, |c|))
  {
    r := g;
    for j := 0 to |c|
      invariant Darkened(g, r, n, AlignmentColumn(Box(5, 5), c, i, j))
    {
      r := MarkAlignmentAt(r, n, c, i, j, g);
    }
  }

  method MarkAlignment(g: Grid, n: nat, c: seq<nat>) returns (r: Grid)
    requires IsGrid(g, n) && AreCentres(c, n)
    ensures Darkened(g, r, n, AlignmentCells(Box(5, 5), c, |c|))
  {
    r := g;
    for i := 0 to |c|
      invariant Darkened(g, r, n, AlignmentCells(Box(5, 5), c, i))
    {
      ghost var r0 := r;
      r := MarkAlignmentColumn(r, n, c, i);
      AlignmentNext(g, r0, r, n, Box(5, 5), c, i);
    }
  }

  function VersionMarks(n: nat): Cells {
    Either(At(Box(6, 3), 0, n - 11), At(Box(3, 6), n - 11, 0))
  }

  function CornerMarks(n: nat): Cells {
    Either(Either(At(Box(9, 9), 0, 0), At(Box(8, 9), n - 8, 0)), At(Box(9, 8), 0, n - 8))
  }

  function TimingMarks(n: nat): Cells {
    Either(At(Box(n - 16, 1), 8, 6), At(Box(1, n - 16), 6, 8))
  }

  function BaseMarks(n: nat, c: seq<nat>): Cells {
    Either(Either(CornerMarks(n), TimingMarks(n)), AlignmentCells(Box(5, 5), c, |c|))
  }

  /** The modules that belong to function patterns. */
  function MarkedCells(version: nat): Cells {
    var n := Width(version);
    var base := BaseMarks(n, AlignmentPatterns(version));
    if version >= 7 then Either(base, VersionMarks(n)) else base
  }

  /** The map of function modules of a version. */
  function FunctionMap(version: nat): (f: Grid)
    ensures IsGrid(f, Width(version))
  {
    var n, p := Width(version), MarkedCells(version);
    seq(n, x => seq(n, y => p(x, y)))
  }

  /** The 18 version bits, for versions 7 to 40. */
  function VersionInfo(version: nat): nat {
    match version
    case 7 => 0x07C94
    case 8 => 0x085BC
    case 9 => 0x09A99
    case 10 => 0x0A4D3
    case 11 => 0x0BBF6
    case 12 => 0x0C762
    case 13 => 0x0D847
    case 14 => 0x0E60D
    case 15 => 0x0F928
    case 16 => 0x10B78
    case 17 => 0x1145D
    case 18 => 0x12A17
    case 19 => 0x13532
    case 20 => 0x149A6
    case 21 => 0x15683
    case 22 => 0x168C9
    case 23 => 0x177EC
    case 24 => 0x18EC4
    case 25 => 0x191E1
    case 26 => 0x1AFAB
    case 27 => 0x1B08E
    case 28 => 0x1CC1A
    case 29 => 0x1D33F
    case 30 => 0x1ED75
    case 31 => 0x1F250
    case 32 => 0x209D5
    case 33 => 0x216F0
    case 34 => 0x228BA
    case 35 => 0x2379F
    case 36 => 0x24B0B
    case 37 => 0x2542E
    case 38 => 0x26A64
    case 39 => 0x27541
    case 40 => 0x28C69
    case _ => 0
  }

  /** The 15 format bits of a mask (0 to 7) and level (0 to 3): entry mask + 8 * level of the table. */
  function FormatInfo(index: nat): nat {
    match index
    case 0 => 0x5412
    case 1 => 0x5125
    case 2 => 0x5E7C
    case 3 => 0x5B4B
    case 4 => 0x45F9
    case 5 => 0x40CE
    case 6 => 0x4F97
    case 7 => 0x4AA0
    case 8 => 0x77C4
    case 9 => 0x72F3
    case 10 => 0x7DAA
    case 11 => 0x789D
    case 12 => 0x662F
    case 13 => 0x6318
    case 14 => 0x6C41
    case 15 => 0x6976
    case 16 => 0x1689
    case 17 => 0x13BE
    case 18 => 0x1CE7
    case 19 => 0x19D0
    case 20 => 0x0762
    case 21 => 0x0255
    case 22 => 0x0D0C
    case 23 => 0x083B
    case 24 => 0x355F
    case 25 => 0x3068
    case 26 => 0x3F31
    case 27 => 0x3A06
    case 28 => 0x24B4
    case 29 => 0x2183
    case 30 => 0x2EDA
    case 31 => 0x2BED
    case _ => 0
  }

  // ---------------------------------------------------------------------------
  // Drawing

  /** The border of a square of size w, and a smaller square of size m in its middle. */
  function Target(w: int, m: int): Cells {
    (a, b) =>
      0 <= a < w && 0 <= b < w
      && (a == 0 || a == w - 1 || b == 0 || b == w - 1
          || ((w - m) / 2 <= a < (w + m) / 2 && (w - m) / 2 <= b < (w + m) / 2))
  }

  /** The part of a border drawn by the first i rounds: one module on each side in each round. */
  function BorderRounds(w: int, i: int): Cells {
    (a, b) =>
      || (b == 0 && 0 <= a < i) || (a == w - 1 && 0 <= b < i)
      || (b == w - 1 && w - 1 - i < a < w) || (a == 0 && w - 1 - i < b < w)
  }

  lemma DarkenedSame(g: Grid, r: Grid, n: nat, p: Cells, q: Cells)
    requires IsGrid(g, n) && Darkened(g, r, n, p)
    requires forall x, y :: p(x, y) <==> q(x, y)
    ensures Darkened(g, r, n, q)
  {}

  method MarkOne(r0: Grid, n: nat, x: nat, y: nat, ghost g: Grid, ghost p: Cells) returns (r: Grid, ghost q: Cells)
    requires IsGrid(g, n) && Darkened(g, r0, n, p) && x < n && y < n
    ensures q == Either(p, One(x, y)) && Darkened(g, r, n, q)
  {
    DarkenedOne(g, r0, n, p, x, y);
    r, q := SetModule(r0, x, y, true), Either(p, One(x, y));
  }

  /** One round: a module on each side. */
  method EncodeBorderRound(r0: Grid, n: nat, x: nat, y: nat, w: nat, i: nat, ghost g: Grid) returns (r: Grid)
    requires IsGrid(g, n) && i + 1 < w && x + w <= n && y + w <= n
    requires Darkened(g, r0, n, At(BorderRounds(w, i), x, y))
    ensures Darkened(g, r, n, At(BorderRounds(w, i + 1), x, y))
  {
    ghost var p := At(BorderRounds(w, i), x, y);
    r, p := MarkOne(r0, n, x + i, y, g, p);
    r, p := MarkOne(r, n, x + w - 1, y + i, g, p);
    r, p := MarkOne(r, n, x + w - 1 - i, y + w - 1, g, p);
    r, p := MarkOne(r, n, x, y + w - 1 - i, g, p);
    forall a, b ensures p(a, b) <==> At(BorderRounds(w, i + 1), x, y)(a, b) {
      BorderGrows(w, i, a - x, b - y);
    }
    DarkenedSame(g, r, n, p, At(BorderRounds(w, i + 1), x, y));
  }

  lemma BorderGrows(w: int, i: int, a: int, b: int)
    requires 0 <= i && i + 1 < w
    ensures BorderRounds(w, i + 1)(a, b) <==>
      || BorderRounds(w, i)(a, b) || (a == i && b == 0) || (a == w - 1 && b == i)
      || (a == w - 1 - i && b == w - 1) || (a == 0 && b == w - 1 - i)
  {}

  /** Draw the border of a square. */
  method EncodeBorder(g: Grid, n: nat, x: nat, y: nat, w: nat) returns (r: Grid)
    requires IsGrid(g, n) && 2 <= w && x + w <= n && y + w <= n
    ensures Darkened(g, r, n, At(BorderRounds(w, w - 1), x, y))
  {
    r := g;
    for i := 0 to w - 1
      invariant Darkened(g, r, n, At(BorderRounds(w, i), x, y))
    {
      r := EncodeBorderRound(r, n, x, y, w, i, g);
    }
  }

  method EncodeFinderPattern(g: Grid, n: nat, x: nat, y: nat) returns (r: Grid)
    requires IsGrid(g, n) && x + 7 <= n && y + 7 <= n
    ensures Darkened(g, r, n, At(Target(7, 3), x, y))
  {
    var r0 := EncodeBorder(g, n, x, y, 7);
    r := MarkSquare(r0, n, x + 2, y + 2, 3, 3);
  }

  method EncodeOneAlignmentPattern(g: Grid, n: nat, x: nat, y: nat) returns (r: Grid)
    requires IsGrid(g, n) && x + 5 <= n && y + 5 <= n
    ensures Darkened(g, r, n, At(Target(5, 1), x, y))
  {
    r := EncodeBorder(g, n, x, y, 5);
    r := SetModule(r, x + 2, y + 2, true);
  }

  /** Draw at centre j of column i, unless it is a corner. */
  method EncodeAlignmentPatternAt(r0: Grid, n: nat, c: seq<nat>, i: nat, j: nat, ghost g: Grid) returns (r: Grid)
    requires IsGrid(g, n) && AreCentres(c, n) && i < |c| && j < |c|
    requires Darkened(g, r0, n, AlignmentColumn(Target(5, 1), c, i, j))
    ensures Darkened(g, r, n, AlignmentColumn(Target(5, 1), c, i, j + 1))
  {
    r := r0;
    if !Skipped(i, j, |c|) {
      r := EncodeOneAlignmentPattern(r, n, c[i] - 2, c[j] - 2);
    }
    AlignmentStep(g, r0, r, n, Target(5, 1), c, i, j);
  }

  method EncodeAlignmentPatternColumn(g: Grid, n: nat, c: seq<nat>, i: nat) returns (r: Grid)
    requires IsGrid(g, n) && AreCentres(c, n) && i < |c|
    ensures Darkened(g, r, n, AlignmentColumn(Target(5, 1), c, i, |c|))
  {
    r := g;
    for j := 0 to |c|
      invariant Darkened(g, r, n, AlignmentColumn(Target(5, 1), c, i, j))
    {
      r := EncodeAlignmentPatternAt(r, n, c, i, j, g);
    }
  }

  method EncodeAlignmentPatterns(g: Grid, n: nat, c: seq<nat>) returns (r: Grid)
    requires IsGrid(g, n) && AreCentres(c, n)
    ensures Darkened(g, r, n, AlignmentCells(Target(5, 1), c, |c|))
  {
    r := g;
    for i := 0 to |c|
      invariant Darkened(g, r, n, AlignmentCells(Target(5, 1), c, i))
    {
      ghost var r0 := r;
      r := EncodeAlignmentPatternColumn(r, n, c, i);
      AlignmentNext(g, r0, r, n, Target(5, 1), c, i);
    }
  }

  /** Every second module of the row (or column) between the corners. */
  function Timing(n: int, horizontal: bool): Cells {
    (a, b) =>
      var along, across := if horizontal then a else b, if horizontal then b else a;
      across == 6 && 8 <= along < n - 8 && along % 2 == 0
  }

  method EncodeTimingPattern(g: Grid, n: nat, horizontal: bool) returns (r: Grid)
    requires IsGrid(g, n) && IsWidth(n)
    ensures Darkened(g, r, n, Timing(n, horizontal))
  {
    r := g;
    var i := 8;
    while i < n - 8
      invariant 8 <= i <= n && i % 2 == 0
      invariant Darkened(g, r, n, Timing(if i < n - 8 then i + 8 else n, horizontal))
    {
      r := if horizontal then SetModule(r, i, 6, true) else SetModule(r, 6, i, true);
      i := i + 2;
    }
  }

  /** Where the bits of a code go, least significant first. */
  type Path = nat -> (int, int)

  /** The modules made dark by the low k bits of a code. */
  function CodeCells(path: Path, code: nat, k: nat): Cells {
    if k == 0 then NoCells()
    else if BitAt(code, k - 1) then Either(CodeCells(path, code, k - 1), One(path(k - 1).0, path(k - 1).1))
    else CodeCells(path, code, k - 1)
  }

  lemma {:induction false} ShiftRightStep(v: nat, k: nat)
    ensures ShiftRight(v, k) / 2 == ShiftRight(v, k + 1)
    decreases k
  {
    if k > 0 {
      ShiftRightStep(v / 2, k - 1);
    }
  }

  /** Draw bit k of a code that has been shifted down to it. */
  method EncodeBit(g: Grid, n: nat, x: nat, y: nat, rest: nat,
                   ghost g0: Grid, ghost path: Path, ghost code: nat, ghost k: nat) returns (r: Grid, rest1: nat)
    requires IsGrid(g0, n) && Darkened(g0, g, n, CodeCells(path, code, k)) && rest == ShiftRight(code, k)
    requires path(k) == (x as int, y as int) && x < n && y < n
    ensures Darkened(g0, r, n, CodeCells(path, code, k + 1)) && rest1 == ShiftRight(code, k + 1)
  {
    BitOfShiftRight(code, k, 0);
    ShiftRightStep(code, k);
    r := g;
    if rest % 2 == 1 {
      DarkenedOne(g0, g, n, CodeCells(path, code, k), x, y);
      r := SetModule(g, x, y, true);
    }
    rest1 := rest / 2;
  }

  function VersionToprightPath(n: int): Path {
    k => (n - 11 + k % 3, k / 3)
  }

  function VersionBottomleftPath(n: int): Path {
    k => (k / 3, n - 11 + k % 3)
  }

  method EncodeVersionTopright(g: Grid, n: nat, version: nat) returns (r: Grid)
    requires IsGrid(g, n) && IsWidth(n)
    ensures Darkened(g, r, n, CodeCells(VersionToprightPath(n), VersionInfo(version), 18))
  {
    var pattern := VersionInfo(version);
    ghost var path, code := VersionToprightPath(n), pattern;
    r := g;
    for y := 0 to 6
      invariant Darkened(g, r, n, CodeCells(path, code, 3 * y)) && pattern == ShiftRight(code, 3 * y)
    {
      for x := 0 to 3
        invariant Darkened(g, r, n, CodeCells(path, code, 3 * y + x)) && pattern == ShiftRight(code, 3 * y + x)
      {
        r, pattern := EncodeBit(r, n, n - 11 + x, y, pattern, g, path, code, 3 * y + x);
      }
    }
  }

  method EncodeVersionBottomleft(g: Grid, n: nat, version: nat) returns (r: Grid)
    requires IsGrid(g, n) && IsWidth(n)
    ensures Darkened(g, r, n, CodeCells(VersionBottomleftPath(n), VersionInfo(version), 18))
  {
    var pattern := VersionInfo(version);
    ghost var path, code := VersionBottomleftPath(n), pattern;
    r := g;
    for x := 0 to 6
      invariant Darkened(g, r, n, CodeCells(path, code, 3 * x)) && pattern == ShiftRight(code, 3 * x)
    {
      for y := 0 to 3
        invariant Darkened(g, r, n, CodeCells(path, code, 3 * x + y)) && pattern == ShiftRight(code, 3 * x + y)
      {
        r, pattern := EncodeBit(r, n, x, n - 11 + y, pattern, g, path, code, 3 * x + y);
      }
    }
  }

  function FormatNWPath(): Path {
    k => if k <= 5 then (8, k) else if k == 6 then (8, 7) else if k == 7 then (8, 8)
         else if k == 8 then (7, 8) else (14 - k, 8)
  }

  function FormatNESWPath(n: int): Path {
    k => if k < 8 then (n - 1 - k, 8) else (8, n - 15 + k)
  }

  method EncodeFormatNW(g: Grid, n: nat, code0: nat) returns (r: Grid)
    requires IsGrid(g, n) && IsWidth(n)
    ensures Darkened(g, r, n, CodeCells(FormatNWPath(), code0, 15))
  {
    var code := code0;
    ghost var path := FormatNWPath();
    r := g;
    for y := 0 to 6
      invariant Darkened(g, r, n, CodeCells(path, code0, y)) && code == ShiftRight(code0, y)
    {
      r, code := EncodeBit(r, n, 8, y, code, g, path, code0, y);
    }
    r, code := EncodeBit(r, n, 8, 7, code, g, path, code0, 6);
    r, code := EncodeBit(r, n, 8, 8, code, g, path, code0, 7);
    r, code := EncodeBit(r, n, 7, 8, code, g, path, code0, 8);
    for k := 9 to 15
      invariant Darkened(g, r, n, CodeCells(path, code0, k)) && code == ShiftRight(code0, k)
    {
      r, code := EncodeBit(r, n, 14 - k, 8, code, g, path, code0, k);
    }
  }

  method EncodeFormatNESW(g: Grid, n: nat, code0: nat) returns (r: Grid)
    requires IsGrid(g, n) && IsWidth(n)
    ensures Darkened(g, r, n, CodeCells(FormatNESWPath(n), code0, 14))
  {
    var code := code0;
    ghost var path := FormatNESWPath(n);
    r := g;
    for k := 0 to 8
      invariant Darkened(g, r, n, CodeCells(path, code0, k)) && code == ShiftRight(code0, k)
    {
      r, code := EncodeBit(r, n, n - 1 - k, 8, code, g, path, code0, k);
    }
    for k := 8 to 14
      invariant Darkened(g, r, n, CodeCells(path, code0, k)) && code == ShiftRight(code0, k)
    {
      r, code := EncodeBit(r, n, 8, n - 15 + k, code, g, path, code0, k);
    }
  }

  // ---------------------------------------------------------------------------
  // All patterns of a symbol

  /** Centres of alignment patterns lie between the outer ones, at 6 and n-7. */
  ghost predicate CentresOk(c: seq<nat>, version: nat) {
    && |c| == (if version <= 1 then 0 else version / 7 + 2)
    && (|c| > 0 ==> c[0] == 6)
    && forall i :: 0 <= i < |c| ==> 6 <= c[i] <= 4 * version + 10
  }

  lemma Centres1to20(version: nat)
    requires 1 <= version <= 20
    ensures CentresOk(AlignmentPatterns(version), version)
  {}

  lemma Centres21to34(version: nat)
    requires 21 <= version <= 34
    ensures CentresOk(AlignmentPatterns(version), version)
  {}

  lemma Centres35to40(version: nat)
    requires 35 <= version <= 40
    ensures CentresOk(AlignmentPatterns(version), version)
  {}

  lemma AllCentres(version: nat)
    requires 1 <= version <= 40
    ensures CentresOk(AlignmentPatterns(version), version)
    ensures AreCentres(AlignmentPatterns(version), Width(version))
  {
    if version <= 20 {
      Centres1to20(version);
    } else if version <= 34 {
      Centres21to34(version);
    } else {
      Centres35to40(version);
    }
  }

  function FinderCells(n: int): Cells {
    Either(Either(At(Target(7, 3), 0, 0), At(Target(7, 3), 0, n - 7)), At(Target(7, 3), n - 7, 0))
  }

  function VersionCells(n: int, version: nat): Cells {
    Either(CodeCells(VersionToprightPath(n), VersionInfo(version), 18),
           CodeCells(VersionBottomleftPath(n), VersionInfo(version), 18))
  }

  function FormatCells(n: int, code: nat): Cells {
    Either(CodeCells(FormatNWPath(), code, 15), CodeCells(FormatNESWPath(n), code, 14))
  }

  function TimingCells(n: int): Cells {
    Either(Timing(n, true), Timing(n, false))
  }

  function BasePatterns(n: int, c: seq<nat>, code: nat): Cells {
    Either(Either(Either(FinderCells(n), TimingCells(n)), AlignmentCells(Target(5, 1), c, |c|)), FormatCells(n, code))
  }

  /** The dark modules of the function patterns of a symbol. */
  function PatternCells(version: nat, level: nat, mask: nat): Cells {
    var n := Width(version);
    var base := BasePatterns(n, AlignmentPatterns(version), FormatInfo(mask + 8 * level));
    if version >= 7 then Either(base, VersionCells(n, version)) else base
  }

  lemma {:induction false} CodeWithin(path: Path, code: nat, k: nat, q: Cells)
    requires forall i: nat :: i < k ==> q(path(i).0, path(i).1)
    ensures Within(CodeCells(path, code, k), q)
  {
    if k > 0 {
      CodeWithin(path, code, k - 1, q);
    }
  }

  lemma {:induction false} ColumnWithin(p: Cells, q: Cells, c: seq<nat>, i: nat, j: nat, x: int, y: int)
    requires Within(p, q) && i < |c| && j <= |c| && InColumn(p, c, i, j, x, y)
    ensures InColumn(q, c, i, j, x, y)
    decreases j
  {
    if InColumn(p, c, i, j - 1, x, y) {
      ColumnWithin(p, q, c, i, j - 1, x, y);
    }
  }

  lemma {:induction false} AlignmentWithin(p: Cells, q: Cells, c: seq<nat>, i: nat, x: int, y: int)
    requires Within(p, q) && i <= |c| && InAlignment(p, c, i, x, y)
    ensures InAlignment(q, c, i, x, y)
    decreases i
  {
    if InAlignment(p, c, i - 1, x, y) {
      AlignmentWithin(p, q, c, i - 1, x, y);
    } else {
      ColumnWithin(p, q, c, i - 1, |c|, x, y);
    }
  }

  lemma FindersWithin(n: nat)
    requires IsWidth(n)
    ensures Within(FinderCells(n), CornerMarks(n))
  {}

  lemma FormatWithin(n: nat, code: nat)
    requires IsWidth(n)
    ensures Within(FormatCells(n, code), CornerMarks(n))
  {
    CodeWithin(FormatNWPath(), code, 15, CornerMarks(n));
    CodeWithin(FormatNESWPath(n), code, 14, CornerMarks(n));
  }

  lemma VersionWithin(n: nat, version: nat)
    requires IsWidth(n)
    ensures Within(VersionCells(n, version), VersionMarks(n))
  {
    CodeWithin(VersionToprightPath(n), VersionInfo(version), 18, VersionMarks(n));
    CodeWithin(VersionBottomleftPath(n), VersionInfo(version), 18, VersionMarks(n));
  }

  lemma TimingWithin(n: nat)
    requires IsWidth(n)
    ensures Within(TimingCells(n), TimingMarks(n))
  {}

  lemma BaseWithin(n: nat, c: seq<nat>, code: nat)
    requires IsWidth(n)
    ensures Within(BasePatterns(n, c, code), BaseMarks(n, c))
  {
    FindersWithin(n);
    FormatWithin(n, code);
    TimingWithin(n);
    forall x, y | AlignmentCells(Target(5, 1), c, |c|)(x, y) ensures AlignmentCells(Box(5, 5), c, |c|)(x, y) {
      AlignmentWithin(Target(5, 1), Box(5, 5), c, |c|, x, y);
    }
  }

  /** What is drawn lies on marked modules. */
  lemma PatternsAreMarked(version: nat, level: nat, mask: nat)
    requires version >= 1
    ensures Within(PatternCells(version, level, mask), MarkedCells(version))
  {
    BaseWithin(Width(version), AlignmentPatterns(version), FormatInfo(mask + 8 * level));
    VersionWithin(Width(version), version);
  }

  /** The walk's skipped column consists of marked modules. */
  lemma ColumnSixIsMarked(version: nat)
    requires version >= 1
    ensures forall y :: 0 <= y < Width(version) ==> MarkedCells(version)(6, y)
  {
    var n := Width(version);
    forall y | 0 <= y < n ensures Either(CornerMarks(n), TimingMarks(n))(6, y) {
    }
  }

  // ---------------------------------------------------------------------------
  // Marking and drawing all patterns

  lemma MapIsDarkened(f: Grid, version: nat)
    requires version >= 1 && Darkened(BlankGrid(Width(version)), f, Width(version), MarkedCells(version))
    ensures f == FunctionMap(version)
  {
    var n, map0 := Width(version), FunctionMap(version);
    forall x | 0 <= x < n ensures f[x] == map0[x] {
      forall y | 0 <= y < n ensures f[x][y] == map0[x][y] {}
    }
  }

  method MarkBase(n: nat, c: seq<nat>) returns (f: Grid)
    requires IsWidth(n) && AreCentres(c, n)
    ensures Darkened(BlankGrid(n), f, n, BaseMarks(n, c))
  {
    ghost var blank := BlankGrid(n);
    f := BlankGrid(n);
    f := MarkSquare(f, n, 0, 0, 9, 9);
    f := MarkSquare(f, n, n - 8, 0, 8, 9);
    f := MarkSquare(f, n, 0, n - 8, 9, 8);
    assert Darkened(blank, f, n, CornerMarks(n));
    ghost var f0 := f;
    f := MarkSquare(f, n, 8, 6, n - 16, 1);
    f := MarkSquare(f, n, 6, 8, 1, n - 16);
    assert Darkened(f0, f, n, TimingMarks(n));
    DarkenedTwice(blank, f0, f, n, CornerMarks(n), TimingMarks(n));
    ghost var f1 := f;
    f := MarkAlignment(f, n, c);
    DarkenedTwice(blank, f1, f, n, Either(CornerMarks(n), TimingMarks(n)), AlignmentCells(Box(5, 5), c, |c|));
  }

  /** Mark the function modules of a version. */
  method MarkPatterns(version: nat) returns (f: Grid)
    requires 1 <= version <= 40
    ensures f == FunctionMap(version)
  {
    var n := Width(version);
    AllCentres(version);
    f := MarkBase(n, AlignmentPatterns(version));
    if version >= 7 {
      ghost var f0 := f;
      f := MarkSquare(f, n, 0, n - 11, 6, 3);
      f := MarkSquare(f, n, n - 11, 0, 3, 6);
      DarkenedTwice(BlankGrid(n), f0, f, n, BaseMarks(n, AlignmentPatterns(version)), VersionMarks(n));
    }
    MapIsDarkened(f, version);
  }

  method DrawFinders(g: Grid, n: nat) returns (r: Grid)
    requires IsWidth(n) && IsGrid(g, n)
    ensures Darkened(g, r, n, FinderCells(n))
  {
    r := EncodeFinderPattern(g, n, 0, 0);
    r := EncodeFinderPattern(r, n, 0, n - 7);
    r := EncodeFinderPattern(r, n, n - 7, 0);
  }

  method DrawVersion(g: Grid, n: nat, version: nat) returns (r: Grid)
    requires IsWidth(n) && IsGrid(g, n)
    ensures Darkened(g, r, n, VersionCells(n, version))
  {
    var r0 := EncodeVersionTopright(g, n, version);
    r := EncodeVersionBottomleft(r0, n, version);
  }

  method DrawTiming(g: Grid, n: nat) returns (r: Grid)
    requires IsWidth(n) && IsGrid(g, n)
    ensures Darkened(g, r, n, TimingCells(n))
  {
    var r0 := EncodeTimingPattern(g, n, true);
    r := EncodeTimingPattern(r0, n, false);
  }

  method DrawFormat(g: Grid, n: nat, code: nat) returns (r: Grid)
    requires IsWidth(n) && IsGrid(g, n)
    ensures Darkened(g, r, n, FormatCells(n, code))
  {
    var r0 := EncodeFormatNW(g, n, code);
    r := EncodeFormatNESW(r0, n, code);
  }

  lemma OrderOfDrawing(g: Grid, r: Grid, n: nat,
                       finders: Cells, versions: Cells, timing: Cells, alignment: Cells, format: Cells)
    requires IsGrid(g, n)
    requires Darkened(g, r, n, Either(Either(Either(Either(finders, versions), timing), alignment), format))
    ensures Darkened(g, r, n, Either(Either(Either(Either(finders, timing), alignment), format), versions))
  {}

  lemma DrawnFive(g: Grid, a: Grid, b: Grid, c: Grid, d: Grid, r: Grid, n: nat,
                  finders: Cells, versions: Cells, timing: Cells, alignment: Cells, format: Cells)
    requires IsGrid(g, n) && Darkened(g, a, n, finders) && Darkened(a, b, n, versions)
    requires Darkened(b, c, n, timing) && Darkened(c, d, n, alignment) && Darkened(d, r, n, format)
    ensures Darkened(g, r, n, Either(Either(Either(Either(finders, timing), alignment), format), versions))
  {
    DarkenedTwice(g, a, b, n, finders, versions);
    DarkenedTwice(g, b, c, n, Either(finders, versions), timing);
    DarkenedTwice(g, c, d, n, Either(Either(finders, versions), timing), alignment);
    DarkenedTwice(g, d, r, n, Either(Either(Either(finders, versions), timing), alignment), format);
    OrderOfDrawing(g, r, n, finders, versions, timing, alignment, format);
  }

  lemma NothingDrawn(g: Grid, r: Grid, n: nat, p: Cells)
    requires IsGrid(g, n) && Darkened(g, r, n, Either(p, NoCells()))
    ensures Darkened(g, r, n, p)
  {}

  /** Draw the function patterns of a symbol. */
  method DrawPatterns(g: Grid, version: nat, level: nat, mask: nat) returns (r: Grid)
    requires 1 <= version <= 40 && IsGrid(g, Width(version))
    ensures Darkened(g, r, Width(version), PatternCells(version, level, mask))
  {
    var n, c := Width(version), AlignmentPatterns(version);
    ghost var code := FormatInfo(mask + 8 * level);
    AllCentres(version);
    var a := DrawFinders(g, n);
    var b := a;
    ghost var versions := NoCells();
    if version >= 7 {
      b := DrawVersion(a, n, version);
      versions := VersionCells(n, version);
    }
    var t := DrawTiming(b, n);
    var d := t;
    if version > 1 {
      d := EncodeAlignmentPatterns(t, n, c);
    }
    r := DrawFormat(d, n, FormatInfo(mask + 8 * level));
    DrawnFive(g, a, b, t, d, r, n, FinderCells(n), versions, TimingCells(n), AlignmentCells(Target(5, 1), c, |c|),
              FormatCells(n, code));
    if version < 7 {
      NothingDrawn(g, r, n, BasePatterns(n, c, code));
    }
  }
}
