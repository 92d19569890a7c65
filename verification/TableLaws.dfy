/** Laws of the constant tables, of the masks and of the squares: what fixes them apart from their definitions. */
module TableLaws {
  import opened BitStream
  import opened QRTables
  import opened Placement
  import opened FunctionPatterns
  import opened Segments

  // ---------------------------------------------------------------------------
  // Masks

  /** Masks by column j and row i: a chessboard; every second row. */
  lemma MaskRows(j: nat, i: nat)
    ensures MaskOf(0)(0, 0) && MaskOf(0)(j + 1, i) == MaskOf(0)(j, i + 1) != MaskOf(0)(j, i)
    ensures MaskOf(1)(0, 0) && MaskOf(1)(j + 1, i) == MaskOf(1)(j, i) != MaskOf(1)(j, i + 1)
  {}

  /** Every third column; every third diagonal. */
  lemma MaskColumns(j: nat, i: nat)
    ensures MaskOf(2)(0, 0) && MaskOf(2)(j, i) == MaskOf(2)(j, i + 1)
    ensures MaskOf(2)(j, i) <==> !MaskOf(2)(j + 1, i) && !MaskOf(2)(j + 2, i)
    ensures MaskOf(3)(j + 1, i) == MaskOf(3)(j, i + 1) && MaskOf(3)(j, 0) == MaskOf(2)(j, 0)
  {}

  /** A chessboard of blocks three wide and two high. */
  lemma MaskBlocks(j: nat, i: nat)
    ensures MaskOf(4)(j + 3, i) == MaskOf(4)(j, i + 2) != MaskOf(4)(j, i)
    ensures j < 3 && i < 2 ==> MaskOf(4)(j, i)
  {
    assert (j + 3) / 3 == j / 3 + 1 && (i + 2) / 2 == i / 2 + 1;
  }

  /** The other three depend on the remainder of the product of row and column by six. */
  lemma MaskProducts(j: nat, i: nat)
    ensures MaskOf(5)(j, i) <==> i * j % 6 == 0
    ensures MaskOf(6)(j, i) <==> i * j % 6 < 3
    ensures MaskOf(7)(j, i) <==> (MaskOf(6)(j, i) <==> i * j % 2 == (i + j) % 2)
  {}

  // ---------------------------------------------------------------------------
  // Codes

  type Bits15 = bv15
  type Bits18 = bv18

  /** Take the shifted generator g from the polynomial v, where it cancels the leading bit. */
  function Cancelled18(v: Bits18, g: Bits18): Bits18 {
    if v ^ g < v then v ^ g else v
  }

  /** The remainder of a polynomial over the two-element field by 1111100100101. */
  function VersionRest(v: Bits18): Bits18 {
    var v := Cancelled18(Cancelled18(Cancelled18(v, 0x1F25 << 5), 0x1F25 << 4), 0x1F25 << 3);
    Cancelled18(Cancelled18(Cancelled18(v, 0x1F25 << 2), 0x1F25 << 1), 0x1F25)
  }

  function Cancelled15(v: Bits15, g: Bits15): Bits15 {
    if v ^ g < v then v ^ g else v
  }

  /** The remainder by 10100110111. */
  function FormatRest(v: Bits15): Bits15 {
    var v := Cancelled15(Cancelled15(v, 0x537 << 4), 0x537 << 3);
    Cancelled15(Cancelled15(Cancelled15(v, 0x537 << 2), 0x537 << 1), 0x537)
  }

  /** The version bits are the version, followed by what makes them a multiple of their generator. */
  lemma VersionCode(version: nat) returns (code: Bits18)
    requires 7 <= version <= 40
    ensures VersionInfo(version) == code as nat && VersionInfo(version) / 0x1000 == version && VersionRest(code) == 0
  {
    match version {
      case 7 => code := 0x07C94;
      case 8 => code := 0x085BC;
      case 9 => code := 0x09A99;
      case 10 => code := 0x0A4D3;
      case 11 => code := 0x0BBF6;
      case 12 => code := 0x0C762;
      case 13 => code := 0x0D847;
      case 14 => code := 0x0E60D;
      case 15 => code := 0x0F928;
      case 16 => code := 0x10B78;
      case 17 => code := 0x1145D;
      case 18 => code := 0x12A17;
      case 19 => code := 0x13532;
      case 20 => code := 0x149A6;
      case 21 => code := 0x15683;
      case 22 => code := 0x168C9;
      case 23 => code := 0x177EC;
      case 24 => code := 0x18EC4;
      case 25 => code := 0x191E1;
      case 26 => code := 0x1AFAB;
      case 27 => code := 0x1B08E;
      case 28 => code := 0x1CC1A;
      case 29 => code := 0x1D33F;
      case 30 => code := 0x1ED75;
      case 31 => code := 0x1F250;
      case 32 => code := 0x209D5;
      case 33 => code := 0x216F0;
      case 34 => code := 0x228BA;
      case 35 => code := 0x2379F;
      case 36 => code := 0x24B0B;
      case 37 => code := 0x2542E;
      case 38 => code := 0x26A64;
      case 39 => code := 0x27541;
      case 40 => code := 0x28C69;
    }
  }

  /** The format bits, before they are combined with 0x5412, are the level and the mask, followed by what makes them a
      multiple of their generator. */
  lemma FormatCode(index: nat) returns (code: Bits15, drawn: Bits15)
    requires index < 32
    ensures drawn == code ^ 0x5412 && FormatInfo(index) == drawn as nat
    ensures code as nat / 0x400 == index && FormatRest(code) == 0
  {
    match index {
      case 0 => code, drawn := 0x0000, 0x5412;
      case 1 => code, drawn := 0x0537, 0x5125;
      case 2 => code, drawn := 0x0A6E, 0x5E7C;
      case 3 => code, drawn := 0x0F59, 0x5B4B;
      case 4 => code, drawn := 0x11EB, 0x45F9;
      case 5 => code, drawn := 0x14DC, 0x40CE;
      case 6 => code, drawn := 0x1B85, 0x4F97;
      case 7 => code, drawn := 0x1EB2, 0x4AA0;
      case 8 => code, drawn := 0x23D6, 0x77C4;
      case 9 => code, drawn := 0x26E1, 0x72F3;
      case 10 => code, drawn := 0x29B8, 0x7DAA;
      case 11 => code, drawn := 0x2C8F, 0x789D;
      case 12 => code, drawn := 0x323D, 0x662F;
      case 13 => code, drawn := 0x370A, 0x6318;
      case 14 => code, drawn := 0x3853, 0x6C41;
      case 15 => code, drawn := 0x3D64, 0x6976;
      case 16 => code, drawn := 0x429B, 0x1689;
      case 17 => code, drawn := 0x47AC, 0x13BE;
      case 18 => code, drawn := 0x48F5, 0x1CE7;
      case 19 => code, drawn := 0x4DC2, 0x19D0;
      case 20 => code, drawn := 0x5370, 0x0762;
      case 21 => code, drawn := 0x5647, 0x0255;
      case 22 => code, drawn := 0x591E, 0x0D0C;
      case 23 => code, drawn := 0x5C29, 0x083B;
      case 24 => code, drawn := 0x614D, 0x355F;
      case 25 => code, drawn := 0x647A, 0x3068;
      case 26 => code, drawn := 0x6B23, 0x3F31;
      case 27 => code, drawn := 0x6E14, 0x3A06;
      case 28 => code, drawn := 0x70A6, 0x24B4;
      case 29 => code, drawn := 0x7591, 0x2183;
      case 30 => code, drawn := 0x7AC8, 0x2EDA;
      case 31 => code, drawn := 0x7FFF, 0x2BED;
    }
  }

  // ---------------------------------------------------------------------------
  // Levels

  predicate Increasing(version: nat) {
    EcLevel(version, 1).ec < EcLevel(version, 0).ec < EcLevel(version, 3).ec < EcLevel(version, 2).ec
  }

  lemma Increasing1to10(version: nat)
    requires 1 <= version <= 10
    ensures Increasing(version)
  {}

  lemma Increasing11to20(version: nat)
    requires 11 <= version <= 20
    ensures Increasing(version)
  {}

  lemma Increasing21to30(version: nat)
    requires 21 <= version <= 30
    ensures Increasing(version)
  {}

  lemma Increasing31to40(version: nat)
    requires 31 <= version <= 40
    ensures Increasing(version)
  {}

  /** In every version, levels L, M, Q and H (1, 0, 3 and 2) have more and more error correction codewords. */
  lemma LevelsIncrease(version: nat)
    requires 1 <= version <= 40
    ensures Increasing(version)
  {
    if version <= 10 {
      Increasing1to10(version);
    } else if version <= 20 {
      Increasing11to20(version);
    } else if version <= 30 {
      Increasing21to30(version);
    } else {
      Increasing31to40(version);
    }
  }

  // ---------------------------------------------------------------------------
  // Characters

  const ALPHABET := "0123456789" + "ABCDEFGHIJKLMNOPQRSTUVWXYZ" + " $%*+-./:"

  /** The alphabet is that of the standard, table 5 of ISO/IEC 18004:2006. */
  lemma AlphabetIs(i: nat)
    requires i < 45
    ensures |ALPHABET| == 45 && AlphaNum(i) == ALPHABET[i] as nat
  {
    match i {
      case 0 => case 1 => case 2 => case 3 => case 4 => case 5 => case 6 => case 7 => case 8 =>
      case 9 => case 10 => case 11 => case 12 => case 13 => case 14 => case 15 => case 16 => case 17 =>
      case 18 => case 19 => case 20 => case 21 => case 22 => case 23 => case 24 => case 25 => case 26 =>
      case 27 => case 28 => case 29 => case 30 => case 31 => case 32 => case 33 => case 34 => case 35 =>
      case 36 => case 37 => case 38 => case 39 => case 40 => case 41 => case 42 => case 43 => case 44 =>
    }
  }

  lemma AlphaNumBack(i: nat)
    requires i < 45
    ensures IsAlphaNum(AlphaNum(i)) && AlphaNumRev(AlphaNum(i)) == i
  {}

  /** It holds every character the coder accepts, once. */
  lemma AlphabetIff(c: CodeUnit)
    ensures IsAlphaNum(c) <==> exists i :: 0 <= i < |ALPHABET| && ALPHABET[i] as nat == c
  {
    if IsAlphaNum(c) {
      AlphabetIs(AlphaNumRev(c));
    }
    forall i | 0 <= i < |ALPHABET| && ALPHABET[i] as nat == c ensures IsAlphaNum(c) {
      AlphabetIs(i);
      AlphaNumBack(i);
    }
  }

  /** The standard's example of numeric mode: the text 01234567 in version 1. */
  lemma NumericExample()
    ensures var t: Text := [48, 49, 50, 51, 52, 53, 54, 55];
      SegmentBits(Segment(NUMERIC, t), 1)
      == Bits(1, 4) + Bits(8, 10) + (Bits(12, 10) + (Bits(345, 10) + Bits(67, 7)))
  {
    var t: Text := [48, 49, 50, 51, 52, 53, 54, 55];
    assert t[..3] == [48, 49, 50] && t[3..] == [51, 52, 53, 54, 55];
    assert t[3..][..3] == [51, 52, 53] && t[3..][3..] == [54, 55];
  }

  /** The standard's example of alphanumeric mode: the text AC-42 in version 1. */
  lemma AlphaNumExample()
    ensures var t: Text := [65, 67, 45, 52, 50];
      SegmentBits(Segment(ALPHANUMERIC, t), 1)
      == Bits(2, 4) + Bits(5, 9) + (Bits(462, 11) + (Bits(1849, 11) + Bits(2, 6)))
  {
    var t: Text := [65, 67, 45, 52, 50];
    assert t[2..] == [45, 52, 50] && t[2..][2..] == [50];
  }

  /** Texts of the largest symbol of a version have lengths of so many bits. */
  predicate Needs(version: nat, bits: nat, mode: nat)
    requires 1 <= version <= 40 && IsTextMode(mode)
  {
    bits > 0 && Pow2(bits - 1) <= DataCapacity(version, 1, mode) < Pow2(bits)
  }

  /** The largest texts of three versions, those of table 7 of the standard. */
  lemma LargestNumeric()
    ensures DataCapacity(9, 1, NUMERIC) == 552 && DataCapacity(26, 1, NUMERIC) == 3283
    ensures DataCapacity(40, 1, NUMERIC) == 7089
  {
    CapacityIs(9, 1, NUMERIC, 232);
    CapacityIs(26, 1, NUMERIC, 1370);
    CapacityIs(40, 1, NUMERIC, 2956);
  }

  lemma LargestAlphaNum()
    ensures DataCapacity(9, 1, ALPHANUMERIC) == 335 && DataCapacity(26, 1, ALPHANUMERIC) == 1990
    ensures DataCapacity(40, 1, ALPHANUMERIC) == 4296
  {
    CapacityIs(9, 1, ALPHANUMERIC, 232);
    CapacityIs(26, 1, ALPHANUMERIC, 1370);
    CapacityIs(40, 1, ALPHANUMERIC, 2956);
  }

  lemma LargestEightBit()
    ensures DataCapacity(9, 1, EIGHT_BIT) == 230 && DataCapacity(26, 1, EIGHT_BIT) == 1367
    ensures DataCapacity(40, 1, EIGHT_BIT) == 2953
  {
    CapacityIs(9, 1, EIGHT_BIT, 232);
    CapacityIs(26, 1, EIGHT_BIT, 1370);
    CapacityIs(40, 1, EIGHT_BIT, 2956);
  }

  /** The width of a count field, by the largest version that shares it: the bits that lengths need, but for one more in
      the numeric mode of version 40, and for whole bytes in the eight-bit mode. */
  lemma CountsAreNeeded(mode: nat)
    requires IsTextMode(mode)
    ensures Needs(9, NCountBits(mode, 9), mode)
    ensures mode != EIGHT_BIT ==> Needs(26, NCountBits(mode, 26), mode)
    ensures mode == ALPHANUMERIC ==> Needs(40, NCountBits(mode, 40), mode)
    ensures mode == NUMERIC ==> Needs(40, NCountBits(mode, 40) - 1, mode)
    ensures mode == EIGHT_BIT ==> NCountBits(mode, 26) == NCountBits(mode, 40) == 16
  {
    LargestNumeric();
    LargestAlphaNum();
    LargestEightBit();
    SmallPowers();
  }

  /** Count fields have the same width in all versions of a group. */
  lemma CountGroups(mode: nat, version: nat)
    requires IsTextMode(mode) && 1 <= version <= 40
    ensures NCountBits(mode, version) == NCountBits(mode, if version < 10 then 9 else if version < 27 then 26 else 40)
  {}

  // ---------------------------------------------------------------------------
  // Squares and timing

  /** The distance of a module from the centre of a square, in rings. */
  function Ring(a: int, b: int, centre: int): int {
    var x, y := if a < centre then centre - a else a - centre, if b < centre then centre - b else b - centre;
    if x < y then y else x
  }

  /** A finder pattern is dark but for its second ring from outside, an alignment pattern but for its first ring
      around the centre. */
  lemma SquareRings(a: int, b: int)
    ensures Target(7, 3)(a, b) <==> Ring(a, b, 3) <= 3 && Ring(a, b, 3) != 2
    ensures Target(5, 1)(a, b) <==> Ring(a, b, 2) <= 2 && Ring(a, b, 2) != 1
  {}

  /** Timing patterns join the finder patterns by modules that alternate. */
  lemma TimingAlternates(n: nat, a: int)
    requires IsWidth(n) && 7 <= a < n - 8
    ensures Timing(n, true)(a, 6) != Timing(n, true)(a + 1, 6) && Timing(n, false)(6, a) == Timing(n, true)(a, 6)
    ensures !Timing(n, true)(7, 6) && !Timing(n, true)(n - 8, 6)
  {}

  /** The next module a code goes to: one on, or two on where the timing pattern lies between. */
  ghost predicate Follows(p: (int, int), q: (int, int), dx: int, dy: int) {
    var step := if p.0 + dx == 6 || p.1 + dy == 6 then 2 else 1;
    q == (p.0 + step * dx, p.1 + step * dy)
  }

  /** The format bits go down column 8 from the upper edge, turn in the corner of the finder pattern, and go along row 8
      to the left edge; the second time they go along row 8 from the right edge to the finder pattern, and then down
      column 8 towards the lower edge. */
  lemma FormatPaths(n: nat, k: nat)
    requires IsWidth(n) && k < 14
    ensures var p := FormatNWPath();
      && p(0) == (8, 0) && p(14) == (0, 8)
      && (if k < 7 then Follows(p(k), p(k + 1), 0, 1) else Follows(p(k), p(k + 1), -1, 0))
    ensures var p := FormatNESWPath(n);
      && p(0) == (n - 1, 8) && p(7) == (n - 8, 8) && p(8) == (8, n - 7) && p(14) == (8, n - 1)
      && (k < 7 ==> Follows(p(k), p(k + 1), -1, 0)) && (7 < k ==> Follows(p(k), p(k + 1), 0, 1))
  {}

  /** The version bits go right and down through three columns next to the upper right finder pattern; the second time
      rows and columns are exchanged. */
  lemma VersionPaths(n: nat, k: nat)
    requires k < 17
    ensures var p, q := VersionToprightPath(n), VersionBottomleftPath(n);
      && p(0) == (n - 11, 0) && p(17) == (n - 9, 5)
      && (if p(k).0 < n - 9 then p(k + 1) == (p(k).0 + 1, p(k).1) else p(k + 1) == (n - 11, p(k).1 + 1))
      && q(k) == (p(k).1, p(k).0) && q(17) == (p(17).1, p(17).0)
  {}
}
