/** The invariant of the Berlekamp-Massey loop and the three ways one round keeps it. */
module BerlekampMassey {
  import opened GF256
  import opened Poly
  import opened Recurrence

  /** The auxiliary polynomial d, of degree at most deg, is the last failed recurrence, scaled
      and shifted so that its windows vanish before position r and give 1 at r. */
  ghost predicate IsAuxiliary(d: Seq, deg: nat, s: Seq, r: nat) {
    && 0 < deg < |d| && d[0] == 0 && ZerosFrom(d, deg + 1)
    && (deg <= r < |s| ==>
        && Win(d[..deg + 1], s, r - deg) == 1
        && Vanishes(d[..deg + 1], s, r - deg))
  }

  /** After r rounds: psi has length len and is a shortest recurrence for s[..r]; d is auxiliary. */
  ghost predicate Invariant(psi: Seq, d: Seq, len: nat, s: Seq, r: nat) {
    && |psi| == |d| == 2 * |s| > 0 && len <= r <= |s|
    && psi[0] == 1 && ZerosFrom(psi, len + 1)
    && Generates(psi[..len + 1], s, r) && Shortest(len, s, r)
    && (r < |s| ==> IsAuxiliary(d, r + 1 - len, s, r))
  }

  /** q is p moved up one degree, the top coefficient dropped. */
  ghost predicate IsShifted(q: Seq, p: Seq) {
    |q| == |p| > 0 && q[0] == 0 && forall i :: 0 < i < |q| ==> q[i] == p[i - 1]
  }

  ghost function Discrepancy(psi: Seq, len: nat, s: Seq, r: nat): Byte
    requires len <= r < |s| && len < |psi|
  {
    Win(psi[..len + 1], s, r - len)
  }

  lemma ShortestGrows(len: nat, s: Seq, r: nat)
    requires r < |s| && Shortest(len, s, r)
    ensures Shortest(len, s, r + 1)
  {
    forall c: Seq | Generates(c, s, r + 1) ensures len <= |c| - 1 {
      assert Generates(c, s, r);
    }
  }

  lemma ShiftedPrefix(q: Seq, p: Seq, k: nat)
    requires IsShifted(q, p) && k + 2 <= |p|
    ensures q[..k + 2] == [0] + p[..k + 1]
  {}

  /** Shifting keeps an auxiliary polynomial auxiliary for the next position. */
  lemma AuxiliaryShift(d: Seq, e: Seq, deg: nat, s: Seq, r: nat)
    requires IsAuxiliary(d, deg, s, r) && IsShifted(e, d)
    requires deg + 1 < |d| && r + 1 < |s| && deg <= r + 1
    ensures IsAuxiliary(e, deg + 1, s, r + 1)
  {
    ShiftedPrefix(e, d, deg);
    var c := d[..deg + 1];
    if deg <= r {
      forall t: nat | t <= r - deg ensures Win([0] + c, s, t) == Win(c, s, t) {
        WinShift(c, s, t);
      }
    }
  }

  /** A round without discrepancy. */
  lemma RoundUnchanged(psi: Seq, d: Seq, d': Seq, len: nat, s: Seq, r: nat)
    requires Invariant(psi, d, len, s, r) && r < |s|
    requires Discrepancy(psi, len, s, r) == 0 && IsShifted(d', d)
    ensures Invariant(psi, d', len, s, r + 1)
  {
    ShortestGrows(len, s, r);
    if r + 1 < |s| {
      AuxiliaryShift(d, d', r + 1 - len, s, r);
    }
  }

  /** A window of psi + c*d, from the windows of the two parts without their trailing zeros. */
  lemma CorrectedWindow(psi: Seq, d: Seq, psi2: Seq, c: Byte, i: nat, j: nat, m: nat, s: Seq, t: nat)
    requires IsCombination(psi2, psi, c, d) && i <= m <= |psi| && j <= m && t + m <= |s|
    requires ZerosFrom(psi, i) && ZerosFrom(d, j)
    ensures Win(psi2[..m], s, t)
         == Add(Win(psi[..i], s, t + m - i), Mul(c, Win(d[..j], s, t + m - j)))
  {
    WinCombination(psi2[..m], psi[..m], c, d[..m], s, t);
    PrefixTrailing(psi, i, m, s, t);
    PrefixTrailing(d, j, m, s, t);
  }

  /** A window that ends at or before r: either both parts vanish, or they are c and c * 1. */
  lemma CorrectedVanishes(psi: Seq, d: Seq, psi2: Seq, c: Byte, len: nat, len2: nat, s: Seq, r: nat, t: nat)
    requires len <= r < |s| && len <= len2 < |psi| && r + 1 - len <= len2 && t + len2 <= r
    requires ZerosFrom(psi, len + 1) && Generates(psi[..len + 1], s, r)
    requires c == Discrepancy(psi, len, s, r)
    requires IsCombination(psi2, psi, c, d) && IsAuxiliary(d, r + 1 - len, s, r)
    ensures Win(psi2[..len2 + 1], s, t) == 0
  {
    var deg := r + 1 - len;
    CorrectedWindow(psi, d, psi2, c, len + 1, deg + 1, len2 + 1, s, t);
    MulUnits(c);
    if t + len2 == r {
      AddZero(c);
    } else {
      AddZero(0);
      assert Win(psi[..len + 1], s, t + len2 - len) == 0;
    }
  }

  lemma PrefixTrailing(p: Seq, k: nat, m: nat, s: Seq, t: nat)
    requires k <= m <= |p| && ZerosFrom(p, k) && t + m <= |s|
    ensures Win(p[..m], s, t) == Win(p[..k], s, t + m - k)
  {
    assert p[..m][..k] == p[..k];
    WinTrailing(p[..m], k, s, t);
  }

  /** The corrected recurrence generates one syndrome more. */
  lemma CorrectedGenerates(psi: Seq, d: Seq, psi2: Seq, len: nat, len2: nat, s: Seq, r: nat)
    requires Invariant(psi, d, len, s, r) && r < |s|
    requires len2 == if len < r + 1 - len then r + 1 - len else len
    requires IsCombination(psi2, psi, Discrepancy(psi, len, s, r), d)
    ensures psi2[0] == 1 && len2 < |psi2| && ZerosFrom(psi2, len2 + 1)
    ensures Generates(psi2[..len2 + 1], s, r + 1)
  {
    var c := Discrepancy(psi, len, s, r);
    MulUnits(c);
    AddZero(1);
    AddZero(0);
    var c2 := psi2[..len2 + 1];
    forall t: nat | t + |c2| <= r + 1 ensures Win(c2, s, t) == 0 {
      CorrectedVanishes(psi, d, psi2, c, len, len2, s, r, t);
    }
  }

  lemma ShortestAfterFailure(psi: Seq, len: nat, s: Seq, r: nat, len2: nat)
    requires len <= r < |s| && len < |psi|
    requires Generates(psi[..len + 1], s, r) && Shortest(len, s, r)
    requires Discrepancy(psi, len, s, r) != 0
    requires len2 == if len < r + 1 - len then r + 1 - len else len
    ensures Shortest(len2, s, r + 1)
  {
    ShortestGrows(len, s, r);
    forall g: Seq | Generates(g, s, r + 1) ensures len2 <= |g| - 1 {
      MasseyBound(psi[..len + 1], g, s, r);
    }
  }

  /** A round that corrects psi and keeps its length. */
  lemma RoundCorrected(psi: Seq, d: Seq, psi2: Seq, d': Seq, len: nat, s: Seq, r: nat)
    requires Invariant(psi, d, len, s, r) && r < |s|
    requires Discrepancy(psi, len, s, r) != 0 && len >= r + 1 - len
    requires IsCombination(psi2, psi, Discrepancy(psi, len, s, r), d) && IsShifted(d', d)
    ensures Invariant(psi2, d', len, s, r + 1)
  {
    CorrectedGenerates(psi, d, psi2, len, len, s, r);
    ShortestAfterFailure(psi, len, s, r, len);
    if r + 1 < |s| {
      AuxiliaryShift(d, d', r + 1 - len, s, r);
    }
  }

  /** The old recurrence over its discrepancy, shifted, is the next auxiliary polynomial. */
  lemma AuxiliaryFromFailure(psi: Seq, d': Seq, inv: Byte, len: nat, s: Seq, r: nat)
    requires len <= r && r + 1 < |s| && len + 1 < |psi| == |d'|
    requires ZerosFrom(psi, len + 1) && Generates(psi[..len + 1], s, r)
    requires Mul(Discrepancy(psi, len, s, r), inv) == 1
    requires d'[0] == 0 && forall i :: 0 < i < |psi| ==> d'[i] == Mul(psi[i - 1], inv)
    ensures IsAuxiliary(d', len + 1, s, r + 1)
  {
    var scaled := seq(|psi|, i requires 0 <= i < |psi| => Mul(psi[i], inv));
    ShiftedPrefix(d', scaled, len);
    MulUnits(inv);
    var c, e := psi[..len + 1], d'[..len + 2];
    forall t: nat | t <= r - len ensures Win(e, s, t) == Mul(Win(c, s, t), inv) {
      WinShift(scaled[..len + 1], s, t);
      WinScale(scaled[..len + 1], c, inv, s, t);
    }
  }

  /** A round that corrects psi and lengthens it. */
  lemma RoundLengthened(psi: Seq, d: Seq, psi2: Seq, d': Seq, inv: Byte, len: nat, s: Seq, r: nat)
    requires Invariant(psi, d, len, s, r) && r < |s|
    requires Discrepancy(psi, len, s, r) != 0 && len < r + 1 - len
    requires IsCombination(psi2, psi, Discrepancy(psi, len, s, r), d)
    requires Mul(Discrepancy(psi, len, s, r), inv) == 1 && |d'| == |psi|
    requires d'[0] == 0 && forall i :: 0 < i < |psi| ==> d'[i] == Mul(psi[i - 1], inv)
    ensures Invariant(psi2, d', r + 1 - len, s, r + 1)
  {
    CorrectedGenerates(psi, d, psi2, len, r + 1 - len, s, r);
    ShortestAfterFailure(psi, len, s, r, r + 1 - len);
    if r + 1 < |s| {
      AuxiliaryFromFailure(psi, d', inv, len, s, r);
    }
  }

  /** What one round makes of psi, d and len. */
  ghost predicate IsRound(psi: Seq, d: Seq, len: nat, psi2: Seq, d2: Seq, len2: int, s: Seq, r: nat)
    requires len <= r < |s| && len < |psi|
  {
    var c := Discrepancy(psi, len, s, r);
    && |d2| == |d| == |psi| == |psi2|
    && (if c == 0 then psi2 == psi && len2 == len && IsShifted(d2, d)
        else
          && IsCombination(psi2, psi, c, d)
          && if len < r + 1 - len
             then len2 == r + 1 - len && IsShiftedMultiple(d2, psi, Inv(c))
             else len2 == len && IsShifted(d2, d))
  }

  ghost predicate IsShiftedMultiple(q: Seq, p: Seq, c: Byte) {
    |q| == |p| > 0 && q[0] == 0 && forall i {:trigger q[i]} :: 0 < i < |q| ==> q[i] == Mul(p[i - 1], c)
  }

  lemma ShiftOfMultiple(q: Seq, m: Seq, p: Seq, c: Byte)
    requires IsShifted(q, m) && |m| == |p| && forall i {:trigger m[i]} :: 0 <= i < |m| ==> m[i] == Mul(p[i], c)
    ensures IsShiftedMultiple(q, p, c)
  {}

  /** Every round keeps the invariant. */
  lemma RoundKeepsInvariant(psi: Seq, d: Seq, len: nat, psi2: Seq, d2: Seq, len2: int, s: Seq, r: nat)
    requires Invariant(psi, d, len, s, r) && r < |s|
    requires IsRound(psi, d, len, psi2, d2, len2, s, r)
    ensures len2 >= 0 && Invariant(psi2, d2, len2, s, r + 1)
  {
    var c := Discrepancy(psi, len, s, r);
    if c == 0 {
      RoundUnchanged(psi, d, d2, len, s, r);
    } else if len < r + 1 - len {
      RoundLengthened(psi, d, psi2, d2, Inv(c), len, s, r);
    } else {
      RoundCorrected(psi, d, psi2, d2, len, s, r);
    }
  }

  /** The state before the first round. */
  lemma Start(psi: Seq, d: Seq, s: Seq)
    requires |psi| == |d| == 2 * |s| > 0
    requires psi[0] == 1 && ZerosFrom(psi, 1)
    requires d[0] == 0 && d[1] == 1 && ZerosFrom(d, 2)
    ensures Invariant(psi, d, 0, s, 0)
  {}
}
