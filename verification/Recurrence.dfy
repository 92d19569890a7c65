/** Linear recurrences over GF(256): the theory behind the Berlekamp-Massey step.

    A connection polynomial c of length L (L+1 coefficients, lowest degree first)
    annihilates the window of s that ends at position m when
    c[0]*s[m] + c[1]*s[m-1] + ... + c[L]*s[m-L] is zero. */
module Recurrence {
  import opened GF256
  import opened Poly

  /** Sum of p[i] * s[t + |p| - 1 - i]: p laid backwards over the window that starts at t. */
  ghost function Win(p: Seq, s: Seq, t: nat): Byte
    requires t + |p| <= |s|
  {
    if |p| == 0 then 0
    else Add(Win(p[..|p| - 1], s, t + 1), Mul(p[|p| - 1], s[t]))
  }

  /** The first m windows of s are annihilated by c. */
  ghost predicate Vanishes(c: Seq, s: Seq, m: nat)
    requires m + |c| <= |s| + 1
  {
    forall t: nat :: t < m ==> Win(c, s, t) == 0
  }

  /** c, of length L, generates s[..n]: every window of s[..n] is annihilated. */
  ghost predicate Generates(c: Seq, s: Seq, n: nat)
    requires n <= |s|
  {
    && |c| > 0 && c[0] == 1
    && forall t: nat :: t + |c| <= n ==> Win(c, s, t) == 0
  }

  /** No shorter recurrence generates s[..n]. */
  ghost predicate Shortest(len: nat, s: Seq, n: nat)
    requires n <= |s|
  {
    forall c: Seq :: Generates(c, s, n) ==> len <= |c| - 1
  }

  // ---------------------------------------------------------------------------
  // Windows are linear in the polynomial

  lemma {:induction false} WinTrailing(p: Seq, k: nat, s: Seq, t: nat)
    requires k <= |p| && ZerosFrom(p, k) && t + |p| <= |s|
    ensures Win(p, s, t) == Win(p[..k], s, t + |p| - k)
  {
    if |p| == k {
      assert p[..k] == p;
    } else {
      var p' := p[..|p| - 1];
      assert p'[..k] == p[..k];
      WinTrailing(p', k, s, t + 1);
      MulUnits(s[t]);
      AddZero(Win(p', s, t + 1));
    }
  }

  lemma {:induction false} WinShift(p: Seq, s: Seq, t: nat)
    requires t + |p| + 1 <= |s|
    ensures Win([0] + p, s, t) == Win(p, s, t)
  {
    var q := [0 as Byte] + p;
    if |p| == 0 {
      assert Win(q[..0], s, t + 1) == 0;
      MulUnits(s[t]);
      AddZero(0);
    } else {
      assert q[..|p|] == [0] + p[..|p| - 1];
      WinShift(p[..|p| - 1], s, t + 1);
    }
  }

  /** r = p + d*q coefficient by coefficient. */
  ghost predicate IsCombination(r: Seq, p: Seq, d: Byte, q: Seq) {
    |r| == |p| == |q| && forall i :: 0 <= i < |r| ==> r[i] == Add(p[i], Mul(d, q[i]))
  }

  lemma {:induction false} WinCombination(r: Seq, p: Seq, d: Byte, q: Seq, s: Seq, t: nat)
    requires IsCombination(r, p, d, q) && t + |p| <= |s|
    ensures Win(r, s, t) == Add(Win(p, s, t), Mul(d, Win(q, s, t)))
  {
    if |p| == 0 {
      MulUnits(d);
      AddZero(0);
    } else {
      var n := |p| - 1;
      WinCombination(r[..n], p[..n], d, q[..n], s, t + 1);
      var a, b := Win(p[..n], s, t + 1), Win(q[..n], s, t + 1);
      MulDistribLeft(p[n], Mul(d, q[n]), s[t]);
      MulAssoc(d, q[n], s[t]);
      MulDistribRight(d, b, Mul(q[n], s[t]));
      AddSwap(a, Mul(d, b), Mul(p[n], s[t]), Mul(d, Mul(q[n], s[t])));
    }
  }

  lemma {:induction false} WinScale(r: Seq, p: Seq, d: Byte, s: Seq, t: nat)
    requires |r| == |p| && t + |p| <= |s|
    requires forall i :: 0 <= i < |p| ==> r[i] == Mul(p[i], d)
    ensures Win(r, s, t) == Mul(Win(p, s, t), d)
  {
    if |p| == 0 {
      MulUnits(d);
    } else {
      var n := |p| - 1;
      WinScale(r[..n], p[..n], d, s, t + 1);
      MulDistribLeft(Win(p[..n], s, t + 1), Mul(p[n], s[t]), d);
      MulAssoc(p[n], s[t], d);
      MulComm(s[t], d);
      MulAssoc(p[n], d, s[t]);
    }
  }

  // ---------------------------------------------------------------------------
  // Two recurrences applied one after the other

  /** Sum of q[i] * Win(p, s, t + |q| - 1 - i). */
  ghost function Both(q: Seq, p: Seq, s: Seq, t: nat): Byte
    requires |p| > 0 && t + |q| + |p| <= |s| + 1
  {
    if |q| == 0 then 0
    else Add(Both(q[..|q| - 1], p, s, t + 1), Mul(q[|q| - 1], Win(p, s, t)))
  }

  lemma {:induction false} BothNone(p: Seq, q: Seq, s: Seq, t: nat)
    requires |q| == 1 && t + |p| + |q| <= |s| + 1
    ensures Both(p, q, s, t) == Mul(q[0], Win(p, s, t))
  {
    if |p| == 0 {
      MulUnits(q[0]);
    } else {
      var n := |p| - 1;
      BothNone(p[..n], q, s, t + 1);
      assert Win(q[..0], s, t + 1) == 0;
      AddZero(Mul(q[0], s[t]));
      MulSwap(p[n], q[0], s[t]);
      MulDistribRight(q[0], Win(p[..n], s, t + 1), Mul(p[n], s[t]));
    }
  }

  lemma {:induction false} BothSplit(p: Seq, q: Seq, s: Seq, t: nat)
    requires |q| > 1 && t + |p| + |q| <= |s| + 1
    ensures Both(p, q, s, t)
         == Add(Both(p, q[..|q| - 1], s, t + 1), Mul(q[|q| - 1], Win(p, s, t)))
  {
    var q', c := q[..|q| - 1], q[|q| - 1];
    if |p| == 0 {
      MulUnits(c);
      AddZero(0);
    } else {
      var n := |p| - 1;
      BothSplit(p[..n], q, s, t + 1);
      var a, b, w := Both(p[..n], q', s, t + 2), Win(p[..n], s, t + 1), Win(q', s, t + 1);
      MulDistribRight(p[n], w, Mul(c, s[t]));
      MulSwap(p[n], c, s[t]);
      AddSwap(a, Mul(c, b), Mul(p[n], w), Mul(c, Mul(p[n], s[t])));
      MulDistribRight(c, b, Mul(p[n], s[t]));
    }
  }

  lemma {:induction false} BothComm(q: Seq, p: Seq, s: Seq, t: nat)
    requires |p| > 0 && |q| > 0 && t + |q| + |p| <= |s| + 1
    ensures Both(q, p, s, t) == Both(p, q, s, t)
    decreases |q|
  {
    if |q| == 1 {
      assert Both(q[..0], p, s, t + 1) == 0;
      BothNone(p, q, s, t);
      AddZero(Mul(q[0], Win(p, s, t)));
    } else {
      BothComm(q[..|q| - 1], p, s, t + 1);
      BothSplit(p, q, s, t);
    }
  }

  lemma {:induction false} BothOnlyTop(q: Seq, p: Seq, s: Seq, t: nat)
    requires |p| > 0 && |q| > 0 && t + |q| + |p| <= |s| + 1
    requires forall u: nat :: t <= u < t + |q| - 1 ==> Win(p, s, u) == 0
    ensures Both(q, p, s, t) == Mul(q[0], Win(p, s, t + |q| - 1))
  {
    if |q| == 1 {
      assert Both(q[..0], p, s, t + 1) == 0;
      AddZero(Mul(q[0], Win(p, s, t)));
    } else {
      BothOnlyTop(q[..|q| - 1], p, s, t + 1);
      MulUnits(q[|q| - 1]);
      AddZero(Mul(q[0], Win(p, s, t + |q| - 1)));
    }
  }

  /** Massey's bound: if c generates s[..n] but fails at s[n], and g generates s[..n+1],
      then their lengths add up to more than n. */
  lemma MasseyBound(c: Seq, g: Seq, s: Seq, n: nat)
    requires n < |s| && Generates(c, s, n) && Generates(g, s, n + 1)
    requires |c| <= n + 1 && Win(c, s, n + 1 - |c|) != 0
    ensures (|c| - 1) + (|g| - 1) > n
  {
    if |c| + |g| <= n + 2 {
      var t := n + 2 - |c| - |g|;
      BothOnlyTop(g, c, s, t);
      BothOnlyTop(c, g, s, t);
      BothComm(g, c, s, t);
      MulUnits(Win(c, s, n + 1 - |c|));
      MulUnits(c[0]);
    }
  }
}
