/** Power sums, error locators and error values.

    A word that differs from a codeword in bytes of value y[j] at places of locator
    x[j] has syndromes s[t] = y[0]*x[0]^t + y[1]*x[1]^t + ... */
module Locators {
  import opened GF256
  import opened Poly
  import opened Recurrence

  ghost function PowerSum(y: Seq, x: Seq, t: nat): Byte
    requires |y| == |x|
  {
    if |y| == 0 then 0
    else
      var n := |y| - 1;
      Add(PowerSum(y[..n], x[..n], t), Mul(y[n], Pow(x[n], t)))
  }

  ghost predicate IsPowerSums(s: Seq, y: Seq, x: Seq) {
    |y| == |x| && forall i :: 0 <= i < |s| ==> s[i] == PowerSum(y, x, i)
  }

  /** y[j] * p(x[j]) for each j. */
  ghost function Weigh(y: Seq, x: Seq, p: Seq): (w: Seq)
    requires |y| == |x|
    ensures |w| == |y|
  {
    seq(|y|, j requires 0 <= j < |y| => Mul(y[j], Ev(p, x[j])))
  }

  lemma {:induction false} PowerSumZeros(y: Seq, x: Seq, t: nat)
    requires |y| == |x| && Zeros(y)
    ensures PowerSum(y, x, t) == 0
  {
    if |y| > 0 {
      var n := |y| - 1;
      PowerSumZeros(y[..n], x[..n], t);
      MulUnits(Pow(x[n], t));
      AddZero(0);
    }
  }

  lemma {:induction false} PowerSumCombination(r: Seq, p: Seq, d: Byte, q: Seq, x: Seq, t: nat)
    requires IsCombination(r, p, d, q) && |r| == |x|
    ensures PowerSum(r, x, t) == Add(PowerSum(p, x, t), Mul(d, PowerSum(q, x, t)))
  {
    if |r| == 0 {
      MulUnits(d);
      AddZero(0);
    } else {
      var n := |r| - 1;
      PowerSumCombination(r[..n], p[..n], d, q[..n], x[..n], t);
      var a, b, e := PowerSum(p[..n], x[..n], t), PowerSum(q[..n], x[..n], t), Pow(x[n], t);
      MulDistribLeft(p[n], Mul(d, q[n]), e);
      MulAssoc(d, q[n], e);
      MulDistribRight(d, b, Mul(q[n], e));
      AddSwap(a, Mul(d, b), Mul(p[n], e), Mul(d, Mul(q[n], e)));
    }
  }

  /** Only one term is not zero. */
  lemma {:induction false} PowerSumSingle(y: Seq, x: Seq, i: nat)
    requires |y| == |x| && i < |y|
    requires forall j :: 0 <= j < |y| && j != i ==> y[j] == 0
    ensures PowerSum(y, x, 0) == y[i]
  {
    var n := |y| - 1;
    MulUnits(y[n]);
    AddZero(y[n]);
    if i == n {
      PowerSumZeros(y[..n], x[..n], 0);
    } else {
      PowerSumSingle(y[..n], x[..n], i);
      AddZero(y[i]);
    }
  }

  lemma {:induction false} WeighHorner(y: Seq, x: Seq, p: Seq, t: nat)
    requires |y| == |x| && |p| > 0
    ensures PowerSum(Weigh(y, x, p), x, t)
         == Add(PowerSum(Weigh(y, x, p[..|p| - 1]), x, t + 1), Mul(p[|p| - 1], PowerSum(y, x, t)))
  {
    var p', c := p[..|p| - 1], p[|p| - 1];
    if |y| == 0 {
      MulUnits(c);
      AddZero(0);
    } else {
      var n := |y| - 1;
      WeighHorner(y[..n], x[..n], p, t);
      assert Weigh(y, x, p)[..n] == Weigh(y[..n], x[..n], p);
      assert Weigh(y, x, p')[..n] == Weigh(y[..n], x[..n], p');
      var h, e := Ev(p', x[n]), Pow(x[n], t);
      // y (x h + c) e == (y h) (x e) + c (y e)
      MulDistribRight(y[n], Mul(x[n], h), c);
      MulDistribLeft(Mul(y[n], Mul(x[n], h)), Mul(y[n], c), e);
      MulSwap(y[n], x[n], h);
      MulAssoc(x[n], Mul(y[n], h), e);
      MulSwap(x[n], Mul(y[n], h), e);
      MulComm(y[n], c);
      MulAssoc(c, y[n], e);
      var a, b := PowerSum(Weigh(y[..n], x[..n], p'), x[..n], t + 1), PowerSum(y[..n], x[..n], t);
      AddSwap(a, Mul(c, b), Mul(Mul(y[n], h), Mul(x[n], e)), Mul(c, Mul(y[n], e)));
      MulDistribRight(c, b, Mul(y[n], e));
    }
  }

  /** A window of power sums is again a power sum, with each value weighted by p at its locator. */
  lemma {:induction false} WinPowerSums(p: Seq, s: Seq, t: nat, y: Seq, x: Seq)
    requires IsPowerSums(s, y, x) && t + |p| <= |s|
    ensures Win(p, s, t) == PowerSum(Weigh(y, x, p), x, t)
  {
    if |p| == 0 {
      forall j | 0 <= j < |y| ensures Weigh(y, x, p)[j] == 0 {
        MulUnits(y[j]);
      }
      PowerSumZeros(Weigh(y, x, p), x, t);
    } else {
      WinPowerSums(p[..|p| - 1], s, t + 1, y, x);
      WeighHorner(y, x, p, t);
    }
  }

  lemma WeighOne(z: Seq, x: Seq)
    requires |z| == |x|
    ensures Weigh(z, x, [1]) == z
  {
    forall j | 0 <= j < |x| ensures Weigh(z, x, [1])[j] == z[j] {
      EvSingle([1], x[j]);
      MulUnits(z[j]);
    }
  }

  /** Weighing with z + a, which vanishes at a. */
  lemma WeighLinear(z: Seq, x: Seq, a: Byte, j: nat)
    requires |z| == |x| && j < |x|
    ensures Weigh(z, x, [1, a])[j] == Mul(z[j], Add(x[j], a))
    ensures x[j] == a ==> Weigh(z, x, [1, a])[j] == 0
    ensures x[j] != a && Weigh(z, x, [1, a])[j] == 0 ==> z[j] == 0
  {
    assert [1, a][..1] == [1];
    EvSingle([1], x[j]);
    MulUnits(x[j]);
    MulUnits(z[j]);
    AddIsZero(x[j], a);
    if x[j] != a && Weigh(z, x, [1, a])[j] == 0 {
      NoZeroDivisors(z[j], Add(x[j], a));
    }
  }

  /** If the first n + 1 power sums vanish, so do the first n after weighing. */
  lemma WeighedSumsVanish(z: Seq, x: Seq, a: Byte, t: nat)
    requires |z| == |x| && PowerSum(z, x, t) == 0 && PowerSum(z, x, t + 1) == 0
    ensures PowerSum(Weigh(z, x, [1, a]), x, t) == 0
  {
    WeighHorner(z, x, [1, a], t);
    assert [1, a][..1] == [1];
    WeighOne(z, x);
    MulUnits(a);
    AddZero(0);
  }

  lemma LastTermVanishes(z: Seq, x: Seq, t: nat)
    requires |z| == |x| > 0 && z[|z| - 1] == 0
    ensures PowerSum(z, x, t) == PowerSum(z[..|z| - 1], x[..|x| - 1], t)
  {
    MulUnits(Pow(x[|x| - 1], t));
    AddZero(PowerSum(z[..|z| - 1], x[..|x| - 1], t));
  }

  /** The Vandermonde argument: |x| vanishing power sums over distinct locators force zero values. */
  lemma {:induction false} Vandermonde(z: Seq, x: Seq)
    requires |z| == |x| && Distinct(x)
    requires forall t: nat :: t < |x| ==> PowerSum(z, x, t) == 0
    ensures Zeros(z)
    decreases |x|
  {
    if |x| > 0 {
      var n, a := |x| - 1, x[|x| - 1];
      var u := Weigh(z, x, [1, a]);
      WeighLinear(z, x, a, n);
      forall t: nat | t < n ensures PowerSum(u[..n], x[..n], t) == 0 {
        WeighedSumsVanish(z, x, a, t);
        LastTermVanishes(u, x, t);
      }
      Vandermonde(u[..n], x[..n]);
      forall j | 0 <= j < n ensures z[j] == 0 {
        assert u[..n][j] == 0;
        WeighLinear(z, x, a, j);
      }
      PowerSumSingle(z, x, n);
      assert PowerSum(z, x, 0) == 0;
    }
  }

  // ---------------------------------------------------------------------------
  // The error locator polynomial

  ghost function Scale(p: Seq, a: Byte): (r: Seq)
    ensures |r| == |p|
  {
    seq(|p|, i requires 0 <= i < |p| => Mul(a, p[i]))
  }

  lemma {:induction false} EvScale(p: Seq, a: Byte, z: Byte)
    ensures Ev(Scale(p, a), z) == Mul(a, Ev(p, z))
  {
    if |p| == 0 {
      MulUnits(a);
    } else {
      var n := |p| - 1;
      EvScale(p[..n], a, z);
      assert Scale(p, a)[..n] == Scale(p[..n], a);
      MulSwap(z, a, Ev(p[..n], z));
      MulDistribRight(a, Mul(z, Ev(p[..n], z)), p[n]);
    }
  }

  /** The product of all (1 + x[j]*z), lowest degree first. */
  ghost function Locator(x: Seq): (c: Seq)
    ensures |c| == |x| + 1 && c[0] == 1
  {
    if |x| == 0 then [1]
    else
      var n := |x| - 1;
      var c := Locator(x[..n]);
      AddZero(1);
      Sum(c + [0], [0] + Scale(c, x[n]))
  }

  /** (z + a) times c, at z. */
  lemma EvTimesLinear(c: Seq, a: Byte, z: Byte)
    ensures Ev(Sum(c + [0], [0] + Scale(c, a)), z) == Add(Mul(z, Ev(c, z)), Mul(a, Ev(c, z)))
  {
    EvSum(c + [0], [0] + Scale(c, a), z);
    EvConcat(c, [0], z);
    EvConcat([0], Scale(c, a), z);
    EvSingle([0], z);
    EvScale(c, a, z);
    MulUnits(Pow(z, |c|));
    MulUnits(z);
    AddZero(Mul(z, Ev(c, z)));
    AddZero(Mul(a, Ev(c, z)));
    assert Pow(z, 1) == z by { assert Pow(z, 0) == 1; }
  }

  lemma {:induction false} LocatorRoots(x: Seq)
    ensures RootsOf(Locator(x), x)
  {
    if |x| > 0 {
      var n := |x| - 1;
      var c, a := Locator(x[..n]), x[n];
      LocatorRoots(x[..n]);
      forall j | 0 <= j < |x| ensures Ev(Locator(x), x[j]) == 0 {
        EvTimesLinear(c, a, x[j]);
        if j < n {
          assert Ev(c, x[..n][j]) == 0;
          MulUnits(x[j]);
          MulUnits(a);
        }
        AddZero(Mul(a, Ev(c, x[j])));
      }
    }
  }

  lemma LocatorGenerates(s: Seq, y: Seq, x: Seq)
    requires IsPowerSums(s, y, x)
    ensures Generates(Locator(x), s, |s|)
  {
    var c := Locator(x);
    forall t: nat | t + |c| <= |s| ensures Win(c, s, t) == 0 {
      WinPowerSums(c, s, t, y, x);
      LocatorRoots(x);
      forall j | 0 <= j < |y| ensures Weigh(y, x, c)[j] == 0 {
        MulUnits(y[j]);
      }
      PowerSumZeros(Weigh(y, x, c), x, t);
    }
  }

  /** Inside the correction radius a shortest recurrence has exactly the error locators as roots. */
  lemma ShortestHasLocatorRoots(c: Seq, s: Seq, y: Seq, x: Seq)
    requires IsPowerSums(s, y, x) && Distinct(x) && NonZero(y)
    requires 2 * |x| <= |s|
    requires Generates(c, s, |s|) && Shortest(|c| - 1, s, |s|)
    ensures |c| == |x| + 1 && RootsOf(c, x)
    ensures forall z :: Ev(c, z) == 0 <==> z in x
  {
    LocatorGenerates(s, y, x);
    assert |c| - 1 <= |x|;
    var w := Weigh(y, x, c);
    forall t: nat | t < |x| ensures PowerSum(w, x, t) == 0 {
      WinPowerSums(c, s, t, y, x);
    }
    Vandermonde(w, x);
    forall j | 0 <= j < |x| ensures Ev(c, x[j]) == 0 {
      assert w[j] == 0;
      NoZeroDivisors(y[j], Ev(c, x[j]));
    }
    RootBound(c, x);
    forall z ensures Ev(c, z) == 0 <==> z in x {
      if Ev(c, z) == 0 && z !in x {
        RootBound(c, x + [z]);
      }
    }
  }

  // ---------------------------------------------------------------------------
  // Error values

  /** Sum of the first m terms of even degree of p at w. */
  ghost function EvenPart(p: Seq, w: Byte, m: nat): Byte
    requires 2 * m <= |p|
  {
    if m == 0 then 0
    else Add(EvenPart(p, w, m - 1), Mul(p[2 * m - 2], Pow(w, 2 * m - 2)))
  }

  /** (a*q + c)*(w*e) == q*e + c*(w*e) when w is the inverse of a. */
  lemma EvenStep(b: Byte, q: Byte, c: Byte, a: Byte, w: Byte, e: Byte)
    requires Mul(w, a) == 1
    ensures Add(Add(b, Mul(q, e)), Mul(Add(Mul(a, q), c), Mul(w, e))) == Add(b, Mul(c, Mul(w, e)))
  {
    var u, v := Mul(q, e), Mul(c, Mul(w, e));
    MulDistribLeft(Mul(a, q), c, Mul(w, e));
    MulComm(a, q);
    MulAssoc(q, a, Mul(w, e));
    MulAssoc(a, w, e);
    MulComm(a, w);
    MulUnits(e);
    AddAssoc(Add(b, u), u, v);
    AddCancel(b, u);
  }

  /** The even part of p at the inverse w of a is the quotient of p by the factor of a, at w:
      the odd part of a quotient cancels against the shifted even part. */
  lemma {:induction false} EvenPartIsQuotient(p: Seq, a: Byte, w: Byte, m: nat, k: nat)
    requires 0 < m && k == 2 * m - 2 && k + 2 <= |p| && Mul(w, a) == 1
    ensures EvenPart(p, w, m) == Lo(Quot(p, a)[..k + 1], w)
  {
    var q := Quot(p, a);
    if m == 1 {
      LoPrefix(q, k, w);
      EvPrefix(p, k, a);
      QuotAt(p, k, a);
      assert Lo(q[..0], w) == 0;
      assert Ev(p[..0], a) == 0;
      MulUnits(a);
      AddZero(p[0]);
    } else {
      EvenPartIsQuotient(p, a, w, m - 1, k - 2);
      QuotientStep(p, a, w, k);
    }
  }

  /** Two more coefficients of the quotient add one even power of p. */
  lemma QuotientStep(p: Seq, a: Byte, w: Byte, k: nat)
    requires 1 < k < |p| && Mul(w, a) == 1
    ensures Lo(Quot(p, a)[..k + 1], w) == Add(Lo(Quot(p, a)[..k - 1], w), Mul(p[k], Pow(w, k)))
  {
    var q := Quot(p, a);
    LoPrefix(q, k - 1, w);
    LoPrefix(q, k, w);
    EvPrefix(p, k, a);
    QuotAt(p, k, a);
    QuotAt(p, k - 1, a);
    EvenStep(Lo(q[..k - 1], w), q[k - 1], p[k], a, w, Pow(w, k - 1));
  }

  /** c added up k times. */
  ghost function Times(k: nat, c: Byte): Byte {
    if k == 0 then 0 else Add(Times(k - 1, c), c)
  }

  lemma {:induction false} TimesParity(k: nat, c: Byte)
    ensures Times(k, c) == if k % 2 == 0 then 0 else c
  {
    AddZero(c);
    if k > 0 {
      TimesParity(k - 1, c);
    }
  }

  /** The formal derivative. */
  ghost function Derivative(p: Seq): (d: Seq)
    requires |p| > 0
    ensures |d| == |p| - 1
  {
    seq(|p| - 1, k requires 0 <= k < |p| - 1 => Times(k + 1, p[k + 1]))
  }

  /** Sum of the first m terms of odd degree of p at w. */
  ghost function OddPart(p: Seq, w: Byte, m: nat): Byte
    requires 2 * m <= |p|
  {
    if m == 0 then 0
    else Add(OddPart(p, w, m - 1), Mul(p[2 * m - 1], Pow(w, 2 * m - 1)))
  }

  lemma {:induction false} EvenAndOdd(p: Seq, w: Byte, m: nat, k: nat)
    requires k == 2 * m <= |p|
    ensures Lo(p[..k], w) == Add(EvenPart(p, w, m), OddPart(p, w, m))
  {
    if m == 0 {
      assert Lo(p[..0], w) == 0;
      AddZero(0);
    } else {
      EvenAndOdd(p, w, m - 1, k - 2);
      LoPrefixTwo(p, k - 2, w);
      AddPairs(EvenPart(p, w, m - 1), OddPart(p, w, m - 1), Mul(p[k - 2], Pow(w, k - 2)), Mul(p[k - 1], Pow(w, k - 1)));
    }
  }

  lemma LoPrefixTwo(p: Seq, k: nat, w: Byte)
    requires k + 2 <= |p|
    ensures Lo(p[..k + 2], w) == Add(Add(Lo(p[..k], w), Mul(p[k], Pow(w, k))), Mul(p[k + 1], Pow(w, k + 1)))
  {
    LoPrefix(p, k, w);
    LoPrefix(p, k + 1, w);
  }

  lemma AddPairs(even: Byte, odd: Byte, a: Byte, b: Byte)
    ensures Add(Add(Add(even, odd), a), b) == Add(Add(even, a), Add(odd, b))
  {
    AddAssoc(Add(even, odd), a, b);
    AddSwap(even, odd, a, b);
  }

  /** The next two coefficients of the derivative: one is zero, the other is p's. */
  lemma DerivativeStep(p: Seq, w: Byte, k: nat)
    requires k % 2 == 1 && k + 2 < |p|
    ensures Lo(Derivative(p)[..k + 2], w) == Add(Lo(Derivative(p)[..k], w), Mul(p[k + 2], Pow(w, k + 1)))
  {
    var d := Derivative(p);
    TimesParity(k + 1, p[k + 1]);
    TimesParity(k + 2, p[k + 2]);
    LoPrefix(d, k, w);
    LoPrefix(d, k + 1, w);
    MulUnits(Pow(w, k));
    AddZero(Lo(d[..k], w));
  }

  /** In characteristic 2 the derivative has the odd coefficients only. */
  lemma {:induction false} OddPartIsDerivative(p: Seq, w: Byte, m: nat, k: nat)
    requires 0 < m && k == 2 * m <= |p|
    ensures OddPart(p, w, m) == Mul(w, Lo(Derivative(p)[..k - 1], w))
  {
    var d, c, e := Derivative(p), p[k - 1], Pow(w, k - 2);
    MulSwap(w, c, e);
    if m == 1 {
      TimesParity(1, c);
      LoPrefix(d, 0, w);
      assert Lo(d[..0], w) == 0 && OddPart(p, w, 0) == 0;
      AddZero(Mul(c, e));
      AddZero(Mul(w, Mul(c, e)));
    } else {
      OddPartIsDerivative(p, w, m - 1, k - 2);
      DerivativeStep(p, w, k - 3);
      MulDistribRight(w, Lo(d[..k - 3], w), Mul(c, e));
    }
  }

  /** At a root of p the even powers, which the decoder adds up, are the derivative times the root. */
  lemma EvenPartIsDerivative(p: Seq, w: Byte, m: nat)
    requires 0 < m && |p| == 2 * m && Lo(p, w) == 0
    ensures EvenPart(p, w, m) == Mul(w, Lo(Derivative(p), w))
  {
    EvenAndOdd(p, w, m, 2 * m);
    OddPartIsDerivative(p, w, m, 2 * m);
    assert p[..2 * m] == p && Derivative(p)[..2 * m - 1] == Derivative(p);
    AddIsZero(EvenPart(p, w, m), OddPart(p, w, m));
  }

  /** Leaving out trailing zeros of p past a root a changes nothing in the quotient's value. */
  lemma CofactorTrailing(p: Seq, k: nat, m: nat, a: Byte, w: Byte)
    requires 0 < k <= |p| && ZerosFrom(p, k) && Ev(p[..k], a) == 0
    requires k - 1 <= m <= |p|
    ensures Lo(Quot(p, a)[..m], w) == Lo(Quot(p, a)[..k - 1], w)
  {
    var q := Quot(p, a);
    forall i | k - 1 <= i < m ensures q[i] == 0 {
      QuotAt(p, i, a);
      if i >= k {
        var r := p[..i + 1];
        assert r[..k] == p[..k];
        EvTrailing(r, k, a);
        MulUnits(Pow(a, |r| - k));
      }
    }
    assert q[..m][..k - 1] == q[..k - 1];
    LoTrailing(q[..m], k - 1, w);
  }

  /** At the inverse of one root, the quotient by another root vanishes and the quotient by the
      same root does not (roots are simple). */
  lemma CofactorAtRoots(c: Seq, x: Seq, i: nat, j: nat, w: Byte)
    requires |c| == |x| + 1 && c[0] == 1 && RootsOf(c, x) && Distinct(x)
    requires i < |x| && j < |x| && Mul(w, x[i]) == 1
    ensures Lo(Quot(c, x[j])[..|x|], w) == 0 <==> i != j
  {
    var q := Quot(c, x[j])[..|x|];
    LoRootIsEvRoot(q, x[i], w);
    EvSingle(c[..1], x[j]);
    QuotAt(c, 0, x[j]);
    assert q[0] == 1;
    forall l | 0 <= l < |x| && l != j ensures Ev(q, x[l]) == 0 {
      QuotIdentity(c, x[j], x[l]);
      AddZero(Mul(Add(x[l], x[j]), Ev(q, x[l])));
      AddIsZero(x[l], x[j]);
      NoZeroDivisors(Add(x[l], x[j]), Ev(q, x[l]));
    }
    if i == j && Ev(q, x[i]) == 0 {
      RootBound(q, x);
    }
  }

  /** Omega is the product of psi and the syndrome polynomial, cut off at degree |s|. */
  ghost predicate IsOmega(om: Seq, psi: Seq, s: Seq) {
    |om| == |s| <= |psi| && forall k :: 0 <= k < |om| ==> om[k] == Win(psi[..k + 1], s, 0)
  }

  ghost function CofactorWeights(psi: Seq, m: nat, y: Seq, x: Seq, w: Byte): (z: Seq)
    requires |y| == |x| && m <= |psi|
    ensures |z| == |y|
  {
    seq(|y|, j requires 0 <= j < |y| => Mul(y[j], Lo(Quot(psi, x[j])[..m], w)))
  }

  lemma WeightsStep(psi: Seq, m: nat, y: Seq, x: Seq, w: Byte)
    requires |y| == |x| && m < |psi|
    ensures IsCombination(CofactorWeights(psi, m + 1, y, x, w), CofactorWeights(psi, m, y, x, w),
                          Pow(w, m), Weigh(y, x, psi[..m + 1]))
  {
    var d := Pow(w, m);
    forall j | 0 <= j < |y|
      ensures Mul(y[j], Lo(Quot(psi, x[j])[..m + 1], w))
           == Add(Mul(y[j], Lo(Quot(psi, x[j])[..m], w)), Mul(d, Mul(y[j], Ev(psi[..m + 1], x[j]))))
    {
      var q := Quot(psi, x[j]);
      LoPrefix(q, m, w);
      QuotAt(psi, m, x[j]);
      MulDistribRight(y[j], Lo(q[..m], w), Mul(q[m], d));
      MulComm(q[m], d);
      MulSwap(y[j], d, q[m]);
    }
  }

  lemma NoWeights(psi: Seq, y: Seq, x: Seq, w: Byte)
    requires |y| == |x|
    ensures PowerSum(CofactorWeights(psi, 0, y, x, w), x, 0) == 0
  {
    var z := CofactorWeights(psi, 0, y, x, w);
    forall j | 0 <= j < |y| ensures z[j] == 0 {
      assert Lo(Quot(psi, x[j])[..0], w) == 0;
      MulUnits(y[j]);
    }
    PowerSumZeros(z, x, 0);
  }

  /** One more coefficient of the cofactors adds the next coefficient of omega. */
  lemma WeightedStep(om: Seq, psi: Seq, s: Seq, y: Seq, x: Seq, w: Byte, m: nat)
    requires IsPowerSums(s, y, x) && IsOmega(om, psi, s) && m < |s|
    ensures PowerSum(CofactorWeights(psi, m + 1, y, x, w), x, 0)
         == Add(PowerSum(CofactorWeights(psi, m, y, x, w), x, 0), Mul(Pow(w, m), om[m]))
  {
    var v, d := Weigh(y, x, psi[..m + 1]), Pow(w, m);
    WeightsStep(psi, m, y, x, w);
    PowerSumCombination(CofactorWeights(psi, m + 1, y, x, w), CofactorWeights(psi, m, y, x, w), d, v, x, 0);
    WinPowerSums(psi[..m + 1], s, 0, y, x);
  }

  lemma {:induction false} OmegaIsWeightedSum(om: Seq, psi: Seq, s: Seq, y: Seq, x: Seq, w: Byte, m: nat)
    requires IsPowerSums(s, y, x) && IsOmega(om, psi, s) && m <= |s|
    ensures Lo(om[..m], w) == PowerSum(CofactorWeights(psi, m, y, x, w), x, 0)
  {
    if m == 0 {
      NoWeights(psi, y, x, w);
      assert Lo(om[..0], w) == 0;
    } else {
      var k := m - 1;
      OmegaIsWeightedSum(om, psi, s, y, x, w, k);
      WeightedStep(om, psi, s, y, x, w, k);
      LoPrefix(om, k, w);
      MulComm(om[k], Pow(w, k));
    }
  }

  /** psi has the error locators x as its roots, and zeros past degree |x|. */
  ghost predicate IsLocatorArray(psi: Seq, x: Seq) {
    && |x| < |psi| && psi[0] == 1 && ZerosFrom(psi, |x| + 1)
    && RootsOf(psi[..|x| + 1], x) && Distinct(x)
  }

  /** The first m coefficients of the quotient by x[j], at the inverse of x[i]. */
  lemma CofactorAt(psi: Seq, x: Seq, i: nat, j: nat, w: Byte, m: nat)
    requires IsLocatorArray(psi, x) && |x| <= m <= |psi|
    requires i < |x| && j < |x| && Mul(w, x[i]) == 1
    ensures Lo(Quot(psi, x[j])[..m], w) == Lo(Quot(psi, x[j])[..|x|], w)
    ensures Lo(Quot(psi, x[j])[..m], w) == 0 <==> i != j
  {
    CofactorHead(psi, x, i, j, w);
    CofactorTrailing(psi, |x| + 1, m, x[j], w);
  }

  lemma CofactorHead(psi: Seq, x: Seq, i: nat, j: nat, w: Byte)
    requires IsLocatorArray(psi, x) && i < |x| && j < |x| && Mul(w, x[i]) == 1
    ensures Lo(Quot(psi, x[j])[..|x|], w) == 0 <==> i != j
  {
    var c := psi[..|x| + 1];
    QuotHead(psi, |x| + 1, |x|, x[j]);
    assert |c| == |x| + 1 && c[0] == 1;
    CofactorAtRoots(c, x, i, j, w);
  }

  /** Forney's formula as the coder computes it: omega over the even part of psi, both at the
      inverse w of the i-th locator, is the i-th error value. */
  lemma Forney(om: Seq, psi: Seq, s: Seq, y: Seq, x: Seq, i: nat, w: Byte)
    requires IsPowerSums(s, y, x) && IsOmega(om, psi, s)
    requires |psi| == 2 * |s| && |x| < |s| && IsLocatorArray(psi, x)
    requires i < |x| && Mul(w, x[i]) == 1
    ensures EvenPart(psi, w, |s|) != 0
    ensures Lo(om, w) == Mul(y[i], EvenPart(psi, w, |s|))
  {
    var n := |s|;
    ForneyNumerator(om, psi, s, y, x, i, w);
    CofactorAt(psi, x, i, i, w, n);
    CofactorAt(psi, x, i, i, w, 2 * n - 1);
    EvenPartIsQuotient(psi, x[i], w, n, 2 * n - 2);
  }

  /** The denominator is the derivative of the locator polynomial times its root, which is simple. */
  lemma ForneyDenominator(psi: Seq, x: Seq, i: nat, w: Byte, n: nat)
    requires |psi| == 2 * n && IsLocatorArray(psi, x) && i < |x| && Mul(w, x[i]) == 1
    ensures EvenPart(psi, w, n) == Mul(w, Lo(Derivative(psi), w))
  {
    LoTrailing(psi, |x| + 1, w);
    LoRootIsEvRoot(psi[..|x| + 1], x[i], w);
    EvenPartIsDerivative(psi, w, n);
  }

  lemma ForneyNumerator(om: Seq, psi: Seq, s: Seq, y: Seq, x: Seq, i: nat, w: Byte)
    requires IsPowerSums(s, y, x) && IsOmega(om, psi, s)
    requires |x| < |s| && IsLocatorArray(psi, x)
    requires i < |x| && Mul(w, x[i]) == 1
    ensures Lo(om, w) == Mul(y[i], Lo(Quot(psi, x[i])[..|s|], w))
  {
    var n := |s|;
    var z := CofactorWeights(psi, n, y, x, w);
    assert om[..n] == om;
    OmegaIsWeightedSum(om, psi, s, y, x, w, n);
    forall j | 0 <= j < |x| && j != i ensures z[j] == 0 {
      CofactorAt(psi, x, i, j, w, n);
      MulUnits(y[j]);
    }
    PowerSumSingle(z, x, i);
  }
}
