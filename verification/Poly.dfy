/** Polynomials over GF(256) as sequences of coefficients.

    A sequence is read in two ways.  Ev takes the highest degree first, as the bytes
    of a message are; Lo takes the lowest degree first, as the coder's polynomial
    arrays are. */
module Poly {
  import opened GF256

  type Seq = seq<Byte>

  /** Value at x, highest degree first (Horner's rule). */
  ghost function Ev(p: Seq, x: Byte): Byte {
    if |p| == 0 then 0 else Add(Mul(x, Ev(p[..|p| - 1], x)), p[|p| - 1])
  }

  /** Value at x, lowest degree first. */
  ghost function Lo(p: Seq, x: Byte): Byte {
    if |p| == 0 then 0 else Add(Lo(p[..|p| - 1], x), Mul(p[|p| - 1], Pow(x, |p| - 1)))
  }

  ghost predicate Zeros(p: Seq) {
    forall i :: 0 <= i < |p| ==> p[i] == 0
  }

  ghost predicate ZerosFrom(p: Seq, k: nat) {
    forall i :: k <= i < |p| ==> p[i] == 0
  }

  lemma ZerosAppend(p: Seq, c: Byte)
    ensures Zeros(p + [c]) <==> Zeros(p) && c == 0
  {
    assert (p + [c])[|p|] == c;
    assert forall i :: 0 <= i < |p| ==> (p + [c])[i] == p[i];
  }

  ghost predicate Distinct(xs: Seq) {
    forall i, j :: 0 <= i < j < |xs| ==> xs[i] != xs[j]
  }

  ghost predicate NonZero(xs: Seq) {
    forall i :: 0 <= i < |xs| ==> xs[i] != 0
  }

  ghost predicate RootsOf(p: Seq, xs: Seq) {
    forall i :: 0 <= i < |xs| ==> Ev(p, xs[i]) == 0
  }

  /** x*(a + b) + (c + d) == (x*a + c) + (x*b + d). */
  lemma HornerAdd(x: Byte, a: Byte, b: Byte, c: Byte, d: Byte)
    ensures Add(Mul(x, Add(a, b)), Add(c, d)) == Add(Add(Mul(x, a), c), Add(Mul(x, b), d))
  {
    MulDistribRight(x, a, b);
    AddSwap(Mul(x, a), Mul(x, b), c, d);
  }

  ghost function Sum(p: Seq, q: Seq): (r: Seq)
    requires |p| == |q|
    ensures |r| == |p|
  {
    seq(|p|, i requires 0 <= i < |p| => Add(p[i], q[i]))
  }

  lemma EvPrefix(p: Seq, k: nat, x: Byte)
    requires k < |p|
    ensures Ev(p[..k + 1], x) == Add(Mul(x, Ev(p[..k], x)), p[k])
  {
    assert p[..k + 1][..k] == p[..k];
  }

  lemma LoPrefix(p: Seq, k: nat, x: Byte)
    requires k < |p|
    ensures Lo(p[..k + 1], x) == Add(Lo(p[..k], x), Mul(p[k], Pow(x, k)))
  {
    assert p[..k + 1][..k] == p[..k];
  }

  lemma EvSingle(p: Seq, x: Byte)
    requires |p| == 1
    ensures Ev(p, x) == p[0]
  {
    assert Ev(p[..0], x) == 0;
    MulUnits(x);
    AddZero(p[0]);
  }

  lemma {:induction false} EvSum(p: Seq, q: Seq, x: Byte)
    requires |p| == |q|
    ensures Ev(Sum(p, q), x) == Add(Ev(p, x), Ev(q, x))
  {
    if |p| == 0 {
      AddZero(0);
    } else {
      var p', q' := p[..|p| - 1], q[..|q| - 1];
      EvSum(p', q', x);
      assert Sum(p, q)[..|p| - 1] == Sum(p', q');
      HornerAdd(x, Ev(p', x), Ev(q', x), p[|p| - 1], q[|p| - 1]);
    }
  }

  lemma {:induction false} EvZeros(p: Seq, x: Byte)
    requires Zeros(p)
    ensures Ev(p, x) == 0
  {
    if |p| > 0 {
      EvZeros(p[..|p| - 1], x);
      MulUnits(x);
      AddZero(0);
    }
  }

  /** Reading on past the last coefficient p has multiplies the value by x each time. */
  lemma {:induction false} EvTrailing(p: Seq, k: nat, x: Byte)
    requires k <= |p| && ZerosFrom(p, k)
    ensures Ev(p, x) == Mul(Pow(x, |p| - k), Ev(p[..k], x))
  {
    if |p| == k {
      assert p[..k] == p;
      MulUnits(Ev(p, x));
    } else {
      var p' := p[..|p| - 1];
      assert p'[..k] == p[..k];
      EvTrailing(p', k, x);
      AddZero(Mul(x, Ev(p', x)));
      MulAssoc(x, Pow(x, |p'| - k), Ev(p[..k], x));
    }
  }

  lemma {:induction false} EvConcat(p: Seq, q: Seq, x: Byte)
    ensures Ev(p + q, x) == Add(Mul(Pow(x, |q|), Ev(p, x)), Ev(q, x))
  {
    if |q| == 0 {
      assert p + q == p;
      MulUnits(Ev(p, x));
      AddZero(Ev(p, x));
    } else {
      var q' := q[..|q| - 1];
      assert (p + q)[..|p + q| - 1] == p + q';
      EvConcat(p, q', x);
      MulDistribRight(x, Mul(Pow(x, |q'|), Ev(p, x)), Ev(q', x));
      MulAssoc(x, Pow(x, |q'|), Ev(p, x));
      AddAssoc(Mul(Pow(x, |q|), Ev(p, x)), Mul(x, Ev(q', x)), q[|q| - 1]);
    }
  }

  // ---------------------------------------------------------------------------
  // Synthetic division by a linear factor

  /** Running values of Horner's rule: the quotient of p by (x + a), then the remainder. */
  ghost function Quot(p: Seq, a: Byte): (q: Seq)
    ensures |q| == |p|
  {
    if |p| == 0 then [] else Quot(p[..|p| - 1], a) + [Ev(p, a)]
  }

  lemma {:induction false} QuotPrefix(p: Seq, k: nat, a: Byte)
    requires k <= |p|
    ensures Quot(p[..k], a) == Quot(p, a)[..k]
  {
    if k == |p| {
      assert p[..k] == p;
    } else {
      QuotPrefix(p[..|p| - 1], k, a);
      assert p[..|p| - 1][..k] == p[..k];
    }
  }

  lemma QuotHead(p: Seq, k: nat, m: nat, a: Byte)
    requires m <= k <= |p|
    ensures Quot(p[..k], a)[..m] == Quot(p, a)[..m]
  {
    QuotPrefix(p, k, a);
  }

  lemma QuotAt(p: Seq, k: nat, a: Byte)
    requires k < |p|
    ensures Quot(p, a)[k] == Ev(p[..k + 1], a)
  {
    QuotPrefix(p, k + 1, a);
    assert Quot(p, a)[..k + 1][k] == Quot(p, a)[k];
  }

  /** p(x) == (x + a) * quotient(x) + p(a). */
  lemma {:induction false} QuotIdentity(p: Seq, a: Byte, x: Byte)
    requires |p| > 0
    ensures Ev(p, x) == Add(Mul(Add(x, a), Ev(Quot(p, a)[..|p| - 1], x)), Ev(p, a))
  {
    var n := |p| - 1;
    var p' := p[..n];
    QuotPrefix(p, n, a);
    var c := p[n];
    if n == 0 {
      MulUnits(x);
      MulUnits(a);
      MulUnits(Add(x, a));
    } else {
      QuotIdentity(p', a, x);
      var q := Quot(p', a);
      assert p'[..n] == p';
      var h, r := Ev(q[..n - 1], x), Ev(p', a);
      assert Ev(q, x) == Add(Mul(x, h), r);
      var y := Add(x, a);
      // (x + a)(x h + r) + (a r + c) == x ((x + a) h + r) + c
      MulDistribRight(y, Mul(x, h), r);
      MulSwap(y, x, h);
      MulDistribLeft(x, a, r);
      MulDistribRight(x, Mul(y, h), r);
      var u, v, w := Mul(x, Mul(y, h)), Mul(x, r), Mul(a, r);
      AddAssoc(u, v, w);
      AddAssoc(Add(u, v), w, Add(w, c));
      AddAssoc(w, w, c);
      AddZero(w);
      AddZero(c);
    }
  }

  /** A polynomial whose leading coefficient is not zero has fewer distinct roots than coefficients. */
  lemma {:induction false} RootBound(p: Seq, xs: Seq)
    requires |p| > 0 && p[0] != 0
    requires Distinct(xs) && RootsOf(p, xs)
    ensures |xs| < |p|
    decreases |p|
  {
    if |xs| > 0 {
      var a := xs[|xs| - 1];
      var q := Quot(p, a)[..|p| - 1];
      if |p| == 1 {
        EvSingle(p, a);
      } else {
        EvSingle(p[..1], a);
        QuotAt(p, 0, a);
        var ys := xs[..|xs| - 1];
        forall i | 0 <= i < |ys| ensures Ev(q, ys[i]) == 0 {
          QuotIdentity(p, a, xs[i]);
          AddZero(Mul(Add(xs[i], a), Ev(q, xs[i])));
          AddIsZero(xs[i], a);
          NoZeroDivisors(Add(xs[i], a), Ev(q, xs[i]));
        }
        RootBound(q, ys);
      }
    }
  }

  /** A polynomial with as many distinct roots as coefficients is zero. */
  lemma {:induction false} ManyRoots(p: Seq, xs: Seq)
    requires Distinct(xs) && RootsOf(p, xs) && |p| <= |xs|
    ensures Zeros(p)
  {
    if |p| > 0 {
      if p[0] != 0 {
        RootBound(p, xs);
      } else {
        forall i | 0 <= i < |xs| ensures Ev(p[1..], xs[i]) == 0 {
          assert p == p[..1] + p[1..];
          EvConcat(p[..1], p[1..], xs[i]);
          EvZeros(p[..1], xs[i]);
          MulUnits(Pow(xs[i], |p| - 1));
          AddZero(Ev(p[1..], xs[i]));
        }
        ManyRoots(p[1..], xs);
      }
    }
  }

  // ---------------------------------------------------------------------------
  // The two readings

  lemma {:induction false} LoTrailing(p: Seq, k: nat, x: Byte)
    requires k <= |p| && ZerosFrom(p, k)
    ensures Lo(p, x) == Lo(p[..k], x)
  {
    if |p| == k {
      assert p[..k] == p;
    } else {
      var p' := p[..|p| - 1];
      assert p'[..k] == p[..k];
      LoTrailing(p', k, x);
      MulUnits(Pow(x, |p| - 1));
      AddZero(Lo(p', x));
    }
  }

  lemma {:induction false} PowInverse(x: Byte, y: Byte, k: nat)
    requires Mul(x, y) == 1
    ensures Mul(Pow(x, k), Pow(y, k)) == 1
  {
    if k == 0 {
      MulUnits(1);
    } else {
      PowInverse(x, y, k - 1);
      var u, v := Pow(x, k - 1), Pow(y, k - 1);
      MulAssoc(x, u, Mul(y, v));
      MulSwap(u, y, v);
      MulUnits(y);
    }
  }

  /** Lowest-first value at 1/x, scaled up, is the highest-first value at x. */
  lemma {:induction false} LoIsEv(p: Seq, x: Byte, y: Byte)
    requires |p| > 0 && Mul(y, x) == 1
    ensures Mul(Pow(x, |p| - 1), Lo(p, y)) == Ev(p, x)
  {
    var n := |p| - 1;
    var p' := p[..n];
    if n == 0 {
      assert Lo(p', y) == 0 && Ev(p', x) == 0;
      MulUnits(p[0]);
      MulUnits(x);
      MulUnits(Add(0, p[0]));
    } else {
      LoIsEv(p', x, y);
      MulDistribRight(Pow(x, n), Lo(p', y), Mul(p[n], Pow(y, n)));
      MulAssoc(x, Pow(x, n - 1), Lo(p', y));
      MulSwap(Pow(x, n), p[n], Pow(y, n));
      MulComm(x, y);
      PowInverse(x, y, n);
      MulUnits(p[n]);
    }
  }

  lemma LoRootIsEvRoot(p: Seq, x: Byte, y: Byte)
    requires |p| > 0 && Mul(y, x) == 1
    ensures Lo(p, y) == 0 <==> Ev(p, x) == 0
  {
    LoIsEv(p, x, y);
    MulUnits(y);
    PowNonzero(x, |p| - 1);
    NoZeroDivisors(Pow(x, |p| - 1), Lo(p, y));
  }
}
