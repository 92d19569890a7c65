/** Products of coefficient arrays, the generator polynomial and the parity register. */
module Generator {
  import opened GF256
  import opened Poly
  import opened Recurrence
  import opened Locators
  import opened Codewords

  /** Coefficient i of q, zero outside q (an unset entry of a source array counts as zero). */
  ghost function At(q: Seq, i: int): Byte {
    if 0 <= i < |q| then q[i] else 0
  }

  /** Coefficient m of p * q, from the first i coefficients of p. */
  ghost function Conv(p: Seq, q: Seq, m: nat, i: nat): Byte
    requires i <= |p|
  {
    if i == 0 then 0 else Add(Conv(p, q, m, i - 1), Mul(At(q, m - (i - 1)), p[i - 1]))
  }

  /** The first len coefficients of p[..i] * q. */
  ghost function Product(p: Seq, q: Seq, len: nat, i: nat): (r: Seq)
    requires i <= |p|
    ensures |r| == len && forall m :: 0 <= m < len ==> r[m] == Conv(p, q, m, i)
  {
    seq(len, (m: nat) => Conv(p, q, m, i))
  }

  /** A padded copy of g. */
  ghost predicate IsPadded(a: Seq, g: Seq) {
    |g| <= |a| && a[..|g|] == g && ZerosFrom(a, |g|)
  }

  // ---------------------------------------------------------------------------
  // Lowest-first values

  lemma {:induction false} LoSum(p: Seq, q: Seq, z: Byte)
    requires |p| == |q|
    ensures Lo(Sum(p, q), z) == Add(Lo(p, z), Lo(q, z))
  {
    if |p| == 0 {
      AddZero(0);
    } else {
      var n := |p| - 1;
      LoSum(p[..n], q[..n], z);
      assert Sum(p, q)[..n] == Sum(p[..n], q[..n]);
      MulDistribLeft(p[n], q[n], Pow(z, n));
      AddSwap(Lo(p[..n], z), Lo(q[..n], z), Mul(p[n], Pow(z, n)), Mul(q[n], Pow(z, n)));
    }
  }

  lemma {:induction false} LoScale(p: Seq, a: Byte, z: Byte)
    ensures Lo(Scale(p, a), z) == Mul(a, Lo(p, z))
  {
    if |p| == 0 {
      MulUnits(a);
    } else {
      var n := |p| - 1;
      LoScale(p[..n], a, z);
      assert Scale(p, a)[..n] == Scale(p[..n], a);
      MulAssoc(a, p[n], Pow(z, n));
      MulDistribRight(a, Lo(p[..n], z), Mul(p[n], Pow(z, n)));
    }
  }

  lemma {:induction false} LoConcat(p: Seq, q: Seq, z: Byte)
    ensures Lo(p + q, z) == Add(Lo(p, z), Mul(Pow(z, |p|), Lo(q, z)))
  {
    if |q| == 0 {
      assert p + q == p;
      MulUnits(Pow(z, |p|));
      AddZero(Lo(p, z));
    } else {
      var n := |q| - 1;
      LoConcat(p, q[..n], z);
      assert (p + q)[..|p| + n] == p + q[..n];
      PowAdd(z, |p|, n);
      MulSwap(q[n], Pow(z, |p|), Pow(z, n));
      MulDistribRight(Pow(z, |p|), Lo(q[..n], z), Mul(q[n], Pow(z, n)));
      AddAssoc(Lo(p, z), Mul(Pow(z, |p|), Lo(q[..n], z)),
               Mul(Pow(z, |p|), Mul(q[n], Pow(z, n))));
    }
  }

  lemma {:induction false} LoZeros(p: Seq, z: Byte)
    requires Zeros(p)
    ensures Lo(p, z) == 0
  {
    LoTrailing(p, 0, z);
    assert p[0..] == p;
  }

  ghost function ZeroSeq(n: nat): (r: Seq)
    ensures |r| == n && Zeros(r)
  {
    seq(n, _ => 0)
  }

  /** No term is lost: the product's value is the product of the values. */
  lemma {:induction false} ProductValue(p: Seq, q: Seq, len: nat, i: nat, z: Byte)
    requires i <= |p| && |p| + |q| <= len + 1
    ensures Lo(Product(p, q, len, i), z) == Mul(Lo(p[..i], z), Lo(q, z))
  {
    var r := Product(p, q, len, i);
    if i == 0 {
      LoZeros(r, z);
      assert Lo(p[..0], z) == 0;
      MulUnits(Lo(q, z));
    } else {
      var l := i - 1;
      var r' := Product(p, q, len, l);
      ProductValue(p, q, len, l, z);
      LoPrefix(p, l, z);
      var row := ZeroSeq(l) + Scale(q, p[l]) + ZeroSeq(len - l - |q|);
      forall m | 0 <= m < len ensures r[m] == Add(r'[m], row[m]) {
        MulUnits(p[l]);
        if l <= m < l + |q| {
          MulComm(p[l], q[m - l]);
        }
      }
      assert r == Sum(r', row);
      LoSum(r', row, z);
      LoConcat(ZeroSeq(l) + Scale(q, p[l]), ZeroSeq(len - l - |q|), z);
      LoConcat(ZeroSeq(l), Scale(q, p[l]), z);
      LoZeros(ZeroSeq(l), z);
      LoZeros(ZeroSeq(len - l - |q|), z);
      LoScale(q, p[l], z);
      MulUnits(Pow(z, l + |q|));
      var e := Mul(Pow(z, l), Mul(p[l], Lo(q, z)));
      AddZero(e);
      AddZero(Lo(row, z));
      MulAssoc(Pow(z, l), p[l], Lo(q, z));
      MulComm(Pow(z, l), p[l]);
      MulDistribLeft(Lo(p[..l], z), Mul(p[l], Pow(z, l)), Lo(q, z));
    }
  }

  /** A coefficient of a product below |s| is a window of s. */
  lemma {:induction false} ConvIsWin(p: Seq, s: Seq, k: nat, i: nat)
    requires k < |s| && i <= |p| && k < |p|
    ensures i <= k + 1 ==> Conv(p, s, k, i) == Win(p[..i], s, k + 1 - i)
    ensures i > k ==> Conv(p, s, k, i) == Win(p[..k + 1], s, 0)
  {
    if 0 < i {
      ConvIsWin(p, s, k, i - 1);
      if i <= k + 1 {
        assert p[..i][..i - 1] == p[..i - 1];
        MulComm(p[i - 1], s[k + 1 - i]);
      } else {
        MulUnits(p[i - 1]);
        AddZero(Conv(p, s, k, i - 1));
      }
    }
  }

  // ---------------------------------------------------------------------------
  // The generator polynomial

  /** (x + z^0)(x + z^1) ... (x + z^(n-1)), lowest degree first. */
  ghost function GeneratorPoly(n: nat): (g: Seq)
    ensures |g| == n + 1
  {
    if n == 0 then [1]
    else
      var g := GeneratorPoly(n - 1);
      Sum(Scale(g, Exp(n - 1)) + [0], [0] + g)
  }

  /** Its value is the product of the values of its linear factors. */
  lemma GeneratorFactor(n: nat, z: Byte)
    requires n > 0
    ensures Lo(GeneratorPoly(n), z) == Mul(Add(z, Exp(n - 1)), Lo(GeneratorPoly(n - 1), z))
  {
    var h, a := GeneratorPoly(n - 1), Exp(n - 1);
    LoSum(Scale(h, a) + [0], [0] + h, z);
    LoConcat(Scale(h, a), [0], z);
    LoConcat([0], h, z);
    LoScale(h, a, z);
    LoZeros([0], z);
    MulUnits(Pow(z, n));
    MulUnits(z);
    assert Pow(z, 1) == Mul(z, Pow(z, 0));
    AddZero(Mul(a, Lo(h, z)));
    AddZero(Mul(z, Lo(h, z)));
    AddComm(Mul(a, Lo(h, z)), Mul(z, Lo(h, z)));
    MulDistribLeft(z, a, Lo(h, z));
  }

  lemma {:induction false} GeneratorMonic(n: nat)
    ensures GeneratorPoly(n)[n] == 1
  {
    if n > 0 {
      GeneratorMonic(n - 1);
      AddZero(1);
    }
  }

  ghost predicate IsPowerBelow(z: Byte, n: nat) {
    exists j: nat :: j < n && z == Exp(j)
  }

  lemma PowerBelowStep(z: Byte, n: nat)
    requires n > 0
    ensures IsPowerBelow(z, n) <==> z == Exp(n - 1) || IsPowerBelow(z, n - 1)
  {}

  /** Its roots are exactly z^0 .. z^(n-1). */
  lemma {:induction false} GeneratorRoots(n: nat, z: Byte)
    ensures Lo(GeneratorPoly(n), z) == 0 <==> IsPowerBelow(z, n)
  {
    if n == 0 {
      LoPrefix([1], 0, z);
      MulUnits(1);
      AddZero(1);
    } else {
      GeneratorRoots(n - 1, z);
      GeneratorFactor(n, z);
      NoZeroDivisors(Add(z, Exp(n - 1)), Lo(GeneratorPoly(n - 1), z));
      AddIsZero(z, Exp(n - 1));
      PowerBelowStep(z, n);
    }
  }

  /** Multiplying by a linear factor, as the product of padded arrays computes it. */
  lemma {:induction false} LinearConv(p: Seq, q: Seq, m: nat, i: nat)
    requires 2 <= i <= |p| && p[1] == 1 && ZerosFrom(p, 2)
    ensures Conv(p, q, m, i) == Add(Mul(p[0], At(q, m)), At(q, m - 1))
  {
    if i == 2 {
      assert Conv(p, q, m, 0) == 0;
      assert Conv(p, q, m, 1) == Add(0, Mul(At(q, m), p[0]));
      AddZero(Mul(At(q, m), p[0]));
      MulComm(At(q, m), p[0]);
      MulUnits(At(q, m - 1));
    } else {
      LinearConv(p, q, m, i - 1);
      assert p[i - 1] == p[2..][i - 3];
      MulUnits(At(q, m - (i - 1)));
      AddZero(Conv(p, q, m, i - 1));
    }
  }

  lemma LinearProductIsGenerator(p: Seq, q: Seq, k: nat, len: nat)
    requires |p| >= 2 && p[0] == Exp(k) && p[1] == 1 && ZerosFrom(p, 2)
    requires IsPadded(q, GeneratorPoly(k)) && k + 2 <= len
    ensures IsPadded(Product(p, q, len, |p|), GeneratorPoly(k + 1))
  {
    var g, h, r := GeneratorPoly(k + 1), GeneratorPoly(k), Product(p, q, len, |p|);
    forall m | 0 <= m < len ensures r[m] == At(g, m) {
      LinearConv(p, q, m, |p|);
      MulUnits(p[0]);
      forall i: int ensures At(q, i) == At(h, i) {
        if 0 <= i < |h| {
          assert q[i] == q[..|h|][i];
        } else if |h| <= i < |q| {
          assert q[i] == q[|h|..][i - |h|];
        }
      }
      if m == 0 {
        AddZero(Mul(p[0], h[0]));
      } else if m > k + 1 {
        AddZero(0);
      }
    }
    assert r[..k + 2] == g;
  }

  // ---------------------------------------------------------------------------
  // The parity register

  /** One step of the register on the message byte c. */
  lemma RegisterStep(before: Seq, after: Seq, g: Seq, b: Byte, c: Byte, a: Byte, h: Byte)
    requires |before| == |after| > 0 && |g| == |before| + 1 && g[|before|] == 1 && Lo(g, a) == 0
    requires b == Add(c, before[|before| - 1])
    requires forall j :: 0 <= j < |before| ==>
      after[j] == Add(if j == 0 then 0 else before[j - 1], Mul(b, g[j]))
    requires Lo(before, a) == Mul(Pow(a, |before|), h)
    ensures Lo(after, a) == Mul(Pow(a, |before|), Add(Mul(a, h), c))
  {
    var n := |before|;
    var top := before[n - 1];
    var low := before[..n - 1];
    var e := Pow(a, n);
    assert after == Sum([0] + low, Scale(g[..n], b));
    LoSum([0] + low, Scale(g[..n], b), a);
    LoConcat([0], low, a);
    LoZeros([0], a);
    LoScale(g[..n], b, a);
    assert Pow(a, 1) == Mul(a, Pow(a, 0));
    MulUnits(a);
    MulUnits(e);
    AddZero(Mul(a, Lo(low, a)));
    AddIsZero(Lo(g[..n], a), e);
    // Lo(new) == a*Lo(low) + b*a^n, and Lo(old) == Lo(low) + top*a^(n-1)
    MulDistribRight(a, Lo(low, a), Mul(top, Pow(a, n - 1)));
    MulSwap(a, top, Pow(a, n - 1));
    var u, v := Mul(a, Lo(low, a)), Mul(top, e);
    MulDistribLeft(c, top, e);
    AddComm(Mul(c, e), v);
    AddAssoc(u, v, Mul(c, e));
    MulSwap(a, e, h);
    MulDistribRight(e, Mul(a, h), c);
    MulComm(c, e);
  }

  /** The register holds the message so far times x^n, at every root of the generator. */
  ghost predicate HoldsMessage(reg: Seq, msg: Seq, n: nat) {
    |reg| == n && forall j: nat :: j < n ==> RegisterAgrees(reg, msg, n, j)
  }

  ghost predicate RegisterAgrees(reg: Seq, msg: Seq, n: nat, j: nat) {
    Lo(reg, Exp(j)) == Mul(Pow(Exp(j), n), Ev(msg, Exp(j)))
  }

  lemma RegisterStart(reg: Seq, n: nat)
    requires |reg| == n && Zeros(reg)
    ensures HoldsMessage(reg, [], n)
  {
    forall j: nat | j < n ensures RegisterAgrees(reg, [], n, j) {
      LoZeros(reg, Exp(j));
      MulUnits(Pow(Exp(j), n));
    }
  }

  /** Cell k of the register after a step with feedback b. */
  ghost function NextCell(reg: Seq, g: Seq, b: Byte, k: nat): Byte
    requires k < |g| && k <= |reg|
  {
    Add(if k == 0 then 0 else reg[k - 1], Mul(g[k], b))
  }

  lemma HoldsMessageStep(before: Seq, after: Seq, msg: Seq, c: Byte, padded: Seq, n: nat)
    requires 0 < n < |before| && HoldsMessage(before[..n], msg, n) && |after| == n
    requires IsPadded(padded, GeneratorPoly(n))
    requires forall k {:trigger after[k]} :: 0 <= k < n ==>
      after[k] == NextCell(before, padded, Add(c, before[n - 1]), k)
    ensures HoldsMessage(after, msg + [c], n)
  {
    var g, b := GeneratorPoly(n), Add(c, before[n - 1]);
    forall k | 0 <= k < n
      ensures after[k] == Add(if k == 0 then 0 else before[..n][k - 1], Mul(b, g[k]))
    {
      assert padded[k] == padded[..n + 1][k];
      MulComm(b, g[k]);
    }
    GeneratorMonic(n);
    forall j: nat | j < n ensures RegisterAgrees(after, msg + [c], n, j) {
      var a := Exp(j);
      assert RegisterAgrees(before[..n], msg, n, j);
      assert IsPowerBelow(a, n);
      GeneratorRoots(n, a);
      RegisterStep(before[..n], after, g, b, c, a, Ev(msg, a));
      EvPrefix(msg + [c], |msg|, a);
      assert (msg + [c])[..|msg|] == msg;
      assert (msg + [c])[..|msg| + 1] == msg + [c];
    }
  }

  lemma {:induction false} ReversedValue(p: Seq, r: Seq, a: Byte)
    requires |p| == |r| && forall i :: 0 <= i < |p| ==> p[i] == r[|r| - 1 - i]
    ensures Ev(p, a) == Lo(r, a)
  {
    if |p| > 0 {
      var n := |p| - 1;
      ReversedValue(p[1..], r[..n], a);
      assert p == p[..1] + p[1..];
      EvConcat(p[..1], p[1..], a);
      EvSingle(p[..1], a);
      MulComm(Pow(a, n), p[0]);
      AddComm(Mul(p[0], Pow(a, n)), Lo(r[..n], a));
    }
  }

  /** A register that holds message(a)*a^n at every root a, read out, completes a codeword. */
  lemma RegisterCompletes(msg: Seq, parity: Seq, reg: Seq, n: nat)
    requires |parity| == |reg| == n
    requires forall i :: 0 <= i < n ==> parity[i] == reg[n - 1 - i]
    requires HoldsMessage(reg, msg, n)
    ensures IsCodeword(msg + parity, n)
  {
    forall j: nat | j < n ensures Ev(msg + parity, Exp(j)) == 0 {
      var a := Exp(j);
      assert RegisterAgrees(reg, msg, n, j);
      EvConcat(msg, parity, a);
      ReversedValue(parity, reg, a);
      AddZero(Lo(reg, a));
    }
  }
}
