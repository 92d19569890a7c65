/** The field of 256 elements used by the Reed-Solomon coder.

    A byte stands for a polynomial over the two-element field, bit k being the
    coefficient of z^k.  Addition is exclusive or; multiplication is the carry-less
    product reduced modulo z^8 + z^4 + z^3 + z^2 + 1 (0x11D).  The tables the coder
    builds are shown elsewhere to agree with the operations defined here. */
module GF256 {

  type Byte = bv8

  /** Field addition, the source's `^` on bytes. */
  function Add(a: Byte, b: Byte): Byte {
    a ^ b
  }

  /** Multiplication by z: shift left and reduce. */
  function Xtime(a: Byte): Byte {
    Add(a << 1, if a & 0x80 != 0 then 0x1D else 0)
  }

  /** Carry-less product of a and b modulo 0x11D, by Horner's rule over the bits of b. */
  function Mul(a: Byte, b: Byte): Byte
    decreases b
  {
    if b == 0 then 0 else Add(if b & 1 != 0 then a else 0, Xtime(Mul(a, b >> 1)))
  }

  /** The n-th power of the primitive element z (the byte 2). */
  function Exp(n: nat): Byte {
    if n == 0 then 1 else Xtime(Exp(n - 1))
  }

  /** The k-th power of x. */
  ghost function Pow(x: Byte, k: nat): Byte {
    if k == 0 then 1 else Mul(x, Pow(x, k - 1))
  }

  // ---------------------------------------------------------------------------
  // Addition

  lemma AddComm(a: Byte, b: Byte)
    ensures Add(a, b) == Add(b, a)
  {}

  lemma AddAssoc(a: Byte, b: Byte, c: Byte)
    ensures Add(Add(a, b), c) == Add(a, Add(b, c))
  {}

  lemma AddZero(a: Byte)
    ensures Add(a, 0) == a && Add(0, a) == a && Add(a, a) == 0
  {}

  lemma AddCancel(a: Byte, b: Byte)
    ensures Add(Add(a, b), b) == a && Add(a, Add(a, b)) == b
  {}

  lemma AddIsZero(a: Byte, b: Byte)
    ensures Add(a, b) == 0 <==> a == b
  {}

  lemma AddSwap(a: Byte, b: Byte, c: Byte, d: Byte)
    ensures Add(Add(a, b), Add(c, d)) == Add(Add(a, c), Add(b, d))
  {
    AddAssoc(a, b, Add(c, d));
    AddAssoc(b, c, d);
    AddComm(b, c);
    AddAssoc(c, b, d);
    AddAssoc(a, c, Add(b, d));
  }

  // ---------------------------------------------------------------------------
  // Multiplication is a commutative, associative, bilinear product with unit 1

  lemma XtimeAdd(a: Byte, b: Byte)
    ensures Xtime(Add(a, b)) == Add(Xtime(a), Xtime(b))
  {
    ShiftAdd(a, b);
    TopBitAdd(a, b);
    if a & 0x80 != 0 {
      AddSwap(a << 1, 0x1D, b << 1, if b & 0x80 != 0 then 0x1D else 0);
      AddZero(0x1D);
    } else {
      AddSwap(a << 1, 0, b << 1, if b & 0x80 != 0 then 0x1D else 0);
      AddZero(if b & 0x80 != 0 then 0x1D else 0);
    }
  }

  lemma ShiftAdd(a: Byte, b: Byte)
    ensures Add(a, b) << 1 == Add(a << 1, b << 1)
  {}

  lemma TopBitAdd(a: Byte, b: Byte)
    ensures Add(a, b) & 0x80 != 0 <==> (a & 0x80 != 0) != (b & 0x80 != 0)
  {}

  lemma {:induction false} MulDistribLeft(a: Byte, b: Byte, c: Byte)
    ensures Mul(Add(a, b), c) == Add(Mul(a, c), Mul(b, c))
    decreases c
  {
    if c != 0 {
      var d := c >> 1;
      MulDistribLeft(a, b, d);
      XtimeAdd(Mul(a, d), Mul(b, d));
      if c & 1 != 0 {
        AddSwap(a, b, Xtime(Mul(a, d)), Xtime(Mul(b, d)));
      } else {
        AddZero(Xtime(Mul(a, d)));
        AddZero(Xtime(Mul(b, d)));
        AddZero(Add(Xtime(Mul(a, d)), Xtime(Mul(b, d))));
      }
    } else {
      AddZero(0);
    }
  }

  lemma {:induction false} MulXtime(a: Byte, b: Byte)
    ensures Mul(Xtime(a), b) == Xtime(Mul(a, b))
    decreases b
  {
    if b != 0 {
      MulXtime(a, b >> 1);
      XtimeAdd(if b & 1 != 0 then a else 0, Xtime(Mul(a, b >> 1)));
      assert Xtime(0) == 0;
    }
  }

  lemma {:induction false} MulUnits(b: Byte)
    ensures Mul(1, b) == b && Mul(0, b) == 0 && Mul(b, 0) == 0 && Mul(b, 1) == b
    decreases b
  {
    assert b >> 1 == 0 <==> b == 0 || b == 1;
    MulOneLeft(b);
    MulZeroLeft(b);
    AddZero(b);
    assert Xtime(0) == 0;
    assert 1 as Byte >> 1 == 0;
  }

  lemma {:induction false} MulOneLeft(b: Byte)
    ensures Mul(1, b) == b
    decreases b
  {
    if b != 0 {
      MulOneLeft(b >> 1);
      assert Add(b & 1, Xtime(b >> 1)) == b;
      assert b & 1 == 0 || b & 1 == 1;
    }
  }

  lemma {:induction false} MulZeroLeft(b: Byte)
    ensures Mul(0, b) == 0
    decreases b
  {
    if b != 0 {
      MulZeroLeft(b >> 1);
      assert Xtime(0) == 0 && Add(0, 0) == 0;
    }
  }

  lemma {:induction false} MulComm(a: Byte, b: Byte)
    ensures Mul(a, b) == Mul(b, a)
    decreases b
  {
    if b == 0 {
      MulZeroLeft(a);
    } else {
      var c := b >> 1;
      MulComm(a, c);
      MulXtime(c, a);
      MulDistribLeft(b & 1, Xtime(c), a);
      assert Add(b & 1, Xtime(c)) == b;
      assert b & 1 == 0 || b & 1 == 1;
      MulOneLeft(a);
      MulZeroLeft(a);
    }
  }

  lemma MulDistribRight(a: Byte, b: Byte, c: Byte)
    ensures Mul(a, Add(b, c)) == Add(Mul(a, b), Mul(a, c))
  {
    MulDistribLeft(b, c, a);
    MulComm(a, Add(b, c));
    MulComm(a, b);
    MulComm(a, c);
  }

  lemma {:induction false} MulAssoc(a: Byte, b: Byte, c: Byte)
    ensures Mul(Mul(a, b), c) == Mul(a, Mul(b, c))
    decreases c
  {
    if c != 0 {
      var d := c >> 1;
      MulAssoc(a, b, d);
      var low := if c & 1 != 0 then b else 0;
      MulDistribRight(a, low, Xtime(Mul(b, d)));
      MulComm(a, Xtime(Mul(b, d)));
      MulXtime(Mul(b, d), a);
      MulComm(Mul(b, d), a);
    }
  }

  /** a * (b * c) == b * (a * c). */
  lemma MulSwap(a: Byte, b: Byte, c: Byte)
    ensures Mul(a, Mul(b, c)) == Mul(b, Mul(a, c))
  {
    MulAssoc(a, b, c);
    MulComm(a, b);
    MulAssoc(b, a, c);
  }

  // ---------------------------------------------------------------------------
  // The powers of z run through every nonzero byte, with period 255

  lemma {:induction false} ExpAdd(m: nat, n: nat)
    ensures Exp(m + n) == Mul(Exp(m), Exp(n))
  {
    if m == 0 {
      MulUnits(Exp(n));
    } else {
      ExpAdd(m - 1, n);
      MulXtime(Exp(m - 1), Exp(n));
    }
  }

  /** None of the five powers of z that start at v equals 1. */
  ghost predicate AvoidsOne(v: Byte) {
    && v != 1 && Xtime(v) != 1 && Xtime(Xtime(v)) != 1
    && Xtime(Xtime(Xtime(v))) != 1 && Xtime(Xtime(Xtime(Xtime(v)))) != 1
  }

  lemma FiveSteps(n: nat, v: Byte)
    requires Exp(n) == v
    ensures Exp(n + 5) == Xtime(Xtime(Xtime(Xtime(Xtime(v)))))
    ensures AvoidsOne(v) ==> forall d | n <= d < n + 5 :: Exp(d) != 1
  {
    assert Exp(n + 1) == Xtime(Exp(n));
    assert Exp(n + 2) == Xtime(Exp(n + 1));
    assert Exp(n + 3) == Xtime(Exp(n + 2));
    assert Exp(n + 4) == Xtime(Exp(n + 3));
  }

  lemma PowersBelow35()
    ensures Exp(35) == 156
    ensures forall d | 1 <= d < 35 :: Exp(d) != 1
  {
    assert Exp(1) == 2 && Exp(2) == 4 && Exp(3) == 8 && Exp(4) == 16;
    FiveSteps(0, 1); FiveSteps(5, 32); FiveSteps(10, 116); FiveSteps(15, 38); FiveSteps(20, 180);
    FiveSteps(25, 3); FiveSteps(30, 96);
  }

  lemma PowersBelow75()
    requires Exp(35) == 156
    ensures Exp(75) == 15
    ensures forall d | 35 <= d < 75 :: Exp(d) != 1
  {
    FiveSteps(35, 156); FiveSteps(40, 106); FiveSteps(45, 193); FiveSteps(50, 5); FiveSteps(55, 160);
    FiveSteps(60, 185); FiveSteps(65, 190); FiveSteps(70, 94);
  }

  lemma PowersBelow120()
    requires Exp(75) == 15
    ensures Exp(120) == 59
    ensures forall d | 75 <= d < 120 :: Exp(d) != 1
  {
    FiveSteps(75, 15); FiveSteps(80, 253); FiveSteps(85, 214); FiveSteps(90, 223); FiveSteps(95, 226);
    FiveSteps(100, 17); FiveSteps(105, 26); FiveSteps(110, 103); FiveSteps(115, 124);
  }

  lemma PowersBelow165()
    requires Exp(120) == 59
    ensures Exp(165) == 145
    ensures forall d | 120 <= d < 165 :: Exp(d) != 1
  {
    FiveSteps(120, 59); FiveSteps(125, 51); FiveSteps(130, 46); FiveSteps(135, 169); FiveSteps(140, 132);
    FiveSteps(145, 77); FiveSteps(150, 85); FiveSteps(155, 114); FiveSteps(160, 230);
  }

  lemma PowersBelow210()
    requires Exp(165) == 145
    ensures Exp(210) == 89
    ensures forall d | 165 <= d < 210 :: Exp(d) != 1
  {
    FiveSteps(165, 145); FiveSteps(170, 215); FiveSteps(175, 255); FiveSteps(180, 150); FiveSteps(185, 55);
    FiveSteps(190, 174); FiveSteps(195, 100); FiveSteps(200, 28); FiveSteps(205, 167);
  }

  lemma PowersBelow255()
    requires Exp(210) == 89
    ensures Exp(255) == 1
    ensures forall d | 210 <= d < 255 :: Exp(d) != 1
  {
    FiveSteps(210, 89); FiveSteps(215, 239); FiveSteps(220, 172); FiveSteps(225, 36); FiveSteps(230, 244);
    FiveSteps(235, 235); FiveSteps(240, 44); FiveSteps(245, 233); FiveSteps(250, 108);
  }

  /** The multiplicative order of z is exactly 255. */
  lemma OrderIs255()
    ensures Exp(255) == 1
    ensures forall d | 1 <= d < 255 :: Exp(d) != 1
  {
    PowersBelow35();
    PowersBelow75();
    PowersBelow120();
    PowersBelow165();
    PowersBelow210();
    PowersBelow255();
  }

  lemma {:induction false} ExpNonzero(n: nat)
    ensures Exp(n) != 0
  {
    if n > 0 {
      ExpNonzero(n - 1);
      var v := Exp(n - 1);
      assert v != 0 ==> Xtime(v) != 0;
    }
  }

  lemma {:induction false} NoZeroDivisors(a: Byte, b: Byte)
    ensures Mul(a, b) == 0 <==> a == 0 || b == 0
  {
    MulUnits(a);
    MulUnits(b);
    if a != 0 && b != 0 {
      var i, j := Log(a), Log(b);
      ExpAdd(i, j);
      ExpNonzero(i + j);
    }
  }

  lemma ExpInjective(i: nat, j: nat)
    requires i < j < 255
    ensures Exp(i) != Exp(j)
  {
    OrderIs255();
    ExpAdd(j - i, i);
    ExpAdd(255 - i, i);
    ExpAdd(255 - i, j);
    ExpAdd(255, j - i);
    MulUnits(Exp(j - i));
    assert Exp(j - i) != 1;
  }

  lemma ExpPeriod(n: nat)
    ensures Exp(n + 255) == Exp(n)
  {
    OrderIs255();
    ExpAdd(n, 255);
    MulUnits(Exp(n));
  }

  /** Exponents may be reduced modulo 255. */
  lemma {:induction false} ExpMod(n: nat)
    ensures Exp(n) == Exp(n % 255)
  {
    if n >= 255 {
      ExpMod(n - 255);
      ExpPeriod(n - 255);
    }
  }

  /** Distinct numbers between 1 and |s| fill that interval. */
  lemma {:induction false} Pigeonhole(s: seq<int>, n: nat, v: int)
    requires |s| == n && 1 <= v <= n
    requires forall k :: 0 <= k < n ==> 1 <= s[k] <= n
    requires forall j, k :: 0 <= j < k < n ==> s[j] != s[k]
    ensures v in s
    decreases n
  {
    if n in s {
      if v != n {
        var k :| 0 <= k < n && s[k] == n;
        var t := s[..k] + s[k + 1..];
        Pigeonhole(t, n - 1, v);
      }
    } else {
      Pigeonhole(s[..n - 1], n - 1, s[n - 1]);
    }
  }

  ghost predicate IsLog(k: nat, v: Byte) {
    k < 255 && Exp(k) == v
  }

  ghost function ByteToInt(v: Byte): (i: int)
    ensures 0 <= i < 256 && (i == 0 <==> v == 0)
  {
    v as int
  }

  lemma ByteToIntInjective(v: Byte, w: Byte)
    requires ByteToInt(v) == ByteToInt(w)
    ensures v == w
  {}

  /** Every nonzero byte is a power of z. */
  lemma EveryNonzeroIsPower(v: Byte)
    requires v != 0
    ensures exists k: nat :: IsLog(k, v)
  {
    var n: nat :| n == 255;
    var s := seq(n, (k: nat) => ByteToInt(Exp(k)));
    forall k | 0 <= k < n ensures 1 <= s[k] <= n {
      ExpNonzero(k);
    }
    forall j, k | 0 <= j < k < n ensures s[j] != s[k] {
      ExpInjective(j, k);
      if s[j] == s[k] {
        ByteToIntInjective(Exp(j), Exp(k));
      }
    }
    Pigeonhole(s, n, ByteToInt(v));
    var k :| 0 <= k < n && s[k] == ByteToInt(v);
    ByteToIntInjective(Exp(k), v);
    assert IsLog(k, v);
  }

  /** The discrete logarithm to base z. */
  ghost function Log(v: Byte): (k: nat)
    requires v != 0
    ensures k < 255 && Exp(k) == v
  {
    EveryNonzeroIsPower(v);
    var k: nat :| IsLog(k, v);
    k
  }

  lemma LogUnique(k: nat)
    requires k < 255
    ensures Exp(k) != 0 && Log(Exp(k)) == k
  {
    ExpNonzero(k);
    var j := Log(Exp(k));
    if j < k {
      ExpInjective(j, k);
    } else if k < j {
      ExpInjective(k, j);
    }
  }

  ghost function Inv(v: Byte): (w: Byte)
    requires v != 0
    ensures Mul(v, w) == 1 && w != 0
  {
    ExpAdd(Log(v), 255 - Log(v));
    OrderIs255();
    ExpNonzero(255 - Log(v));
    Exp(255 - Log(v))
  }

  // ---------------------------------------------------------------------------
  // Powers

  lemma {:induction false} PowAdd(x: Byte, m: nat, n: nat)
    ensures Pow(x, m + n) == Mul(Pow(x, m), Pow(x, n))
  {
    if m == 0 {
      MulUnits(Pow(x, n));
    } else {
      PowAdd(x, m - 1, n);
      MulAssoc(x, Pow(x, m - 1), Pow(x, n));
    }
  }

  lemma {:induction false} PowExp(a: nat, k: nat)
    ensures Pow(Exp(a), k) == Exp(a * k)
  {
    if k > 0 {
      PowExp(a, k - 1);
      ExpAdd(a, a * (k - 1));
      assert a + a * (k - 1) == a * k;
    }
  }

  lemma {:induction false} PowNonzero(x: Byte, k: nat)
    requires x != 0
    ensures Pow(x, k) != 0
  {
    if k > 0 {
      PowNonzero(x, k - 1);
      NoZeroDivisors(x, Pow(x, k - 1));
    }
  }
}
