/** Words as four bit-vectors, on which the operations of SHA-1 can be worked out. */
module BitVectors {
  import opened BitStream
  import opened Numbers
  import opened Sha1

  type Bits = bv8

  /** The bytes of a word, most significant first. */
  datatype Quad = Quad(a: Bits, b: Bits, c: Bits, d: Bits)

  /** The word with these bytes. */
  function Four(a: Octet, b: Octet, c: Octet, d: Octet): (w: nat)
    ensures w < 0x1_0000_0000
  {
    0x100 * (0x100 * (0x100 * a + b) + c) + d
  }

  function Byte(x: Bits): Octet {
    x as nat
  }

  function WordAs(q: Quad): Word {
    Four(Byte(q.a), Byte(q.b), Byte(q.c), Byte(q.d))
  }

  // ---------------------------------------------------------------------------
  // Logic

  function BitwiseOf(op: BitOp, x: Bits, y: Bits): Bits {
    match op
    case AND => x & y
    case OR => x | y
    case XOR => x ^ y
  }

  function Low(x: Bits): nat {
    if x & 1 == 1 then 1 else 0
  }

  lemma Halved(x: Bits)
    ensures (x as nat) / 2 == (x >> 1) as nat && (x as nat) % 2 == Low(x)
  {}

  lemma Halves(op: BitOp, x: Bits, y: Bits)
    ensures BitwiseOf(op, x, y) >> 1 == BitwiseOf(op, x >> 1, y >> 1)
    ensures Low(BitwiseOf(op, x, y)) == op.Bit(Low(x), Low(y))
  {}

  lemma JoinFromHalf(op: BitOp, x: nat, y: nat, z: nat, k: nat)
    requires k > 0 && z / 2 == Join(op, x / 2, y / 2, k - 1) && z % 2 == op.Bit(x % 2, y % 2)
    ensures z == Join(op, x, y, k)
  {}

  lemma Zero(x: Bits)
    requires (x as nat) == 0
    ensures x == 0
  {}

  lemma BothZero(op: BitOp, x: Bits, y: Bits)
    requires (x as nat) == 0 && (y as nat) == 0
    ensures (BitwiseOf(op, x, y) as nat) == 0
  {
    Zero(x);
    Zero(y);
  }

  lemma HalvesAre(op: BitOp, x: Bits, y: Bits, z: Bits)
    requires z == BitwiseOf(op, x, y)
    ensures z >> 1 == BitwiseOf(op, x >> 1, y >> 1)
    ensures (x as nat) / 2 == (x >> 1) as nat && (y as nat) / 2 == (y >> 1) as nat && (z as nat) / 2 == (z >> 1) as nat
    ensures (z as nat) % 2 == op.Bit((x as nat) % 2, (y as nat) % 2)
  {
    Halved(x);
    Halved(y);
    Halved(z);
    Halves(op, x, y);
  }

  lemma {:induction false} JoinedBits(op: BitOp, x: Bits, y: Bits, z: Bits, k: nat)
    requires (x as nat) < Pow2(k) && (y as nat) < Pow2(k) && z == BitwiseOf(op, x, y)
    ensures (z as nat) == Join(op, x as nat, y as nat, k)
    decreases k
  {
    if k == 0 {
      BothZero(op, x, y);
    } else {
      HalvesAre(op, x, y, z);
      JoinedBits(op, x >> 1, y >> 1, z >> 1, k - 1);
      JoinFromHalf(op, x as nat, y as nat, z as nat, k);
    }
  }

  /** The low j bits join beside the others. */
  lemma {:induction false} JoinedBeside(op: BitOp, x: nat, y: nat, n: nat, m: nat, j: nat, k: nat, x': nat, y': nat)
    requires n < Pow2(j) && m < Pow2(j) && x' == ShiftLeft(x, j) + n && y' == ShiftLeft(y, j) + m
    ensures Join(op, x', y', k + j) == ShiftLeft(Join(op, x, y, k), j) + Join(op, n, m, j)
    decreases j
  {
    if j > 0 {
      assert x' / 2 == ShiftLeft(x, j - 1) + n / 2 && y' / 2 == ShiftLeft(y, j - 1) + m / 2;
      JoinedBeside(op, x, y, n / 2, m / 2, j - 1, k, x' / 2, y' / 2);
    }
  }

  /** One byte more; e is eight. */
  lemma JoinedNext(op: BitOp, x: nat, y: nat, z: nat, p: Octet, q: Octet, r: Octet, k: nat, e: nat,
                   x': nat, y': nat, z': nat)
    requires z == Join(op, x, y, k) && e == 8 && r == Join(op, p, q, e)
    requires x' == 0x100 * x + p && y' == 0x100 * y + q && z' == 0x100 * z + r
    ensures z' == Join(op, x', y', k + e)
  {
    Multiples(x);
    Multiples(y);
    Multiples(z);
    JoinedBeside(op, x, y, p, q, e, k, x', y');
  }

  function QuadOf(op: BitOp, x: Quad, y: Quad): Quad {
    Quad(BitwiseOf(op, x.a, y.a), BitwiseOf(op, x.b, y.b), BitwiseOf(op, x.c, y.c), BitwiseOf(op, x.d, y.d))
  }

  lemma JoinedOctet(op: BitOp, x: Bits, y: Bits, z: Bits, e: nat)
    requires z == BitwiseOf(op, x, y) && e == 8
    ensures Byte(z) == Join(op, Byte(x), Byte(y), e)
  {
    Multiples(0);
    JoinedBits(op, x, y, z, e);
  }

  /** Four bytes, with the numbers of two, three and four of them. */
  lemma JoinedFour(op: BitOp, xa: Octet, xb: Octet, xc: Octet, xd: Octet, ya: Octet, yb: Octet, yc: Octet, yd: Octet,
                   a: Octet, b: Octet, c: Octet, d: Octet, e: nat,
                   x2: nat, x3: nat, x4: nat, y2: nat, y3: nat, y4: nat, z2: nat, z3: nat, z4: nat)
    requires e == 8 && a == Join(op, xa, ya, e) && b == Join(op, xb, yb, e)
    requires c == Join(op, xc, yc, e) && d == Join(op, xd, yd, e)
    requires x2 == 0x100 * xa + xb && x3 == 0x100 * x2 + xc && x4 == 0x100 * x3 + xd
    requires y2 == 0x100 * ya + yb && y3 == 0x100 * y2 + yc && y4 == 0x100 * y3 + yd
    requires z2 == 0x100 * a + b && z3 == 0x100 * z2 + c && z4 == 0x100 * z3 + d
    ensures z4 == Join(op, x4, y4, e + e + e + e)
  {
    JoinedNext(op, xa, ya, a, xb, yb, b, e, e, x2, y2, z2);
    JoinedNext(op, x2, y2, z2, xc, yc, c, e + e, e, x3, y3, z3);
    JoinedNext(op, x3, y3, z3, xd, yd, d, e + e + e, e, x4, y4, z4);
  }

  /** An operation on words is that on their bytes. */
  lemma JoinedWord(op: BitOp, x: Quad, y: Quad, z: Quad, e: nat)
    requires z == QuadOf(op, x, y) && e == 8
    ensures WordAs(z) == Join(op, WordAs(x), WordAs(y), e + e + e + e)
  {
    JoinedOctet(op, x.a, y.a, z.a, e);
    JoinedOctet(op, x.b, y.b, z.b, e);
    JoinedOctet(op, x.c, y.c, z.c, e);
    JoinedOctet(op, x.d, y.d, z.d, e);
    var x2, y2, z2 := 0x100 * Byte(x.a) + Byte(x.b), 0x100 * Byte(y.a) + Byte(y.b), 0x100 * Byte(z.a) + Byte(z.b);
    var x3, y3, z3 := 0x100 * x2 + Byte(x.c), 0x100 * y2 + Byte(y.c), 0x100 * z2 + Byte(z.c);
    JoinedFour(op, Byte(x.a), Byte(x.b), Byte(x.c), Byte(x.d), Byte(y.a), Byte(y.b), Byte(y.c), Byte(y.d),
               Byte(z.a), Byte(z.b), Byte(z.c), Byte(z.d), e, x2, x3, WordAs(x), y2, y3, WordAs(y), z2, z3, WordAs(z));
  }

  function NotQuad(q: Quad): Quad {
    Quad(!q.a, !q.b, !q.c, !q.d)
  }

  lemma NotBits(x: Bits)
    ensures Byte(!x) == 0xFF - Byte(x)
  {}

  lemma NotWord(q: Quad)
    ensures Not(WordAs(q)) == WordAs(NotQuad(q))
  {
    NotBits(q.a);
    NotBits(q.b);
    NotBits(q.c);
    NotBits(q.d);
  }

  // ---------------------------------------------------------------------------
  // Rotations

  /** A rotation exchanges the high part h and the low part l. */
  lemma Rotated(w: Word, n: nat, h: nat, l: nat)
    requires n <= 32 && h < Pow2(n) && ShiftLeft(w, n) == 0x1_0000_0000 * h + ShiftLeft(l, n)
    requires ShiftLeft(l, n) < 0x1_0000_0000 && w / Pow2(32 - n) == h
    ensures RotL(w, n) == ShiftLeft(l, n) + h
  {
    ShiftRightIs(w, 32 - n);
    LeftPart(w, n, h, ShiftLeft(l, n));
    OrParts(ShiftLeft(l, n), l, h, n);
  }

  lemma LeftPart(w: Word, n: nat, h: nat, l: nat)
    requires ShiftLeft(w, n) == 0x1_0000_0000 * h + l && l < 0x1_0000_0000
    ensures Left(w, n) == l
  {}

  lemma OrParts(x: Word, l: nat, h: Word, n: nat)
    requires n <= 32 && x == ShiftLeft(l, n) && h < Pow2(n)
    ensures Or(x, h) == x + h
  {
    Pow2Word();
    OrAdds(l, h, n, 32);
  }

  lemma AndWord(x: Quad, y: Quad)
    ensures And(WordAs(x), WordAs(y)) == WordAs(QuadOf(AND, x, y))
  {
    JoinedWord(AND, x, y, QuadOf(AND, x, y), 8);
  }

  lemma XorWord(x: Quad, y: Quad)
    ensures Xor(WordAs(x), WordAs(y)) == WordAs(QuadOf(XOR, x, y))
  {
    JoinedWord(XOR, x, y, QuadOf(XOR, x, y), 8);
  }

  function RotByFive(q: Quad): Quad {
    Quad((q.a << 5) | (q.b >> 3), (q.b << 5) | (q.c >> 3), (q.c << 5) | (q.d >> 3), (q.d << 5) | (q.a >> 3))
  }

  function RotByOne(q: Quad): Quad {
    Quad((q.a << 1) | (q.b >> 7), (q.b << 1) | (q.c >> 7), (q.c << 1) | (q.d >> 7), (q.d << 1) | (q.a >> 7))
  }

  function RotByThirty(q: Quad): Quad {
    Quad((q.a >> 2) | (q.d << 6), (q.b >> 2) | (q.a << 6), (q.c >> 2) | (q.b << 6), (q.d >> 2) | (q.c << 6))
  }

  lemma ShiftedUp(x: Bits)
    ensures Byte(x << 5) == 32 * (Byte(x) % 8)
  {}

  lemma ShiftedUpSix(x: Bits)
    ensures Byte(x << 6) == 64 * (Byte(x) % 4)
  {}

  lemma ShiftedUpOne(x: Bits)
    ensures Byte(x << 1) == 2 * (Byte(x) % 128)
  {}

  lemma ShiftedDown(x: Bits)
    ensures Byte(x >> 3) == Byte(x) / 8 && Byte(x >> 2) == Byte(x) / 4 && Byte(x >> 7) == Byte(x) / 128
  {}

  lemma Beside(x: Bits, y: Bits)
    requires x & y == 0
    ensures Byte(x | y) == Byte(x) + Byte(y)
  {}

  lemma CutFive(x: Bits, y: Bits)
    ensures Byte((x << 5) | (y >> 3)) == 32 * (Byte(x) % 8) + Byte(y) / 8
  {
    Beside(x << 5, y >> 3);
    ShiftedUp(x);
    ShiftedDown(y);
  }

  lemma CutOne(x: Bits, y: Bits)
    ensures Byte((x << 1) | (y >> 7)) == 2 * (Byte(x) % 128) + Byte(y) / 128
  {
    Beside(x << 1, y >> 7);
    ShiftedUpOne(x);
    ShiftedDown(y);
  }

  lemma CutThirty(x: Bits, y: Bits)
    ensures Byte((x >> 2) | (y << 6)) == Byte(x) / 4 + 64 * (Byte(y) % 4)
  {
    Beside(x >> 2, y << 6);
    ShiftedUpSix(y);
    ShiftedDown(x);
  }

  lemma Powers(v: nat)
    ensures Pow2(1) == 2 && Pow2(2) == 4 && Pow2(5) == 32
    ensures Pow2(27) == 0x800_0000 && Pow2(30) == 0x4000_0000 && Pow2(31) == 0x8000_0000
    ensures ShiftLeft(v, 1) == 2 * v && ShiftLeft(v, 5) == 32 * v && ShiftLeft(v, 30) == 0x4000_0000 * v
  {
    Multiples(v);
    Multiples(0x1_0000 * v);
    ShiftLeftTwice(v, 16, 8);
    FourSteps(v, 24);
    OneStep(v, 28);
    OneStep(v, 29);
    OneStep(v, 30);
    OneStep(v, 24);
    OneStep(v, 25);
    OneStep(v, 26);
    FourSteps(v, 1);
  }

  /** Rotating bytes by n bits, n < 8, with m = 2^n and r = 2^(8-n): the top bits of each byte go to the one
      before. */
  lemma BytesRotated(a: Octet, b: Octet, c: Octet, d: Octet, m: nat, r: nat)
    requires (m == 32 && r == 8) || (m == 2 && r == 128)
    ensures Four(a, b, c, d) == a / r * (r * 0x100_0000) + Four(a % r, b, c, d)
    ensures Four(a % r, b, c, d) < r * 0x100_0000
    ensures m * Four(a % r, b, c, d) + a / r
         == 0x100 * (0x100 * (0x100 * (m * (a % r) + b / r) + (m * (b % r) + c / r)) + (m * (c % r) + d / r))
            + (m * (d % r) + a / r)
  {}

  lemma RotatedLeft(a: Octet, b: Octet, c: Octet, d: Octet, a': Octet, b': Octet, c': Octet, d': Octet,
                    n: nat, m: nat, r: nat)
    requires (n == 5 && m == 32 && r == 8) || (n == 1 && m == 2 && r == 128)
    requires a' == m * (a % r) + b / r && b' == m * (b % r) + c / r
    requires c' == m * (c % r) + d / r && d' == m * (d % r) + a / r
    ensures RotL(Four(a, b, c, d), n) == Four(a', b', c', d')
  {
    BytesRotated(a, b, c, d, m, r);
    RotatedWith(Four(a, b, c, d), n, a / r, Four(a % r, b, c, d), m, r * 0x100_0000);
  }

  lemma OctetsByFive(a: Octet, b: Octet, c: Octet, d: Octet, a': Octet, b': Octet, c': Octet, d': Octet)
    requires a' == 32 * (a % 8) + b / 8 && b' == 32 * (b % 8) + c / 8
    requires c' == 32 * (c % 8) + d / 8 && d' == 32 * (d % 8) + a / 8
    ensures RotL(Four(a, b, c, d), 5) == Four(a', b', c', d')
  {
    RotatedLeft(a, b, c, d, a', b', c', d', 5, 32, 8);
  }

  lemma OctetsByOne(a: Octet, b: Octet, c: Octet, d: Octet, a': Octet, b': Octet, c': Octet, d': Octet)
    requires a' == 2 * (a % 128) + b / 128 && b' == 2 * (b % 128) + c / 128
    requires c' == 2 * (c % 128) + d / 128 && d' == 2 * (d % 128) + a / 128
    ensures RotL(Four(a, b, c, d), 1) == Four(a', b', c', d')
  {
    RotatedLeft(a, b, c, d, a', b', c', d', 1, 2, 128);
  }

  lemma RotatedFive(q: Quad)
    ensures RotL(WordAs(q), 5) == WordAs(RotByFive(q))
  {
    var r := RotByFive(q);
    CutFive(q.a, q.b);
    CutFive(q.b, q.c);
    CutFive(q.c, q.d);
    CutFive(q.d, q.a);
    OctetsByFive(Byte(q.a), Byte(q.b), Byte(q.c), Byte(q.d), Byte(r.a), Byte(r.b), Byte(r.c), Byte(r.d));
  }

  lemma RotatedOne(q: Quad)
    ensures RotL(WordAs(q), 1) == WordAs(RotByOne(q))
  {
    var r := RotByOne(q);
    CutOne(q.a, q.b);
    CutOne(q.b, q.c);
    CutOne(q.c, q.d);
    CutOne(q.d, q.a);
    OctetsByOne(Byte(q.a), Byte(q.b), Byte(q.c), Byte(q.d), Byte(r.a), Byte(r.b), Byte(r.c), Byte(r.d));
  }

  lemma BytesRotatedRight(a: Octet, b: Octet, c: Octet, d: Octet)
    ensures var h := Four(a, b, c, d) / 4;
      && Four(a, b, c, d) == h * 4 + d % 4
      && 0x4000_0000 * (d % 4) + h
         == 0x100 * (0x100 * (0x100 * (a / 4 + 64 * (d % 4)) + (b / 4 + 64 * (a % 4))) + (c / 4 + 64 * (b % 4)))
            + (d / 4 + 64 * (c % 4))
  {}

  lemma RotatedRight(a: Octet, b: Octet, c: Octet, d: Octet, a': Octet, b': Octet, c': Octet, d': Octet)
    requires a' == a / 4 + 64 * (d % 4) && b' == b / 4 + 64 * (a % 4)
    requires c' == c / 4 + 64 * (b % 4) && d' == d / 4 + 64 * (c % 4)
    ensures RotL(Four(a, b, c, d), 30) == Four(a', b', c', d')
  {
    BytesRotatedRight(a, b, c, d);
    RotatedWith(Four(a, b, c, d), 30, Four(a, b, c, d) / 4, d % 4, 0x4000_0000, 4);
  }

  lemma RotatedThirty(q: Quad)
    ensures RotL(WordAs(q), 30) == WordAs(RotByThirty(q))
  {
    var r := RotByThirty(q);
    CutThirty(q.a, q.d);
    CutThirty(q.b, q.a);
    CutThirty(q.c, q.b);
    CutThirty(q.d, q.c);
    RotatedRight(Byte(q.a), Byte(q.b), Byte(q.c), Byte(q.d), Byte(r.a), Byte(r.b), Byte(r.c), Byte(r.d));
  }

  lemma RotatedWith(w: Word, n: nat, h: nat, l: nat, m: nat, p: nat)
    requires (n == 1 && m == 2 && p == 0x8000_0000) || (n == 5 && m == 32 && p == 0x800_0000)
          || (n == 30 && m == 0x4000_0000 && p == 4)
    requires w == h * p + l && l < p
    ensures RotL(w, n) == m * l + h
  {
    Powers(w);
    Powers(l);
    Rotated(w, n, h, l);
  }

  // ---------------------------------------------------------------------------
  // Sums

  /** The sum of two half bytes and a carry; its fifth bit is the next carry. */
  function HalfSum(x: Bits, y: Bits, carry: Bits): Bits {
    (x & 0xF) + (y & 0xF) + carry
  }

  lemma HalfSumIs(x: Bits, y: Bits, carry: Bits)
    requires carry <= 1
    ensures Byte(HalfSum(x, y, carry)) == Byte(x & 0xF) + Byte(y & 0xF) + Byte(carry)
    ensures HalfSum(x, y, carry) >> 4 <= 1
  {
    SmallSum(x & 0xF, y & 0xF, carry);
  }

  lemma SmallSum(x: Bits, y: Bits, carry: Bits)
    requires x <= 15 && y <= 15 && carry <= 1
    ensures Byte(x + y + carry) == Byte(x) + Byte(y) + Byte(carry) && (x + y + carry) >> 4 <= 1
  {}

  lemma HalfBytes(x: Bits)
    ensures Byte(x) == 16 * Byte(x >> 4) + Byte(x & 0xF) && (x >> 4) & 0xF == x >> 4
  {}

  lemma JoinHalves(h: Bits, l: Bits)
    ensures Byte((h << 4) | (l & 0xF)) == 16 * Byte(h & 0xF) + Byte(l & 0xF)
  {
    HalfBytes((h << 4) | (l & 0xF));
    assert ((h << 4) | (l & 0xF)) >> 4 == h & 0xF && ((h << 4) | (l & 0xF)) & 0xF == l & 0xF;
  }

  /** Two bytes and a carry: their sum, and the next carry. */
  function SumOf(x: Bits, y: Bits, carry: Bits): (Bits, Bits) {
    var l := HalfSum(x, y, carry);
    var h := HalfSum(x >> 4, y >> 4, l >> 4);
    ((h << 4) | (l & 0xF), h >> 4)
  }

  lemma HighSumIs(x: Bits, y: Bits, carry: Bits, h: Bits)
    requires carry <= 1 && h == HalfSum(x >> 4, y >> 4, carry)
    ensures Byte(h) == Byte(x >> 4) + Byte(y >> 4) + Byte(carry) && h >> 4 <= 1
  {
    HalfSumIs(x >> 4, y >> 4, carry);
    HalfBytes(x);
    HalfBytes(y);
  }

  lemma LowSumIs(x: Bits, y: Bits, carry: Bits, l: Bits)
    requires carry <= 1 && l == HalfSum(x, y, carry)
    ensures 16 * Byte(l >> 4) + Byte(l & 0xF) == Byte(x & 0xF) + Byte(y & 0xF) + Byte(carry) && l >> 4 <= 1
  {
    HalfSumIs(x, y, carry);
    HalfBytes(l);
  }

  lemma SumOfIs(x: Bits, y: Bits, carry: Bits)
    requires carry <= 1
    ensures var (sum, next) := SumOf(x, y, carry);
      next <= 1 && Byte(x) + Byte(y) + Byte(carry) == 0x100 * Byte(next) + Byte(sum)
  {
    SumOfHalves(x, y, carry, HalfSum(x, y, carry));
  }

  lemma SumOfHalves(x: Bits, y: Bits, carry: Bits, l: Bits)
    requires carry <= 1 && l == HalfSum(x, y, carry)
    ensures var h := HalfSum(x >> 4, y >> 4, l >> 4);
      h >> 4 <= 1 && Byte(x) + Byte(y) + Byte(carry) == 0x100 * Byte(h >> 4) + Byte((h << 4) | (l & 0xF))
  {
    LowSumIs(x, y, carry, l);
    SumOfParts(x, y, carry, l, l >> 4, HalfSum(x >> 4, y >> 4, l >> 4));
  }

  lemma SumOfParts(x: Bits, y: Bits, carry: Bits, l: Bits, k: Bits, h: Bits)
    requires k == l >> 4 && k <= 1 && h == HalfSum(x >> 4, y >> 4, k)
    requires 16 * Byte(k) + Byte(l & 0xF) == Byte(x & 0xF) + Byte(y & 0xF) + Byte(carry)
    ensures h >> 4 <= 1
    ensures Byte(x) + Byte(y) + Byte(carry) == 0x100 * Byte(h >> 4) + Byte((h << 4) | (l & 0xF))
  {
    HighSumIs(x, y, k, h);
    HalfBytes(x);
    HalfBytes(y);
    HalfBytes(h);
    JoinHalves(h, l);
    HalvesAddUp(Byte(x), Byte(y), Byte(carry), Byte(x >> 4), Byte(x & 0xF), Byte(y >> 4), Byte(y & 0xF),
                Byte(k), Byte(l & 0xF), Byte(h), Byte(h >> 4), Byte(h & 0xF), Byte((h << 4) | (l & 0xF)));
  }

  lemma HalvesAddUp(x: nat, y: nat, carry: nat, xh: nat, xl: nat, yh: nat, yl: nat,
                    lh: nat, ll: nat, h: nat, hh: nat, hl: nat, s: nat)
    requires x == 16 * xh + xl && y == 16 * yh + yl && 16 * lh + ll == xl + yl + carry
    requires h == xh + yh + lh && h == 16 * hh + hl && s == 16 * hl + ll
    ensures x + y + carry == 0x100 * hh + s
  {}

  function Added(x: Quad, y: Quad): Quad {
    var (d, c1) := SumOf(x.d, y.d, 0);
    var (c, c2) := SumOf(x.c, y.c, c1);
    var (b, c3) := SumOf(x.b, y.b, c2);
    var (a, _) := SumOf(x.a, y.a, c3);
    Quad(a, b, c, d)
  }

  lemma AddedIs(x: Quad, y: Quad)
    ensures WordAs(Added(x, y)) == (WordAs(x) + WordAs(y)) % 0x1_0000_0000
  {
    var (d, c1) := SumOf(x.d, y.d, 0);
    SumOfIs(x.d, y.d, 0);
    var (c, c2) := SumOf(x.c, y.c, c1);
    SumOfIs(x.c, y.c, c1);
    var (b, c3) := SumOf(x.b, y.b, c2);
    SumOfIs(x.b, y.b, c2);
    var (a, c4) := SumOf(x.a, y.a, c3);
    SumOfIs(x.a, y.a, c3);
    BytesAddUp(Byte(x.a), Byte(x.b), Byte(x.c), Byte(x.d), Byte(y.a), Byte(y.b), Byte(y.c), Byte(y.d),
               Byte(a), Byte(b), Byte(c), Byte(d), Byte(c1), Byte(c2), Byte(c3), Byte(c4));
  }

  lemma BytesAddUp(xa: Octet, xb: Octet, xc: Octet, xd: Octet, ya: Octet, yb: Octet, yc: Octet, yd: Octet,
                   a: Octet, b: Octet, c: Octet, d: Octet, c1: nat, c2: nat, c3: nat, c4: nat)
    requires xd + yd == 0x100 * c1 + d && xc + yc + c1 == 0x100 * c2 + c
    requires xb + yb + c2 == 0x100 * c3 + b && xa + ya + c3 == 0x100 * c4 + a
    ensures (Four(xa, xb, xc, xd) + Four(ya, yb, yc, yd)) % 0x1_0000_0000 == Four(a, b, c, d)
  {
    assert c1 <= 1 && c2 <= 1 && c3 <= 1 && c4 <= 1;
    Wraps(Four(xa, xb, xc, xd) + Four(ya, yb, yc, yd), c4, Four(a, b, c, d));
  }

  lemma Wraps(s: nat, c: nat, r: nat)
    requires s == 0x1_0000_0000 * c + r && c <= 1 && r < 0x1_0000_0000
    ensures s % 0x1_0000_0000 == r
  {}
}
