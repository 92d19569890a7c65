/** Numbers as the scripts use them: exact integers, which a bit operation takes modulo 2^32 and
    returns as a signed 32-bit number. */
module Numbers {
  import opened BitStream

  /** A 32-bit word. */
  type Word = w: nat | w < 0x1_0000_0000

  // ---------------------------------------------------------------------------
  // Bit operations on words

  datatype BitOp = AND | OR | XOR
  {
    function Bit(a: nat, b: nat): nat {
      match this
      case AND => if a == 1 && b == 1 then 1 else 0
      case OR => if a == 1 || b == 1 then 1 else 0
      case XOR => if a != b then 1 else 0
    }
  }

  /** The low k bits of x and y, bit by bit. */
  function Join(op: BitOp, x: nat, y: nat, k: nat): (r: nat)
    ensures r < Pow2(k)
    decreases k, x
  {
    if k == 0 then 0 else 2 * Join(op, x / 2, y / 2, k - 1) + op.Bit(x % 2, y % 2)
  }

  lemma Pow2Word()
    ensures Pow2(32) == 0x1_0000_0000
  {
    FourSteps(0, 24);
    FourSteps(0, 28);
    Multiples(0);
  }

  function And(x: Word, y: Word): Word {
    Pow2Word();
    Join(AND, x, y, 32)
  }

  function Or(x: Word, y: Word): Word {
    Pow2Word();
    Join(OR, x, y, 32)
  }

  function Xor(x: Word, y: Word): Word {
    Pow2Word();
    Join(XOR, x, y, 32)
  }

  function Not(x: Word): Word {
    0xFFFF_FFFF - x
  }

  /** x << n, without the bits that leave the word. */
  function Left(x: Word, n: nat): Word {
    ShiftLeft(x, n) % 0x1_0000_0000
  }

  lemma {:induction false} ShiftRightAtMost(v: nat, k: nat)
    ensures ShiftRight(v, k) <= v
    decreases k
  {
    if k > 0 {
      ShiftRightAtMost(v / 2, k - 1);
    }
  }

  /** x >> n. */
  function Right(x: Word, n: nat): Word {
    ShiftRightAtMost(x, n);
    ShiftRight(x, n)
  }

  // ---------------------------------------------------------------------------
  // Bit operations on numbers

  /** The word a bit operation makes of a number. */
  function Mod(n: int): Word {
    n % 0x1_0000_0000
  }

  /** The signed number a bit operation returns. */
  function Signed(w: Word): (n: int)
    ensures -0x8000_0000 <= n < 0x8000_0000 && Mod(n) == w
  {
    if w < 0x8000_0000 then w else w - 0x1_0000_0000
  }

  function JsAnd(a: int, b: int): (r: int)
    ensures Mod(r) == And(Mod(a), Mod(b))
  {
    Signed(And(Mod(a), Mod(b)))
  }

  function JsOr(a: int, b: int): (r: int)
    ensures Mod(r) == Or(Mod(a), Mod(b))
  {
    Signed(Or(Mod(a), Mod(b)))
  }

  function JsXor(a: int, b: int): (r: int)
    ensures Mod(r) == Xor(Mod(a), Mod(b))
  {
    Signed(Xor(Mod(a), Mod(b)))
  }

  function JsNot(a: int): (r: int)
    ensures Mod(r) == Not(Mod(a))
  {
    Signed(Not(Mod(a)))
  }

  /** a << n. */
  function JsLeft(a: int, n: nat): (r: int)
    ensures Mod(r) == Left(Mod(a), n)
  {
    Signed(Left(Mod(a), n))
  }

  /** a >>> n, which is not signed. */
  function JsRight(a: int, n: nat): (r: int)
    ensures Mod(r) == r == Right(Mod(a), n)
  {
    Right(Mod(a), n)
  }

  /** Reducing before adding or after it makes no difference. */
  lemma ModAdd(a: int, b: int)
    ensures Mod(a + b) == (Mod(a) + Mod(b)) % 0x1_0000_0000
  {
    var p, q := a / 0x1_0000_0000, b / 0x1_0000_0000;
    assert a + b == 0x1_0000_0000 * (p + q) + (Mod(a) + Mod(b));
  }

  // ---------------------------------------------------------------------------
  // Laws of the bit operations

  /** The complement of the low k bits. */
  function Complement(x: nat, k: nat): nat
    requires x < Pow2(k)
  {
    Pow2(k) - 1 - x
  }

  lemma ComplementHalf(x: nat, k: nat)
    requires 0 < k && x < Pow2(k)
    ensures x / 2 < Pow2(k - 1) && Complement(x, k) / 2 == Complement(x / 2, k - 1)
    ensures Complement(x, k) % 2 == 1 - x % 2
  {}

  lemma JoinHalf(op: BitOp, x: nat, y: nat, k: nat)
    requires 0 < k
    ensures Join(op, x, y, k) / 2 == Join(op, x / 2, y / 2, k - 1) && Join(op, x, y, k) % 2 == op.Bit(x % 2, y % 2)
  {}

  /** Choosing by or and choosing by exclusive or. */
  lemma {:induction false} ChoiceBits(x: nat, y: nat, z: nat, k: nat)
    requires x < Pow2(k)
    ensures var p, q := Join(AND, x, y, k), Join(AND, Complement(x, k), z, k); Join(OR, p, q, k) == Join(XOR, p, q, k)
    decreases k
  {
    if k > 0 {
      ComplementHalf(x, k);
      JoinHalf(AND, x, y, k);
      JoinHalf(AND, Complement(x, k), z, k);
      ChoiceBits(x / 2, y / 2, z / 2, k - 1);
    }
  }

  /** The majority by or and by exclusive or. */
  lemma {:induction false} MajorityBits(x: nat, y: nat, z: nat, k: nat)
    ensures var p, q, r := Join(AND, x, y, k), Join(AND, x, z, k), Join(AND, y, z, k);
      Join(OR, Join(OR, p, q, k), r, k) == Join(XOR, Join(XOR, p, q, k), r, k)
    decreases k
  {
    if k > 0 {
      var p, q, r := Join(AND, x, y, k), Join(AND, x, z, k), Join(AND, y, z, k);
      JoinHalf(AND, x, y, k);
      JoinHalf(AND, x, z, k);
      JoinHalf(AND, y, z, k);
      JoinHalf(OR, p, q, k);
      JoinHalf(XOR, p, q, k);
      MajorityBits(x / 2, y / 2, z / 2, k - 1);
    }
  }

  /** A mask of j ones keeps the low j bits. */
  lemma {:induction false} MaskBits(x: nat, j: nat, k: nat)
    requires j <= k
    ensures Join(AND, x, Pow2(j) - 1, k) == LowBits(x, j)
    decreases k
  {
    if j > 0 {
      assert (Pow2(j) - 1) / 2 == Pow2(j - 1) - 1 && (Pow2(j) - 1) % 2 == 1;
      MaskBits(x / 2, j - 1, k - 1);
    } else if k > 0 {
      MaskBits(x / 2, 0, k - 1);
    }
  }

  lemma {:induction false} LowBitsAll(x: nat, k: nat)
    requires x < Pow2(k)
    ensures LowBits(x, k) == x
    decreases k
  {
    if k > 0 {
      LowBitsAll(x / 2, k - 1);
    }
  }

  /** Or adds numbers whose bits do not meet. */
  lemma {:induction false} OrZero(x: nat, k: nat)
    requires x < Pow2(k)
    ensures Join(OR, x, 0, k) == x
    decreases k
  {
    if k > 0 {
      OrZero(x / 2, k - 1);
    }
  }

  lemma {:induction false} OrAdds(h: nat, low: nat, n: nat, k: nat)
    requires low < Pow2(n) && n <= k && ShiftLeft(h, n) < Pow2(k)
    ensures Join(OR, ShiftLeft(h, n), low, k) == ShiftLeft(h, n) + low
    decreases n
  {
    if n == 0 {
      OrZero(h, k);
    } else {
      OrAdds(h, low / 2, n - 1, k - 1);
    }
  }
}
