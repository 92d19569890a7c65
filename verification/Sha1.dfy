/** SHA-1 of a string: the loops of the plugin, on the scripts' numbers, against FIPS 180-4 (padding:
    section 5.1.1; hash computation: section 6.1.2).  The source adds signed numbers exactly and
    reduces the sums afterwards; the standard adds words modulo 2^32. */
module Sha1 {
  import opened BitStream
  import opened Numbers

  type Octet = b: nat | b < 256

  // ---------------------------------------------------------------------------
  // The standard

  function RotL(x: Word, n: nat): Word
    requires n <= 32
  {
    Or(Left(x, n), Right(x, 32 - n))
  }

  function Ch(x: Word, y: Word, z: Word): Word {
    Xor(And(x, y), And(Not(x), z))
  }

  function Parity(x: Word, y: Word, z: Word): Word {
    Xor(Xor(x, y), z)
  }

  function Maj(x: Word, y: Word, z: Word): Word {
    Xor(Xor(And(x, y), And(x, z)), And(y, z))
  }

  function F(t: nat, x: Word, y: Word, z: Word): Word {
    if t < 20 then Ch(x, y, z) else if t < 40 then Parity(x, y, z) else if t < 60 then Maj(x, y, z) else Parity(x, y, z)
  }

  function K(t: nat): Word {
    if t < 20 then 0x5A827999 else if t < 40 then 0x6ED9EBA1 else if t < 60 then 0x8F1BBCDC else 0xCA62C1D6
  }

  /** The message schedule of a block of sixteen words. */
  function Schedule(block: seq<Word>, t: nat): Word
    requires |block| == 16
    decreases t, block
  {
    if t < 16 then block[t]
    else RotL(Xor(Xor(Xor(Schedule(block, t - 3), Schedule(block, t - 8)), Schedule(block, t - 14)),
                  Schedule(block, t - 16)), 1)
  }

  datatype Registers = Registers(a: Word, b: Word, c: Word, d: Word, e: Word)

  /** One round, with its function value and constant. */
  function RoundWith(r: Registers, f: Word, k: Word, w: Word): Registers {
    Registers((RotL(r.a, 5) + f + r.e + w + k) % 0x1_0000_0000, r.a, RotL(r.b, 30), r.c, r.d)
  }

  function Round(r: Registers, t: nat, w: Word): Registers {
    RoundWith(r, F(t, r.b, r.c, r.d), K(t), w)
  }

  /** The registers after t rounds. */
  function Rounds(r: Registers, block: seq<Word>, t: nat): Registers
    requires |block| == 16
    decreases t, block
  {
    if t == 0 then r else Round(Rounds(r, block, t - 1), t - 1, Schedule(block, t - 1))
  }

  function Plus(x: Word, y: Word): Word {
    (x + y) % 0x1_0000_0000
  }

  function Sum(r: Registers, s: Registers): Registers {
    Registers(Plus(r.a, s.a), Plus(r.b, s.b), Plus(r.c, s.c), Plus(r.d, s.d), Plus(r.e, s.e))
  }

  const INITIAL := Registers(0x67452301, 0xEFCDAB89, 0x98BADCFE, 0x10325476, 0xC3D2E1F0)

  /** The hash value after the first n blocks. */
  function HashBlocks(words: seq<Word>, n: nat): Registers
    requires 16 * n <= |words|
    decreases n, words
  {
    if n == 0 then INITIAL
    else
      var h := HashBlocks(words, n - 1);
      Sum(h, Rounds(h, words[16 * (n - 1)..16 * n], 80))
  }

  /** The blocks before a place have the same hash, whatever comes behind them. */
  lemma {:induction false} HashOfPrefix(words: seq<Word>, more: seq<Word>, n: nat)
    requires 16 * n <= |words|
    ensures HashBlocks(words + more, n) == HashBlocks(words, n)
    decreases n
  {
    if n > 0 {
      HashOfPrefix(words, more, n - 1);
      var i, j := 16 * (n - 1), 16 * n;
      assert (words + more)[i..j] == words[i..j];
    }
  }

  /** One block more continues with the hash of those before it: its rounds start there, and are added to it. */
  lemma BlocksInOrder(words: seq<Word>, block: seq<Word>, n: nat)
    requires |words| == 16 * n && |block| == 16
    ensures var h := HashBlocks(words, n); HashBlocks(words + block, n + 1) == Sum(h, Rounds(h, block, 80))
  {
    HashOfPrefix(words, block, n);
    assert (words + block)[16 * n..16 * (n + 1)] == block;
  }

  function Zeros(k: nat): (z: seq<Octet>)
    ensures |z| == k
  {
    seq(k, _ => 0)
  }

  /** Zero bytes between the 0x80 and the length. */
  function ZeroCount(len: nat): (k: nat)
    ensures (len + 1 + k) % 64 == 56 && k < 64
  {
    (55 - len) % 64
  }

  /** The two words of the length in bits. */
  function LengthWords(len: nat): seq<Word> {
    [8 * len / 0x1_0000_0000 % 0x1_0000_0000, 8 * len % 0x1_0000_0000]
  }

  /** The message, the byte 0x80, and zeros up to eight bytes below a multiple of sixty-four. */
  function PaddedBytes(m: seq<Octet>): (p: seq<Octet>)
    ensures |p| % 64 == 56
  {
    m + [0x80] + Zeros(ZeroCount(|m|))
  }

  /** Four bytes, most significant first. */
  function WordOf(a: Octet, b: Octet, c: Octet, d: Octet): Word {
    0x100_0000 * a + 0x1_0000 * b + 0x100 * c + d
  }

  function WordsOf(bytes: seq<Octet>): (ws: seq<Word>)
    requires |bytes| % 4 == 0
    ensures |ws| == |bytes| / 4
  {
    seq(|bytes| / 4, i requires 0 <= i < |bytes| / 4 =>
      WordOf(bytes[4 * i], bytes[4 * i + 1], bytes[4 * i + 2], bytes[4 * i + 3]))
  }

  lemma WholeBlocks(bytes: nat)
    requires bytes % 64 == 56
    ensures bytes % 4 == 0 && (bytes / 4 + 2) % 16 == 0
  {
    var q := bytes / 64;
    assert bytes == 64 * q + 56;
    assert bytes / 4 == 16 * q + 14;
  }

  /** The padded message as words. */
  function PaddedWords(m: seq<Octet>): (ws: seq<Word>)
    ensures |ws| % 16 == 0
  {
    WholeBlocks(|PaddedBytes(m)|);
    WordsOf(PaddedBytes(m)) + LengthWords(|m|)
  }

  function Digest(m: seq<Octet>): Registers {
    HashBlocks(PaddedWords(m), |PaddedWords(m)| / 16)
  }

  // ---------------------------------------------------------------------------
  // The plugin's operations

  /** The words of numbers. */
  function Mods(ns: seq<int>): (ws: seq<Word>)
    ensures |ws| == |ns|
  {
    seq(|ns|, i requires 0 <= i < |ns| => Mod(ns[i]))
  }

  method RotateLeft(value: int, n: nat) returns (r: int)
    requires n <= 32
    ensures Mod(r) == RotL(Mod(value), n)
  {
    var left, right := JsLeft(value, n), JsRight(value, 32 - n);
    r := JsOr(left, right);
  }

  lemma ChoiceIsCh(x: Word, y: Word, z: Word)
    ensures Or(And(x, y), And(Not(x), z)) == Ch(x, y, z)
  {
    Pow2Word();
    ChoiceBits(x, y, z, 32);
  }

  lemma MajorityIsMaj(x: Word, y: Word, z: Word)
    ensures Or(Or(And(x, y), And(x, z)), And(y, z)) == Maj(x, y, z)
  {
    MajorityBits(x, y, z, 32);
  }

  /** n & 0xffffffff is n as a signed word. */
  lemma MaskAll(n: int)
    ensures Mod(JsAnd(n, 0xFFFF_FFFF)) == Mod(n)
  {
    Pow2Word();
    MaskBits(Mod(n), 32, 32);
    LowBitsAll(Mod(n), 32);
  }

  /** An exact sum of five numbers, reduced. */
  lemma SumOfFive(a: int, b: int, c: int, d: int, e: int)
    ensures Mod(a + b + c + d + e) == (Mod(a) + Mod(b) + Mod(c) + Mod(d) + Mod(e)) % 0x1_0000_0000
  {
    var qa, qb, qc := a / 0x1_0000_0000, b / 0x1_0000_0000, c / 0x1_0000_0000;
    var qd, qe := d / 0x1_0000_0000, e / 0x1_0000_0000;
    assert a + b + c + d + e
        == 0x1_0000_0000 * (qa + qb + qc + qd + qe) + (Mod(a) + Mod(b) + Mod(c) + Mod(d) + Mod(e));
  }

  /** n | m, where m is below the bits of n. */
  lemma OrPart(n: int, m: int, h: nat, s: nat, low: nat)
    requires Mod(n) == ShiftLeft(h, s) && Mod(m) == low < Pow2(s) && s <= 32
    ensures Mod(JsOr(n, m)) == ShiftLeft(h, s) + low
  {
    Pow2Word();
    OrAdds(h, low, s, 32);
  }

  lemma Shifts(v: nat)
    ensures ShiftLeft(v, 24) == 0x100_0000 * v && ShiftLeft(v, 16) == 0x1_0000 * v && ShiftLeft(v, 8) == 0x100 * v
    ensures Pow2(24) == 0x100_0000 && Pow2(16) == 0x1_0000 && Pow2(8) == 0x100
  {
    Multiples(v);
    Multiples(256 * v);
    ShiftLeftTwice(v, 8, 16);
  }

  // ---------------------------------------------------------------------------
  // The word array

  /** A byte moved inside the word loses nothing. */
  lemma LeftWhole(b: Octet, n: nat, moved: nat)
    requires moved == ShiftLeft(b, n) < 0x1_0000_0000
    ensures Mod(JsLeft(b, n)) == moved
  {}

  lemma ByteLeft(b: Octet)
    ensures Mod(JsLeft(b, 24)) == ShiftLeft(b, 24)
    ensures Mod(JsLeft(b, 16)) == 0x1_0000 * b && Mod(JsLeft(b, 8)) == 0x100 * b
  {
    Shifts(b);
    LeftWhole(b, 24, 0x100_0000 * b);
    LeftWhole(b, 16, 0x1_0000 * b);
    LeftWhole(b, 8, 0x100 * b);
  }

  lemma ByteBounds()
    ensures Pow2(24) == 0x100_0000 && Pow2(16) == 0x1_0000 && Pow2(8) == 0x100
  {
    Shifts(0);
  }

  lemma TwoBytes(a: Octet, b: Octet)
    ensures ShiftLeft(a, 24) + 0x1_0000 * b == ShiftLeft(256 * a + b, 16)
  {
    Shifts(a);
    Shifts(256 * a + b);
  }

  /** a << 24 | b << 16. */
  method PackHigh(a: Octet, b: Octet) returns (j: int)
    ensures Mod(j) == ShiftLeft(256 * a + b, 16)
  {
    var high, low := JsLeft(a, 24), JsLeft(b, 16);
    ByteLeft(a);
    ByteLeft(b);
    ByteBounds();
    OrPart(high, low, a, 24, 0x1_0000 * b);
    j := JsOr(high, low);
    TwoBytes(a, b);
  }

  /** Four characters as a number. */
  method PackWord(a: Octet, b: Octet, c: Octet, d: Octet) returns (j: int)
    ensures Mod(j) == WordOf(a, b, c, d)
  {
    var high := PackHigh(a, b);
    j := PackLow(high, 256 * a + b, c, d);
    Shifts(256 * a + b);
  }

  lemma ThirdByte(h: nat, c: Octet)
    ensures ShiftLeft(h, 16) + 256 * c == ShiftLeft(256 * h + c, 8) == 65536 * h + 256 * c
  {
    Shifts(h);
    Shifts(256 * h + c);
  }

  /** high | c << 8. */
  method PackThird(high: int, h: nat, c: Octet) returns (j: int)
    requires h < 65536 && Mod(high) == ShiftLeft(h, 16)
    ensures Mod(j) == ShiftLeft(256 * h + c, 8)
  {
    var low := JsLeft(c, 8);
    ByteLeft(c);
    ByteBounds();
    OrPart(high, low, h, 16, 256 * c);
    j := JsOr(high, low);
    ThirdByte(h, c);
  }

  /** high | c << 8 | d. */
  method PackLow(high: int, h: nat, c: Octet, d: Octet) returns (j: int)
    requires h < 65536 && Mod(high) == ShiftLeft(h, 16)
    ensures Mod(j) == 65536 * h + 256 * c + d
  {
    var third := PackThird(high, h, c);
    ByteBounds();
    OrPart(third, d, 256 * h + c, 8, d);
    j := JsOr(third, d);
    ThirdByte(h, c);
  }

  lemma WordsConcat(a: seq<Octet>, b: seq<Octet>)
    requires |a| % 4 == 0 && |b| % 4 == 0
    ensures WordsOf(a + b) == WordsOf(a) + WordsOf(b)
  {
    var ws, n := WordsOf(a + b), |a| / 4;
    forall i | 0 <= i < |ws| ensures ws[i] == (WordsOf(a) + WordsOf(b))[i] {
      if i >= n {
        assert (a + b)[4 * i] == b[4 * (i - n)];
        assert (a + b)[4 * i + 1] == b[4 * (i - n) + 1];
        assert (a + b)[4 * i + 2] == b[4 * (i - n) + 2];
        assert (a + b)[4 * i + 3] == b[4 * (i - n) + 3];
      }
    }
  }

  /** The last bytes of the message, 0x80, and zeros up to a whole word. */
  function Tail(m: seq<Octet>): (t: seq<Octet>)
    requires |m| < 4
    ensures |t| == 4
  {
    m + [0x80] + Zeros(3 - |m|)
  }

  /** The rest of the message and 0x80 as a number. */
  method LastWord(m: seq<Octet>) returns (i: int)
    ensures [Mod(i)] == WordsOf(Tail(m[|m| - |m| % 4..]))
  {
    var n, t := |m|, Tail(m[|m| - |m| % 4..]);
    if n % 4 == 0 {
      i := 0x080000000;
    } else if n % 4 == 1 {
      i := PackOne(m[n - 1]);
    } else if n % 4 == 2 {
      i := PackTwo(m[n - 2], m[n - 1]);
    } else {
      i := PackWord(m[n - 3], m[n - 2], m[n - 1], 0x80);
    }
    assert Mod(i) == WordOf(t[0], t[1], t[2], t[3]);
  }

  method PackOne(a: Octet) returns (i: int)
    ensures Mod(i) == WordOf(a, 0x80, 0, 0)
  {
    Shifts(a);
    OrPart(JsLeft(a, 24), 0x0800000, a, 24, 0x0800000);
    i := JsOr(JsLeft(a, 24), 0x0800000);
  }

  method PackTwo(a: Octet, b: Octet) returns (i: int)
    ensures Mod(i) == WordOf(a, b, 0x80, 0)
  {
    var high := PackHigh(a, b);
    Shifts(256 * a + b);
    OrPart(high, 0x08000, 256 * a + b, 16, 0x08000);
    i := JsOr(high, 0x08000);
  }

  /** Whole words, the tail, and zero words make up the padded message. */
  lemma PaddingSplits(m: seq<Octet>, zeros: nat)
    requires ZeroCount(|m|) == 3 - |m| % 4 + 4 * zeros
    ensures var cut := |m| - |m| % 4;
      PaddedBytes(m) == m[..cut] + Tail(m[cut..]) + Zeros(4 * zeros)
  {
    var cut := |m| - |m| % 4;
    assert m == m[..cut] + m[cut..];
    assert Zeros(ZeroCount(|m|)) == Zeros(3 - |m| % 4) + Zeros(4 * zeros);
  }

  lemma ZeroWords(n: nat)
    ensures WordsOf(Zeros(4 * n)) == seq(n, _ => 0)
  {}

  /** How many zero words bring n words to two below whole blocks. */
  function WordsLeft(n: nat): nat {
    (14 - n) % 16
  }

  lemma WordsLeftIsFirst(n: nat, z: nat)
    requires z <= WordsLeft(n)
    ensures (n + z) % 16 == 14 <==> z == WordsLeft(n)
  {
    var q := (14 - n) / 16;
    assert 14 - n == 16 * q + WordsLeft(n);
    var d := WordsLeft(n) - z;
    assert n + z == 16 * (-q) + 14 - d;
    if (n + z) % 16 == 14 {
      var r := (n + z) / 16;
      assert n + z == 16 * r + 14;
    }
  }

  lemma Remainder64(a: int, q: int, r: nat)
    requires a == 64 * q + r && r < 64
    ensures a % 64 == r
  {}

  lemma WordsLeftIsZeroCount(len: nat)
    ensures ZeroCount(len) == 3 - len % 4 + 4 * WordsLeft(len / 4 + 1)
  {
    var q, r := len / 4, len % 4;
    var z, a := WordsLeft(q + 1), (14 - (q + 1)) / 16;
    assert 13 - q == 16 * a + z;
    Remainder64(55 - len, a, 3 - r + 4 * z);
  }

  lemma LengthSplits(len: nat)
    requires len < 0x1_0000_0000
    ensures len / 0x2000_0000 < 8 && 8 * len / 0x1_0000_0000 % 0x1_0000_0000 == len / 0x2000_0000
  {
    var q, r := len / 0x2000_0000, len % 0x2000_0000;
    assert len == 0x2000_0000 * q + r;
    assert 8 * len == 0x1_0000_0000 * q + 8 * r;
  }

  lemma PaddedPieces(head: seq<Octet>, tail: seq<Octet>, zeros: nat)
    requires |head| % 4 == 0 && |tail| == 4
    ensures (|head| + 4 + 4 * zeros) % 4 == 0
    ensures WordsOf(head + tail + Zeros(4 * zeros)) == WordsOf(head) + WordsOf(tail) + seq(zeros, _ => 0)
  {
    WordsConcat(head, tail);
    WordsConcat(head + tail, Zeros(4 * zeros));
    ZeroWords(zeros);
  }

  lemma PaddedWordsAre(m: seq<Octet>)
    ensures var cut := |m| - |m| % 4;
      PaddedWords(m) == WordsOf(m[..cut]) + WordsOf(Tail(m[cut..])) + seq(WordsLeft(|m| / 4 + 1), _ => 0)
                        + LengthWords(|m|)
  {
    var cut, zeros := |m| - |m| % 4, WordsLeft(|m| / 4 + 1);
    WordsLeftIsZeroCount(|m|);
    PaddingSplits(m, zeros);
    var head, tail := m[..cut], Tail(m[cut..]);
    CutIsWhole(|m|);
    PaddedPieces(head, tail, zeros);
  }

  lemma CutIsWhole(len: nat)
    ensures (len - len % 4) % 4 == 0 && (len - len % 4) / 4 == len / 4
  {}

  lemma ModsAppend(ns: seq<int>, n: int)
    ensures Mods(ns + [n]) == Mods(ns) + [Mod(n)]
  {}

  /** The first loop: whole words. */
  method WholeWords(m: seq<Octet>) returns (words: seq<int>)
    ensures Mods(words) == WordsOf(m[..|m| - |m| % 4])
  {
    words := [];
    var i := 0;
    while i < |m| - 3
      invariant 0 <= i <= |m| - |m| % 4 && i % 4 == 0 && Mods(words) == WordsOf(m[..i])
    {
      var j := PackWord(m[i], m[i + 1], m[i + 2], m[i + 3]);
      WordsConcat(m[..i], m[i..i + 4]);
      assert m[..i + 4] == m[..i] + m[i..i + 4];
      ModsAppend(words, j);
      words := words + [j];
      i := i + 4;
    }
  }

  /** The second loop: zero words. */
  method PadWords(whole: seq<int>) returns (words: seq<int>)
    ensures Mods(words) == Mods(whole) + seq(WordsLeft(|whole|), _ => 0)
  {
    words := whole;
    ghost var z := 0;
    WordsLeftIsFirst(|whole|, 0);
    while |words| % 16 != 14
      invariant z <= WordsLeft(|whole|) && words == whole + seq(z, _ => 0)
      invariant |words| % 16 == 14 <==> z == WordsLeft(|whole|)
      decreases WordsLeft(|whole|) - z
    {
      words := words + [0];
      z := z + 1;
      WordsLeftIsFirst(|whole|, z);
    }
  }

  /** The message bytes and 0x80, in whole words. */
  method MessageWords(m: seq<Octet>) returns (words: seq<int>)
    ensures var cut := |m| - |m| % 4; Mods(words) == WordsOf(m[..cut]) + WordsOf(Tail(m[cut..]))
    ensures |words| == |m| / 4 + 1
  {
    words := WholeWords(m);
    CutIsWhole(|m|);
    var last := LastWord(m);
    ModsAppend(words, last);
    words := words + [last];
  }

  /** The length in bits, in two numbers: the high one. */
  method HighNumber(len: nat) returns (high: int)
    requires len < 0x1_0000_0000
    ensures Mod(high) == LengthWords(len)[0]
  {
    LengthSplits(len);
    TopBits(len);
    high := JsRight(len, 29);
  }

  /** And the low one. */
  method LowNumber(len: nat) returns (low: int)
    requires len < 0x1_0000_0000
    ensures Mod(low) == LengthWords(len)[1]
  {
    var shifted := JsLeft(len, 3);
    low := JsAnd(shifted, 0xFFFF_FFFF);
    MaskAll(shifted);
    LeftThree(len, shifted);
  }

  lemma LeftThree(len: nat, shifted: int)
    requires len < 0x1_0000_0000 && Mod(shifted) == Left(Mod(len), 3)
    ensures Mod(shifted) == LengthWords(len)[1]
  {
    ModSmall(len);
    EightTimes(len);
  }

  lemma ModSmall(len: nat)
    requires len < 0x1_0000_0000
    ensures Mod(len) == len
  {}

  lemma EightTimes(len: nat)
    ensures ShiftLeft(len, 3) == 8 * len
  {
    assert ShiftLeft(len, 1) == 2 * len;
    assert ShiftLeft(len, 2) == 4 * len;
  }

  lemma TopBits(len: nat)
    ensures ShiftRight(len, 29) == len / 0x2000_0000
  {
    ShiftRightIs(len, 29);
    PowTwentyNine();
  }

  lemma PowTwentyNine()
    ensures Pow2(29) == 0x2000_0000
  {
    Multiples(0);
    FourSteps(0, 24);
    OneStep(0, 28);
  }

  lemma RightFour(v: nat)
    ensures ShiftRight(v, 4) == v / 16
  {
    ShiftRightIs(v, 4);
    FourSteps(0, 0);
  }

  lemma {:induction false} ShiftRightTwice(v: nat, j: nat, k: nat)
    ensures ShiftRight(ShiftRight(v, j), k) == ShiftRight(v, j + k)
    decreases j
  {
    if j > 0 {
      ShiftRightTwice(v / 2, j - 1, k);
    }
  }

  /** The words that are hashed. */
  method WordArray(m: seq<Octet>) returns (words: seq<int>)
    requires |m| < 0x1_0000_0000
    ensures Mods(words) == PaddedWords(m)
  {
    var message := MessageWords(m);
    words := PadWords(message);
    PaddedWordsAre(m);
    var high := HighNumber(|m|);
    var low := LowNumber(|m|);
    ModsAppend(words, high);
    ModsAppend(words + [high], low);
    words := words + [high];
    words := words + [low];
  }

  // ---------------------------------------------------------------------------
  // Hashing

  /** The variables A to E, or H0 to H4. */
  datatype Variables = Variables(a: int, b: int, c: int, d: int, e: int)
  {
    function Words(): Registers {
      Registers(Mod(a), Mod(b), Mod(c), Mod(d), Mod(e))
    }
  }

  ghost predicate Filled(w: array<int>, block: seq<Word>, t: nat)
    requires |block| == 16 && t <= w.Length
    reads w
  {
    forall i {:trigger w[i]} :: 0 <= i < t ==> Mod(w[i]) == Schedule(block, i)
  }

  /** Fill the schedule. */
  method FillSchedule(w: array<int>, words: seq<int>, start: nat)
    requires w.Length == 80 && start + 16 <= |words|
    modifies w
    ensures Filled(w, Mods(words)[start..start + 16], 80)
  {
    ghost var block := Mods(words)[start..start + 16];
    for i := 0 to 16
      invariant Filled(w, block, i)
    {
      w[i] := words[start + i];
    }
    for i := 16 to 80
      invariant Filled(w, block, i)
    {
      var next := RotateLeft(JsXor(JsXor(JsXor(w[i - 3], w[i - 8]), w[i - 14]), w[i - 16]), 1);
      w[i] := next;
    }
  }

  /** tempValue: an exact sum, reduced by the mask. */
  method TempValue(a5: int, f: int, e: int, w: int, k: int) returns (v: int)
    ensures Mod(v) == (Mod(a5) + Mod(f) + Mod(e) + Mod(w) + Mod(k)) % 0x1_0000_0000
  {
    var sum := a5 + f + e + w + k;
    SumOfFive(a5, f, e, w, k);
    v := JsAnd(sum, 0xFFFF_FFFF);
    MaskAll(sum);
  }

  /** The assignments of every loop body: f and k are the loop's function value and constant. */
  method Mix(r: Variables, f: int, k: int, w: int) returns (s: Variables)
    ensures s.Words() == RoundWith(r.Words(), Mod(f), Mod(k), Mod(w))
  {
    var a5 := RotateLeft(r.a, 5);
    var tempValue := TempValue(a5, f, r.e, w, k);
    var b30 := RotateLeft(r.b, 30);
    s := Variables(tempValue, r.a, b30, r.c, r.d);
  }

  lemma NextRound(h: Registers, block: seq<Word>, t: nat, r: Registers, s: Registers, f: Word, w: Word)
    requires |block| == 16 && r == Rounds(h, block, t) && f == F(t, r.b, r.c, r.d) && w == Schedule(block, t)
    requires s == RoundWith(r, f, K(t), w)
    ensures s == Rounds(h, block, t + 1)
  {}

  method FirstRounds(w: array<int>, ghost block: seq<Word>, h: Variables) returns (r: Variables)
    requires w.Length == 80 && |block| == 16 && Filled(w, block, 80)
    ensures r.Words() == Rounds(h.Words(), block, 20)
  {
    r := h;
    for i := 0 to 20
      invariant r.Words() == Rounds(h.Words(), block, i)
    {
      ghost var before := r.Words();
      var f := JsOr(JsAnd(r.b, r.c), JsAnd(JsNot(r.b), r.d));
      ChoiceIsCh(Mod(r.b), Mod(r.c), Mod(r.d));
      r := Mix(r, f, 0x5A827999, w[i]);
      NextRound(h.Words(), block, i, before, r.Words(), Mod(f), Mod(w[i]));
    }
  }

  method SecondRounds(w: array<int>, ghost block: seq<Word>, ghost h: Registers, r0: Variables) returns (r: Variables)
    requires w.Length == 80 && |block| == 16 && Filled(w, block, 80) && r0.Words() == Rounds(h, block, 20)
    ensures r.Words() == Rounds(h, block, 40)
  {
    r := r0;
    for i := 20 to 40
      invariant r.Words() == Rounds(h, block, i)
    {
      ghost var before := r.Words();
      var f := JsXor(JsXor(r.b, r.c), r.d);
      r := Mix(r, f, 0x6ED9EBA1, w[i]);
      NextRound(h, block, i, before, r.Words(), Mod(f), Mod(w[i]));
    }
  }

  method ThirdRounds(w: array<int>, ghost block: seq<Word>, ghost h: Registers, r0: Variables) returns (r: Variables)
    requires w.Length == 80 && |block| == 16 && Filled(w, block, 80) && r0.Words() == Rounds(h, block, 40)
    ensures r.Words() == Rounds(h, block, 60)
  {
    r := r0;
    for i := 40 to 60
      invariant r.Words() == Rounds(h, block, i)
    {
      ghost var before := r.Words();
      var f := JsOr(JsOr(JsAnd(r.b, r.c), JsAnd(r.b, r.d)), JsAnd(r.c, r.d));
      MajorityIsMaj(Mod(r.b), Mod(r.c), Mod(r.d));
      r := Mix(r, f, 0x8F1BBCDC, w[i]);
      NextRound(h, block, i, before, r.Words(), Mod(f), Mod(w[i]));
    }
  }

  method FourthRounds(w: array<int>, ghost block: seq<Word>, ghost h: Registers, r0: Variables) returns (r: Variables)
    requires w.Length == 80 && |block| == 16 && Filled(w, block, 80) && r0.Words() == Rounds(h, block, 60)
    ensures r.Words() == Rounds(h, block, 80)
  {
    r := r0;
    for i := 60 to 80
      invariant r.Words() == Rounds(h, block, i)
    {
      ghost var before := r.Words();
      var f := JsXor(JsXor(r.b, r.c), r.d);
      r := Mix(r, f, 0xCA62C1D6, w[i]);
      NextRound(h, block, i, before, r.Words(), Mod(f), Mod(w[i]));
    }
  }

  method AddUp(h: int, a: int) returns (r: int)
    ensures Mod(r) == Plus(Mod(h), Mod(a))
  {
    r := JsAnd(h + a, 0xFFFF_FFFF);
    MaskAll(h + a);
    ModAdd(h, a);
  }

  /** One block: the schedule, the four loops, and the sums. */
  method HashBlock(w: array<int>, words: seq<int>, start: nat, h: Variables, ghost block: seq<Word>)
    returns (r: Variables)
    requires w.Length == 80 && start + 16 <= |words| && block == Mods(words)[start..start + 16]
    modifies w
    ensures r.Words() == Sum(h.Words(), Rounds(h.Words(), block, 80))
  {
    FillSchedule(w, words, start);
    r := FirstRounds(w, block, h);
    r := SecondRounds(w, block, h.Words(), r);
    r := ThirdRounds(w, block, h.Words(), r);
    r := FourthRounds(w, block, h.Words(), r);
    var h0 := AddUp(h.a, r.a);
    var h1 := AddUp(h.b, r.b);
    var h2 := AddUp(h.c, r.c);
    var h3 := AddUp(h.d, r.d);
    var h4 := AddUp(h.e, r.e);
    r := Variables(h0, h1, h2, h3, h4);
  }

  method FirstVariables(ghost ws: seq<Word>) returns (h: Variables)
    ensures h.Words() == HashBlocks(ws, 0)
  {
    h := Variables(0x67452301, 0xEFCDAB89, 0x98BADCFE, 0x10325476, 0xC3D2E1F0);
  }

  lemma NextBlock(words: seq<Word>, n: nat)
    requires 16 * n + 16 <= |words|
    ensures var h := HashBlocks(words, n);
      HashBlocks(words, n + 1) == Sum(h, Rounds(h, words[16 * n..16 * n + 16], 80))
  {}

  /** The body of the loop over the blocks. */
  method HashNext(w: array<int>, words: seq<int>, start: nat, h: Variables, ghost ws: seq<Word>, ghost n: nat)
    returns (r: Variables)
    requires w.Length == 80 && ws == Mods(words) && start == 16 * n && start + 16 <= |words|
    requires h.Words() == HashBlocks(ws, n)
    modifies w
    ensures r.Words() == HashBlocks(ws, n + 1)
  {
    r := HashBlock(w, words, start, h, ws[start..start + 16]);
    NextBlock(ws, n);
  }

  /** The loop over the blocks. */
  method HashWords(words: seq<int>, ghost ws: seq<Word>, ghost blocks: nat) returns (h: Variables)
    requires ws == Mods(words) && |words| == 16 * blocks
    ensures h.Words() == HashBlocks(ws, blocks)
  {
    var w := new int[80];
    h := FirstVariables(ws);
    var start := 0;
    ghost var n := 0;
    while start < |words|
      invariant start == 16 * n && n <= blocks && h.Words() == HashBlocks(ws, n)
      decreases blocks - n
    {
      assert n < blocks;
      h := HashNext(w, words, start, h, ws, n);
      start := start + 16;
      n := n + 1;
    }
  }

  /** The digest of a byte string. */
  method Hash(m: seq<Octet>) returns (h: Variables)
    requires |m| < 0x1_0000_0000
    ensures h.Words() == Digest(m)
  {
    var words := WordArray(m);
    h := HashWords(words, Mods(words), |words| / 16);
  }

  // ---------------------------------------------------------------------------
  // Hexadecimal form

  function HexDigit(v: nat): (c: char)
    requires v < 16
  {
    "0123456789abcdef"[v]
  }

  /** The last k hexadecimal digits of w. */
  function Hex(w: nat, k: nat): (s: string)
    ensures |s| == k
    decreases k, w
  {
    if k == 0 then "" else Hex(w / 16, k - 1) + [HexDigit(w % 16)]
  }

  function DigitOf(c: char): nat {
    if '0' <= c <= '9' then (c - '0') as nat else if 'a' <= c <= 'f' then 10 + (c - 'a') as nat else 0
  }

  function HexValue(s: string): nat {
    if |s| == 0 then 0 else 16 * HexValue(s[..|s| - 1]) + DigitOf(s[|s| - 1])
  }

  lemma DigitBack(v: nat)
    requires v < 16
    ensures DigitOf(HexDigit(v)) == v
  {}

  /** The digits determine the number. */
  lemma {:induction false} HexBack(w: nat, k: nat)
    requires w < Pow2(4 * k)
    ensures HexValue(Hex(w, k)) == w
    decreases k
  {
    if k > 0 {
      var v, d := w / 16, HexDigit(w % 16);
      FourSteps(0, 4 * (k - 1));
      HexBack(v, k - 1);
      DigitBack(w % 16);
      HexValueAppend(Hex(v, k - 1), d);
    }
  }

  lemma HexValueAppend(s: string, c: char)
    ensures HexValue(s + [c]) == 16 * HexValue(s) + DigitOf(c)
  {
    assert (s + [c])[..|s|] == s;
  }

  method CvtHex(value: int) returns (s: string)
    ensures s == Hex(Mod(value), 8) && HexValue(s) == Mod(value)
  {
    s := "";
    var i := 7;
    Pow2Word();
    TooFar(Mod(value));
    while i >= 0
      invariant -1 <= i <= 7 && s == Hex(ShiftRight(Mod(value), 4 * (i + 1)), 7 - i)
    {
      var v := JsAnd(JsRight(value, i * 4), 0x0f);
      DigitAt(value, i);
      s := s + [HexDigit(v)];
      i := i - 1;
    }
    HexBack(Mod(value), 8);
  }

  lemma TooFar(w: Word)
    ensures Hex(ShiftRight(w, 32), 0) == ""
  {}

  lemma DigitAt(value: int, i: nat)
    ensures JsAnd(JsRight(value, i * 4), 0x0f) == ShiftRight(Mod(value), 4 * i) % 16
    ensures ShiftRight(Mod(value), 4 * (i + 1)) == ShiftRight(Mod(value), 4 * i) / 16
  {
    var v := Right(Mod(value), i * 4);
    SmallPowers();
    MaskBits(v, 4, 32);
    LowFour(v);
    ShiftRightTwice(Mod(value), 4 * i, 4);
    RightFour(v);
  }

  lemma LowFour(v: nat)
    ensures LowBits(v, 4) == v % 16
  {
    LowTwo(v);
    LowTwo(v / 4);
    assert LowBits(v, 4) == 2 * LowBits(v / 2, 3) + v % 2;
    assert LowBits(v / 2, 3) == 2 * LowBits(v / 2 / 2, 2) + v / 2 % 2;
    assert v / 2 / 2 == v / 4;
  }

  lemma LowTwo(v: nat)
    ensures LowBits(v, 2) == v % 4
  {
    assert LowBits(v, 2) == 2 * LowBits(v / 2, 1) + v % 2;
    assert LowBits(v / 2, 1) == v / 2 % 2;
  }

  // ---------------------------------------------------------------------------
  // Strings

  /** A byte, and a UTF-16 code unit. */
  type Byte = bv8
  type Unit = bv16

  /** Every carriage return followed by a line feed becomes a line feed. */
  function Normalized(s: seq<Unit>): (t: seq<Unit>)
    ensures |t| <= |s|
  {
    if |s| == 0 then []
    else if |s| >= 2 && s[0] == 13 && s[1] == 10 then [10] + Normalized(s[2..])
    else [s[0]] + Normalized(s[1..])
  }

  /** One, two or three bytes; surrogates are not joined. */
  function Encoded(c: Unit): (b: seq<Byte>)
    ensures 1 <= |b| <= 3
  {
    if c < 128 then [c as Byte]
    else if c < 2048 then [((c >> 6) | 192) as Byte, ((c & 63) | 128) as Byte]
    else [((c >> 12) | 224) as Byte, (((c >> 6) & 63) | 128) as Byte, ((c & 63) | 128) as Byte]
  }

  function EncodedAll(s: seq<Unit>): (b: seq<Byte>)
    ensures |b| <= 3 * |s|
  {
    if |s| == 0 then [] else Encoded(s[0]) + EncodedAll(s[1..])
  }

  function Pair(a: Byte, b: Byte): Unit {
    ((a as Unit & 31) << 6) | (b as Unit & 63)
  }

  function Triple(a: Byte, b: Byte, c: Byte): Unit {
    ((a as Unit & 15) << 12) | ((b as Unit & 63) << 6) | (c as Unit & 63)
  }

  /** Reading the bytes back. */
  function Decoded(b: seq<Byte>): seq<Unit> {
    if |b| == 0 then []
    else if b[0] < 0x80 then [b[0] as Unit] + Decoded(b[1..])
    else if b[0] < 0xE0 && |b| >= 2 then [Pair(b[0], b[1])] + Decoded(b[2..])
    else if |b| >= 3 then [Triple(b[0], b[1], b[2])] + Decoded(b[3..])
    else []
  }

  lemma UnitBits(c: Unit)
    ensures c < 128 ==> (c as Byte) < 0x80 && (c as Byte) as Unit == c
    ensures 128 <= c < 2048 ==> var a, b := ((c >> 6) | 192) as Byte, ((c & 63) | 128) as Byte;
      0x80 <= a < 0xE0 && Pair(a, b) == c
    ensures 2048 <= c ==>
      var a, b, d := ((c >> 12) | 224) as Byte, (((c >> 6) & 63) | 128) as Byte, ((c & 63) | 128) as Byte;
      0xE0 <= a && Triple(a, b, d) == c
  {}

  lemma DecodeOne(a: Byte, rest: seq<Byte>)
    requires a < 0x80
    ensures Decoded([a] + rest) == [a as Unit] + Decoded(rest)
  {
    assert ([a] + rest)[1..] == rest;
  }

  lemma DecodeTwo(a: Byte, b: Byte, rest: seq<Byte>)
    requires 0x80 <= a < 0xE0
    ensures Decoded([a, b] + rest) == [Pair(a, b)] + Decoded(rest)
  {
    assert ([a, b] + rest)[2..] == rest;
  }

  lemma DecodeThree(a: Byte, b: Byte, c: Byte, rest: seq<Byte>)
    requires 0xE0 <= a
    ensures Decoded([a, b, c] + rest) == [Triple(a, b, c)] + Decoded(rest)
  {
    assert ([a, b, c] + rest)[3..] == rest;
  }

  lemma OneDecoded(c: Unit, rest: seq<Byte>)
    ensures Decoded(Encoded(c) + rest) == [c] + Decoded(rest)
  {
    UnitBits(c);
    var b := Encoded(c);
    if |b| == 1 {
      DecodeOne(b[0], rest);
      assert b == [b[0]];
    } else if |b| == 2 {
      DecodeTwo(b[0], b[1], rest);
      assert b == [b[0], b[1]];
    } else {
      DecodeThree(b[0], b[1], b[2], rest);
      assert b == [b[0], b[1], b[2]];
    }
  }

  /** The bytes determine the string: no two strings are encoded alike. */
  lemma {:induction false} EncodingRoundTrip(s: seq<Unit>)
    ensures Decoded(EncodedAll(s)) == s
  {
    if |s| > 0 {
      EncodingRoundTrip(s[1..]);
      OneDecoded(s[0], EncodedAll(s[1..]));
    }
  }

  lemma TwoBits(c: Unit, a: Byte, b: Byte)
    requires 0x80 <= c < 0x800 && a == ((c >> 6) | 192) as Byte && b == ((c & 63) | 128) as Byte
    ensures 0xC0 <= a < 0xE0 && 0x80 <= b < 0xC0
    ensures c == ((a as Unit - 0xC0) << 6) + (b as Unit - 0x80)
  {}

  lemma ThreeBits(c: Unit, a: Byte, b: Byte, d: Byte)
    requires 0x800 <= c && a == ((c >> 12) | 224) as Byte
    requires b == (((c >> 6) & 63) | 128) as Byte && d == ((c & 63) | 128) as Byte
    ensures 0xE0 <= a < 0xF0 && 0x80 <= b < 0xC0 && 0x80 <= d < 0xC0
    ensures c == ((a as Unit - 0xE0) << 12) + ((b as Unit - 0x80) << 6) + (d as Unit - 0x80)
  {}

  /** The bytes are those of section 3 of RFC 3629: one, two or three by the size of the unit, and the unit in groups of
      six bits, the leading ones first, added to the marks of a leading byte and of those that follow it. */
  lemma EncodedInTwo(c: Unit) returns (a: Byte, b: Byte)
    requires 0x80 <= c < 0x800
    ensures Encoded(c) == [a, b] && 0xC0 <= a < 0xE0 && 0x80 <= b < 0xC0
    ensures c == ((a as Unit - 0xC0) << 6) + (b as Unit - 0x80)
  {
    a, b := Encoded(c)[0], Encoded(c)[1];
    TwoBits(c, a, b);
  }

  lemma EncodedInThree(c: Unit) returns (a: Byte, b: Byte, d: Byte)
    requires 0x800 <= c
    ensures Encoded(c) == [a, b, d] && 0xE0 <= a < 0xF0 && 0x80 <= b < 0xC0 && 0x80 <= d < 0xC0
    ensures c == ((a as Unit - 0xE0) << 12) + ((b as Unit - 0x80) << 6) + (d as Unit - 0x80)
  {
    a, b, d := Encoded(c)[0], Encoded(c)[1], Encoded(c)[2];
    ThreeBits(c, a, b, d);
  }

  /** The body of the encoding loop. */
  method AppendUnit(output0: seq<Byte>, c: Unit) returns (output: seq<Byte>)
    ensures output == output0 + Encoded(c)
  {
    output := output0;
    if c < 128 {
      output := output + [c as Byte];
    } else if c > 127 && c < 2048 {
      output := output + [((c >> 6) | 192) as Byte];
      output := output + [((c & 63) | 128) as Byte];
    } else {
      output := output + [((c >> 12) | 224) as Byte];
      output := output + [(((c >> 6) & 63) | 128) as Byte];
      output := output + [((c & 63) | 128) as Byte];
    }
  }

  lemma EncodedStep(output: seq<Byte>, s: seq<Unit>, n: nat)
    requires n < |s|
    ensures output + EncodedAll(s[n..]) == output + Encoded(s[n]) + EncodedAll(s[n + 1..])
  {
    assert s[n..][0] == s[n] && s[n..][1..] == s[n + 1..];
  }

  method Utf8Encode(text: seq<Unit>) returns (output: seq<Byte>)
    ensures output == EncodedAll(Normalized(text)) && Decoded(output) == Normalized(text)
  {
    var s := Normalized(text);
    output := [];
    assert s[0..] == s;
    for n := 0 to |s|
      invariant output + EncodedAll(s[n..]) == EncodedAll(s)
    {
      EncodedStep(output, s, n);
      output := AppendUnit(output, s[n]);
    }
    assert s[|s|..] == [] && output + [] == output;
    EncodingRoundTrip(s);
  }

  /** The bytes as the numbers charCodeAt returns. */
  function Octets(b: seq<Byte>): (m: seq<Octet>)
    ensures |m| == |b|
  {
    seq(|b|, i requires 0 <= i < |b| => b[i] as int)
  }

  function HexDigest(r: Registers): string {
    Hex(r.a, 8) + Hex(r.b, 8) + Hex(r.c, 8) + Hex(r.d, 8) + Hex(r.e, 8)
  }

  /** The digest of a string, in hexadecimal digits. */
  method Sha1(text: seq<Unit>) returns (hex: string)
    requires |text| < 0x4000_0000
    ensures hex == HexDigest(Digest(Octets(EncodedAll(Normalized(text)))))
  {
    var bytes := Utf8Encode(text);
    var h := Hash(Octets(bytes));
    var a := CvtHex(h.a);
    var b := CvtHex(h.b);
    var c := CvtHex(h.c);
    var d := CvtHex(h.d);
    var e := CvtHex(h.e);
    hex := a + b + c + d + e;
  }
}
