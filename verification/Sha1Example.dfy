/** The one-block example of FIPS 180-4: the digest of "abc".  With other constants, rotations or choices
    than the standard's the digest is another one. */
module Sha1Example {
  import opened Numbers
  import opened Sha1
  import opened BitVectors

  // ---------------------------------------------------------------------------
  // The constants

  /** They are the square roots of 2, 3, 5 and 10 in units of 2^-30, rounded down. */
  lemma ConstantsAreRoots(t: nat)
    requires t < 80
    ensures var p := if t < 20 then 2 else if t < 40 then 3 else if t < 60 then 5 else 10;
      K(t) * K(t) <= p * 0x1000_0000_0000_0000 < (K(t) + 1) * (K(t) + 1)
  {}

  // ---------------------------------------------------------------------------
  // The digest on bit-vectors

  function Xors(x: Quad, y: Quad): Quad {
    QuadOf(XOR, x, y)
  }

  function Ands(x: Quad, y: Quad): Quad {
    QuadOf(AND, x, y)
  }

  function Choice(t: nat, x: Quad, y: Quad, z: Quad): Quad {
    if t < 20 then Xors(Ands(x, y), Ands(NotQuad(x), z))
    else if t < 40 || t >= 60 then Xors(Xors(x, y), z)
    else Xors(Xors(Ands(x, y), Ands(x, z)), Ands(y, z))
  }

  function ConstantAt(t: nat): Quad {
    if t < 20 then Quad(0x5A, 0x82, 0x79, 0x99) else if t < 40 then Quad(0x6E, 0xD9, 0xEB, 0xA1)
    else if t < 60 then Quad(0x8F, 0x1B, 0xBC, 0xDC) else Quad(0xCA, 0x62, 0xC1, 0xD6)
  }

  function NextQuad(w3: Quad, w8: Quad, w14: Quad, w16: Quad): Quad {
    RotByOne(Xors(Xors(Xors(w3, w8), w14), w16))
  }

  function NextSum(t: nat, a: Quad, b: Quad, c: Quad, d: Quad, e: Quad, w: Quad): Quad {
    Added(Added(Added(Added(RotByFive(a), Choice(t, b, RotByThirty(c), RotByThirty(d))), RotByThirty(e)), w),
          ConstantAt(t))
  }

  // ---------------------------------------------------------------------------
  // It is the digest

  /** The operations on bit-vectors do what is done with their values. */
  ghost predicate Lawful(value: Quad -> Word) {
    && (forall x, y :: value(QuadOf(XOR, x, y)) == Xor(value(x), value(y)))
    && (forall x, y :: value(QuadOf(AND, x, y)) == And(value(x), value(y)))
    && (forall x :: value(NotQuad(x)) == Not(value(x)))
    && (forall x :: value(RotByOne(x)) == RotL(value(x), 1))
    && (forall x :: value(RotByFive(x)) == RotL(value(x), 5))
    && (forall x :: value(RotByThirty(x)) == RotL(value(x), 30))
    && (forall x, y :: value(Added(x, y)) == Plus(value(x), value(y)))
  }

  lemma WordsAreLawful()
    ensures Lawful(WordAs)
  {
    forall x, y ensures WordAs(QuadOf(XOR, x, y)) == Xor(WordAs(x), WordAs(y)) {
      XorWord(x, y);
    }
    forall x, y ensures WordAs(QuadOf(AND, x, y)) == And(WordAs(x), WordAs(y)) {
      AndWord(x, y);
    }
    forall x ensures WordAs(NotQuad(x)) == Not(WordAs(x)) {
      NotWord(x);
    }
    forall x ensures WordAs(RotByOne(x)) == RotL(WordAs(x), 1) {
      RotatedOne(x);
    }
    forall x ensures WordAs(RotByFive(x)) == RotL(WordAs(x), 5) {
      RotatedFive(x);
    }
    forall x ensures WordAs(RotByThirty(x)) == RotL(WordAs(x), 30) {
      RotatedThirty(x);
    }
    forall x, y ensures WordAs(Added(x, y)) == Plus(WordAs(x), WordAs(y)) {
      AddedIs(x, y);
    }
  }

  lemma NextQuadIs(value: Quad -> Word, w3: Quad, w8: Quad, w14: Quad, w16: Quad)
    requires Lawful(value)
    ensures value(NextQuad(w3, w8, w14, w16)) == RotL(Xor(Xor(Xor(value(w3), value(w8)), value(w14)), value(w16)), 1)
  {}

  lemma ChoiceIs(value: Quad -> Word, t: nat, x: Quad, y: Quad, z: Quad)
    requires Lawful(value)
    ensures value(Choice(t, x, y, z)) == F(t, value(x), value(y), value(z))
  {}

  lemma FourPlus(value: Quad -> Word, a: Quad, f: Quad, e: Quad, w: Quad, k: Quad)
    requires Lawful(value)
    ensures value(Added(Added(Added(Added(a, f), e), w), k))
         == Plus(Plus(Plus(Plus(value(a), value(f)), value(e)), value(w)), value(k))
  {}

  lemma RotationsAre(value: Quad -> Word, a: Quad, e: Quad)
    requires Lawful(value)
    ensures value(RotByFive(a)) == RotL(value(a), 5) && value(RotByThirty(e)) == RotL(value(e), 30)
  {}

  lemma NextSumIs(value: Quad -> Word, t: nat, a: Quad, b: Quad, c: Quad, d: Quad, e: Quad, w: Quad)
    requires Lawful(value)
    ensures value(NextSum(t, a, b, c, d, e, w))
         == Plus(Plus(Plus(Plus(value(RotByFive(a)), F(t, value(b), value(RotByThirty(c)), value(RotByThirty(d)))),
                           value(RotByThirty(e))), value(w)), value(ConstantAt(t)))
  {
    ChoiceIs(value, t, b, RotByThirty(c), RotByThirty(d));
    FourPlus(value, RotByFive(a), Choice(t, b, RotByThirty(c), RotByThirty(d)), RotByThirty(e), w, ConstantAt(t));
  }

  lemma PlusFive(a: Word, f: Word, e: Word, w: Word, k: Word)
    ensures Plus(Plus(Plus(Plus(a, f), e), w), k) == (a + f + e + w + k) % 0x1_0000_0000
  {
    PlusMore(a + f, e);
    PlusMore(a + f + e, w);
    PlusMore(a + f + e + w, k);
  }

  lemma PlusMore(s: nat, x: Word)
    ensures Plus(s % 0x1_0000_0000, x) == (s + x) % 0x1_0000_0000
  {
    ModAdd(s, x);
  }

  // ---------------------------------------------------------------------------
  // The example

  /** The schedule of the message "abc", and register a by rounds: entry t + 4 after t rounds.  The entries
      before the fourth are the other registers at the start, with the rotation of c, d and e undone. */
  ghost predicate IsCourse(word: nat -> Quad, register: nat -> Quad) {
    && word(0) == Quad(0x61, 0x62, 0x63, 0x80) && word(15) == Quad(0x00, 0x00, 0x00, 0x18)
    && (forall t :: 1 <= t < 15 ==> word(t) == Quad(0x00, 0x00, 0x00, 0x00))
    && register(0) == Quad(0x0F, 0x4B, 0x87, 0xC3) && register(1) == Quad(0x40, 0xC9, 0x51, 0xD8)
    && register(2) == Quad(0x62, 0xEB, 0x73, 0xFA) && register(3) == Quad(0xEF, 0xCD, 0xAB, 0x89)
    && register(4) == Quad(0x67, 0x45, 0x23, 0x01)
    && (forall t {:trigger IsNextWord(word, t)} :: 16 <= t < 80 ==> IsNextWord(word, t))
    && (forall t {:trigger IsNextRegister(word, register, t)} :: 0 <= t < 80 ==> IsNextRegister(word, register, t))
  }

  ghost predicate IsNextWord(word: nat -> Quad, t: nat)
    requires t >= 16
  {
    word(t) == NextQuad(word(t - 3), word(t - 8), word(t - 14), word(t - 16))
  }

  ghost predicate IsNextRegister(word: nat -> Quad, register: nat -> Quad, t: nat) {
    register(t + 5) ==
      NextSum(t, register(t + 4), register(t + 3), register(t + 2), register(t + 1), register(t), word(t))
  }

  lemma Words0(word: nat -> Quad, register: nat -> Quad)
    requires IsCourse(word, register)
    ensures word(0) == Quad(0x61, 0x62, 0x63, 0x80) && word(1) == Quad(0x00, 0x00, 0x00, 0x00)
    ensures word(2) == Quad(0x00, 0x00, 0x00, 0x00) && word(3) == Quad(0x00, 0x00, 0x00, 0x00)
    ensures word(4) == Quad(0x00, 0x00, 0x00, 0x00) && word(5) == Quad(0x00, 0x00, 0x00, 0x00)
    ensures word(6) == Quad(0x00, 0x00, 0x00, 0x00) && word(7) == Quad(0x00, 0x00, 0x00, 0x00)
  {}

  lemma Words8(word: nat -> Quad, register: nat -> Quad)
    requires IsCourse(word, register)
    ensures word(8) == Quad(0x00, 0x00, 0x00, 0x00) && word(9) == Quad(0x00, 0x00, 0x00, 0x00)
    ensures word(10) == Quad(0x00, 0x00, 0x00, 0x00) && word(11) == Quad(0x00, 0x00, 0x00, 0x00)
    ensures word(12) == Quad(0x00, 0x00, 0x00, 0x00) && word(13) == Quad(0x00, 0x00, 0x00, 0x00)
    ensures word(14) == Quad(0x00, 0x00, 0x00, 0x00) && word(15) == Quad(0x00, 0x00, 0x00, 0x18)
  {}

  lemma Words16(word: nat -> Quad, register: nat -> Quad)
    requires IsCourse(word, register)
    ensures word(16) == Quad(0xC2, 0xC4, 0xC7, 0x00) && word(17) == Quad(0x00, 0x00, 0x00, 0x00)
    ensures word(18) == Quad(0x00, 0x00, 0x00, 0x30) && word(19) == Quad(0x85, 0x89, 0x8E, 0x01)
    ensures word(20) == Quad(0x00, 0x00, 0x00, 0x00) && word(21) == Quad(0x00, 0x00, 0x00, 0x60)
    ensures word(22) == Quad(0x0B, 0x13, 0x1C, 0x03) && word(23) == Quad(0x00, 0x00, 0x00, 0x30)
  {
    Words0(word, register); Words8(word, register);
    assert IsNextWord(word, 16) && IsNextWord(word, 17) && IsNextWord(word, 18) && IsNextWord(word, 19);
    assert IsNextWord(word, 20) && IsNextWord(word, 21) && IsNextWord(word, 22) && IsNextWord(word, 23);
  }

  lemma Words24(word: nat -> Quad, register: nat -> Quad)
    requires IsCourse(word, register)
    ensures word(24) == Quad(0x85, 0x89, 0x8E, 0xC1) && word(25) == Quad(0x16, 0x26, 0x38, 0x06)
    ensures word(26) == Quad(0x00, 0x00, 0x00, 0x00) && word(27) == Quad(0x00, 0x00, 0x01, 0x80)
    ensures word(28) == Quad(0x2C, 0x4C, 0x70, 0x0C) && word(29) == Quad(0x00, 0x00, 0x00, 0xF0)
    ensures word(30) == Quad(0x93, 0xAF, 0xB5, 0x07) && word(31) == Quad(0x58, 0x98, 0xE0, 0x48)
  {
    Words8(word, register); Words16(word, register);
    assert IsNextWord(word, 24) && IsNextWord(word, 25) && IsNextWord(word, 26) && IsNextWord(word, 27);
    assert IsNextWord(word, 28) && IsNextWord(word, 29) && IsNextWord(word, 30) && IsNextWord(word, 31);
  }

  lemma Words32(word: nat -> Quad, register: nat -> Quad)
    requires IsCourse(word, register)
    ensures word(32) == Quad(0x8E, 0x9A, 0x92, 0x02) && word(33) == Quad(0x00, 0x00, 0x06, 0x00)
    ensures word(34) == Quad(0xB1, 0x31, 0xC0, 0xF0) && word(35) == Quad(0x16, 0x26, 0x3B, 0xC6)
    ensures word(36) == Quad(0x4E, 0xBE, 0xD4, 0x1E) && word(37) == Quad(0x62, 0x63, 0x80, 0xA1)
    ensures word(38) == Quad(0x16, 0x26, 0x38, 0x06) && word(39) == Quad(0x00, 0x00, 0x18, 0xC0)
  {
    Words16(word, register); Words24(word, register);
    assert IsNextWord(word, 32) && IsNextWord(word, 33) && IsNextWord(word, 34) && IsNextWord(word, 35);
    assert IsNextWord(word, 36) && IsNextWord(word, 37) && IsNextWord(word, 38) && IsNextWord(word, 39);
  }

  lemma Words40(word: nat -> Quad, register: nat -> Quad)
    requires IsCourse(word, register)
    ensures word(40) == Quad(0xD2, 0xE1, 0x38, 0xC4) && word(41) == Quad(0x00, 0x00, 0x0F, 0x00)
    ensures word(42) == Quad(0x3A, 0xFB, 0x50, 0x79) && word(43) == Quad(0x89, 0x8E, 0x04, 0xE5)
    ensures word(44) == Quad(0xE2, 0xBA, 0x3C, 0x2B) && word(45) == Quad(0x00, 0x00, 0x60, 0xC0)
    ensures word(46) == Quad(0x05, 0x3A, 0x37, 0xCD) && word(47) == Quad(0x74, 0x45, 0x85, 0x47)
  {
    Words24(word, register); Words32(word, register);
    assert IsNextWord(word, 40) && IsNextWord(word, 41) && IsNextWord(word, 42) && IsNextWord(word, 43);
    assert IsNextWord(word, 44) && IsNextWord(word, 45) && IsNextWord(word, 46) && IsNextWord(word, 47);
  }

  lemma Words48(word: nat -> Quad, register: nat -> Quad)
    requires IsCourse(word, register)
    ensures word(48) == Quad(0xDA, 0x94, 0x15, 0xED) && word(49) == Quad(0x26, 0x38, 0x0A, 0x16)
    ensures word(50) == Quad(0x62, 0x63, 0x83, 0xA1) && word(51) == Quad(0x4E, 0xBF, 0x54, 0xDE)
    ensures word(52) == Quad(0x38, 0x35, 0xB4, 0x4B) && word(53) == Quad(0x00, 0x00, 0xF6, 0x00)
    ensures word(54) == Quad(0x1E, 0x84, 0xC7, 0xA3) && word(55) == Quad(0x98, 0xE0, 0x4D, 0x98)
  {
    Words32(word, register); Words40(word, register);
    assert IsNextWord(word, 48) && IsNextWord(word, 49) && IsNextWord(word, 50) && IsNextWord(word, 51);
    assert IsNextWord(word, 52) && IsNextWord(word, 53) && IsNextWord(word, 54) && IsNextWord(word, 55);
  }

  lemma Words56(word: nat -> Quad, register: nat -> Quad)
    requires IsCourse(word, register)
    ensures word(56) == Quad(0x65, 0x1D, 0x16, 0xA0) && word(57) == Quad(0x62, 0x65, 0x8C, 0xA1)
    ensures word(58) == Quad(0x45, 0x85, 0x44, 0xD6) && word(59) == Quad(0x44, 0x58, 0x4C, 0xB7)
    ensures word(60) == Quad(0x7B, 0xA0, 0x66, 0x19) && word(61) == Quad(0x63, 0x80, 0xAE, 0xA2)
    ensures word(62) == Quad(0x0A, 0xE5, 0x52, 0x69) && word(63) == Quad(0x62, 0x7B, 0x49, 0xA1)
  {
    Words40(word, register); Words48(word, register);
    assert IsNextWord(word, 56) && IsNextWord(word, 57) && IsNextWord(word, 58) && IsNextWord(word, 59);
    assert IsNextWord(word, 60) && IsNextWord(word, 61) && IsNextWord(word, 62) && IsNextWord(word, 63);
  }

  lemma Words64(word: nat -> Quad, register: nat -> Quad)
    requires IsCourse(word, register)
    ensures word(64) == Quad(0x7C, 0xD4, 0x5C, 0x9D) && word(65) == Quad(0x00, 0x0F, 0x00, 0x00)
    ensures word(66) == Quad(0xFB, 0x50, 0x75, 0x3A) && word(67) == Quad(0xEC, 0x67, 0x65, 0xE8)
    ensures word(68) == Quad(0xBA, 0x3C, 0x2B, 0xE2) && word(69) == Quad(0x00, 0x60, 0xC0, 0x00)
    ensures word(70) == Quad(0x3A, 0x37, 0xCD, 0x05) && word(71) == Quad(0x45, 0x85, 0x46, 0xF4)
  {
    Words48(word, register); Words56(word, register);
    assert IsNextWord(word, 64) && IsNextWord(word, 65) && IsNextWord(word, 66) && IsNextWord(word, 67);
    assert IsNextWord(word, 68) && IsNextWord(word, 69) && IsNextWord(word, 70) && IsNextWord(word, 71);
  }

  lemma Words72(word: nat -> Quad, register: nat -> Quad)
    requires IsCourse(word, register)
    ensures word(72) == Quad(0xB8, 0x59, 0x9D, 0xD6) && word(73) == Quad(0x38, 0x0A, 0x1A, 0x26)
    ensures word(74) == Quad(0x01, 0xE0, 0x22, 0x03) && word(75) == Quad(0xE7, 0xCC, 0x34, 0x56)
    ensures word(76) == Quad(0xE6, 0xE6, 0x0B, 0x69) && word(77) == Quad(0x00, 0xF6, 0x0A, 0x00)
    ensures word(78) == Quad(0x57, 0x95, 0xEF, 0x4F) && word(79) == Quad(0x82, 0x2E, 0x08, 0x79)
  {
    Words56(word, register); Words64(word, register);
    assert IsNextWord(word, 72) && IsNextWord(word, 73) && IsNextWord(word, 74) && IsNextWord(word, 75);
    assert IsNextWord(word, 76) && IsNextWord(word, 77) && IsNextWord(word, 78) && IsNextWord(word, 79);
  }

  lemma Registers5(word: nat -> Quad, register: nat -> Quad)
    requires IsCourse(word, register)
    ensures register(5) == Quad(0x01, 0x16, 0xFC, 0x33) && register(6) == Quad(0x89, 0x90, 0x53, 0x6D)
    ensures register(7) == Quad(0xA1, 0x39, 0x0F, 0x08) && register(8) == Quad(0xCD, 0xD8, 0xE1, 0x1B)
  {
    Words0(word, register);
    assert IsNextRegister(word, register, 0) && IsNextRegister(word, register, 1);
    assert IsNextRegister(word, register, 2);
    assert IsNextRegister(word, register, 3);
  }

  lemma Registers9(word: nat -> Quad, register: nat -> Quad)
    requires IsCourse(word, register)
    ensures register(9) == Quad(0xCF, 0xD4, 0x99, 0xDE) && register(10) == Quad(0x3F, 0xC7, 0xCA, 0x40)
    ensures register(11) == Quad(0x99, 0x3E, 0x30, 0xC1) && register(12) == Quad(0x9E, 0x8C, 0x07, 0xD4)
  {
    Words0(word, register); Registers5(word, register);
    assert IsNextRegister(word, register, 4) && IsNextRegister(word, register, 5);
    assert IsNextRegister(word, register, 6);
    assert IsNextRegister(word, register, 7);
  }

  lemma Registers13(word: nat -> Quad, register: nat -> Quad)
    requires IsCourse(word, register)
    ensures register(13) == Quad(0x4B, 0x6A, 0xE3, 0x28) && register(14) == Quad(0x83, 0x51, 0xF9, 0x29)
    ensures register(15) == Quad(0xFB, 0xDA, 0x9E, 0x89) && register(16) == Quad(0x63, 0x18, 0x8F, 0xE4)
  {
    Words8(word, register); Registers5(word, register); Registers9(word, register);
    assert IsNextRegister(word, register, 8) && IsNextRegister(word, register, 9);
    assert IsNextRegister(word, register, 10);
    assert IsNextRegister(word, register, 11);
  }

  lemma Registers17(word: nat -> Quad, register: nat -> Quad)
    requires IsCourse(word, register)
    ensures register(17) == Quad(0x46, 0x07, 0xB6, 0x64) && register(18) == Quad(0x91, 0x28, 0xF6, 0x95)
    ensures register(19) == Quad(0x19, 0x6B, 0xEE, 0x77) && register(20) == Quad(0x20, 0xBD, 0xD6, 0x2F)
  {
    Words8(word, register); Registers9(word, register); Registers13(word, register);
    assert IsNextRegister(word, register, 12) && IsNextRegister(word, register, 13);
    assert IsNextRegister(word, register, 14);
    assert IsNextRegister(word, register, 15);
  }

  lemma Registers21(word: nat -> Quad, register: nat -> Quad)
    requires IsCourse(word, register)
    ensures register(21) == Quad(0x4E, 0x92, 0x58, 0x23) && register(22) == Quad(0x82, 0xAA, 0x67, 0x28)
    ensures register(23) == Quad(0xDC, 0x64, 0x90, 0x1D) && register(24) == Quad(0xFD, 0x9E, 0x1D, 0x7D)
  {
    Words16(word, register); Registers13(word, register); Registers17(word, register);
    assert IsNextRegister(word, register, 16) && IsNextRegister(word, register, 17);
    assert IsNextRegister(word, register, 18);
    assert IsNextRegister(word, register, 19);
  }

  lemma Registers25(word: nat -> Quad, register: nat -> Quad)
    requires IsCourse(word, register)
    ensures register(25) == Quad(0x1A, 0x37, 0xB0, 0xCA) && register(26) == Quad(0x33, 0xA2, 0x3B, 0xFC)
    ensures register(27) == Quad(0x21, 0x28, 0x34, 0x86) && register(28) == Quad(0xD5, 0x41, 0xF1, 0x2D)
  {
    Words16(word, register); Registers17(word, register); Registers21(word, register);
    assert IsNextRegister(word, register, 20) && IsNextRegister(word, register, 21);
    assert IsNextRegister(word, register, 22);
    assert IsNextRegister(word, register, 23);
  }

  lemma Registers29(word: nat -> Quad, register: nat -> Quad)
    requires IsCourse(word, register)
    ensures register(29) == Quad(0xC7, 0x56, 0x7D, 0xC6) && register(30) == Quad(0x48, 0x41, 0x3B, 0xA4)
    ensures register(31) == Quad(0xBE, 0x35, 0xFB, 0xD5) && register(32) == Quad(0x4A, 0xA8, 0x4D, 0x97)
  {
    Words24(word, register); Registers21(word, register); Registers25(word, register);
    assert IsNextRegister(word, register, 24) && IsNextRegister(word, register, 25);
    assert IsNextRegister(word, register, 26);
    assert IsNextRegister(word, register, 27);
  }

  lemma Registers33(word: nat -> Quad, register: nat -> Quad)
    requires IsCourse(word, register)
    ensures register(33) == Quad(0x83, 0x70, 0xB5, 0x2E) && register(34) == Quad(0xC5, 0xFB, 0xAF, 0x5D)
    ensures register(35) == Quad(0x12, 0x67, 0xB4, 0x07) && register(36) == Quad(0x3B, 0x84, 0x5D, 0x33)
  {
    Words24(word, register); Registers25(word, register); Registers29(word, register);
    assert IsNextRegister(word, register, 28) && IsNextRegister(word, register, 29);
    assert IsNextRegister(word, register, 30);
    assert IsNextRegister(word, register, 31);
  }

  lemma Registers37(word: nat -> Quad, register: nat -> Quad)
    requires IsCourse(word, register)
    ensures register(37) == Quad(0x04, 0x6F, 0xAA, 0x0A) && register(38) == Quad(0x2C, 0x0E, 0xBC, 0x11)
    ensures register(39) == Quad(0x21, 0x79, 0x6A, 0xD4) && register(40) == Quad(0xDC, 0xBB, 0xB0, 0xCB)
  {
    Words32(word, register); Registers29(word, register); Registers33(word, register);
    assert IsNextRegister(word, register, 32) && IsNextRegister(word, register, 33);
    assert IsNextRegister(word, register, 34);
    assert IsNextRegister(word, register, 35);
  }

  lemma Registers41(word: nat -> Quad, register: nat -> Quad)
    requires IsCourse(word, register)
    ensures register(41) == Quad(0x0F, 0x51, 0x1F, 0xD8) && register(42) == Quad(0xDC, 0x63, 0x97, 0x3F)
    ensures register(43) == Quad(0x4C, 0x98, 0x64, 0x05) && register(44) == Quad(0x32, 0xDE, 0x1C, 0xBA)
  {
    Words32(word, register); Registers33(word, register); Registers37(word, register);
    assert IsNextRegister(word, register, 36) && IsNextRegister(word, register, 37);
    assert IsNextRegister(word, register, 38);
    assert IsNextRegister(word, register, 39);
  }

  lemma Registers45(word: nat -> Quad, register: nat -> Quad)
    requires IsCourse(word, register)
    ensures register(45) == Quad(0xFC, 0x87, 0xDE, 0xDF) && register(46) == Quad(0x97, 0x0A, 0x0D, 0x5C)
    ensures register(47) == Quad(0x7F, 0x19, 0x3D, 0xC5) && register(48) == Quad(0xEE, 0x1B, 0x1A, 0xAF)
  {
    Words40(word, register); Registers37(word, register); Registers41(word, register);
    assert IsNextRegister(word, register, 40) && IsNextRegister(word, register, 41);
    assert IsNextRegister(word, register, 42);
    assert IsNextRegister(word, register, 43);
  }

  lemma Registers49(word: nat -> Quad, register: nat -> Quad)
    requires IsCourse(word, register)
    ensures register(49) == Quad(0x40, 0xF2, 0x8E, 0x09) && register(50) == Quad(0x1C, 0x51, 0xE1, 0xF2)
    ensures register(51) == Quad(0xA0, 0x1B, 0x84, 0x6C) && register(52) == Quad(0xBE, 0xAD, 0x02, 0xCA)
  {
    Words40(word, register); Registers41(word, register); Registers45(word, register);
    assert IsNextRegister(word, register, 44) && IsNextRegister(word, register, 45);
    assert IsNextRegister(word, register, 46);
    assert IsNextRegister(word, register, 47);
  }

  lemma Registers53(word: nat -> Quad, register: nat -> Quad)
    requires IsCourse(word, register)
    ensures register(53) == Quad(0xBA, 0xF3, 0x93, 0x37) && register(54) == Quad(0x12, 0x07, 0x31, 0xC5)
    ensures register(55) == Quad(0x64, 0x1D, 0xB2, 0xCE) && register(56) == Quad(0x38, 0x47, 0xAD, 0x66)
  {
    Words48(word, register); Registers45(word, register); Registers49(word, register);
    assert IsNextRegister(word, register, 48) && IsNextRegister(word, register, 49);
    assert IsNextRegister(word, register, 50);
    assert IsNextRegister(word, register, 51);
  }

  lemma Registers57(word: nat -> Quad, register: nat -> Quad)
    requires IsCourse(word, register)
    ensures register(57) == Quad(0xE4, 0x90, 0x43, 0x6D) && register(58) == Quad(0x27, 0xE9, 0xF1, 0xD8)
    ensures register(59) == Quad(0x7B, 0x71, 0xF7, 0x6D) && register(60) == Quad(0x5E, 0x64, 0x56, 0xAF)
  {
    Words48(word, register); Registers49(word, register); Registers53(word, register);
    assert IsNextRegister(word, register, 52) && IsNextRegister(word, register, 53);
    assert IsNextRegister(word, register, 54);
    assert IsNextRegister(word, register, 55);
  }

  lemma Registers61(word: nat -> Quad, register: nat -> Quad)
    requires IsCourse(word, register)
    ensures register(61) == Quad(0xC8, 0x46, 0x09, 0x3F) && register(62) == Quad(0xD2, 0x62, 0xFF, 0x50)
    ensures register(63) == Quad(0x09, 0xD7, 0x85, 0xFD) && register(64) == Quad(0x3F, 0x52, 0xDE, 0x5A)
  {
    Words56(word, register); Registers53(word, register); Registers57(word, register);
    assert IsNextRegister(word, register, 56) && IsNextRegister(word, register, 57);
    assert IsNextRegister(word, register, 58);
    assert IsNextRegister(word, register, 59);
  }

  lemma Registers65(word: nat -> Quad, register: nat -> Quad)
    requires IsCourse(word, register)
    ensures register(65) == Quad(0xD7, 0x56, 0xC1, 0x47) && register(66) == Quad(0x54, 0x8C, 0x9C, 0xB2)
    ensures register(67) == Quad(0xB6, 0x6C, 0x02, 0x0B) && register(68) == Quad(0x6B, 0x61, 0xC9, 0xE1)
  {
    Words56(word, register); Registers57(word, register); Registers61(word, register);
    assert IsNextRegister(word, register, 60) && IsNextRegister(word, register, 61);
    assert IsNextRegister(word, register, 62);
    assert IsNextRegister(word, register, 63);
  }

  lemma Registers69(word: nat -> Quad, register: nat -> Quad)
    requires IsCourse(word, register)
    ensures register(69) == Quad(0x19, 0xDF, 0xA7, 0xAC) && register(70) == Quad(0x10, 0x16, 0x55, 0xF9)
    ensures register(71) == Quad(0x0C, 0x3D, 0xF2, 0xB4) && register(72) == Quad(0x78, 0xDD, 0x4D, 0x2B)
  {
    Words64(word, register); Registers61(word, register); Registers65(word, register);
    assert IsNextRegister(word, register, 64) && IsNextRegister(word, register, 65);
    assert IsNextRegister(word, register, 66);
    assert IsNextRegister(word, register, 67);
  }

  lemma Registers73(word: nat -> Quad, register: nat -> Quad)
    requires IsCourse(word, register)
    ensures register(73) == Quad(0x49, 0x70, 0x93, 0xC0) && register(74) == Quad(0x3F, 0x25, 0x88, 0xC2)
    ensures register(75) == Quad(0xC1, 0x99, 0xF8, 0xC7) && register(76) == Quad(0x39, 0x85, 0x9D, 0xE7)
  {
    Words64(word, register); Registers65(word, register); Registers69(word, register);
    assert IsNextRegister(word, register, 68) && IsNextRegister(word, register, 69);
    assert IsNextRegister(word, register, 70);
    assert IsNextRegister(word, register, 71);
  }

  lemma Registers77(word: nat -> Quad, register: nat -> Quad)
    requires IsCourse(word, register)
    ensures register(77) == Quad(0xED, 0xB4, 0x2D, 0xE4) && register(78) == Quad(0x11, 0x79, 0x3F, 0x6F)
    ensures register(79) == Quad(0x5E, 0xE7, 0x68, 0x97) && register(80) == Quad(0x63, 0xF7, 0xDA, 0xB7)
  {
    Words72(word, register); Registers69(word, register); Registers73(word, register);
    assert IsNextRegister(word, register, 72) && IsNextRegister(word, register, 73);
    assert IsNextRegister(word, register, 74);
    assert IsNextRegister(word, register, 75);
  }

  lemma Registers81(word: nat -> Quad, register: nat -> Quad)
    requires IsCourse(word, register)
    ensures register(81) == Quad(0xA0, 0x79, 0xB7, 0xD9) && register(82) == Quad(0x86, 0x0D, 0x21, 0xCC)
    ensures register(83) == Quad(0x57, 0x38, 0xD5, 0xE1) && register(84) == Quad(0x42, 0x54, 0x1B, 0x35)
  {
    Words72(word, register); Registers73(word, register); Registers77(word, register);
    assert IsNextRegister(word, register, 76) && IsNextRegister(word, register, 77);
    assert IsNextRegister(word, register, 78);
    assert IsNextRegister(word, register, 79);
  }

  // ---------------------------------------------------------------------------
  // The digest

  /** The registers after t rounds. */
  function After(value: Quad -> Word, register: nat -> Quad, t: nat): Registers {
    Registers(value(register(t + 4)), value(register(t + 3)), value(RotByThirty(register(t + 2))),
              value(RotByThirty(register(t + 1))), value(RotByThirty(register(t))))
  }

  /** The course is that of this block. */
  ghost predicate IsOf(value: Quad -> Word, word: nat -> Quad, register: nat -> Quad, block: seq<Word>) {
    && Lawful(value) && IsCourse(word, register) && |block| == 16
    && (forall t :: 0 <= t < 16 ==> value(word(t)) == block[t]) && After(value, register, 0) == INITIAL
    && (forall t :: 0 <= t < 80 ==> value(ConstantAt(t)) == K(t))
  }

  lemma {:induction false} ScheduleIs(value: Quad -> Word, word: nat -> Quad, register: nat -> Quad,
                                      block: seq<Word>, t: nat)
    requires IsOf(value, word, register, block) && t < 80
    ensures Schedule(block, t) == value(word(t))
  {
    if t >= 16 {
      ScheduleIs(value, word, register, block, t - 3);
      ScheduleIs(value, word, register, block, t - 8);
      ScheduleIs(value, word, register, block, t - 14);
      ScheduleIs(value, word, register, block, t - 16);
      assert IsNextWord(word, t);
      NextQuadIs(value, word(t - 3), word(t - 8), word(t - 14), word(t - 16));
    }
  }

  lemma RoundIs(value: Quad -> Word, word: nat -> Quad, register: nat -> Quad, t: nat, r: Registers, w: Word)
    requires Lawful(value) && IsNextRegister(word, register, t) && value(ConstantAt(t)) == K(t)
    requires r == After(value, register, t) && w == value(word(t))
    ensures Round(r, t, w) == After(value, register, t + 1)
  {
    NextSumIs(value, t, register(t + 4), register(t + 3), register(t + 2), register(t + 1), register(t), word(t));
    RotationsAre(value, register(t + 4), register(t + 3));
    RoundBySums(r, t, w);
  }

  lemma RoundBySums(r: Registers, t: nat, w: Word)
    ensures Round(r, t, w) == Registers(Plus(Plus(Plus(Plus(RotL(r.a, 5), F(t, r.b, r.c, r.d)), r.e), w), K(t)),
                                        r.a, RotL(r.b, 30), r.c, r.d)
  {
    PlusFive(RotL(r.a, 5), F(t, r.b, r.c, r.d), r.e, w, K(t));
  }

  lemma {:induction false} RoundsAre(value: Quad -> Word, word: nat -> Quad, register: nat -> Quad,
                                     block: seq<Word>, t: nat)
    requires IsOf(value, word, register, block) && t <= 80
    ensures Rounds(INITIAL, block, t) == After(value, register, t)
  {
    if t > 0 {
      RoundsAre(value, word, register, block, t - 1);
      ScheduleIs(value, word, register, block, t - 1);
      assert IsNextRegister(word, register, t - 1);
      RoundIs(value, word, register, t - 1, Rounds(INITIAL, block, t - 1), Schedule(block, t - 1));
    }
  }

  type WordStep = (Quad, Quad, Quad, Quad) -> Quad
  type RegisterStep = (nat, Quad, Quad, Quad, Quad, Quad, Quad) -> Quad

  /** The words by this step, and the registers by that one. */
  function WordBy(next: WordStep, t: nat): Quad {
    if t == 0 then Quad(0x61, 0x62, 0x63, 0x80) else if t < 15 then Quad(0x00, 0x00, 0x00, 0x00)
    else if t == 15 then Quad(0x00, 0x00, 0x00, 0x18)
    else next(WordBy(next, t - 3), WordBy(next, t - 8), WordBy(next, t - 14), WordBy(next, t - 16))
  }

  function RegisterBy(next: RegisterStep, word: nat -> Quad, t: nat): Quad {
    if t == 0 then Quad(0x0F, 0x4B, 0x87, 0xC3) else if t == 1 then Quad(0x40, 0xC9, 0x51, 0xD8)
    else if t == 2 then Quad(0x62, 0xEB, 0x73, 0xFA) else if t == 3 then Quad(0xEF, 0xCD, 0xAB, 0x89)
    else if t == 4 then Quad(0x67, 0x45, 0x23, 0x01)
    else next(t - 5, RegisterBy(next, word, t - 1), RegisterBy(next, word, t - 2), RegisterBy(next, word, t - 3),
              RegisterBy(next, word, t - 4), RegisterBy(next, word, t - 5), word(t - 5))
  }

  function WordAt(t: nat): Quad {
    WordBy(NextQuad, t)
  }

  function RegisterAt(t: nat): Quad {
    RegisterBy(NextSum, WordAt, t)
  }

  lemma NextWordBy(next: WordStep, t: nat)
    requires t >= 16
    ensures WordBy(next, t)
         == next(WordBy(next, t - 3), WordBy(next, t - 8), WordBy(next, t - 14), WordBy(next, t - 16))
  {}

  lemma NextRegisterBy(next: RegisterStep, word: nat -> Quad, t: nat)
    ensures RegisterBy(next, word, t + 5)
         == next(t, RegisterBy(next, word, t + 4), RegisterBy(next, word, t + 3), RegisterBy(next, word, t + 2),
                 RegisterBy(next, word, t + 1), RegisterBy(next, word, t), word(t))
  {}

  lemma EarlyWords(t: nat)
    requires 1 <= t < 15
    ensures WordAt(t) == Quad(0x00, 0x00, 0x00, 0x00)
  {}

  lemma ExampleIsCourse()
    ensures IsCourse(WordAt, RegisterAt)
  {
    forall t | 1 <= t < 15 ensures WordAt(t) == Quad(0x00, 0x00, 0x00, 0x00) {
      EarlyWords(t);
    }
    forall t | 16 <= t < 80 ensures IsNextWord(WordAt, t) {
      NextWordBy(NextQuad, t);
    }
    forall t | 0 <= t < 80 ensures IsNextRegister(WordAt, RegisterAt, t) {
      NextRegisterBy(NextSum, WordAt, t);
    }
  }

  function Block(): (ws: seq<Word>)
    ensures |ws| == 16
  {
    [0x6162_6380] + seq(14, _ => 0) + [24]
  }

  lemma FirstWords(word: nat -> Quad, register: nat -> Quad, t: nat)
    requires IsCourse(word, register) && t < 16
    ensures WordAs(word(t)) == Block()[t]
  {
    Words0(word, register);
    Words8(word, register);
  }

  lemma ConstantIs(t: nat)
    ensures WordAs(ConstantAt(t)) == K(t)
  {}

  lemma StartsInitial(register: nat -> Quad, word: nat -> Quad)
    requires IsCourse(word, register)
    ensures After(WordAs, register, 0) == INITIAL
  {}

  lemma EndsWith(register: nat -> Quad, word: nat -> Quad, n: nat)
    requires IsCourse(word, register) && n == 80
    ensures Sum(INITIAL, After(WordAs, register, n))
         == Registers(0xA999_3E36, 0x4706_816A, 0xBA3E_2571, 0x7850_C26C, 0x9CD0_D89D)
  {
    Registers77(word, register);
    Registers81(word, register);
  }

  lemma ExampleIsOfBlock(word: nat -> Quad, register: nat -> Quad)
    requires IsCourse(word, register)
    ensures IsOf(WordAs, word, register, Block())
  {
    WordsAreLawful();
    StartsInitial(register, word);
    forall t | 0 <= t < 16 ensures WordAs(word(t)) == Block()[t] {
      FirstWords(word, register, t);
    }
    forall t | 0 <= t < 80 ensures WordAs(ConstantAt(t)) == K(t) {
      ConstantIs(t);
    }
  }

  lemma PaddedIsBlock(m: seq<Octet>)
    requires m == [97, 98, 99]
    ensures PaddedWords(m) == Block()
  {
    var p := PaddedBytes(m);
    assert p == m + [0x80] + Zeros(52);
    forall i | 0 <= i < 14 ensures WordsOf(p)[i] == Block()[i] {
      assert i > 0 ==> p[4 * i] == p[4 * i + 1] == p[4 * i + 2] == p[4 * i + 3] == 0;
    }
    assert WordsOf(p) + [0, 24] == Block();
  }

  lemma HashOne(block: seq<Word>, n: nat)
    requires |block| == 16 && n == 80
    ensures HashBlocks(block, 1) == Sum(INITIAL, Rounds(INITIAL, block, n))
  {
    assert block[0..16] == block;
    assert HashBlocks(block, 0) == INITIAL;
  }

  /** The digest of "abc" is the one the standard gives. */
  lemma DigestOfAbc(m: seq<Octet>)
    requires m == [97, 98, 99]
    ensures Digest(m) == Registers(0xA999_3E36, 0x4706_816A, 0xBA3E_2571, 0x7850_C26C, 0x9CD0_D89D)
  {
    var n := 80;
    ExampleIsCourse();
    ExampleIsOfBlock(WordAt, RegisterAt);
    RoundsAre(WordAs, WordAt, RegisterAt, Block(), n);
    EndsWith(RegisterAt, WordAt, n);
    PaddedIsBlock(m);
    HashOne(Block(), n);
  }
}
