/** Bits, bytes and the 24-bit window through which the QR coder packs and reads them. */
module BitStream {
  import opened Arithmetic

  type BitSeq = seq<bool>

  function Pow2(k: nat): (p: nat)
    ensures p > 0
  {
    if k == 0 then 1 else 2 * Pow2(k - 1)
  }

  /** v << k. */
  function ShiftLeft(v: nat, k: nat): nat {
    if k == 0 then v else 2 * ShiftLeft(v, k - 1)
  }

  /** v >> k. */
  function ShiftRight(v: nat, k: nat): nat
    decreases k, v
  {
    if k == 0 then v else ShiftRight(v / 2, k - 1)
  }

  /** Bit k of v, bit 0 being the least significant. */
  function BitAt(v: nat, k: nat): bool
    decreases k, v
  {
    if k == 0 then v % 2 == 1 else BitAt(v / 2, k - 1)
  }

  /** The low len bits of v, most significant first. */
  function Bits(v: nat, len: nat): (bs: BitSeq)
    ensures |bs| == len
  {
    seq(len, i requires 0 <= i < len => BitAt(v, len - 1 - i))
  }

  function Value(bs: BitSeq): nat {
    if |bs| == 0 then 0
    else 2 * Value(bs[..|bs| - 1]) + if bs[|bs| - 1] then 1 else 0
  }

  function Falses(n: nat): (bs: BitSeq)
    ensures |bs| == n
  {
    seq(n, _ => false)
  }

  /** The bits of a byte sequence, most significant bit of each byte first. */
  function ByteBits(bytes: seq<nat>): (bs: BitSeq)
    ensures |bs| == 8 * |bytes|
  {
    seq(8 * |bytes|, k requires 0 <= k < 8 * |bytes| => BitAt(bytes[k / 8], 7 - k % 8))
  }

  ghost predicate AreBytes(bytes: seq<nat>) {
    forall i :: 0 <= i < |bytes| ==> bytes[i] < 256
  }

  // ---------------------------------------------------------------------------
  // Numbers and their bits

  lemma {:induction false} ValueBound(bs: BitSeq)
    ensures Value(bs) < Pow2(|bs|)
  {
    if |bs| > 0 {
      ValueBound(bs[..|bs| - 1]);
    }
  }

  lemma {:induction false} BitOfValue(bs: BitSeq, k: nat)
    requires k < |bs|
    ensures BitAt(Value(bs), k) == bs[|bs| - 1 - k]
    decreases k
  {
    var p := bs[..|bs| - 1];
    Halves(Value(p), bs[|bs| - 1]);
    if k > 0 {
      BitOfValue(p, k - 1);
    }
  }

  lemma Halves(v: nat, b: bool)
    ensures var w := 2 * v + if b then 1 else 0; w / 2 == v && (w % 2 == 1 <==> b)
  {}

  lemma {:induction false} BitsOfValue(bs: BitSeq)
    ensures Bits(Value(bs), |bs|) == bs
  {
    forall i | 0 <= i < |bs| ensures Bits(Value(bs), |bs|)[i] == bs[i] {
      BitOfValue(bs, |bs| - 1 - i);
    }
  }

  lemma {:induction false} ValueOfBits(v: nat, len: nat)
    requires v < Pow2(len)
    ensures Value(Bits(v, len)) == v
  {
    if len > 0 {
      var n := len - 1;
      ValueOfBits(v / 2, n);
      forall i | 0 <= i < n ensures Bits(v, len)[i] == Bits(v / 2, n)[i] {
        assert BitAt(v, n - i) == BitAt(v / 2, n - 1 - i);
      }
      assert Bits(v, len)[..n] == Bits(v / 2, n);
      assert Bits(v, len)[n] == BitAt(v, 0);
    }
  }

  lemma {:induction false} ShiftLeftAdd(v: nat, w: nat, k: nat)
    ensures ShiftLeft(v + w, k) == ShiftLeft(v, k) + ShiftLeft(w, k)
  {
    if k > 0 {
      ShiftLeftAdd(v, w, k - 1);
    }
  }

  lemma {:induction false} ShiftLeftTwice(v: nat, j: nat, k: nat)
    ensures ShiftLeft(ShiftLeft(v, j), k) == ShiftLeft(v, j + k)
  {
    if k > 0 {
      ShiftLeftTwice(v, j, k - 1);
    }
  }

  lemma {:induction false} BitOfShiftRight(v: nat, k: nat, j: nat)
    ensures BitAt(ShiftRight(v, k), j) == BitAt(v, j + k)
  {
    if k > 0 {
      BitOfShiftRight(v / 2, k - 1, j);
    }
  }

  /** A number is its high part, shifted, plus its low part. */
  lemma {:induction false} BitOfSum(hi: nat, lo: nat, b: nat, k: nat)
    requires lo < Pow2(b)
    ensures BitAt(ShiftLeft(hi, b) + lo, k) == if k < b then BitAt(lo, k) else BitAt(hi, k - b)
  {
    if b > 0 {
      var v := ShiftLeft(hi, b) + lo;
      assert v / 2 == ShiftLeft(hi, b - 1) + lo / 2 && v % 2 == lo % 2;
      if k > 0 {
        BitOfSum(hi, lo / 2, b - 1, k - 1);
      }
    }
  }

  lemma {:induction false} ValueConcat(a: BitSeq, b: BitSeq)
    ensures Value(a + b) == ShiftLeft(Value(a), |b|) + Value(b)
  {
    if |b| == 0 {
      assert a + b == a;
    } else {
      var n := |b| - 1;
      ValueConcat(a, b[..n]);
      assert (a + b)[..|a| + n] == a + b[..n];
    }
  }

  lemma {:induction false} ValueFalses(n: nat)
    ensures Value(Falses(n)) == 0
  {
    if n > 0 {
      ValueFalses(n - 1);
      assert Falses(n)[..n - 1] == Falses(n - 1);
    }
  }

  lemma OneStep(v: nat, k: nat)
    ensures ShiftLeft(v, k + 1) == 2 * ShiftLeft(v, k) && Pow2(k + 1) == 2 * Pow2(k)
  {}

  lemma FourSteps(v: nat, k: nat)
    ensures ShiftLeft(v, k + 4) == 16 * ShiftLeft(v, k) && Pow2(k + 4) == 16 * Pow2(k)
  {
    OneStep(v, k);
    OneStep(v, k + 1);
    OneStep(v, k + 2);
    OneStep(v, k + 3);
  }

  lemma Multiples(v: nat)
    ensures ShiftLeft(v, 8) == 256 * v && ShiftLeft(v, 16) == 65536 * v
    ensures Pow2(8) == 256 && Pow2(16) == 65536 && Pow2(24) == 16777216
  {
    FourSteps(v, 0);
    FourSteps(v, 4);
    FourSteps(v, 8);
    FourSteps(v, 12);
    FourSteps(v, 16);
    FourSteps(v, 20);
  }

  lemma SmallPowers()
    ensures Pow2(4) == 16 && Pow2(6) == 64 && Pow2(7) == 128 && Pow2(8) == 256
    ensures Pow2(9) == 512 && Pow2(10) == 1024 && Pow2(11) == 2048 && Pow2(12) == 4096
    ensures Pow2(13) == 8192 && Pow2(14) == 16384 && Pow2(16) == 65536
  {
    Multiples(0);
    assert Pow2(2) == 4 && Pow2(4) == 16 && Pow2(6) == 64 && Pow2(8) == 256;
    assert Pow2(9) == 512 && Pow2(10) == 1024 && Pow2(12) == 4096 && Pow2(14) == 16384;
  }

  /** Shifting right divides. */
  lemma {:induction false} ShiftRightIs(v: nat, k: nat)
    ensures ShiftRight(v, k) == v / Pow2(k)
    decreases k
  {
    if k > 0 {
      ShiftRightIs(v / 2, k - 1);
      DivideTwice(v, Pow2(k - 1));
    }
  }

  // ---------------------------------------------------------------------------
  // Byte sequences

  lemma ByteBitsSlice(bytes: seq<nat>, i: nat, j: nat)
    requires i <= j <= |bytes|
    ensures ByteBits(bytes[i..j]) == ByteBits(bytes)[8 * i..8 * j]
  {
    forall k | 0 <= k < 8 * (j - i) ensures ByteBits(bytes[i..j])[k] == ByteBits(bytes)[8 * i + k] {
      assert (8 * i + k) / 8 == i + k / 8 && (8 * i + k) % 8 == k % 8;
    }
  }

  /** The number in a window of three bytes. */
  function WindowNumber(w: seq<nat>): nat
    requires |w| == 3
  {
    w[0] * 65536 + w[1] * 256 + w[2]
  }

  lemma WindowBits(w: seq<nat>, k: nat)
    requires |w| == 3 && AreBytes(w) && k < 24
    ensures ByteBits(w)[k] == BitAt(WindowNumber(w), 23 - k)
  {
    Multiples(w[0]);
    Multiples(w[1]);
    BitOfSum(w[0], w[1] * 256 + w[2], 16, 23 - k);
    if k >= 8 {
      BitOfSum(w[1], w[2], 8, 23 - k);
    }
  }

  lemma WholeByte(bits: BitSeq)
    requires |bits| == 8
    ensures Value(bits) < 256 && ByteBits([Value(bits)]) == bits
  {
    ValueBound(bits);
    assert Pow2(2) == 4 && Pow2(4) == 16 && Pow2(6) == 64;
    BitsOfValue(bits);
    forall k | 0 <= k < 8 ensures ByteBits([Value(bits)])[k] == bits[k] {
      assert Bits(Value(bits), 8)[k] == bits[k];
    }
  }

  // ---------------------------------------------------------------------------
  // Packing

  ghost predicate ZeroFrom(bs: BitSeq, idx: nat) {
    forall k :: idx <= k < |bs| ==> !bs[k]
  }

  /** Every entry is a byte and every bit at or past idx is zero. */
  ghost predicate Clean(bytes: seq<nat>, idx: nat) {
    AreBytes(bytes) && idx <= 8 * |bytes| && ZeroFrom(ByteBits(bytes), idx)
  }

  ghost function Stream(bytes: seq<nat>, idx: nat): BitSeq
    requires idx <= 8 * |bytes|
  {
    ByteBits(bytes)[..idx]
  }

  /** The three bytes written at a byte b: v is the value moved to its place in the window, a
      32-bit number; the first byte is added to, the next two are set. */
  function PackedWindow(b: nat, v: nat): (w: seq<nat>)
    ensures |w| == 3
  {
    [b + v / 65536 % 256, v / 256 % 256, v % 256]
  }

  function Rest(bytes: seq<nat>, i: nat): seq<nat> {
    if i <= |bytes| then bytes[i..] else []
  }

  function PackedWith(bytes: seq<nat>, i: nat, v: nat): seq<nat>
    requires i < |bytes|
  {
    bytes[..i] + PackedWindow(bytes[i], v) + Rest(bytes, i + 3)
  }

  /** The bytes after packing value, moved left by shift, into the window at byte i. */
  function PackedAt(bytes: seq<nat>, i: nat, shift: nat, value: nat): (r: seq<nat>)
    requires i < |bytes|
    ensures |r| == if i + 3 <= |bytes| then |bytes| else i + 3
  {
    PackedWith(bytes, i, ShiftLeft(value, shift) % 0x1_0000_0000)
  }

  /** The bytes after packing len bits of value at position idx. */
  function Packed(bytes: seq<nat>, idx: nat, len: nat, value: nat): (r: seq<nat>)
    requires idx / 8 < |bytes| && idx % 8 + len <= 24
    ensures |r| == if idx / 8 + 3 <= |bytes| then |bytes| else idx / 8 + 3
  {
    PackedAt(bytes, idx / 8, 24 - idx % 8 - len, value)
  }

  /** The bytes after packing eight bits for each number in turn, whatever the numbers are: what is past
      eight bits is added to the byte before. */
  function PackedEach(bytes: seq<nat>, idx: nat, values: seq<nat>): (r: seq<nat>)
    requires idx / 8 < |bytes|
    ensures |r| > (idx + 8 * |values|) / 8
    decreases |values|
  {
    if |values| == 0 then bytes else PackedEach(Packed(bytes, idx, 8, values[0]), idx + 8, values[1..])
  }

  lemma PackedEachAt(bytes: seq<nat>, idx: nat, values: seq<nat>, i: nat)
    requires idx / 8 < |bytes| && i < |values|
    ensures PackedEach(bytes, idx, values[i..])
         == PackedEach(Packed(bytes, idx, 8, values[i]), idx + 8, values[i + 1..])
  {
    assert values[i..][0] == values[i] && values[i..][1..] == values[i + 1..];
  }

  /** A byte whose low 8-r bits are zero is its top r bits, shifted. */
  lemma HeadValue(b: nat, r: nat)
    requires r < 8 && b < 256 && forall k: nat :: k < 8 - r ==> !BitAt(b, k)
    ensures 65536 * b == ShiftLeft(ShiftRight(b, 8 - r), 24 - r)
  {
    LowZeros(b, 8 - r);
    ShiftLeftTwice(ShiftRight(b, 8 - r), 8 - r, 16);
    Multiples(b);
  }

  lemma {:induction false} LowZeros(b: nat, k: nat)
    requires forall j: nat :: j < k ==> !BitAt(b, j)
    ensures ShiftLeft(ShiftRight(b, k), k) == b
  {
    if k > 0 {
      assert !BitAt(b, 0);
      forall j: nat | j < k - 1 ensures !BitAt(b / 2, j) {
        assert !BitAt(b, j + 1);
      }
      LowZeros(b / 2, k - 1);
    }
  }

  lemma {:induction false} ShiftLeftBound(v: nat, a: nat, k: nat)
    requires v < Pow2(a)
    ensures ShiftLeft(v, k) < Pow2(a + k)
    ensures ShiftLeft(v, k) + Pow2(k) <= Pow2(a + k)
  {
    if k > 0 {
      ShiftLeftBound(v, a, k - 1);
    }
  }

  lemma {:induction false} ShiftRightBound(v: nat, a: nat, k: nat)
    requires v < Pow2(a + k)
    ensures ShiftRight(v, k) < Pow2(a)
  {
    if k > 0 {
      ShiftRightBound(v / 2, a, k - 1);
    }
  }

  /** Numbers below 2^24 and their three bytes. */
  lemma WindowOf(b: nat, v: nat)
    requires 65536 * b + v < 0x1_00_0000
    ensures AreBytes(PackedWindow(b, v)) && WindowNumber(PackedWindow(b, v)) == 65536 * b + v
  {}

  /** The window after packing value over a byte b whose low 8-r bits are zero. */
  lemma PackedWindowBits(b: nat, r: nat, len: nat, value: nat, v: nat)
    requires r < 8 && b < 256 && (forall k: nat :: k < 8 - r ==> !BitAt(b, k))
    requires r + len <= 24 && value < Pow2(len) && v == ShiftLeft(value, 24 - r - len)
    ensures v < 0x1_0000_0000 && AreBytes(PackedWindow(b, v))
    ensures WindowNumber(PackedWindow(b, v)) == ShiftLeft(ShiftRight(b, 8 - r), 24 - r) + v
    ensures v < Pow2(24 - r)
  {
    HeadValue(b, r);
    Multiples(0);
    ShiftLeftBound(value, len, 24 - r - len);
    ShiftRightBound(b, r, 8 - r);
    ShiftLeftBound(ShiftRight(b, 8 - r), r, 24 - r);
    WindowOf(b, v);
  }

  /** Bit j of the top r bits of b, moved up, plus value, moved up. */
  lemma PackedNumberBit(b: nat, r: nat, value: nat, shift: nat, v: nat, j: nat)
    requires r < 8 && shift <= 24 - r && v == ShiftLeft(value, shift) && v < Pow2(24 - r)
    ensures BitAt(ShiftLeft(ShiftRight(b, 8 - r), 24 - r) + v, j) ==
      if j >= 24 - r then BitAt(b, j + r - 24 + (8 - r)) else j >= shift && BitAt(value, j - shift)
  {
    BitOfSum(ShiftRight(b, 8 - r), v, 24 - r, j);
    if j >= 24 - r {
      BitOfShiftRight(b, 8 - r, j + r - 24);
    } else {
      ShiftedBit(value, shift, j);
    }
  }

  /** Bit k of the window: an old bit of b, a bit of value, or zero. */
  lemma PackedWindowBit(b: nat, r: nat, len: nat, value: nat, v: nat, k: nat)
    requires r < 8 && b < 256 && (forall j: nat :: j < 8 - r ==> !BitAt(b, j))
    requires r + len <= 24 && value < Pow2(len) && v == ShiftLeft(value, 24 - r - len) && k < 24
    ensures ByteBits(PackedWindow(b, v))[k] ==
      if k < r then BitAt(b, 7 - k)
      else if k < r + len then BitAt(value, r + len - 1 - k)
      else false
  {
    PackedWindowBits(b, r, len, value, v);
    var w := PackedWindow(b, v);
    WindowBits(w, k);
    PackedNumberBit(b, r, value, 24 - r - len, v, 23 - k);
  }

  lemma ShiftedBit(value: nat, shift: nat, k: nat)
    ensures BitAt(ShiftLeft(value, shift), k) == (k >= shift && BitAt(value, k - shift))
  {
    BitOfSum(value, 0, shift, k);
    BitOfZero(k);
  }

  lemma {:induction false} BitOfZero(k: nat)
    ensures !BitAt(0, k)
  {
    if k > 0 {
      BitOfZero(k - 1);
    }
  }

  lemma CleanByte(bytes: seq<nat>, i: nat, idx: nat, j: nat)
    requires Clean(bytes, idx) && 8 * i <= idx < 8 * (i + 1) && i < |bytes|
    requires j < 8 * (i + 1) - idx
    ensures !BitAt(bytes[i], j)
  {
    assert !ByteBits(bytes)[8 * i + 7 - j];
  }

  lemma ByteBitsConcat(a: seq<nat>, b: seq<nat>)
    ensures ByteBits(a + b) == ByteBits(a) + ByteBits(b)
  {
    var c, n := a + b, |a|;
    assert c[0..n] == a && c[n..|c|] == b;
    ByteBitsSlice(c, 0, n);
    ByteBitsSlice(c, n, |c|);
    SplitAt(ByteBits(c), 8 * n, 8 * |c|);
  }

  lemma SplitAt(all: BitSeq, k: nat, n: nat)
    requires k <= n == |all|
    ensures all == all[0..k] + all[k..n]
  {}

  lemma OldBit(bytes: seq<nat>, i: nat, k: nat)
    requires i < |bytes| && k < 8
    ensures ByteBits(bytes)[8 * i + k] == BitAt(bytes[i], 7 - k)
  {}

  lemma CleanLowBits(bytes: seq<nat>, i: nat, idx: nat)
    requires Clean(bytes, idx) && 8 * i <= idx < 8 * (i + 1) && i < |bytes|
    ensures bytes[i] < 256 && forall j: nat :: j < 8 - (idx - 8 * i) ==> !BitAt(bytes[i], j)
  {
    forall j: nat | j < 8 - (idx - 8 * i) ensures !BitAt(bytes[i], j) {
      CleanByte(bytes, i, idx, j);
    }
  }

  lemma PackedShapeBit(bytes: seq<nat>, i: nat, r: nat, len: nat, value: nat, v: nat, k: nat)
    requires i < |bytes| && bytes[i] < 256 && r < 8 && (forall j: nat :: j < 8 - r ==> !BitAt(bytes[i], j))
    requires r + len <= 24 && value < Pow2(len) && v == ShiftLeft(value, 24 - r - len) && k < 24
    ensures ByteBits(PackedWindow(bytes[i], v))[k]
         == (ByteBits(bytes)[8 * i..8 * i + r] + Bits(value, len) + Falses(24 - r - len))[k]
  {
    PackedWindowBit(bytes[i], r, len, value, v, k);
    if k < r {
      OldBit(bytes, i, k);
      assert ByteBits(bytes)[8 * i..8 * i + r][k] == ByteBits(bytes)[8 * i + k];
    }
  }

  /** The window as bits: those already in the byte at i, the value, zeros. */
  lemma PackedWindowShape(bytes: seq<nat>, i: nat, idx: nat, len: nat, value: nat, v: nat)
    requires Clean(bytes, idx) && 8 * i <= idx < 8 * (i + 1) && i < |bytes|
    requires idx - 8 * i + len <= 24 && value < Pow2(len)
    requires v == ShiftLeft(value, 8 * (i + 3) - idx - len)
    ensures v < 0x1_0000_0000 && AreBytes(PackedWindow(bytes[i], v))
    ensures ByteBits(PackedWindow(bytes[i], v))
         == ByteBits(bytes)[8 * i..idx] + Bits(value, len) + Falses(8 * (i + 3) - idx - len)
  {
    var r := idx - 8 * i;
    CleanLowBits(bytes, i, idx);
    PackedWindowBits(bytes[i], r, len, value, v);
    var w := ByteBits(PackedWindow(bytes[i], v));
    var shape := ByteBits(bytes)[8 * i..8 * i + r] + Bits(value, len) + Falses(24 - r - len);
    forall k | 0 <= k < 24 ensures w[k] == shape[k] {
      PackedShapeBit(bytes, i, r, len, value, v, k);
    }
    assert w == shape;
  }

  lemma RestBits(bytes: seq<nat>, i: nat, idx: nat, rest: seq<nat>)
    requires Clean(bytes, idx) && 8 * i <= idx < 8 * (i + 1)
    requires rest == Rest(bytes, i + 3)
    ensures ZeroFrom(ByteBits(rest), 0) && AreBytes(rest)
  {
    if i + 3 <= |bytes| {
      ByteBitsSlice(bytes, i + 3, |bytes|);
      assert bytes[i + 3..|bytes|] == rest;
    }
  }

  lemma PackedShape(bytes: seq<nat>, i: nat, idx: nat, w: seq<nat>, m: BitSeq, rest: seq<nat>)
    requires Clean(bytes, idx) && 8 * i <= idx < 8 * (i + 1) && i < |bytes|
    requires |w| == 3 && AreBytes(w) && idx - 8 * i + |m| <= 24
    requires ByteBits(w) == ByteBits(bytes)[8 * i..idx] + m + Falses(8 * (i + 3) - idx - |m|)
    requires rest == Rest(bytes, i + 3)
    ensures var r := bytes[..i] + w + rest;
      Clean(r, idx + |m|) && Stream(r, idx + |m|) == Stream(bytes, idx) + m
  {
    var r, zeros := bytes[..i] + w + rest, Falses(8 * (i + 3) - idx - |m|) + ByteBits(rest);
    RestBits(bytes, i, idx, rest);
    PackedBits(bytes, i, idx, w, m, rest);
    assert ZeroFrom(zeros, 0);
    assert AreBytes(r);
  }

  lemma PackedBits(bytes: seq<nat>, i: nat, idx: nat, w: seq<nat>, m: BitSeq, rest: seq<nat>)
    requires 8 * i <= idx <= 8 * |bytes| && i < |bytes| && |w| == 3 && idx - 8 * i + |m| <= 24
    requires ByteBits(w) == ByteBits(bytes)[8 * i..idx] + m + Falses(8 * (i + 3) - idx - |m|)
    ensures ByteBits(bytes[..i] + w + rest)
         == ByteBits(bytes)[..idx] + m + (Falses(8 * (i + 3) - idx - |m|) + ByteBits(rest))
  {
    var all := ByteBits(bytes);
    ByteBitsConcat(bytes[..i] + w, rest);
    ByteBitsConcat(bytes[..i], w);
    ByteBitsSlice(bytes, 0, i);
    assert bytes[0..i] == bytes[..i];
    assert all[..idx] == all[0..8 * i] + all[8 * i..idx];
    RegroupBits(all[0..8 * i], all[8 * i..idx], m, Falses(8 * (i + 3) - idx - |m|), ByteBits(rest));
  }

  lemma RegroupBits(a: BitSeq, b: BitSeq, m: BitSeq, zeros: BitSeq, rest: BitSeq)
    ensures (a + (b + m + zeros)) + rest == (a + b) + m + (zeros + rest)
  {}

  lemma PackedWithAppends(bytes: seq<nat>, i: nat, idx: nat, len: nat, value: nat, v: nat)
    requires Clean(bytes, idx) && 8 * i <= idx < 8 * (i + 1) && i < |bytes|
    requires idx - 8 * i + len <= 24 && value < Pow2(len) && v == ShiftLeft(value, 8 * (i + 3) - idx - len)
    ensures var r := PackedWith(bytes, i, v);
      v < 0x1_0000_0000 && Clean(r, idx + len) && Stream(r, idx + len) == Stream(bytes, idx) + Bits(value, len)
  {
    PackedWindowShape(bytes, i, idx, len, value, v);
    PackedShape(bytes, i, idx, PackedWindow(bytes[i], v), Bits(value, len), Rest(bytes, i + 3));
  }

  lemma PackedAtAppends(bytes: seq<nat>, i: nat, idx: nat, len: nat, value: nat, shift: nat)
    requires Clean(bytes, idx) && 8 * i <= idx < 8 * (i + 1) && i < |bytes|
    requires idx + len + shift == 8 * (i + 3) && value < Pow2(len)
    ensures var r := PackedAt(bytes, i, shift, value);
      Clean(r, idx + len) && Stream(r, idx + len) == Stream(bytes, idx) + Bits(value, len)
  {
    PackedWithAppends(bytes, i, idx, len, value, ShiftLeft(value, shift));
    PackedAtIs(bytes, i, shift, value);
  }

  lemma PackedAtIs(bytes: seq<nat>, i: nat, shift: nat, value: nat)
    requires i < |bytes| && ShiftLeft(value, shift) < 0x1_0000_0000
    ensures PackedAt(bytes, i, shift, value) == PackedWith(bytes, i, ShiftLeft(value, shift))
  {}

  /** Packing appends the value's bits to a clean stream, and leaves it clean. */
  lemma PackedAppends(bytes: seq<nat>, idx: nat, len: nat, value: nat)
    requires idx / 8 < |bytes| && idx % 8 + len <= 24 && value < Pow2(len)
    requires Clean(bytes, idx)
    ensures var r := Packed(bytes, idx, len, value);
      Clean(r, idx + len) && Stream(r, idx + len) == Stream(bytes, idx) + Bits(value, len)
  {
    PackedAtAppends(bytes, idx / 8, idx, len, value, 24 - idx % 8 - len);
  }

  // ---------------------------------------------------------------------------
  // Reading

  /** An entry past the end reads as zero. */
  function EntryAt(bytes: seq<nat>, i: nat): nat {
    if i < |bytes| then bytes[i] else 0
  }

  /** The low len bits of v: v & ((1 << len) - 1). */
  function LowBits(v: nat, len: nat): (r: nat)
    ensures r < Pow2(len)
    decreases len, v
  {
    if len == 0 then 0 else 2 * LowBits(v / 2, len - 1) + v % 2
  }

  lemma {:induction false} LowBitsIsValue(v: nat, len: nat)
    ensures LowBits(v, len) == Value(Bits(v, len))
    decreases len
  {
    if len > 0 {
      var n := len - 1;
      LowBitsIsValue(v / 2, n);
      forall i | 0 <= i < n ensures Bits(v, len)[i] == Bits(v / 2, n)[i] {
        assert BitAt(v, n - i) == BitAt(v / 2, n - 1 - i);
      }
      assert Bits(v, len)[..n] == Bits(v / 2, n);
      assert Bits(v, len)[n] == BitAt(v, 0);
    }
  }

  /** The len bits at pos, through a window of three bytes. */
  function Extract(bytes: seq<nat>, pos: nat, len: nat): (x: nat)
    requires pos % 8 + len <= 24
    ensures x < Pow2(len)
  {
    var i := pos / 8;
    var w := [EntryAt(bytes, i), EntryAt(bytes, i + 1), EntryAt(bytes, i + 2)];
    LowBits(ShiftRight(WindowNumber(w), 24 - pos % 8 - len), len)
  }

  lemma WindowReadBit(bytes: seq<nat>, i: nat, r: nat, w: seq<nat>, len: nat, k: nat)
    requires AreBytes(bytes) && i + 3 <= |bytes| && w == bytes[i..i + 3] && r + len <= 24 && k < len
    ensures BitAt(ShiftRight(WindowNumber(w), 24 - r - len), len - 1 - k) == ByteBits(bytes)[8 * i + r + k]
  {
    BitOfShiftRight(WindowNumber(w), 24 - r - len, len - 1 - k);
    WindowBits(w, r + k);
    ByteBitsSlice(bytes, i, i + 3);
    assert ByteBits(w)[r + k] == ByteBits(bytes)[8 * i..8 * (i + 3)][r + k];
  }

  lemma WindowRead(bytes: seq<nat>, i: nat, r: nat, w: seq<nat>, len: nat)
    requires AreBytes(bytes) && i + 3 <= |bytes| && w == bytes[i..i + 3] && r + len <= 24
    ensures Bits(ShiftRight(WindowNumber(w), 24 - r - len), len) == ByteBits(bytes)[8 * i + r..8 * i + r + len]
  {
    var bits, all := Bits(ShiftRight(WindowNumber(w), 24 - r - len), len), ByteBits(bytes);
    forall k | 0 <= k < len ensures bits[k] == all[8 * i + r..8 * i + r + len][k] {
      WindowReadBit(bytes, i, r, w, len, k);
    }
  }

  /** Reading returns the value of the bits there. */
  lemma ExtractReads(bytes: seq<nat>, pos: nat, len: nat)
    requires AreBytes(bytes) && pos % 8 + len <= 24 && pos / 8 + 3 <= |bytes|
    ensures pos + len <= 8 * |bytes|
    ensures Extract(bytes, pos, len) == Value(ByteBits(bytes)[pos..pos + len])
  {
    var i, r := pos / 8, pos % 8;
    ExtractAt(bytes, i, r, len, pos);
  }

  lemma ExtractAt(bytes: seq<nat>, i: nat, r: nat, len: nat, pos: nat)
    requires AreBytes(bytes) && r < 8 && r + len <= 24 && i + 3 <= |bytes| && pos == 8 * i + r
    requires pos / 8 == i && pos % 8 == r
    ensures Extract(bytes, pos, len) == Value(ByteBits(bytes)[pos..pos + len])
  {
    var w := bytes[i..i + 3];
    WindowRead(bytes, i, r, w, len);
    LowBitsIsValue(ShiftRight(WindowNumber(w), 24 - r - len), len);
    ExtractWindow(bytes, i, r, len, pos, w);
  }

  /** The window is read entry by entry. */
  lemma ExtractWindow(bytes: seq<nat>, i: nat, r: nat, len: nat, pos: nat, w: seq<nat>)
    requires r + len <= 24 && i + 3 <= |bytes| && w == bytes[i..i + 3] && pos / 8 == i && pos % 8 == r
    ensures Extract(bytes, pos, len) == LowBits(ShiftRight(WindowNumber(w), 24 - r - len), len)
  {
    assert w == [bytes[i], bytes[i + 1], bytes[i + 2]];
  }

  /** What was packed is what is read, wherever it lies. */
  lemma ExtractFinds(bytes: seq<nat>, pos: nat, len: nat, value: nat)
    requires AreBytes(bytes) && pos % 8 + len <= 24 && pos / 8 + 3 <= |bytes|
    requires value < Pow2(len) && pos + len <= 8 * |bytes|
    requires ByteBits(bytes)[pos..pos + len] == Bits(value, len)
    ensures Extract(bytes, pos, len) == value
  {
    ExtractReads(bytes, pos, len);
    ValueOfBits(value, len);
  }
}
