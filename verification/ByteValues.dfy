/** Bytes as numbers, as the QR coder keeps them, and as field elements. */
module ByteValues {
  import opened GF256
  import opened Poly
  import opened Codewords
  import opened BitStream

  function Join(high: bv4, low: bv4): Byte {
    ((high as Byte) << 4) | (low as Byte)
  }

  function High(b: Byte): bv4 {
    (b >> 4) as bv4
  }

  function Low(b: Byte): bv4 {
    (b & 0xF) as bv4
  }

  function ToByte(v: nat): Byte
    requires v < 256
  {
    Join((v / 16) as bv4, (v % 16) as bv4)
  }

  function ToNat(b: Byte): (v: nat)
    ensures v < 256
  {
    16 * (High(b) as nat) + (Low(b) as nat)
  }

  lemma HalfByte(x: nat)
    requires x < 16
    ensures (x as bv4) as nat == x
  {}

  lemma Halves(high: bv4, low: bv4)
    ensures High(Join(high, low)) == high && Low(Join(high, low)) == low
  {}

  lemma ToNatToByte(v: nat)
    requires v < 256
    ensures ToNat(ToByte(v)) == v
  {
    var high, low := v / 16, v % 16;
    HalfByte(high);
    HalfByte(low);
    Halves(high as bv4, low as bv4);
  }

  lemma JoinHalves(b: Byte)
    ensures Join(High(b), Low(b)) == b
  {}

  lemma ToByteToNat(b: Byte)
    ensures ToByte(ToNat(b)) == b
  {
    JoinHalves(b);
    var high, low := High(b) as nat, Low(b) as nat;
    assert (16 * high + low) / 16 == high && (16 * high + low) % 16 == low;
  }

  function ToBytes(vs: seq<nat>): (bs: Seq)
    requires AreBytes(vs)
    ensures |bs| == |vs|
  {
    seq(|vs|, i requires 0 <= i < |vs| => ToByte(vs[i]))
  }

  function ToNats(bs: Seq): (vs: seq<nat>)
    ensures |vs| == |bs| && AreBytes(vs)
  {
    seq(|bs|, i requires 0 <= i < |bs| => ToNat(bs[i]))
  }

  lemma ToNatsToBytes(vs: seq<nat>)
    requires AreBytes(vs)
    ensures ToNats(ToBytes(vs)) == vs
  {
    forall i | 0 <= i < |vs| ensures ToNats(ToBytes(vs))[i] == vs[i] {
      ToNatToByte(vs[i]);
    }
  }

  lemma ToBytesToNats(bs: Seq)
    ensures ToBytes(ToNats(bs)) == bs
  {
    forall i | 0 <= i < |bs| ensures ToBytes(ToNats(bs))[i] == bs[i] {
      ToByteToNat(bs[i]);
    }
  }

  /** Number of places where two words differ. */
  ghost function Differences(v: seq<nat>, w: seq<nat>): nat
    requires |v| == |w|
  {
    if |v| == 0 then 0 else (if v[0] != w[0] then 1 else 0) + Differences(v[1..], w[1..])
  }

  lemma {:induction false} DifferencesIsDistance(v: seq<nat>, w: seq<nat>)
    requires |v| == |w| && AreBytes(v) && AreBytes(w)
    ensures Distance(ToBytes(v), ToBytes(w)) == Differences(v, w)
  {
    if |v| > 0 {
      DifferencesIsDistance(v[1..], w[1..]);
      assert ToBytes(v)[1..] == ToBytes(v[1..]);
      assert ToBytes(w)[1..] == ToBytes(w[1..]);
      ToNatToByte(v[0]);
      ToNatToByte(w[0]);
    }
  }

  lemma {:induction false} DifferencesSymmetric(v: seq<nat>, w: seq<nat>)
    requires |v| == |w|
    ensures Differences(v, w) == Differences(w, v)
  {
    if |v| > 0 {
      DifferencesSymmetric(v[1..], w[1..]);
    }
  }
}
