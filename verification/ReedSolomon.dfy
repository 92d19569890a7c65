/** The Reed-Solomon coder over its log and antilog tables.

    The class keeps the source's fields; a polynomial is an array of 2*n bytes, lowest
    degree first, and a message or word is a sequence of bytes, highest degree first. */
module ReedSolomonCoder {
  import opened GF256
  import opened Poly
  import opened Recurrence
  import opened Locators
  import opened Codewords
  import opened Generator
  import BM = BerlekampMassey

  /** The eight one-bit cells p1..p8 of the shift register that fills the antilog table. */
  datatype Register = Register(p1: Byte, p2: Byte, p3: Byte, p4: Byte,
                               p5: Byte, p6: Byte, p7: Byte, p8: Byte)
  {
    predicate AreBits() {
      p1 <= 1 && p2 <= 1 && p3 <= 1 && p4 <= 1 && p5 <= 1 && p6 <= 1 && p7 <= 1 && p8 <= 1
    }

    function Value(): Byte {
      p1 + p2 * 2 + p3 * 4 + p4 * 8 + p5 * 16 + p6 * 32 + p7 * 64 + p8 * 128
    }

    /** One step of the register multiplies the byte it holds by z. */
    function Next(): (r: Register)
      requires AreBits()
      ensures r.AreBits() && r.Value() == Xtime(Value())
    {
      Register(p8, p1, p2 ^ p8, p3 ^ p8, p4 ^ p8, p5, p6, p7)
    }
  }

  class ReedSolomon {
    const n: nat            // n_ec_bytes
    const gexp: array<Byte>
    const glog: array<nat>
    var genPoly: seq<Byte>  // empty until it is first needed
    var bytesIn: seq<Byte>
    var bytesOut: seq<Byte>
    var syndroms: seq<Byte>
    var psi: array<Byte>
    var omega: array<Byte>
    var errorLocs: seq<nat>
    var nErrors: nat
    var corrected: bool
    var uncorrectedReason: string

    /** The tables hold the powers of z, twice over, and their logarithms. */
    ghost predicate Valid()
      reads this, gexp, glog
    {
      && 0 < n < 255 && gexp.Length == 512 && glog.Length == 256
      && (forall i {:trigger gexp[i]} :: 0 <= i <= 510 ==> gexp[i] == Exp(i))
      && glog[0] == 0 && (forall v: Byte :: v != 0 ==> glog[ByteToInt(v)] == Log(v))
      && (genPoly == [] || IsPadded(genPoly, GeneratorPoly(n)))
    }

    constructor (nEcBytes: nat)
      requires 0 < nEcBytes < 255
      ensures Valid() && n == nEcBytes && genPoly == []
      ensures fresh(gexp) && fresh(glog)
    {
      n := nEcBytes;
      gexp := new Byte[512];
      glog := new nat[256];
      genPoly, bytesIn, bytesOut, syndroms := [], [], [], [];
      psi, omega := new Byte[0], new Byte[0];
      errorLocs, nErrors, corrected, uncorrectedReason := [], 0, false, "";
      new;
      InitExpTable();
      InitLogTable();
    }

    /** First half of initGaloisTables: the powers of z from a shift register. */
    method InitExpTable()
      requires gexp.Length == 512
      modifies gexp
      ensures forall i {:trigger gexp[i]} :: 0 <= i <= 510 ==> gexp[i] == Exp(i)
    {
      var p := Register(1, 0, 0, 0, 0, 0, 0, 0);
      gexp[0] := 1;
      gexp[255] := gexp[0];
      ExpPeriod(0);
      for i := 1 to 256
        invariant p.AreBits() && p.Value() == Exp(i - 1)
        invariant forall k {:trigger gexp[k]} :: 0 <= k < i ==> gexp[k] == Exp(k)
        invariant forall k {:trigger gexp[k]} :: 255 <= k < i + 255 ==> gexp[k] == Exp(k)
      {
        p := p.Next();
        gexp[i] := p.Value();
        gexp[i + 255] := gexp[i];
        ExpPeriod(i);
      }
    }

    /** Second half of initGaloisTables: each logarithm by search. */
    method InitLogTable()
      requires gexp.Length == 512 && glog.Length == 256
      requires forall i {:trigger gexp[i]} :: 0 <= i <= 510 ==> gexp[i] == Exp(i)
      modifies glog
      ensures glog[0] == 0 && forall v: Byte :: v != 0 ==> glog[ByteToInt(v)] == Log(v)
    {
      glog[0] := 0;
      for i := 1 to 256
        invariant glog[0] == 0
        invariant forall v: Byte :: 0 < ByteToInt(v) < i ==> glog[ByteToInt(v)] == Log(v)
      {
        var z := 0;
        ghost var log := Log(i as Byte);
        while z < 256
          invariant z <= log
          decreases 256 - z
        {
          if gexp[z] == i as Byte {
            glog[i] := z;
            LogUnique(z);
            break;
          }
          z := z + 1;
        }
      }
    }

    // -------------------------------------------------------------------------
    // Field functions

    method Gmult(a: Byte, b: Byte) returns (r: Byte)
      requires Valid()
      ensures r == Mul(a, b)
    {
      MulUnits(a);
      MulUnits(b);
      if a == 0 || b == 0 {
        return 0;
      }
      var i := glog[a as int];
      var j := glog[b as int];
      assert i == glog[ByteToInt(a)] && j == glog[ByteToInt(b)];
      ExpAdd(i, j);
      return gexp[i + j];
    }

    /** The inverse of elt; the tables give 1 for 0. */
    method Ginv(elt: Byte) returns (r: Byte)
      requires Valid()
      ensures r == if elt == 0 then 1 else Inv(elt)
    {
      assert glog[ByteToInt(elt)] == if elt == 0 then 0 else Log(elt);
      ExpPeriod(0);
      return gexp[255 - glog[elt as int]];
    }

    // -------------------------------------------------------------------------
    // Polynomial functions

    method ZeroPoly() returns (poly: array<Byte>)
      ensures fresh(poly) && poly.Length == 2 * n && Zeros(poly[..])
    {
      poly := new Byte[2 * n];
      for i := 0 to 2 * n
        invariant forall k :: 0 <= k < i ==> poly[k] == 0
      {
        poly[i] := 0;
      }
    }

    method CopyPoly(src: seq<Byte>) returns (dst: array<Byte>)
      requires |src| >= 2 * n
      ensures fresh(dst) && dst[..] == src[..2 * n]
    {
      dst := new Byte[2 * n];
      for i := 0 to 2 * n
        invariant forall k :: 0 <= k < i ==> dst[k] == src[k]
      {
        dst[i] := src[i];
      }
    }

    /** Multiply by the variable, in place, dropping the top coefficient. */
    method MulZPoly(poly: array<Byte>)
      requires 0 < n && poly.Length == 2 * n
      modifies poly
      ensures BM.IsShifted(poly[..], old(poly[..]))
    {
      var i := 2 * n - 1;
      while i > 0
        invariant 0 <= i < 2 * n
        invariant forall k :: 0 <= k <= i ==> poly[k] == old(poly[k])
        invariant forall k :: i < k < 2 * n ==> poly[k] == old(poly[k - 1])
      {
        poly[i] := poly[i - 1];
        i := i - 1;
      }
      poly[0] := 0;
    }

    /** The exact product of p1 and p2, a coefficient past the end of p2 counting as zero. */
    method MultPolys(p1: seq<Byte>, p2: seq<Byte>) returns (dst: array<Byte>)
      requires Valid() && |p1| == 2 * n && |p2| <= 2 * n
      ensures fresh(dst) && dst[..] == Product(p1, p2, 4 * n, 2 * n)
    {
      dst := new Byte[4 * n];
      var tmp1 := new Byte[4 * n];
      for i := 0 to 4 * n
        invariant forall k :: 0 <= k < i ==> dst[k] == 0
      {
        dst[i] := 0;
      }
      for i := 0 to 2 * n
        invariant Valid()
        invariant forall m :: 0 <= m < 4 * n ==> dst[m] == Conv(p1, p2, m, i)
      {
        ScaledRow(tmp1, p1[i], p2);
        ShiftRow(tmp1, i);
        AddRow(dst, tmp1, p1, p2, i);
      }
    }

    /** Scale p2 by c into the lower half of tmp1, zeros above. */
    method ScaledRow(tmp1: array<Byte>, c: Byte, p2: seq<Byte>)
      requires Valid() && tmp1.Length == 4 * n && |p2| <= 2 * n
      requires tmp1 != gexp && tmp1 as object != glog
      modifies tmp1
      ensures Valid()
      ensures forall m :: 0 <= m < 4 * n ==> tmp1[m] == Mul(At(p2, m), c)
    {
      for j := 2 * n to 4 * n
        invariant Valid()
        invariant forall k :: 2 * n <= k < j ==> tmp1[k] == 0
      {
        tmp1[j] := 0;
      }
      for j := 0 to 2 * n
        invariant Valid()
        invariant forall k :: 2 * n <= k < 4 * n ==> tmp1[k] == 0
        invariant forall k :: 0 <= k < j ==> tmp1[k] == Mul(At(p2, k), c)
      {
        var e := 0;
        if j < |p2| {
          e := p2[j];
        }
        var v := Gmult(e, c);
        tmp1[j] := v;
      }
      MulUnits(c);
    }

    /** Shift tmp1 right by i places, in place, from the top down. */
    method ShiftRow(tmp1: array<Byte>, i: nat)
      requires i < tmp1.Length
      modifies tmp1
      ensures forall m :: 0 <= m < tmp1.Length ==>
        tmp1[m] == if m < i then 0 else old(tmp1[m - i])
    {
      var j := tmp1.Length - 1;
      while j >= i
        invariant i - 1 <= j < tmp1.Length
        invariant forall k :: 0 <= k <= j ==> tmp1[k] == old(tmp1[k])
        invariant forall k :: j < k < tmp1.Length ==> tmp1[k] == old(tmp1[k - i])
        decreases j + 1 - i
      {
        tmp1[j] := tmp1[j - i];
        j := j - 1;
      }
      for k := 0 to i
        invariant forall m :: 0 <= m < k ==> tmp1[m] == 0
        invariant forall m :: i <= m < tmp1.Length ==> tmp1[m] == old(tmp1[m - i])
      {
        tmp1[k] := 0;
      }
    }

    /** Add row i of the product into dst. */
    method AddRow(dst: array<Byte>, tmp1: array<Byte>, p1: seq<Byte>, p2: seq<Byte>, i: nat)
      requires dst.Length == tmp1.Length == 4 * n && dst != tmp1
      requires i < |p1| == 2 * n && |p2| <= 2 * n
      requires forall m :: 0 <= m < 4 * n ==> dst[m] == Conv(p1, p2, m, i)
      requires forall m :: 0 <= m < 4 * n ==> tmp1[m] == if m < i then 0 else Mul(At(p2, m - i), p1[i])
      modifies dst
      ensures forall m :: 0 <= m < 4 * n ==> dst[m] == Conv(p1, p2, m, i + 1)
    {
      MulUnits(p1[i]);
      for j := 0 to 4 * n
        invariant forall m :: 0 <= m < j ==> dst[m] == Conv(p1, p2, m, i + 1)
        invariant forall m :: j <= m < 4 * n ==> dst[m] == Conv(p1, p2, m, i)
      {
        dst[j] := Add(dst[j], tmp1[j]);
      }
    }

    /** The discrepancy of the recurrence lambda at position r. */
    method ComputeDiscrepancy(lambda: seq<Byte>, s: seq<Byte>, len: nat, r: nat) returns (sum: Byte)
      requires Valid() && len <= r < |s| && len < |lambda|
      ensures sum == BM.Discrepancy(lambda, len, s, r)
    {
      sum := 0;
      for i := 0 to len + 1
        invariant sum == Win(lambda[..i], s, r + 1 - i)
      {
        var v := Gmult(lambda[i], s[r - i]);
        assert lambda[..i + 1][..i] == lambda[..i];
        sum := Add(sum, v);
      }
    }

    // -------------------------------------------------------------------------
    // Encoding

    /** Multiply by the factor with root z^i. */
    method MultFactor(tp1: array<Byte>, i: nat) returns (genpoly: array<Byte>)
      requires Valid() && i < n && tp1.Length == 2 * n && IsPadded(tp1[..], GeneratorPoly(i))
      ensures genpoly.Length == 4 * n && IsPadded(genpoly[..], GeneratorPoly(i + 1))
    {
      var tp := ZeroPoly();
      tp[0] := gexp[i];
      tp[1] := 1;
      genpoly := MultPolys(tp[..], tp1[..]);
      LinearProductIsGenerator(tp[..], tp1[..], i, 4 * n);
    }

    /** The generator polynomial with roots z^0 .. z^(n-1), zero padded. */
    method GenPoly() returns (genpoly: array<Byte>)
      requires Valid()
      ensures IsPadded(genpoly[..], GeneratorPoly(n))
    {
      var tp1 := ZeroPoly();
      tp1[0] := 1;
      genpoly := tp1;
      for i := 0 to n
        invariant Valid()
        invariant tp1.Length == 2 * n && IsPadded(tp1[..], GeneratorPoly(i))
        invariant IsPadded(genpoly[..], GeneratorPoly(i))
      {
        genpoly := MultFactor(tp1, i);
        tp1 := CopyPoly(genpoly[..]);
      }
    }

    /** The register after the whole message has been fed to it. */
    method FeedMessage(msg: seq<Byte>) returns (lfsr: array<Byte>)
      requires Valid() && |genPoly| > n
      ensures fresh(lfsr) && lfsr.Length == n + 1
      ensures HoldsMessage(lfsr[..n], msg, n)
    {
      lfsr := new Byte[n + 1];
      for i := 0 to n + 1
        invariant Valid() && |genPoly| > n
        invariant forall k :: 0 <= k < i ==> lfsr[k] == 0
      {
        lfsr[i] := 0;
      }
      RegisterStart(lfsr[..n], n);
      for i := 0 to |msg|
        invariant Valid() && |genPoly| > n && fresh(lfsr)
        invariant HoldsMessage(lfsr[..n], msg[..i], n)
      {
        FeedByte(lfsr, msg[..i], msg[i]);
        assert msg[..i + 1] == msg[..i] + [msg[i]];
      }
      assert msg[..|msg|] == msg;
    }

    /** One byte of the message, behind those that have been fed. */
    method FeedByte(lfsr: array<Byte>, ghost fed: Seq, byte: Byte)
      requires Valid() && |genPoly| > n && lfsr.Length == n + 1 && lfsr != gexp && lfsr as object != glog
      requires HoldsMessage(lfsr[..n], fed, n)
      modifies lfsr
      ensures Valid() && HoldsMessage(lfsr[..n], fed + [byte], n)
    {
      ghost var before := lfsr[..];
      var dbyte := Add(byte, lfsr[n - 1]);
      FeedRegister(lfsr, dbyte);
      HoldsMessageStep(before, lfsr[..n], fed, byte, genPoly, n);
    }

    /** The parity bytes of a message: the one choice that completes it to a codeword. */
    method Encode(msg: seq<Byte>) returns (parity: seq<Byte>)
      requires Valid()
      modifies this`genPoly
      ensures Valid()
      ensures |parity| == n && IsCodeword(msg + parity, n)
    {
      if genPoly == [] {
        var g := GenPoly();
        genPoly := g[..];
      }
      var lfsr := FeedMessage(msg);
      parity := [];
      var i := n - 1;
      while i >= 0
        invariant -1 <= i < n
        invariant |parity| == n - 1 - i
        invariant forall k :: 0 <= k < |parity| ==> parity[k] == lfsr[n - 1 - k]
      {
        parity := parity + [lfsr[i]];
        i := i - 1;
      }
      RegisterCompletes(msg, parity, lfsr[..n], n);
    }

    /** One step of the register, in place, with the feedback byte dbyte. */
    method FeedRegister(lfsr: array<Byte>, dbyte: Byte)
      requires Valid() && lfsr.Length == n + 1 && |genPoly| > n
      requires lfsr != gexp && lfsr as object != glog
      modifies lfsr
      ensures Valid()
      ensures forall k {:trigger lfsr[k]} :: 0 <= k < n ==> lfsr[k] == NextCell(old(lfsr[..]), genPoly, dbyte, k)
    {
      ghost var was := lfsr[..];
      var j := n - 1;
      while j > 0
        invariant 0 <= j < n && Valid()
        invariant forall k {:trigger lfsr[k]} :: 0 <= k <= j ==> lfsr[k] == was[k]
        invariant forall k {:trigger lfsr[k]} :: j < k < n ==> lfsr[k] == NextCell(was, genPoly, dbyte, k)
      {
        FeedCell(lfsr, dbyte, j, was);
        j := j - 1;
      }
      var v := Gmult(genPoly[0], dbyte);
      lfsr[0] := v;
      AddZero(v);
    }

    /** Cell j of the register that was, when the cells below it are as they were. */
    method FeedCell(lfsr: array<Byte>, dbyte: Byte, j: nat, ghost was: Seq)
      requires Valid() && lfsr.Length == |was| == n + 1 && |genPoly| > n && 0 < j < n
      requires lfsr != gexp && lfsr as object != glog && lfsr[j - 1] == was[j - 1]
      modifies lfsr
      ensures Valid() && lfsr[j] == NextCell(was, genPoly, dbyte, j)
      ensures forall k {:trigger lfsr[k]} :: 0 <= k < n && k != j ==> lfsr[k] == old(lfsr[k])
    {
      var v := Gmult(genPoly[j], dbyte);
      lfsr[j] := Add(lfsr[j - 1], v);
    }

    // -------------------------------------------------------------------------
    // Decoding

    /** The syndromes of bytesIn, and how many of them are not zero. */
    method CalculateSyndroms() returns (nErr: nat)
      requires Valid()
      modifies this`syndroms
      ensures Valid() && syndroms == Syndromes(bytesIn, n)
      ensures nErr == 0 <==> Zeros(syndroms)
    {
      syndroms := [];
      nErr := 0;
      for j := 0 to n
        invariant Valid() && |syndroms| == j
        invariant forall k {:trigger syndroms[k]} :: 0 <= k < j ==> syndroms[k] == Ev(bytesIn, Exp(k))
        invariant nErr == 0 <==> Zeros(syndroms)
      {
        var sum := 0;
        ghost var before := syndroms;
        for i := 0 to |bytesIn|
          invariant Valid() && syndroms == before
          invariant sum == Ev(bytesIn[..i], Exp(j))
        {
          var v := Gmult(gexp[j], sum);
          EvPrefix(bytesIn, i, Exp(j));
          sum := Add(bytesIn[i], v);
          AddComm(bytesIn[i], v);
        }
        assert bytesIn[..|bytesIn|] == bytesIn;
        assert sum == Ev(bytesIn, Exp(j));
        syndroms := syndroms + [sum];
        ZerosAppend(before, sum);
        if sum > 0 {
          nErr := nErr + 1;
        }
      }
    }

    /** psi2 = psi - d*D, coefficient by coefficient. */
    method CombinePolys(psi2: array<Byte>, p: seq<Byte>, d: Byte, q: seq<Byte>)
      requires Valid() && psi2.Length == |p| == |q| == 2 * n
      requires psi2 != gexp && psi2 as object != glog
      modifies psi2
      ensures Valid() && IsCombination(psi2[..], p, d, q)
    {
      for i := 0 to 2 * n
        invariant Valid()
        invariant forall k {:trigger psi2[k]} :: 0 <= k < i ==> psi2[k] == Add(p[k], Mul(d, q[k]))
      {
        var v := Gmult(d, q[i]);
        psi2[i] := Add(p[i], v);
      }
    }

    /** D = p / d. */
    method ScalePoly(D: array<Byte>, p: seq<Byte>, d: Byte)
      requires Valid() && D.Length == |p| == 2 * n && d != 0
      requires D != gexp && D as object != glog
      modifies D
      ensures Valid() && forall k {:trigger D[k]} :: 0 <= k < 2 * n ==> D[k] == Mul(p[k], Inv(d))
    {
      for i := 0 to 2 * n
        invariant Valid()
        invariant forall k {:trigger D[k]} :: 0 <= k < i ==> D[k] == Mul(p[k], Inv(d))
      {
        var w := Ginv(d);
        var v := Gmult(p[i], w);
        D[i] := v;
      }
    }

    /** psi = 1 and D = z, before the first round. */
    method StartMassey() returns (D: array<Byte>)
      requires Valid() && |syndroms| == n
      modifies this`psi
      ensures Valid() && fresh(D) && fresh(psi) && D != psi && psi.Length == D.Length == 2 * n
      ensures BM.Invariant(psi[..], D[..], 0, syndroms, 0)
    {
      var gamma := ZeroPoly();
      gamma[0] := 1;
      D := CopyPoly(gamma[..]);
      MulZPoly(D);
      psi := CopyPoly(gamma[..]);
      BM.Start(psi[..], D[..], syndroms);
    }

    /** A shortest recurrence psi for the syndromes, and the error evaluator omega. */
    method BerlekampMassey() returns (ghost len: nat)
      requires Valid() && |syndroms| == n
      modifies this`psi, this`omega
      ensures Valid() && psi.Length == omega.Length == 2 * n && psi[0] == 1
      ensures len <= n && IsShortestRecurrence(psi[..], len, syndroms)
      ensures ZerosFrom(omega[..], n) && IsOmega(omega[..n], psi[..], syndroms)
    {
      var D := StartMassey();
      len := MasseyRounds(D);
      ComputeOmega();
    }

    /** The rounds of the loop; the length L of the recurrence is one above k throughout. */
    method MasseyRounds(D: array<Byte>) returns (L: nat)
      requires Valid() && |syndroms| == n && D != psi && psi.Length == D.Length == 2 * n
      requires D != gexp && D as object != glog
      requires BM.Invariant(psi[..], D[..], 0, syndroms, 0)
      modifies this`psi, D
      ensures Valid() && (psi == old(psi) || fresh(psi)) && psi.Length == 2 * n
      ensures BM.Invariant(psi[..], D[..], L, syndroms, n)
    {
      var psi2 := new Byte[2 * n];
      var k := -1;
      L := 0;
      for r := 0 to n
        invariant Valid() && (psi == old(psi) || fresh(psi)) && fresh(psi2) && D != psi && psi2 != psi
        invariant psi.Length == 2 * n && k == L - 1
        invariant BM.Invariant(psi[..], D[..], L, syndroms, r)
      {
        ghost var p0, d0, L0 := psi[..], D[..], L;
        k, L := MasseyRound(D, psi2, k, L, r);
        BM.RoundKeepsInvariant(p0, d0, L0, psi[..], D[..], L, syndroms, r);
      }
    }

    /** One round of the loop: correct psi if it fails at position r, and move D up. */
    method MasseyRound(D: array<Byte>, psi2: array<Byte>, k0: int, L0: nat, r: nat) returns (k: int, L: nat)
      requires Valid() && |syndroms| == n && r < n && k0 == L0 - 1
      requires psi.Length == D.Length == psi2.Length == 2 * n && D != psi && psi2 != psi && psi2 != D
      requires gexp !in {D, psi2} && D as object != glog && psi2 as object != glog
      requires L0 <= r
      modifies this`psi, D, psi2
      ensures Valid() && (psi == old(psi) || fresh(psi)) && psi.Length == 2 * n
      ensures k == L - 1
      ensures BM.IsRound(old(psi[..]), old(D[..]), L0, psi[..], D[..], L, syndroms, r)
    {
      k, L := k0, L0;
      ghost var p0, d0 := psi[..], D[..];
      var d := ComputeDiscrepancy(psi[..], syndroms, L, r);
      if d != 0 {
        CombinePolys(psi2, psi[..], d, D[..]);
        if L < r - k {
          var L2 := r - k;
          k := r - L;
          ScalePoly(D, psi[..], d);
          L := L2;
        }
        psi := CopyPoly(psi2[..]);
      }
      ghost var d1 := D[..];
      MulZPoly(D);
      if d != 0 && L0 < r + 1 - L0 {
        BM.ShiftOfMultiple(D[..], d1, p0, Inv(d));
      }
    }

    /** omega is the product of psi and the syndromes, cut off at degree n. */
    method ComputeOmega()
      requires Valid() && |syndroms| == n && psi.Length == 2 * n
      modifies this`omega
      ensures Valid() && fresh(omega) && omega.Length == 2 * n
      ensures ZerosFrom(omega[..], n) && IsOmega(omega[..n], psi[..], syndroms)
    {
      var om := MultPolys(psi[..], syndroms);
      ghost var product := om[..];
      omega := ZeroPoly();
      for i := 0 to n
        invariant Valid() && fresh(omega) && omega.Length == 2 * n && omega != om && om[..] == product
        invariant forall m :: 0 <= m < i ==> omega[m] == product[m]
        invariant forall m :: i <= m < 2 * n ==> omega[m] == 0
      {
        omega[i] := om[i];
      }
      forall m | 0 <= m < n ensures product[m] == Win(psi[..][..m + 1], syndroms, 0) {
        ConvIsWin(psi[..], syndroms, m, 2 * n);
      }
    }

    /** The first m terms of p, lowest degree first, at z^e: the loop the source writes out
        for each evaluation. */
    method EvalPoly(p: seq<Byte>, m: nat, e: nat) returns (sum: Byte)
      requires Valid() && m <= |p|
      ensures sum == Lo(p[..m], Exp(e))
    {
      sum := 0;
      for j := 0 to m
        invariant sum == Lo(p[..j], Exp(e))
      {
        var v := Gmult(p[j], gexp[(e * j) % 255]);
        PowExp(e, j);
        ExpMod(e * j);
        LoPrefix(p, j, Exp(e));
        sum := Add(sum, v);
      }
    }

    /** The even powers of p at z^e: p' at the root, times the root. */
    method EvalEven(p: seq<Byte>, e: nat) returns (sum: Byte)
      requires Valid() && |p| == 2 * n
      ensures sum == EvenPart(p, Exp(e), n)
    {
      sum := 0;
      var j := 0;
      while j < 2 * n
        invariant 0 <= j <= 2 * n && j % 2 == 0
        invariant sum == EvenPart(p, Exp(e), j / 2)
      {
        var v := Gmult(p[j], gexp[(e * j) % 255]);
        PowExp(e, j);
        ExpMod(e * j);
        sum := Add(sum, v);
        j := j + 2;
      }
    }

    /** All exponents i in 0..254 with psi(z^-i) == 0, highest first, without repetition. */
    method FindRoots(ghost psi0: Seq)
      requires Valid() && psi.Length == 2 * n && psi0 == psi[..]
      modifies this`nErrors, this`errorLocs
      ensures Valid() && nErrors == |errorLocs|
      ensures errorLocs in RootSearches(psi0[..n + 1])
    {
      nErrors := 0;
      errorLocs := [];
      for r := 1 to 256
        invariant Valid() && nErrors == |errorLocs|
        invariant Descending(errorLocs)
        invariant forall j :: 0 <= j < |errorLocs| ==> errorLocs[j] >= 256 - r
        invariant forall i: nat :: i in errorLocs <==> 256 - r <= i && RootAt(psi0[..n + 1], i)
      {
        var sum := EvalPoly(psi[..], n + 1, r);
        if sum == 0 {
          errorLocs := errorLocs + [255 - r];
          nErrors := nErrors + 1;
        }
      }
    }

    /** The places found are those of a shortest recurrence, and no more than its length. */
    method LocateErrors() returns (ghost d: Decoding)
      requires Valid() && syndroms == Syndromes(bytesIn, n)
      modifies this`psi, this`omega, this`nErrors, this`errorLocs
      ensures Valid() && psi.Length == omega.Length == 2 * n && nErrors == |errorLocs|
      ensures d.psi == psi[..] && d.om == omega[..] && d.locs == errorLocs && d.w == bytesIn
      ensures d in Decodings(n) && nErrors <= d.len <= n
    {
      d := FindRecurrence();
      d := SearchPlaces(d);
    }

    /** The third stage, with what it makes of the first two. */
    method SearchPlaces(ghost u: Decoding) returns (ghost d: Decoding)
      requires Valid() && psi.Length == 2 * n && u.psi == psi[..] && u in Unsearched(n)
      modifies this`nErrors, this`errorLocs
      ensures Valid() && nErrors == |errorLocs| <= d.len <= n
      ensures d == u.(locs := errorLocs) && d in Decodings(n)
    {
      FindRoots(u.psi);
      d := u.(locs := errorLocs);
      RootPlacesMakeDecoding(u, d, n);
    }

    /** The first two stages. */
    method FindRecurrence() returns (ghost d: Decoding)
      requires Valid() && syndroms == Syndromes(bytesIn, n)
      modifies this`psi, this`omega
      ensures Valid() && psi.Length == omega.Length == 2 * n
      ensures d.psi == psi[..] && d.om == omega[..] && d.w == bytesIn
      ensures d in Unsearched(n)
    {
      ghost var len := BerlekampMassey();
      d := Decoding(psi[..], len, omega[..], [], bytesIn);
    }

    /** Does every place found lie inside the word? */
    method PlacesInScope() returns (ok: bool)
      requires nErrors == |errorLocs|
      ensures ok <==> Within(errorLocs, |bytesIn|)
    {
      for e := 0 to nErrors
        invariant forall k :: 0 <= k < e ==> errorLocs[k] < |bytesIn|
      {
        if errorLocs[e] >= |bytesIn| {
          return false;
        }
      }
      return true;
    }

    /** Locate the damaged places and patch them, unless there are too many, or one is out of
        the word, or there is none. */
    method CorrectErrors() returns (ghost d: Decoding)
      requires Valid() && syndroms == Syndromes(bytesIn, n)
      requires |bytesIn| <= 255 && bytesOut == bytesIn
      modifies this`psi, this`omega, this`nErrors, this`errorLocs
      modifies this`corrected, this`uncorrectedReason, this`bytesOut
      ensures Valid() && d in Decodings(n) && d.locs == errorLocs && d.w == bytesIn
      ensures corrected <==> Patchable(bytesIn, errorLocs, n)
      ensures bytesOut == if corrected then Patched(bytesIn, errorLocs, d.om, d.psi, n) else bytesIn
    {
      d := LocateErrors();
      assert IsDecoding(d, n);
      PatchOrRefuse();
    }

    /** The second half of correctErrors, when the places are known. */
    method PatchOrRefuse()
      requires Valid() && psi.Length == omega.Length == 2 * n && |bytesIn| <= 255
      requires bytesOut == bytesIn && nErrors == |errorLocs| && Descending(errorLocs)
      modifies this`corrected, this`uncorrectedReason, this`bytesOut
      ensures Valid() && (corrected <==> Patchable(bytesIn, errorLocs, n))
      ensures bytesOut == if corrected then Patched(bytesIn, errorLocs, omega[..], psi[..], n) else bytesIn
    {
      corrected := false;
      if 2 * nErrors > n {
        uncorrectedReason := "too many errors";
        return;
      }
      var inScope := PlacesInScope();
      if !inScope {
        uncorrectedReason := "corrections out of scope";
        return;
      }
      if nErrors == 0 {
        uncorrectedReason := "could not identify errors";
        return;
      }
      PatchErrors();
      corrected := true;
    }

    /** Forney's formula at exponent i. */
    method ErrorValue(i: nat) returns (err: Byte)
      requires Valid() && psi.Length == omega.Length == 2 * n && i < 255
      ensures err == Correction(omega[..], psi[..], n, i)
    {
      var num := EvalPoly(omega[..], 2 * n, 255 - i);
      var denom := EvalEven(psi[..], 255 - i);
      var inv := Ginv(denom);
      assert omega[..][..2 * n] == omega[..];
      err := Gmult(num, inv);
    }

    /** The correction loop: add the error value at each place found. */
    method PatchErrors()
      requires Valid() && psi.Length == omega.Length == 2 * n && |bytesIn| <= 255
      requires bytesOut == bytesIn && nErrors == |errorLocs|
      requires Descending(errorLocs) && Within(errorLocs, |bytesIn|)
      modifies this`bytesOut
      ensures Valid() && bytesOut == Patched(bytesIn, errorLocs, omega[..], psi[..], n)
    {
      for r := 0 to nErrors
        invariant Valid() && bytesOut == Patched(bytesIn, errorLocs[..r], omega[..], psi[..], n)
      {
        var i := errorLocs[r];
        var err := ErrorValue(i);
        PatchOne(bytesIn, errorLocs, r, omega[..], psi[..], n);
        var at := |bytesOut| - i - 1;
        bytesOut := bytesOut[at := Add(bytesOut[at], err)];
      }
      assert errorLocs[..nErrors] == errorLocs;
    }

    /** Remove the parity bytes, after undoing the damage: a word within the correction radius
        of a codeword is restored to that codeword. */
    method Decode(word: seq<Byte>) returns (msg: seq<Byte>)
      requires Valid() && n <= |word| <= 255
      modifies this`bytesIn, this`bytesOut, this`syndroms, this`psi, this`omega
      modifies this`nErrors, this`errorLocs, this`corrected, this`uncorrectedReason
      ensures Valid() && |msg| == |word| - n
      ensures forall c: Seq :: InRadius(c, word, n) ==> corrected && msg == c[..|c| - n]
    {
      bytesIn := word;
      bytesOut := word;
      Repair();
      msg := bytesOut[..|bytesOut| - n];
      forall c: Seq | InRadius(c, word, n) ensures corrected && msg == c[..|c| - n] {
        assert corrected && bytesOut == c;
      }
    }

    /** Correct the word if a syndrome is not zero. */
    method Repair()
      requires Valid() && |bytesIn| <= 255 && bytesOut == bytesIn
      modifies this`bytesOut, this`syndroms, this`psi, this`omega
      modifies this`nErrors, this`errorLocs, this`corrected, this`uncorrectedReason
      ensures Valid() && |bytesOut| == |bytesIn| && Restores(bytesOut, corrected, bytesIn, n)
    {
      var nErr := CalculateSyndroms();
      if nErr > 0 {
        ghost var d := CorrectErrors();
        DecodingRestores(d, n);
      } else {
        corrected := true;
        ZeroSyndromesRestore(bytesIn, n);
      }
    }
  }
}
