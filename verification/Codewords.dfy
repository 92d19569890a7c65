/** Reed-Solomon codewords, damaged words, and what the decoder's intermediate results mean. */
module Codewords {
  import opened GF256
  import opened Poly
  import opened Recurrence
  import opened Locators

  /** c, highest degree first, has the roots z^0 .. z^(n-1). */
  ghost predicate IsCodeword(c: Seq, n: nat) {
    forall j: nat :: j < n ==> Ev(c, Exp(j)) == 0
  }

  /** Number of places where c and w differ. */
  ghost function Distance(c: Seq, w: Seq): nat
    requires |c| == |w|
  {
    if |c| == 0 then 0 else (if c[0] != w[0] then 1 else 0) + Distance(c[1..], w[1..])
  }

  // ---------------------------------------------------------------------------
  // The parity bytes are unique

  ghost function PowersOfRoots(n: nat): (xs: Seq)
    ensures |xs| == n && forall j :: 0 <= j < n ==> xs[j] == Exp(j)
  {
    seq(n, (j: nat) => Exp(j))
  }

  /** At most one choice of n parity bytes completes a message to a codeword. */
  lemma ParityUnique(msg: Seq, p: Seq, q: Seq, n: nat)
    requires |p| == |q| == n <= 255
    requires IsCodeword(msg + p, n) && IsCodeword(msg + q, n)
    ensures p == q
  {
    var xs := PowersOfRoots(n);
    forall i, j | 0 <= i < j < n ensures xs[i] != xs[j] {
      ExpInjective(i, j);
    }
    forall j | 0 <= j < n ensures Ev(Sum(p, q), xs[j]) == 0 {
      EvSum(p, q, xs[j]);
      EvConcat(msg, p, xs[j]);
      EvConcat(msg, q, xs[j]);
      AddIsZero(Mul(Pow(xs[j], n), Ev(msg, xs[j])), Ev(p, xs[j]));
      AddIsZero(Mul(Pow(xs[j], n), Ev(msg, xs[j])), Ev(q, xs[j]));
      AddIsZero(Ev(p, xs[j]), Ev(q, xs[j]));
    }
    ManyRoots(Sum(p, q), xs);
    forall i | 0 <= i < n ensures p[i] == q[i] {
      assert Sum(p, q)[i] == 0;
      AddIsZero(p[i], q[i]);
    }
  }

  // ---------------------------------------------------------------------------
  // The nonzero places of an error word

  ghost predicate Within(ps: seq<nat>, n: nat) {
    forall i :: 0 <= i < |ps| ==> ps[i] < n
  }

  /** Exponents of the nonzero terms of e, highest first. */
  ghost function Places(e: Seq): (ps: seq<nat>)
    ensures |ps| <= |e| && Within(ps, |e|)
  {
    if |e| == 0 then []
    else if e[0] != 0 then [|e| - 1] + Places(e[1..])
    else Places(e[1..])
  }

  ghost function ValuesAt(e: Seq, ps: seq<nat>): (y: Seq)
    requires Within(ps, |e|)
    ensures |y| == |ps|
  {
    seq(|ps|, i requires 0 <= i < |ps| => e[|e| - 1 - ps[i]])
  }

  ghost function LocatorsOf(ps: seq<nat>): (x: Seq)
    ensures |x| == |ps|
  {
    seq(|ps|, i requires 0 <= i < |ps| => Exp(ps[i]))
  }

  ghost predicate Descending(ps: seq<nat>) {
    forall i, j :: 0 <= i < j < |ps| ==> ps[i] > ps[j]
  }

  lemma {:induction false} PlacesExact(e: Seq)
    ensures Descending(Places(e))
    ensures forall p: nat :: p in Places(e) <==> p < |e| && e[|e| - 1 - p] != 0
  {
    if |e| > 0 {
      var n, rest := |e| - 1, e[1..];
      PlacesExact(rest);
      assert Places(e) == if e[0] != 0 then [n] + Places(rest) else Places(rest);
      forall p: nat ensures p in Places(e) <==> p < |e| && e[n - p] != 0 {
        if p < n {
          assert e[n - p] == rest[n - 1 - p];
        }
      }
    }
  }

  lemma NonemptyHasElement(p: seq<nat>)
    ensures |p| == 0 || exists i: nat :: i in p
  {
    if |p| > 0 {
      assert p[0] in p;
    }
  }

  lemma {:induction false} DescendingUnique(p: seq<nat>, q: seq<nat>)
    requires Descending(p) && Descending(q) && forall i: nat :: i in p <==> i in q
    ensures p == q
    decreases |p|
  {
    if |p| > 0 && |q| > 0 {
      assert p[0] in q;
      assert q[0] in p;
      assert p[0] == q[0];
      forall i: nat ensures i in p[1..] <==> i in q[1..] {
        assert i in p <==> i == p[0] || i in p[1..];
        assert i in q <==> i == q[0] || i in q[1..];
        assert p[0] !in p[1..] && q[0] !in q[1..];
      }
      DescendingUnique(p[1..], q[1..]);
    } else {
      NonemptyHasElement(p);
      NonemptyHasElement(q);
    }
  }

  lemma {:induction false} DistancePlaces(c: Seq, w: Seq)
    requires |c| == |w|
    ensures |Places(Sum(c, w))| == Distance(c, w)
  {
    if |c| > 0 {
      DistancePlaces(c[1..], w[1..]);
      assert Sum(c, w)[1..] == Sum(c[1..], w[1..]);
      AddIsZero(c[0], w[0]);
    }
  }

  lemma {:induction false} PowerSumCons(a: Byte, b: Byte, y: Seq, x: Seq, t: nat)
    requires |y| == |x|
    ensures PowerSum([a] + y, [b] + x, t) == Add(Mul(a, Pow(b, t)), PowerSum(y, x, t))
  {
    var n := |y|;
    assert ([a] + y)[..n] == if n == 0 then [] else [a] + y[..n - 1];
    assert ([b] + x)[..n] == if n == 0 then [] else [b] + x[..n - 1];
    if n == 0 {
      AddZero(Mul(a, Pow(b, t)));
    } else {
      PowerSumCons(a, b, y[..n - 1], x[..n - 1], t);
      AddAssoc(Mul(a, Pow(b, t)), PowerSum(y[..n - 1], x[..n - 1], t), Mul(y[n - 1], Pow(x[n - 1], t)));
    }
  }

  lemma TailValues(e: Seq)
    requires |e| > 0
    ensures ValuesAt(e, Places(e[1..])) == ValuesAt(e[1..], Places(e[1..]))
  {
    var e', ps := e[1..], Places(e[1..]);
    forall i | 0 <= i < |ps| ensures ValuesAt(e, ps)[i] == ValuesAt(e', ps)[i] {
      assert e'[|e'| - 1 - ps[i]] == e[|e| - 1 - ps[i]];
    }
  }

  lemma LocatorsCons(p: nat, ps: seq<nat>)
    ensures LocatorsOf([p] + ps) == [Exp(p)] + LocatorsOf(ps)
  {
    var qs := [p] + ps;
    forall i | 0 <= i < |qs| ensures LocatorsOf(qs)[i] == ([Exp(p)] + LocatorsOf(ps))[i] {
      assert qs[i] == if i == 0 then p else ps[i - 1];
    }
  }

  lemma ValuesCons(e: Seq, p: nat, ps: seq<nat>)
    requires p < |e| && Within(ps, |e|)
    ensures ValuesAt(e, [p] + ps) == [e[|e| - 1 - p]] + ValuesAt(e, ps)
  {
    var qs := [p] + ps;
    forall i | 0 <= i < |qs| ensures ValuesAt(e, qs)[i] == ([e[|e| - 1 - p]] + ValuesAt(e, ps))[i] {
      assert qs[i] == if i == 0 then p else ps[i - 1];
    }
  }

  lemma PlacesCons(e: Seq)
    requires |e| > 0
    ensures Places(e) == if e[0] != 0 then [|e| - 1] + Places(e[1..]) else Places(e[1..])
  {}

  lemma {:induction false} SyndromeIsPowerSum(e: Seq, t: nat)
    ensures Ev(e, Exp(t)) == PowerSum(ValuesAt(e, Places(e)), LocatorsOf(Places(e)), t)
  {
    if |e| > 0 {
      var n, e', ps := |e| - 1, e[1..], Places(e[1..]);
      SyndromeIsPowerSum(e', t);
      assert e == [e[0]] + e';
      SyndromeCons(e[0], e', t);
      PlacesCons(e);
      TailValues(e);
      if e[0] != 0 {
        ValuesCons(e, n, ps);
        LocatorsCons(n, ps);
        PowerSumCons(e[0], Exp(n), ValuesAt(e', ps), LocatorsOf(ps), t);
      } else {
        MulUnits(Pow(Exp(n), t));
        AddZero(Ev(e', Exp(t)));
      }
    }
  }

  lemma SyndromeCons(a: Byte, e: Seq, t: nat)
    ensures Ev([a] + e, Exp(t)) == Add(Mul(a, Pow(Exp(|e|), t)), Ev(e, Exp(t)))
    ensures |([a] + e)| == |e| + 1 && ([a] + e)[1..] == e
  {
    EvConcat([a], e, Exp(t));
    EvSingle([a], Exp(t));
    PowExp(t, |e|);
    PowExp(|e|, t);
    MulComm(Exp(t * |e|), a);
  }

  // ---------------------------------------------------------------------------
  // What the decoder computes

  ghost function Syndromes(w: Seq, n: nat): (s: Seq)
    ensures |s| == n && forall j :: 0 <= j < n ==> s[j] == Ev(w, Exp(j))
  {
    seq(n, (j: nat) => Ev(w, Exp(j)))
  }

  /** psi[..len+1] is a shortest recurrence for the syndromes s, and psi is zero above. */
  ghost predicate IsShortestRecurrence(psi: Seq, len: nat, s: Seq) {
    && len < |psi| && ZerosFrom(psi, len + 1)
    && Generates(psi[..len + 1], s, |s|) && Shortest(len, s, |s|)
  }

  ghost predicate RootAt(psi: Seq, i: nat) {
    i < 255 && Lo(psi, Exp(255 - i)) == 0
  }

  /** locs lists, highest first, the exponents i with psi(z^-i) == 0. */
  ghost predicate AreRootPlaces(locs: seq<nat>, psi: Seq) {
    && Descending(locs)
    && forall i: nat :: i in locs <==> RootAt(psi, i)
  }

  /** Not zero, and zero above degree d. */
  ghost predicate DegreeWithin(p: Seq, d: nat) {
    d < |p| && ZerosFrom(p, d + 1) && !Zeros(p)
  }

  /** A polynomial that is not zero has no more root places than its degree. */
  lemma RootPlacesBounded(psi: Seq, d: nat, locs: seq<nat>)
    requires DegreeWithin(psi, d) && AreRootPlaces(locs, psi)
    ensures |locs| <= d
  {
    var c, x := psi[..d + 1], LocatorsOf(locs);
    forall j | 0 <= j < |x| ensures Ev(c, x[j]) == 0 && locs[j] < 255 {
      assert locs[j] in locs && RootAt(psi, locs[j]);
      InverseOfLocator(locs[j]);
      LoTrailing(psi, d + 1, Exp(255 - locs[j]));
      LoRootIsEvRoot(c, Exp(locs[j]), Exp(255 - locs[j]));
    }
    forall i, j | 0 <= i < j < |x| ensures x[i] != x[j] {
      ExpInjective(locs[j], locs[i]);
    }
    assert Zeros(c) ==> Zeros(psi);
    if |locs| > d {
      ManyRoots(c, x);
    }
  }

  /** The value the decoder adds at exponent i. */
  ghost function Correction(om: Seq, psi: Seq, n: nat, i: nat): Byte
    requires i < 255 && |psi| == 2 * n
  {
    var w := Exp(255 - i);
    var denom := EvenPart(psi, w, n);
    Mul(Lo(om, w), if denom == 0 then 1 else Inv(denom))
  }

  /** w with the correction added at every exponent in locs. */
  ghost function Patched(w: Seq, locs: seq<nat>, om: Seq, psi: Seq, n: nat): (r: Seq)
    requires |psi| == 2 * n && |w| <= 255
    ensures |r| == |w|
  {
    seq(|w|, k requires 0 <= k < |w| =>
      if |w| - 1 - k in locs then Add(w[k], Correction(om, psi, n, |w| - 1 - k)) else w[k])
  }

  lemma InverseOfLocator(i: nat)
    requires i < 255
    ensures Mul(Exp(255 - i), Exp(i)) == 1
  {
    ExpAdd(255 - i, i);
    OrderIs255();
  }

  lemma SyndromesOfError(c: Seq, w: Seq, n: nat)
    requires |c| == |w| <= 255 && IsCodeword(c, n)
    ensures var e := Sum(c, w);
      && IsPowerSums(Syndromes(w, n), ValuesAt(e, Places(e)), LocatorsOf(Places(e)))
      && Distinct(LocatorsOf(Places(e))) && NonZero(ValuesAt(e, Places(e)))
  {
    var e := Sum(c, w);
    PlacesExact(e);
    var ps := Places(e);
    forall j | 0 <= j < n ensures Syndromes(w, n)[j] == PowerSum(ValuesAt(e, ps), LocatorsOf(ps), j) {
      SyndromeIsPowerSum(e, j);
      EvSum(c, w, Exp(j));
      assert Ev(c, Exp(j)) == 0;
      AddZero(Ev(w, Exp(j)));
    }
    forall i, j | 0 <= i < j < |ps| ensures Exp(ps[i]) != Exp(ps[j]) {
      assert ps[i] in ps && ps[j] in ps;
      ExpInjective(ps[j], ps[i]);
    }
    forall i | 0 <= i < |ps| ensures e[|e| - 1 - ps[i]] != 0 {
      assert ps[i] in ps;
    }
  }

  /** A word within the radius whose syndromes all vanish is the codeword itself. */
  lemma ZeroSyndromesMeanCodeword(c: Seq, w: Seq, n: nat)
    requires |c| == |w| <= 255 && IsCodeword(c, n) && Distance(c, w) <= n
    requires Zeros(Syndromes(w, n))
    ensures w == c
  {
    var e := Sum(c, w);
    SyndromesOfError(c, w, n);
    DistancePlaces(c, w);
    var y, x := ValuesAt(e, Places(e)), LocatorsOf(Places(e));
    forall t: nat | t < |x| ensures PowerSum(y, x, t) == 0 {
      assert Syndromes(w, n)[t] == 0;
    }
    Vandermonde(y, x);
    PlacesExact(e);
    assert |x| == 0;
    forall k | 0 <= k < |c| ensures w[k] == c[k] {
      assert |e| - 1 - k !in Places(e);
      assert e[|e| - 1 - (|e| - 1 - k)] == 0;
      AddIsZero(c[k], w[k]);
    }
  }

  /** The decoder finds exactly the damaged places. */
  lemma RootPlacesAreErrors(c: Seq, w: Seq, psi: Seq, len: nat, locs: seq<nat>, n: nat)
    requires |c| == |w| <= 255 && IsCodeword(c, n) && 2 * Distance(c, w) <= n
    requires |psi| > 0 && psi[0] == 1 && IsShortestRecurrence(psi, len, Syndromes(w, n))
    requires AreRootPlaces(locs, psi)
    ensures locs == Places(Sum(c, w))
    ensures len == |locs| && IsLocatorArray(psi, LocatorsOf(locs))
  {
    var e := Sum(c, w);
    var ps := Places(e);
    SyndromesOfError(c, w, n);
    DistancePlaces(c, w);
    PlacesExact(e);
    var x := LocatorsOf(ps);
    ShortestHasLocatorRoots(psi[..len + 1], Syndromes(w, n), ValuesAt(e, ps), x);
    assert forall z :: Ev(psi[..len + 1], z) == 0 <==> z in x;
    PlacesSame(psi, len, ps, locs);
  }

  /** Places are determined by the locators that are roots. */
  lemma PlacesSame(psi: Seq, len: nat, ps: seq<nat>, locs: seq<nat>)
    requires len < |psi| && ZerosFrom(psi, len + 1) && Within(ps, 255) && Descending(ps) && AreRootPlaces(locs, psi)
    requires forall z :: Ev(psi[..len + 1], z) == 0 <==> z in LocatorsOf(ps)
    ensures locs == ps
  {
    forall i: nat ensures i in locs <==> i in ps {
      if i < 255 {
        RootPlaceIsLocator(psi, len, ps, i);
      }
    }
    DescendingUnique(locs, ps);
  }

  lemma RootPlaceIsLocator(psi: Seq, len: nat, ps: seq<nat>, i: nat)
    requires i < 255 && len < |psi| && ZerosFrom(psi, len + 1)
    requires Within(ps, 255)
    requires forall z :: Ev(psi[..len + 1], z) == 0 <==> z in LocatorsOf(ps)
    ensures RootAt(psi, i) <==> i in ps
  {
    InverseOfLocator(i);
    LoTrailing(psi, len + 1, Exp(255 - i));
    LoRootIsEvRoot(psi[..len + 1], Exp(i), Exp(255 - i));
    var x := LocatorsOf(ps);
    if i in ps {
      var j :| 0 <= j < |ps| && ps[j] == i;
      assert x[j] == Exp(i);
    }
    if Exp(i) in x {
      var j :| 0 <= j < |x| && x[j] == Exp(i);
      assert ps[j] in ps;
      LogUnique(ps[j]);
      LogUnique(i);
    }
  }

  /** The decoder's results on the word w: recurrence and its length, error evaluator, places. */
  datatype Decoding = Decoding(psi: Seq, len: nat, om: Seq, locs: seq<nat>, w: Seq)

  /** What the first two stages leave, before the search for the places. */
  ghost predicate IsUnsearched(d: Decoding, n: nat) {
    && |d.psi| == |d.om| == 2 * n > 0 && d.psi[0] == 1 && d.len <= n
    && IsShortestRecurrence(d.psi, d.len, Syndromes(d.w, n))
    && ZerosFrom(d.om, n) && IsOmega(d.om[..n], d.psi, Syndromes(d.w, n))
  }

  ghost predicate IsDecoding(d: Decoding, n: nat) {
    IsUnsearched(d, n) && AreRootPlaces(d.locs, d.psi)
  }

  /** All decodings of words with n parity bytes, and what they are before the search. */
  ghost function Decodings(n: nat): iset<Decoding> {
    iset d: Decoding | IsDecoding(d, n)
  }

  ghost function Unsearched(n: nat): iset<Decoding> {
    iset d: Decoding | IsUnsearched(d, n)
  }

  /** The results of searching psi for its root places. */
  ghost function RootSearches(psi: Seq): iset<seq<nat>> {
    iset locs: seq<nat> | AreRootPlaces(locs, psi)
  }

  /** There are no more places than the recurrence is long. */
  lemma DecodingBounded(d: Decoding, n: nat)
    requires IsDecoding(d, n)
    ensures |d.locs| <= d.len <= n
  {
    assert DegreeWithin(d.psi, d.len);
    RootPlacesBounded(d.psi, d.len, d.locs);
  }

  /** The search looks at the first n + 1 coefficients only, which is enough. */
  lemma RootPlacesMakeDecoding(u: Decoding, d: Decoding, n: nat)
    requires u in Unsearched(n) && d == u.(locs := d.locs) && d.locs in RootSearches(u.psi[..n + 1])
    ensures d in Decodings(n) && |d.locs| <= d.len <= n
  {
    RootPlacesPadded(d.psi, d.len, d.locs, n);
    assert IsUnsearched(d, n);
    DecodingBounded(d, n);
  }

  /** w is within the correction radius of the codeword c. */
  ghost predicate InRadius(c: Seq, w: Seq, n: nat) {
    |c| == |w| <= 255 && IsCodeword(c, n) && 2 * Distance(c, w) <= n
  }

  lemma ForneyCorrection(om: Seq, psi: Seq, n: nat, s: Seq, y: Seq, x: Seq, i: nat, p: nat)
    requires |psi| == |om| == 2 * n && |s| == n && ZerosFrom(om, n)
    requires IsPowerSums(s, y, x) && IsOmega(om[..n], psi, s)
    requires |x| < n && IsLocatorArray(psi, x)
    requires i < |x| && p < 255 && x[i] == Exp(p)
    ensures Correction(om, psi, n, p) == y[i]
  {
    var z := Exp(255 - p);
    InverseOfLocator(p);
    Forney(om[..n], psi, s, y, x, i, z);
    LoTrailing(om, n, z);
    var denom := EvenPart(psi, z, n);
    MulAssoc(y[i], denom, Inv(denom));
    MulUnits(y[i]);
  }

  /** psi locates the places where w differs from c, and om is its error evaluator. */
  ghost predicate Locates(psi: Seq, om: Seq, locs: seq<nat>, c: Seq, w: Seq, n: nat) {
    && |c| == |w| <= 255 && |psi| == |om| == 2 * n > 0
    && ZerosFrom(om, n) && IsOmega(om[..n], psi, Syndromes(w, n))
    && locs == Places(Sum(c, w)) && |locs| < n
    && IsLocatorArray(psi, LocatorsOf(locs))
  }

  lemma CorrectionIsError(c: Seq, w: Seq, psi: Seq, om: Seq, locs: seq<nat>, n: nat, i: nat)
    requires IsCodeword(c, n) && Locates(psi, om, locs, c, w, n)
    requires i < |locs|
    ensures Correction(om, psi, n, locs[i]) == Add(c[|w| - 1 - locs[i]], w[|w| - 1 - locs[i]])
  {
    SyndromesOfError(c, w, n);
    var y := ValuesAt(Sum(c, w), locs);
    ForneyCorrection(om, psi, n, Syndromes(w, n), y, LocatorsOf(locs), i, locs[i]);
  }

  lemma PlaceOf(e: Seq, k: nat) returns (i: nat)
    requires k < |e|
    ensures if e[k] == 0 then |e| - 1 - k !in Places(e)
            else i < |Places(e)| && Places(e)[i] == |e| - 1 - k
  {
    PlacesExact(e);
    var p := |e| - 1 - k;
    assert e[|e| - 1 - p] == e[k];
    if e[k] != 0 {
      assert p in Places(e);
      i :| i < |Places(e)| && Places(e)[i] == p;
    } else {
      i := 0;
    }
  }

  lemma ErrorRestores(c: Byte, w: Byte)
    ensures Add(w, Add(c, w)) == c
    ensures c != w <==> Add(c, w) != 0
  {
    AddIsZero(c, w);
    AddComm(c, w);
    AddCancel(w, c);
  }

  /** At every place located, the correction is the difference of the words. */
  ghost predicate CorrectionsMatch(c: Seq, w: Seq, psi: Seq, om: Seq, locs: seq<nat>, n: nat) {
    && |c| == |w| <= 255 && |psi| == 2 * n && locs == Places(Sum(c, w))
    && forall i :: 0 <= i < |locs| ==>
         Correction(om, psi, n, locs[i]) == Add(c[|w| - 1 - locs[i]], w[|w| - 1 - locs[i]])
  }

  lemma CorrectionsAreErrors(c: Seq, w: Seq, psi: Seq, om: Seq, locs: seq<nat>, n: nat)
    requires IsCodeword(c, n) && Locates(psi, om, locs, c, w, n)
    ensures CorrectionsMatch(c, w, psi, om, locs, n)
  {
    forall i | 0 <= i < |locs|
      ensures Correction(om, psi, n, locs[i]) == Add(c[|w| - 1 - locs[i]], w[|w| - 1 - locs[i]])
    {
      CorrectionIsError(c, w, psi, om, locs, n, i);
    }
  }

  lemma PatchedAt(c: Seq, w: Seq, psi: Seq, om: Seq, locs: seq<nat>, n: nat, k: nat)
    requires CorrectionsMatch(c, w, psi, om, locs, n) && k < |w|
    ensures Patched(w, locs, om, psi, n)[k] == c[k]
  {
    var i := PlaceOf(Sum(c, w), k);
    ErrorRestores(c[k], w[k]);
    if c[k] != w[k] {
      assert locs[i] == |w| - 1 - k;
    }
  }

  /** Bounded-distance decoding: patching a word within the radius restores the codeword. */
  lemma PatchingRestores(c: Seq, d: Decoding, n: nat)
    requires InRadius(c, d.w, n) && IsDecoding(d, n)
    ensures Patched(d.w, d.locs, d.om, d.psi, n) == c
    ensures d.locs == Places(Sum(c, d.w)) && 2 * |d.locs| <= n && (|d.locs| == 0 ==> d.w == c)
  {
    var w, psi, om, locs := d.w, d.psi, d.om, d.locs;
    RootPlacesAreErrors(c, w, psi, d.len, locs, n);
    DistancePlaces(c, w);
    CorrectionsAreErrors(c, w, psi, om, locs, n);
    forall k | 0 <= k < |w| ensures Patched(w, locs, om, psi, n)[k] == c[k] {
      PatchedAt(c, w, psi, om, locs, n, k);
    }
    assert |locs| == 0 ==> Patched(w, locs, om, psi, n) == w;
  }

  lemma CodewordHasZeroSyndromes(c: Seq, n: nat)
    requires IsCodeword(c, n)
    ensures Zeros(Syndromes(c, n))
  {}

  lemma RootPlacesPadded(psi: Seq, len: nat, locs: seq<nat>, n: nat)
    requires len <= n < |psi| && ZerosFrom(psi, len + 1) && AreRootPlaces(locs, psi[..n + 1])
    ensures AreRootPlaces(locs, psi)
  {
    forall i: nat ensures RootAt(psi, i) <==> RootAt(psi[..n + 1], i) {
      if i < 255 {
        LoTrailing(psi, n + 1, Exp(255 - i));
      }
    }
  }

  /** Patching one more place. */
  lemma PatchOne(w: Seq, locs: seq<nat>, r: nat, om: Seq, psi: Seq, n: nat)
    requires |psi| == 2 * n && |w| <= 255
    requires Descending(locs) && Within(locs, |w|) && r < |locs|
    ensures var at := |w| - 1 - locs[r];
      var p := Patched(w, locs[..r], om, psi, n);
      Patched(w, locs[..r + 1], om, psi, n) == p[at := Add(p[at], Correction(om, psi, n, locs[r]))]
  {
    var at := |w| - 1 - locs[r];
    var p, q := Patched(w, locs[..r], om, psi, n), Patched(w, locs[..r + 1], om, psi, n);
    assert locs[r] !in locs[..r];
    forall k | 0 <= k < |w| ensures q[k] == p[at := Add(p[at], Correction(om, psi, n, locs[r]))][k] {
      assert |w| - 1 - k in locs[..r + 1] <==> k == at || |w| - 1 - k in locs[..r];
    }
  }

  /** What correctErrors does to the word: patch it, unless there are too many places, one is
      outside the word, or there is none. */
  ghost predicate Patchable(w: Seq, locs: seq<nat>, n: nat) {
    0 < |locs| && 2 * |locs| <= n && Within(locs, |w|)
  }

  /** Within the radius of any codeword, a word with a nonzero syndrome is patched to it. */
  lemma DecodingRestores(d: Decoding, n: nat)
    requires d in Decodings(n) && !Zeros(Syndromes(d.w, n)) && |d.w| <= 255
    ensures Restores(Patched(d.w, d.locs, d.om, d.psi, n), Patchable(d.w, d.locs, n), d.w, n)
    ensures !Patchable(d.w, d.locs, n) ==> Restores(d.w, false, d.w, n)
  {
    forall c: Seq | InRadius(c, d.w, n)
      ensures Patchable(d.w, d.locs, n) && Patched(d.w, d.locs, d.om, d.psi, n) == c
    {
      PatchingRestores(c, d, n);
      CodewordHasZeroSyndromes(c, n);
    }
  }

  /** out is every codeword in whose radius w is. */
  ghost predicate Restores(out: Seq, corrected: bool, w: Seq, n: nat) {
    forall c: Seq :: InRadius(c, w, n) ==> corrected && out == c
  }

  lemma ZeroSyndromesRestore(w: Seq, n: nat)
    requires Zeros(Syndromes(w, n))
    ensures Restores(w, true, w, n)
  {
    forall c: Seq | InRadius(c, w, n) ensures w == c {
      ZeroSyndromesMeanCodeword(c, w, n);
    }
  }
}
