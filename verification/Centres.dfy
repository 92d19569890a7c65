/** The centres of the alignment patterns: evenly spaced from the far edge, with the remainder next to column 6. */
module Centres {
  import opened QRTables
  import opened FunctionPatterns

  /** Patterns along one side. */
  function Side(version: nat): nat {
    if version <= 1 then 0 else version / 7 + 2
  }

  /** The distance of the outer two of so many patterns, divided among them and rounded up to an even number. */
  function Even(version: nat, side: nat): nat
    requires side >= 2
  {
    (4 * version + 2 * side + 1) / (2 * side - 2) * 2
  }

  /** The distance of neighbours; version 32 is the one exception. */
  function Spacing(version: nat): nat
    requires version >= 2
  {
    if version == 32 then 26 else Even(version, Side(version))
  }

  ghost predicate AreSpaced(c: seq<nat>, side: nat, last: nat, spacing: nat) {
    && |c| == side >= 2 && c[0] == 6 && c[side - 1] == last && 18 <= c[1]
    && forall i :: 1 <= i < side - 1 ==> c[i + 1] == c[i] + spacing
  }

  lemma Spaced2to6(version: nat)
    requires 2 <= version <= 6
    ensures AreSpaced(AlignmentPatterns(version), 2, 4 * version + 10, Even(version, 2)) && Even(version, 2) >= 12
  {}

  lemma Spaced7to13(version: nat)
    requires 7 <= version <= 13
    ensures AreSpaced(AlignmentPatterns(version), 3, 4 * version + 10, Even(version, 3)) && Even(version, 3) >= 12
  {}

  lemma Spaced14to20(version: nat)
    requires 14 <= version <= 20
    ensures AreSpaced(AlignmentPatterns(version), 4, 4 * version + 10, Even(version, 4)) && Even(version, 4) >= 12
  {}

  lemma Spaced21to27(version: nat)
    requires 21 <= version <= 27
    ensures AreSpaced(AlignmentPatterns(version), 5, 4 * version + 10, Even(version, 5)) && Even(version, 5) >= 12
  {}

  lemma Spaced28to31(version: nat)
    requires 28 <= version <= 31
    ensures AreSpaced(AlignmentPatterns(version), 6, 4 * version + 10, Even(version, 6)) && Even(version, 6) >= 12
  {}

  lemma Spaced32to34(version: nat)
    requires 32 <= version <= 34
    ensures Even(version, 6) >= 12
    ensures AreSpaced(AlignmentPatterns(version), 6, 4 * version + 10, if version == 32 then 26 else Even(version, 6))
  {}

  lemma Spaced35to40(version: nat)
    requires 35 <= version <= 40
    ensures AreSpaced(AlignmentPatterns(version), 7, 4 * version + 10, Even(version, 7)) && Even(version, 7) >= 12
  {}

  /** In every version the first centre is 6, the last lies seven modules from the far edge, and the others are evenly
      spaced before it. */
  lemma CentresEvenlySpaced(version: nat)
    requires 2 <= version <= 40
    ensures AreSpaced(AlignmentPatterns(version), Side(version), Width(version) - 7, Spacing(version))
    ensures Spacing(version) >= 12
  {
    if version <= 6 {
      Spaced2to6(version);
    } else if version <= 13 {
      Spaced7to13(version);
    } else if version <= 20 {
      Spaced14to20(version);
    } else if version <= 27 {
      Spaced21to27(version);
    } else if version <= 31 {
      Spaced28to31(version);
    } else if version <= 34 {
      Spaced32to34(version);
    } else {
      Spaced35to40(version);
    }
  }

  lemma {:induction false} CentresApart(c: seq<nat>, last: nat, spacing: nat, i: nat, j: nat)
    requires AreSpaced(c, |c|, last, spacing) && spacing >= 12 && i < j < |c|
    ensures c[i] + 12 <= c[j]
    decreases j
  {
    if j > 1 {
      if i == j - 1 {
        assert c[i + 1] == c[i] + spacing;
      } else {
        CentresApart(c, last, spacing, i, j - 1);
        assert c[j - 1 + 1] == c[j - 1] + spacing;
      }
    }
  }

  /** Centres in a symbol of width n, so far apart that patterns do not touch. */
  ghost predicate AreApart(c: seq<nat>, n: nat) {
    && (|c| > 0 ==> |c| >= 2 && c[0] == 6 && c[|c| - 1] + 7 == n)
    && forall i, j :: 0 <= i < j < |c| ==> c[i] + 12 <= c[j]
  }

  lemma PatternsApart(version: nat)
    requires 1 <= version <= 40
    ensures AreApart(AlignmentPatterns(version), Width(version)) && |AlignmentPatterns(version)| == Side(version)
  {
    if version >= 2 {
      var c := AlignmentPatterns(version);
      CentresEvenlySpaced(version);
      forall i, j | 0 <= i < j < |c| ensures c[i] + 12 <= c[j] {
        CentresApart(c, Width(version) - 7, Spacing(version), i, j);
      }
    }
  }
}
