/** Facts about division that the solver does not find by itself. */
module Arithmetic {

  lemma SmallMultiple(k: int, d: nat, e: int)
    requires k * d == e && e < d && -e < d
    ensures k == 0
  {}

  /** A number written as a multiple and a rest. */
  lemma DivisionIs(a: nat, n: nat, q: nat, r: nat)
    requires a == n * q + r && r < n
    ensures a / n == q
  {
    var k := q - a / n;
    assert a == a / n * n + a % n;
    assert k * n == a % n - r;
    SmallMultiple(k, n, a % n - r);
  }

  /** Dividing by two first. */
  lemma DivideTwice(v: nat, p: nat)
    requires p > 0
    ensures v / 2 / p == v / (2 * p)
  {
    var h, b := v / 2, v % 2;
    var q, r := h / p, h % p;
    assert h == p * q + r;
    assert v == 2 * h + b == 2 * (p * q) + (2 * r + b);
    assert 2 * (p * q) == (2 * p) * q;
    DivisionIs(v, 2 * p, q, 2 * r + b);
  }

  lemma OddIs(n: nat, q: nat)
    requires n == 2 * q + 1
    ensures n % 2 == 1
  {}
}
