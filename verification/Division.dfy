/** Integer division: quotients told from their bounds. */
module Division {

  lemma SmallerFactor(d: int, x: int, y: int)
    requires d > 0 && d * x < d * y
    ensures x < y
  {
  }

  lemma DivUnique(a: int, d: int, q: int)
    requires d > 0 && d * q <= a < d * (q + 1)
    ensures a / d == q
  {
    var r := a / d;
    assert d * r <= a < d * (r + 1);
    assert r < q + 1 && q < r + 1 by { SmallerFactor(d, r, q + 1); SmallerFactor(d, q, r + 1); }
  }

  lemma Scaled(d: nat, x: nat, y: nat)
    requires x <= y
    ensures d * x <= d * y
  {
  }

  lemma Product3(d: nat, p: nat, q: nat)
    ensures d * (p * q) == (d * p) * q
  {
  }

  lemma Positive(d: nat, p: nat)
    requires d > 0 && p > 0
    ensures d * p > 0
  {
  }

  lemma QuotientBounds(n: nat, d: nat)
    requires d > 0
    ensures d * (n / d) <= n && n + 1 <= d * (n / d + 1)
  {
  }

  lemma DivideTwice(n: nat, d: nat, p: nat)
    requires d > 0 && p > 0
    ensures d * p > 0 && n / d / p == n / (d * p)
  {
    var half := n / d;
    var q := half / p;
    Positive(d, p);
    QuotientBounds(n, d);
    QuotientBounds(half, p);
    Scaled(d, p * q, half);
    Scaled(d, half + 1, p * (q + 1));
    Product3(d, p, q);
    Product3(d, p, q + 1);
    DivUnique(n, d * p, q);
  }
}
