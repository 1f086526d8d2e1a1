/** Two divisions in a row are one, for any base. */
module Digits {
  lemma DivideTwice(n: nat, b: nat, d: nat)
    requires b > 0 && d > 0
    ensures b * d > 0 && n / b / d == n / (b * d)
  {
    var m, s := n / b, n % b;
    var q, r := m / d, m % d;
    Euclid(n, b);
    Euclid(m, d);
    AtLeast(b, d);
    Split(b, d, q, r);
    Below(b, d, r, s);
    QuotientIs(n, b * d, q, b * r + s);
  }

  lemma Euclid(n: nat, d: nat)
    requires d > 0
    ensures n == d * (n / d) + n % d
  {
  }

  lemma Expand(b: int, x: int, y: int)
    ensures b * (x + y) == b * x + b * y
  {
  }

  lemma AtLeast(b: nat, x: int)
    requires x >= 1
    ensures b * x >= b
  {
  }

  lemma Split(b: nat, d: nat, q: nat, r: nat)
    ensures b * (d * q + r) == (b * d) * q + b * r
  {
    Expand(b, d * q, r);
  }

  lemma Below(b: nat, d: nat, r: nat, s: nat)
    requires r < d && s < b
    ensures b * r + s < b * d
  {
    var x := d - r;
    Expand(b, r, x);
    AtLeast(b, x);
  }

  lemma QuotientIs(n: nat, d: nat, q: nat, t: nat)
    requires d > 0 && n == d * q + t && t < d
    ensures n / d == q
  {
    Euclid(n, d);
    Same(d, n / d, n % d, q, t);
  }

  /** Quotient and remainder are unique. */
  lemma Same(d: nat, p: nat, u: nat, q: nat, t: nat)
    requires d * p + u == d * q + t && u < d && t < d
    ensures p == q
  {
    if p < q {
      Further(d, p, q);
    } else if p > q {
      Further(d, q, p);
    }
  }

  lemma Further(d: nat, p: nat, q: nat)
    requires p < q
    ensures d * q >= d * p + d
  {
    var x := q - p;
    Expand(d, p, x);
    AtLeast(d, x);
  }
}
