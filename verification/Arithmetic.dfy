/** Products and quotients. */
module Arithmetic {
  lemma Scale(d: int, x: int, y: int)
    requires d >= 0
    ensures x <= y ==> d * x <= d * y
  {
  }

  lemma Quotient(a: int, d: int)
    requires d > 0
    ensures d * (a / d) <= a < d * (a / d) + d
  {
  }

  lemma QuotientIs(n: int, d: int, q: int, r: int)
    requires d > 0 && n == d * q + r && 0 <= r < d
    ensures n / d == q
  {
    var p := n / d;
    Quotient(n, d);
    Scale(d, p + 1, q);
    Scale(d, q + 1, p);
    assert d * (p + 1) == d * p + d && d * (q + 1) == d * q + d;
  }

  lemma Distribute(a: int, x: int, y: int)
    ensures a * (x + y) == a * x + a * y
  {
  }

  lemma Regroup(a: int, b: int, c: int)
    ensures a * (b * c) == a * b * c
  {
  }

  lemma PositiveProduct(a: int, b: int)
    requires a > 0 && b > 0
    ensures a * b > 0
  {
  }

  lemma DivDiv(n: int, a: int, b: int)
    requires a > 0 && b > 0
    ensures a * b > 0 && n / a / b == n / (a * b)
  {
    PositiveProduct(a, b);
    var m := n / a;
    var q := m / b;
    var r, s := n - a * m, m - b * q;
    Quotient(n, a);
    Quotient(m, b);
    Distribute(a, b * q, s);
    Regroup(a, b, q);
    Scale(a, s, b - 1);
    Scale(a, 0, s);
    Distribute(a, b, -1);
    QuotientIs(n, a * b, q, a * s + r);
  }
}
