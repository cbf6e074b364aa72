/** Facts about integer division by a variable that the solver does not find by itself. */
module Division {

  lemma MulBound(w: int, d: int)
    requires 0 < w
    ensures 1 <= d ==> w <= w * d
    ensures d <= -1 ==> w * d <= -w
  {
  }

  lemma MulDistributes(a: int, b: int, k: int)
    ensures (a + b) * k == a * k + b * k
  {
  }

  // A number has one quotient and one remainder.
  lemma QuotientUnique(n: int, m: int, q: int, r: int)
    requires 0 < m && 0 <= r < m && n == m * q + r
    ensures n / m == q && n % m == r
  {
    var d := q - n / m;
    assert m * d == m * q - m * (n / m);
    MulBound(m, d);
  }

  lemma QuotientAtLeast(n: int, m: int, q: int)
    requires 0 < m && m * q <= n
    ensures q <= n / m
  {
    var d := q - n / m;
    assert m * d == m * q - m * (n / m);
    MulBound(m, d);
  }
}
