/** Quotient and remainder are unique. */
module Division {

  lemma DivModUnique(n: nat, m: nat, d: int, k: int)
    requires 0 <= k < m && n == m * d + k
    ensures n / m == d && n % m == k
  {
    var d' := n / m;
    assert n == m * d' + n % m;
    assert m * (d - d') == m * d - m * d' && m * (d' - d) == m * d' - m * d;
    if d > d' {
      MulGap(m, d - d');
    } else if d < d' {
      MulGap(m, d' - d);
    }
  }

  lemma MulGap(m: nat, x: int)
    requires x >= 1
    ensures m * x >= m
  {
    assert m * x == m + m * (x - 1);
    assert m * (x - 1) >= 0;
  }
}
