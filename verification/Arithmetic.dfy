/** Facts about products, quotients and remainders that the solver needs one at a time. */
module Arithmetic {

  lemma {:induction false} Multiple(m: nat, d: nat)
    requires d >= 1
    ensures m * d >= m
  {
    if d > 1 {
      Multiple(m, d - 1);
      Distribute(m, d - 1, 1);
    }
  }

  lemma Distribute(m: int, g: int, h: int)
    ensures m * (g + h) == m * g + m * h
  {
  }

  lemma Signs(h: int, n: int)
    ensures (-h) * n == -(h * n) && h * (-n) == -(h * n) && (-h) * (-n) == h * n && h * n == n * h
  {
  }

  lemma MultiplyOrder(b: nat, c: nat, p: nat)
    requires b <= c
    ensures b * p <= c * p && b * p == p * b && c * p == p * c
  {
  }

  lemma Unique(m: int, h: int, r: int, h': int, r': int)
    requires 0 <= r < m && 0 <= r' < m && m * h + r == m * h' + r'
    ensures h == h' && r == r'
  {
    if h > h' {
      Distribute(m, h', h - h');
      Multiple(m, h - h');
      assert false;
    } else if h < h' {
      Distribute(m, h, h' - h);
      Multiple(m, h' - h);
      assert false;
    }
  }

  lemma Remainder(x: int, m: int, h: int, r: int)
    requires 0 <= r < m && x == m * h + r
    ensures x % m == r && x / m == h
  {
    Unique(m, h, r, x / m, x % m);
  }

  /** One more binary digit of a remainder. */
  lemma DivMod(x: int, p: int)
    requires p > 0
    ensures x % (2 * p) == x % p + (x / p % 2) * p
  {
    var q, r := x / p, x % p;
    var h, d := q / 2, q % 2;
    assert x == p * q + r && q == 2 * h + d;
    assert p * q == p * (2 * h) + p * d;
    assert x == (2 * p) * h + (p * d + r);
    assert 0 <= p * d + r < 2 * p by { if d == 0 {} else { assert d == 1; } }
    Remainder(x, 2 * p, h, p * d + r);
  }
}
