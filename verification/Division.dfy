/** Division by a number that is not a constant. */
module Division {
  lemma Quotient(n: nat, d: nat, q: nat)
    requires d >= 1 && q * d <= n < q * d + d
    ensures n / d == q
  {
    var q', r := n / d, n % d;
    assert n == d * q' + r;
    if q' > q {
      Multiples(q', q, d);
    } else if q' < q {
      Multiples(q, q', d);
    }
  }

  lemma Multiples(m: nat, n: nat, d: nat)
    requires m > n
    ensures m * d >= n * d + d
  {
    assert (m - n) * d == m * d - n * d;
    Multiple(m - n, d);
  }

  lemma Multiple(k: nat, d: nat)
    requires k >= 1
    ensures k * d >= d
  {
  }

  lemma Rest(q: nat, d: nat, r: nat)
    requires r < d
    ensures (q * d + r) % d == r
  {
    Quotient(q * d + r, d, q);
    var n := q * d + r;
    assert n == d * (n / d) + n % d;
  }

  lemma Split(n: nat, d: nat)
    requires d > 0
    ensures n == (n / d) * d + n % d
  {
  }

  lemma Parts(n: nat, d: nat) returns (q: nat, r: nat)
    requires d > 0
    ensures n == q * d + r && r < d && n % d == r
  {
    Split(n, d);
    q, r := n / d, n % d;
  }
}
