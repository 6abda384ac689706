/** Facts about division by a variable. */
module Division {

  lemma Scale(a: int, b: int, u: nat)
    requires a <= b
    ensures a * u <= b * u
  {
  }

  lemma UniqueQuotient(x: int, u: nat, q: int, r: nat)
    requires u >= 1 && r < u && x == u * q + r
    ensures x / u == q && x % u == r
  {
    assert x == u * (x / u) + x % u;
    if q < x / u {
      Scale(q + 1, x / u, u);
    }
    if x / u < q {
      Scale(x / u + 1, q, u);
    }
  }

  lemma QuotientRange(n: nat, u: nat, lo: nat, hi: nat)
    requires u >= 1 && lo * u <= n < hi * u
    ensures lo <= n / u < hi && n == (n / u) * u + n % u
  {
    var q := n / u;
    assert n == q * u + n % u;
    if q < lo {
      Scale(q + 1, lo, u);
    }
    if hi <= q {
      Scale(hi, q, u);
    }
  }

  lemma MultipleRemainder(u: nat, k: int)
    requires u >= 1
    ensures (u * k) / u == k && (u * k) % u == 0
  {
    UniqueQuotient(u * k, u, k, 0);
  }
}
