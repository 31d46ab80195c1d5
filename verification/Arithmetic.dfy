/** Division by a variable, from the one fact the solver needs help with. */
module Arithmetic {
  lemma DivModSmall(n: nat, k: nat)
    requires n < k
    ensures n / k == 0 && n % k == n
  {
    DivModUnique(n, k, 0, n);
  }

  lemma DivModStep(n: nat, k: nat)
    requires 0 < k <= n
    ensures n / k == (n - k) / k + 1 && n % k == (n - k) % k
  {
    var q, r := (n - k) / k, (n - k) % k;
    assert n == k * (q + 1) + r by { assert k * (q + 1) == k * q + k; }
    DivModUnique(n, k, q + 1, r);
  }

  lemma DivModUnique(n: nat, k: nat, q: nat, r: nat)
    requires n == k * q + r && r < k
    ensures n / k == q && n % k == r
  {
    var q', r' := n / k, n % k;
    assert n == k * q' + r';
    assert k * (q - q') == r' - r by { assert k * (q - q') == k * q - k * q'; }
    if q > q' {
      ProductAtLeast(k, q - q');
    } else if q < q' {
      assert k * (q' - q) == r - r' by { assert k * (q' - q) == k * q' - k * q; }
      ProductAtLeast(k, q' - q);
    }
  }

  lemma ProductAtLeast(m: nat, k: nat)
    requires 0 < k
    ensures m <= m * k
  {}

  lemma MultipleStep(i: nat, k: nat)
    requires 0 < i
    ensures i * k == (i - 1) * k + k
  {}

  lemma QuotientIsPositive(n: nat, k: nat)
    requires 0 < k
    ensures n / k > 0 <==> n >= k
  {
    if n < k {
      DivModSmall(n, k);
    } else {
      DivModStep(n, k);
    }
  }
}
