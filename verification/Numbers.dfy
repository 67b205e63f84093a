/** Facts about maxima, products, quotients and remainders. */
module Numbers {

  function Max(a: int, b: int): int {
    if a < b then b else a
  }

  lemma MulLe(a: nat, b: nat, n: nat)
    ensures a <= b ==> a * n <= b * n
  {}

  lemma MulLess(a: nat, b: nat, n: nat)
    requires n > 0
    ensures a <= a * n
    ensures a < b ==> a * n < b * n
  {}

  lemma DivModIs(n: nat, v: nat, q: nat, r: nat)
    requires r < n && v == q * n + r
    ensures v / n == q && v % n == r
  {
    MulLe(v / n + 1, q, n);
    MulLe(q + 1, v / n, n);
  }

  lemma AddModulus(v: nat, n: nat)
    requires n > 0
    ensures (v + n) % n == v % n
  {
    DivModIs(n, v + n, v / n + 1, v % n);
  }
}
