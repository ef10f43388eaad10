/** Minimum, maximum, division and remainder. */
module Arith {

  function Min(a: int, b: int): int { if a < b then a else b }
  function Max(a: int, b: int): int { if a > b then a else b }

  lemma MulMono(a: int, b: int, n: int)
    requires a <= b && 0 <= n
    ensures a * n <= b * n
  {}

  lemma QuotSmaller(q: int, r: int, q': int, r': int, n: int)
    requires q < q' && 0 <= r < n && 0 <= r'
    ensures q * n + r < q' * n + r'
  {
    MulMono(q + 1, q', n);
    assert (q + 1) * n == q * n + n;
  }

  lemma SplitUnique(q: int, r: int, q': int, r': int, n: int)
    requires q * n + r == q' * n + r' && 0 <= r < n && 0 <= r' < n
    ensures q == q' && r == r'
  {
    if q < q' { QuotSmaller(q, r, q', r', n); }
    if q' < q { QuotSmaller(q', r', q, r, n); }
  }

  lemma DivUnique(v: int, a: int, q: int, r: int)
    requires 0 < a && v == q * a + r && 0 <= r < a
    ensures v / a == q && v % a == r
  {
    SplitUnique(q, r, v / a, v % a, a);
  }

  lemma DivNegative(n: int, p: int)
    requires 0 < p
    ensures n / -p == -(n / p)
  {
    var q, r := n / -p, n % -p;
    assert n == q * -p + r && 0 <= r < p;
    assert q * -p == -q * p;
    SplitUnique(-q, r, n / p, n % p, p);
  }

  lemma Distribute(x: int, y: int, n: int)
    ensures (x + y) * n == x * n + y * n
  {}

  lemma Associate(x: int, y: int, n: int)
    ensures x * y * n == x * (y * n)
  {}

  lemma MulPositive(a: int, b: int)
    requires 0 < a && 0 < b
    ensures 0 < a * b
  {}

  /** The remainder by a product is made of the remainder of the quotient and the remainder. */
  lemma ModSplit(v: int, a: int, b: int)
    requires 0 < a && 0 < b
    ensures 0 < a * b && v % (a * b) == v / a % b * a + v % a
    ensures v / a / b == v / (a * b)
  {
    MulPositive(a, b);
    var q, r := v / a, v % a;
    var q', r' := q / b, q % b;
    Regroup(q', r', r, a, b);
    MulMono(r' + 1, b, a);
    Distribute(r', 1, a);
    DivUnique(v, a * b, q', r' * a + r);
  }

  lemma Regroup(q: int, r: int, s: int, a: int, b: int)
    ensures (q * b + r) * a + s == q * (a * b) + (r * a + s)
  {
    Distribute(q * b, r, a);
    Associate(q, b, a);
    assert b * a == a * b;
  }
}
