/** Products and rounded quotients, as the chain's integer arithmetic needs them. */
module Arithmetic {

  lemma QuotientBounds(n: nat, d: nat)
    requires d > 0
    ensures 0 <= n / d
    ensures (n / d) * d <= n < (n / d + 1) * d
  {
    assert n == (n / d) * d + n % d;
  }

  lemma MulMono(x: int, y: int, k: nat)
    requires x <= y
    ensures x * k <= y * k
  {
  }

  lemma MulMonoStrict(x: int, y: int, k: nat)
    requires x < y && k > 0
    ensures x * k < y * k
  {
  }

  lemma CancelMul(x: int, y: int, k: nat)
    requires x * k <= y * k && k > 0
    ensures x <= y
  {
    if y < x {
      MulMonoStrict(y, x, k);
    }
  }

  lemma CancelMulStrict(x: int, y: int, k: nat)
    requires x * k < y * k
    ensures x < y
  {
    if y <= x {
      MulMono(y, x, k);
    }
  }

  lemma DivModUnique(x: nat, q: nat, r: nat, d: nat)
    requires d > 0 && r < d && x == q * d + r
    ensures x % d == r
  {
    var k := x / d;
    assert x == k * d + x % d;
    if k < q {
      MulMono(k + 1, q, d);
    } else if q < k {
      MulMono(q + 1, k, d);
    }
  }

  lemma QuotientBelow(n: nat, d: nat, k: nat)
    requires d > 0 && n < k * d
    ensures n / d < k
  {
    QuotientBounds(n, d);
    if n / d >= k {
      MulMono(k, n / d, d);
    }
  }

  lemma QuotientMonotone(a: nat, b: nat, d: nat)
    requires a <= b && d > 0
    ensures a / d <= b / d
  {
    QuotientBounds(a, d);
    QuotientBounds(b, d);
    if b / d < a / d {
      MulMono(b / d + 1, a / d, d);
    }
  }

  /** a/b <= c/d when ad <= cb. */
  lemma FractionMonotone(a: nat, b: nat, c: nat, d: nat)
    requires b > 0 && d > 0 && a * d <= c * b
    ensures a / b <= c / d
  {
    QuotientBounds(a, b);
    QuotientBounds(c, d);
    var q, k := a / b, c / d;
    assert q * (b * d) == (q * b) * d;
    assert (k + 1) * (b * d) == ((k + 1) * d) * b;
    if k < q {
      MulMono(k + 1, q, b * d);
      MulMono(q * b, a, d);
      MulMonoStrict(c, (k + 1) * d, b);
    }
  }

  lemma QuotientAtMost(n: nat, d: nat)
    requires d > 0
    ensures 0 <= n / d <= n
  {
    QuotientBounds(n, d);
    if n < n / d {
      MulMono(1, d, n / d);
    }
  }

  lemma QuotientIs(n: nat, d: nat, q: nat)
    requires q * d <= n < (q + 1) * d
    ensures n / d == q
  {
    QuotientBounds(n, d);
    if n / d < q {
      MulMono(n / d + 1, q, d);
    } else if q < n / d {
      MulMono(q + 1, n / d, d);
    }
  }

  lemma MulSwap(q: nat, a: nat, b: nat)
    ensures (q * b) * a == q * (a * b)
  {
  }

  lemma QuotientOfQuotient(n: nat, a: nat, b: nat)
    requires a > 0 && b > 0 && a * b > 0
    ensures (n / a) / b == n / (a * b)
  {
    var m := n / a;
    var q := m / b;
    QuotientBounds(n, a);
    QuotientBounds(m, b);
    MulMono(q * b, m, a);
    MulMono(m + 1, (q + 1) * b, a);
    MulSwap(q, a, b);
    MulSwap(q + 1, a, b);
    QuotientIs(n, a * b, q);
  }
}
