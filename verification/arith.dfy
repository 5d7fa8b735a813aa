/** Facts about multiplication and Euclidean division that the solver needs spelled out. */
module Arith {

  lemma MulMonotone(n: nat, a: int, b: int)
    requires a <= b
    ensures n * a <= n * b
  {
  }

  lemma MulStep(n: nat, a: int)
    ensures n * (a + 1) == n * a + n
  {
  }

  /** Quotient and remainder are the only ones. */
  lemma DivModUnique(x: int, n: nat, q: int, r: int)
    requires n > 0 && 0 <= r < n && x == n * q + r
    ensures x / n == q && x % n == r
  {
    var q', r' := x / n, x % n;
    assert x == n * q' + r';
    MulStep(n, q);
    MulStep(n, q');
    if q < q' {
      MulMonotone(n, q + 1, q');
    } else if q' < q {
      MulMonotone(n, q' + 1, q);
    }
  }

  lemma DivBounds(x: int, n: nat)
    requires n > 0
    ensures n * (x / n) <= x < n * (x / n) + n
  {
  }

  lemma DivMonotone(a: int, b: int, n: nat)
    requires n > 0 && a <= b
    ensures a / n <= b / n
  {
    DivBounds(a, n);
    DivBounds(b, n);
    MulStep(n, b / n);
    if b / n < a / n {
      MulMonotone(n, b / n + 1, a / n);
    }
  }

  /** Distinct numbers less than `n` apart have distinct remainders. */
  lemma ModUnique(a: nat, b: nat, n: nat)
    requires a <= b < a + n && a % n == b % n
    ensures a == b
  {
    var d := b - a;
    assert a == n * (a / n) + a % n;
    DivModUnique(b, n, b / n, b % n);
    assert d == n * (b / n) - n * (a / n);
    MulStep(n, a / n);
    if a / n < b / n {
      MulMonotone(n, a / n + 1, b / n);
    } else {
      MulMonotone(n, b / n, a / n);
    }
  }

  lemma ModPeriod(x: nat, n: nat)
    requires n > 0
    ensures (x + n) % n == x % n
  {
    MulStep(n, x / n);
    DivModUnique(x + n, n, x / n + 1, x % n);
  }
}
