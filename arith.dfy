/** Facts about multiplication and Euclidean division by a positive number
    that the solver does not find by itself. */
module Arith {

  lemma MulAtLeast(x: int, m: int)
    requires x >= 1 && m >= 0
    ensures x * m >= m
  {
    assert x * m == (x - 1) * m + m;
    MulNonNegative(x - 1, m);
  }

  lemma MulNonNegative(x: int, m: int)
    requires x >= 0 && m >= 0
    ensures x * m >= 0
  {
  }

  lemma MulLeft(a: int, b: int, w: int)
    requires a <= b && w >= 0
    ensures a * w <= b * w
  {
    assert b * w - a * w == (b - a) * w;
    MulNonNegative(b - a, w);
  }

  /** Division by a positive number has one quotient for each remainder range. */
  lemma DivUnique(a: int, m: int, q: int, r: int)
    requires m > 0 && 0 <= r < m && a == q * m + r
    ensures a / m == q
  {
    var q', r' := a / m, a % m;
    assert a == q' * m + r';
    if q' < q {
      assert (q - q') * m == r' - r;
      MulAtLeast(q - q', m);
    } else if q' > q {
      assert (q' - q) * m == r - r';
      MulAtLeast(q' - q, m);
    }
  }

  /** The remainder that goes with a quotient. */
  lemma ModOf(a: int, m: int, q: int, r: int)
    requires m > 0 && 0 <= r < m && a == q * m + r
    ensures a % m == r
  {
    DivUnique(a, m, q, r);
  }

  lemma DivMonotone(a: nat, b: nat, m: nat)
    requires m > 0 && a <= b
    ensures a / m <= b / m
  {
    var qa, qb := a / m, b / m;
    assert a == qa * m + a % m && b == qb * m + b % m;
    if qa > qb {
      assert (qa - qb) * m == a - a % m - (b - b % m);
      MulAtLeast(qa - qb, m);
    }
  }

  /** A multiple divided by its factor gives the other factor back. */
  lemma MulDivCancel(n: int, m: int)
    requires m > 0
    ensures n * m / m == n
  {
    DivUnique(n * m, m, n, 0);
  }

  /** A number between 0 and `n * m` divides by `m` to at most `n`. */
  lemma DivAtMost(a: int, n: int, m: int)
    requires m > 0 && 0 <= a <= n * m
    ensures 0 <= a / m <= n
  {
    MulDivCancel(n, m);
    DivMonotone(a, n * m, m);
  }
}
