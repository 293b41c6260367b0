/** Facts about integer multiplication, division and remainder that the layout
    and scene proofs share. Each lemma states one step, so that the proofs
    built on them only ever need linear reasoning about products. Division is
    only ever by a positive divisor, where Dafny's Euclidean `/` and `%`
    coincide with C++ and Python on non-negative numbers. */
module Arith {

  /** A product of non-negative factors is non-negative. */
  lemma MulNonneg(a: int, b: int)
    requires 0 <= a && 0 <= b
    ensures 0 <= a * b
  {
  }

  /** A product of positive factors is positive. */
  lemma MulPositive(a: int, b: int)
    requires 0 < a && 0 < b
    ensures 0 < a * b
  {
  }

  /** One more copy of `m`. */
  lemma MulSucc(a: int, m: int)
    ensures (a + 1) * m == a * m + m
  {
  }

  /** Multiplication distributes over a sum on the left. */
  lemma MulAddLeft(a: int, b: int, m: int)
    ensures (a + b) * m == a * m + b * m
  {
  }

  /** Three factors can be grouped either way. */
  lemma MulAssoc(a: int, b: int, c: int)
    ensures a * b * c == a * (b * c)
  {
  }

  /** A product of non-negative factors grows with its left factor. */
  lemma MulMonoLeft(a: int, b: int, m: int)
    requires 0 <= a <= b && 0 <= m
    ensures a * m <= b * m
  {
    MulAddLeft(a, b - a, m);
    MulNonneg(b - a, m);
  }

  /** In a two-digit mixed radix with `0 <= q < n` and `0 <= r < m`, the
      number `q * m + r` lies in `[0, n * m)`. */
  lemma DigitBound(q: int, r: int, n: int, m: int)
    requires 0 <= q < n && 0 <= r < m
    ensures 0 <= q * m + r < n * m
  {
    MulNonneg(q, m);
    MulSucc(q, m);
    MulMonoLeft(q + 1, n, m);
  }

  /** Dividing a non-negative number by a positive one leaves a
      non-negative quotient and a remainder below the divisor. */
  lemma DivMod(n: int, d: int)
    requires 0 <= n && 0 < d
    ensures 0 <= n / d && 0 <= n % d < d && n == n / d * d + n % d
  {
  }

  /** Quotient and remainder are the only pair that writes `n` as `q * d + r`
      with `0 <= r < d`. */
  lemma {:induction false} DivModUnique(n: int, d: int, q: int, r: int)
    requires 0 <= n && 0 < d && 0 <= q && 0 <= r < d && n == q * d + r
    ensures n / d == q && n % d == r
  {
    var q0, r0 := n / d, n % d;
    assert n == q0 * d + r0;
    if q0 < q {
      MulSucc(q0, d);
      MulMonoLeft(q0 + 1, q, d);
      assert false;
    } else if q < q0 {
      MulSucc(q, d);
      MulMonoLeft(q + 1, q0, d);
      assert false;
    }
  }
}
