/** The range of 32-bit numbers, and division with remainder for divisors that are not constants. */
module Arithmetic {

  /** One more than the largest 32-bit number, and half of it. */
  const W: int := 0x1_0000_0000
  const HALF: int := 0x8000_0000

  /** A number written as a multiple and a rest below the divisor shows its quotient and remainder. */
  lemma Quotient(n: int, q: int, m: int, r: int)
    requires n == q * m + r && 0 <= r < m
    ensures n / m == q && n % m == r
  {
    assert n == n / m * m + n % m;
    var d := n / m - q;
    assert d * m == r - n % m;
    assert d >= 1 ==> d * m >= m;
    assert d <= -1 ==> d * m <= -1 * m;
  }
}
