/** The smaller of two numbers, and small facts about integer and real multiplication, division and remainder. */
module Arith {

  /** The smaller of two integers. */
  function MinInt(a: int, b: int): int {
    if a <= b then a else b
  }

  /** The smaller of two reals, as Math.min gives for finite arguments. */
  function MinReal(a: real, b: real): real {
    if a <= b then a else b
  }

  /** Integer multiplication by a non-negative factor is monotone. */
  lemma MulMonoInt(a: int, b: int, c: int)
    requires c >= 0
    ensures a <= b ==> a * c <= b * c
  {
  }

  /** A multiple of d other than zero is at least d away from zero. */
  lemma MultipleAwayFromZero(k: int, d: int)
    requires d >= 1
    ensures k >= 1 ==> k * d >= d
    ensures k <= -1 ==> k * d <= -d
  {
    MulMonoInt(1, k, d);
    MulMonoInt(k, -1, d);
  }

  /** Quotient and remainder are the only q, r with n == q * d + r and 0 <= r < d. */
  lemma DivModUnique(n: int, d: int, q: int, r: int)
    requires d >= 1 && 0 <= r < d && n == q * d + r
    ensures n / d == q && n % d == r
  {
    var k := q - n / d;
    assert k * d == n % d - r;
    MultipleAwayFromZero(k, d);
  }

  /** Real multiplication by a non-negative factor is monotone. */
  lemma MulLe(a: real, b: real, c: real)
    requires c >= 0.0 && a <= b
    ensures a * c <= b * c
  {
  }

  /** Real multiplication by a positive factor is strictly monotone. */
  lemma MulLt(a: real, b: real, c: real)
    requires c > 0.0 && a < b
    ensures a * c < b * c
  {
  }

  /** Converting a product to a real is the product of the conversions. */
  lemma CastMul(a: int, b: int)
    ensures (a * b) as real == a as real * b as real
  {
  }
}
