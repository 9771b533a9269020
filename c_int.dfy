/** Integer arithmetic as C performs it, where it differs from Dafny's. */
module CInt {

  /** C's signed `/` (section 6.5.5 of ISO/IEC 9899:2011): the algebraic
      quotient with any fractional part discarded, i.e. truncated toward
      zero. Dafny's `/` is Euclidean and rounds a negative dividend down
      instead. Only positive divisors occur in this model. */
  function TruncDiv(a: int, b: int): (q: int)
    requires b > 0
    ensures a >= 0 ==> 0 <= q && q * b <= a < q * b + b
    ensures a < 0 ==> q <= 0 && q * b - b < a <= q * b
  {
    if a >= 0 then DivBounds(a, b); a / b else DivBounds(-a, b); -((-a) / b)
  }

  /** Dafny's `/` on a non-negative dividend brackets it between consecutive
      multiples of the divisor. */
  lemma DivBounds(a: int, b: int)
    requires a >= 0 && b > 0
    ensures 0 <= a / b && (a / b) * b <= a < (a / b) * b + b
  {
    var q, r := a / b, a % b;
    assert a == q * b + r && 0 <= r < b;
  }
}
