/** Python's `Decimal.quantize(..., rounding=ROUND_HALF_UP)`, counted in whole quanta. */
module Decimals {
  /** Nearest integer; a tie goes away from zero. */
  function HalfUp(x: real): int {
    if x >= 0.0 then (x + 0.5).Floor else -((-x + 0.5).Floor)
  }

  /** Rounding is to a nearest integer, and an exact tie moves away from zero. */
  lemma HalfUpNearest(x: real)
    ensures -0.5 <= HalfUp(x) as real - x <= 0.5
    ensures x >= 0.0 ==> HalfUp(x) as real - x != -0.5
    ensures x < 0.0 ==> HalfUp(x) as real - x != 0.5
  {}

  lemma HalfUpMonotone(x: real, y: real)
    requires x <= y
    ensures HalfUp(x) <= HalfUp(y)
  {}

  lemma HalfUpOfInteger(n: int)
    ensures HalfUp(n as real) == n
  {}

  /** The default rounding of `quantize`, on values that are not negative: a tie goes to the even side. */
  function HalfEven(x: real): int {
    var below := x.Floor;
    var rest := x - below as real;
    if rest < 0.5 || (rest == 0.5 && below % 2 == 0) then below else below + 1
  }

  lemma HalfEvenOfInteger(n: int)
    ensures HalfEven(n as real) == n
  {}
}
