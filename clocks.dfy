/**
 * Time as the system computes with it through moment: epoch milliseconds,
 * and differences in whole units truncated toward zero.
 */
module Clocks {
  /** moment's `diff(other, unit)`: the difference in whole units, truncated toward zero. */
  function TruncDiv(a: int, b: int): (q: int)
    requires b > 0
    ensures q > 0 <==> a >= b
    ensures q > 1 <==> a >= 2 * b
    ensures q < 0 <==> a <= -b
    ensures a >= 0 ==> q * b <= a < (q + 1) * b
  {
    if a >= 0 then a / b else -((-a) / b)
  }
}
