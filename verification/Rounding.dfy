/** Python's `round`: to the nearest integer, a tie going to the even neighbour.
    Scores are kept as whole numbers of their last decimal place, so `round(x, 3)`
    of a score is `RoundHalfEven` of the same score counted in thousandths. */
module Rounding {

  function RoundHalfEven(x: real): (r: int)
    ensures -0.5 <= r as real - x <= 0.5
    ensures r as real - x == 0.5 || x - r as real == 0.5 ==> r % 2 == 0
  {
    var below := x.Floor;
    var rest := x - below as real;
    if rest < 0.5 then below
    else if rest > 0.5 then below + 1
    else if below % 2 == 0 then below
    else below + 1
  }

  /** The two promises above leave no choice of result. */
  lemma RoundIsDetermined(x: real, r: int)
    requires -0.5 <= r as real - x <= 0.5
    requires r as real - x == 0.5 || x - r as real == 0.5 ==> r % 2 == 0
    ensures r == RoundHalfEven(x)
  {
  }

  lemma RoundKeepsOrder(x: real, y: real)
    requires x <= y
    ensures RoundHalfEven(x) <= RoundHalfEven(y)
  {
  }
}
