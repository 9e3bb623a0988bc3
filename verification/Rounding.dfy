/** Python's round() on exact numbers, and the rounding that its callers describe. */
module Rounding {
  // round(): to the nearest integer, ties to the even one.
  function RoundHalfEven(x: real): (r: int)
    ensures x - 0.5 <= r as real <= x + 0.5
    ensures r as real == x - 0.5 || r as real == x + 0.5 ==> r % 2 == 0
  {
    var f := x.Floor;
    var d := x - f as real;
    if d < 0.5 then f else if d > 0.5 then f + 1 else if f % 2 == 0 then f else f + 1
  }

  lemma RoundMonotone(x: real, y: real)
    requires x <= y
    ensures RoundHalfEven(x) <= RoundHalfEven(y)
  {
  }

  lemma RoundInteger(n: int)
    ensures RoundHalfEven(n as real) == n
  {
  }

  // To the nearest integer, ties away from zero.
  function RoundHalfAway(x: real): (r: int)
    ensures x - 0.5 <= r as real <= x + 0.5
    ensures r as real == x - 0.5 || r as real == x + 0.5 ==> if x >= 0.0 then r as real > x else (r as real) < x
  {
    if x >= 0.0 then (x + 0.5).Floor else -((0.5 - x).Floor)
  }

  predicate IsTie(x: real) {
    x - x.Floor as real == 0.5
  }

  // The neighbour of a tie that is further from zero.
  function AwayNeighbour(x: real): int {
    if x >= 0.0 then x.Floor + 1 else x.Floor
  }

  // The two roundings agree except at ties whose neighbour away from zero is odd.
  lemma RoundingsAgreeIff(x: real)
    ensures RoundHalfEven(x) == RoundHalfAway(x) <==> !IsTie(x) || AwayNeighbour(x) % 2 == 0
  {
    if IsTie(x) {
      assert RoundHalfAway(x) == AwayNeighbour(x);
    }
  }
}
