/** Rounding half to even, as Python rounds. */
module Rounding {
  /** round() of a real number: the nearest whole number, the even one of two equally near. */
  function Round(x: real): int {
    var f := x.Floor;
    var rest := x - f as real;
    if rest < 0.5 then f
    else if rest > 0.5 then f + 1
    else if f % 2 == 0 then f
    else f + 1
  }

  lemma RoundIsNear(x: real)
    ensures x - 0.5 <= Round(x) as real <= x + 0.5
    ensures Round(x) as real == x + 0.5 || Round(x) as real == x - 0.5 ==> Round(x) % 2 == 0
  {
    EvenNext(x.Floor);
  }

  lemma EvenNext(f: int)
    ensures f % 2 != 0 ==> (f + 1) % 2 == 0
  {
  }

  lemma RoundIsMonotone(x: real, y: real)
    requires x <= y
    ensures Round(x) <= Round(y)
  {
    assert x.Floor <= y.Floor;
  }

  lemma RoundOfWhole(n: int)
    ensures Round(n as real) == n
  {
  }

  /** Numbers more than one apart, or whole numbers one apart, round to different numbers. */
  lemma RoundSeparates(x: real, y: real)
    requires y - x > 1.0 || (y - x == 1.0 && x == x.Floor as real)
    ensures Round(x) < Round(y)
  {
    RoundIsNear(x);
    RoundIsNear(y);
    if y - x == 1.0 {
      RoundOfWhole(x.Floor);
      RoundOfWhole(x.Floor + 1);
    }
  }
}
