/** math.Round on reals: to the nearest integer, halves away from zero. */
module Rounding {

  function Round(x: real): int {
    if x >= 0.0 then (x + 0.5).Floor else -(0.5 - x).Floor
  }

  // One decimal.
  function Round1(x: real): real {
    Round(x * 10.0) as real / 10.0
  }

  lemma RoundMonotone(x: real, y: real)
    requires x <= y
    ensures Round1(x) <= Round1(y)
  {
    var a, b := x * 10.0, y * 10.0;
    if a >= 0.0 {
      FloorMonotone(a + 0.5, b + 0.5);
    } else if b < 0.0 {
      FloorMonotone(0.5 - b, 0.5 - a);
    } else {
      FloorMonotone(0.5, b + 0.5);
      FloorMonotone(0.5, 0.5 - a);
    }
  }

  lemma FloorMonotone(x: real, y: real)
    requires x <= y
    ensures x.Floor <= y.Floor
  {
  }

  // To the nearest integer; a half goes away from zero.
  lemma RoundIsNearest(x: real)
    ensures x >= 0.0 ==> x - 0.5 < Round(x) as real <= x + 0.5
    ensures x < 0.0 ==> x - 0.5 <= Round(x) as real < x + 0.5
  {
  }

  // To the nearest tenth.
  lemma Round1IsNearest(x: real)
    ensures x - 0.05 <= Round1(x) <= x + 0.05
    ensures x >= 0.0 ==> x - 0.05 < Round1(x)
    ensures InTenths(Round1(x))
  {
    RoundIsNearest(x * 10.0);
    assert Round1(x) * 10.0 == Round(x * 10.0) as real;
  }

  // A whole number of tenths.
  predicate InTenths(x: real) {
    (x * 10.0).Floor as real == x * 10.0
  }
}
