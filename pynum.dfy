/**
 * Python's numeric conversions on exact reals: `int(x)` truncates toward zero,
 * `round(x, 3)` rounds half to even, `a // b` floors.  Floats are modelled by the
 * exact decimal values written in the source; see README for what that leaves out.
 */
module PyNum {

  /** Python `int(x)` for a float `x`: truncation toward zero. */
  function Trunc(x: real): (r: int)
    ensures 0.0 <= x ==> r as real <= x < r as real + 1.0
    ensures x <= 0.0 ==> r as real - 1.0 < x <= r as real
  {
    if x >= 0.0 then x.Floor else -((-x).Floor)
  }

  /** Round half to even to an integer, as Python's `round` does. */
  function RoundHalfEven(x: real): (r: int)
    ensures x - 0.5 <= r as real <= x + 0.5
    ensures r as real - x == 0.5 || x - r as real == 0.5 ==> r % 2 == 0
  {
    var f := x.Floor;
    var d := x - f as real;
    if d < 0.5 then f
    else if d > 0.5 then f + 1
    else if f % 2 == 0 then f else f + 1
  }

  /** Python `round(x, 3)`: the nearest multiple of 0.001, ties to the even multiple. */
  function Round3(x: real): (r: real)
    ensures -0.0005 <= r - x <= 0.0005
    ensures (r * 1000.0).Floor as real == r * 1000.0
  {
    RoundHalfEven(x * 1000.0) as real / 1000.0
  }

  lemma RoundHalfEvenMonotone(x: real, y: real)
    requires x <= y
    ensures RoundHalfEven(x) <= RoundHalfEven(y)
  {
    if x.Floor == y.Floor {
      var f := x.Floor;
      if x - f as real == 0.5 && y - f as real == 0.5 {
      } else if x - f as real >= 0.5 {
        assert y - f as real > 0.5;
      }
    }
  }

  /** Rounding to three decimals never reverses the order of two values. */
  lemma Round3Monotone(x: real, y: real)
    requires x <= y
    ensures Round3(x) <= Round3(y)
  {
    RoundHalfEvenMonotone(x * 1000.0, y * 1000.0);
  }

  /** A value that already has at most three decimals is left unchanged by rounding. */
  lemma Round3Exact(k: int)
    ensures Round3(k as real / 1000.0) == k as real / 1000.0
  {
    assert k as real / 1000.0 * 1000.0 == k as real;
  }

  /** Shifting by an even integer commutes with rounding half to even. */
  lemma RoundHalfEvenShift(x: real, m: int)
    ensures RoundHalfEven(x + (2 * m) as real) == RoundHalfEven(x) + 2 * m
  {
    assert (x + (2 * m) as real).Floor == x.Floor + 2 * m;
    assert (x.Floor + 2 * m) % 2 == x.Floor % 2;
  }

  /** Adding a whole number of inches commutes with rounding to three decimals. */
  lemma Round3ShiftWhole(x: real, n: int)
    ensures Round3(x + n as real) == Round3(x) + n as real
  {
    var y := x * 1000.0;
    assert (x + n as real) * 1000.0 == y + (2 * (500 * n)) as real;
    RoundHalfEvenShift(y, 500 * n);
  }
}
