/** The fixed-point helpers of src/bcmath.js over exact rationals: a value is a `real`, and
    every helper ends in `toFixed`, which rounds half away from zero. */
module Decimal {

  /** The two precisions in use: PRICE_PRECISION, 8 decimals, and RATE_PRECISION, 18. */
  datatype Places = Eight | Eighteen

  /** x in units of the last place. */
  function Units(x: real, d: Places): real {
    match d
    case Eight => x * 1e8
    case Eighteen => x * 1e18
  }

  function OfUnits(k: int, d: Places): real {
    match d
    case Eight => k as real / 1e8
    case Eighteen => k as real / 1e18
  }

  /** Nearest integer, ties away from zero. */
  function Nearest(y: real): int {
    if y >= 0.0 then (y + 0.5).Floor else -(-y + 0.5).Floor
  }

  /** mathjs.format with notation 'fixed': the nearest multiple of the last place. */
  function ToFixed(x: real, d: Places): real { OfUnits(Nearest(Units(x, d)), d) }

  function BcAdd(a: real, b: real, d: Places): real { ToFixed(a + b, d) }

  function BcMul(a: real, b: real, d: Places): real { ToFixed(a * b, d) }

  /** Division by zero yields zero: '0' by the guard, '0.0' through bcnum('Infinity'). */
  function BcDiv(a: real, b: real, d: Places): real {
    if b == 0.0 then 0.0 else ToFixed(a / b, d)
  }

  function BcRound(x: real, d: Places): real { ToFixed(OfUnits((Units(x, d) + 0.5).Floor, d), d) }

  function BcMulFloor(a: real, b: real, d: Places): real { ToFixed(OfUnits(Units(a * b, d).Floor, d), d) }

  predicate IsInt(y: real) { y.Floor as real == y }

  /** x is a multiple of the last place. */
  predicate OnGrid(x: real, d: Places) { IsInt(Units(x, d)) }

  /** Rounding moves a value by at most half a unit in the last place, onto the grid. */
  lemma ToFixedError(x: real, d: Places)
    ensures OnGrid(ToFixed(x, d), d)
    ensures -0.5 <= Units(ToFixed(x, d), d) - Units(x, d) <= 0.5
  {
    assert Units(ToFixed(x, d), d) == Nearest(Units(x, d)) as real;
  }

  /** A value already on the grid is not moved. */
  lemma ToFixedExact(x: real, d: Places)
    requires OnGrid(x, d)
    ensures ToFixed(x, d) == x
  {
    var k := Units(x, d).Floor;
    if k < 0 { assert -(k as real) == (-k) as real; }
    assert Nearest(k as real) == k;
  }

  lemma ToFixedMonotone(x: real, y: real, d: Places)
    requires x <= y
    ensures ToFixed(x, d) <= ToFixed(y, d)
  {
    assert Nearest(Units(x, d)) <= Nearest(Units(y, d));
  }

  lemma OnGridSum(x: real, y: real, d: Places)
    requires OnGrid(x, d) && OnGrid(y, d)
    ensures OnGrid(x + y, d)
    ensures BcAdd(x, y, d) == x + y
  {
    assert Units(x + y, d) == (Units(x, d).Floor + Units(y, d).Floor) as real;
    ToFixedExact(x + y, d);
  }

  /** The satoshi grid lies on the 18-decimal working grid. */
  lemma GridRefines(x: real)
    requires OnGrid(x, Eight)
    ensures OnGrid(x, Eighteen)
  {
    assert Units(x, Eighteen) == (Units(x, Eight).Floor * 10_000_000_000) as real;
  }

  /** `bcround` and `toFixed` agree except at negative midpoints, where flooring rounds up and
      toFixed rounds away from zero. */
  lemma BcRoundVersusToFixed(x: real, d: Places)
    ensures BcRound(x, d) == ToFixed(x, d) <==> x >= 0.0 || !IsInt(Units(x, d) + 0.5)
  {
    var y := Units(x, d);
    var k := (y + 0.5).Floor;
    assert OnGrid(OfUnits(k, d), d) by { assert Units(OfUnits(k, d), d) == k as real; }
    ToFixedExact(OfUnits(k, d), d);
    NearestVersusFloor(y);
  }

  lemma NearestVersusFloor(y: real)
    ensures (y + 0.5).Floor == Nearest(y) <==> y >= 0.0 || !IsInt(y + 0.5)
  {
    if y < 0.0 {
      var k, j := (y + 0.5).Floor, (-y + 0.5).Floor;
      if IsInt(y + 0.5) {
        assert -y + 0.5 == (1 - k) as real;
      } else {
        assert k as real < y + 0.5;
        assert (j + k) as real < 1.0 && (j + k) as real > -1.0;
      }
    }
  }

  lemma Quotient(q: real, n: real, s: real)
    requires s != 0.0 && q == n / s
    ensures q * s == n
  {
  }
}
