/** The JavaScript number operations the sizing engine relies on, stated over
    exact reals: Math.abs, Math.ceil and Number.prototype.toFixed (whose
    result the components read back with Number(...)). */
module Numbers {

  /** Math.abs. */
  function Abs(x: real): (r: real)
    ensures r >= 0.0
    ensures r == x || r == -x
  {
    if x < 0.0 then -x else x
  }

  /** Math.ceil: the least integer that is not below x. */
  function Ceil(x: real): (r: int)
    ensures r as real - 1.0 < x <= r as real
  {
    if x.Floor as real == x then x.Floor else x.Floor + 1
  }

  lemma CeilMonotone(x: real, y: real)
    requires x <= y
    ensures Ceil(x) <= Ceil(y)
  {
  }

  /** Any integer within one below x..x is Ceil(x): the ceiling is unique. */
  lemma CeilUnique(x: real, n: int)
    requires n as real - 1.0 < x <= n as real
    ensures n == Ceil(x)
  {
  }

  /** x * 10^d, by repeated multiplication so that every step is linear. */
  function Shift(x: real, d: nat): real
  {
    if d == 0 then x else 10.0 * Shift(x, d - 1)
  }

  /** x / 10^d. */
  function Unshift(x: real, d: nat): real
  {
    if d == 0 then x else Unshift(x, d - 1) / 10.0
  }

  lemma {:induction false} ShiftMonotone(x: real, y: real, d: nat)
    requires x <= y
    ensures Shift(x, d) <= Shift(y, d)
  {
    if d > 0 {
      ShiftMonotone(x, y, d - 1);
    }
  }

  lemma {:induction false} ShiftIsZeroAtZero(d: nat)
    ensures Shift(0.0, d) == 0.0
  {
    if d > 0 {
      ShiftIsZeroAtZero(d - 1);
    }
  }

  lemma {:induction false} UnshiftMonotone(x: real, y: real, d: nat)
    requires x <= y
    ensures Unshift(x, d) <= Unshift(y, d)
  {
    if d > 0 {
      UnshiftMonotone(x, y, d - 1);
    }
  }

  lemma {:induction false} UnshiftLinear(x: real, y: real, d: nat)
    ensures Unshift(x, d) - Unshift(y, d) == Unshift(x - y, d)
    ensures Unshift(-x, d) == -Unshift(x, d)
    ensures Unshift(10.0 * x, d) == 10.0 * Unshift(x, d)
  {
    if d > 0 {
      UnshiftLinear(x, y, d - 1);
    }
  }

  lemma {:induction false} UnshiftUndoesShift(x: real, d: nat)
    ensures Unshift(Shift(x, d), d) == x
  {
    if d > 0 {
      UnshiftLinear(Shift(x, d - 1), 0.0, d - 1);
      UnshiftUndoesShift(x, d - 1);
    }
  }

  /** The integer nearest y; of two equally near, the larger one. */
  function RoundHalfUp(y: real): (n: int)
    ensures y - 0.5 < n as real <= y + 0.5
  {
    (y + 0.5).Floor
  }

  lemma RoundHalfUpMonotone(y: real, z: real)
    requires y <= z
    ensures RoundHalfUp(y) <= RoundHalfUp(z)
  {
  }

  /** Number(m.toFixed(digits)) for m >= 0: the multiple of 10^-digits
      nearest m, the larger of two equally near. */
  function FixedMagnitude(m: real, digits: nat): real
  {
    Unshift(RoundHalfUp(Shift(m, digits)) as real, digits)
  }

  lemma FixedMagnitudeWithinHalf(m: real, digits: nat)
    ensures Abs(FixedMagnitude(m, digits) - m) <= Unshift(0.5, digits)
  {
    var y := Shift(m, digits);
    var n := RoundHalfUp(y) as real;
    UnshiftUndoesShift(m, digits);
    UnshiftLinear(n, y, digits);
    UnshiftMonotone(n - y, 0.5, digits);
    UnshiftMonotone(-0.5, n - y, digits);
    UnshiftLinear(0.5, 0.0, digits);
  }

  /** Number(x.toFixed(digits)) on the exact value of x: toFixed rounds |x|
      to `digits` decimals (upwards on a tie) and restores the sign. The
      result lies within half a unit of the last kept decimal. */
  function ToFixed(x: real, digits: nat): (r: real)
    ensures Abs(r - x) <= Unshift(0.5, digits)
  {
    FixedMagnitudeWithinHalf(if x < 0.0 then -x else x, digits);
    if x < 0.0 then -FixedMagnitude(-x, digits) else FixedMagnitude(x, digits)
  }

  lemma FixedMagnitudeMonotone(m: real, k: real, digits: nat)
    requires 0.0 <= m <= k
    ensures 0.0 <= FixedMagnitude(m, digits) <= FixedMagnitude(k, digits)
  {
    ShiftMonotone(0.0, m, digits);
    ShiftMonotone(m, k, digits);
    ShiftIsZeroAtZero(digits);
    RoundHalfUpMonotone(0.0, Shift(m, digits));
    RoundHalfUpMonotone(Shift(m, digits), Shift(k, digits));
    UnshiftMonotone(0.0, RoundHalfUp(Shift(m, digits)) as real, digits);
    UnshiftMonotone(RoundHalfUp(Shift(m, digits)) as real, RoundHalfUp(Shift(k, digits)) as real, digits);
    UnshiftLinear(0.0, 0.0, digits);
  }

  lemma ToFixedMonotone(x: real, y: real, digits: nat)
    requires x <= y
    ensures ToFixed(x, digits) <= ToFixed(y, digits)
  {
    if 0.0 <= x {
      FixedMagnitudeMonotone(x, y, digits);
    } else if y < 0.0 {
      FixedMagnitudeMonotone(-y, -x, digits);
    } else {
      FixedMagnitudeMonotone(0.0, -x, digits);
      FixedMagnitudeMonotone(0.0, y, digits);
    }
  }
}
