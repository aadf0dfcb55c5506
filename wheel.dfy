/**
 * `on_mousewheel`: a wheel event's `delta` becomes the number of "units"
 * the bound canvas scrolls, `int(-1 * (delta / 120))`. One notch of a
 * standard wheel reports a delta of 120; scrolling up (positive delta)
 * moves the view up (negative units).
 */
module Wheel {
  import opened PyInt

  /** The wheel delta Windows reports for a single notch. */
  const Notch := 120

  /** Scroll units for one wheel event. */
  function WheelUnits(delta: int): (units: int)
    // opposite sign to delta, or zero
    ensures delta > 0 ==> units <= 0
    ensures delta < 0 ==> units >= 0
    // a partial notch scrolls nothing, and only a partial notch does
    ensures units == 0 <==> -Notch < delta < Notch
    // whole notches only: |units| notches fit in |delta|, |units| + 1 do not
    ensures Abs(units) * Notch <= Abs(delta) < (Abs(units) + 1) * Notch
  {
    TruncDiv(-1 * delta, Notch)
  }

  /** k whole notches scroll exactly k units, against the direction of delta. */
  lemma WheelNotches(k: int)
    ensures WheelUnits(k * Notch) == -k
  {
    assert -1 * (k * Notch) == (-k) * Notch;
    TruncDivExact(-k, Notch);
  }

  /** Reversing the wheel reverses the scroll by the same amount. */
  lemma WheelAntisymmetric(delta: int)
    ensures WheelUnits(-delta) == -WheelUnits(delta)
  {
    TruncDivNeg(-1 * delta, Notch);
  }
}
