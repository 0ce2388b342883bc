/** Exact arithmetic on Julian Dates and the one-minute sampling grid.
    Julian Dates are exact reals; the source's double rounding is not modelled. */
module JulianTime {

  const MinutesPerDay: real := 1440.0

  /** Mathematical floor, the source's `math.floor` (and `//` on floats). */
  function Floor(x: real): (r: int)
    ensures r as real <= x < r as real + 1.0
  {
    x.Floor
  }

  /** Truncation toward zero, the source's `int()` applied to a float. */
  function Trunc(x: real): (r: int)
    ensures 0.0 <= x ==> 0 <= r && r as real <= x < r as real + 1.0
    ensures x < 0.0 ==> r <= 0 && r as real - 1.0 < x <= r as real
  {
    if x >= 0.0 then x.Floor else -((-x).Floor)
  }

  /** Length of the window in minutes, as a real. */
  function WindowMinutes(startJd: real, endJd: real): real {
    (endJd - startJd) * MinutesPerDay
  }

  /** N, the number of one-minute samples in every altitude curve: the window's
      length floor-divided by one minute, and no samples for an empty or reversed window. */
  function MinuteCount(startJd: real, endJd: real): (n: nat)
    ensures 0.0 <= WindowMinutes(startJd, endJd) ==>
              n as real <= WindowMinutes(startJd, endJd) < n as real + 1.0
    ensures WindowMinutes(startJd, endJd) < 0.0 ==> n == 0
  {
    var f := Floor(WindowMinutes(startJd, endJd));
    if f < 0 then 0 else f
  }
}
