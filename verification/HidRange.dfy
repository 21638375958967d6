/** The logical coordinates of the AOA touch screen (foundation/aoa_profile.py). */
module HidRange {

  const MAX_X := 360
  const MAX_Y := 640

  /** The tolerance with which unrounded positions are compared with the range. */
  const SLACK := 0.000001

  function Clamp(n: int, high: int): int {
    if n < 0 then 0 else if n > high then high else n
  }
}
