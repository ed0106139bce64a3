// The smoothed pointer of the hero effect: each frame the drawn position
// moves a fixed fraction of the way toward where the pointer really is,
// and a velocity accumulator decays and adds the frame's displacement.

module Pointer {

  /** Fraction of the remaining gap closed each frame (CONFIG.MOUSE_LERP). */
  const MOUSE_LERP: real := 0.1
  /** Share of the old velocity kept each frame. */
  const VELOCITY_KEEP: real := 0.85
  /** Weight of the frame's displacement in the velocity. */
  const VELOCITY_GAIN: real := 15.0

  /** Square of a real. */
  function Sq(a: real): (r: real)
    ensures 0.0 <= r
  {
    a * a
  }

  /** One frame of smoothing on one axis. */
  function Lerp(current: real, target: real): (r: real)
    ensures target - r == (1.0 - MOUSE_LERP) * (target - current)
    ensures current <= target ==> current <= r <= target
    ensures target <= current ==> target <= r <= current
  {
    current + (target - current) * MOUSE_LERP
  }

  /** `k` frames of smoothing on one axis toward a fixed target. */
  function LerpFrames(current: real, target: real, k: nat): real
    decreases k
  {
    if k == 0 then current else LerpFrames(Lerp(current, target), target, k - 1)
  }

  /** `b` raised to the power `k`, for a base in (0, 1]. */
  function Power(b: real, k: nat): (r: real)
    requires 0.0 < b <= 1.0
    ensures 0.0 < r <= 1.0
  {
    if k == 0 then 1.0
    else
      var p := Power(b, k - 1);
      assert b * p <= p;
      b * p
  }

  /**
   * After `k` frames with the pointer held still, the gap to the target is
   * 0.9^k of the original gap: the drawn pointer approaches the target
   * geometrically, never overshoots it, and never reaches it unless it
   * started there.
   */
  lemma {:induction false} LerpFramesGap(current: real, target: real, k: nat)
    ensures target - LerpFrames(current, target, k)
            == Power(1.0 - MOUSE_LERP, k) * (target - current)
    ensures current != target ==> LerpFrames(current, target, k) != target
    decreases k
  {
    if k > 0 {
      LerpFramesGap(Lerp(current, target), target, k - 1);
      var p := Power(1.0 - MOUSE_LERP, k - 1);
      calc {
        target - LerpFrames(current, target, k);
        target - LerpFrames(Lerp(current, target), target, k - 1);
        p * (target - Lerp(current, target));
        p * ((1.0 - MOUSE_LERP) * (target - current));
        Power(1.0 - MOUSE_LERP, k) * (target - current);
      }
    }
  }

  /** One frame of the velocity accumulator, given the frame's displacement length. */
  function NextVelocity(velocity: real, displacement: real): (r: real)
    ensures 0.0 <= velocity && 0.0 <= displacement ==> 0.0 <= r
    ensures 0.0 <= displacement ==> VELOCITY_KEEP * velocity <= r
    ensures displacement == 0.0 && 0.0 <= velocity ==> r <= velocity
  {
    velocity * VELOCITY_KEEP + displacement * VELOCITY_GAIN
  }

  /** `r` is the square root of `s` (what `Math.sqrt` returns for `s >= 0`). */
  ghost predicate IsSqrt(r: real, s: real)
  {
    0.0 <= r && r * r == s
  }
}
