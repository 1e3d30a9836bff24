/**
 * The sweep animator's arithmetic: elapsed time as a fraction of the
 * animation's duration, and the sweep angle a frame uses for a given
 * fraction. Durations and instants are integers in nanoseconds. The
 * aspect-corrected angle (an arctangent of a cosine and a sine) is computed
 * by the caller and comes in as a number in [-180, 180] degrees.
 */
module Animation {

  /** The default animation duration, 500 milliseconds, in nanoseconds. */
  const DEFAULT_DURATION: int := 500_000_000

  /** The fraction of the animation that has elapsed. */
  function Progress(elapsed: int, duration: int): (p: real)
    requires duration > 0
    ensures p * duration as real == elapsed as real
    ensures 0 <= elapsed ==> 0.0 <= p
  {
    elapsed as real / duration as real
  }

  /** The animation is at its end exactly when the elapsed time reaches the duration. */
  lemma ProgressReachesOne(elapsed: int, duration: int)
    requires duration > 0
    ensures Progress(elapsed, duration) >= 1.0 <==> elapsed >= duration
  {
    var e, d := elapsed as real, duration as real;
    var q := e / d;
    assert q * d == e;
    if q >= 1.0 {
      assert q * d >= 1.0 * d;
    } else {
      assert q * d < 1.0 * d;
    }
  }

  /**
   * The sweep angle a frame is drawn with: the whole circle when the
   * animation is off or over, otherwise the aspect-corrected angle brought
   * into [0, 360).
   */
  function SweepAngleAt(animating: bool, progress: real, corrected: real): (r: real)
    requires -180.0 <= corrected <= 180.0
    ensures 0.0 <= r <= 360.0
    ensures !animating || progress >= 1.0 ==> r == 360.0
    ensures animating && progress < 1.0 ==> r < 360.0 && (r == corrected || r == corrected + 360.0)
  {
    if !animating then 360.0
    else if progress >= 1.0 then 360.0
    else if corrected < 0.0 then corrected + 360.0
    else corrected
  }
}
