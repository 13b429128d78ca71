/** The detection thresholds and the frame-count threshold derived from the frame rate. */
module Config {

  /** A mouth ratio above this marks a yawning frame. */
  const YawnThreshold: real := 0.8
  /** Number of yawning frames within the window that raises a yawn alert. */
  const YawnAlertCount: nat := 2
  /** Length of the yawn window, in seconds. */
  const TimeWindow: real := 60.0
  /** An eye ratio below this marks a closed-eye frame. */
  const EyeThreshold: real := 0.2
  /** Seconds the eyes must stay closed before a drowsiness alert. */
  const EyeClosedTimeThreshold: real := 2.0
  /** Frame rate assumed when the capture source reports 0. */
  const DefaultFps: real := 30.0

  /** Conversion of a real to an integer by dropping the fraction (toward zero). */
  function TruncateToInt(x: real): (n: int)
    ensures x >= 0.0 ==> 0 <= n && n as real <= x < n as real + 1.0
    ensures x < 0.0 ==> n <= 0 && n as real - 1.0 < x <= n as real
  {
    if x >= 0.0 then x.Floor else -((-x).Floor)
  }

  /**
   * The number of consecutive closed-eye frames that makes a drowsiness
   * episode: the frame rate (30 when reported as 0) times two seconds,
   * truncated to an integer.
   */
  function ClosedEyeFrameThreshold(reportedFps: real): (n: int)
    ensures reportedFps == 0.0 ==> n == 60
    ensures reportedFps > 0.0 ==> 0 <= n && n as real <= 2.0 * reportedFps < n as real + 1.0
    ensures reportedFps < 0.0 ==> n <= 0
  {
    var fps := if reportedFps == 0.0 then DefaultFps else reportedFps;
    TruncateToInt(fps * EyeClosedTimeThreshold)
  }

  /** At 30 frames per second, reported or defaulted, the threshold is 60 frames. */
  lemma ThirtyFpsThreshold()
    ensures ClosedEyeFrameThreshold(0.0) == 60
    ensures ClosedEyeFrameThreshold(30.0) == 60
  {
  }
}
