/**
 * The per-frame update of the yawn tracker and the drowsiness tracker, as
 * functions of the tracker state, the frame's ratios and the clock.
 */
module Detection {
  import opened Config
  import opened Ratios
  import opened YawnWindow

  /** What one detected face contributes to the trackers: its two ratios and the clock reading. */
  datatype Frame = Frame(mar: real, ear: real, now: real)

  /** The alerts fired on one frame. */
  datatype Alerts = Alerts(yawn: bool, drowsy: bool)

  /** All state the trackers keep between frames. */
  datatype TrackerState = TrackerState(
    yawnTimestamps: seq<real>,
    closedEyesFrameCount: nat,
    yawnAlerted: bool,
    drowsyAlerted: bool)

  /** The state at start-up: an empty log, a zero count, both latches clear. */
  const Initial := TrackerState([], 0, false, false)

  /** The frame a well-formed face yields at clock reading now. */
  function FrameOf(face: Face, dist: Distance, now: real): Frame
    requires WellFormed(face)
  {
    Frame(CalculateMar(face.mouth, dist),
          MeanEar(CalculateEar(face.leftEye, dist), CalculateEar(face.rightEye, dist)),
          now)
  }

  datatype YawnOutcome = YawnOutcome(timestamps: seq<real>, alerted: bool, fired: bool)

  /**
   * The yawn tracker on one frame: a yawning frame adds now to the log and
   * prunes it to the window; an alert fires when the log holds
   * YawnAlertCount entries and the latch is clear; a frame that is not
   * yawning keeps the log and clears the latch.
   */
  function YawnUpdate(timestamps: seq<real>, alerted: bool, mar: real, now: real): (r: YawnOutcome)
    ensures mar > YawnThreshold ==> r.timestamps == Prune(timestamps, now) + [now]
    ensures mar > YawnThreshold ==> forall t :: t in r.timestamps ==> now - t <= TimeWindow
    ensures mar <= YawnThreshold ==> r.timestamps == timestamps && !r.alerted && !r.fired
    ensures r.fired <==> mar > YawnThreshold && |r.timestamps| >= YawnAlertCount && !alerted
    ensures r.fired ==> r.alerted
    ensures mar > YawnThreshold ==> (r.alerted <==> alerted || |r.timestamps| >= YawnAlertCount)
  {
    if mar > YawnThreshold then
      var appended := timestamps + [now];
      var pruned := Prune(appended, now);
      PruneAppend(timestamps, [now], now);
      assert Prune([now], now) == [now];
      if |pruned| >= YawnAlertCount && !alerted then YawnOutcome(pruned, true, true)
      else YawnOutcome(pruned, alerted, false)
    else
      YawnOutcome(timestamps, false, false)
  }

  datatype DrowsyOutcome = DrowsyOutcome(count: nat, alerted: bool, fired: bool)

  /** The closed-eye run length at which the drowsiness alert fires (at least one frame). */
  function AlertRunLength(threshold: int): (n: nat)
    ensures n >= 1 && n >= threshold
    ensures threshold >= 1 ==> n == threshold
    ensures threshold < 1 ==> n == 1
  {
    if threshold < 1 then 1 else threshold
  }

  /** The drowsiness latch is set exactly when the closed-eye run has reached its alert length. */
  ghost predicate DrowsyLatchConsistent(count: nat, alerted: bool, threshold: int)
  {
    alerted == (count >= AlertRunLength(threshold))
  }

  /**
   * The drowsiness tracker on one frame: a closed-eye frame increments the
   * count and fires when the count reaches the threshold and the latch is
   * clear; any other frame resets the count and the latch.
   */
  function DrowsyUpdate(count: nat, alerted: bool, ear: real, threshold: int): (r: DrowsyOutcome)
    ensures ear < EyeThreshold ==> r.count == count + 1
    ensures ear >= EyeThreshold ==> r.count == 0 && !r.alerted && !r.fired
    ensures r.fired <==> ear < EyeThreshold && count + 1 >= threshold && !alerted
    ensures r.fired ==> r.alerted
    ensures ear < EyeThreshold ==> r.alerted == (alerted || r.fired)
    ensures DrowsyLatchConsistent(count, alerted, threshold) ==>
              DrowsyLatchConsistent(r.count, r.alerted, threshold) &&
              (r.fired <==> ear < EyeThreshold && count + 1 == AlertRunLength(threshold))
  {
    if ear < EyeThreshold then
      var incremented := count + 1;
      if incremented >= threshold && !alerted then DrowsyOutcome(incremented, true, true)
      else DrowsyOutcome(incremented, alerted, false)
    else
      DrowsyOutcome(0, false, false)
  }

  datatype StepOutcome = StepOutcome(state: TrackerState, alerts: Alerts)

  /** One face's update: the yawn tracker, then the drowsiness tracker. */
  function StepSpec(s: TrackerState, threshold: int, f: Frame): (r: StepOutcome)
    ensures DrowsyLatchConsistent(s.closedEyesFrameCount, s.drowsyAlerted, threshold) ==>
              DrowsyLatchConsistent(r.state.closedEyesFrameCount, r.state.drowsyAlerted, threshold)
  {
    var y := YawnUpdate(s.yawnTimestamps, s.yawnAlerted, f.mar, f.now);
    var d := DrowsyUpdate(s.closedEyesFrameCount, s.drowsyAlerted, f.ear, threshold);
    StepOutcome(TrackerState(y.timestamps, d.count, y.alerted, d.alerted), Alerts(y.fired, d.fired))
  }
}
