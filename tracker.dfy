/**
 * The fatigue tracker as the frame loop keeps it: the yawn log, the
 * closed-eye count and the two alert latches, updated in place once per
 * detected face.
 */
module Tracker {
  import opened Config
  import opened Ratios
  import opened YawnWindow
  import opened Detection
  import opened Runs

  /** The frames a list of faces yields, each face with its own clock reading. */
  function FramesOf(faces: seq<Face>, dist: Distance, times: seq<real>): (frames: seq<Frame>)
    requires |times| == |faces|
    requires forall k :: 0 <= k < |faces| ==> WellFormed(faces[k])
    ensures |frames| == |faces|
    ensures forall k :: 0 <= k < |faces| ==> frames[k] == FrameOf(faces[k], dist, times[k])
  {
    seq(|faces|, k requires 0 <= k < |faces| => FrameOf(faces[k], dist, times[k]))
  }

  class FatigueTracker {
    var yawnTimestamps: seq<real>
    var closedEyesFrameCount: nat
    var yawnAlerted: bool
    var drowsyAlerted: bool
    /** Closed-eye frames that make a drowsiness episode, fixed at start-up. */
    const closedEyeFrameThreshold: int

    /** The tracker's fields as a value. */
    function State(): TrackerState
      reads this
    {
      TrackerState(yawnTimestamps, closedEyesFrameCount, yawnAlerted, drowsyAlerted)
    }

    /** Start-up: empty log, zero count, both latches clear, threshold from the reported frame rate. */
    constructor (reportedFps: real)
      ensures State() == Initial
      ensures closedEyeFrameThreshold == ClosedEyeFrameThreshold(reportedFps)
      ensures DrowsyLatchConsistent(closedEyesFrameCount, drowsyAlerted, closedEyeFrameThreshold)
    {
      yawnTimestamps := [];
      closedEyesFrameCount := 0;
      yawnAlerted := false;
      drowsyAlerted := false;
      closedEyeFrameThreshold := ClosedEyeFrameThreshold(reportedFps);
    }

    /** Updates both trackers with one face's ratios and returns the alerts it fires. */
    method Step(mar: real, ear: real, now: real) returns (alerts: Alerts)
      modifies this
      ensures StepSpec(old(State()), closedEyeFrameThreshold, Frame(mar, ear, now)) == StepOutcome(State(), alerts)
      ensures mar > YawnThreshold ==> yawnTimestamps == Prune(old(yawnTimestamps), now) + [now]
      ensures mar <= YawnThreshold ==> yawnTimestamps == old(yawnTimestamps) && !yawnAlerted
      ensures closedEyesFrameCount == if ear < EyeThreshold then old(closedEyesFrameCount) + 1 else 0
      ensures old(DrowsyLatchConsistent(closedEyesFrameCount, drowsyAlerted, closedEyeFrameThreshold)) ==>
                DrowsyLatchConsistent(closedEyesFrameCount, drowsyAlerted, closedEyeFrameThreshold)
    {
      alerts := Alerts(false, false);

      if mar > YawnThreshold {
        yawnTimestamps := yawnTimestamps + [now];
        yawnTimestamps := Prune(yawnTimestamps, now);
        if |yawnTimestamps| >= YawnAlertCount && !yawnAlerted {
          alerts := alerts.(yawn := true);
          yawnAlerted := true;
        }
      } else {
        yawnAlerted := false;
      }

      if ear < EyeThreshold {
        closedEyesFrameCount := closedEyesFrameCount + 1;
        if closedEyesFrameCount >= closedEyeFrameThreshold && !drowsyAlerted {
          alerts := alerts.(drowsy := true);
          drowsyAlerted := true;
        }
      } else {
        closedEyesFrameCount := 0;
        drowsyAlerted := false;
      }
    }

    /** Computes one face's mouth ratio and mean eye ratio and feeds them to Step. */
    method ProcessFace(face: Face, dist: Distance, now: real) returns (alerts: Alerts)
      requires WellFormed(face)
      modifies this
      ensures StepSpec(old(State()), closedEyeFrameThreshold, FrameOf(face, dist, now)) == StepOutcome(State(), alerts)
    {
      var mar := CalculateMar(face.mouth, dist);
      var leftEar := CalculateEar(face.leftEye, dist);
      var rightEar := CalculateEar(face.rightEye, dist);
      var ear := MeanEar(leftEar, rightEar);
      alerts := Step(mar, ear, now);
    }

    /**
     * Processes every face detected in one video frame, in order; a frame
     * with no face leaves the trackers as they were.
     */
    method ProcessFrame(faces: seq<Face>, dist: Distance, times: seq<real>) returns (alerts: seq<Alerts>)
      requires |times| == |faces|
      requires forall k :: 0 <= k < |faces| ==> WellFormed(faces[k])
      modifies this
      ensures Run(old(State()), closedEyeFrameThreshold, FramesOf(faces, dist, times)) == Trace(State(), alerts)
      ensures faces == [] ==> State() == old(State()) && alerts == []
    {
      ghost var frames := FramesOf(faces, dist, times);
      alerts := [];
      for i := 0 to |faces|
        invariant Run(old(State()), closedEyeFrameThreshold, frames[..i]) == Trace(State(), alerts)
      {
        var faceAlerts := ProcessFace(faces[i], dist, times[i]);
        alerts := alerts + [faceAlerts];
        assert frames[..i + 1][..i] == frames[..i];
      }
      assert frames[..|faces|] == frames;
    }
  }
}
