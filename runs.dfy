/**
 * Sequences of frames: the tracker state and alerts after feeding frames one
 * by one, and the properties of the trackers that span several frames.
 */
module Runs {
  import opened Config
  import opened YawnWindow
  import opened Detection

  /** The final state and the alerts of every frame, in order. */
  datatype Trace = Trace(state: TrackerState, alerts: seq<Alerts>)

  /** Feeds the frames, first to last, to the tracker in state s. */
  function Run(s: TrackerState, threshold: int, frames: seq<Frame>): (r: Trace)
    ensures |r.alerts| == |frames|
    decreases |frames|
  {
    if frames == [] then Trace(s, [])
    else
      var before := Run(s, threshold, frames[..|frames| - 1]);
      var o := StepSpec(before.state, threshold, frames[|frames| - 1]);
      Trace(o.state, before.alerts + [o.alerts])
  }

  /** The number of closed-eye frames at the end of frames, uninterrupted. */
  function ClosedRunLength(frames: seq<Frame>): (n: nat)
    ensures n <= |frames|
    decreases |frames|
  {
    if frames == [] || frames[|frames| - 1].ear >= EyeThreshold then 0
    else ClosedRunLength(frames[..|frames| - 1]) + 1
  }

  /** ClosedRunLength is the longest suffix of closed-eye frames. */
  lemma {:induction false} ClosedRunLengthIsLongestSuffix(frames: seq<Frame>)
    ensures forall k :: |frames| - ClosedRunLength(frames) <= k < |frames| ==> frames[k].ear < EyeThreshold
    ensures ClosedRunLength(frames) < |frames| ==>
              frames[|frames| - 1 - ClosedRunLength(frames)].ear >= EyeThreshold
    decreases |frames|
  {
    if frames != [] && frames[|frames| - 1].ear < EyeThreshold {
      var init := frames[..|frames| - 1];
      ClosedRunLengthIsLongestSuffix(init);
      assert forall k :: 0 <= k < |init| ==> init[k] == frames[k];
    }
  }

  /** The last step of a longer run: the prefix run followed by one frame. */
  lemma {:induction false} RunPrefix(s: TrackerState, threshold: int, frames: seq<Frame>, i: nat)
    requires i < |frames|
    ensures Run(s, threshold, frames).alerts[i] ==
              StepSpec(Run(s, threshold, frames[..i]).state, threshold, frames[i]).alerts
    ensures Run(s, threshold, frames[..i + 1]).state ==
              StepSpec(Run(s, threshold, frames[..i]).state, threshold, frames[i]).state
    ensures Run(s, threshold, frames[..i]).alerts == Run(s, threshold, frames).alerts[..i]
    decreases |frames|
  {
    var n := |frames|;
    assert frames[..i + 1][..i] == frames[..i];
    if i < n - 1 {
      RunPrefix(s, threshold, frames[..n - 1], i);
      assert frames[..n - 1][..i] == frames[..i];
      assert frames[..n - 1][..i + 1] == frames[..i + 1];
    } else {
      assert frames[..i + 1] == frames;
    }
  }

  /**
   * The closed-eye count is the length of the current unbroken run of
   * closed-eye frames, added to the starting count when no frame of the run
   * had open eyes.
   */
  lemma {:induction false} CountIsClosedRun(s: TrackerState, threshold: int, frames: seq<Frame>)
    ensures Run(s, threshold, frames).state.closedEyesFrameCount ==
              if ClosedRunLength(frames) == |frames| then s.closedEyesFrameCount + |frames|
              else ClosedRunLength(frames)
    decreases |frames|
  {
    if frames != [] {
      CountIsClosedRun(s, threshold, frames[..|frames| - 1]);
    }
  }

  /** Every run from a consistent drowsiness latch ends with a consistent latch. */
  lemma {:induction false} RunKeepsDrowsyLatchConsistent(s: TrackerState, threshold: int, frames: seq<Frame>)
    requires DrowsyLatchConsistent(s.closedEyesFrameCount, s.drowsyAlerted, threshold)
    ensures DrowsyLatchConsistent(Run(s, threshold, frames).state.closedEyesFrameCount,
                                  Run(s, threshold, frames).state.drowsyAlerted, threshold)
    decreases |frames|
  {
    if frames != [] {
      RunKeepsDrowsyLatchConsistent(s, threshold, frames[..|frames| - 1]);
    }
  }

  /**
   * From start-up, the drowsiness alert fires on frame i exactly when the
   * closed-eye run ending at frame i has reached the alert length: once per
   * episode, at its threshold-th frame.
   */
  lemma {:induction false} DrowsyFiresAtThresholdFrame(threshold: int, frames: seq<Frame>, i: nat)
    requires i < |frames|
    ensures Run(Initial, threshold, frames).alerts[i].drowsy <==>
              ClosedRunLength(frames[..i + 1]) == AlertRunLength(threshold)
  {
    var prefix := frames[..i];
    RunPrefix(Initial, threshold, frames, i);
    CountIsClosedRun(Initial, threshold, prefix);
    RunKeepsDrowsyLatchConsistent(Initial, threshold, prefix);
    assert frames[..i + 1][..i] == prefix;
  }

  /**
   * With the threshold of 60 frames (30 frames per second, see
   * Config.ClosedEyeFrameThreshold), 65 consecutive closed-eye frames from
   * start-up raise exactly one drowsiness alert, on the 60th frame.
   */
  lemma SixtyFiveClosedFrames(threshold: int, frames: seq<Frame>, i: nat)
    requires threshold == 60
    requires |frames| == 65
    requires forall k :: 0 <= k < |frames| ==> frames[k].ear < EyeThreshold
    requires i < 65
    ensures Run(Initial, threshold, frames).alerts[i].drowsy <==> i == 59
  {
    AllClosedRunLength(frames[..i + 1]);
    DrowsyFiresAtThresholdFrame(threshold, frames, i);
  }

  lemma {:induction false} AllClosedRunLength(frames: seq<Frame>)
    requires forall k :: 0 <= k < |frames| ==> frames[k].ear < EyeThreshold
    ensures ClosedRunLength(frames) == |frames|
    decreases |frames|
  {
    if frames != [] {
      AllClosedRunLength(frames[..|frames| - 1]);
    }
  }

  /** Within an unbroken run of closed-eye frames, the drowsiness alert fires at most once. */
  lemma DrowsyAtMostOncePerEpisode(s: TrackerState, threshold: int, frames: seq<Frame>, i: nat, j: nat)
    requires forall k :: 0 <= k < |frames| ==> frames[k].ear < EyeThreshold
    requires i < j < |frames|
    requires Run(s, threshold, frames).alerts[i].drowsy
    ensures !Run(s, threshold, frames).alerts[j].drowsy
  {
    RunPrefix(s, threshold, frames, j);
    DrowsyLatchHeld(s, threshold, frames[..j], i);
  }

  lemma {:induction false} DrowsyLatchHeld(s: TrackerState, threshold: int, frames: seq<Frame>, i: nat)
    requires forall k :: 0 <= k < |frames| ==> frames[k].ear < EyeThreshold
    requires i < |frames| && Run(s, threshold, frames).alerts[i].drowsy
    ensures Run(s, threshold, frames).state.drowsyAlerted
    decreases |frames|
  {
    var n := |frames|;
    if i < n - 1 {
      DrowsyLatchHeld(s, threshold, frames[..n - 1], i);
    }
  }

  /** Within an unbroken run of yawning frames, the yawn alert fires at most once. */
  lemma YawnAtMostOncePerEpisode(s: TrackerState, threshold: int, frames: seq<Frame>, i: nat, j: nat)
    requires forall k :: 0 <= k < |frames| ==> frames[k].mar > YawnThreshold
    requires i < j < |frames|
    requires Run(s, threshold, frames).alerts[i].yawn
    ensures !Run(s, threshold, frames).alerts[j].yawn
  {
    RunPrefix(s, threshold, frames, j);
    YawnLatchHeld(s, threshold, frames[..j], i);
  }

  lemma {:induction false} YawnLatchHeld(s: TrackerState, threshold: int, frames: seq<Frame>, i: nat)
    requires forall k :: 0 <= k < |frames| ==> frames[k].mar > YawnThreshold
    requires i < |frames| && Run(s, threshold, frames).alerts[i].yawn
    ensures Run(s, threshold, frames).state.yawnAlerted
    decreases |frames|
  {
    var n := |frames|;
    if i < n - 1 {
      YawnLatchHeld(s, threshold, frames[..n - 1], i);
    }
  }

  /**
   * A frame that is not yawning clears the yawn latch, so a yawning frame
   * right after it alerts again when one earlier timestamp is still inside
   * the window.
   */
  lemma YawnRealertsAfterDip(s: TrackerState, threshold: int, dip: Frame, yawn: Frame)
    requires dip.mar <= YawnThreshold && yawn.mar > YawnThreshold
    requires |Prune(s.yawnTimestamps, yawn.now)| + 1 >= YawnAlertCount
    ensures Run(s, threshold, [dip, yawn]).alerts == [Alerts(false, Run(s, threshold, [dip, yawn]).alerts[0].drowsy),
                                                      Alerts(true, Run(s, threshold, [dip, yawn]).alerts[1].drowsy)]
  {
    var afterDip := Run(s, threshold, [dip]);
    assert [dip][..0] == [];
    assert Run(s, threshold, [dip][..0]) == Trace(s, []);
    assert afterDip.state.yawnTimestamps == s.yawnTimestamps && !afterDip.state.yawnAlerted;
    assert [dip, yawn][..1] == [dip];
    assert Run(s, threshold, [dip, yawn]).alerts ==
             afterDip.alerts + [StepSpec(afterDip.state, threshold, yawn).alerts];
  }

  /**
   * Two yawning frames from an empty, unlatched log, the second no more than
   * TimeWindow seconds after the first: no alert on the first, an alert on
   * the second (for example at times 0 and 1).
   */
  lemma TwoYawnsWithinWindow(s: TrackerState, threshold: int, first: Frame, second: Frame)
    requires s.yawnTimestamps == [] && !s.yawnAlerted
    requires first.mar > YawnThreshold && second.mar > YawnThreshold
    requires second.now - first.now <= TimeWindow
    ensures !Run(s, threshold, [first, second]).alerts[0].yawn
    ensures Run(s, threshold, [first, second]).alerts[1].yawn
  {
    assert [first][..0] == [];
    assert Run(s, threshold, [first][..0]) == Trace(s, []);
    var afterFirst := Run(s, threshold, [first]);
    assert Prune([], first.now) == [];
    assert afterFirst.state.yawnTimestamps == [first.now];
    assert [first, second][..1] == [first];
    assert Run(s, threshold, [first, second]).alerts ==
             afterFirst.alerts + [StepSpec(afterFirst.state, threshold, second).alerts];
    assert Prune([first.now], second.now) == [first.now];
  }

  /** The frame clocks are non-decreasing and no earlier than start. */
  ghost predicate ClockFrom(start: real, frames: seq<Frame>)
  {
    (forall k :: 0 <= k < |frames| ==> start <= frames[k].now) &&
    (forall k, l :: 0 <= k < l < |frames| ==> frames[k].now <= frames[l].now)
  }

  /**
   * A well-kept yawn log at clock reading c: sorted, no entry later than c,
   * every entry within the window of the newest one.
   */
  ghost predicate WindowedLog(timestamps: seq<real>, c: real)
  {
    Sorted(timestamps) &&
    (forall k :: 0 <= k < |timestamps| ==> timestamps[k] <= c) &&
    (forall k :: 0 <= k < |timestamps| ==> timestamps[|timestamps| - 1] - timestamps[k] <= TimeWindow)
  }

  lemma WindowedLogStep(timestamps: seq<real>, alerted: bool, c: real, mar: real, now: real)
    requires WindowedLog(timestamps, c) && c <= now
    ensures WindowedLog(YawnUpdate(timestamps, alerted, mar, now).timestamps, now)
  {
    if mar > YawnThreshold {
      var kept := Prune(timestamps, now);
      PruneSorted(timestamps, now);
      var r := kept + [now];
      assert forall k :: 0 <= k < |kept| ==> kept[k] in timestamps;
      forall k, l | 0 <= k < l < |r| ensures r[k] <= r[l] {
        if l == |r| - 1 {
          assert r[k] == kept[k];
        } else {
          assert r[k] == kept[k] && r[l] == kept[l];
        }
      }
    }
  }

  /**
   * With a non-decreasing clock, every run keeps the yawn log sorted, no
   * later than the latest frame, and within the window of its newest entry.
   */
  lemma {:induction false} RunKeepsWindowedLog(s: TrackerState, threshold: int, start: real, frames: seq<Frame>)
    requires WindowedLog(s.yawnTimestamps, start)
    requires ClockFrom(start, frames)
    ensures WindowedLog(Run(s, threshold, frames).state.yawnTimestamps,
                        if frames == [] then start else frames[|frames| - 1].now)
    decreases |frames|
  {
    var n := |frames|;
    if n > 0 {
      var init := frames[..n - 1];
      assert ClockFrom(start, init);
      RunKeepsWindowedLog(s, threshold, start, init);
      var before := Run(s, threshold, init).state;
      WindowedLogStep(before.yawnTimestamps, before.yawnAlerted,
                      if init == [] then start else init[n - 2].now,
                      frames[n - 1].mar, frames[n - 1].now);
    }
  }
}
