# Driving drowsiness monitor: fatigue tracker model

This project models the decision logic of a webcam drowsiness monitor.
For every detected face, the monitor computes two ratios from the face's landmark points:

- the mouth aspect ratio (MAR);
- the eye aspect ratio (EAR), averaged over both eyes.

Two trackers then run over these ratios, each with its own alert latch:

- The yawn tracker keeps a log of the moments at which MAR exceeded 0.8, pruned to a 60-second window. It alerts when the log holds at least two entries and the yawn latch is clear.
- The drowsiness tracker counts consecutive frames with EAR below 0.2. It alerts when the count reaches the frame threshold, which is two seconds' worth of frames at the camera's frame rate (30 when the camera reports 0).

Each latch stops a second alert in the same episode. A frame that breaks the raw condition clears the latch.

Modules:

- `Ratios` (ratios.dfy): landmark points, `CalculateMar`, `CalculateEar` and the per-face mean EAR.
- `Config` (config.dfy): the thresholds, and the frame threshold derived from the frame rate with truncation toward zero.
- `YawnWindow` (yawn_window.dfy): `Prune`, the order-preserving filter that keeps the log inside the window, with its lemmas.
- `Detection` (detection.dfy): the per-frame updates as functions of the state (`YawnUpdate`, `DrowsyUpdate`, `StepSpec`).
- `Runs` (runs.dfy): `Run`, which feeds a sequence of frames to the tracker, and the properties that span several frames.
- `Tracker` (tracker.dfy): the class `FatigueTracker`. Its fields are the module-level variables of the source. `Step`, `ProcessFace` and `ProcessFrame` update them in place, and each is proved against `StepSpec` or `Run`.

## Model

| member | source | states |
|---|---|---|
| `Ratios.CalculateMar` | main.py:30-35 | 0 when the corner distance (points 0 and 4) is 0; otherwise the result times that distance is the lip distance (points 3 and 6); 0 exactly when either distance is 0; non-negative for a non-negative distance |
| `Ratios.CalculateEar` | main.py:38-44 | 0 when the corner distance (points 0 and 3) is 0; otherwise the result times twice that distance is the sum of the two lid distances; non-negative and 0 exactly in the degenerate cases for a non-negative distance |
| `Ratios.MeanEar` | main.py:98 | the frame's eye ratio lies between the left and right ratios, equidistant from both |
| `Config.TruncateToInt` | main.py:55 | Python's `int()` on a float: the integer part, dropping the fraction toward zero, for both signs |
| `Config.ClosedEyeFrameThreshold` | main.py:54-55 | a reported frame rate of 0 gives 60 frames; a positive rate gives the integer part of twice the rate; a negative rate gives at most 0 |
| `Config.ThirtyFpsThreshold` | main.py:54-55 | 30 frames per second, reported or defaulted, gives a threshold of 60 frames |
| `YawnWindow.Prune` | main.py:112 | keeps exactly the timestamps t with now - t <= 60, each as often as in the input, and never grows the log |
| `YawnWindow.PruneAppend` | main.py:112 | pruning distributes over concatenation, so survivors keep their relative order |
| `YawnWindow.PruneIsSubsequence` | main.py:112 | the pruned log is a subsequence of the log it came from |
| `YawnWindow.PruneSorted` | main.py:112 | pruning a sorted log leaves it sorted |
| `YawnWindow.PruneIdempotent` | main.py:112 | pruning again at the same moment changes nothing |
| `Detection.YawnUpdate` | main.py:107-128 | a yawning frame leaves the old survivors followed by now, all within 60 s of now; a non-yawning frame keeps the log and clears the latch; an alert fires exactly when the frame is yawning, the pruned log holds at least 2 entries and the latch was clear; the latch is set after an alert |
| `Detection.AlertRunLength` | main.py:133 | the closed-eye run length at which the alert fires: the threshold when it is positive, and 1 otherwise (the first closed-eye frame already meets `count >= threshold`) |
| `Detection.DrowsyUpdate` | main.py:131-142 | a closed-eye frame adds exactly 1 to the count; any other frame resets the count and the latch; an alert fires exactly when the eyes are closed, the new count reaches the threshold and the latch was clear; on a closed-eye frame the latch afterwards is the old latch or the alert; a consistent latch stays consistent, and then the alert fires exactly when the run reaches its alert length |
| `Detection.StepSpec` | main.py:106-142 | one face's update keeps the drowsiness latch consistent with the count |
| `Runs.Run` | main.py:71-72 | feeding frames one by one yields one alert record per frame |
| `Runs.ClosedRunLengthIsLongestSuffix` | main.py:131-132 | the closed-run length is the longest suffix of closed-eye frames |
| `Runs.CountIsClosedRun` | main.py:131-142 | after any frames, the count equals the length of the current unbroken closed-eye run, plus the starting count when the run covers every frame |
| `Runs.RunKeepsDrowsyLatchConsistent` | main.py:131-142 | over any frames, the drowsiness latch stays set exactly when the count has reached the alert length |
| `Runs.DrowsyFiresAtThresholdFrame` | main.py:131-142 | from start-up, the drowsiness alert fires on a frame exactly when the closed-eye run ending there reaches the threshold (at least 1) |
| `Runs.SixtyFiveClosedFrames` | main.py:133-139 | with a threshold of 60, 65 closed-eye frames from start-up alert on the 60th frame and on no other |
| `Runs.DrowsyAtMostOncePerEpisode` | main.py:133-139 | within an unbroken closed-eye run, from any state, at most one drowsiness alert fires |
| `Runs.YawnAtMostOncePerEpisode` | main.py:119-125 | within an unbroken run of yawning frames, from any state, at most one yawn alert fires |
| `Runs.YawnRealertsAfterDip` | main.py:119-128 | a non-yawning frame followed by a yawning frame alerts on the second frame and not the first, when one earlier timestamp is still inside the window |
| `Runs.TwoYawnsWithinWindow` | main.py:107-125 | from an empty, unlatched log, two yawning frames at most 60 s apart (such as at times 0 and 1) alert on the second frame and not the first |
| `Runs.WindowedLogStep` | main.py:107-112 | with a clock that does not go back, one frame keeps the log sorted, no later than the clock, and within 60 s of its newest entry |
| `Runs.RunKeepsWindowedLog` | main.py:107-112 | the same holds over any run of frames with a non-decreasing clock |
| `Tracker.FatigueTracker.constructor` | main.py:49-59 | start-up state: empty log, zero count, both latches clear, threshold from the reported frame rate |
| `Tracker.FatigueTracker.Step` | main.py:106-142 | the fields and returned alerts are those of `StepSpec` on the old fields; the log becomes the pruned old log followed by now on a yawning frame and is kept otherwise; the count is incremented or reset; the latch invariant is kept |
| `Tracker.FatigueTracker.ProcessFace` | main.py:93-98 | computes MAR and the mean EAR from the landmarks and updates the trackers as `StepSpec` does |
| `Tracker.FatigueTracker.ProcessFrame` | main.py:71-72 | processing the faces of a video frame in order equals `Run` over their frames; a frame with no face changes nothing and fires nothing |

## Left out

- Video capture, colour conversion, on-screen text, the window and the key handling are I/O and user interface (main.py:47, 61-69, 100-104, 115-121, 144-159).
- The face-mesh model, the landmark index lists and the scaling to pixel coordinates (main.py:19-20, 74-90) belong to a foreign model. A face enters the model as its three landmark lists.
- Text-to-speech setup and playback (main.py:8-16, 123-124, 137-138, 150-152) are left out, and so are the debug prints that go with each alert (main.py:122, 136). A dispatched alert is the returned `Alerts` flag.
- The Euclidean distance is a parameter of type `(Point, Point) -> real`, because the square root is floating-point numerics. So the scale invariance of the ratios is not modelled.
- Ratios and times are exact reals. Floating-point rounding, NaN and infinities are not modelled.
- `time.time()` becomes a clock reading per face, passed in by the caller. The source reads the clock only on a yawning frame, and the model ignores the reading on other frames. The window invariant assumes the readings do not go back.
- A capture failure that ends the loop (main.py:62-65) is not modelled. The model processes the frames it is given.
- `Ratios.WellFormed` asks for exactly 7 mouth points and 6 points per eye, which is what the frame loop builds. `CalculateMar` and `CalculateEar` ask only for the indices they read.
