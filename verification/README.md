# Forward-collision warning pipeline, modelled in Dafny

This project models the per-frame decision core of a dash-camera collision warning
system. For each camera frame it runs these stages:

1. A lane gate keeps the detections whose box centre lies in the middle half of the frame.
2. A pinhole-camera estimate gives each detection a distance (`H * f / h`), and a
   distance-only classifier grades it (danger / warning / caution / safe).
3. When enabled, a TTC stage does four things:
   - it keeps a five-sample distance history per coarse identity (class plus 50-pixel
     grid cell of the box centre);
   - it estimates the closing speed from the two newest samples;
   - it computes time-to-collision;
   - it re-grades each detection with a combined TTC/distance tree.
4. When enabled, a motion tracker keeps ten box centres per identity. It scores movement
   over the newest five, normalised by the larger frame side, and judges the ego vehicle
   stopped when the scene is static.
5. The arbitration turns "some object needs an alert" into an audible alert. It applies
   four rules:
   - a further real-risk filter on speed, TTC and distance;
   - a debounce of four consecutive risky frames, released by a single calm frame;
   - a 30-second mute;
   - a vehicle-stopped override.

   While the alert sounds, a warning record for each alerting object goes into an
   in-memory log that keeps the newest 1000 records.

Modules, one file each:
- `Base`: options and the bounded deque.
- `Config`: constants.
- `Detections`: records, risk grading and identities.
- `Distance`, `LaneFilter`, `Ttc`, `Motion`: the stages.
- `WarningLog`: the in-memory log.
- `Arbitration`: the frame loop and its state.

The stages are pure functions over immutable state. The frame loop is
`Arbitration.Step`, which threads a `Pipeline` value from one frame to the next.

Consequences of the code that the model proves:
- The lane filter's "more than half the box inside the band" fallback never changes a
  decision: for every box, the gate is exactly the centre test.
- Every computed TTC of at most 2 s is rated danger. The branch for a short TTC, a slow
  approach and more than 5 m is unreachable, because `distance = ttc * speed` is then
  under 2 m.
- Without a TTC of at most 6 s, an approach of at least 1 m/s gets exactly the
  distance-only grade.
- With the TTC stage switched off, no detection carries a relative speed. An absent speed
  reads as 0, so no object passes the real-risk filter and the alert can never sound.
- The real-risk filter compares the magnitude of the relative speed, so an object that
  is moving away still counts: one 6 m away receding at 2 m/s is graded warning and
  passes the filter.
- From cleared counters, the alert sounds exactly when the last four or more frames were
  risky, the mute is off and the vehicle is not stopped. The "fewer than one calm frame"
  release condition never decides on its own.

Python's floating-point numbers are modelled as Dafny `real`s. Integer pixel coordinates
are `int`s. The grid cell `int(((x1 + x2) / 2) // 50)` is computed as `(x1 + x2) / 100` in
Dafny's flooring division, and `Detections.Bin` proves that this is the floor of the
centre over 50.

## Model

| member | source | states |
|---|---|---|
| Base.LastN | modules/motion_detection_module.py:78 | the result is the last `n` items of the sequence in order, or all of them when there are fewer |
| Base.Push | modules/ttc_module.py:54-60 | appending to a `deque(maxlen=cap)`: `min(len+1, cap)` items, the new item last, nothing dropped while below capacity, and the items before the new one are the newest of the old ones (the oldest evicted when full) |
| Base.PushFull | modules/ttc_module.py:54-60 | a push into a full `deque(maxlen=cap)` drops exactly the oldest item: the result is the old items without the first, then the new one |
| Base.PushAll | modules/motion_detection_module.py:67-74 | repeated appends to a bounded deque never exceed the bound once something has been appended |
| Base.PushKeepsWindow | modules/motion_detection_module.py:67-74 | any number of appends to a deque that respects its bound leaves exactly the last `cap` items appended |
| Base.FileAllContents | modules/motion_detection_module.py:60-74 | filing a frame's samples one by one into a map of bounded deques: an identity has a history afterwards iff it had one or the frame has a sample for it, and that history is the newest `cap` of its old samples followed by the frame's samples for it, in frame order |
| Base.FileAllExtends | modules/ttc_module.py:254-266 | the same for every identity at once: each history after the loop is its old one extended by the frame's samples and trimmed to the bound, and identities with no sample keep their history |
| Config.HeightsCoverAllowList | config/config.py:14-27 | every allow-listed class has a positive real height and the focal length is positive |
| Config.ThresholdsConsistent | config/config.py:30-59 | the distance thresholds and the TTC thresholds are strictly increasing, the lane margins leave a non-empty band, and the release threshold does not exceed the alert threshold |
| Detections.Bin | modules/ttc_module.py:259-262 | the grid index is the floor of the box-centre coordinate divided by 50, negative coordinates included |
| Detections.Identities | modules/motion_detection_module.py:107 | an identity is in the set iff some detection of the frame maps to it |
| Distance.CalculateDistance | modules/distance_module.py:19-39 | unknown iff the pixel height is not positive or the class has no height; otherwise distance times pixel height equals real height times focal length, and the distance is positive |
| Distance.DistanceKnownIffPositiveHeight | modules/distance_module.py:30-39 | with the shipped height table a distance is unknown exactly when the pixel height is not positive, and a known distance is positive |
| Distance.DistanceDecreasesWithHeight | modules/distance_module.py:36-37 | a taller box gives a strictly smaller distance |
| Distance.AssessRiskLevel | modules/distance_module.py:41-88 | unknown iff no distance; danger iff at most 8 m, warning iff in (8, 15], caution iff in (15, 20], safe beyond 20 m; only danger and warning alert; priority is the severity |
| Distance.RiskMonotoneInDistance | modules/distance_module.py:61-88 | a farther object is never graded more severe than a nearer one |
| Distance.ProcessDetections | modules/distance_module.py:90-118 | one output per detection in order, each keeping the detection and carrying its distance and distance-only grade |
| Distance.HasCollisionRisk | modules/distance_module.py:120-133 | true iff some detection needs an alert |
| Distance.GetClosestObject | modules/distance_module.py:135-153 | none iff no alerting detection has a distance; otherwise an alerting detection with a distance that is no farther than any other and strictly nearer than every earlier one (the first minimum) |
| LaneFilter.IsInLane | modules/lane_filter_module.py:22-61 | every box passes when the filter is off; a box whose centre lies in the central band passes |
| LaneFilter.FallbackNeverAccepts | modules/lane_filter_module.py:51-59 | with the filter on, a box passes iff its centre lies in the band: the overlap fallback never accepts a box the centre test rejects |
| LaneFilter.LaneDecisionIgnoresVertical | modules/lane_filter_module.py:37-49 | the decision depends only on the box's horizontal extent and the frame width |
| LaneFilter.FilterDetections | modules/lane_filter_module.py:63-84 | the input unchanged when the filter is off; otherwise a detection is kept iff it is in the input and in the lane, and nothing is added |
| LaneFilter.FilterSplits | modules/lane_filter_module.py:78-82 | filtering a concatenation is the concatenation of the filtered parts: an order-preserving selection |
| Ttc.StoppingDistance | modules/ttc_module.py:25-40 | the braking part (the distance beyond the reaction distance `v * 1.2`) times twice the 6 m/s² deceleration equals the squared speed, i.e. `v t + v^2 / (2 a)`; zero at zero speed and at least the reaction distance at any non-negative speed |
| Ttc.StoppingDistanceMonotone | modules/ttc_module.py:35-38 | a faster ego vehicle never needs less room to stop |
| Ttc.VelocityOf | modules/ttc_module.py:62-75 | zero with fewer than two samples or no time elapsed; otherwise speed times elapsed time equals the drop in distance; positive iff the distance shrank over positive time |
| Ttc.ClosingSpeed | modules/ttc_module.py:62-75 | zero when there is no previous sample or no time has elapsed since it; otherwise speed times elapsed time equals the drop in distance; positive iff the object is nearer than at the previous sample |
| Ttc.PushRecords | modules/ttc_module.py:54-75 | appending a sample to a five-sample history drops the oldest only when full, and the speed read from the two newest samples afterwards is the closing speed against the previous newest sample |
| Ttc.EstimateRelativeVelocity | modules/ttc_module.py:42-75 | the identity's history gains the new sample last, is appended to while shorter than five and otherwise loses exactly its oldest sample, other identities are untouched, and the speed is the closing speed against the previous newest sample: zero without an earlier sample, else the drop in distance over the elapsed time |
| Ttc.EstimateKeepsBounded | modules/ttc_module.py:54-55 | recording a sample keeps every history within five samples |
| Ttc.CalculateTtc | modules/ttc_module.py:77-95 | none iff the object is not approaching; zero at non-positive distance; otherwise positive with TTC times speed equal to distance |
| Ttc.AssessRiskWithTtc | modules/ttc_module.py:97-238 | level and severity pair up as in every assessment, the level is never unknown, the TTC is reported, and a stopping distance is reported iff the ego speed is known and positive, with its value |
| Ttc.ShortTtcSlowIsClose | modules/ttc_module.py:154 | a TTC of at most 2 s with a slow approach forces the distance under 2 m |
| Ttc.ShortTtcIsDanger | modules/ttc_module.py:145-163 | every TTC of at most 2 s is graded danger |
| Ttc.TtcBranchesDecide | modules/ttc_module.py:142-182 | with a TTC of at most 6 s the level is danger up to 2 s, warning up to 4 s unless slow, and caution otherwise, whatever the distance |
| Ttc.DistanceBranchesDecide | modules/ttc_module.py:184-238 | without a TTC of at most 6 s, an approach of at least 1 m/s gets the distance-only grade, and a slower approach (or a receding object) is danger within 5 m, warning up to 8 m, caution up to 20 m and safe beyond |
| Ttc.KnownDistance | modules/ttc_module.py:254-257 | the detections the stage handles: never more than the input, each with a known distance |
| Ttc.KnownDistanceSplits | modules/ttc_module.py:254-257 | skipping detections without a distance is an order-preserving filter: it distributes over concatenation and keeps a single detection exactly when its distance is known |
| Ttc.EntriesReachKnownIds | modules/ttc_module.py:254-266 | the frame files a sample under an identity iff some detection with a known distance has that identity |
| Ttc.AnnotateAll | modules/ttc_module.py:252-279 | the loop emits one output per detection that has a distance |
| Ttc.AnnotateAllOutputs | modules/ttc_module.py:254-281 | the outputs correspond one to one, in order, with the detections that have a distance; each is that detection carrying a measured speed and the TTC-aware grade of its distance and that speed |
| Ttc.AnnotateAllVelocities | modules/ttc_module.py:254-266 | each output carries the closing speed of its detection against its identity's newest sample from earlier frames, and zero when an earlier detection of the same frame already filed a sample for that identity at the same time |
| Ttc.AnnotateAllHistory | modules/ttc_module.py:254-266 | the loop's histories are the old ones with one sample (distance and frame time) filed per detection with a known distance, in frame order, each identity's deque bounded by five |
| Ttc.AnnotateAllBounded | modules/ttc_module.py:54-55 | the loop keeps every history within five samples |
| Ttc.PurgeByClass | modules/ttc_module.py:283-287 | a history survives iff its class occurs among the frame's detections, and surviving histories are unchanged |
| Ttc.LoopHistories | modules/ttc_module.py:254-266 | after the loop an identity has a history iff it had one or was seen with a known distance, and every history is its old one extended by this frame's samples, newest five kept |
| Ttc.ProcessDetectionsWithTtc | modules/ttc_module.py:240-289 | the outputs are the detections with a distance, in order, each with its measured closing speed and the TTC-aware grade; an identity keeps a history iff it was known or seen with a distance and its class occurs in the frame, and each kept history is its old samples followed by this frame's, newest five; an empty frame empties the history; bounds are kept |
| Ttc.ClearHistory | modules/ttc_module.py:291-293 | the history is empty |
| Motion.DefaultsMatchConfig | modules/motion_detection_module.py:12 | the tracker's default history size and threshold equal the configured ones |
| Motion.CalculateCenter | modules/motion_detection_module.py:31-42 | the centre is the midpoint of each pair of corners |
| Motion.UpdateFrameSize | modules/motion_detection_module.py:26-29 | the frame size is set and the histories are untouched |
| Motion.PathLength | modules/motion_detection_module.py:80-86 | the summed step lengths are never negative |
| Motion.StillPathHasZeroLength | modules/motion_detection_module.py:80-86 | a path that never leaves its starting point has length zero |
| Motion.MovementOf | modules/motion_detection_module.py:76-104 | with fewer than three samples: moving, score zero; otherwise the score times the frame size is the path length over the newest five centres, and moving iff the score exceeds 0.02; the centre is the newest one |
| Motion.StillObjectIsStationary | modules/motion_detection_module.py:76-98 | an object seen three or more times whose newest five centres coincide is stationary with score zero |
| Motion.Upsert | modules/motion_detection_module.py:94-104 | the report's identities gain exactly the new one, and the new entry is present |
| Motion.UpsertKeepsUnique | modules/motion_detection_module.py:94-104 | assignment keeps one entry per identity and replaces only the entry of the assigned identity |
| Motion.TrackAgrees | modules/motion_detection_module.py:60-104 | one pass keeps every report entry equal to what its identity's history says |
| Motion.Filed | modules/motion_detection_module.py:67-74 | the identity's history with the detection's sample appended while shorter than ten, and otherwise without its oldest sample |
| Motion.TrackKeys | modules/motion_detection_module.py:60-104 | one pass adds exactly the detection's identity to the report and the histories; that identity's history is its old one with the detection's centre, box and distance pushed (the oldest of ten evicted), and every other history is unchanged |
| Motion.TrackAllAgrees | modules/motion_detection_module.py:60-104 | after the loop every report entry is what its identity's history says |
| Motion.TrackAllKeys | modules/motion_detection_module.py:60-104 | after the loop the report and the histories gain exactly the frame's identities |
| Motion.TrackAllBounded | modules/motion_detection_module.py:67-74 | the loop keeps every history within ten samples |
| Motion.TrackAllHistory | modules/motion_detection_module.py:60-74 | the loop's histories are the old ones with each detection's sample filed under its identity in frame order, ten per identity |
| Motion.TrackAllExtends | modules/motion_detection_module.py:60-74 | every history after the loop is its old samples followed by this frame's samples for that identity, newest ten kept; identities not in the frame keep theirs |
| Motion.KeepActive | modules/motion_detection_module.py:106-108 | the purge keeps the histories of exactly the identities the loop reported, unchanged |
| Motion.LoopMeasures | modules/motion_detection_module.py:56-110 | the loop and the purge leave one report entry per identity of the frame, each what its history says, and histories for exactly those identities, each its old samples followed by this frame's (newest ten) |
| Motion.CalculateMovement | modules/motion_detection_module.py:44-110 | without a frame size, an empty report and no change; otherwise one entry per identity of the frame, each agreeing with its history, histories kept for exactly those identities, each its old samples followed by this frame's samples (newest ten), and bounds kept |
| Motion.ClearHistory | modules/motion_detection_module.py:147-149 | all histories are forgotten and the frame size stays |
| Motion.StationaryCount | modules/motion_detection_module.py:127 | the count of stationary entries never exceeds the number of entries |
| Motion.IsVehicleStopped | modules/motion_detection_module.py:112-145 | never stopped on an empty report; otherwise stopped iff (at least 70% stationary and mean score under 0.01) or (at least three entries and at least 90% stationary), stated without division |
| Motion.AllMovingNotStopped | modules/motion_detection_module.py:127-145 | a scene in which every object moves never reads as stopped |
| Motion.AllStationaryStopped | modules/motion_detection_module.py:141-143 | three or more objects, all stationary, always read as stopped |
| WarningLog.Initialize | modules/logger_module.py:22-54 | the records are untouched; a logger exists afterwards iff one existed or the setup produced one |
| WarningLog.RecordOf | modules/logger_module.py:66-88 | no record iff the distance is unknown, since formatting it fails; otherwise the record carries the detection's class name, distance, level name, confidence, box and the timestamp |
| WarningLog.LogWarning | modules/logger_module.py:56-97 | without a logger or a record nothing changes; otherwise, from a log within capacity, the log is the bounded-deque push of the record |
| WarningLog.Records | modules/logger_module.py:66-94 | never more records than detections |
| WarningLog.RecordsMembers | modules/logger_module.py:66-94 | a record is stored iff some detection of the run yields it |
| WarningLog.RecordsOne | modules/logger_module.py:66-94 | a single detection stores its own record when it has one, and nothing otherwise |
| WarningLog.RecordsSplit | modules/logger_module.py:66-94 | the records of a run are the records of its parts, in order |
| WarningLog.LogAll | modules/logger_module.py:91-94 | without a logger nothing changes, and a log within capacity stays within it |
| WarningLog.LogAllKeepsNewest | modules/logger_module.py:91-94 | however many warnings are logged, the log is exactly the newest 1000 records stored, in order |
| WarningLog.GetWarningLogs | modules/logger_module.py:119-129 | `logs[-limit:]`: always a suffix of the log; the newest `limit` records for a positive limit; the whole log for zero; all but the first `-limit` records for a negative limit |
| WarningLog.ClearLogs | modules/logger_module.py:153-156 | the log is empty and the logger stays |
| Arbitration.ToggleMute | gui/main_window.py:310-324 | the counters are untouched and the mute flips, to a deadline 30 s from now when muting and to no deadline when unmuting |
| Arbitration.ExpireMute | gui/main_window.py:410-414 | once a set deadline has passed, the mute is off and the deadline cleared; before that, or with no deadline, nothing changes; the counters are untouched either way |
| Arbitration.MuteLastsThirtySeconds | gui/main_window.py:320-321 | muting at time t silences alerts exactly while the clock is under t + 30 |
| Arbitration.ToggleTwiceRestores | gui/main_window.py:312-321 | muting and then unmuting restores the unmuted state |
| Arbitration.CountFrame | gui/main_window.py:442-447 | exactly one counter is positive afterwards; a risky frame extends the risk run and a calm frame the safe run |
| Arbitration.CountAll | gui/main_window.py:442-447 | after at least one frame exactly one counter is positive, the risk counter iff the last frame was risky; the mute is untouched (the run lengths themselves are `Arbitration.CountersTrackRuns`) |
| Arbitration.TrailingRun | gui/main_window.py:442-447 | the count is the length of the maximal run of the value that ends the sequence |
| Arbitration.CountersTrackRuns | gui/main_window.py:442-447 | from cleared counters, the risk counter is the number of risky frames since the last calm one and the safe counter the reverse |
| Arbitration.AlertIffRiskRun | gui/main_window.py:449-457 | from cleared counters the alert sounds iff the last four or more frames were risky, the mute is off and the vehicle is not stopped |
| Arbitration.ShouldAlert | gui/main_window.py:449-457 | the alert condition holds iff the risk run is at least four, the current frame is not calm (the release threshold is one), the mute is off and the vehicle is not stopped |
| Arbitration.AnyRealRisk | gui/main_window.py:416-440 | true iff some detection needs an alert, moves at least 0.5 m/s either way, has no TTC over 10 s, and is not a slow (under 1.5 m/s) object beyond 15 m |
| Arbitration.RealRisk | gui/main_window.py:421-438 | a real-risk object needs an alert and carries a measured speed of at least 0.5 m/s in magnitude |
| Arbitration.RecedingCloseIsRealRisk | gui/main_window.py:427-431 | an object 6 m away receding at 2 m/s is graded warning and counts as a real risk, because the speed filter compares magnitudes |
| Arbitration.Alerting | gui/main_window.py:462-464 | exactly the detections that need an alert, in order |
| Arbitration.AlertingSplits | gui/main_window.py:462-464 | selecting the alerting detections is an order-preserving filter: it distributes over concatenation and keeps a single detection exactly when it needs an alert |
| Arbitration.Perceive | gui/main_window.py:380-398 | with the TTC stage off or nothing left after the gate, the outputs are the gated, distance-graded detections and the history is untouched, and with the stage off none carries a speed; otherwise the outputs are the detections with a distance, each with its measured closing speed and TTC-aware grade, an identity keeps a history iff it was known or seen with a distance and its class occurs in the frame, and every history is its old one extended by this frame's samples; bounds are kept |
| Arbitration.DetectStopped | gui/main_window.py:400-408 | with motion off or nothing left, not stopped and the tracker untouched; otherwise the frame size is recorded, the verdict is the stopped test on a movement report that agrees with the new histories, which cover exactly the frame's identities and extend the old ones by this frame's samples; bounds are kept |
| Arbitration.Arbitrate | gui/main_window.py:410-464 | given the stages' results: the risk verdict holds iff some object needs an alert; the real-risk verdict iff some object passes the filter; the counters follow it; the mute is lifted exactly when its deadline has passed; the alert sounds iff the risk run is at least four, the mute is off and the vehicle is not stopped; the log changes only while alerting |
| Arbitration.Step | gui/main_window.py:376-470 | the outputs and the next distance history are those of the perception stages and the stopped verdict and next tracker those of the motion stage; the risk verdict holds iff some object needs an alert; the real-risk verdict iff a real-risk object is present; the counters follow it; the mute is lifted exactly when its deadline has passed; the alert sounds iff the risk run is at least four, the mute is off and the vehicle is not stopped; the log changes only while alerting |
| Arbitration.AlertNeedsRiskThisFrame | gui/main_window.py:449-457 | a frame alerts only if it has a real-risk object of its own |
| Arbitration.WithoutTtcNeverAlerts | gui/main_window.py:421-428 | with the TTC stage off, no frame has a real risk, none alerts and nothing is logged |
| Arbitration.AlertLogsAlertingObjects | gui/main_window.py:459-464 | while alerting, the log becomes the newest 1000 of its records followed by this frame's alerting records |
| Arbitration.StepKeepsHealthy | gui/main_window.py:385-408 | a frame keeps distance histories within five, motion histories within ten and the log within 1000 |
| Arbitration.Launch | gui/main_window.py:37-73 | the window starts with empty histories, no frame size, cleared counters, no mute, and an empty log whose logger exists iff setting it up (line 219) produced one; all bounds hold |
| Arbitration.Stop | gui/main_window.py:326-348 | counters cleared, mute lifted, both histories empty; the frame size and the log stay |
| Arbitration.QuietAfterStop | gui/main_window.py:334-337 | after a stop the next three frames never alert, whatever they contain |
| Arbitration.FourRiskyFramesAlert | gui/main_window.py:442-457 | from an unmuted state, four real-risk frames in a row alert on the fourth unless the vehicle is then stopped |
| Arbitration.OverridesSilence | gui/main_window.py:454-457 | a stopped vehicle, or a mute whose deadline has not passed, silences the frame |

## Left out

- Camera capture, the YOLO detector, drawing, the alert sound, the GUI widgets and the
  FPS counter are I/O. A frame's detections, its size, the clock reading and the warning
  timestamp are inputs of `Arbitration.Frame`.
- The detector's own filtering is outside the model (modules/detection_module.py is context
  only). The model assumes its shape: allow-listed classes, integer corners, and
  `pixel_height = y2 - y1`. Nothing in the model depends on these.
- `np.sqrt` is a parameter `sqrt` of the motion stage. `Motion.IsSqrt` says it is a square
  root on non-negative reals.
- IEEE floating point: all quantities are exact reals, so rounding near thresholds
  (0.02, 0.01, 0.7, 0.9) is not modelled.
- `WarningLog.RecordOf`: each warning record takes its own wall-clock stamp when it is
  formed (modules/logger_module.py:66). The model stamps all records of a frame with the
  frame's one timestamp.
- `WarningLog.GetWarningLogs` takes the limit explicitly. The default of 100 for a caller
  that passes none (modules/logger_module.py:119) is not modelled.
- The frame loop reads the clock twice, once for the TTC stage and once for the mute
  expiry. The model uses one reading per frame.
- The ego speed passed to the TTC stage is always unknown in the loop (`None`). The TTC
  stage itself takes it as a parameter.
- The text log file, the console handler, `log_info`, `log_error` and the JSON export
  are file side effects and are not modelled. So is the "alert cut because the vehicle
  stopped" info message.
- `WarningLog.Initialize`: whether setting up the log directory and handlers produces a
  logger object is a parameter. The exception paths are not modelled separately.
- Detection fields the core never reads (`class_id`, `pixel_width`, the risk colour) are
  dropped. The `dict.get` defaults for a missing class, box or confidence are
  unreachable, because the detector always sets them.
- `is_vehicle_stopped` ignores its `detections` argument. `Motion.IsVehicleStopped` takes
  only the movement report.
- `draw_lane_roi` is drawing only.
- `Motion.CalculateMovement` requires a positive larger frame side. With a zero-sized
  frame the source divides by zero.
- The TTC purge bins box coordinates without halving them. Only the class part of those
  identifiers is compared, so `Ttc.PurgeByClass` works on classes directly.
- `Arbitration.Step` does not restate everything its lemmas prove: the logging and bound
  facts are the separate lemmas `Arbitration.AlertLogsAlertingObjects` and
  `Arbitration.StepKeepsHealthy`.
- `Arbitration.DetectStopped` names the movement report through the motion stage's own
  result. The report is pinned down by `Motion.Measured` only up to the order of its
  entries.
