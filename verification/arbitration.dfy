/** The frame loop of the main window: lane gate, distance stage, TTC stage, motion
    tracker, and the arbitration that turns per-object risk into an audible alert —
    a consecutive-frame debounce, a 30-second mute, the vehicle-stopped override, and
    the warning log written while the alert sounds. Camera, detector, drawing and
    audio are outside the model; the detector's output, the frame size and the clock
    are inputs of a frame. */
module Arbitration {
  import opened Base
  import opened Config
  import opened Detections
  import Distance
  import LaneFilter
  import Ttc
  import Motion
  import WarningLog

  /** How long the mute button silences alerts, in seconds. */
  const MuteDuration: real := 30.0

  /** Beyond this distance a slow approach (below `FarMinVelocity`) is not a real risk. */
  const FarDistance: real := 15.0
  const FarMinVelocity: real := 1.5

  /** The arbitration state: the two run counters and the mute with its deadline
      (0 meaning no deadline). */
  datatype AlertState = AlertState(riskCount: nat, safeCount: nat, muted: bool, muteUntil: real)

  function InitialAlert(): (a: AlertState)
    ensures a.riskCount == 0 && a.safeCount == 0 && !a.muted && a.muteUntil == 0.0
  {
    AlertState(0, 0, false, 0.0)
  }

  /** The mute button: mutes until thirty seconds from now, or unmutes. */
  function ToggleMute(a: AlertState, now: real): (r: AlertState)
    ensures r.riskCount == a.riskCount && r.safeCount == a.safeCount
    ensures r.muted <==> !a.muted
    ensures r.muted ==> r.muteUntil == now + MuteDuration
    ensures !r.muted ==> r.muteUntil == 0.0
  {
    if a.muted then a.(muted := false, muteUntil := 0.0)
    else a.(muted := true, muteUntil := now + MuteDuration)
  }

  /** Once a set deadline has passed, the mute is lifted and the deadline cleared. */
  function ExpireMute(a: AlertState, now: real): (r: AlertState)
    ensures r.riskCount == a.riskCount && r.safeCount == a.safeCount
    ensures a.muteUntil > 0.0 && now >= a.muteUntil ==> !r.muted && r.muteUntil == 0.0
    ensures !(a.muteUntil > 0.0 && now >= a.muteUntil) ==> r == a
  {
    if a.muteUntil > 0.0 && now >= a.muteUntil then a.(muted := false, muteUntil := 0.0) else a
  }

  /** Pressing mute at a (non-negative) time `t` silences alerts exactly until `t + 30`. */
  lemma MuteLastsThirtySeconds(a: AlertState, t: real, now: real)
    requires !a.muted && t >= 0.0
    ensures ExpireMute(ToggleMute(a, t), now).muted <==> now < t + MuteDuration
  {
  }

  /** Pressing mute twice restores an unmuted state exactly. */
  lemma ToggleTwiceRestores(a: AlertState, t1: real, t2: real)
    requires !a.muted && a.muteUntil == 0.0
    ensures ToggleMute(ToggleMute(a, t1), t2) == a
  {
  }

  /** A frame's risk verdict moves the counters: a risky frame extends the risk run and
      resets the safe run, a calm frame the other way round. */
  function CountFrame(a: AlertState, risky: bool): (r: AlertState)
    ensures r.muted == a.muted && r.muteUntil == a.muteUntil
    ensures (r.riskCount > 0) != (r.safeCount > 0)
    ensures risky ==> r.riskCount == a.riskCount + 1
    ensures !risky ==> r.safeCount == a.safeCount + 1
  {
    if risky then a.(riskCount := a.riskCount + 1, safeCount := 0)
    else a.(riskCount := 0, safeCount := a.safeCount + 1)
  }

  /** The counters after a run of frame verdicts, oldest first. */
  function CountAll(a: AlertState, bs: seq<bool>): (r: AlertState)
    ensures r.muted == a.muted && r.muteUntil == a.muteUntil
    ensures |bs| > 0 ==> (r.riskCount > 0) != (r.safeCount > 0)
    ensures |bs| > 0 ==> (r.riskCount > 0 <==> bs[|bs| - 1])
    decreases |bs|
  {
    if |bs| == 0 then a else CountFrame(CountAll(a, bs[..|bs| - 1]), bs[|bs| - 1])
  }

  /** The length of the run of `b` that ends `bs`. */
  function TrailingRun(bs: seq<bool>, b: bool): (n: nat)
    ensures n <= |bs|
    ensures forall i :: |bs| - n <= i < |bs| ==> bs[i] == b
    ensures n < |bs| ==> bs[|bs| - 1 - n] != b
    decreases |bs|
  {
    if |bs| == 0 || bs[|bs| - 1] != b then 0
    else
      var front := bs[..|bs| - 1];
      var n := TrailingRun(front, b);
      assert forall i :: 0 <= i < |front| ==> front[i] == bs[i];
      n + 1
  }

  /** From cleared counters, the risk counter is the number of risky frames since the
      last calm one and the safe counter the number of calm frames since the last risky
      one. */
  lemma {:induction false} CountersTrackRuns(a: AlertState, bs: seq<bool>)
    requires a.riskCount == 0 && a.safeCount == 0
    ensures CountAll(a, bs).riskCount == TrailingRun(bs, true)
    ensures CountAll(a, bs).safeCount == TrailingRun(bs, false)
    decreases |bs|
  {
    if |bs| > 0 {
      CountersTrackRuns(a, bs[..|bs| - 1]);
    }
  }

  /** The alert condition: enough risky frames in a row, not muted, not stopped, and
      fewer calm frames in a row than the release threshold. */
  function ShouldAlert(a: AlertState, stopped: bool): (r: bool)
    ensures r <==> a.riskCount >= ConsecutiveRiskThreshold && a.safeCount == 0 && !a.muted && !stopped
  {
    && a.riskCount >= ConsecutiveRiskThreshold
    && !a.muted
    && !stopped
    && a.safeCount < ConsecutiveSafeThreshold
  }

  /** From cleared counters, the alert sounds exactly when the last four (or more) frames
      were all risky, the mute is off and the vehicle is not stopped: the release
      threshold never decides anything on its own. */
  lemma AlertIffRiskRun(a: AlertState, bs: seq<bool>, stopped: bool)
    requires a.riskCount == 0 && a.safeCount == 0
    ensures ShouldAlert(CountAll(a, bs), stopped)
        <==> TrailingRun(bs, true) >= ConsecutiveRiskThreshold && !a.muted && !stopped
  {
    CountersTrackRuns(a, bs);
    if TrailingRun(bs, true) > 0 {
      assert bs[|bs| - 1];
    }
  }

  /** The further filter on alerting objects: an object whose relative speed is under
      0.5 m/s (an absent speed reads as 0), whose TTC exceeds 10 s, or which is farther
      than 15 m while approaching under 1.5 m/s does not count. */
  function RealRisk(p: Processed): (r: bool)
    ensures r ==> p.risk.needsAlert && p.relativeVelocity.Some? && Abs(p.relativeVelocity.value) >= MinVelocityForAlert
  {
    var v := Abs(p.relativeVelocity.GetOr(0.0));
    && p.risk.needsAlert
    && !(v < MinVelocityForAlert || (p.risk.ttc.Some? && p.risk.ttc.value > MaxTtcForAlert))
    && !(p.distance.Some? && p.distance.value > FarDistance && v < FarMinVelocity)
  }

  /** The scan for the first real-risk object. */
  function AnyRealRisk(ps: seq<Processed>): (r: bool)
    ensures r <==> exists i :: 0 <= i < |ps| && RealRisk(ps[i])
  {
    if |ps| == 0 then false
    else if RealRisk(ps[0]) then true
    else
      var rest := AnyRealRisk(ps[1..]);
      assert forall i :: 1 <= i < |ps| ==> ps[i] == ps[1..][i - 1];
      rest
  }

  /** The detections whose risk needs an alert, in frame order: what the alert logs. */
  function Alerting(ps: seq<Processed>): (r: seq<Processed>)
    ensures |r| <= |ps|
    ensures forall x :: x in r <==> x in ps && x.risk.needsAlert
  {
    if |ps| == 0 then []
    else
      var rest := Alerting(ps[1..]);
      assert forall x :: x in ps <==> x == ps[0] || x in ps[1..];
      if ps[0].risk.needsAlert then [ps[0]] + rest else rest
  }

  /** Selecting the alerting detections distributes over concatenation and keeps a single
      detection exactly when it needs an alert: an order-preserving filter that drops
      nothing else. */
  lemma {:induction false} AlertingSplits(a: seq<Processed>, b: seq<Processed>)
    ensures Alerting(a + b) == Alerting(a) + Alerting(b)
    ensures |a| == 1 ==> Alerting(a) == if a[0].risk.needsAlert then a else []
    decreases |a|
  {
    if |a| == 0 {
      assert a + b == b;
    } else {
      var c := a + b;
      assert c[0] == a[0] && c[1..] == a[1..] + b;
      AlertingSplits(a[1..], b);
      var head := if a[0].risk.needsAlert then [a[0]] else [];
      assert Alerting(c) == head + Alerting(a[1..] + b);
      assert Alerting(a) == head + Alerting(a[1..]);
      assert head + (Alerting(a[1..]) + Alerting(b)) == (head + Alerting(a[1..])) + Alerting(b);
      if |a| == 1 {
        assert a[1..] == [];
      }
    }
  }

  /** A receding object graded warning still counts: the speed filter compares the
      magnitude of the relative speed, so an object 6 m away moving off at 2 m/s passes
      it like one closing at 2 m/s. */
  lemma RecedingCloseIsRealRisk(p: Processed)
    requires p.distance == Some(6.0) && p.relativeVelocity == Some(-2.0)
    requires p.risk == Ttc.AssessRiskWithTtc(6.0, -2.0, None)
    ensures p.risk.level == Warning && p.risk.needsAlert
    ensures RealRisk(p)
  {
    Ttc.DistanceBranchesDecide(6.0, -2.0, None);
  }

  /** Which optional stages run (the configuration switches). */
  datatype Settings = Settings(laneFilter: bool, ttc: bool, motion: bool)

  /** Everything the loop carries from one frame to the next. */
  datatype Pipeline = Pipeline(
    ttcHistory: Ttc.DistanceHistory,
    tracker: Motion.Tracker,
    alert: AlertState,
    log: WarningLog.Logger)

  /** One camera frame: the detector's output, the frame size, the clock reading and the
      wall-clock stamp a warning record carries. */
  datatype Frame = Frame(detections: seq<Detection>, width: int, height: int, now: real, timestamp: string)

  /** A frame's result: the next state, the annotated detections, and the verdicts. */
  datatype Outcome = Outcome(
    next: Pipeline,
    processed: seq<Processed>,
    hasRisk: bool,
    realRisk: bool,
    stopped: bool,
    alert: bool)

  /** The detections after the lane gate and the distance stage. */
  function Gated(s: Settings, f: Frame): seq<Processed> {
    Distance.ProcessDetections(LaneFilter.FilterDetections(s.laneFilter, f.detections, f.width, f.height))
  }

  /** Lane gate, distance stage and, when enabled and something is left, the TTC stage
      (the ego speed is never known, so it is `None`). */
  function Perceive(hist: Ttc.DistanceHistory, s: Settings, f: Frame): (r: Ttc.TtcFrame)
    ensures !s.ttc || |Gated(s, f)| == 0 ==> r.processed == Gated(s, f) && r.history == hist
    ensures !s.ttc ==> forall i :: 0 <= i < |r.processed| ==> r.processed[i].relativeVelocity.None?
    ensures s.ttc && |Gated(s, f)| > 0 ==>
      var known := Ttc.KnownDistance(Gated(s, f));
      && Ttc.AllAnnotated(r.processed, known, None)
      && Ttc.VelocitiesMeasured(r.processed, hist, known, f.now)
      && Extended(hist, Ttc.TtcEntries(Gated(s, f), f.now), Ttc.HistorySize, r.history)
      && (forall k :: k in r.history <==>
            (k in hist || k in Ttc.KnownIds(Gated(s, f))) && Ttc.ClassPresent(k.cls, Gated(s, f)))
    ensures Ttc.Bounded(hist) ==> Ttc.Bounded(r.history)
  {
    var ps := Gated(s, f);
    if s.ttc && |ps| > 0 then Ttc.ProcessDetectionsWithTtc(hist, ps, f.now, None)
    else Ttc.TtcFrame(ps, hist)
  }

  /** The motion stage: when enabled and something is left, record the frame size, score
      movement and judge whether the vehicle is stopped; otherwise "not stopped". */
  function DetectStopped(t: Motion.Tracker, s: Settings, ps: seq<Processed>, f: Frame, sqrt: real -> real): (r: (bool, Motion.Tracker))
    requires Motion.IsSqrt(sqrt)
    requires f.width > 0 || f.height > 0
    ensures !s.motion || |ps| == 0 ==> r == (false, t)
    ensures s.motion && |ps| > 0 ==>
      var size := Motion.FrameSize(f.width, f.height);
      var info := Motion.CalculateMovement(Motion.UpdateFrameSize(t, f.width, f.height), ps, sqrt).0;
      && r.0 == Motion.IsVehicleStopped(info)
      && r.1.frameSize == Some(size)
      && Motion.Measured(t.history, ps, Motion.Extent(size), sqrt, info, r.1.history)
    ensures Motion.Bounded(t.history) ==> Motion.Bounded(r.1.history)
  {
    if s.motion && |ps| > 0 then
      var t1 := Motion.UpdateFrameSize(t, f.width, f.height);
      var m := Motion.CalculateMovement(t1, ps, sqrt);
      (Motion.IsVehicleStopped(m.0), m.1)
    else (false, t)
  }

  /** The arbitration half of a frame, given what the stages made of it: mute expiry,
      the risk and real-risk verdicts, the counters, the alert decision, and the log. */
  function Arbitrate(p: Pipeline, f: Frame, seen: Ttc.TtcFrame, motion: (bool, Motion.Tracker)): (o: Outcome)
    ensures o.processed == seen.processed && o.next.ttcHistory == seen.history
    ensures o.stopped == motion.0 && o.next.tracker == motion.1
    ensures o.hasRisk <==> exists i :: 0 <= i < |o.processed| && o.processed[i].risk.needsAlert
    ensures o.realRisk <==> exists i :: 0 <= i < |o.processed| && RealRisk(o.processed[i])
    ensures o.next.alert.riskCount == if o.realRisk then p.alert.riskCount + 1 else 0
    ensures o.next.alert.safeCount == if o.realRisk then 0 else p.alert.safeCount + 1
    ensures o.next.alert.muted <==> p.alert.muted && !(p.alert.muteUntil > 0.0 && f.now >= p.alert.muteUntil)
    ensures o.alert <==> o.next.alert.riskCount >= ConsecutiveRiskThreshold && !o.next.alert.muted && !o.stopped
    ensures !o.alert ==> o.next.log == p.log
  {
    var ps := seen.processed;
    var a := ExpireMute(p.alert, f.now);
    var hasRisk := Distance.HasCollisionRisk(ps);
    var realRisk := hasRisk && AnyRealRisk(ps);
    var counted := CountFrame(a, realRisk);
    var alert := ShouldAlert(counted, motion.0);
    var log := if alert then WarningLog.LogAll(p.log, Alerting(ps), f.timestamp) else p.log;
    Outcome(Pipeline(seen.history, motion.1, counted, log), ps, hasRisk, realRisk, motion.0, alert)
  }

  /** One pass of the frame loop: the stages, then the arbitration. */
  function Step(p: Pipeline, s: Settings, f: Frame, sqrt: real -> real): (o: Outcome)
    requires Motion.IsSqrt(sqrt)
    requires f.width > 0 || f.height > 0
    ensures o.processed == Perceive(p.ttcHistory, s, f).processed
    ensures o.next.ttcHistory == Perceive(p.ttcHistory, s, f).history
    ensures o.stopped == DetectStopped(p.tracker, s, o.processed, f, sqrt).0
    ensures o.next.tracker == DetectStopped(p.tracker, s, o.processed, f, sqrt).1
    ensures o.hasRisk <==> exists i :: 0 <= i < |o.processed| && o.processed[i].risk.needsAlert
    ensures o.realRisk <==> exists i :: 0 <= i < |o.processed| && RealRisk(o.processed[i])
    ensures o.realRisk ==> o.hasRisk
    ensures o.next.alert.riskCount == if o.realRisk then p.alert.riskCount + 1 else 0
    ensures o.next.alert.safeCount == if o.realRisk then 0 else p.alert.safeCount + 1
    ensures o.next.alert.muted <==> p.alert.muted && !(p.alert.muteUntil > 0.0 && f.now >= p.alert.muteUntil)
    ensures o.alert <==> o.next.alert.riskCount >= ConsecutiveRiskThreshold && !o.next.alert.muted && !o.stopped
    ensures !o.alert ==> o.next.log == p.log
  {
    var seen := Perceive(p.ttcHistory, s, f);
    Arbitrate(p, f, seen, DetectStopped(p.tracker, s, seen.processed, f, sqrt))
  }

  /** A frame alerts only if it has a real-risk object of its own: one calm frame silences
      the alert at once. */
  lemma AlertNeedsRiskThisFrame(p: Pipeline, s: Settings, f: Frame, sqrt: real -> real)
    requires Motion.IsSqrt(sqrt)
    requires f.width > 0 || f.height > 0
    ensures Step(p, s, f, sqrt).alert ==> Step(p, s, f, sqrt).realRisk
  {
  }

  /** With the TTC stage off no detection carries a relative speed, so none is a real
      risk: the alert never sounds and nothing is logged. */
  lemma {:induction false} WithoutTtcNeverAlerts(p: Pipeline, s: Settings, f: Frame, sqrt: real -> real)
    requires Motion.IsSqrt(sqrt)
    requires f.width > 0 || f.height > 0
    requires !s.ttc
    ensures !Step(p, s, f, sqrt).realRisk && !Step(p, s, f, sqrt).alert
    ensures Step(p, s, f, sqrt).next.log == p.log
  {
    var ps := Perceive(p.ttcHistory, s, f).processed;
    assert ps == Step(p, s, f, sqrt).processed;
    forall i | 0 <= i < |ps|
      ensures !RealRisk(ps[i])
    {
      assert ps[i].relativeVelocity.None?;
      assert Abs(ps[i].relativeVelocity.GetOr(0.0)) == 0.0;
    }
  }

  /** While alerting, the log gains exactly the records of this frame's alerting objects,
      keeping the newest 1000. */
  lemma AlertLogsAlertingObjects(p: Pipeline, s: Settings, f: Frame, sqrt: real -> real)
    requires Motion.IsSqrt(sqrt)
    requires f.width > 0 || f.height > 0
    requires p.log.initialized && |p.log.records| <= WarningLog.Capacity
    ensures var o := Step(p, s, f, sqrt);
      o.alert ==>
        o.next.log.records == LastN(p.log.records + WarningLog.Records(Alerting(o.processed), f.timestamp), WarningLog.Capacity)
  {
    var o := Step(p, s, f, sqrt);
    if o.alert {
      WarningLog.LogAllKeepsNewest(p.log, Alerting(o.processed), f.timestamp);
    }
  }

  /** The bounds the loop keeps: five distance samples and ten motion samples per
      identity, and at most 1000 warning records. */
  predicate Healthy(p: Pipeline) {
    && Ttc.Bounded(p.ttcHistory)
    && Motion.Bounded(p.tracker.history)
    && |p.log.records| <= WarningLog.Capacity
  }

  lemma StepKeepsHealthy(p: Pipeline, s: Settings, f: Frame, sqrt: real -> real)
    requires Motion.IsSqrt(sqrt)
    requires f.width > 0 || f.height > 0
    requires Healthy(p)
    ensures Healthy(Step(p, s, f, sqrt).next)
  {
    var o := Step(p, s, f, sqrt);
    var seen := Perceive(p.ttcHistory, s, f);
    var motion := DetectStopped(p.tracker, s, seen.processed, f, sqrt);
    assert o.next.ttcHistory == seen.history;
    assert o.next.tracker == motion.1;
  }

  /** The window as it starts: empty histories, no frame size yet, cleared counters, no
      mute, and an empty log whose logger exists when setting it up (`created`) worked. */
  function Launch(created: bool): (p: Pipeline)
    ensures Healthy(p)
    ensures p.alert == InitialAlert()
    ensures |p.ttcHistory| == 0 && |p.tracker.history| == 0 && p.tracker.frameSize.None?
    ensures |p.log.records| == 0 && (p.log.initialized <==> created)
  {
    Pipeline(map[], Motion.Tracker(map[], None), InitialAlert(), WarningLog.Initialize(WarningLog.NewLogger(), created))
  }

  /** The stop button: counters cleared, mute lifted, both histories forgotten. */
  function Stop(p: Pipeline): (r: Pipeline)
    ensures r.alert == InitialAlert()
    ensures |r.ttcHistory| == 0 && |r.tracker.history| == 0
    ensures r.tracker.frameSize == p.tracker.frameSize && r.log == p.log
  {
    Pipeline(Ttc.ClearHistory(p.ttcHistory), Motion.ClearHistory(p.tracker), InitialAlert(), p.log)
  }

  /** After a stop, the first three frames never alert, whatever they contain. */
  lemma QuietAfterStop(p: Pipeline, s: Settings, f1: Frame, f2: Frame, f3: Frame, sqrt: real -> real)
    requires Motion.IsSqrt(sqrt)
    requires f1.width > 0 || f1.height > 0
    requires f2.width > 0 || f2.height > 0
    requires f3.width > 0 || f3.height > 0
    ensures var o1 := Step(Stop(p), s, f1, sqrt);
      var o2 := Step(o1.next, s, f2, sqrt);
      var o3 := Step(o2.next, s, f3, sqrt);
      !o1.alert && !o2.alert && !o3.alert
  {
  }

  /** Four real-risk frames in a row alert on the fourth unless muted or stopped then. */
  lemma FourRiskyFramesAlert(p: Pipeline, s: Settings, f1: Frame, f2: Frame, f3: Frame, f4: Frame, sqrt: real -> real)
    requires Motion.IsSqrt(sqrt)
    requires f1.width > 0 || f1.height > 0
    requires f2.width > 0 || f2.height > 0
    requires f3.width > 0 || f3.height > 0
    requires f4.width > 0 || f4.height > 0
    requires !p.alert.muted
    ensures var o1 := Step(p, s, f1, sqrt);
      var o2 := Step(o1.next, s, f2, sqrt);
      var o3 := Step(o2.next, s, f3, sqrt);
      var o4 := Step(o3.next, s, f4, sqrt);
      o1.realRisk && o2.realRisk && o3.realRisk && o4.realRisk && !o4.stopped ==> o4.alert
  {
  }

  /** A vehicle judged stopped, or a mute whose deadline has not passed, silences the
      frame whatever the risk. */
  lemma OverridesSilence(p: Pipeline, s: Settings, f: Frame, sqrt: real -> real)
    requires Motion.IsSqrt(sqrt)
    requires f.width > 0 || f.height > 0
    ensures Step(p, s, f, sqrt).stopped ==> !Step(p, s, f, sqrt).alert
    ensures p.alert.muted && f.now < p.alert.muteUntil ==> !Step(p, s, f, sqrt).alert
  {
  }
}
