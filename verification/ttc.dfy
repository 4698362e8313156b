/** The velocity / time-to-collision stage: a bounded distance history per coarse
    identity, the relative closing velocity from its two newest samples, the TTC and the
    stopping distance, and the TTC-aware risk tree. */
module Ttc {
  import opened Base
  import opened Config
  import opened Detections
  import Distance

  /** Samples kept per identity (the deque's `maxlen`). */
  const HistorySize: nat := 5

  datatype Sample = Sample(distance: real, time: real)

  type DistanceHistory = map<Identity, seq<Sample>>

  /** Every identity's history respects the bound. */
  predicate Bounded(hist: DistanceHistory) {
    forall k :: k in hist ==> |hist[k]| <= HistorySize
  }

  /** Reaction distance plus braking distance at speed `v`: `v t + v^2 / (2 a)`. */
  function StoppingDistance(v: real): (r: real)
    ensures v == 0.0 ==> r == 0.0
    ensures v >= 0.0 ==> r >= v * ReactionTime
    ensures 2.0 * Deceleration * (r - v * ReactionTime) == v * v
  {
    var braking := (v * v) / (2.0 * Deceleration);
    assert v * v >= 0.0;
    v * ReactionTime + braking
  }

  /** Squaring is monotone on non-negative reals. */
  lemma SquaresOrdered(a: real, b: real)
    requires 0.0 <= a <= b
    ensures a * a <= b * b
  {
    assert a * b - a * a == a * (b - a) >= 0.0;
    assert b * b - a * b == (b - a) * b >= 0.0;
  }

  /** A faster ego vehicle never needs less room to stop. */
  lemma {:induction false} StoppingDistanceMonotone(v1: real, v2: real)
    requires 0.0 <= v1 <= v2
    ensures StoppingDistance(v1) <= StoppingDistance(v2)
  {
    SquaresOrdered(v1, v2);
    var r1, r2 := StoppingDistance(v1), StoppingDistance(v2);
    var b1, b2 := r1 - v1 * 1.2, r2 - v2 * 1.2;
    assert 12.0 * b1 == v1 * v1 && 12.0 * b2 == v2 * v2;
  }

  /** Relative velocity from the two newest samples of a history: positive while the
      distance shrinks. Zero with fewer than two samples or when the newest sample is not
      strictly later than the one before. */
  function VelocityOf(h: seq<Sample>): (v: real)
    ensures |h| < 2 ==> v == 0.0
    ensures |h| >= 2 && h[|h| - 1].time <= h[|h| - 2].time ==> v == 0.0
    ensures |h| >= 2 && h[|h| - 1].time > h[|h| - 2].time ==>
      v * (h[|h| - 1].time - h[|h| - 2].time) == h[|h| - 2].distance - h[|h| - 1].distance
    ensures v > 0.0 <==> |h| >= 2 && h[|h| - 1].time > h[|h| - 2].time && h[|h| - 1].distance < h[|h| - 2].distance
  {
    if |h| < 2 then 0.0
    else
      var dt := h[|h| - 1].time - h[|h| - 2].time;
      if dt > 0.0 then
        var dd := h[|h| - 1].distance - h[|h| - 2].distance;
        var v := -dd / dt;
        assert v * dt == -dd;
        v
      else 0.0
  }

  datatype Estimate = Estimate(velocity: real, history: DistanceHistory)

  /** The closing speed of an object now at `distance`, measured against the newest
      sample of its history `h`: the drop in distance over the time since that sample.
      Zero when there is no sample yet or no time has passed since it. */
  function ClosingSpeed(h: seq<Sample>, distance: real, now: real): (v: real)
    ensures |h| == 0 || now <= h[|h| - 1].time ==> v == 0.0
    ensures |h| > 0 && h[|h| - 1].time < now ==> v * (now - h[|h| - 1].time) == h[|h| - 1].distance - distance
    ensures v > 0.0 <==> |h| > 0 && h[|h| - 1].time < now && distance < h[|h| - 1].distance
  {
    if |h| > 0 && h[|h| - 1].time < now then
      var dt := now - h[|h| - 1].time;
      var v := (h[|h| - 1].distance - distance) / dt;
      assert v * dt == h[|h| - 1].distance - distance;
      v
    else 0.0
  }

  /** After a push into a five-sample history, the newest sample is the pushed one and
      the sample before it is the previous newest. */
  lemma PushKeepsPrevious(h: seq<Sample>, x: Sample)
    ensures var h' := Push(h, x, HistorySize);
      && |h'| >= 1 && h'[|h'| - 1] == x
      && (|h'| >= 2 <==> |h| >= 1)
      && (|h| >= 1 ==> h'[|h'| - 2] == h[|h| - 1])
  {
    var h' := Push(h, x, HistorySize);
    if |h| >= 1 {
      assert h'[|h'| - 2] == h[|h| - |h'| + 1 + (|h'| - 2)];
    }
  }

  /** `h'` is `h` after recording `x`: `x` is newest and at most five samples are kept;
      nothing is evicted while fewer than five were kept, and otherwise the newest four
      old samples stay in front of `x`. */
  predicate Recorded(h: seq<Sample>, x: Sample, h': seq<Sample>) {
    && 1 <= |h'| <= HistorySize && h'[|h'| - 1] == x
    && (|h| < HistorySize ==> h' == h + [x])
    && (|h| >= HistorySize ==> h' == h[|h| - HistorySize + 1..] + [x])
  }

  /** Pushing `x` records it, and the speed read off the two newest samples afterwards is
      the closing speed against the previous newest sample. */
  lemma {:induction false} PushRecords(h: seq<Sample>, x: Sample)
    ensures Recorded(h, x, Push(h, x, HistorySize))
    ensures VelocityOf(Push(h, x, HistorySize)) == ClosingSpeed(h, x.distance, x.time)
  {
    var h' := Push(h, x, HistorySize);
    PushKeepsPrevious(h, x);
    PushFull(h, x, HistorySize);
    if |h| > 0 && h[|h| - 1].time < x.time {
      var dt := x.time - h[|h| - 1].time;
      assert VelocityOf(h') * dt == ClosingSpeed(h, x.distance, x.time) * dt;
      CancelPositive(VelocityOf(h'), ClosingSpeed(h, x.distance, x.time), dt);
    }
  }

  /** Two products with the same positive factor agree only when the other factors do. */
  lemma CancelPositive(a: real, b: real, c: real)
    requires c > 0.0 && a * c == b * c
    ensures a == b
  {
  }

  /** `after` has a history for every identity of `before` and of `ids`, and leaves the
      histories of identities outside `ids` as they were. */
  predicate Refiled(before: DistanceHistory, ids: set<Identity>, after: DistanceHistory) {
    && after.Keys == before.Keys + ids
    && forall k :: k in before && k !in ids ==> after[k] == before[k]
  }

  /** Records `(distance, now)` for `id`, evicting its oldest sample when five are kept,
      and estimates the relative velocity from the two newest samples of the result. */
  function EstimateRelativeVelocity(hist: DistanceHistory, id: Identity, distance: real, now: real): (e: Estimate)
    ensures Refiled(hist, {id}, e.history)
    ensures id in e.history && Recorded(HistoryOf(hist, id), Sample(distance, now), e.history[id])
    ensures e.velocity == ClosingSpeed(HistoryOf(hist, id), distance, now)
  {
    var filed := FileOne(hist, id, Sample(distance, now), HistorySize);
    PushRecords(HistoryOf(hist, id), Sample(distance, now));
    Estimate(VelocityOf(filed[id]), filed)
  }

  /** Recording a sample keeps every history within the bound. */
  lemma EstimateKeepsBounded(hist: DistanceHistory, id: Identity, distance: real, now: real)
    requires Bounded(hist)
    ensures Bounded(EstimateRelativeVelocity(hist, id, distance, now).history)
  {
    var h' := EstimateRelativeVelocity(hist, id, distance, now).history;
    forall k | k in h'
      ensures |h'[k]| <= HistorySize
    {
      if k != id {
        assert h'[k] == hist[k];
      }
    }
  }

  /** Time to collision: `None` while the object is not approaching, whatever the distance;
      zero once the distance is not positive; otherwise distance over closing speed. */
  function CalculateTtc(distance: real, velocity: real): (r: Option<real>)
    ensures r.None? <==> velocity <= 0.0
    ensures r.Some? && distance <= 0.0 ==> r.value == 0.0
    ensures r.Some? && distance > 0.0 ==> r.value > 0.0 && r.value * velocity == distance
  {
    if velocity <= 0.0 then None
    else if distance <= 0.0 then Some(0.0)
    else Some(distance / velocity)
  }

  /** The TTC-aware risk tree. The TTC branches decide whenever a TTC of at most 6 s is
      known; otherwise the distance branches decide, demoting a slow approach (under
      1 m/s). The TTC and the stopping distance (when the ego speed is known and
      positive) are reported alongside. */
  function AssessRiskWithTtc(distance: real, velocity: real, egoSpeed: Option<real>): (r: Risk)
    ensures Graded(r)
    ensures r.level != Unknown
    ensures r.ttc == CalculateTtc(distance, velocity)
    ensures r.stoppingDistance.Some? <==> egoSpeed.Some? && egoSpeed.value > 0.0
    ensures r.stoppingDistance.Some? ==> r.stoppingDistance.value == StoppingDistance(egoSpeed.value)
  {
    var ttc := CalculateTtc(distance, velocity);
    var stopping := if egoSpeed.Some? && egoSpeed.value > 0.0 then Some(StoppingDistance(egoSpeed.value)) else None;
    var slow := velocity < 1.0;
    if ttc.Some? && ttc.value <= 2.0 && !slow then Risk(Danger, true, Some(3), ttc, stopping)
    else if ttc.Some? && ttc.value <= 2.0 && slow && distance <= 5.0 then Risk(Danger, true, Some(3), ttc, stopping)
    else if ttc.Some? && ttc.value <= 4.0 && !slow then Risk(Warning, true, Some(2), ttc, stopping)
    else if ttc.Some? && ttc.value <= 6.0 then Risk(Caution, false, Some(1), ttc, stopping)
    else if distance <= 5.0 then Risk(Danger, true, Some(3), ttc, stopping)
    else if distance <= 8.0 && !slow then Risk(Danger, true, Some(3), ttc, stopping)
    else if distance <= 8.0 && slow then Risk(Warning, true, Some(2), ttc, stopping)
    else if distance <= 15.0 && !slow then Risk(Warning, true, Some(2), ttc, stopping)
    else if distance <= 20.0 then Risk(Caution, false, Some(1), ttc, stopping)
    else Risk(Safe, false, Some(0), ttc, stopping)
  }

  /** A computed TTC of at most 2 s with a slow approach (under 1 m/s) forces the
      distance under 2 m: `distance = ttc * velocity`. */
  lemma {:induction false} ShortTtcSlowIsClose(distance: real, velocity: real)
    requires CalculateTtc(distance, velocity).Some?
    requires CalculateTtc(distance, velocity).value <= TtcDanger
    requires velocity < 1.0
    ensures distance < 2.0
  {
    if distance > 0.0 {
      var t := CalculateTtc(distance, velocity).value;
      assert t * velocity == distance;
      assert 2.0 * velocity - t * velocity == (2.0 - t) * velocity;
      assert t * velocity <= 2.0 * velocity;
    }
  }

  /** Consequently every computed TTC of at most 2 s is rated danger: the branch for a
      short TTC, a slow approach and more than 5 m, which would fall to caution, is never
      taken. */
  lemma ShortTtcIsDanger(distance: real, velocity: real, egoSpeed: Option<real>)
    requires CalculateTtc(distance, velocity).Some? && CalculateTtc(distance, velocity).value <= TtcDanger
    ensures AssessRiskWithTtc(distance, velocity, egoSpeed).level == Danger
  {
    if velocity < 1.0 {
      ShortTtcSlowIsClose(distance, velocity);
    }
  }

  /** With a TTC of at most 6 s the TTC branches alone decide: danger up to 2 s, warning
      up to 4 s unless the approach is slow, caution otherwise. The distance plays no part. */
  lemma TtcBranchesDecide(distance: real, velocity: real, egoSpeed: Option<real>)
    requires CalculateTtc(distance, velocity).Some? && CalculateTtc(distance, velocity).value <= TtcCaution
    ensures var t := CalculateTtc(distance, velocity).value;
      AssessRiskWithTtc(distance, velocity, egoSpeed).level ==
        if t <= TtcDanger then Danger
        else if t <= TtcWarning && velocity >= 1.0 then Warning
        else Caution
  {
    if CalculateTtc(distance, velocity).value <= TtcDanger {
      ShortTtcIsDanger(distance, velocity, egoSpeed);
    }
  }

  /** Without a TTC of at most 6 s the distance branches decide. For an approach of at
      least 1 m/s they agree with the distance-only classifier. A slow approach is danger
      within 5 m, warning within 8 m, caution within 20 m and safe beyond, so it is never
      rated above the distance-only classifier. */
  lemma DistanceBranchesDecide(distance: real, velocity: real, egoSpeed: Option<real>)
    requires CalculateTtc(distance, velocity).None? || CalculateTtc(distance, velocity).value > TtcCaution
    ensures var plain := Distance.AssessRiskLevel(Some(distance)).level;
      var level := AssessRiskWithTtc(distance, velocity, egoSpeed).level;
      && (velocity >= 1.0 ==> level == plain)
      && (velocity < 1.0 ==> Severity(level) <= Severity(plain))
    ensures velocity < 1.0 ==>
      AssessRiskWithTtc(distance, velocity, egoSpeed).level ==
        (if distance <= 5.0 then Danger
         else if distance <= SafeDistance then Warning
         else if distance <= CautionDistance then Caution
         else Safe)
  {
  }

  /** The detections whose distance is known, in order. */
  function KnownDistance(ps: seq<Processed>): (r: seq<Processed>)
    ensures |r| <= |ps|
    ensures forall i :: 0 <= i < |r| ==> r[i].distance.Some?
  {
    if |ps| == 0 then []
    else
      var rest := KnownDistance(ps[1..]);
      if ps[0].distance.Some? then [ps[0]] + rest else rest
  }

  /** Keeping the known-distance detections distributes over concatenation and keeps a
      single detection exactly when its distance is known: it is an order-preserving
      filter that drops nothing else. */
  lemma {:induction false} KnownDistanceSplits(a: seq<Processed>, b: seq<Processed>)
    ensures KnownDistance(a + b) == KnownDistance(a) + KnownDistance(b)
    ensures |a| == 1 ==> KnownDistance(a) == if a[0].distance.Some? then a else []
    decreases |a|
  {
    if |a| == 0 {
      assert a + b == b;
    } else {
      var c := a + b;
      assert c[0] == a[0] && c[1..] == a[1..] + b;
      KnownDistanceSplits(a[1..], b);
      var head := if a[0].distance.Some? then [a[0]] else [];
      assert KnownDistance(c) == head + KnownDistance(a[1..] + b);
      assert KnownDistance(a) == head + KnownDistance(a[1..]);
      assert head + (KnownDistance(a[1..]) + KnownDistance(b)) == (head + KnownDistance(a[1..])) + KnownDistance(b);
      if |a| == 1 {
        assert a[1..] == [];
      }
    }
  }

  /** What the TTC stage makes of one detection with known distance, given the velocity
      estimated for it. */
  predicate TtcAnnotated(out: Processed, src: Processed, velocity: real, egoSpeed: Option<real>)
    requires src.distance.Some?
  {
    && out.det == src.det
    && out.distance == src.distance
    && out.relativeVelocity == Some(velocity)
    && out.risk == AssessRiskWithTtc(src.distance.value, velocity, egoSpeed)
  }

  /** `out` is `src`, element by element, annotated by the TTC stage. */
  predicate AllAnnotated(out: seq<Processed>, src: seq<Processed>, egoSpeed: Option<real>) {
    && |out| == |src|
    && forall i :: 0 <= i < |out| ==>
      && src[i].distance.Some?
      && out[i].relativeVelocity.Some?
      && TtcAnnotated(out[i], src[i], out[i].relativeVelocity.value, egoSpeed)
  }

  datatype TtcFrame = TtcFrame(processed: seq<Processed>, history: DistanceHistory)

  /** The identities of the detections with known distance. */
  function KnownIds(ps: seq<Processed>): (r: set<Identity>)
    ensures forall k :: k in r <==> exists i :: 0 <= i < |ps| && ps[i].distance.Some? && IdOf(ps[i]) == k
  {
    if |ps| == 0 then {}
    else
      var rest := KnownIds(ps[1..]);
      assert forall i :: 1 <= i < |ps| ==> ps[i] == ps[1..][i - 1];
      (if ps[0].distance.Some? then {IdOf(ps[0])} else {}) + rest
  }

  /** The sample a detection with known distance files at time `now`. */
  function Entry(p: Processed, now: real): (Identity, Sample)
    requires p.distance.Some?
  {
    (IdOf(p), Sample(p.distance.value, now))
  }

  /** The samples the stage files in a frame, in detection order: one per detection with
      known distance, under its identity, stamped `now`. */
  function TtcEntries(ps: seq<Processed>, now: real): (es: seq<(Identity, Sample)>)
    decreases |ps|
  {
    if |ps| == 0 then []
    else (if ps[0].distance.Some? then [Entry(ps[0], now)] else []) + TtcEntries(ps[1..], now)
  }

  /** An identity receives a sample in the frame exactly when some detection with known
      distance has it. */
  lemma {:induction false} EntriesReachKnownIds(ps: seq<Processed>, now: real, k: Identity)
    ensures SamplesOf(TtcEntries(ps, now), k) != [] <==> k in KnownIds(ps)
    decreases |ps|
  {
    if |ps| > 0 {
      EntriesReachKnownIds(ps[1..], now, k);
      var rest := TtcEntries(ps[1..], now);
      assert KnownIds(ps) == (if ps[0].distance.Some? then {IdOf(ps[0])} else {}) + KnownIds(ps[1..]);
      if ps[0].distance.Some? {
        var es := [Entry(ps[0], now)] + rest;
        assert es[0] == Entry(ps[0], now) && es[1..] == rest;
        assert SamplesOf(es, k) == (if IdOf(ps[0]) == k then [Sample(ps[0].distance.value, now)] else []) + SamplesOf(rest, k);
      } else {
        assert TtcEntries(ps, now) == rest;
      }
    }
  }

  /** The per-detection loop of the TTC stage: detections with unknown distance are
      skipped; each other one updates its identity's history and is annotated. */
  function AnnotateAll(hist: DistanceHistory, ps: seq<Processed>, now: real, egoSpeed: Option<real>): (r: TtcFrame)
    ensures |r.processed| == |KnownDistance(ps)|
    decreases |ps|
  {
    if |ps| == 0 then TtcFrame([], hist)
    else if ps[0].distance.None? then
      AnnotateAll(hist, ps[1..], now, egoSpeed)
    else
      var p := ps[0];
      var e := EstimateRelativeVelocity(hist, IdOf(p), p.distance.value, now);
      var out := p.(relativeVelocity := Some(e.velocity), risk := AssessRiskWithTtc(p.distance.value, e.velocity, egoSpeed));
      var rest := AnnotateAll(e.history, ps[1..], now, egoSpeed);
      TtcFrame([out] + rest.processed, rest.history)
  }

  /** Each output of the loop is the corresponding known-distance input, annotated. */
  lemma {:induction false} AnnotateAllOutputs(hist: DistanceHistory, ps: seq<Processed>, now: real, egoSpeed: Option<real>)
    ensures AllAnnotated(AnnotateAll(hist, ps, now, egoSpeed).processed, KnownDistance(ps), egoSpeed)
    decreases |ps|
  {
    if |ps| == 0 {
    } else if ps[0].distance.None? {
      AnnotateAllOutputs(hist, ps[1..], now, egoSpeed);
      assert KnownDistance(ps) == KnownDistance(ps[1..]);
      assert AnnotateAll(hist, ps, now, egoSpeed) == AnnotateAll(hist, ps[1..], now, egoSpeed);
    } else {
      var p := ps[0];
      var e := EstimateRelativeVelocity(hist, IdOf(p), p.distance.value, now);
      var out := p.(relativeVelocity := Some(e.velocity), risk := AssessRiskWithTtc(p.distance.value, e.velocity, egoSpeed));
      var rest := AnnotateAll(e.history, ps[1..], now, egoSpeed);
      var r := AnnotateAll(hist, ps, now, egoSpeed);
      assert r.processed == [out] + rest.processed;
      AnnotateAllOutputs(e.history, ps[1..], now, egoSpeed);
      var known := KnownDistance(ps);
      var knownRest := KnownDistance(ps[1..]);
      assert known == [p] + knownRest;
      assert AllAnnotated(rest.processed, knownRest, egoSpeed);
      assert TtcAnnotated(out, p, e.velocity, egoSpeed);
      AllAnnotatedCons(out, p, rest.processed, knownRest, egoSpeed);
    }
  }

  /** Annotation element by element extends by one element at the front. */
  lemma AllAnnotatedCons(out: Processed, src: Processed, outs: seq<Processed>, srcs: seq<Processed>, egoSpeed: Option<real>)
    requires src.distance.Some? && out.relativeVelocity.Some?
    requires TtcAnnotated(out, src, out.relativeVelocity.value, egoSpeed)
    requires AllAnnotated(outs, srcs, egoSpeed)
    ensures AllAnnotated([out] + outs, [src] + srcs, egoSpeed)
  {
    var o, s := [out] + outs, [src] + srcs;
    forall i | 0 <= i < |o|
      ensures s[i].distance.Some? && o[i].relativeVelocity.Some?
      ensures TtcAnnotated(o[i], s[i], o[i].relativeVelocity.value, egoSpeed)
    {
      if i > 0 {
        assert o[i] == outs[i - 1] && s[i] == srcs[i - 1];
      }
    }
  }

  /** An earlier detection of the frame shares the identity of the `i`th. */
  predicate SeenBefore(known: seq<Processed>, i: int)
    requires 0 <= i < |known|
  {
    exists j :: 0 <= j < i && IdOf(known[j]) == IdOf(known[i])
  }

  /** The speed the stage reports for the `i`th detection with known distance: the
      closing speed against its identity's newest sample from earlier frames. When an
      earlier detection of the same frame already filed a sample for the identity, that
      sample carries the same time, so the speed is zero. */
  function FrameVelocity(hist: DistanceHistory, known: seq<Processed>, i: int, now: real): real
    requires 0 <= i < |known| && known[i].distance.Some?
  {
    if SeenBefore(known, i) then 0.0
    else ClosingSpeed(HistoryOf(hist, IdOf(known[i])), known[i].distance.value, now)
  }

  /** Every output carries the speed `FrameVelocity` gives its source detection. */
  predicate VelocitiesMeasured(out: seq<Processed>, hist: DistanceHistory, known: seq<Processed>, now: real) {
    && |out| == |known|
    && forall i :: 0 <= i < |out| ==>
      known[i].distance.Some? && out[i].relativeVelocity == Some(FrameVelocity(hist, known, i, now))
  }

  /** Filing the first detection's sample before the rest shifts `FrameVelocity` by one
      position: an identity it shares is now seen before, any other keeps its history. */
  lemma FrameVelocityCons(hist: DistanceHistory, p: Processed, rest: seq<Processed>, i: int, now: real)
    requires p.distance.Some? && 0 <= i < |rest| && rest[i].distance.Some?
    ensures FrameVelocity(FileOne(hist, IdOf(p), Sample(p.distance.value, now), HistorySize), rest, i, now)
         == FrameVelocity(hist, [p] + rest, i + 1, now)
  {
    var known := [p] + rest;
    var id := IdOf(rest[i]);
    var filed := FileOne(hist, IdOf(p), Sample(p.distance.value, now), HistorySize);
    assert known[i + 1] == rest[i];
    if SeenBefore(rest, i) {
      var j :| 0 <= j < i && IdOf(rest[j]) == id;
      assert known[j + 1] == rest[j];
    } else if IdOf(p) == id {
      assert known[0] == p;
      PushKeepsPrevious(HistoryOf(hist, id), Sample(p.distance.value, now));
      assert HistoryOf(filed, id) == Push(HistoryOf(hist, id), Sample(p.distance.value, now), HistorySize);
    } else {
      assert HistoryOf(filed, id) == HistoryOf(hist, id);
    }
  }

  /** The frame's first detection with known distance is never seen before. */
  lemma FrameVelocityFirst(hist: DistanceHistory, known: seq<Processed>, now: real)
    requires |known| > 0 && known[0].distance.Some?
    ensures FrameVelocity(hist, known, 0, now) == ClosingSpeed(HistoryOf(hist, IdOf(known[0])), known[0].distance.value, now)
  {
    assert !SeenBefore(known, 0);
  }

  /** `VelocitiesMeasured` extends by the frame's first detection at the front. */
  lemma VelocitiesCons(hist: DistanceHistory, p: Processed, out: Processed, outs: seq<Processed>, rest: seq<Processed>, now: real)
    requires p.distance.Some?
    requires out.relativeVelocity == Some(ClosingSpeed(HistoryOf(hist, IdOf(p)), p.distance.value, now))
    requires VelocitiesMeasured(outs, FileOne(hist, IdOf(p), Sample(p.distance.value, now), HistorySize), rest, now)
    ensures VelocitiesMeasured([out] + outs, hist, [p] + rest, now)
  {
    var o, known := [out] + outs, [p] + rest;
    forall i | 0 <= i < |o|
      ensures known[i].distance.Some? && o[i].relativeVelocity == Some(FrameVelocity(hist, known, i, now))
    {
      if i == 0 {
        FrameVelocityFirst(hist, known, now);
      } else {
        assert o[i] == outs[i - 1] && known[i] == rest[i - 1];
        FrameVelocityCons(hist, p, rest, i - 1, now);
      }
    }
  }

  /** Each output of the loop carries the speed measured for its detection: against its
      identity's history from earlier frames, or zero for a repeated identity. */
  lemma {:induction false} AnnotateAllVelocities(hist: DistanceHistory, ps: seq<Processed>, now: real, egoSpeed: Option<real>)
    ensures VelocitiesMeasured(AnnotateAll(hist, ps, now, egoSpeed).processed, hist, KnownDistance(ps), now)
    decreases |ps|
  {
    if |ps| == 0 {
    } else if ps[0].distance.None? {
      AnnotateAllVelocities(hist, ps[1..], now, egoSpeed);
      assert KnownDistance(ps) == KnownDistance(ps[1..]);
      assert AnnotateAll(hist, ps, now, egoSpeed) == AnnotateAll(hist, ps[1..], now, egoSpeed);
    } else {
      var p := ps[0];
      var e := EstimateRelativeVelocity(hist, IdOf(p), p.distance.value, now);
      var out := p.(relativeVelocity := Some(e.velocity), risk := AssessRiskWithTtc(p.distance.value, e.velocity, egoSpeed));
      var rest := AnnotateAll(e.history, ps[1..], now, egoSpeed);
      assert AnnotateAll(hist, ps, now, egoSpeed).processed == [out] + rest.processed;
      assert e.history == FileOne(hist, IdOf(p), Sample(p.distance.value, now), HistorySize);
      AnnotateAllVelocities(e.history, ps[1..], now, egoSpeed);
      assert KnownDistance(ps) == [p] + KnownDistance(ps[1..]);
      VelocitiesCons(hist, p, out, rest.processed, KnownDistance(ps[1..]), now);
    }
  }

  /** The loop's histories are the old ones with the frame's samples filed in order. */
  lemma {:induction false} AnnotateAllHistory(hist: DistanceHistory, ps: seq<Processed>, now: real, egoSpeed: Option<real>)
    ensures AnnotateAll(hist, ps, now, egoSpeed).history == FileAll(hist, TtcEntries(ps, now), HistorySize)
    decreases |ps|
  {
    if |ps| == 0 {
    } else if ps[0].distance.None? {
      AnnotateAllHistory(hist, ps[1..], now, egoSpeed);
      assert TtcEntries(ps, now) == TtcEntries(ps[1..], now);
    } else {
      var p := ps[0];
      var e := EstimateRelativeVelocity(hist, IdOf(p), p.distance.value, now);
      AnnotateAllHistory(e.history, ps[1..], now, egoSpeed);
      var es := TtcEntries(ps, now);
      assert es == [Entry(p, now)] + TtcEntries(ps[1..], now);
      assert es[0] == Entry(p, now) && es[1..] == TtcEntries(ps[1..], now);
      assert e.history == FileOne(hist, IdOf(p), Sample(p.distance.value, now), HistorySize);
    }
  }

  /** The loop keeps every history within the bound. */
  lemma {:induction false} AnnotateAllBounded(hist: DistanceHistory, ps: seq<Processed>, now: real, egoSpeed: Option<real>)
    requires Bounded(hist)
    ensures Bounded(AnnotateAll(hist, ps, now, egoSpeed).history)
    decreases |ps|
  {
    if |ps| == 0 {
    } else if ps[0].distance.None? {
      AnnotateAllBounded(hist, ps[1..], now, egoSpeed);
    } else {
      var p := ps[0];
      var e := EstimateRelativeVelocity(hist, IdOf(p), p.distance.value, now);
      EstimateKeepsBounded(hist, IdOf(p), p.distance.value, now);
      AnnotateAllBounded(e.history, ps[1..], now, egoSpeed);
      assert AnnotateAll(hist, ps, now, egoSpeed).history == AnnotateAll(e.history, ps[1..], now, egoSpeed).history;
    }
  }

  /** Some detection of the frame, known distance or not, has class `c`. */
  predicate ClassPresent(c: ObjectClass, ps: seq<Processed>) {
    exists i :: 0 <= i < |ps| && ps[i].det.cls == c
  }

  /** The purge after the loop: a history survives when its class occurs among the
      frame's detections, whatever its grid cell. */
  function PurgeByClass(hist: DistanceHistory, ps: seq<Processed>): (r: DistanceHistory)
    ensures forall k :: k in r <==> k in hist && ClassPresent(k.cls, ps)
    ensures forall k :: k in r ==> r[k] == hist[k]
  {
    map k | k in hist && ClassPresent(k.cls, ps) :: hist[k]
  }

  /** The loop's histories: an identity of a known-distance detection has its old samples
      followed by this frame's, the newest five kept; any other keeps its old history. */
  lemma LoopHistories(hist: DistanceHistory, ps: seq<Processed>, now: real, egoSpeed: Option<real>)
    ensures var h := AnnotateAll(hist, ps, now, egoSpeed).history;
      && Extended(hist, TtcEntries(ps, now), HistorySize, h)
      && forall k :: k in h <==> k in hist || k in KnownIds(ps)
  {
    AnnotateAllHistory(hist, ps, now, egoSpeed);
    FileAllExtends(hist, TtcEntries(ps, now), HistorySize);
    forall k {
      EntriesReachKnownIds(ps, now, k);
    }
  }

  /** The TTC stage over a frame: the detections with known distance, in order, each
      with its measured relative velocity and TTC-aware risk. Afterwards the histories
      hold the frame's samples appended to the old ones (the newest five kept), and only
      the histories whose class occurs in the frame survive. */
  function ProcessDetectionsWithTtc(hist: DistanceHistory, ps: seq<Processed>, now: real, egoSpeed: Option<real>): (r: TtcFrame)
    ensures AllAnnotated(r.processed, KnownDistance(ps), egoSpeed)
    ensures VelocitiesMeasured(r.processed, hist, KnownDistance(ps), now)
    ensures forall k :: k in r.history <==> (k in hist || k in KnownIds(ps)) && ClassPresent(k.cls, ps)
    ensures Extended(hist, TtcEntries(ps, now), HistorySize, r.history)
    ensures |ps| == 0 ==> r.history == map[]
    ensures Bounded(hist) ==> Bounded(r.history)
  {
    var loop := AnnotateAll(hist, ps, now, egoSpeed);
    AnnotateAllOutputs(hist, ps, now, egoSpeed);
    AnnotateAllVelocities(hist, ps, now, egoSpeed);
    LoopHistories(hist, ps, now, egoSpeed);
    var r := TtcFrame(loop.processed, PurgeByClass(loop.history, ps));
    if Bounded(hist) then
      AnnotateAllBounded(hist, ps, now, egoSpeed);
      r
    else
      r
  }

  /** Forgets every identity's history. */
  function ClearHistory(hist: DistanceHistory): (r: DistanceHistory)
    ensures |r| == 0
  {
    map[]
  }
}
