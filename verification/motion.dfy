/** The motion tracker behind the "vehicle stopped" override: a bounded history of box
    centres per coarse identity, a scale-free movement score over the newest centres,
    and the aggregate rule that judges the ego vehicle stopped when the scene is static. */
module Motion {
  import opened Base
  import opened Config
  import opened Detections

  /** Default constructor arguments of the tracker, as the frame loop builds it. */
  const HistorySize: nat := 10
  const MovementThreshold: real := 0.02

  /** Centres considered for the movement score, and samples needed before scoring. */
  const Window: nat := 5
  const MinSamples: nat := 3

  /** The tracker's defaults agree with the configuration surface. */
  lemma DefaultsMatchConfig()
    ensures HistorySize == MotionHistorySize && MovementThreshold == MotionThreshold
  {
  }

  /** `sqrt` is the square root on non-negative reals (the numeric library's `sqrt`,
      which the model takes as a parameter). */
  ghost predicate IsSqrt(sqrt: real -> real) {
    && sqrt(0.0) == 0.0
    && forall x :: 0.0 <= x ==> 0.0 <= sqrt(x) && sqrt(x) * sqrt(x) == x
  }

  datatype Center = Center(x: real, y: real)

  /** The centre of a box: the midpoint of each pair of corners. */
  function CalculateCenter(b: BBox): (c: Center)
    ensures 2.0 * c.x == (b.x1 + b.x2) as real && 2.0 * c.y == (b.y1 + b.y2) as real
  {
    Center((b.x1 + b.x2) as real / 2.0, (b.y1 + b.y2) as real / 2.0)
  }

  datatype MotionSample = MotionSample(center: Center, bbox: BBox, distance: Option<real>)

  type MotionHistory = map<Identity, seq<MotionSample>>

  predicate Bounded(hist: MotionHistory) {
    forall k :: k in hist ==> |hist[k]| <= HistorySize
  }

  datatype FrameSize = FrameSize(width: int, height: int)

  /** The tracker: histories by identity, and the frame size once it has been set. */
  datatype Tracker = Tracker(history: MotionHistory, frameSize: Option<FrameSize>)

  /** The larger frame dimension, which movement is normalised by. */
  function Extent(fs: FrameSize): (n: int)
    ensures n >= fs.width && n >= fs.height && (n == fs.width || n == fs.height)
  {
    if fs.width >= fs.height then fs.width else fs.height
  }

  /** A frame size the movement score can be normalised by without dividing by zero. */
  predicate ValidFrame(t: Tracker) {
    t.frameSize.Some? ==> Extent(t.frameSize.value) > 0
  }

  function UpdateFrameSize(t: Tracker, width: int, height: int): (r: Tracker)
    ensures r.history == t.history && r.frameSize == Some(FrameSize(width, height))
  {
    t.(frameSize := Some(FrameSize(width, height)))
  }

  /** Euclidean length of the step between two centres. */
  function StepLength(a: Center, b: Center, sqrt: real -> real): real {
    var dx := b.x - a.x;
    var dy := b.y - a.y;
    sqrt(dx * dx + dy * dy)
  }

  /** Total length of the path through consecutive centres. */
  function PathLength(cs: seq<Center>, sqrt: real -> real): (r: real)
    requires IsSqrt(sqrt)
    ensures r >= 0.0
    decreases |cs|
  {
    if |cs| < 2 then 0.0
    else
      var dx := cs[1].x - cs[0].x;
      var dy := cs[1].y - cs[0].y;
      assert dx * dx + dy * dy >= 0.0;
      StepLength(cs[0], cs[1], sqrt) + PathLength(cs[1..], sqrt)
  }

  /** A path that never leaves its starting point has length zero. */
  lemma {:induction false} StillPathHasZeroLength(cs: seq<Center>, sqrt: real -> real)
    requires IsSqrt(sqrt)
    requires forall i :: 0 <= i < |cs| ==> cs[i] == cs[0]
    ensures PathLength(cs, sqrt) == 0.0
    decreases |cs|
  {
    if |cs| >= 2 {
      assert cs[1] == cs[0];
      assert StepLength(cs[0], cs[1], sqrt) == 0.0;
      assert forall i :: 0 <= i < |cs[1..]| ==> cs[1..][i] == cs[1..][0];
      StillPathHasZeroLength(cs[1..], sqrt);
    }
  }

  function Centres(h: seq<MotionSample>): (cs: seq<Center>)
    ensures |cs| == |h| && forall i :: 0 <= i < |h| ==> cs[i] == h[i].center
  {
    seq(|h|, i requires 0 <= i < |h| => h[i].center)
  }

  /** One identity's entry in the frame's movement report. */
  datatype MovementInfo = MovementInfo(id: Identity, isMoving: bool, movement: real, center: Center)

  /** The movement report for an identity whose history is `h` (newest sample last): with
      at least three samples, the path length through the newest five centres divided by
      the larger frame dimension, moving when above the threshold; with fewer, moving
      with score zero. */
  function MovementOf(id: Identity, h: seq<MotionSample>, frameSize: int, sqrt: real -> real): (e: MovementInfo)
    requires |h| >= 1 && frameSize > 0 && IsSqrt(sqrt)
    ensures e.id == id && e.center == h[|h| - 1].center
    ensures e.movement >= 0.0
    ensures |h| < MinSamples ==> e.isMoving && e.movement == 0.0
    ensures |h| >= MinSamples ==> (e.isMoving <==> e.movement > MovementThreshold)
    ensures |h| >= MinSamples ==> e.movement * frameSize as real == PathLength(Centres(LastN(h, Window)), sqrt)
  {
    var center := h[|h| - 1].center;
    if |h| >= MinSamples then
      var total := PathLength(Centres(LastN(h, Window)), sqrt);
      var normalized := total / frameSize as real;
      MovementInfo(id, normalized > MovementThreshold, normalized, center)
    else
      MovementInfo(id, true, 0.0, center)
  }

  /** An identity seen at least three times whose newest five centres coincide is
      reported stationary with score zero. */
  lemma StillObjectIsStationary(id: Identity, h: seq<MotionSample>, frameSize: int, sqrt: real -> real)
    requires |h| >= MinSamples && frameSize > 0 && IsSqrt(sqrt)
    requires forall i :: |h| - Window <= i < |h| && 0 <= i ==> h[i].center == h[|h| - 1].center
    ensures MovementOf(id, h, frameSize, sqrt).movement == 0.0
    ensures !MovementOf(id, h, frameSize, sqrt).isMoving
  {
    var cs := Centres(LastN(h, Window));
    forall i | 0 <= i < |cs|
      ensures cs[i] == cs[0]
    {
      assert cs[i] == h[|h| - |cs| + i].center;
      assert cs[0] == h[|h| - |cs|].center;
    }
    StillPathHasZeroLength(cs, sqrt);
  }

  function IdsOf(info: seq<MovementInfo>): set<Identity> {
    set e | e in info :: e.id
  }

  predicate UniqueIds(info: seq<MovementInfo>) {
    forall i, j :: 0 <= i < j < |info| ==> info[i].id != info[j].id
  }

  /** Dictionary assignment `info[e.id] = e`: an existing entry is replaced in place, a
      new one goes at the end. */
  function Upsert(info: seq<MovementInfo>, e: MovementInfo): (r: seq<MovementInfo>)
    ensures IdsOf(r) == IdsOf(info) + {e.id}
    ensures e in r
  {
    if |info| == 0 then [e]
    else
      assert forall x :: x in info <==> x == info[0] || x in info[1..];
      assert IdsOf(info) == {info[0].id} + IdsOf(info[1..]);
      if info[0].id == e.id then
        [e] + info[1..]
      else
        var rest := Upsert(info[1..], e);
        assert forall x :: x in [info[0]] + rest <==> x == info[0] || x in rest;
        assert IdsOf([info[0]] + rest) == {info[0].id} + IdsOf(rest);
        [info[0]] + rest
  }

  /** Putting an entry for a new identity in front keeps one entry per identity. */
  lemma ConsUnique(x: MovementInfo, rest: seq<MovementInfo>)
    requires UniqueIds(rest) && x.id !in IdsOf(rest)
    ensures UniqueIds([x] + rest)
  {
    var r := [x] + rest;
    forall i, j | 0 <= i < j < |r|
      ensures r[i].id != r[j].id
    {
      assert r[j] == rest[j - 1];
      if i > 0 {
        assert r[i] == rest[i - 1];
      } else {
        assert rest[j - 1] in rest;
      }
    }
  }

  /** On a report with one entry per identity, assignment keeps one entry per identity,
      and every entry other than the new one is an old entry for another identity. */
  lemma {:induction false} UpsertKeepsUnique(info: seq<MovementInfo>, e: MovementInfo)
    requires UniqueIds(info)
    ensures UniqueIds(Upsert(info, e))
    ensures forall x :: x in Upsert(info, e) ==> x == e || (x in info && x.id != e.id)
    decreases |info|
  {
    if |info| > 0 {
      var tail := info[1..];
      assert forall x :: x in info <==> x == info[0] || x in tail;
      assert forall x :: x in tail ==> x.id != info[0].id by {
        forall x | x in tail
          ensures x.id != info[0].id
        {
          var j :| 0 <= j < |tail| && tail[j] == x;
          assert info[j + 1] == x;
        }
      }
      assert UniqueIds(tail) by {
        forall i, j | 0 <= i < j < |tail|
          ensures tail[i].id != tail[j].id
        {
          assert tail[i] == info[i + 1] && tail[j] == info[j + 1];
        }
      }
      if info[0].id != e.id {
        UpsertKeepsUnique(tail, e);
        var rest := Upsert(tail, e);
        assert Upsert(info, e) == [info[0]] + rest;
        assert forall x :: x in [info[0]] + rest <==> x == info[0] || x in rest;
        assert info[0].id !in IdsOf(rest);
        ConsUnique(info[0], rest);
      } else {
        assert Upsert(info, e) == [e] + tail;
        ConsUnique(e, tail);
      }
    }
  }

  /** `e` is what the history filed under its identity says. */
  predicate Reports(e: MovementInfo, hist: MotionHistory, frameSize: int, sqrt: real -> real)
    requires frameSize > 0 && IsSqrt(sqrt)
  {
    e.id in hist && |hist[e.id]| >= 1 && e == MovementOf(e.id, hist[e.id], frameSize, sqrt)
  }

  /** Every entry of the report is what its identity's history says, one entry per identity. */
  predicate Agrees(info: seq<MovementInfo>, hist: MotionHistory, frameSize: int, sqrt: real -> real)
    requires frameSize > 0 && IsSqrt(sqrt)
  {
    UniqueIds(info) && forall e :: e in info ==> Reports(e, hist, frameSize, sqrt)
  }

  datatype MotionFrame = MotionFrame(info: seq<MovementInfo>, history: MotionHistory)

  /** The sample a detection files: its box centre, its box and its distance. */
  function SampleOf(p: Processed): MotionSample {
    MotionSample(CalculateCenter(p.det.bbox), p.det.bbox, p.distance)
  }

  /** The samples a run of detections files, in order, each under its identity. */
  function MotionEntries(ps: seq<Processed>): (es: seq<(Identity, MotionSample)>)
    ensures |es| == |ps|
    ensures forall i :: 0 <= i < |ps| ==> es[i] == (IdOf(ps[i]), SampleOf(ps[i]))
  {
    seq(|ps|, i requires 0 <= i < |ps| => (IdOf(ps[i]), SampleOf(ps[i])))
  }

  /** The history of `p`'s identity once `p`'s sample is filed (the oldest of ten evicted). */
  function Filed(hist: MotionHistory, p: Processed): (h: seq<MotionSample>)
    ensures 1 <= |h| <= HistorySize && h[|h| - 1] == SampleOf(p)
    ensures var prior := HistoryOf(hist, IdOf(p));
      h == if |prior| < HistorySize then prior + [SampleOf(p)] else prior[|prior| - HistorySize + 1..] + [SampleOf(p)]
  {
    var prior := HistoryOf(hist, IdOf(p));
    PushFull(prior, SampleOf(p), HistorySize);
    Push(prior, SampleOf(p), HistorySize)
  }

  /** One pass of the per-detection loop: file the detection's sample under its identity,
      then (re)write the identity's report. */
  function Track(f: MotionFrame, p: Processed, frameSize: int, sqrt: real -> real): (r: MotionFrame)
    requires frameSize > 0 && IsSqrt(sqrt)
  {
    var h := Filed(f.history, p);
    MotionFrame(Upsert(f.info, MovementOf(IdOf(p), h, frameSize, sqrt)), f.history[IdOf(p) := h])
  }

  /** The per-detection loop over a frame. */
  function TrackAll(f: MotionFrame, ps: seq<Processed>, frameSize: int, sqrt: real -> real): (r: MotionFrame)
    requires frameSize > 0 && IsSqrt(sqrt)
    decreases |ps|
  {
    if |ps| == 0 then f else TrackAll(Track(f, ps[0], frameSize, sqrt), ps[1..], frameSize, sqrt)
  }

  /** One pass keeps the report in agreement with the histories. */
  lemma TrackAgrees(f: MotionFrame, p: Processed, frameSize: int, sqrt: real -> real)
    requires frameSize > 0 && IsSqrt(sqrt)
    requires Agrees(f.info, f.history, frameSize, sqrt)
    ensures Agrees(Track(f, p, frameSize, sqrt).info, Track(f, p, frameSize, sqrt).history, frameSize, sqrt)
  {
    var h := Filed(f.history, p);
    var e := MovementOf(IdOf(p), h, frameSize, sqrt);
    var info, hist := Upsert(f.info, e), f.history[IdOf(p) := h];
    UpsertKeepsUnique(f.info, e);
    forall x | x in info
      ensures Reports(x, hist, frameSize, sqrt)
    {
      if x != e {
        assert x in f.info && x.id != IdOf(p);
        assert Reports(x, f.history, frameSize, sqrt);
        assert hist[x.id] == f.history[x.id];
      }
    }
  }

  /** One pass adds exactly the detection's identity to the report and to the histories:
      the identity's history gains the detection's sample as a bounded append, every
      other history stays, and the histories stay bounded. */
  lemma TrackKeys(f: MotionFrame, p: Processed, frameSize: int, sqrt: real -> real)
    requires frameSize > 0 && IsSqrt(sqrt)
    ensures var r := Track(f, p, frameSize, sqrt);
      && IdsOf(r.info) == IdsOf(f.info) + {IdOf(p)}
      && r.history.Keys == f.history.Keys + {IdOf(p)}
      && r.history[IdOf(p)] == Push(HistoryOf(f.history, IdOf(p)), SampleOf(p), HistorySize)
      && (forall k :: k in f.history && k != IdOf(p) ==> r.history[k] == f.history[k])
      && (Bounded(f.history) ==> Bounded(r.history))
  {
  }

  /** The loop keeps every report entry in agreement with the histories. */
  lemma {:induction false} TrackAllAgrees(f: MotionFrame, ps: seq<Processed>, frameSize: int, sqrt: real -> real)
    requires frameSize > 0 && IsSqrt(sqrt)
    requires Agrees(f.info, f.history, frameSize, sqrt)
    ensures Agrees(TrackAll(f, ps, frameSize, sqrt).info, TrackAll(f, ps, frameSize, sqrt).history, frameSize, sqrt)
    decreases |ps|
  {
    if |ps| > 0 {
      TrackAgrees(f, ps[0], frameSize, sqrt);
      TrackAllAgrees(Track(f, ps[0], frameSize, sqrt), ps[1..], frameSize, sqrt);
    }
  }

  /** The loop reports exactly the identities seen and files under exactly those. */
  lemma {:induction false} TrackAllKeys(f: MotionFrame, ps: seq<Processed>, frameSize: int, sqrt: real -> real)
    requires frameSize > 0 && IsSqrt(sqrt)
    ensures var r := TrackAll(f, ps, frameSize, sqrt);
      && IdsOf(r.info) == IdsOf(f.info) + Identities(ps)
      && r.history.Keys == f.history.Keys + Identities(ps)
    decreases |ps|
  {
    if |ps| > 0 {
      TrackKeys(f, ps[0], frameSize, sqrt);
      TrackAllKeys(Track(f, ps[0], frameSize, sqrt), ps[1..], frameSize, sqrt);
      assert Identities(ps) == {IdOf(ps[0])} + Identities(ps[1..]);
    }
  }

  /** The loop keeps every history within ten samples. */
  lemma {:induction false} TrackAllBounded(f: MotionFrame, ps: seq<Processed>, frameSize: int, sqrt: real -> real)
    requires frameSize > 0 && IsSqrt(sqrt)
    requires Bounded(f.history)
    ensures Bounded(TrackAll(f, ps, frameSize, sqrt).history)
    decreases |ps|
  {
    if |ps| > 0 {
      TrackKeys(f, ps[0], frameSize, sqrt);
      TrackAllBounded(Track(f, ps[0], frameSize, sqrt), ps[1..], frameSize, sqrt);
    }
  }

  /** The loop's histories are the old ones with every detection's sample filed in
      order, each identity's deque keeping its newest ten. */
  lemma {:induction false} TrackAllHistory(f: MotionFrame, ps: seq<Processed>, frameSize: int, sqrt: real -> real)
    requires frameSize > 0 && IsSqrt(sqrt)
    ensures TrackAll(f, ps, frameSize, sqrt).history == FileAll(f.history, MotionEntries(ps), HistorySize)
    decreases |ps|
  {
    if |ps| > 0 {
      var f1 := Track(f, ps[0], frameSize, sqrt);
      TrackAllHistory(f1, ps[1..], frameSize, sqrt);
      var es := MotionEntries(ps);
      assert es[0] == (IdOf(ps[0]), SampleOf(ps[0]));
      assert es[1..] == MotionEntries(ps[1..]);
      assert f1.history == FileOne(f.history, IdOf(ps[0]), SampleOf(ps[0]), HistorySize);
    }
  }

  /** The loop's histories: each identity's old samples followed by every sample this
      frame filed under it, the newest ten kept. */
  lemma TrackAllExtends(hist: MotionHistory, ps: seq<Processed>, frameSize: int, sqrt: real -> real)
    requires frameSize > 0 && IsSqrt(sqrt)
    ensures Extended(hist, MotionEntries(ps), HistorySize, TrackAll(MotionFrame([], hist), ps, frameSize, sqrt).history)
  {
    TrackAllHistory(MotionFrame([], hist), ps, frameSize, sqrt);
    FileAllExtends(hist, MotionEntries(ps), HistorySize);
  }

  /** The purge after the loop: only the histories of identities the loop reported stay. */
  function KeepActive(loop: MotionFrame): (h: MotionHistory)
    ensures forall k :: k in h <==> k in loop.history && k in IdsOf(loop.info)
    ensures forall k :: k in h ==> h[k] == loop.history[k]
  {
    map k | k in loop.history && k in IdsOf(loop.info) :: loop.history[k]
  }

  /** What the loop and the purge leave behind: one report per identity seen, each what
      its history says; histories for exactly the identities seen, each its old samples
      followed by this frame's, the newest ten kept; and bounded histories stay bounded. */
  ghost predicate Measured(hist: MotionHistory, ps: seq<Processed>, frameSize: int, sqrt: real -> real,
                           info: seq<MovementInfo>, after: MotionHistory)
    requires frameSize > 0 && IsSqrt(sqrt)
  {
    && Agrees(info, after, frameSize, sqrt)
    && IdsOf(info) == Identities(ps)
    && after.Keys == Identities(ps)
    && Extended(hist, MotionEntries(ps), HistorySize, after)
    && (Bounded(hist) ==> Bounded(after))
  }

  /** The loop followed by the purge is `Measured`. */
  lemma LoopMeasures(hist: MotionHistory, ps: seq<Processed>, frameSize: int, sqrt: real -> real)
    requires frameSize > 0 && IsSqrt(sqrt)
    ensures var loop := TrackAll(MotionFrame([], hist), ps, frameSize, sqrt);
      Measured(hist, ps, frameSize, sqrt, loop.info, KeepActive(loop))
  {
    TrackAllAgrees(MotionFrame([], hist), ps, frameSize, sqrt);
    TrackAllKeys(MotionFrame([], hist), ps, frameSize, sqrt);
    if Bounded(hist) {
      TrackAllBounded(MotionFrame([], hist), ps, frameSize, sqrt);
    }
    TrackAllExtends(hist, ps, frameSize, sqrt);
    var loop := TrackAll(MotionFrame([], hist), ps, frameSize, sqrt);
    var kept := KeepActive(loop);
    ExtendedRestrict(hist, MotionEntries(ps), HistorySize, loop.history, kept);
    forall e | e in loop.info
      ensures Reports(e, kept, frameSize, sqrt)
    {
      assert Reports(e, loop.history, frameSize, sqrt);
      assert e.id in IdsOf(loop.info);
    }
  }

  /** `calculate_movement`: without a frame size nothing is reported or recorded;
      otherwise the loop runs over the detections, normalising by the larger frame
      dimension, and the histories of identities absent from this call's detections
      are dropped. */
  function CalculateMovement(t: Tracker, ps: seq<Processed>, sqrt: real -> real): (r: (seq<MovementInfo>, Tracker))
    requires ValidFrame(t) && IsSqrt(sqrt)
    ensures t.frameSize.None? ==> r.0 == [] && r.1 == t
    ensures r.1.frameSize == t.frameSize
    ensures t.frameSize.Some? ==> Measured(t.history, ps, Extent(t.frameSize.value), sqrt, r.0, r.1.history)
  {
    match t.frameSize
    case None => ([], t)
    case Some(fs) =>
      var size := Extent(fs);
      LoopMeasures(t.history, ps, size, sqrt);
      var loop := TrackAll(MotionFrame([], t.history), ps, size, sqrt);
      (loop.info, Tracker(KeepActive(loop), t.frameSize))
  }

  /** Forgets every identity's history. */
  function ClearHistory(t: Tracker): (r: Tracker)
    ensures |r.history| == 0 && r.frameSize == t.frameSize
  {
    t.(history := map[])
  }

  function StationaryCount(info: seq<MovementInfo>): (n: nat)
    ensures n <= |info|
  {
    if |info| == 0 then 0
    else (if info[0].isMoving then 0 else 1) + StationaryCount(info[1..])
  }

  function TotalMovement(info: seq<MovementInfo>): real {
    if |info| == 0 then 0.0 else info[0].movement + TotalMovement(info[1..])
  }

  /** The aggregate "vehicle stopped" rule: never on an empty report; otherwise stopped
      when at least 70% of the identities are stationary and the mean score is under
      0.01, or when there are at least three identities and at least 90% are stationary. */
  function IsVehicleStopped(info: seq<MovementInfo>): (r: bool)
    ensures |info| == 0 ==> !r
    ensures |info| > 0 ==>
      var n := |info| as real;
      var s := StationaryCount(info) as real;
      (r <==> (10.0 * s >= 7.0 * n && 100.0 * TotalMovement(info) < n) || (|info| >= 3 && 10.0 * s >= 9.0 * n))
  {
    if |info| == 0 then false
    else
      var n := |info| as real;
      var s := StationaryCount(info) as real;
      var ratio := s / n;
      var average := TotalMovement(info) / n;
      RatioAtLeast(s, n, StationaryRatioThreshold);
      RatioAtLeast(s, n, 0.9);
      RatioBelow(TotalMovement(info), n, 0.01);
      (ratio >= StationaryRatioThreshold && average < 0.01) || (|info| >= 3 && ratio >= 0.9)
  }

  lemma RatioAtLeast(a: real, n: real, c: real)
    requires n > 0.0
    ensures a / n >= c <==> a >= c * n
  {
    assert (a / n) * n == a;
    if a / n >= c {
      assert (a / n - c) * n >= 0.0;
    } else {
      assert (c - a / n) * n > 0.0;
    }
  }

  lemma RatioBelow(a: real, n: real, c: real)
    requires n > 0.0
    ensures a / n < c <==> a < c * n
  {
    RatioAtLeast(a, n, c);
  }

  /** A scene in which every identity is moving never reads as a stopped vehicle. */
  lemma {:induction false} AllMovingNotStopped(info: seq<MovementInfo>)
    requires forall i :: 0 <= i < |info| ==> info[i].isMoving
    ensures StationaryCount(info) == 0
    ensures !IsVehicleStopped(info)
    decreases |info|
  {
    if |info| > 0 {
      AllMovingNotStopped(info[1..]);
    }
  }

  /** Three or more identities, all stationary, always read as a stopped vehicle. */
  lemma {:induction false} AllStationaryStopped(info: seq<MovementInfo>)
    requires |info| >= 3
    requires forall i :: 0 <= i < |info| ==> !info[i].isMoving
    ensures IsVehicleStopped(info)
  {
    AllStationaryCount(info);
  }

  lemma {:induction false} AllStationaryCount(info: seq<MovementInfo>)
    requires forall i :: 0 <= i < |info| ==> !info[i].isMoving
    ensures StationaryCount(info) == |info|
    decreases |info|
  {
    if |info| > 0 {
      AllStationaryCount(info[1..]);
    }
  }
}
