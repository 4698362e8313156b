/** The distance stage: a pinhole-camera distance estimate per detection and the
    distance-only risk classifier, plus the two queries the frame loop asks of the
    annotated detections (is anything alerting, and which alerting object is closest). */
module Distance {
  import opened Base
  import opened Config
  import opened Detections

  /** Distance in meters from the box's pixel height: `H * f / h`. Unknown for a
      non-positive pixel height or a class without a configured real height. */
  function CalculateDistance(pixelHeight: int, cls: ObjectClass): (r: Option<real>)
    ensures r.None? <==> pixelHeight <= 0 || cls !in RealHeights
    ensures r.Some? ==> r.value * pixelHeight as real == RealHeights[cls] * FocalLength
    ensures r.Some? && RealHeights[cls] > 0.0 ==> r.value > 0.0
  {
    if pixelHeight <= 0 then None
    else if cls !in RealHeights then None
    else Some(RealHeights[cls] * FocalLength / pixelHeight as real)
  }

  /** With the shipped height table, a distance is unknown exactly when the pixel height
      is not positive, and a known distance is positive. */
  lemma DistanceKnownIffPositiveHeight(pixelHeight: int, cls: ObjectClass)
    ensures CalculateDistance(pixelHeight, cls).None? <==> pixelHeight <= 0
    ensures CalculateDistance(pixelHeight, cls).Some? ==> CalculateDistance(pixelHeight, cls).value > 0.0
  {
    HeightsCoverAllowList();
  }

  /** A taller box means a nearer object: distance strictly decreases in pixel height. */
  lemma {:induction false} DistanceDecreasesWithHeight(h1: int, h2: int, cls: ObjectClass)
    requires 0 < h1 < h2
    ensures CalculateDistance(h1, cls).Some? && CalculateDistance(h2, cls).Some?
    ensures CalculateDistance(h2, cls).value < CalculateDistance(h1, cls).value
  {
    HeightsCoverAllowList();
    var d1 := CalculateDistance(h1, cls).value;
    var d2 := CalculateDistance(h2, cls).value;
    var x1, x2 := h1 as real, h2 as real;
    var k := RealHeights[cls] * FocalLength;
    assert d1 * x1 == k && d2 * x2 == k;
    assert d1 > 0.0;
    assert k < d1 * x2 by { MulStrict(d1, x1, x2); }
    CancelPositive(x2, d2, d1);
  }

  lemma MulStrict(a: real, x: real, y: real)
    requires a > 0.0 && x < y
    ensures a * x < a * y
  {
    assert a * y - a * x == a * (y - x);
  }

  lemma CancelPositive(a: real, x: real, y: real)
    requires a > 0.0 && x * a < y * a
    ensures x < y
  {
    assert (y - x) * a == y * a - x * a;
  }

  /** The distance-only classifier. Thresholds are inclusive: at most 8 m is danger, at
      most 15 m warning, at most 20 m caution, anything farther safe. */
  function AssessRiskLevel(distance: Option<real>): (r: Risk)
    ensures Graded(r)
    ensures r.ttc.None? && r.stoppingDistance.None?
    ensures distance.None? <==> r.level == Unknown
    ensures distance.Some? ==>
      && (r.level == Danger <==> distance.value <= SafeDistance)
      && (r.level == Warning <==> SafeDistance < distance.value <= WarningDistance)
      && (r.level == Caution <==> WarningDistance < distance.value <= CautionDistance)
      && (r.level == Safe <==> CautionDistance < distance.value)
  {
    match distance
    case None => Risk(Unknown, false, None, None, None)
    case Some(d) =>
      if d <= SafeDistance then Risk(Danger, true, Some(3), None, None)
      else if d <= WarningDistance then Risk(Warning, true, Some(2), None, None)
      else if d <= CautionDistance then Risk(Caution, false, Some(1), None, None)
      else Risk(Safe, false, Some(0), None, None)
  }

  /** A farther object is never rated more severe than a nearer one. */
  lemma RiskMonotoneInDistance(d1: real, d2: real)
    requires d1 <= d2
    ensures Severity(AssessRiskLevel(Some(d2)).level) <= Severity(AssessRiskLevel(Some(d1)).level)
  {
  }

  /** One detection through the distance stage. */
  function Annotate(d: Detection): Processed {
    var distance := CalculateDistance(d.pixelHeight, d.cls);
    Processed(d, distance, AssessRiskLevel(distance), None)
  }

  /** The distance stage over a frame: one output per input, in order, each keeping the
      detection and gaining its distance and distance-only risk. */
  function ProcessDetections(dets: seq<Detection>): (r: seq<Processed>)
    ensures |r| == |dets|
    ensures forall i :: 0 <= i < |r| ==>
      && r[i].det == dets[i]
      && r[i].distance == CalculateDistance(dets[i].pixelHeight, dets[i].cls)
      && r[i].risk == AssessRiskLevel(r[i].distance)
      && r[i].relativeVelocity.None?
  {
    seq(|dets|, i requires 0 <= i < |dets| => Annotate(dets[i]))
  }

  /** True iff some detection of the frame needs an alert. */
  function HasCollisionRisk(ps: seq<Processed>): (r: bool)
    ensures r <==> exists i :: 0 <= i < |ps| && ps[i].risk.needsAlert
  {
    if |ps| == 0 then false
    else if ps[0].risk.needsAlert then true
    else
      var rest := HasCollisionRisk(ps[1..]);
      assert forall i :: 1 <= i < |ps| ==> ps[i] == ps[1..][i - 1];
      rest
  }

  /** A candidate for the closest-object query: alerting, with a known distance. */
  predicate Dangerous(p: Processed) {
    p.risk.needsAlert && p.distance.Some?
  }

  /** `ps[k]` is a dangerous object no farther than any other and strictly nearer than
      every dangerous object before it. */
  predicate IsClosest(ps: seq<Processed>, k: int) {
    && 0 <= k < |ps|
    && Dangerous(ps[k])
    && (forall j :: 0 <= j < |ps| && Dangerous(ps[j]) ==> ps[k].distance.value <= ps[j].distance.value)
    && (forall j :: 0 <= j < k && Dangerous(ps[j]) ==> ps[k].distance.value < ps[j].distance.value)
  }

  /** The closest dangerous object, or `None` when there is none; on ties the first one
      in frame order wins, as Python's `min` keeps the first minimum. */
  method GetClosestObject(ps: seq<Processed>) returns (r: Option<Processed>)
    ensures r.None? <==> forall i :: 0 <= i < |ps| ==> !Dangerous(ps[i])
    ensures r.Some? ==> exists k :: IsClosest(ps, k) && ps[k] == r.value
  {
    r := None;
    var best := 0;
    var i := 0;
    while i < |ps|
      invariant 0 <= i <= |ps|
      invariant r.None? <==> forall j :: 0 <= j < i ==> !Dangerous(ps[j])
      invariant r.Some? ==> 0 <= best < i && ps[best] == r.value && Dangerous(ps[best])
      invariant r.Some? ==> forall j :: 0 <= j < i && Dangerous(ps[j]) ==> ps[best].distance.value <= ps[j].distance.value
      invariant r.Some? ==> forall j :: 0 <= j < best && Dangerous(ps[j]) ==> ps[best].distance.value < ps[j].distance.value
    {
      if Dangerous(ps[i]) && (r.None? || ps[i].distance.value < r.value.distance.value) {
        r := Some(ps[i]);
        best := i;
      }
      i := i + 1;
    }
  }
}
