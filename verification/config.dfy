/** The read-only configuration surface of the pipeline: the detector's class allow-list,
    the pinhole-camera constants, and every threshold the stages and the alert
    arbitration compare against. Quantities are exact reals (meters, seconds, m/s). */
module Config {

  /** The classes the detector lets through; any other label is dropped before the
      pipeline sees it. */
  datatype ObjectClass = Person | Car | Truck | Bus | Motorcycle | Bicycle

  const DetectionClasses: seq<ObjectClass> := [Person, Car, Truck, Bus, Motorcycle, Bicycle]

  /** The label the detector reports for a class, as written into warning records. */
  function ClassName(c: ObjectClass): string {
    match c
    case Person => "person"
    case Car => "car"
    case Truck => "truck"
    case Bus => "bus"
    case Motorcycle => "motorcycle"
    case Bicycle => "bicycle"
  }

  /** Camera focal length, in pixels. */
  const FocalLength: real := 900.0

  /** Real-world height of each class, in meters. */
  const RealHeights: map<ObjectClass, real> :=
    map[Person := 1.7, Car := 1.5, Truck := 2.5, Bus := 2.8, Motorcycle := 1.2, Bicycle := 1.5]

  /** Distance bands of the distance-only classifier. The source calls the danger bound
      `SAFE_DISTANCE`: at or below it an object is dangerous. */
  const SafeDistance: real := 8.0
  const WarningDistance: real := 15.0
  const CautionDistance: real := 20.0

  const TtcDanger: real := 2.0
  const TtcWarning: real := 4.0
  const TtcCaution: real := 6.0

  /** Driver reaction time (s) and braking deceleration (m/s^2) of the stopping-distance model. */
  const ReactionTime: real := 1.2
  const Deceleration: real := 6.0

  const MotionHistorySize: nat := 10
  const MotionThreshold: real := 0.02
  const StationaryRatioThreshold: real := 0.7

  /** Noise rejection and hysteresis of the alert arbitration. */
  const MinVelocityForAlert: real := 0.5
  const MaxTtcForAlert: real := 10.0
  const ConsecutiveRiskThreshold: nat := 4
  const ConsecutiveSafeThreshold: nat := 1

  const LaneLeftMargin: real := 0.25
  const LaneRightMargin: real := 0.25

  /** The stage switches; all three are on in the shipped configuration. */
  const EnableLaneFilter: bool := true
  const EnableTtc: bool := true
  const EnableMotionDetection: bool := true

  /** Every allowed class has a positive real height and the focal length is positive, so
      a distance can only be unknown because of the box, never because of the class. */
  lemma HeightsCoverAllowList()
    ensures FocalLength > 0.0
    ensures forall c: ObjectClass :: c in RealHeights && RealHeights[c] > 0.0
    ensures forall c: ObjectClass :: c in DetectionClasses
  {
    forall c: ObjectClass
      ensures c in RealHeights && RealHeights[c] > 0.0 && c in DetectionClasses
    {
      match c
      case Person => assert DetectionClasses[0] == c;
      case Car => assert DetectionClasses[1] == c;
      case Truck => assert DetectionClasses[2] == c;
      case Bus => assert DetectionClasses[3] == c;
      case Motorcycle => assert DetectionClasses[4] == c;
      case Bicycle => assert DetectionClasses[5] == c;
    }
  }

  /** The distance, TTC and lane constants are internally consistent. */
  lemma ThresholdsConsistent()
    ensures 0.0 < SafeDistance < WarningDistance < CautionDistance
    ensures 0.0 < TtcDanger < TtcWarning < TtcCaution
    ensures 0.0 <= LaneLeftMargin && 0.0 <= LaneRightMargin && LaneLeftMargin + LaneRightMargin < 1.0
    ensures ConsecutiveSafeThreshold <= ConsecutiveRiskThreshold
  {
  }
}
