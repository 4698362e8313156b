/** The records that flow through one frame: the detector's output, the risk assessment
    attached to it, and the coarse identity that links detections across frames. */
module Detections {
  import opened Base
  import opened Config

  /** A pixel bounding box; the detector truncates its corners to integers. */
  datatype BBox = BBox(x1: int, y1: int, x2: int, y2: int)

  /** One detector output. `pixelHeight` is a field of its own, as in the source; the
      detector sets it to `y2 - y1`. */
  datatype Detection = Detection(cls: ObjectClass, confidence: real, bbox: BBox, pixelHeight: int)

  datatype Level = Unknown | Safe | Caution | Warning | Danger

  /** The order of severity among known levels. */
  function Severity(l: Level): int {
    match l
    case Unknown => -1
    case Safe => 0
    case Caution => 1
    case Warning => 2
    case Danger => 3
  }

  /** The level's name as stored in a warning record. */
  function LevelName(l: Level): string {
    match l
    case Unknown => "unknown"
    case Safe => "safe"
    case Caution => "caution"
    case Warning => "warning"
    case Danger => "danger"
  }

  /** A risk assessment. A key the source leaves out of its dictionary (`priority` for an
      unknown level, `ttc` and `stopping_distance` for the distance-only classifier) reads
      as `None`, exactly as `dict.get` reads it. */
  datatype Risk = Risk(
    level: Level,
    needsAlert: bool,
    priority: Option<int>,
    ttc: Option<real>,
    stoppingDistance: Option<real>)

  /** The grading every assessment follows: only danger and warning alert, and a known
      level carries its severity as priority (3/2/1/0) while unknown carries none. */
  predicate Graded(r: Risk) {
    && (r.needsAlert <==> r.level == Danger || r.level == Warning)
    && (r.level == Unknown <==> r.priority.None?)
    && (r.priority.Some? ==> r.priority.value == Severity(r.level))
  }

  /** A detection after the distance stage (`distance`, `risk`) and, when the TTC stage
      ran, after it (`relativeVelocity`, and a risk that replaces the first one). */
  datatype Processed = Processed(
    det: Detection,
    distance: Option<real>,
    risk: Risk,
    relativeVelocity: Option<real>)

  /** The coarse identity of a detection: its class and the 50-pixel grid cell of its
      box centre. Distinct objects of one class in one cell share an identity. */
  datatype Identity = Identity(cls: ObjectClass, col: int, row: int)

  /** The grid cell index of a centre coordinate `(a + b) / 2`: the floor of the centre
      divided by 50, as Python's `//` computes it, negative coordinates included. */
  function Bin(a: int, b: int): (k: int)
    ensures k as real <= ((a + b) as real / 2.0) / 50.0 < k as real + 1.0
  {
    var s := a + b;
    var k := s / 100;
    assert s == 100 * k + s % 100;
    assert ((s as real) / 2.0) / 50.0 == k as real + (s % 100) as real / 100.0;
    k
  }

  function IdentityOf(cls: ObjectClass, b: BBox): Identity {
    Identity(cls, Bin(b.x1, b.x2), Bin(b.y1, b.y2))
  }

  /** The identity both the TTC stage and the motion tracker file a detection under. */
  function IdOf(p: Processed): Identity {
    IdentityOf(p.det.cls, p.det.bbox)
  }

  /** The identities of a frame's detections. */
  function Identities(ps: seq<Processed>): (r: set<Identity>)
    ensures forall k :: k in r <==> exists i :: 0 <= i < |ps| && IdOf(ps[i]) == k
  {
    if |ps| == 0 then {}
    else
      var rest := Identities(ps[1..]);
      assert forall i :: 1 <= i < |ps| ==> ps[i] == ps[1..][i - 1];
      {IdOf(ps[0])} + rest
  }
}
