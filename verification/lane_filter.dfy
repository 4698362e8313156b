/** The lane-of-travel gate: a detection belongs to the lane ahead when its box centre
    lies in the central horizontal band of the frame. The source adds a fallback that
    accepts a box with more than half its width inside the band; this module proves the
    fallback never changes a decision. */
module LaneFilter {
  import opened Base
  import opened Config
  import opened Detections

  function LeftBound(frameWidth: int): real {
    frameWidth as real * LaneLeftMargin
  }

  function RightBound(frameWidth: int): real {
    frameWidth as real * (1.0 - LaneRightMargin)
  }

  /** The centre test alone: the box's horizontal centre lies in the closed band. */
  predicate CentreInBand(b: BBox, frameWidth: int) {
    LeftBound(frameWidth) <= (b.x1 + b.x2) as real / 2.0 <= RightBound(frameWidth)
  }

  /** The fallback as written: the box's width minus the parts sticking out on the left
      and on the right (the overlap is not clamped at zero) exceeds half the width. */
  predicate MostlyInBand(b: BBox, frameWidth: int) {
    var width := (b.x2 - b.x1) as real;
    var outLeft := Max(0.0, LeftBound(frameWidth) - b.x1 as real);
    var outRight := Max(0.0, b.x2 as real - RightBound(frameWidth));
    width - outLeft - outRight > width * 0.5
  }

  /** Whether a box belongs to the lane ahead; with the filter off, every box does. The
      frame height is accepted and never read. */
  function IsInLane(enabled: bool, b: BBox, frameWidth: int, frameHeight: int): (r: bool)
    ensures !enabled ==> r
    ensures enabled && CentreInBand(b, frameWidth) ==> r
  {
    if !enabled then true
    else if CentreInBand(b, frameWidth) then true
    else MostlyInBand(b, frameWidth)
  }

  /** The "more than half inside" fallback is dead: for every box, ordered or not, the
      decision is exactly the centre test. More than half of a box's width lies right of
      the left bound only when its centre does, and likewise on the right. */
  lemma {:induction false} FallbackNeverAccepts(b: BBox, frameWidth: int, frameHeight: int)
    ensures IsInLane(true, b, frameWidth, frameHeight) <==> CentreInBand(b, frameWidth)
  {
    if !CentreInBand(b, frameWidth) {
      var x1, x2 := b.x1 as real, b.x2 as real;
      var l, r := LeftBound(frameWidth), RightBound(frameWidth);
      var width := x2 - x1;
      var outLeft := Max(0.0, l - x1);
      var outRight := Max(0.0, x2 - r);
      if (x1 + x2) / 2.0 < l {
        assert width - outLeft - outRight <= width - (l - x1);
      } else {
        assert width - outLeft - outRight <= width - (x2 - r);
      }
      assert !MostlyInBand(b, frameWidth);
    }
  }

  /** Only the horizontal extent of the box and the frame width matter. */
  lemma LaneDecisionIgnoresVertical(enabled: bool, b: BBox, c: BBox, frameWidth: int, h1: int, h2: int)
    requires b.x1 == c.x1 && b.x2 == c.x2
    ensures IsInLane(enabled, b, frameWidth, h1) == IsInLane(enabled, c, frameWidth, h2)
  {
  }

  /** The detections of a frame that lie in the lane, in their original order. */
  function FilterDetections(enabled: bool, dets: seq<Detection>, frameWidth: int, frameHeight: int): (r: seq<Detection>)
    ensures !enabled ==> r == dets
    ensures |r| <= |dets|
    ensures forall d :: d in r <==> d in dets && IsInLane(enabled, d.bbox, frameWidth, frameHeight)
  {
    if !enabled then dets
    else if |dets| == 0 then []
    else
      var rest := FilterDetections(enabled, dets[1..], frameWidth, frameHeight);
      assert forall d :: d in dets <==> d == dets[0] || d in dets[1..];
      if IsInLane(enabled, dets[0].bbox, frameWidth, frameHeight) then [dets[0]] + rest else rest
  }

  /** Filtering a frame split in two filters each part and keeps them in order: the
      filter is an order-preserving selection. */
  lemma {:induction false} FilterSplits(enabled: bool, a: seq<Detection>, b: seq<Detection>, frameWidth: int, frameHeight: int)
    ensures FilterDetections(enabled, a + b, frameWidth, frameHeight)
         == FilterDetections(enabled, a, frameWidth, frameHeight) + FilterDetections(enabled, b, frameWidth, frameHeight)
    decreases |a|
  {
    if enabled && |a| > 0 {
      assert (a + b)[0] == a[0];
      assert (a + b)[1..] == a[1..] + b;
      FilterSplits(enabled, a[1..], b, frameWidth, frameHeight);
    } else if enabled {
      assert a + b == b;
    }
  }
}
