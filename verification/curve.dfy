/**
 * The curved path drawn through the level positions: one cubic segment per consecutive pair
 * of points, bending alternately up and down, and the clamped length revealed along it.
 */
module CurvedPath {
  import opened Wrappers
  import opened Geometry

  /** A cubic segment: two control points and the point it ends at. */
  datatype Segment = Segment(control1: Point, control2: Point, end: Point)

  /** A path that starts at `start` and follows its segments in order. */
  datatype Curve = Curve(start: Point, segments: seq<Segment>)

  /** Bend of a curve from its distance: 15% of it, but never more than 8 units. */
  function CurveIntensity(distance: real): (r: real)
    ensures distance >= 0.0 ==> 0.0 <= r <= 8.0
    ensures r <= 8.0
    ensures r == 8.0 || r == distance * 0.15
    ensures r <= distance * 0.15
  {
    Min(distance * 0.15, 8.0)
  }

  /** Segments reached at an even index bend one way (+1), those at an odd index the other (-1). */
  function CurveDirection(i: int): (d: real)
    ensures d == 1.0 || d == -1.0
    ensures d == 1.0 <==> i % 2 == 0
  {
    if i % 2 == 0 then 1.0 else -1.0
  }

  /** Consecutive segments bend in opposite directions. */
  lemma CurveDirectionAlternates(i: int)
    ensures CurveDirection(i + 1) == -CurveDirection(i)
  {
  }

  /**
   * The segment from `points[i-1]` to `points[i]`. The distance between the two points is
   * supplied by `dist`, which stands for the Euclidean distance of the rendered code.
   */
  function SegmentAt(points: seq<Point>, dist: (Point, Point) -> real, i: int): Segment
    requires 1 <= i < |points|
  {
    var prev := points[i - 1];
    var current := points[i];
    var midX := (prev.x + current.x) / 2.0;
    var midY := (prev.y + current.y) / 2.0;
    var offset := CurveDirection(i) * CurveIntensity(dist(prev, current));
    Segment(
      Point(prev.x + (midX - prev.x) * 0.8, prev.y + (midY - prev.y) * 0.8 + offset),
      Point(current.x - (current.x - midX) * 0.8, current.y - (current.y - midY) * 0.8 + offset),
      current)
  }

  /** The vertical offset both control points of segment `i` carry. */
  function Bend(points: seq<Point>, dist: (Point, Point) -> real, i: int): real
    requires 1 <= i < |points|
  {
    CurveDirection(i) * CurveIntensity(dist(points[i - 1], points[i]))
  }

  /**
   * The control points sit on the chord at 40% and 60% of the way from `points[i-1]` to
   * `points[i]` (each 0.8 of the way from its end towards the midpoint), both raised by the
   * same bend; the segment ends at `points[i]`.
   */
  lemma SegmentShape(points: seq<Point>, dist: (Point, Point) -> real, i: int)
    requires 1 <= i < |points|
    ensures SegmentAt(points, dist, i).control1 == Raise(Lerp(points[i - 1], points[i], 0.4), Bend(points, dist, i))
    ensures SegmentAt(points, dist, i).control2 == Raise(Lerp(points[i - 1], points[i], 0.6), Bend(points, dist, i))
    ensures SegmentAt(points, dist, i).end == points[i]
    ensures Between(SegmentAt(points, dist, i).control1.x, points[i - 1].x, points[i].x)
    ensures Between(SegmentAt(points, dist, i).control2.x, points[i - 1].x, points[i].x)
    ensures SegmentAt(points, dist, i).control1.x + SegmentAt(points, dist, i).control2.x == points[i - 1].x + points[i].x
  {
    LerpBetween(points[i - 1], points[i], 0.4);
    LerpBetween(points[i - 1], points[i], 0.6);
  }

  /** With a non-negative distance the bend of a segment is at most 8 units either way. */
  lemma BendBounded(points: seq<Point>, dist: (Point, Point) -> real, i: int)
    requires 1 <= i < |points|
    requires dist(points[i - 1], points[i]) >= 0.0
    ensures -8.0 <= Bend(points, dist, i) <= 8.0
  {
  }

  /** Consecutive segments bend to opposite sides (or one of them does not bend). */
  lemma ConsecutiveBendsOpposite(points: seq<Point>, dist: (Point, Point) -> real, i: int)
    requires 1 <= i && i + 1 < |points|
    requires dist(points[i - 1], points[i]) >= 0.0 && dist(points[i], points[i + 1]) >= 0.0
    ensures Bend(points, dist, i) * Bend(points, dist, i + 1) <= 0.0
  {
    var a := CurveIntensity(dist(points[i - 1], points[i]));
    var b := CurveIntensity(dist(points[i], points[i + 1]));
    CurveDirectionAlternates(i);
    assert 0.0 <= a && 0.0 <= b;
    assert a * b >= 0.0 * b;
    assert Bend(points, dist, i) * Bend(points, dist, i + 1) == -(a * b) by {
      if CurveDirection(i) == 1.0 {
        assert Bend(points, dist, i + 1) == -b;
      } else {
        assert Bend(points, dist, i + 1) == b;
      }
    }
  }

  /**
   * Builds the path through `points`: nothing for fewer than two points, otherwise a path
   * starting at the first point with one segment per consecutive pair.
   */
  method CreateCurvedPath(points: seq<Point>, dist: (Point, Point) -> real) returns (path: Option<Curve>)
    ensures path.None? <==> |points| < 2
    ensures path.Some? ==> path.value.start == points[0]
    ensures path.Some? ==> |path.value.segments| == |points| - 1
    ensures path.Some? ==> forall k :: 0 <= k < |path.value.segments| ==>
      path.value.segments[k] == SegmentAt(points, dist, k + 1)
    ensures path.Some? ==> forall k :: 0 <= k < |path.value.segments| ==>
      path.value.segments[k].end == points[k + 1]
  {
    if |points| < 2 {
      return None;
    }
    var segments: seq<Segment> := [];
    var i := 1;
    while i < |points|
      invariant 1 <= i <= |points|
      invariant |segments| == i - 1
      invariant forall k :: 0 <= k < |segments| ==> segments[k] == SegmentAt(points, dist, k + 1)
    {
      segments := segments + [SegmentAt(points, dist, i)];
      i := i + 1;
    }
    return Some(Curve(points[0], segments));
  }

  /** The fraction of the path drawn as travelled: the progress clamped to [0, 1]. */
  function RevealedLength(progress: real): (r: real)
    ensures 0.0 <= r <= 1.0
    ensures 0.0 <= progress <= 1.0 ==> r == progress
    ensures progress < 0.0 ==> r == 0.0
    ensures progress > 1.0 ==> r == 1.0
  {
    Max(0.0, Min(1.0, progress))
  }
}
