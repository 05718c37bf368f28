/** Points of the map's percentage plane and the straight-line interpolation between them. */
module Geometry {

  /** A position in the 0..100 percentage coordinates the map is drawn in. */
  datatype Point = Point(x: real, y: real)

  function Min(a: real, b: real): real {
    if a <= b then a else b
  }

  function Max(a: real, b: real): real {
    if a >= b then a else b
  }

  /** `v` lies on the closed interval spanned by `a` and `b`, in either order. */
  predicate Between(v: real, a: real, b: real) {
    Min(a, b) <= v <= Max(a, b)
  }

  /** The point a fraction `f` of the way from `a` to `b`. */
  function Lerp(a: Point, b: Point, f: real): Point {
    Point(a.x + (b.x - a.x) * f, a.y + (b.y - a.y) * f)
  }

  /** `p` moved vertically by `dy`. */
  function Raise(p: Point, dy: real): Point {
    Point(p.x, p.y + dy)
  }

  /** Interpolation starts at the start point and ends at the target point. */
  lemma LerpEnds(a: Point, b: Point)
    ensures Lerp(a, b, 0.0) == a
    ensures Lerp(a, b, 1.0) == b
  {
  }

  /** A product with a factor in [0, 1] stays between 0 and the other factor. */
  lemma ScaleBetween(d: real, f: real)
    requires 0.0 <= f <= 1.0
    ensures Between(d * f, 0.0, d)
  {
    if d >= 0.0 {
      assert d * f <= d * 1.0;
    } else {
      assert d * f >= d * 1.0;
    }
  }

  /** For a fraction in [0, 1] the interpolated point lies in the box spanned by the two ends. */
  lemma LerpBetween(a: Point, b: Point, f: real)
    ensures 0.0 <= f <= 1.0 ==> Between(Lerp(a, b, f).x, a.x, b.x)
    ensures 0.0 <= f <= 1.0 ==> Between(Lerp(a, b, f).y, a.y, b.y)
  {
    if 0.0 <= f <= 1.0 {
      ScaleBetween(b.x - a.x, f);
      ScaleBetween(b.y - a.y, f);
    }
  }
}
