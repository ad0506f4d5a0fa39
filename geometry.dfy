/**
 * The `distance` helper of the face app: Euclidean distance between two
 * 2-D keypoints. The host's `Math.sqrt` is a parameter; the properties
 * that depend on it assume it returns the exact non-negative root.
 */
module Geometry {

  /** A keypoint reduced to its 2-D image coordinates (`[pt.x, pt.y]`). */
  datatype Point = Point(x: real, y: real)

  /**
   * `sqrt` behaves as `Math.sqrt` does on the reals: the root of zero is
   * zero, and every non-negative argument has a non-negative root whose
   * square is the argument.
   */
  ghost predicate IsSquareRoot(sqrt: real -> real)
  {
    sqrt(0.0) == 0.0 &&
    forall v: real :: 0.0 <= v ==> 0.0 <= sqrt(v) && sqrt(v) * sqrt(v) == v
  }

  /** The sum of the squared coordinate differences. */
  function SquaredDistance(a: Point, b: Point): (q: real)
    ensures 0.0 <= q
  {
    var dx, dy := a.x - b.x, a.y - b.y;
    SquareNonNegative(dx);
    SquareNonNegative(dy);
    dx * dx + dy * dy
  }

  /** A real number squares to a non-negative number. */
  lemma SquareNonNegative(v: real)
    ensures 0.0 <= v * v
  {
    if v < 0.0 {
      var w := -v;
      assert w * w > 0.0 * w;
      assert v * v == w * w;
    }
  }

  /** `distance(a, b)`: the square root of the squared differences. */
  function Distance(sqrt: real -> real, a: Point, b: Point): (d: real)
    ensures IsSquareRoot(sqrt) ==> 0.0 <= d && d * d == SquaredDistance(a, b)
  {
    sqrt(SquaredDistance(a, b))
  }

  /** The distance does not depend on the order of its arguments, whatever `sqrt` is. */
  lemma DistanceSymmetric(sqrt: real -> real, a: Point, b: Point)
    ensures Distance(sqrt, a, b) == Distance(sqrt, b, a)
  {
    assert (a.x - b.x) * (a.x - b.x) == (b.x - a.x) * (b.x - a.x);
    assert (a.y - b.y) * (a.y - b.y) == (b.y - a.y) * (b.y - a.y);
  }

  /** A point is at distance zero from itself. */
  lemma DistanceToSelf(sqrt: real -> real, p: Point)
    requires IsSquareRoot(sqrt)
    ensures Distance(sqrt, p, p) == 0.0
  {
    assert SquaredDistance(p, p) == 0.0;
  }
}
