/**
 * Plane geometry used by the Sierpinski subdivision: points, triangles given
 * as (top, left, right), the midpoint of two points and the split of one
 * triangle into its three corner triangles.
 *
 * Coordinates are exact reals, so the midpoint is an exact mean; the
 * IEEE-754 rounding of the `f64` coordinates is not modelled.
 */
module Geometry {

  datatype Point = Point(x: real, y: real)

  /** An ordered triple of corners: apex, left base corner, right base corner. */
  datatype Triangle = Triangle(top: Point, left: Point, right: Point)

  function Vertices(t: Triangle): set<Point>
  {
    {t.top, t.left, t.right}
  }

  /** The displacement vector that leads from `a` to `b`. */
  function Delta(a: Point, b: Point): Point
  {
    Point(b.x - a.x, b.y - a.y)
  }

  /** The point a fraction `s` of the way along the segment from `a` to `b`. */
  function Lerp(a: Point, b: Point, s: real): Point
  {
    Point(a.x + s * (b.x - a.x), a.y + s * (b.y - a.y))
  }

  /** The coordinate-wise mean of two points. */
  function Midpoint(a: Point, b: Point): Point
  {
    Point((a.x + b.x) / 2.0, (a.y + b.y) / 2.0)
  }

  /**
   * The mean, characterised without the averaging formula: it is the point
   * halfway along the segment, the one reached from `a` by the same step that
   * leads on from it to `b`.
   */
  lemma MidpointHalfway(a: Point, b: Point)
    ensures Delta(a, Midpoint(a, b)) == Delta(Midpoint(a, b), b)
    ensures Midpoint(a, b) == Lerp(a, b, 0.5)
  {
  }

  /** The order of the two arguments does not matter. */
  lemma MidpointSymmetric(a: Point, b: Point)
    ensures Midpoint(a, b) == Midpoint(b, a)
  {
  }

  /** Only the midpoint splits the segment into two equal steps. */
  lemma MidpointUnique(a: Point, b: Point, m: Point)
    ensures Delta(a, m) == Delta(m, b) <==> m == Midpoint(a, b)
  {
  }

  /** The six points a single subdivision step can use: the corners and the edge midpoints. */
  function SubdivisionPoints(t: Triangle): set<Point>
  {
    {t.top, t.left, t.right,
     Midpoint(t.top, t.left), Midpoint(t.top, t.right), Midpoint(t.left, t.right)}
  }

  /**
   * The three corner triangles of `t`, in drawing order: the top one, the
   * left one, the right one. Each keeps exactly one corner of `t`, in the
   * same role, and takes the other two from the edge midpoints; neighbouring
   * children share one midpoint.
   */
  function Subdivide(t: Triangle): (cs: seq<Triangle>)
    ensures |cs| == 3
    ensures cs[0].top == t.top && cs[1].left == t.left && cs[2].right == t.right
    ensures cs[0].left == cs[1].top && cs[0].right == cs[2].top && cs[1].right == cs[2].left
  {
    var leftMiddle := Midpoint(t.top, t.left);
    var rightMiddle := Midpoint(t.top, t.right);
    var bottomMiddle := Midpoint(t.left, t.right);
    [Triangle(t.top, leftMiddle, rightMiddle),
     Triangle(leftMiddle, t.left, bottomMiddle),
     Triangle(rightMiddle, bottomMiddle, t.right)]
  }

  /**
   * The children use only the corners and edge midpoints of `t`, and between
   * them all six of those points.
   */
  lemma SubdivideVertices(t: Triangle)
    ensures forall c <- Subdivide(t) :: Vertices(c) <= SubdivisionPoints(t)
    ensures Vertices(Subdivide(t)[0]) + Vertices(Subdivide(t)[1]) + Vertices(Subdivide(t)[2])
            == SubdivisionPoints(t)
  {
  }

  /**
   * Twice the signed area of `t` (positive for one orientation of its
   * corners, negative for the other, zero for a degenerate triangle).
   */
  function Area2(t: Triangle): real
  {
    (t.left.x - t.top.x) * (t.right.y - t.top.y) - (t.right.x - t.top.x) * (t.left.y - t.top.y)
  }

  /**
   * Each child has a quarter of its parent's signed area (so it also keeps
   * the parent's orientation), and what the three children's areas leave of
   * the parent's equals the signed area of the central triangle of midpoints,
   * the hole of the fractal. Only this identity between areas is stated, not
   * that the children do not overlap as regions.
   */
  lemma SubdivideArea(t: Triangle)
    ensures var cs := Subdivide(t);
      && Area2(cs[0]) == Area2(t) / 4.0
      && Area2(cs[1]) == Area2(t) / 4.0
      && Area2(cs[2]) == Area2(t) / 4.0
      && Area2(t) - Area2(cs[0]) - Area2(cs[1]) - Area2(cs[2])
         == Area2(Triangle(Midpoint(t.top, t.left), Midpoint(t.left, t.right), Midpoint(t.top, t.right)))
  {
  }

  // ---------------------------------------------------------------------
  // Points inside a triangle

  /** Barycentric weights of a point with respect to a triangle's top, left and right corner. */
  datatype Weights = Weights(top: real, left: real, right: real)

  predicate Convex(w: Weights)
  {
    w.top >= 0.0 && w.left >= 0.0 && w.right >= 0.0 && w.top + w.left + w.right == 1.0
  }

  /** The point with barycentric weights `w` in `t`. */
  function At(t: Triangle, w: Weights): Point
  {
    Point(w.top * t.top.x + w.left * t.left.x + w.right * t.right.x,
          w.top * t.top.y + w.left * t.left.y + w.right * t.right.y)
  }

  /** `p` lies in the closed triangle `t`: it is a convex combination of its corners. */
  ghost predicate Inside(p: Point, t: Triangle)
  {
    exists w :: Convex(w) && At(t, w) == p
  }

  /**
   * Weights in `t` of the point whose weights in a triangle `u` are `w`,
   * when `u`'s corners have weights `wt`, `wl` and `wr` in `t`.
   */
  function Compose(w: Weights, wt: Weights, wl: Weights, wr: Weights): Weights
  {
    Weights(w.top * wt.top + w.left * wl.top + w.right * wr.top,
            w.top * wt.left + w.left * wl.left + w.right * wr.left,
            w.top * wt.right + w.left * wl.right + w.right * wr.right)
  }

  lemma ComposeAt(t: Triangle, w: Weights, wt: Weights, wl: Weights, wr: Weights)
    ensures At(Triangle(At(t, wt), At(t, wl), At(t, wr)), w) == At(t, Compose(w, wt, wl, wr))
  {
  }

  lemma ComposeConvex(w: Weights, wt: Weights, wl: Weights, wr: Weights)
    requires Convex(w) && Convex(wt) && Convex(wl) && Convex(wr)
    ensures Convex(Compose(w, wt, wl, wr))
  {
    WeightedSumNonNegative(w, wt.top, wl.top, wr.top);
    WeightedSumNonNegative(w, wt.left, wl.left, wr.left);
    WeightedSumNonNegative(w, wt.right, wl.right, wr.right);
  }

  lemma WeightedSumNonNegative(w: Weights, a: real, b: real, c: real)
    requires Convex(w) && a >= 0.0 && b >= 0.0 && c >= 0.0
    ensures w.top * a + w.left * b + w.right * c >= 0.0
  {
    assert w.top * a >= 0.0;
    assert w.left * b >= 0.0;
    assert w.right * c >= 0.0;
  }

  /** A point inside a triangle whose corners are inside `t` is inside `t`. */
  lemma InsideTransitive(p: Point, u: Triangle, t: Triangle)
    requires Inside(p, u)
    requires Inside(u.top, t) && Inside(u.left, t) && Inside(u.right, t)
    ensures Inside(p, t)
  {
    var w :| Convex(w) && At(u, w) == p;
    var wt :| Convex(wt) && At(t, wt) == u.top;
    var wl :| Convex(wl) && At(t, wl) == u.left;
    var wr :| Convex(wr) && At(t, wr) == u.right;
    ComposeAt(t, w, wt, wl, wr);
    ComposeConvex(w, wt, wl, wr);
    assert Convex(Compose(w, wt, wl, wr)) && At(t, Compose(w, wt, wl, wr)) == p;
  }

  lemma CornersInside(t: Triangle)
    ensures Inside(t.top, t) && Inside(t.left, t) && Inside(t.right, t)
  {
    assert At(t, Weights(1.0, 0.0, 0.0)) == t.top;
    assert At(t, Weights(0.0, 1.0, 0.0)) == t.left;
    assert At(t, Weights(0.0, 0.0, 1.0)) == t.right;
  }

  /** Every corner of every child of `t` lies inside `t`. */
  lemma SubdivideInside(t: Triangle)
    ensures forall c <- Subdivide(t) :: Inside(c.top, t) && Inside(c.left, t) && Inside(c.right, t)
  {
    CornersInside(t);
    assert At(t, Weights(0.5, 0.5, 0.0)) == Midpoint(t.top, t.left);
    assert At(t, Weights(0.5, 0.0, 0.5)) == Midpoint(t.top, t.right);
    assert At(t, Weights(0.0, 0.5, 0.5)) == Midpoint(t.left, t.right);
  }
}
