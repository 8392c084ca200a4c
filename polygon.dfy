/** `Polygon`: the measured floor area and its even-odd (ray casting) point test. */
module Polygons {
  import opened Geometry

  /** A polygon given by its vertices in order; the last vertex closes back to the first. */
  datatype Polygon = Polygon(points: seq<Vector2D>)

  /** The vertex the edge ending at vertex `i` starts from: the previous one, or the last for `i == 0`. */
  function Previous(n: nat, i: nat): (j: nat)
    requires i < n
    ensures j < n
  {
    if i == 0 then n - 1 else i - 1
  }

  /** Exactly one end of the edge lies strictly above the point's height. */
  predicate Straddles(pi: Vector2D, pj: Vector2D, point: Vector2D)
  {
    (pi.y > point.y) != (pj.y > point.y)
  }

  /** The `x` at which the line through the edge reaches the point's height. */
  function CrossingX(pi: Vector2D, pj: Vector2D, point: Vector2D): real
    requires pj.y != pi.y
  {
    (pj.x - pi.x) * (point.y - pi.y) / (pj.y - pi.y) + pi.x
  }

  /**
   * The ray from the point toward positive `x` crosses the edge between
   * `pi` and `pj`. The division is only reached for a straddling edge,
   * whose ends have different heights.
   */
  predicate RayCrosses(pi: Vector2D, pj: Vector2D, point: Vector2D)
  {
    Straddles(pi, pj, point) && point.x < CrossingX(pi, pj, point)
  }

  /** Edge `i` runs from the previous vertex to vertex `i`. */
  predicate EdgeCrosses(points: seq<Vector2D>, i: nat, point: Vector2D)
    requires i < |points|
  {
    RayCrosses(points[i], points[Previous(|points|, i)], point)
  }

  /** How many of the first `k` edges the ray crosses. */
  function Crossings(points: seq<Vector2D>, point: Vector2D, k: nat): (c: nat)
    requires k <= |points|
    ensures c <= k
  {
    if k == 0 then 0
    else Crossings(points, point, k - 1) + (if EdgeCrosses(points, k - 1, point) then 1 else 0)
  }

  /** The even-odd rule: inside when the ray crosses the boundary an odd number of times. */
  predicate Inside(polygon: Polygon, point: Vector2D): (b: bool)
    ensures |polygon.points| < 2 ==> !b
  {
    Crossings(polygon.points, point, |polygon.points|) % 2 == 1
  }

  /** A point inside is passed by the ray across at least one edge. */
  lemma InsideCrossesAnEdge(polygon: Polygon, point: Vector2D)
    requires Inside(polygon, point)
    ensures exists i :: 0 <= i < |polygon.points| && EdgeCrosses(polygon.points, i, point)
  {
    CrossedEdge(polygon.points, point, |polygon.points|);
  }

  /** A ray that crosses the boundary at all crosses some edge. */
  lemma {:induction false} CrossedEdge(points: seq<Vector2D>, point: Vector2D, k: nat)
    requires k <= |points|
    ensures Crossings(points, point, k) > 0 ==> exists i :: 0 <= i < k && EdgeCrosses(points, i, point)
  {
    if k > 0 && !EdgeCrosses(points, k - 1, point) {
      CrossedEdge(points, point, k - 1);
    }
  }

  /** `isPointInPolygon`: the loop toggles the answer at every crossed edge. */
  method IsPointInPolygon(polygon: Polygon, point: Vector2D) returns (result: bool)
    ensures result == Inside(polygon, point)
  {
    var points := polygon.points;
    result := false;
    var i := 0;
    while i < |points|
      invariant 0 <= i <= |points|
      invariant result == (Crossings(points, point, i) % 2 == 1)
    {
      var j := if i == 0 then |points| - 1 else i - 1;
      var pointI, pointJ := points[i], points[j];
      assert j == Previous(|points|, i);
      if (pointI.y > point.y) != (pointJ.y > point.y) {
        if point.x < CrossingX(pointI, pointJ, point) {
          result := !result;
        }
      }
      i := i + 1;
    }
  }

  /** An edge entirely on one side of the point's height is never crossed. */
  lemma {:induction false} NoStraddleNoCrossing(points: seq<Vector2D>, point: Vector2D, k: nat)
    requires k <= |points|
    requires (forall i :: 0 <= i < |points| ==> points[i].y > point.y)
          || (forall i :: 0 <= i < |points| ==> points[i].y <= point.y)
    ensures Crossings(points, point, k) == 0
  {
    if k > 0 {
      NoStraddleNoCrossing(points, point, k - 1);
      var j := Previous(|points|, k - 1);
      assert !Straddles(points[k - 1], points[j], point);
    }
  }

  /** A point strictly below, or level with or above, every vertex is outside. */
  lemma OutsideVerticalExtent(polygon: Polygon, point: Vector2D)
    requires (forall i :: 0 <= i < |polygon.points| ==> polygon.points[i].y > point.y)
          || (forall i :: 0 <= i < |polygon.points| ==> polygon.points[i].y <= point.y)
    ensures !Inside(polygon, point)
  {
    NoStraddleNoCrossing(polygon.points, point, |polygon.points|);
  }

  lemma ProductIsNonNegative(a: real, b: real)
    requires a >= 0.0 && b >= 0.0
    ensures a * b >= 0.0
  {
  }

  /** The crossing lies on the edge, so it is never right of both ends. */
  lemma {:induction false} CrossingWithinEdge(pi: Vector2D, pj: Vector2D, point: Vector2D)
    requires Straddles(pi, pj, point)
    ensures CrossingX(pi, pj, point) <= if pi.x >= pj.x then pi.x else pj.x
  {
    var a, b, dx := point.y - pi.y, pj.y - pi.y, pj.x - pi.x;
    var t := a / b;
    assert 0.0 <= t <= 1.0;
    assert dx * a / b == dx * t;
    if dx >= 0.0 {
      ProductIsNonNegative(dx, 1.0 - t);
    } else {
      ProductIsNonNegative(-dx, t);
    }
  }

  lemma {:induction false} NoCrossingLeftOfPoint(points: seq<Vector2D>, point: Vector2D, k: nat)
    requires k <= |points|
    requires forall i :: 0 <= i < |points| ==> points[i].x <= point.x
    ensures Crossings(points, point, k) == 0
  {
    if k > 0 {
      NoCrossingLeftOfPoint(points, point, k - 1);
      var pi, pj := points[k - 1], points[Previous(|points|, k - 1)];
      if Straddles(pi, pj, point) {
        CrossingWithinEdge(pi, pj, point);
      }
    }
  }

  /** A point level with or right of every vertex is outside: the ray meets no edge. */
  lemma RightOfAllVerticesIsOutside(polygon: Polygon, point: Vector2D)
    requires forall i :: 0 <= i < |polygon.points| ==> polygon.points[i].x <= point.x
    ensures !Inside(polygon, point)
  {
    NoCrossingLeftOfPoint(polygon.points, point, |polygon.points|);
  }

  function Translate(p: Vector2D, d: Vector2D): Vector2D
  {
    Vector2D(p.x + d.x, p.y + d.y)
  }

  function TranslateAll(points: seq<Vector2D>, d: Vector2D): (r: seq<Vector2D>)
    ensures |r| == |points|
    ensures forall i :: 0 <= i < |points| ==> r[i] == Translate(points[i], d)
  {
    seq(|points|, i requires 0 <= i < |points| => Translate(points[i], d))
  }

  /** Only the position relative to the vertices matters: moving both together keeps every crossing. */
  lemma {:induction false} CrossingsAreTranslationInvariant(points: seq<Vector2D>, point: Vector2D, d: Vector2D, k: nat)
    requires k <= |points|
    ensures Crossings(TranslateAll(points, d), Translate(point, d), k) == Crossings(points, point, k)
  {
    if k > 0 {
      CrossingsAreTranslationInvariant(points, point, d, k - 1);
      var moved := TranslateAll(points, d);
      var i, j := k - 1, Previous(|points|, k - 1);
      var pi, pj := points[i], points[j];
      assert moved[i] == Translate(pi, d) && moved[j] == Translate(pj, d);
      if Straddles(pi, pj, point) {
        assert CrossingX(moved[i], moved[j], Translate(point, d)) == CrossingX(pi, pj, point) + d.x;
      }
    }
  }

  lemma TranslationKeepsInside(polygon: Polygon, point: Vector2D, d: Vector2D)
    ensures Inside(Polygon(TranslateAll(polygon.points, d)), Translate(point, d)) == Inside(polygon, point)
  {
    CrossingsAreTranslationInvariant(polygon.points, point, d, |polygon.points|);
  }

  /** The unit square traversed (0,0), (0,1), (1,1), (1,0). */
  const UnitSquare: Polygon := Polygon([Vector2D(0.0, 0.0), Vector2D(0.0, 1.0), Vector2D(1.0, 1.0), Vector2D(1.0, 0.0)])

  /** The square contains its center and not a point beyond its corner. */
  lemma UnitSquareExamples()
    ensures Inside(UnitSquare, Vector2D(0.5, 0.5))
    ensures !Inside(UnitSquare, Vector2D(1.5, 1.5))
  {
    var ps := UnitSquare.points;
    var c := Vector2D(0.5, 0.5);
    assert !EdgeCrosses(ps, 0, c) && !EdgeCrosses(ps, 2, c);
    assert EdgeCrosses(ps, 3, c) && !EdgeCrosses(ps, 1, c);
    OutsideVerticalExtent(UnitSquare, Vector2D(1.5, 1.5));
  }
}
