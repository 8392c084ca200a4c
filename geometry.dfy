/**
 * The value types shared by the heatmap pipeline. A Java `double` is a `real`;
 * NaN is the explicit `NaN` case of `Cell`.
 */
module Geometry {

  /** A point of the triangulation library (`Vector2D`): two doubles. */
  datatype Vector2D = Vector2D(x: real, y: real)

  /** A Sceneform world position (`Vector3`). */
  datatype Vector3 = Vector3(x: real, y: real, z: real)

  /** A triangle of the triangulation library (`Triangle2D`): three vertices. */
  datatype Triangle = Triangle(a: Vector2D, b: Vector2D, c: Vector2D)

  /** A double of the scalar grid or a progress percentage: a number, or NaN. */
  datatype Cell = Val(v: real) | NaN

  /** `p.sub(q)`. */
  function Sub(p: Vector2D, q: Vector2D): Vector2D
  {
    Vector2D(p.x - q.x, p.y - q.y)
  }

  /**
   * The square of `p.sub(q).mag()`. Comparing squares orders points exactly as
   * comparing the magnitudes does, because the square root is monotone.
   */
  function SquaredDistance(p: Vector2D, q: Vector2D): (d: real)
    ensures d >= 0.0
    ensures p == q ==> d == 0.0
  {
    var v := Sub(p, q);
    v.x * v.x + v.y * v.y
  }

  /** The grid point `new Vector2D(x, y)` for integer pixel coordinates. */
  function Pixel(x: int, y: int): Vector2D
  {
    Vector2D(x as real, y as real)
  }
}
