/** `Utils.positionsCloseEnough`: whether two world positions are close on the floor plane. */
module Positions {
  import opened Wrappers
  import opened Geometry
  import opened Constants

  /** The squared horizontal distance; the height `y` is ignored. */
  function SquaredFloorDistance(a: Vector3, b: Vector3): (d: real)
    ensures d >= 0.0
  {
    (a.x - b.x) * (a.x - b.x) + (a.z - b.z) * (a.z - b.z)
  }

  /**
   * `null` on either side is never close. Otherwise the length of the
   * horizontal difference must not exceed the detection distance; both
   * sides are non-negative, so the comparison is made on squares.
   */
  function PositionsCloseEnough(a: Option<Vector3>, b: Option<Vector3>): (r: bool)
    ensures r ==> a.Some? && b.Some?
  {
    a.Some? && b.Some? &&
    SquaredFloorDistance(a.value, b.value)
      <= FUZZY_TARGET_DETECTION_DISTANCE * FUZZY_TARGET_DETECTION_DISTANCE
  }

  lemma NegatedSquare(x: real)
    ensures (-x) * (-x) == x * x
  {
  }

  lemma {:induction false} CloseEnoughIsSymmetric(a: Option<Vector3>, b: Option<Vector3>)
    ensures PositionsCloseEnough(a, b) == PositionsCloseEnough(b, a)
  {
    if a.Some? && b.Some? {
      var p, q := a.value, b.value;
      NegatedSquare(p.x - q.x);
      NegatedSquare(p.z - q.z);
      assert q.x - p.x == -(p.x - q.x) && q.z - p.z == -(p.z - q.z);
      assert SquaredFloorDistance(p, q) == SquaredFloorDistance(q, p);
    }
  }

  /** Every known position is close to itself. */
  lemma CloseEnoughIsReflexive(p: Vector3)
    ensures PositionsCloseEnough(Some(p), Some(p))
  {
  }

  /** Positions that differ only in height are close. */
  lemma HeightIsIgnored(p: Vector3, height: real)
    ensures PositionsCloseEnough(Some(p), Some(p.(y := height)))
  {
  }

  /** Five centimeters apart is close enough, twenty is not. */
  lemma DetectionDistanceExamples()
    ensures PositionsCloseEnough(Some(Vector3(0.0, 0.0, 0.0)), Some(Vector3(0.05, 3.0, 0.0)))
    ensures !PositionsCloseEnough(Some(Vector3(0.0, 0.0, 0.0)), Some(Vector3(0.0, 0.0, 0.2)))
  {
  }
}
