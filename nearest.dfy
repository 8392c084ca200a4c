/**
 * `findClosestMeasurement` and `generateEdgePoints` as functions of the
 * measurement values: the first measurement nearest to a point, and the four
 * synthetic measurements placed just outside the heatmap's corners.
 */
module Nearest {
  import opened Geometry
  import opened Constants
  import opened Measurements

  /** How the power of the synthetic corner measurements is chosen. */
  datatype ExternalPointStrategy = AssumeLow | AssumeNearest | AssumeHigh

  function Positions(samples: seq<Sample>): (r: seq<Vector2D>)
    ensures |r| == |samples|
    ensures forall i :: 0 <= i < |samples| ==> r[i] == samples[i].position
  {
    seq(|samples|, i requires 0 <= i < |samples| => samples[i].position)
  }

  /**
   * The index of the measurement closest to `p`, found by scanning the list
   * and replacing the candidate only by a strictly closer measurement.
   */
  function ClosestIndex(positions: seq<Vector2D>, p: Vector2D): (i: nat)
    requires |positions| > 0
    ensures i < |positions|
    decreases |positions|
  {
    if |positions| == 1 then 0
    else
      var last := |positions| - 1;
      var k := ClosestIndex(positions[..last], p);
      if SquaredDistance(positions[last], p) < SquaredDistance(positions[k], p) then last else k
  }

  /**
   * No measurement is closer than the one found, and every earlier one is
   * strictly farther: a tie keeps the earliest.
   */
  lemma {:induction false} ClosestIndexIsFirstNearest(positions: seq<Vector2D>, p: Vector2D)
    requires |positions| > 0
    ensures var i := ClosestIndex(positions, p);
            (forall j :: 0 <= j < |positions| ==> SquaredDistance(positions[i], p) <= SquaredDistance(positions[j], p))
            && (forall j :: 0 <= j < i ==> SquaredDistance(positions[j], p) > SquaredDistance(positions[i], p))
    decreases |positions|
  {
    if |positions| > 1 {
      var last := |positions| - 1;
      var prefix := positions[..last];
      ClosestIndexIsFirstNearest(prefix, p);
      var k := ClosestIndex(prefix, p);
      assert forall j :: 0 <= j < last ==> positions[j] == prefix[j];
    }
  }

  /** The two properties determine the index: there is exactly one first-nearest measurement. */
  lemma FirstClosestIsUnique(positions: seq<Vector2D>, p: Vector2D, i: nat)
    requires i < |positions|
    requires forall j :: 0 <= j < |positions| ==> SquaredDistance(positions[i], p) <= SquaredDistance(positions[j], p)
    requires forall j :: 0 <= j < i ==> SquaredDistance(positions[j], p) > SquaredDistance(positions[i], p)
    ensures i == ClosestIndex(positions, p)
  {
    ClosestIndexIsFirstNearest(positions, p);
  }

  /** When a measurement lies exactly on the point, the one chosen is at distance zero from it. */
  lemma ExactHitIsNearest(positions: seq<Vector2D>, p: Vector2D)
    requires p in positions
    ensures SquaredDistance(positions[ClosestIndex(positions, p)], p) == 0.0
  {
    ClosestIndexIsFirstNearest(positions, p);
    var i :| 0 <= i < |positions| && positions[i] == p;
    assert SquaredDistance(positions[i], p) == 0.0;
  }

  /** The corners one cell outside the grid, in the order they are appended. */
  function Corners(sizeX: int, sizeY: int): (c: seq<Vector2D>)
    ensures |c| == 4
    ensures forall i :: 0 <= i < 4 ==> (c[i].x == -1.0 || c[i].x == sizeX as real) && (c[i].y == -1.0 || c[i].y == sizeY as real)
    ensures sizeX != -1 && sizeY != -1 ==> forall i, j :: 0 <= i < j < 4 ==> c[i] != c[j]
  {
    [Pixel(-1, -1), Pixel(-1, sizeY), Pixel(sizeX, -1), Pixel(sizeX, sizeY)]
  }

  function EdgePower(strategy: ExternalPointStrategy, nearestPower: real): (p: real)
    ensures strategy == AssumeNearest ==> p == nearestPower
    ensures strategy != AssumeNearest ==> p == MIN_POWER || p == MAX_POWER
    ensures MIN_POWER <= nearestPower <= MAX_POWER ==> MIN_POWER <= p <= MAX_POWER
  {
    match strategy
    case AssumeLow => MIN_POWER
    case AssumeHigh => MAX_POWER
    case AssumeNearest => nearestPower
  }

  /**
   * The synthetic measurement at `corner`: a copy of the measurement nearest
   * to it, moved onto the corner, keeping its wavelength and taking the power
   * the strategy prescribes.
   */
  function EdgeSample(samples: seq<Sample>, corner: Vector2D, strategy: ExternalPointStrategy): (r: Sample)
    requires |samples| > 0
    ensures var nearest := samples[ClosestIndex(Positions(samples), corner)];
            r.position == corner && r.wavelength == nearest.wavelength
            && r.power == (match strategy
                           case AssumeLow => MIN_POWER
                           case AssumeHigh => MAX_POWER
                           case AssumeNearest => nearest.power)
  {
    var nearest := samples[ClosestIndex(Positions(samples), corner)];
    Sample(corner, EdgePower(strategy, nearest.power), nearest.wavelength)
  }

  /** The four synthetic measurements, in the order they are appended. */
  function EdgeSamples(samples: seq<Sample>, sizeX: int, sizeY: int, strategy: ExternalPointStrategy): (r: seq<Sample>)
    requires |samples| > 0
    ensures |r| == 4
    ensures Positions(r) == Corners(sizeX, sizeY)
  {
    var corners := Corners(sizeX, sizeY);
    [EdgeSample(samples, corners[0], strategy), EdgeSample(samples, corners[1], strategy),
     EdgeSample(samples, corners[2], strategy), EdgeSample(samples, corners[3], strategy)]
  }

  /** Under the low and high strategies all four corners get the same fixed power, low below high. */
  lemma FixedEdgePowers(samples: seq<Sample>, sizeX: int, sizeY: int)
    requires |samples| > 0
    ensures forall i :: 0 <= i < 4 ==> EdgeSamples(samples, sizeX, sizeY, AssumeLow)[i].power == 0.0
    ensures forall i :: 0 <= i < 4 ==> EdgeSamples(samples, sizeX, sizeY, AssumeHigh)[i].power == 0.0001
    ensures MIN_POWER < MAX_POWER
  {
  }
}
