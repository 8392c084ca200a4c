/**
 * `ColorSelector`: how heatmap values are mapped to gradient colors, and the
 * search for the smallest and largest value inside the measured area.
 */
module ColorSelection {
  import opened Wrappers
  import opened Geometry
  import opened Constants
  import opened Polygons
  import opened Gradients

  datatype Mode = Bounds | WifiBars

  /** The name of a mode as the settings store it. */
  function ModeName(mode: Mode): string
  {
    match mode
    case Bounds => "BOUNDS"
    case WifiBars => "WIFI_BARS"
  }

  /** `getMode`: `"WIFI_BARS"` selects the wifi-bars mode; every other string, the bounds mode. */
  function GetMode(modeString: string): (mode: Mode)
    ensures mode == WifiBars <==> modeString == ModeName(WifiBars)
  {
    if modeString == "WIFI_BARS" then WifiBars else Bounds
  }

  /** A stored mode name reads back as the same mode. */
  lemma GetModeOfNameIsIdentity(mode: Mode)
    ensures GetMode(ModeName(mode)) == mode
  {
  }

  /**
   * A constructed selector. The gradient bitmap drawn from the colors is
   * not modelled; its width is.
   */
  datatype ColorSelector = ColorSelector(mode: Mode, colors: seq<int>, gradientWidth: int, startValue: Cell, endValue: Cell)

  /**
   * The constructor. In bounds mode exactly two boundaries must be given and
   * the width comes from the gradient-width setting (read only in this mode,
   * so its failure surfaces only here), `-1` standing for one pixel per
   * color. In wifi-bars mode the boundaries are ignored and both become
   * NaN. Creating the one-pixel-high gradient bitmap throws for a width that
   * is not positive.
   */
  function NewColorSelector(mode: Mode, colors: GradientColors, boundaries: Option<seq<real>>,
                            gradientWidthSetting: Result<int>): (r: Result<ColorSelector>)
    requires |colors.GetColors()| >= 2
    ensures r.Ok? ==> r.value.gradientWidth > 0 && r.value.mode == mode && r.value.colors == colors.GetColors()
    ensures mode == WifiBars ==>
              r.Ok? && r.value.startValue == NaN && r.value.endValue == NaN
              && r.value.gradientWidth == |colors.GetColors()|
    ensures mode == Bounds && (boundaries.None? || |boundaries.value| != 2) ==> r == Err(IllegalArgument)
    ensures mode == Bounds && boundaries.Some? && |boundaries.value| == 2 ==>
              match gradientWidthSetting
              case Err(e) => r == Err(e)
              case Ok(w) =>
                if w == -1 then r.Ok? && r.value.gradientWidth == |colors.GetColors()|
                else if w <= 0 then r == Err(IllegalArgument)
                else r.Ok? && r.value.gradientWidth == w
    ensures r.Ok? && mode == Bounds ==>
              boundaries.Some? && |boundaries.value| == 2 &&
              r.value.startValue == Val(boundaries.value[0]) && r.value.endValue == Val(boundaries.value[1])
  {
    var colorValues := colors.GetColors();
    match mode
    case WifiBars =>
      Ok(ColorSelector(WifiBars, colorValues, |colorValues|, NaN, NaN))
    case Bounds =>
      if boundaries.None? || |boundaries.value| != 2 then Err(IllegalArgument)
      else
        match gradientWidthSetting
        case Err(e) => Err(e)
        case Ok(setting) =>
          var width := if setting == -1 then |colorValues| else setting;
          if width <= 0 then Err(IllegalArgument)
          else Ok(ColorSelector(Bounds, colorValues, width, Val(boundaries.value[0]), Val(boundaries.value[1])))
  }

  /** A cell taking part in the search: a number, at a grid point inside the area. */
  predicate Qualifies(area: Polygon, heatmap: array2<Cell>, x: int, y: int)
    requires 0 <= x < heatmap.Length0 && 0 <= y < heatmap.Length1
    reads heatmap
  {
    Inside(area, Pixel(x, y)) && heatmap[x, y].Val?
  }

  /** Cell `(i, j)` comes before cell `(x, y)` in the row-by-row scan. */
  predicate ScannedBefore(i: int, j: int, x: int, y: int)
  {
    i < x || (i == x && j < y)
  }

  /** Every number of the grid is a finite `double`. */
  predicate FiniteDoubles(heatmap: array2<Cell>)
    reads heatmap
  {
    forall x, y :: 0 <= x < heatmap.Length0 && 0 <= y < heatmap.Length1 && heatmap[x, y].Val? ==>
      -DOUBLE_MAX_VALUE <= heatmap[x, y].v <= DOUBLE_MAX_VALUE
  }

  /**
   * The state of the search once every cell before `(x, y)` has been seen:
   * `found` says whether one qualified; `min` is the smallest seen, at
   * `(minX, minY)`, or still the largest double; `max` is at least
   * `Double.MIN_VALUE` and is either that value or the largest seen, at
   * `(maxX, maxY)`.
   */
  ghost predicate Searched(area: Polygon, heatmap: array2<Cell>, x: int, y: int, min: real, max: real,
                           found: bool, minX: int, minY: int, maxX: int, maxY: int)
    reads heatmap
  {
    (found <==> exists i, j :: 0 <= i < heatmap.Length0 && 0 <= j < heatmap.Length1
                   && ScannedBefore(i, j, x, y) && Qualifies(area, heatmap, i, j))
    && (!found ==> min == DOUBLE_MAX_VALUE)
    && (found ==> 0 <= minX < heatmap.Length0 && 0 <= minY < heatmap.Length1 && ScannedBefore(minX, minY, x, y)
                  && Qualifies(area, heatmap, minX, minY) && heatmap[minX, minY].v == min)
    && (forall i, j ::
          (0 <= i < heatmap.Length0 && 0 <= j < heatmap.Length1 && ScannedBefore(i, j, x, y)
           && Qualifies(area, heatmap, i, j)) ==> min <= heatmap[i, j].v <= max)
    && max >= DOUBLE_MIN_VALUE
    && (max == DOUBLE_MIN_VALUE ||
        (0 <= maxX < heatmap.Length0 && 0 <= maxY < heatmap.Length1 && ScannedBefore(maxX, maxY, x, y)
         && Qualifies(area, heatmap, maxX, maxY) && heatmap[maxX, maxY].v == max))
  }

  /** The end of one row of the scan is the start of the next. */
  lemma NextRow(area: Polygon, heatmap: array2<Cell>, x: int, min: real, max: real,
                found: bool, minX: int, minY: int, maxX: int, maxY: int)
    requires Searched(area, heatmap, x, heatmap.Length1, min, max, found, minX, minY, maxX, maxY)
    ensures Searched(area, heatmap, x + 1, 0, min, max, found, minX, minY, maxX, maxY)
  {
    assert forall i, j :: 0 <= j < heatmap.Length1 ==> (ScannedBefore(i, j, x, heatmap.Length1) <==> ScannedBefore(i, j, x + 1, 0));
  }

  /** The inner loop of the search: the cells `(x, 0), ..., (x, sizeY - 1)`. */
  method SearchRow(area: Polygon, heatmap: array2<Cell>, x: int, min0: real, max0: real,
                   ghost found0: bool, ghost minX0: int, ghost minY0: int, ghost maxX0: int, ghost maxY0: int)
    returns (min: real, max: real, ghost found: bool, ghost minX: int, ghost minY: int, ghost maxX: int, ghost maxY: int)
    requires 0 <= x < heatmap.Length0 && FiniteDoubles(heatmap)
    requires Searched(area, heatmap, x, 0, min0, max0, found0, minX0, minY0, maxX0, maxY0)
    ensures Searched(area, heatmap, x, heatmap.Length1, min, max, found, minX, minY, maxX, maxY)
  {
    min, max, found, minX, minY, maxX, maxY := min0, max0, found0, minX0, minY0, maxX0, maxY0;
    var y := 0;
    while y < heatmap.Length1
      invariant 0 <= y <= heatmap.Length1
      invariant Searched(area, heatmap, x, y, min, max, found, minX, minY, maxX, maxY)
    {
      min, max, found, minX, minY, maxX, maxY := SearchCell(area, heatmap, x, y, min, max, found, minX, minY, maxX, maxY);
      y := y + 1;
    }
  }

  /** One pass of the inner loop: cell `(x, y)` is compared with the bounds found so far. */
  method SearchCell(area: Polygon, heatmap: array2<Cell>, x: int, y: int, min0: real, max0: real,
                    ghost found0: bool, ghost minX0: int, ghost minY0: int, ghost maxX0: int, ghost maxY0: int)
    returns (min: real, max: real, ghost found: bool, ghost minX: int, ghost minY: int, ghost maxX: int, ghost maxY: int)
    requires 0 <= x < heatmap.Length0 && 0 <= y < heatmap.Length1 && FiniteDoubles(heatmap)
    requires Searched(area, heatmap, x, y, min0, max0, found0, minX0, minY0, maxX0, maxY0)
    ensures Searched(area, heatmap, x, y + 1, min, max, found, minX, minY, maxX, maxY)
  {
    min, max, found, minX, minY, maxX, maxY := min0, max0, found0, minX0, minY0, maxX0, maxY0;
    var heatmapCell := heatmap[x, y];
    var inside := IsPointInPolygon(area, Pixel(x, y));
    if inside && heatmapCell.Val? {
      if heatmapCell.v >= max {
        max := heatmapCell.v;
        maxX, maxY := x, y;
      }
      if heatmapCell.v <= min {
        min := heatmapCell.v;
        minX, minY := x, y;
      }
      found := true;
      assert Qualifies(area, heatmap, x, y);
    } else {
      assert !Qualifies(area, heatmap, x, y);
    }
  }

  /**
   * `findMinAndMaxValuesInHeatmap`. The minimum starts at the largest double
   * and the maximum at `Double.MIN_VALUE`, the smallest POSITIVE double, so
   * the reported maximum is never below that value. The search throws
   * exactly when no cell qualifies.
   */
  method FindMinAndMaxValuesInHeatmap(area: Polygon, heatmap: array2<Cell>) returns (r: Result<(real, real)>)
    requires FiniteDoubles(heatmap)
    ensures r.Err? <==>
              forall x, y :: 0 <= x < heatmap.Length0 && 0 <= y < heatmap.Length1 ==> !Qualifies(area, heatmap, x, y)
    ensures r.Err? ==> r.error == IllegalArgument
    ensures r.Ok? ==>
              (forall x, y :: 0 <= x < heatmap.Length0 && 0 <= y < heatmap.Length1 && Qualifies(area, heatmap, x, y) ==>
                 r.value.0 <= heatmap[x, y].v <= r.value.1)
              && (exists x, y :: 0 <= x < heatmap.Length0 && 0 <= y < heatmap.Length1 && Qualifies(area, heatmap, x, y)
                                 && heatmap[x, y].v == r.value.0)
    ensures r.Ok? ==>
              r.value.1 >= DOUBLE_MIN_VALUE &&
              (r.value.1 == DOUBLE_MIN_VALUE ||
               exists x, y :: 0 <= x < heatmap.Length0 && 0 <= y < heatmap.Length1 && Qualifies(area, heatmap, x, y)
                              && heatmap[x, y].v == r.value.1)
  {
    var max := DOUBLE_MIN_VALUE;
    var min := DOUBLE_MAX_VALUE;
    ghost var found := false;
    ghost var minX, minY, maxX, maxY := 0, 0, 0, 0;
    var x := 0;
    while x < heatmap.Length0
      invariant 0 <= x <= heatmap.Length0
      invariant Searched(area, heatmap, x, 0, min, max, found, minX, minY, maxX, maxY)
    {
      min, max, found, minX, minY, maxX, maxY := SearchRow(area, heatmap, x, min, max, found, minX, minY, maxX, maxY);
      NextRow(area, heatmap, x, min, max, found, minX, minY, maxX, maxY);
      x := x + 1;
    }
    assert forall i, j :: 0 <= i < heatmap.Length0 ==> ScannedBefore(i, j, x, 0);
    if min <= max {
      r := Ok((min, max));
    } else {
      r := Err(IllegalArgument);
    }
  }

  /** The triangle that covers the 2x2 grid except its corner `(0, 0)`. */
  const CornerCutArea: Polygon := Polygon([Vector2D(-0.1, 1.1), Vector2D(1.1, -0.1), Vector2D(1.1, 1.1)])

  /** The number of edges of the area the ray from a point crosses. */
  lemma {:induction false} CornerCutCrossings(p: Vector2D, e0: bool, e1: bool, e2: bool)
    requires EdgeCrosses(CornerCutArea.points, 0, p) == e0
    requires EdgeCrosses(CornerCutArea.points, 1, p) == e1
    requires EdgeCrosses(CornerCutArea.points, 2, p) == e2
    ensures Inside(CornerCutArea, p) <==> ((if e0 then 1 else 0) + (if e1 then 1 else 0) + (if e2 then 1 else 0)) % 2 == 1
  {
    var ps := CornerCutArea.points;
    assert Crossings(ps, p, 1) == (if e0 then 1 else 0);
    assert Crossings(ps, p, 2) == Crossings(ps, p, 1) + (if e1 then 1 else 0);
    assert Crossings(ps, p, 3) == Crossings(ps, p, 2) + (if e2 then 1 else 0);
  }

  /** The ray from `(0, 0)` crosses the two edges on its right; the other grid points see only the last one. */
  lemma CornerCutAreaCoverage()
    ensures !Inside(CornerCutArea, Pixel(0, 0))
    ensures Inside(CornerCutArea, Pixel(0, 1)) && Inside(CornerCutArea, Pixel(1, 0)) && Inside(CornerCutArea, Pixel(1, 1))
  {
    CornerCutCrossings(Pixel(0, 0), false, true, true);
    CornerCutCrossings(Pixel(0, 1), false, false, true);
    CornerCutCrossings(Pixel(1, 0), false, false, true);
    CornerCutCrossings(Pixel(1, 1), false, false, true);
  }

  /** The grid 1 2 / 3 4 searched inside that area: the excluded corner's 1 is not the minimum. */
  method MinAndMaxOfCornerCutGrid() returns (r: Result<(real, real)>)
    ensures r == Ok((2.0, 4.0))
  {
    var heatmap := new Cell[2, 2];
    heatmap[0, 0], heatmap[0, 1], heatmap[1, 0], heatmap[1, 1] := Val(1.0), Val(2.0), Val(3.0), Val(4.0);
    CornerCutAreaCoverage();
    assert !Qualifies(CornerCutArea, heatmap, 0, 0) && Qualifies(CornerCutArea, heatmap, 0, 1);
    assert Qualifies(CornerCutArea, heatmap, 1, 0) && Qualifies(CornerCutArea, heatmap, 1, 1);
    assert FiniteDoubles(heatmap);
    r := FindMinAndMaxValuesInHeatmap(CornerCutArea, heatmap);
    assert Qualifies(CornerCutArea, heatmap, 0, 1);
    assert r.Ok?;
    var lo, hi := r.value.0, r.value.1;
    assert lo <= 2.0 && 4.0 <= hi;
    var x0, y0 :| 0 <= x0 < 2 && 0 <= y0 < 2 && Qualifies(CornerCutArea, heatmap, x0, y0) && heatmap[x0, y0].v == lo;
    assert x0 != 0 || y0 != 0;
    var x1, y1 :| 0 <= x1 < 2 && 0 <= y1 < 2 && Qualifies(CornerCutArea, heatmap, x1, y1) && heatmap[x1, y1].v == hi;
  }
}
