/** `BitmapGenerator`: paints the scalar heatmap into an ARGB bitmap, row by row. */
module Bitmaps {
  import opened Wrappers
  import opened Geometry
  import opened Polygons
  import opened Gradients

  /** Fully transparent black, the color of every pixel that shows no value. */
  const TRANSPARENT: int := Argb(0, 0, 0, 0)

  /** `percentageDone * 100` for a count of pixels done out of a positive total. */
  function Percent(done: int, total: int): real
    requires total > 0
  {
    done as real / total as real * 100.0
  }

  /** The reports sent after each of `rows` rows of `rowLength` pixels, starting from `start` pixels done. */
  function ProgressReports(start: int, rows: nat, rowLength: int, total: int): (r: seq<real>)
    requires total > 0
    ensures |r| == rows
    ensures forall i :: 0 <= i < rows ==> r[i] == Percent(start + (i + 1) * rowLength, total)
  {
    seq(rows, i requires 0 <= i < rows => Percent(start + (i + 1) * rowLength, total))
  }

  class BitmapGenerator {
    const heatmap: array2<Cell>
    const area: Polygon
    /** `colorSelector.getColorForValue`, whose gradient lookup is not part of this model. */
    const colorForValue: real -> int
    /** The number of cells of the grid. */
    const pixels: int
    var pixelsDone: int
    /** Whether a progress callback is registered. */
    var callbackAvailable: bool
    /** The percentages reported to the callback, oldest first. */
    var progress: seq<real>

    /**
     * The constructor: the pixel count is taken from the width and the length
     * of the first column (the source reads `heatmap[0]`, so the grid has at
     * least one column).
     */
    constructor (heatmap: array2<Cell>, area: Polygon, colorForValue: real -> int)
      requires heatmap.Length0 > 0
      ensures this.heatmap == heatmap && this.area == area && this.colorForValue == colorForValue
      ensures pixels == heatmap.Length0 * heatmap.Length1
      ensures pixelsDone == 0 && !callbackAvailable && progress == []
    {
      this.heatmap := heatmap;
      this.area := area;
      this.colorForValue := colorForValue;
      this.pixelsDone := 0;
      this.pixels := heatmap.Length0 * heatmap.Length1;
      this.callbackAvailable := false;
      this.progress := [];
    }

    /** A pixel is colored when its cell is a number and lies inside the area; otherwise transparent. */
    function PixelColor(x: int, y: int): (color: int)
      requires 0 <= x < heatmap.Length0 && 0 <= y < heatmap.Length1
      reads heatmap
      ensures heatmap[x, y].NaN? ==> color == TRANSPARENT
      ensures !Inside(area, Pixel(x, y)) ==> color == TRANSPARENT
      ensures heatmap[x, y].Val? && Inside(area, Pixel(x, y)) ==> color == colorForValue(heatmap[x, y].v)
    {
      if heatmap[x, y].Val? && Inside(area, Pixel(x, y)) then colorForValue(heatmap[x, y].v) else TRANSPARENT
    }

    /**
     * `drawHeatmap`: a new bitmap of the grid's size, every pixel painted by
     * `PixelColor`, and one progress report per finished column. A grid of
     * zero height cannot become a bitmap: creating it throws.
     */
    method DrawHeatmap() returns (r: Result<array2<int>>)
      requires pixels == heatmap.Length0 * heatmap.Length1
      modifies this`pixelsDone, this`progress
      ensures r.Err? <==> heatmap.Length0 == 0 || heatmap.Length1 == 0
      ensures r.Err? ==> r.error == IllegalArgument && pixelsDone == old(pixelsDone) && progress == old(progress)
      ensures r.Ok? ==>
                pixels > 0 && fresh(r.value) && r.value.Length0 == heatmap.Length0 && r.value.Length1 == heatmap.Length1
                && (forall x, y :: 0 <= x < heatmap.Length0 && 0 <= y < heatmap.Length1 ==> r.value[x, y] == PixelColor(x, y))
                && pixelsDone == old(pixelsDone) + pixels
                && progress == old(progress) +
                     (if callbackAvailable then ProgressReports(old(pixelsDone), heatmap.Length0, heatmap.Length1, pixels) else [])
    {
      if heatmap.Length0 == 0 || heatmap.Length1 == 0 {
        return Err(IllegalArgument);
      }
      MulPositive(heatmap.Length0, heatmap.Length1);
      var result := new int[heatmap.Length0, heatmap.Length1];
      var x := 0;
      while x < heatmap.Length0
        invariant 0 <= x <= heatmap.Length0
        invariant forall i, j :: 0 <= i < x && 0 <= j < heatmap.Length1 ==> result[i, j] == PixelColor(i, j)
        invariant pixelsDone == old(pixelsDone) + x * heatmap.Length1
        invariant progress == old(progress) +
                    (if callbackAvailable then ProgressReports(old(pixelsDone), x, heatmap.Length1, pixels) else [])
      {
        PaintColumn(result, x);
        SendProgressUpdate(heatmap.Length1);
        ProgressStep(old(pixelsDone), x, heatmap.Length1, pixels);
        x := x + 1;
      }
      r := Ok(result);
    }

    /** The inner loop of `drawHeatmap`: paints column `x` and leaves the other columns alone. */
    method PaintColumn(result: array2<int>, x: int)
      requires result.Length0 == heatmap.Length0 && result.Length1 == heatmap.Length1
      requires 0 <= x < heatmap.Length0
      modifies result
      ensures forall j :: 0 <= j < heatmap.Length1 ==> result[x, j] == PixelColor(x, j)
      ensures forall i, j :: 0 <= i < heatmap.Length0 && i != x && 0 <= j < heatmap.Length1 ==> result[i, j] == old(result[i, j])
    {
      var y := 0;
      while y < heatmap.Length1
        invariant 0 <= y <= heatmap.Length1
        invariant forall j :: 0 <= j < y ==> result[x, j] == PixelColor(x, j)
        invariant forall i, j :: 0 <= i < heatmap.Length0 && i != x && 0 <= j < heatmap.Length1 ==> result[i, j] == old(result[i, j])
      {
        var inside := IsPointInPolygon(area, Pixel(x, y));
        if heatmap[x, y].Val? && inside {
          result[x, y] := colorForValue(heatmap[x, y].v);
        } else {
          result[x, y] := TRANSPARENT;
        }
        y := y + 1;
      }
    }

    /** `sendProgressUpdateToCallbackIfAvailable`: counts the pixels and reports the percentage if anyone listens. */
    method SendProgressUpdate(done: int)
      requires pixels > 0
      modifies this`pixelsDone, this`progress
      ensures pixelsDone == old(pixelsDone) + done
      ensures progress == old(progress) + (if callbackAvailable then [Percent(pixelsDone, pixels)] else [])
    {
      pixelsDone := pixelsDone + done;
      if callbackAvailable {
        progress := progress + [Percent(pixelsDone, pixels)];
      }
    }

    /**
     * `drawHeatmapAsync`: registers the callback (or none) and draws; the
     * finished bitmap reaches the callback only if one is registered and
     * drawing did not throw (the executor swallows the exception).
     */
    method DrawHeatmapAsync(withCallback: bool) returns (delivered: Option<array2<int>>)
      requires pixels == heatmap.Length0 * heatmap.Length1
      modifies this`pixelsDone, this`progress, this`callbackAvailable
      ensures callbackAvailable == withCallback
      ensures delivered.Some? <==> withCallback && heatmap.Length0 > 0 && heatmap.Length1 > 0
      ensures delivered.Some? ==>
                fresh(delivered.value)
                && delivered.value.Length0 == heatmap.Length0 && delivered.value.Length1 == heatmap.Length1
                && forall x, y :: 0 <= x < heatmap.Length0 && 0 <= y < heatmap.Length1 ==> delivered.value[x, y] == PixelColor(x, y)
    {
      callbackAvailable := withCallback;
      var result := DrawHeatmap();
      if withCallback && result.Ok? {
        delivered := Some(result.value);
      } else {
        delivered := None;
      }
    }
  }

  /** A drawing that starts from nothing ends with a report of exactly 100 percent. */
  lemma {:induction false} LastReportIsComplete(columns: nat, rowLength: int)
    requires columns > 0 && rowLength > 0
    ensures columns * rowLength > 0
    ensures ProgressReports(0, columns, rowLength, columns * rowLength)[columns - 1] == 100.0
  {
    MulPositive(columns, rowLength);
    var total := (columns * rowLength) as real;
    assert total > 0.0 && total / total == 1.0;
    assert 0 + (columns - 1 + 1) * rowLength == columns * rowLength;
  }

  /** One more column done: one more report, for the pixels counted so far. */
  lemma ProgressStep(start: int, x: nat, rowLength: int, total: int)
    requires total > 0
    ensures start + x * rowLength + rowLength == start + (x + 1) * rowLength
    ensures ProgressReports(start, x + 1, rowLength, total)
            == ProgressReports(start, x, rowLength, total) + [Percent(start + x * rowLength + rowLength, total)]
  {
    assert (x + 1) * rowLength == x * rowLength + rowLength;
  }

  lemma MulPositive(a: int, b: int)
    requires a > 0 && b > 0
    ensures a * b > 0
  {
  }

  /** Reports grow strictly from column to column. */
  lemma {:induction false} ReportsIncrease(start: int, rows: nat, rowLength: int, total: int, i: nat, j: nat)
    requires total > 0 && rowLength > 0
    requires i < j < rows
    ensures ProgressReports(start, rows, rowLength, total)[i] < ProgressReports(start, rows, rowLength, total)[j]
  {
    var a, b := start + (i + 1) * rowLength, start + (j + 1) * rowLength;
    assert a < b by {
      assert b - a == (j - i) * rowLength;
      MulPositive(j - i, rowLength);
    }
    assert a as real / total as real < b as real / total as real;
  }

  /** Cells whose grid point lies right of the whole area are never painted. */
  lemma RightOfAreaIsTransparent(g: BitmapGenerator, x: int, y: int)
    requires 0 <= x < g.heatmap.Length0 && 0 <= y < g.heatmap.Length1
    requires forall i :: 0 <= i < |g.area.points| ==> g.area.points[i].x <= x as real
    ensures g.PixelColor(x, y) == TRANSPARENT
  {
    RightOfAllVerticesIsOutside(g.area, Pixel(x, y));
  }
}
