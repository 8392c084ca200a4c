/**
 * `HeatmapGenerator`: shifts the measurements into heatmap coordinates, adds
 * four synthetic measurements outside the corners, triangulates, and fills
 * every cell with the value interpolated in the triangle that contains it.
 * The triangulator, the exact point-in-triangle test and the barycentric
 * blend are parameters. The worker threads are modelled by one feasible
 * interleaving, depth first, in which a package's four sub-packages finish
 * before the package itself deregisters; `PoolOrder` shows that the task
 * count and the progress total come out the same in every order the pool
 * may take whole packages.
 */
module Heatmaps {
  import opened Wrappers
  import opened Geometry
  import opened Constants
  import opened JavaNumbers
  import opened Measurements
  import opened Nearest
  import opened TriangleLookup
  import opened Completion
  import opened Scheduling

  /** The three-argument `interpolateValueAt`: a value at the point from the three corner measurements. */
  type Blend = (Vector2D, Sample, Sample, Sample) -> Cell

  /** The Delaunay triangulator; `None` stands for `NotEnoughPointsException`. */
  type Triangulator = seq<Vector2D> -> Option<seq<Triangle>>

  /**
   * The value a cell receives: `INVALID_RSSI` when no triangle contains its
   * point, otherwise the blend of the measurements nearest to the corners of
   * the first triangle that does.
   */
  function ExpectedValue(samples: seq<Sample>, triangles: seq<Triangle>, point: Vector2D,
                         contains: Containment, blend: Blend): Cell
    requires |samples| > 0
  {
    match ContainingTriangle(triangles, point, contains)
    case None => Val(INVALID_RSSI)
    case Some(t) =>
      var nearest := NearestToCorners(samples, t);
      blend(point, nearest[0], nearest[1], nearest[2])
  }

  /**
   * Outside every triangle a cell is `INVALID_RSSI`; inside one, its value
   * is the blend of three of the measurements.
   */
  lemma ExpectedValueCases(samples: seq<Sample>, triangles: seq<Triangle>, point: Vector2D,
                           contains: Containment, blend: Blend)
    requires |samples| > 0
    ensures ContainingTriangle(triangles, point, contains).None? ==>
              ExpectedValue(samples, triangles, point, contains, blend) == Val(INVALID_RSSI)
    ensures ContainingTriangle(triangles, point, contains).Some? ==>
              exists a, b, d :: a in samples && b in samples && d in samples
                                && ExpectedValue(samples, triangles, point, contains, blend) == blend(point, a, b, d)
  {
    if ContainingTriangle(triangles, point, contains).Some? {
      var nearest := NearestToCorners(samples, ContainingTriangle(triangles, point, contains).value);
      assert ExpectedValue(samples, triangles, point, contains, blend) == blend(point, nearest[0], nearest[1], nearest[2]);
    }
  }

  /** The measurements nearest to the three corners of `t`, as cached for it. */
  function NearestToCorners(samples: seq<Sample>, t: Triangle): (r: seq<Sample>)
    requires |samples| > 0
    ensures |r| == 3 && r[0] in samples && r[1] in samples && r[2] in samples
  {
    var ps := Positions(samples);
    [samples[ClosestIndex(ps, t.a)], samples[ClosestIndex(ps, t.b)], samples[ClosestIndex(ps, t.c)]]
  }

  /**
   * A triangle whose corners are measurement positions, as every triangle of
   * the triangulation is, is cached with measurements at distance zero from
   * its corners.
   */
  lemma NearestToCornersOfMeasuredTriangle(samples: seq<Sample>, t: Triangle)
    requires |samples| > 0
    requires t.a in Positions(samples) && t.b in Positions(samples) && t.c in Positions(samples)
    ensures SquaredDistance(NearestToCorners(samples, t)[0].position, t.a) == 0.0
    ensures SquaredDistance(NearestToCorners(samples, t)[1].position, t.b) == 0.0
    ensures SquaredDistance(NearestToCorners(samples, t)[2].position, t.c) == 0.0
  {
    var ps := Positions(samples);
    ExactHitIsNearest(ps, t.a);
    ExactHitIsNearest(ps, t.b);
    ExactHitIsNearest(ps, t.c);
  }

  /** A point that no triangle's grown bounding box reaches gets the invalid value 0. */
  lemma UncoveredPointIsInvalid(samples: seq<Sample>, triangles: seq<Triangle>, point: Vector2D,
                                contains: Containment, blend: Blend)
    requires |samples| > 0
    requires forall t :: t in triangles ==> !InGrownBox(point, t, FUZZY_WIDTH)
    ensures ExpectedValue(samples, triangles, point, contains, blend) == Val(0.0)
  {
  }

  /** `(double) pixelsDone / pixels * 100`; zero by zero is NaN. */
  function Percentage(done: int, pixels: int): (p: Cell)
    ensures p.NaN? <==> pixels == 0
    ensures pixels > 0 && 0 <= done <= pixels ==> 0.0 <= p.v <= 100.0
  {
    if pixels == 0 then NaN else Val(done as real / pixels as real * 100.0)
  }

  /** The percentages reported while the done count grows by each increment in turn. */
  function Reports(done: int, increments: seq<int>, pixels: int): (r: seq<Cell>)
    ensures |r| == |increments|
    decreases |increments|
  {
    if increments == [] then []
    else [Percentage(done + increments[0], pixels)] + Reports(done + increments[0], increments[1..], pixels)
  }

  /** The last report of a batch is the percentage of everything done after it. */
  lemma {:induction false} LastReport(done: int, increments: seq<int>, pixels: int)
    requires |increments| > 0
    ensures Reports(done, increments, pixels)[|increments| - 1] == Percentage(done + Sum(increments), pixels)
    decreases |increments|
  {
    if |increments| > 1 {
      LastReport(done + increments[0], increments[1..], pixels);
    }
  }

  /** Pixels done and the percentages reported to the callback so far. */
  datatype Progress = Progress(done: int, reports: seq<Cell>)

  /**
   * One `sendProgressUpdateToCallbackIfAvailable(n)`: `n` more pixels are done
   * and, when a callback is registered, the new percentage is reported.
   */
  function Advance(p: Progress, n: int, pixels: int, callback: bool): Progress
  {
    var done := p.done + n;
    Progress(done, if callback then p.reports + [Percentage(done, pixels)] else p.reports)
  }

  /** The updates for `increments`, one after another. */
  function AdvanceAll(p: Progress, increments: seq<int>, pixels: int, callback: bool): Progress
    decreases |increments|
  {
    if increments == [] then p
    else AdvanceAll(Advance(p, increments[0], pixels, callback), increments[1..], pixels, callback)
  }

  lemma {:induction false} AdvanceAllAppend(p: Progress, a: seq<int>, b: seq<int>, pixels: int, callback: bool)
    ensures AdvanceAll(p, a + b, pixels, callback) == AdvanceAll(AdvanceAll(p, a, pixels, callback), b, pixels, callback)
    decreases |a|
  {
    if a == [] {
      assert a + b == b;
    } else {
      assert (a + b)[1..] == a[1..] + b;
      AdvanceAllAppend(Advance(p, a[0], pixels, callback), a[1..], b, pixels, callback);
    }
  }

  /**
   * A run of updates adds its increments to the done count and, with a
   * callback, reports the running percentage after each increment.
   */
  lemma {:induction false} AdvanceAllReports(p: Progress, increments: seq<int>, pixels: int, callback: bool)
    ensures AdvanceAll(p, increments, pixels, callback)
            == Progress(p.done + Sum(increments), if callback then p.reports + Reports(p.done, increments, pixels) else p.reports)
    decreases |increments|
  {
    if increments != [] {
      var q := Advance(p, increments[0], pixels, callback);
      AdvanceAllReports(q, increments[1..], pixels, callback);
      if callback {
        assert q.reports + Reports(q.done, increments[1..], pixels) == p.reports + Reports(p.done, increments, pixels);
      }
    }
  }

  lemma AllDoneIsHundredPercent(n: int)
    requires n > 0
    ensures Percentage(n, n) == Val(100.0)
  {
    assert n as real / n as real == 1.0;
  }

  /**
   * On a generator's first run over a non-empty grid with a callback, the last
   * progress report is exactly 100 % and the done count reaches the pixel count.
   */
  lemma FirstRunEndsAtHundredPercent(sizeX: nat, sizeY: nat)
    requires sizeX > 0 && sizeY > 0
    ensures var q := AdvanceAll(Progress(0, []), ProgressIncrements(Root(sizeX, sizeY)), sizeX * sizeY, true);
            q.done == sizeX * sizeY && |q.reports| > 0 && q.reports[|q.reports| - 1] == Val(100.0)
  {
    var root := Root(sizeX, sizeY);
    MulAtLeast(sizeX, sizeY);
    ProgressSumsToArea(root);
    RunEndsAtHundredPercent(ProgressIncrements(root), sizeX * sizeY);
  }

  /** Updates that add up to the pixel count end with a report of exactly 100 %. */
  lemma RunEndsAtHundredPercent(incs: seq<int>, n: int)
    requires n > 0 && Sum(incs) == n
    ensures var q := AdvanceAll(Progress(0, []), incs, n, true);
            q.done == n && |q.reports| > 0 && q.reports[|q.reports| - 1] == Val(100.0)
  {
    assert incs != [];
    AdvanceAllReports(Progress(0, []), incs, n, true);
    assert [] + Reports(0, incs, n) == Reports(0, incs, n);
    LastReport(0, incs, n);
    AllDoneIsHundredPercent(n);
  }

  /** One update adds `n` to the done count and, with a callback, reports the new percentage. */
  lemma AdvanceAddsAndReports(p: Progress, n: int, pixels: int, callback: bool)
    ensures Advance(p, n, pixels, callback).done == p.done + n
    ensures Advance(p, n, pixels, callback).reports
            == p.reports + (if callback then [Percentage(p.done + n, pixels)] else [])
  {
  }

  /** The measurement moved by `d`, as the offset loop moves one list entry. */
  function Translated(s: Sample, d: Vector2D): Sample
  {
    s.(position := Vector2D(s.position.x + d.x, s.position.y + d.y))
  }

  /** Every measurement moved by `d`; power and wavelength stay. */
  function Shifted(samples: seq<Sample>, d: Vector2D): (r: seq<Sample>)
    ensures |r| == |samples|
    ensures forall i :: 0 <= i < |samples| ==>
              r[i].power == samples[i].power && r[i].wavelength == samples[i].wavelength
  {
    seq(|samples|, i requires 0 <= i < |samples| => Translated(samples[i], d))
  }

  /** Shifting back by the opposite offset restores the measurements. */
  lemma ShiftIsInvertible(samples: seq<Sample>, d: Vector2D)
    ensures Shifted(Shifted(samples, d), Vector2D(-d.x, -d.y)) == samples
  {
    var back := Shifted(Shifted(samples, d), Vector2D(-d.x, -d.y));
    assert forall i :: 0 <= i < |samples| ==> back[i] == samples[i];
  }

  /** The offset `-zero` moves a measurement taken at `zero` onto the heatmap's origin. */
  lemma ZeroMovesToOrigin(s: Sample, zero: Vector2D)
    requires s.position == zero
    ensures Translated(s, Vector2D(-zero.x, -zero.y)).position == Pixel(0, 0)
  {
  }

  /** The counter calls of a split package, run one after another. */
  lemma {:induction false} SplitRun(c: CounterState, s0: seq<TaskEvent>, s1: seq<TaskEvent>, s2: seq<TaskEvent>, s3: seq<TaskEvent>)
    ensures Run(c, [Submit(4)] + s0 + s1 + s2 + s3 + [Complete])
            == Step(Run(Run(Run(Run(Step(c, Submit(4)), s0), s1), s2), s3), Complete)
  {
    var c0 := Step(c, Submit(4));
    RunAppend(c, [Submit(4)], s0);
    RunAppend(c, [Submit(4)] + s0, s1);
    RunAppend(c, [Submit(4)] + s0 + s1, s2);
    RunAppend(c, [Submit(4)] + s0 + s1 + s2, s3);
    RunAppend(c, [Submit(4)] + s0 + s1 + s2 + s3, [Complete]);
    SingleRun(c, Submit(4));
    SingleRun(Run(c, [Submit(4)] + s0 + s1 + s2 + s3), Complete);
  }

  /**
   * The measurements a run interpolates from: the recorded ones moved by the
   * offset, followed by the four generated corner points.
   */
  function Prepared(samples: seq<Sample>, offset: Vector2D, sizeX: int, sizeY: int, strategy: ExternalPointStrategy): (r: seq<Sample>)
    requires |samples| > 0
    ensures |r| == |samples| + 4
    ensures r[..|samples|] == Shifted(samples, offset)
    ensures Positions(r[|samples|..]) == Corners(sizeX, sizeY)
  {
    var moved := Shifted(samples, offset);
    assert (moved + EdgeSamples(moved, sizeX, sizeY, strategy))[|samples|..] == EdgeSamples(moved, sizeX, sizeY, strategy);
    moved + EdgeSamples(moved, sizeX, sizeY, strategy)
  }

  lemma AppendThree(w: seq<(int, int)>, a: seq<(int, int)>, b: seq<(int, int)>)
    ensures w + (a + b) == w + a + b
  {
  }

  /** Writing after `w` the cells of four packages in turn. */
  lemma AppendFour(w: seq<(int, int)>, a: seq<(int, int)>, b: seq<(int, int)>, c: seq<(int, int)>, d: seq<(int, int)>)
    ensures w + (a + b + c + d) == w + a + b + c + d
  {
  }

  /** The cells of the quadrants, pair by pair as they run. */
  lemma QuadrantCells(r: Rect)
    requires ShouldUseMoreThreads(r)
    ensures var q := Quadrants(r);
            && (forall x, y :: Contains(q[0], x, y) ==> !Contains(q[1], x, y))
            && (forall x, y :: Contains(q[2], x, y) ==> !Contains(q[3], x, y))
            && (forall x, y :: Contains(q[0], x, y) || Contains(q[1], x, y) ==> !Contains(q[2], x, y) && !Contains(q[3], x, y))
            && (forall x, y :: Contains(r, x, y) <==> (Contains(q[0], x, y) || Contains(q[1], x, y)) || (Contains(q[2], x, y) || Contains(q[3], x, y)))
  {
    SplitCovers(r);
    SplitIsDisjoint(r);
  }

  /** A split package's writes are its quadrants' one quadrant after another, depth first. */
  lemma QuadrantWrites(w: seq<(int, int)>, r: Rect)
    requires ShouldUseMoreThreads(r)
    ensures var q := Quadrants(r);
            w + WriteOrder(r) == w + WriteOrder(q[0]) + WriteOrder(q[1]) + WriteOrder(q[2]) + WriteOrder(q[3])
  {
    var q := Quadrants(r);
    AppendFour(w, WriteOrder(q[0]), WriteOrder(q[1]), WriteOrder(q[2]), WriteOrder(q[3]));
  }

  /** A split package's progress updates are its quadrants' one quadrant after another, depth first. */
  lemma QuadrantProgress(p: Progress, r: Rect, pixels: int, callback: bool)
    requires ShouldUseMoreThreads(r)
    ensures var q := Quadrants(r);
            AdvanceAll(p, ProgressIncrements(r), pixels, callback)
            == AdvanceAll(AdvanceAll(AdvanceAll(AdvanceAll(p, ProgressIncrements(q[0]), pixels, callback),
                                                ProgressIncrements(q[1]), pixels, callback),
                                     ProgressIncrements(q[2]), pixels, callback),
                          ProgressIncrements(q[3]), pixels, callback)
  {
    var q := Quadrants(r);
    var i0, i1, i2, i3 := ProgressIncrements(q[0]), ProgressIncrements(q[1]), ProgressIncrements(q[2]), ProgressIncrements(q[3]);
    assert ProgressIncrements(r) == i0 + i1 + i2 + i3;
    AdvanceAllAppend(p, i0 + i1 + i2, i3, pixels, callback);
    AdvanceAllAppend(p, i0 + i1, i2, pixels, callback);
    AdvanceAllAppend(p, i0, i1, pixels, callback);
  }

  lemma SingleRun(c: CounterState, e: TaskEvent)
    ensures Run(c, [e]) == Step(c, e)
  {
    assert [e][1..] == [];
  }

  /** One more column of a package: one update of `h` pixels, then the rest. */
  lemma LeafStep(p: Progress, n: nat, h: int, pixels: int, callback: bool)
    ensures AdvanceAll(p, Repeat(n + 1, h), pixels, callback) == AdvanceAll(Advance(p, h, pixels, callback), Repeat(n, h), pixels, callback)
  {
    assert Repeat(n + 1, h)[1..] == Repeat(n, h);
  }

  class HeatmapGenerator {
    const sizeX: int
    const sizeY: int
    const offset: Vector2D
    const strategy: ExternalPointStrategy
    const pixels: int
    const contains: Containment
    const blend: Blend
    const triangulate: Triangulator
    var measurements: seq<Sample>
    var heatmap: array2?<Cell>
    var pixelsDone: int
    /** Whether `generateHeatmapAsync` registered a callback. */
    var callbackAvailable: bool
    /** The percentages sent to the callback, in order. */
    var progress: seq<Cell>
    /**
     * `measurementsOfTriangleMap`. Its keys carry the number of the
     * triangulation they belong to, because the source keys it by triangle
     * object and every triangulation makes new objects.
     */
    var cache: map<(nat, Triangle), seq<Sample>>
    /** How many triangulations have been made. */
    var run: nat
    /** The cells written, in order. */
    ghost var writes: seq<(int, int)>

    ghost predicate Valid()
      reads this
    {
      pixels == sizeX * sizeY
      && (heatmap != null ==> heatmap.Length0 == sizeX && heatmap.Length1 == sizeY)
      && (forall key :: key in cache ==> key.0 <= run)
      && (pixels == 0 ==> pixelsDone == 0)
    }

    constructor (sizeX: int, sizeY: int, zero: Vector2D, strategy: ExternalPointStrategy,
                 wifiMeasurements: seq<Sample>,
                 contains: Containment, blend: Blend, triangulate: Triangulator)
      requires IsInt32(sizeX * sizeY)
      ensures Valid()
      ensures this.sizeX == sizeX && this.sizeY == sizeY && this.strategy == strategy
      ensures offset == Vector2D(-zero.x, -zero.y)
      ensures measurements == wifiMeasurements
      ensures this.contains == contains && this.blend == blend && this.triangulate == triangulate
      ensures heatmap == null && pixelsDone == 0 && !callbackAvailable && progress == []
      ensures cache == map[] && run == 0 && writes == []
    {
      this.sizeX, this.sizeY := sizeX, sizeY;
      this.pixels := sizeX * sizeY;
      this.pixelsDone := 0;
      this.strategy := strategy;
      this.measurements := wifiMeasurements;
      this.cache := map[];
      this.offset := Vector2D(-zero.x, -zero.y);
      this.contains, this.blend, this.triangulate := contains, blend, triangulate;
      this.heatmap := null;
      this.callbackAvailable := false;
      this.progress := [];
      this.run := 0;
      this.writes := [];
    }

    /**
     * Every cached entry of the current triangulation holds the measurements
     * nearest to its triangle's corners; no entry belongs to a later one.
     */
    ghost predicate CacheIsCurrent()
      reads this
    {
      |measurements| > 0
      && (forall key :: key in cache ==> key.0 <= run)
      && forall key :: key in cache && key.0 == run ==> cache[key] == NearestToCorners(measurements, key.1)
    }

    /** `findClosestMeasurement`. */
    method FindClosestMeasurement(position: Vector2D) returns (r: Result<Sample>)
      ensures r.Err? <==> |measurements| == 0
      ensures r.Err? ==> r.error == IllegalState
      ensures r.Ok? ==> r.value == measurements[ClosestIndex(Positions(measurements), position)]
    {
      if |measurements| <= 0 {
        return Err(IllegalState);
      }
      ghost var ps := Positions(measurements);
      var result: Option<Sample> := None;
      var i := 0;
      while i < |measurements|
        invariant 0 <= i <= |measurements|
        invariant i == 0 <==> result.None?
        invariant i > 0 ==> result == Some(measurements[ClosestIndex(ps[..i], position)])
      {
        var m := measurements[i];
        assert ps[..i + 1][..i] == ps[..i];
        if result.None? || SquaredDistance(m.position, position) < SquaredDistance(result.value.position, position) {
          result := Some(m);
        }
        i := i + 1;
      }
      assert ps[..|measurements|] == ps;
      r := Ok(result.value);
    }

    /** `generateEdgePoints`: one copy of the nearest measurement outside each corner of the grid. */
    method GenerateEdgePoints() returns (r: Result<seq<Sample>>)
      ensures r.Err? <==> |measurements| == 0
      ensures r.Err? ==> r.error == IllegalState
      ensures r.Ok? ==> r.value == EdgeSamples(measurements, sizeX, sizeY, strategy)
    {
      var corners := Corners(sizeX, sizeY);
      var c00 := FindClosestMeasurement(corners[0]);
      if c00.Err? {
        return Err(IllegalState);
      }
      var c01 := FindClosestMeasurement(corners[1]);
      var c10 := FindClosestMeasurement(corners[2]);
      var c11 := FindClosestMeasurement(corners[3]);
      var m00 := c00.value.(position := corners[0]);
      var m01 := c01.value.(position := corners[1]);
      var m10 := c10.value.(position := corners[2]);
      var m11 := c11.value.(position := corners[3]);
      if strategy == AssumeLow {
        m00, m01, m10, m11 := m00.(power := MIN_POWER), m01.(power := MIN_POWER), m10.(power := MIN_POWER), m11.(power := MIN_POWER);
      } else if strategy == AssumeHigh {
        m00, m01, m10, m11 := m00.(power := MAX_POWER), m01.(power := MAX_POWER), m10.(power := MAX_POWER), m11.(power := MAX_POWER);
      }
      r := Ok([m00, m01, m10, m11]);
    }

    /** The offset loop: every measurement moves by `offset`. */
    method ShiftMeasurements()
      modifies this`measurements
      ensures measurements == Shifted(old(measurements), offset)
    {
      var i := 0;
      while i < |measurements|
        invariant 0 <= i <= |measurements| == |old(measurements)|
        invariant forall j :: 0 <= j < i ==> measurements[j] == Translated(old(measurements)[j], offset)
        invariant forall j :: i <= j < |measurements| ==> measurements[j] == old(measurements)[j]
      {
        measurements := measurements[i := Translated(measurements[i], offset)];
        i := i + 1;
      }
    }

    /** `interpolateValueAt(point, triangles)`, filling the cache on a miss. */
    method InterpolateValueAt(point: Vector2D, triangles: seq<Triangle>) returns (v: Cell)
      requires CacheIsCurrent()
      modifies this`cache
      ensures v == ExpectedValue(measurements, triangles, point, contains, blend)
      ensures CacheIsCurrent()
      ensures forall key :: key in old(cache) && |old(cache)[key]| == 3 ==> key in cache && cache[key] == old(cache)[key]
      ensures forall key :: key in cache && (key !in old(cache) || cache[key] != old(cache)[key]) ==>
                key.0 == run && ContainingTriangle(triangles, point, contains) == Some(key.1)
      ensures match ContainingTriangle(triangles, point, contains)
              case None => cache == old(cache)
              case Some(t) => (run, t) in cache && cache[(run, t)] == NearestToCorners(measurements, t)
    {
      var found := FindTriangleContainingPoint(triangles, point, contains);
      if found.None? {
        return Val(INVALID_RSSI);
      }
      var t := found.value;
      var key := (run, t);
      var nearest: seq<Sample>;
      if key in cache && |cache[key]| == 3 {
        nearest := cache[key];
      } else {
        var a := FindClosestMeasurement(t.a);
        var b := FindClosestMeasurement(t.b);
        var c := FindClosestMeasurement(t.c);
        nearest := [a.value, b.value, c.value];
        cache := cache[key := nearest];
      }
      v := blend(point, nearest[0], nearest[1], nearest[2]);
    }

    /** The inner loop of a package: the cells `(x, y0), ..., (x, y1 - 1)`. */
    method InterpolateColumn(x: int, y0: int, y1: int, triangles: seq<Triangle>)
      requires heatmap != null && 0 <= x < heatmap.Length0 && 0 <= y0 <= y1 <= heatmap.Length1
      requires CacheIsCurrent()
      modifies heatmap, this`cache, this`writes
      ensures CacheIsCurrent()
      ensures forall y :: y0 <= y < y1 ==> heatmap[x, y] == ExpectedValue(measurements, triangles, Pixel(x, y), contains, blend)
      ensures forall i, j :: 0 <= i < heatmap.Length0 && 0 <= j < heatmap.Length1 && !(i == x && y0 <= j < y1) ==>
                heatmap[i, j] == old(heatmap[i, j])
      ensures writes == old(writes) + Column(x, y0, y1)
    {
      var y := y0;
      while y < y1
        invariant y0 <= y <= y1
        invariant CacheIsCurrent()
        invariant forall j :: y0 <= j < y ==> heatmap[x, j] == ExpectedValue(measurements, triangles, Pixel(x, j), contains, blend)
        invariant forall i, j :: 0 <= i < heatmap.Length0 && 0 <= j < heatmap.Length1 && !(i == x && y0 <= j < y) ==>
                    heatmap[i, j] == old(heatmap[i, j])
        invariant writes == old(writes) + Column(x, y0, y)
      {
        InterpolateCell(x, y, triangles);
        assert Column(x, y0, y + 1) == Column(x, y0, y) + [(x, y)];
        y := y + 1;
      }
    }

    /** The loop body: `heatmap[x][y] = interpolateValueAt(new Vector2D(x, y), triangles)`. */
    method InterpolateCell(x: int, y: int, triangles: seq<Triangle>)
      requires heatmap != null && 0 <= x < heatmap.Length0 && 0 <= y < heatmap.Length1
      requires CacheIsCurrent()
      modifies heatmap, this`cache, this`writes
      ensures CacheIsCurrent()
      ensures heatmap[x, y] == ExpectedValue(measurements, triangles, Pixel(x, y), contains, blend)
      ensures forall i, j :: 0 <= i < heatmap.Length0 && 0 <= j < heatmap.Length1 && (i != x || j != y) ==>
                heatmap[i, j] == old(heatmap[i, j])
      ensures writes == old(writes) + [(x, y)]
    {
      var v := InterpolateValueAt(Pixel(x, y), triangles);
      heatmap[x, y] := v;
      writes := writes + [(x, y)];
    }

    /** The done count and the reports sent so far. */
    function Tally(): Progress
      reads this
    {
      Progress(pixelsDone, progress)
    }

    /** `sendProgressUpdateToCallbackIfAvailable`. */
    method SendProgressUpdate(done: int)
      modifies this`pixelsDone, this`progress
      ensures Tally() == Advance(old(Tally()), done, pixels, callbackAvailable)
    {
      pixelsDone := pixelsDone + done;
      if callbackAvailable {
        progress := progress + [Percentage(pixelsDone, pixels)];
      }
    }

    /**
     * One pass of a package's outer loop: column `x` of `r`, then one progress
     * report. The package's counts for the columns from `x` on are the count of
     * this column followed by those of the columns after it.
     */
    method InterpolatePackageColumn(r: Rect, x: int, triangles: seq<Triangle>)
      requires heatmap != null && Ordered(r) && r.startX <= x < r.endX
      requires 0 <= r.startX && r.endX <= heatmap.Length0 && 0 <= r.startY && r.endY <= heatmap.Length1
      requires CacheIsCurrent()
      modifies heatmap, this`cache, this`writes, this`pixelsDone, this`progress
      ensures CacheIsCurrent()
      ensures forall y :: r.startY <= y < r.endY ==> heatmap[x, y] == ExpectedValue(measurements, triangles, Pixel(x, y), contains, blend)
      ensures forall i, j :: 0 <= i < heatmap.Length0 && 0 <= j < heatmap.Length1 && !(i == x && r.startY <= j < r.endY) ==>
                heatmap[i, j] == old(heatmap[i, j])
      ensures old(writes) + ColumnMajor(r.(startX := x)) == writes + ColumnMajor(r.(startX := x + 1))
      ensures AdvanceAll(old(Tally()), Repeat(r.endX - x, r.endY - r.startY), pixels, callbackAvailable)
              == AdvanceAll(Tally(), Repeat(r.endX - x - 1, r.endY - r.startY), pixels, callbackAvailable)
    {
      var h := r.endY - r.startY;
      LeafStep(Tally(), r.endX - x - 1, h, pixels, callbackAvailable);
      ColumnMajorFirst(r.(startX := x));
      assert r.(startX := x).(startX := x + 1) == r.(startX := x + 1);
      ghost var rest := ColumnMajor(r.(startX := x + 1));
      InterpolateColumn(x, r.startY, r.endY, triangles);
      AppendThree(old(writes), Column(x, r.startY, r.endY), rest);
      SendProgressUpdate(h);
    }

    /** A package that does not split: its cells column by column, one report per column. */
    method InterpolateLeaf(r: Rect, triangles: seq<Triangle>)
      requires heatmap != null && Ordered(r)
      requires 0 <= r.startX && r.endX <= heatmap.Length0 && 0 <= r.startY && r.endY <= heatmap.Length1
      requires CacheIsCurrent()
      modifies heatmap, this`cache, this`writes, this`pixelsDone, this`progress
      ensures CacheIsCurrent()
      ensures forall x, y :: Contains(r, x, y) ==> heatmap[x, y] == ExpectedValue(measurements, triangles, Pixel(x, y), contains, blend)
      ensures forall i, j :: 0 <= i < heatmap.Length0 && 0 <= j < heatmap.Length1 && !Contains(r, i, j) ==>
                heatmap[i, j] == old(heatmap[i, j])
      ensures writes == old(writes) + ColumnMajor(r)
      ensures Tally() == AdvanceAll(old(Tally()), Repeat(Width(r), r.endY - r.startY), pixels, callbackAvailable)
    {
      var h := r.endY - r.startY;
      var x := r.startX;
      while x < r.endX
        invariant r.startX <= x <= r.endX
        invariant CacheIsCurrent()
        invariant forall i, j :: r.startX <= i < x && r.startY <= j < r.endY ==>
                    heatmap[i, j] == ExpectedValue(measurements, triangles, Pixel(i, j), contains, blend)
        invariant forall i, j :: 0 <= i < heatmap.Length0 && 0 <= j < heatmap.Length1 && !(r.startX <= i < x && r.startY <= j < r.endY) ==>
                    heatmap[i, j] == old(heatmap[i, j])
        invariant old(writes) + ColumnMajor(r) == writes + ColumnMajor(r.(startX := x))
        invariant AdvanceAll(old(Tally()), Repeat(Width(r), h), pixels, callbackAvailable)
                  == AdvanceAll(Tally(), Repeat(r.endX - x, h), pixels, callbackAvailable)
      {
        InterpolatePackageColumn(r, x, triangles);
        x := x + 1;
      }
      assert Repeat(r.endX - x, h) == [];
      assert ColumnMajor(r.(startX := x)) == [];
    }

    /**
     * One package `interpolateHeatmapValues(startX, endX, startY, endY, ...)`.
     * A large package has its four quadrants run as sub-packages; a small one
     * interpolates its cells. Either way it then deregisters itself.
     */
    method InterpolateRect(r: Rect, triangles: seq<Triangle>, helper: CompletionHelper)
      requires heatmap != null && Ordered(r)
      requires 0 <= r.startX && r.endX <= heatmap.Length0 && 0 <= r.startY && r.endY <= heatmap.Length1
      requires CacheIsCurrent()
      modifies heatmap, helper, this`cache, this`writes, this`pixelsDone, this`progress
      ensures CacheIsCurrent()
      ensures forall x, y :: Contains(r, x, y) ==> heatmap[x, y] == ExpectedValue(measurements, triangles, Pixel(x, y), contains, blend)
      ensures forall i, j :: 0 <= i < heatmap.Length0 && 0 <= j < heatmap.Length1 && !Contains(r, i, j) ==>
                heatmap[i, j] == old(heatmap[i, j])
      ensures writes == old(writes) + WriteOrder(r)
      ensures Tally() == AdvanceAll(old(Tally()), ProgressIncrements(r), pixels, callbackAvailable)
      ensures helper.State() == Run(old(helper.State()), Schedule(r))
      decreases Width(r) + Height(r), 1
    {
      if ShouldUseMoreThreads(r) {
        SplitShrinks(r);
        var q := Quadrants(r);
        InterpolateQuadrants(r, triangles, helper);
        SplitRun(old(helper.State()), Schedule(q[0]), Schedule(q[1]), Schedule(q[2]), Schedule(q[3]));
      } else {
        InterpolateLeaf(r, triangles);
        SingleRun(helper.State(), Complete);
      }
      helper.TaskCompleted();
    }

    /** The split branch: four more tasks registered, then the quadrants run depth first, each to the end before the next and all before the split's own completion. */
    method InterpolateQuadrants(r: Rect, triangles: seq<Triangle>, helper: CompletionHelper)
      requires heatmap != null && ShouldUseMoreThreads(r)
      requires 0 <= r.startX && r.endX <= heatmap.Length0 && 0 <= r.startY && r.endY <= heatmap.Length1
      requires CacheIsCurrent()
      modifies heatmap, helper, this`cache, this`writes, this`pixelsDone, this`progress
      ensures CacheIsCurrent()
      ensures forall x, y :: Contains(r, x, y) ==> heatmap[x, y] == ExpectedValue(measurements, triangles, Pixel(x, y), contains, blend)
      ensures forall i, j :: 0 <= i < heatmap.Length0 && 0 <= j < heatmap.Length1 && !Contains(r, i, j) ==>
                heatmap[i, j] == old(heatmap[i, j])
      ensures writes == old(writes) + WriteOrder(r)
      ensures Tally() == AdvanceAll(old(Tally()), ProgressIncrements(r), pixels, callbackAvailable)
      ensures var q := Quadrants(r);
              helper.State() == Run(Run(Run(Run(Step(old(helper.State()), Submit(4)), Schedule(q[0])), Schedule(q[1])), Schedule(q[2])), Schedule(q[3]))
      decreases Width(r) + Height(r), 0
    {
      SplitShrinks(r);
      QuadrantCells(r);
      var q := Quadrants(r);
      helper.BeforeSubmitMany(4);
      ghost var w := writes;
      InterpolatePair(q[0], q[1], triangles, helper);
      InterpolatePair(q[2], q[3], triangles, helper);
      QuadrantWrites(w, r);
      QuadrantProgress(old(Tally()), r, pixels, callbackAvailable);
    }

    /** Two packages over disjoint ranges, one after the other. */
    method InterpolatePair(a: Rect, b: Rect, triangles: seq<Triangle>, helper: CompletionHelper)
      requires heatmap != null && Ordered(a) && Ordered(b)
      requires 0 <= a.startX && a.endX <= heatmap.Length0 && 0 <= a.startY && a.endY <= heatmap.Length1
      requires 0 <= b.startX && b.endX <= heatmap.Length0 && 0 <= b.startY && b.endY <= heatmap.Length1
      requires forall x, y :: Contains(a, x, y) ==> !Contains(b, x, y)
      requires CacheIsCurrent()
      modifies heatmap, helper, this`cache, this`writes, this`pixelsDone, this`progress
      ensures CacheIsCurrent()
      ensures forall x, y :: Contains(a, x, y) || Contains(b, x, y) ==>
                heatmap[x, y] == ExpectedValue(measurements, triangles, Pixel(x, y), contains, blend)
      ensures forall i, j :: 0 <= i < heatmap.Length0 && 0 <= j < heatmap.Length1 && !Contains(a, i, j) && !Contains(b, i, j) ==>
                heatmap[i, j] == old(heatmap[i, j])
      ensures writes == old(writes) + WriteOrder(a) + WriteOrder(b)
      ensures Tally() == AdvanceAll(AdvanceAll(old(Tally()), ProgressIncrements(a), pixels, callbackAvailable),
                                    ProgressIncrements(b), pixels, callbackAvailable)
      ensures helper.State() == Run(Run(old(helper.State()), Schedule(a)), Schedule(b))
      decreases (if Width(a) + Height(a) > Width(b) + Height(b) then Width(a) + Height(a) else Width(b) + Height(b)) + 1, 0
    {
      InterpolateRect(a, triangles, helper);
      InterpolateRect(b, triangles, helper);
    }

    /**
     * `interpolateHeatmapValues(triangles)`: the whole grid as one package,
     * registered with a fresh completion helper before it is submitted; then
     * the wait for all packages to deregister.
     */
    method InterpolateHeatmapValues(triangles: seq<Triangle>) returns (completed: bool)
      requires heatmap != null && heatmap.Length0 == sizeX && heatmap.Length1 == sizeY
      requires CacheIsCurrent()
      modifies heatmap, this`cache, this`writes, this`pixelsDone, this`progress
      ensures CacheIsCurrent()
      ensures completed
      ensures forall x, y :: 0 <= x < sizeX && 0 <= y < sizeY ==>
                heatmap[x, y] == ExpectedValue(measurements, triangles, Pixel(x, y), contains, blend)
      ensures writes == old(writes) + WriteOrder(Root(sizeX, sizeY))
      ensures Tally() == AdvanceAll(old(Tally()), ProgressIncrements(Root(sizeX, sizeY)), pixels, callbackAvailable)
      ensures pixelsDone == old(pixelsDone) + sizeX * sizeY
    {
      var helper := new CompletionHelper();
      helper.BeforeSubmit();
      InterpolateRect(Root(sizeX, sizeY), triangles, helper);
      RootScheduleCompletes(sizeX, sizeY);
      RunAppend(CounterState(0, 0), [Submit(1)], Schedule(Root(sizeX, sizeY)));
      SingleRun(CounterState(0, 0), Submit(1));
      assert helper.State() == CounterState(0, 1);
      var returned, _ := helper.AwaitCompletion([]);
      completed := returned;
      AdvanceAllReports(old(Tally()), ProgressIncrements(Root(sizeX, sizeY)), pixels, callbackAvailable);
      ProgressSumsToArea(Root(sizeX, sizeY));
    }

    /**
     * `generateHeatmap`: shift the measurements by the offset, append the
     * corner points, triangulate, and interpolate every cell of a new grid.
     * Without measurements the corner search throws; a failed triangulation
     * throws `NotEnoughPointsException`; a negative size makes the allocation
     * of the grid throw `NegativeArraySizeException`.
     */
    method GenerateHeatmap() returns (outcome: Outcome)
      requires Valid()
      modifies this`measurements, this`heatmap, this`run, this`cache, this`writes, this`pixelsDone, this`progress
      ensures Valid()
      ensures outcome == Fail(IllegalState) <==> old(measurements) == []
      ensures outcome.Fail? ==> outcome.error in {IllegalState, NotEnoughPoints, NegativeArraySize}
      ensures outcome.Fail? ==> heatmap == old(heatmap) && Tally() == old(Tally()) && writes == old(writes)
      ensures old(measurements) != [] ==> measurements == Prepared(old(measurements), offset, sizeX, sizeY, strategy)
      ensures old(measurements) != [] ==>
                (outcome == Fail(NotEnoughPoints) <==> triangulate(Positions(measurements)).None?)
      ensures old(measurements) != [] && triangulate(Positions(measurements)).Some? ==>
                (outcome == Fail(NegativeArraySize) <==> sizeX < 0 || sizeY < 0)
      ensures outcome.Pass? ==> sizeX >= 0 && sizeY >= 0
      ensures outcome.Pass? ==>
                var triangles := triangulate(Positions(measurements)).value;
                heatmap != null && fresh(heatmap)
                && (forall x, y :: 0 <= x < sizeX && 0 <= y < sizeY ==>
                      heatmap[x, y] == ExpectedValue(measurements, triangles, Pixel(x, y), contains, blend))
                && writes == old(writes) + WriteOrder(Root(sizeX, sizeY))
                && Tally() == AdvanceAll(old(Tally()), ProgressIncrements(Root(sizeX, sizeY)), pixels, callbackAvailable)
                && pixelsDone == old(pixelsDone) + pixels
    {
      ShiftMeasurements();
      var edges := GenerateEdgePoints();
      if edges.Err? {
        return Fail(edges.error);
      }
      measurements := measurements + edges.value;
      var triangulation := triangulate(Positions(measurements));
      if triangulation.None? {
        return Fail(NotEnoughPoints);
      }
      if sizeX < 0 || sizeY < 0 {
        return Fail(NegativeArraySize);
      }
      NewGrid();
      var _ := InterpolateHeatmapValues(triangulation.value);
      outcome := Pass;
    }

    /**
     * `heatmap = new double[sizeX][sizeY]`, starting a new run: the cached
     * corner searches of earlier runs no longer count as current.
     */
    method NewGrid()
      requires Valid() && sizeX >= 0 && sizeY >= 0 && |measurements| > 0
      modifies this`heatmap, this`run
      ensures Valid() && CacheIsCurrent()
      ensures heatmap != null && fresh(heatmap) && run == old(run) + 1
      ensures forall x, y :: 0 <= x < sizeX && 0 <= y < sizeY ==> heatmap[x, y] == Val(0.0)
    {
      heatmap := new Cell[sizeX, sizeY]((_, _) => Val(0.0));
      run := run + 1;
    }

    /**
     * `generateHeatmapAsync(callback)`: the callback (present or not) is
     * registered for progress reports, then `generateHeatmap` runs; the
     * callback is told it finished or the exception it threw. `notice` is that
     * final call, `None` without a callback.
     */
    method GenerateHeatmapAsync(withCallback: bool) returns (outcome: Outcome, notice: Option<Outcome>)
      requires Valid()
      modifies this
      ensures Valid()
      ensures callbackAvailable == withCallback
      ensures notice == (if withCallback then Some(outcome) else None)
      ensures outcome == Fail(IllegalState) <==> old(measurements) == []
      ensures outcome.Fail? ==> outcome.error in {IllegalState, NotEnoughPoints, NegativeArraySize}
      ensures old(measurements) != [] ==> measurements == Prepared(old(measurements), offset, sizeX, sizeY, strategy)
      ensures old(measurements) != [] && triangulate(Positions(measurements)).Some? ==>
                (outcome == Fail(NegativeArraySize) <==> sizeX < 0 || sizeY < 0)
      ensures outcome.Pass? ==> sizeX >= 0 && sizeY >= 0
      ensures outcome.Pass? ==>
                heatmap != null && fresh(heatmap) && triangulate(Positions(measurements)).Some?
                && (forall x, y :: 0 <= x < sizeX && 0 <= y < sizeY ==>
                      heatmap[x, y] == ExpectedValue(measurements, triangulate(Positions(measurements)).value, Pixel(x, y), contains, blend))
      ensures outcome.Pass? ==>
                progress == old(progress) + (if withCallback then Reports(old(pixelsDone), ProgressIncrements(Root(sizeX, sizeY)), pixels) else [])
    {
      callbackAvailable := withCallback;
      outcome := GenerateHeatmap();
      if outcome.Pass? {
        AdvanceAllReports(old(Tally()), ProgressIncrements(Root(sizeX, sizeY)), pixels, callbackAvailable);
      }
      notice := if withCallback then Some(outcome) else None;
    }
  }
}
