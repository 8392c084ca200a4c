# WifiAR heatmap pipeline and RTT peer selection, in Dafny

This project models the computational core of two Android apps.

- **WifiAR** records Wi-Fi signal strength at floor positions and turns the
  measurements into a heatmap. `HeatmapGenerator`:
  - shifts the measurements into grid coordinates;
  - adds four synthetic measurements just outside the grid's corners;
  - triangulates;
  - fills every cell with a value interpolated in the first triangle that
    (tolerantly) contains it.
- **Work packages.** The grid is split recursively into four quadrants while
  a package has more than 10000 cells. Packages register with and deregister
  from a `CompletionHelper` counter, and each finished column adds to a
  progress count.
- **Around the generator:**
  - `Polygon` (even-odd point test);
  - `ColorSelector` (value bounds inside the area, mode parsing, gradient
    width);
  - `BitmapGenerator` (colour or transparent per pixel, with progress);
  - `GradientColors`, `WifiMeasurement`, `RssiAggregate` and `StateMachine`;
  - `ScaleHelper`, `Utils.positionsCloseEnough` and `Preferences` (settings
    with defaults and validation over a key-value store).
- **RTT demo.** It picks the access points to range: 802.11mc responders
  first, then others up to the platform's peer limit. It also builds the
  BSSID to SSID map.

## How the source is represented

- **Numbers.**
  - A Java `double` is a `real`. NaN is the `NaN` case of `Geometry.Cell`.
  - Java `int` arithmetic is written out where it matters: truncating
    division, `(int)` saturation of a `double`, two's-complement packing of
    colours, and `Integer.parseInt`/`Integer.toString` ranges.
- **Exceptions.** A method that may throw returns a `Result` or an
  `Outcome`, with the exception as a `Failure` value.
- **External code** is a parameter:
  - the triangulation library's `Triangle2D.contains`;
  - the Delaunay triangulator (`None` is `NotEnoughPointsException`);
  - the barycentric blend;
  - `ColorSelector.getColorForValue` and `RangingRequest.getMaxPeers()`.
- **Stateful parts are classes** with `modifies` frames:
  - `HeatmapGenerator`, `BitmapGenerator`, `CompletionHelper`;
  - `WifiMeasurement`, `RssiAggregate`, `StateMachine`;
  - `Preferences` and the static instance slot `PreferencesRegistry`.
- **The heatmap** is an `array2<Cell>` and the bitmap an `array2<int>`.
- **Worker threads.** The class methods run the packages in one feasible
  interleaving: depth first, each split package's quadrants running before
  its own `taskCompleted`.
  - `writes` (ghost) records the order in which cells are written.
  - `Progress` records the done count and the reported percentages.
  - The completion counter's calls form a `Schedule`.
  - `PoolOrder` covers every other order. There, any pending job (a queued
    package, or a split package's owed `taskCompleted`) may reach the
    counter next. For every such order it proves:
    - the counter stays positive until the last call and wakes the waiter
      exactly once, at the end;
    - every grid cell is written exactly once;
    - the progress increments add up to `sizeX * sizeY`.
- **The generator's measurement list** is a sequence of `Sample` values,
  shifted in place element by element. The `WifiMeasurement` class models
  the object itself: its constructors, `setPower` and `moveTo`.
- **The triangle cache** (`measurementsOfTriangleMap`) is a map. Its keys
  are tagged with the number of the triangulation. The source keys the cache
  by triangle object, and every triangulation creates new objects, so an
  entry of an earlier run is never hit.

## Model

| member | source | states |
|---|---|---|
| Completion.Step | apps/WifiAR/app/src/main/java/de/eschoenawa/wifiar/utils/concurrent/CompletionHelper.java:16-37 | a registration adds its count; a completion subtracts one and wakes the waiters exactly when the count becomes zero |
| Completion.RunAppend | apps/WifiAR/app/src/main/java/de/eschoenawa/wifiar/utils/concurrent/CompletionHelper.java:16-37 | running two sequences of counter calls in turn is running their concatenation |
| Completion.NeverBelowAppend | apps/WifiAR/app/src/main/java/de/eschoenawa/wifiar/utils/concurrent/CompletionHelper.java:16-37 | a lower bound on the count that holds throughout two runs holds throughout their concatenation |
| Completion.Completions | apps/WifiAR/app/src/main/java/de/eschoenawa/wifiar/utils/concurrent/CompletionHelper.java:29-37 | `n` calls of `taskCompleted` |
| Completion.CompletionsLowerCount | apps/WifiAR/app/src/main/java/de/eschoenawa/wifiar/utils/concurrent/CompletionHelper.java:29-37 | `n` completions lower the count by exactly `n` |
| Completion.SubmitThenCompleteRestores | apps/WifiAR/app/src/main/java/de/eschoenawa/wifiar/utils/concurrent/CompletionHelper.java:22-37 | `beforeSubmit(n)` followed by `n` completions restores the original count |
| Completion.CompletionHelper.constructor | apps/WifiAR/app/src/main/java/de/eschoenawa/wifiar/utils/concurrent/CompletionHelper.java:13 | a new helper counts no task and has woken nobody |
| Completion.CompletionHelper.BeforeSubmit | apps/WifiAR/app/src/main/java/de/eschoenawa/wifiar/utils/concurrent/CompletionHelper.java:16-20 | the count grows by exactly one and nothing else changes |
| Completion.CompletionHelper.BeforeSubmitMany | apps/WifiAR/app/src/main/java/de/eschoenawa/wifiar/utils/concurrent/CompletionHelper.java:22-27 | the count grows by exactly `n` and nothing else changes |
| Completion.CompletionHelper.TaskCompleted | apps/WifiAR/app/src/main/java/de/eschoenawa/wifiar/utils/concurrent/CompletionHelper.java:29-37 | the count drops by one; the waiters are woken exactly when it reaches zero |
| Completion.CompletionHelper.AwaitCompletion | apps/WifiAR/app/src/main/java/de/eschoenawa/wifiar/utils/concurrent/CompletionHelper.java:43-50 | returns only when the count is no longer positive; the count was positive before each call of the other threads it waited through; if those threads stop first it never returns |
| Geometry.SquaredDistance | apps/WifiAR/app/src/main/java/de/eschoenawa/wifiar/heatmap/HeatmapGenerator.java:291 | the squared magnitude of `p.sub(q)` is non-negative and zero for equal points |
| Gradients.Argb | apps/WifiAR/app/src/main/java/de/eschoenawa/wifiar/heatmap/GradientColors.java:37 | `Color.argb` packs four channels into an `int`, negative exactly when alpha is at least 128 |
| Gradients.PredefinedColorValues | apps/WifiAR/app/src/main/java/de/eschoenawa/wifiar/heatmap/GradientColors.java:18-52 | the packed red, yellow and green equal the framework's `Color` constants; the transparent yellow is `0x00ffff00` |
| Gradients.NewGradientColors | apps/WifiAR/app/src/main/java/de/eschoenawa/wifiar/heatmap/GradientColors.java:14-58 | every mode, including unknown ones, yields at least two colours, the first of them opaque |
| Gradients.GradientColors.GetColors | apps/WifiAR/app/src/main/java/de/eschoenawa/wifiar/heatmap/GradientColors.java:56-58 | the colours in gradient order |
| Gradients.UnknownModeUsesDefault | apps/WifiAR/app/src/main/java/de/eschoenawa/wifiar/heatmap/GradientColors.java:15-24 | any mode other than 1..4 gives red, yellow, green, like mode 0 |
| Gradients.GreenYellowRedIsReversedDefault | apps/WifiAR/app/src/main/java/de/eschoenawa/wifiar/heatmap/GradientColors.java:25-31 | mode 1 is mode 0's colours reversed |
| Gradients.VariantsExtendDefault | apps/WifiAR/app/src/main/java/de/eschoenawa/wifiar/heatmap/GradientColors.java:32-52 | mode 2 adds dark green after the default colours; mode 3 drops yellow; mode 4 replaces green by transparent yellow |
| Heatmaps.NearestToCorners | apps/WifiAR/app/src/main/java/de/eschoenawa/wifiar/heatmap/HeatmapGenerator.java:224-228 | the cached triple holds three of the measurements, nearest to the triangle's corners in order |
| Heatmaps.NearestToCornersOfMeasuredTriangle | apps/WifiAR/app/src/main/java/de/eschoenawa/wifiar/heatmap/HeatmapGenerator.java:224-228 | for a triangle whose corners are measurement positions, each cached measurement lies at distance zero from its corner |
| Heatmaps.UncoveredPointIsInvalid | apps/WifiAR/app/src/main/java/de/eschoenawa/wifiar/heatmap/HeatmapGenerator.java:210-215 | a point no triangle's grown bounding box reaches gets `INVALID_RSSI`, 0 and not NaN |
| Heatmaps.Percentage | apps/WifiAR/app/src/main/java/de/eschoenawa/wifiar/heatmap/HeatmapGenerator.java:183-185 | the reported percentage is NaN exactly for an empty grid and between 0 and 100 while no more than all pixels are done |
| Heatmaps.Reports | apps/WifiAR/app/src/main/java/de/eschoenawa/wifiar/heatmap/HeatmapGenerator.java:179-186 | one report per progress update |
| Heatmaps.LastReport | apps/WifiAR/app/src/main/java/de/eschoenawa/wifiar/heatmap/HeatmapGenerator.java:179-186 | the last report of a batch is the percentage after all its increments |
| Heatmaps.AdvanceAllAppend | apps/WifiAR/app/src/main/java/de/eschoenawa/wifiar/heatmap/HeatmapGenerator.java:179-186 | the progress updates of two batches in turn are those of their concatenation |
| Heatmaps.AdvanceAllReports | apps/WifiAR/app/src/main/java/de/eschoenawa/wifiar/heatmap/HeatmapGenerator.java:179-186 | a batch adds the sum of its increments to `pixelsDone` and, with a callback, reports the running percentage after every increment; without one, reports nothing |
| Heatmaps.AllDoneIsHundredPercent | apps/WifiAR/app/src/main/java/de/eschoenawa/wifiar/heatmap/HeatmapGenerator.java:184-185 | all pixels done is exactly 100 percent |
| Heatmaps.FirstRunEndsAtHundredPercent | apps/WifiAR/app/src/main/java/de/eschoenawa/wifiar/heatmap/HeatmapGenerator.java:168-186 | on a first run over a non-empty grid, the done count reaches `sizeX * sizeY` and the last report is exactly 100 |
| Heatmaps.RunEndsAtHundredPercent | apps/WifiAR/app/src/main/java/de/eschoenawa/wifiar/heatmap/HeatmapGenerator.java:179-186 | from nothing done, any increments that add up to a positive pixel count end with exactly that count done and a last report of exactly 100 |
| Heatmaps.AdvanceAddsAndReports | apps/WifiAR/app/src/main/java/de/eschoenawa/wifiar/heatmap/HeatmapGenerator.java:179-186 | one update adds its pixels to the done count and, only with a callback, appends the new percentage |
| Heatmaps.ExpectedValueCases | apps/WifiAR/app/src/main/java/de/eschoenawa/wifiar/heatmap/HeatmapGenerator.java:210-233 | a cell outside every triangle gets `INVALID_RSSI`; any other cell gets the blend of three of the measurements |
| Heatmaps.QuadrantCells | apps/WifiAR/app/src/main/java/de/eschoenawa/wifiar/heatmap/HeatmapGenerator.java:155-165 | the four quadrants of a split are pairwise disjoint and together are exactly the parent |
| Heatmaps.QuadrantWrites | apps/WifiAR/app/src/main/java/de/eschoenawa/wifiar/heatmap/HeatmapGenerator.java:161-165 | a split writes the cells of its quadrants one quadrant after another |
| Heatmaps.QuadrantProgress | apps/WifiAR/app/src/main/java/de/eschoenawa/wifiar/heatmap/HeatmapGenerator.java:161-165 | a split's progress updates are those of its four quadrants in turn |
| Heatmaps.Shifted | apps/WifiAR/app/src/main/java/de/eschoenawa/wifiar/heatmap/HeatmapGenerator.java:86-89 | the offset loop keeps the number of measurements and every power and wavelength |
| Heatmaps.ShiftIsInvertible | apps/WifiAR/app/src/main/java/de/eschoenawa/wifiar/heatmap/HeatmapGenerator.java:86-89 | shifting by the opposite offset restores the measurements |
| Heatmaps.ZeroMovesToOrigin | apps/WifiAR/app/src/main/java/de/eschoenawa/wifiar/heatmap/HeatmapGenerator.java:70 | the offset `-zero` moves a measurement taken at `zero` onto the grid origin |
| Heatmaps.SplitRun | apps/WifiAR/app/src/main/java/de/eschoenawa/wifiar/heatmap/HeatmapGenerator.java:161-176 | a split package's counter calls are: register four, the four sub-packages' calls, complete itself |
| Heatmaps.Prepared | apps/WifiAR/app/src/main/java/de/eschoenawa/wifiar/heatmap/HeatmapGenerator.java:86-92 | the list a run interpolates from is the shifted originals followed by exactly four points at the corners, four longer than before |
| Heatmaps.HeatmapGenerator.constructor | apps/WifiAR/app/src/main/java/de/eschoenawa/wifiar/heatmap/HeatmapGenerator.java:62-71 | stores the size (negative sizes included), strategy and list, sets the offset to `-zero`, `pixels` to `sizeX * sizeY`, nothing done and an empty cache |
| Heatmaps.HeatmapGenerator.FindClosestMeasurement | apps/WifiAR/app/src/main/java/de/eschoenawa/wifiar/heatmap/HeatmapGenerator.java:285-296 | throws `IllegalStateException` exactly for an empty list; otherwise returns the first of the measurements nearest to the position |
| Heatmaps.HeatmapGenerator.GenerateEdgePoints | apps/WifiAR/app/src/main/java/de/eschoenawa/wifiar/heatmap/HeatmapGenerator.java:304-334 | throws exactly for an empty list under every strategy; otherwise returns the four corner samples |
| Heatmaps.HeatmapGenerator.ShiftMeasurements | apps/WifiAR/app/src/main/java/de/eschoenawa/wifiar/heatmap/HeatmapGenerator.java:86-89 | every measurement moves by the offset |
| Heatmaps.HeatmapGenerator.InterpolateValueAt | apps/WifiAR/app/src/main/java/de/eschoenawa/wifiar/heatmap/HeatmapGenerator.java:210-234 | returns 0 when no triangle contains the point and otherwise the blend of the cached or newly found nearest measurements; complete cached entries are reused unchanged, only the found triangle's entry can change, and afterwards it holds the nearest measurements to its corners |
| Heatmaps.HeatmapGenerator.InterpolateColumn | apps/WifiAR/app/src/main/java/de/eschoenawa/wifiar/heatmap/HeatmapGenerator.java:169-171 | the inner loop fills exactly the cells of one column range with their interpolated values, in order |
| Heatmaps.HeatmapGenerator.InterpolateCell | apps/WifiAR/app/src/main/java/de/eschoenawa/wifiar/heatmap/HeatmapGenerator.java:170 | one cell receives its interpolated value, no other cell changes, and the write is recorded |
| Heatmaps.HeatmapGenerator.SendProgressUpdate | apps/WifiAR/app/src/main/java/de/eschoenawa/wifiar/heatmap/HeatmapGenerator.java:179-187 | adds the pixels to `pixelsDone` and, with a callback, reports the new percentage |
| Heatmaps.HeatmapGenerator.InterpolatePackageColumn | apps/WifiAR/app/src/main/java/de/eschoenawa/wifiar/heatmap/HeatmapGenerator.java:168-173 | one pass of the outer loop writes column `x` of the package, then reports its `endY - startY` pixels |
| Heatmaps.HeatmapGenerator.InterpolateLeaf | apps/WifiAR/app/src/main/java/de/eschoenawa/wifiar/heatmap/HeatmapGenerator.java:166-175 | a leaf writes exactly its cells, column by column, leaves every other cell alone, and reports `endY - startY` once per column |
| Heatmaps.HeatmapGenerator.InterpolateRect | apps/WifiAR/app/src/main/java/de/eschoenawa/wifiar/heatmap/HeatmapGenerator.java:152-177 | a package, split or not, fills exactly its cells, reports its pixels, and makes its counter calls ending with its own completion |
| Heatmaps.HeatmapGenerator.InterpolateQuadrants | apps/WifiAR/app/src/main/java/de/eschoenawa/wifiar/heatmap/HeatmapGenerator.java:153-165 | a split registers four tasks, then its quadrants fill exactly their disjoint cells, which together are the parent's; the writes, reports and counter calls are the four quadrants' in depth-first order |
| Heatmaps.HeatmapGenerator.InterpolatePair | apps/WifiAR/app/src/main/java/de/eschoenawa/wifiar/heatmap/HeatmapGenerator.java:162-165 | two disjoint packages run in turn fill exactly their cells, leave every other cell alone, and report the first's then the second's pixels |
| Heatmaps.HeatmapGenerator.InterpolateHeatmapValues | apps/WifiAR/app/src/main/java/de/eschoenawa/wifiar/heatmap/HeatmapGenerator.java:135-150 | the wait for completion returns; every grid cell holds its interpolated value; `pixelsDone` grows by exactly `sizeX * sizeY` |
| Heatmaps.HeatmapGenerator.NewGrid | apps/WifiAR/app/src/main/java/de/eschoenawa/wifiar/heatmap/HeatmapGenerator.java:103 | a fresh grid of the generator's size with every cell 0, starting a new run so no earlier cache entry counts as current |
| Heatmaps.HeatmapGenerator.GenerateHeatmap | apps/WifiAR/app/src/main/java/de/eschoenawa/wifiar/heatmap/HeatmapGenerator.java:83-108 | throws `IllegalStateException` exactly for no measurements; otherwise the list is shifted and extended by the corners, throws `NotEnoughPointsException` exactly when triangulation fails, then `NegativeArraySizeException` exactly when a size is negative, and otherwise fills a new grid with the interpolated values; a failure leaves the grid and progress alone |
| Heatmaps.HeatmapGenerator.GenerateHeatmapAsync | apps/WifiAR/app/src/main/java/de/eschoenawa/wifiar/heatmap/HeatmapGenerator.java:110-125 | registers the callback, runs the generation, tells a registered callback of success or the exception (`NegativeArraySizeException` exactly for a negative size once triangulation succeeded); the progress reports are exactly the percentages after each column |
| JavaNumbers.TruncDivOfMultiple | apps/WifiAR/app/src/main/java/de/eschoenawa/wifiar/utils/ScaleHelper.java:11 | Java division of an exact multiple gives back the factor, whatever the signs |
| JavaNumbers.TruncDivRoundsTowardZero | apps/WifiAR/app/src/main/java/de/eschoenawa/wifiar/utils/ScaleHelper.java:11 | Java's integer division truncates toward zero, unlike Euclidean division |
| JavaNumbers.ParseInt | apps/WifiAR/app/src/main/java/de/eschoenawa/wifiar/utils/Preferences.java:91 | `Integer.parseInt` yields an `int`-range value or a `NumberFormatException`, and rejects the empty string |
| JavaNumbers.NatToDigits | apps/WifiAR/app/src/main/java/de/eschoenawa/wifiar/utils/Preferences.java:100 | decimal digits without a leading zero |
| JavaNumbers.IntToString | apps/WifiAR/app/src/main/java/de/eschoenawa/wifiar/utils/Preferences.java:100 | `Integer.toString` is never empty |
| JavaNumbers.ParseIntToStringRoundTrip | apps/WifiAR/app/src/main/java/de/eschoenawa/wifiar/utils/Preferences.java:94-101 | parsing the decimal text of any `int` gives it back |
| Nearest.ClosestIndex | apps/WifiAR/app/src/main/java/de/eschoenawa/wifiar/heatmap/HeatmapGenerator.java:285-296 | the scan's choice is an index of the list |
| Nearest.ClosestIndexIsFirstNearest | apps/WifiAR/app/src/main/java/de/eschoenawa/wifiar/heatmap/HeatmapGenerator.java:290-294 | no measurement is closer than the chosen one, and every earlier one is strictly farther, so ties go to the earliest |
| Nearest.FirstClosestIsUnique | apps/WifiAR/app/src/main/java/de/eschoenawa/wifiar/heatmap/HeatmapGenerator.java:290-294 | any index that is nearest and has only strictly farther predecessors is the one chosen |
| Nearest.ExactHitIsNearest | apps/WifiAR/app/src/main/java/de/eschoenawa/wifiar/heatmap/HeatmapGenerator.java:285-296 | when a measurement lies on the point, the one chosen is at distance zero |
| Nearest.EdgeSample | apps/WifiAR/app/src/main/java/de/eschoenawa/wifiar/heatmap/HeatmapGenerator.java:309-328 | a corner sample lies on its corner, keeps the nearest measurement's wavelength, and has `MIN_POWER`, `MAX_POWER` or that measurement's power by strategy |
| Nearest.EdgeSamples | apps/WifiAR/app/src/main/java/de/eschoenawa/wifiar/heatmap/HeatmapGenerator.java:304-334 | exactly four samples at (-1,-1), (-1,sizeY), (sizeX,-1), (sizeX,sizeY), in that order |
| Nearest.Corners | apps/WifiAR/app/src/main/java/de/eschoenawa/wifiar/heatmap/HeatmapGenerator.java:304-334 | four corners one cell outside the grid, distinct whenever neither size is -1 |
| Nearest.EdgePower | apps/WifiAR/app/src/main/java/de/eschoenawa/wifiar/heatmap/HeatmapGenerator.java:318-328 | the nearest measurement's power under the nearest strategy, else `MIN_POWER` or `MAX_POWER`; in range when the nearest power is |
| Nearest.FixedEdgePowers | apps/WifiAR/app/src/main/java/de/eschoenawa/wifiar/heatmap/HeatmapGenerator.java:318-328 | the low strategy gives all four corners power 0, the high strategy 0.0001 |
| Polygons.Previous | apps/WifiAR/app/src/main/java/de/eschoenawa/wifiar/models/Polygon.java:18 | `j` is the previous vertex, the last one for the first |
| Polygons.Crossings | apps/WifiAR/app/src/main/java/de/eschoenawa/wifiar/models/Polygon.java:18-25 | at most one crossing per edge examined |
| Polygons.IsPointInPolygon | apps/WifiAR/app/src/main/java/de/eschoenawa/wifiar/models/Polygon.java:14-27 | the result is the parity of the edges that straddle the point's height with the crossing strictly right of it; false for no vertices |
| Polygons.Inside | apps/WifiAR/app/src/main/java/de/eschoenawa/wifiar/models/Polygon.java:14-27 | fewer than two vertices never contain a point |
| Polygons.CrossedEdge | apps/WifiAR/app/src/main/java/de/eschoenawa/wifiar/models/Polygon.java:18-25 | a positive crossing count among the first `k` edges means one of them is crossed |
| Polygons.InsideCrossesAnEdge | apps/WifiAR/app/src/main/java/de/eschoenawa/wifiar/models/Polygon.java:18-26 | a point inside crosses at least one edge |
| Polygons.NoStraddleNoCrossing | apps/WifiAR/app/src/main/java/de/eschoenawa/wifiar/models/Polygon.java:21 | with all vertices on one side of the point's height no edge is crossed |
| Polygons.OutsideVerticalExtent | apps/WifiAR/app/src/main/java/de/eschoenawa/wifiar/models/Polygon.java:21 | a point below all vertices, or level with or above all of them, is outside |
| Polygons.CrossingWithinEdge | apps/WifiAR/app/src/main/java/de/eschoenawa/wifiar/models/Polygon.java:22 | the crossing x of a straddling edge is not right of both its ends |
| Polygons.NoCrossingLeftOfPoint | apps/WifiAR/app/src/main/java/de/eschoenawa/wifiar/models/Polygon.java:22 | a point level with or right of every vertex crosses no edge |
| Polygons.RightOfAllVerticesIsOutside | apps/WifiAR/app/src/main/java/de/eschoenawa/wifiar/models/Polygon.java:22 | such a point is outside |
| Polygons.CrossingsAreTranslationInvariant | apps/WifiAR/app/src/main/java/de/eschoenawa/wifiar/models/Polygon.java:21-22 | moving polygon and point together keeps every crossing |
| Polygons.TranslationKeepsInside | apps/WifiAR/app/src/main/java/de/eschoenawa/wifiar/models/Polygon.java:14-27 | moving polygon and point together keeps the answer |
| Polygons.UnitSquareExamples | apps/WifiAR/app/src/test/java/de/eschoenawa/wifiar/ModelsTest.java:19-27 | the unit square contains (0.5, 0.5) and not (1.5, 1.5) |
| Positions.SquaredFloorDistance | apps/WifiAR/app/src/main/java/de/eschoenawa/wifiar/utils/Utils.java:39 | the squared horizontal distance is non-negative |
| Positions.PositionsCloseEnough | apps/WifiAR/app/src/main/java/de/eschoenawa/wifiar/utils/Utils.java:35-41 | never close when either side is null |
| Positions.CloseEnoughIsSymmetric | apps/WifiAR/app/src/main/java/de/eschoenawa/wifiar/utils/Utils.java:39-40 | the test does not depend on argument order |
| Positions.CloseEnoughIsReflexive | apps/WifiAR/app/src/main/java/de/eschoenawa/wifiar/utils/Utils.java:39-40 | a known position is close to itself |
| Positions.HeightIsIgnored | apps/WifiAR/app/src/main/java/de/eschoenawa/wifiar/utils/Utils.java:39 | positions differing only in `y` are close |
| Positions.DetectionDistanceExamples | apps/WifiAR/app/src/main/java/de/eschoenawa/wifiar/utils/Utils.java:39-40 | 5 cm apart is close, 20 cm is not, with the threshold `0.1f` |
| Settings.TipKeyIsInjective | apps/WifiAR/app/src/main/java/de/eschoenawa/wifiar/utils/Preferences.java:20-24 | distinct hints have distinct keys |
| Settings.PutString | apps/WifiAR/app/src/main/java/de/eschoenawa/wifiar/utils/Preferences.java:100 | a written string reads back, and every other entry is unchanged |
| Settings.PutBoolean | apps/WifiAR/app/src/main/java/de/eschoenawa/wifiar/utils/Preferences.java:57 | a written flag reads back, and every other entry is unchanged |
| Settings.NumberOfMeasurements | apps/WifiAR/app/src/main/java/de/eschoenawa/wifiar/utils/Preferences.java:117-126 | a returned count lies in 1..9; unparsable text throws and writes nothing; the only possible write stores "3" |
| Settings.ParseDefaults | apps/WifiAR/app/src/main/java/de/eschoenawa/wifiar/utils/Preferences.java:89-96 | the default texts "3" and "100" parse to 3 and 100 |
| Settings.NumberOfMeasurementsDefault | apps/WifiAR/app/src/main/java/de/eschoenawa/wifiar/utils/Preferences.java:118-125 | unset, the count is 3 and nothing is written |
| Settings.NumberOfMeasurementsInRange | apps/WifiAR/app/src/main/java/de/eschoenawa/wifiar/utils/Preferences.java:118-125 | a stored count in 1..9 is returned as is, with no write |
| Settings.NumberOfMeasurementsOutOfRange | apps/WifiAR/app/src/main/java/de/eschoenawa/wifiar/utils/Preferences.java:118-123 | a stored count outside 1..9 reads as 3 and the entry is overwritten with "3" |
| Settings.NumberOfMeasurementsIsIdempotent | apps/WifiAR/app/src/main/java/de/eschoenawa/wifiar/utils/Preferences.java:117-126 | after one successful read, reading again gives the same count and writes nothing |
| Settings.Preferences.constructor | apps/WifiAR/app/src/main/java/de/eschoenawa/wifiar/utils/Preferences.java:33-36 | keeps the flag store and the settings store |
| Settings.Preferences.WasTipShown | apps/WifiAR/app/src/main/java/de/eschoenawa/wifiar/utils/Preferences.java:52-78 | a hint never marked reads as not shown |
| Settings.Preferences.SetTipShown | apps/WifiAR/app/src/main/java/de/eschoenawa/wifiar/utils/Preferences.java:56-82 | the hint's flag reads back as set and every other hint's flag is unchanged |
| Settings.Preferences.ShouldDrawDebugLines | apps/WifiAR/app/src/main/java/de/eschoenawa/wifiar/utils/Preferences.java:85-87 | the stored flag, false when unset |
| Settings.Preferences.GetPixelsPerMeter | apps/WifiAR/app/src/main/java/de/eschoenawa/wifiar/utils/Preferences.java:89-92 | the stored text parsed, 100 when unset |
| Settings.Preferences.GetGradientWidth | apps/WifiAR/app/src/main/java/de/eschoenawa/wifiar/utils/Preferences.java:94-97 | the stored text parsed, 100 when unset |
| Settings.Preferences.SetGradientWidth | apps/WifiAR/app/src/main/java/de/eschoenawa/wifiar/utils/Preferences.java:99-101 | stores the decimal text, and `getGradientWidth` then returns the same width |
| Settings.Preferences.GetColorSelectionMode | apps/WifiAR/app/src/main/java/de/eschoenawa/wifiar/utils/Preferences.java:103-106 | wifi bars exactly when "WIFI_BARS" is stored; bounds when unset |
| Settings.Preferences.GetHeatmapColors | apps/WifiAR/app/src/main/java/de/eschoenawa/wifiar/utils/Preferences.java:108-111 | the stored text parsed, 0 when unset |
| Settings.Preferences.ShouldWaitForNewWifiScan | apps/WifiAR/app/src/main/java/de/eschoenawa/wifiar/utils/Preferences.java:113-115 | the stored flag, false when unset |
| Settings.Preferences.IsAreaAutoDefinitionEnabled | apps/WifiAR/app/src/main/java/de/eschoenawa/wifiar/utils/Preferences.java:128-130 | the stored flag, false when unset |
| Settings.Preferences.GetNumberOfMeasurements | apps/WifiAR/app/src/main/java/de/eschoenawa/wifiar/utils/Preferences.java:117-126 | returns a count in 1..9, correcting an out-of-range entry to "3"; the store either stays or gets "3" written, and stays whenever the count returned is not 3 |
| Settings.PreferencesRegistry.constructor | apps/WifiAR/app/src/main/java/de/eschoenawa/wifiar/utils/Preferences.java:29 | no instance before `init` |
| Settings.PreferencesRegistry.Init | apps/WifiAR/app/src/main/java/de/eschoenawa/wifiar/utils/Preferences.java:38-43 | creates an instance only when there is none; a second `init` keeps the first |
| Settings.PreferencesRegistry.GetInstance | apps/WifiAR/app/src/main/java/de/eschoenawa/wifiar/utils/Preferences.java:45-48 | throws `NotInitializedException` exactly before `init`, else returns the instance |
| Scheduling.Quadrants | apps/WifiAR/app/src/main/java/de/eschoenawa/wifiar/heatmap/HeatmapGenerator.java:155-165 | a split submits four packages |
| Scheduling.DivideX | apps/WifiAR/app/src/main/java/de/eschoenawa/wifiar/heatmap/HeatmapGenerator.java:155-157 | the split column lies between start and end, halving the width with the odd column going to the right half |
| Scheduling.DivideY | apps/WifiAR/app/src/main/java/de/eschoenawa/wifiar/heatmap/HeatmapGenerator.java:156-158 | the split row lies between start and end, halving the height with the odd row going to the lower half |
| Scheduling.SplitCriterion | apps/WifiAR/app/src/main/java/de/eschoenawa/wifiar/heatmap/HeatmapGenerator.java:189-195 | a package is split exactly when it has more than 10000 cells and is at least two wide and two high |
| Scheduling.SplitShrinks | apps/WifiAR/app/src/main/java/de/eschoenawa/wifiar/heatmap/HeatmapGenerator.java:153-165 | when `shouldUseMoreThreads` holds, each quadrant is non-empty and strictly narrower and lower than its parent, so the recursion ends |
| Scheduling.SplitCovers | apps/WifiAR/app/src/main/java/de/eschoenawa/wifiar/heatmap/HeatmapGenerator.java:162-165 | the quadrants together cover exactly the parent |
| Scheduling.SplitIsDisjoint | apps/WifiAR/app/src/main/java/de/eschoenawa/wifiar/heatmap/HeatmapGenerator.java:162-165 | no cell lies in two quadrants |
| Scheduling.SplitArea | apps/WifiAR/app/src/main/java/de/eschoenawa/wifiar/heatmap/HeatmapGenerator.java:155-165 | the quadrants' cell counts add up to the parent's |
| Scheduling.Column | apps/WifiAR/app/src/main/java/de/eschoenawa/wifiar/heatmap/HeatmapGenerator.java:169-171 | the inner loop visits `(x, startY)`, ..., `(x, endY - 1)` in order |
| Scheduling.ColumnMajorFirst | apps/WifiAR/app/src/main/java/de/eschoenawa/wifiar/heatmap/HeatmapGenerator.java:168-173 | a leaf writes its first column, then the rest |
| Scheduling.ColumnMajorExact | apps/WifiAR/app/src/main/java/de/eschoenawa/wifiar/heatmap/HeatmapGenerator.java:168-173 | a leaf's loops write every cell of its range exactly once and no other cell |
| Scheduling.WriteOrderCovers | apps/WifiAR/app/src/main/java/de/eschoenawa/wifiar/heatmap/HeatmapGenerator.java:152-177 | a package and its sub-packages write exactly the cells of its range |
| Scheduling.DisjointWrites | apps/WifiAR/app/src/main/java/de/eschoenawa/wifiar/heatmap/HeatmapGenerator.java:162-165 | packages over disjoint ranges write disjoint cells |
| Scheduling.WriteOrderHasNoDuplicates | apps/WifiAR/app/src/main/java/de/eschoenawa/wifiar/heatmap/HeatmapGenerator.java:152-177 | no cell is written twice |
| Scheduling.WriteOrderLength | apps/WifiAR/app/src/main/java/de/eschoenawa/wifiar/heatmap/HeatmapGenerator.java:152-177 | as many writes as cells |
| Scheduling.WriteOrderExact | apps/WifiAR/app/src/main/java/de/eschoenawa/wifiar/heatmap/HeatmapGenerator.java:139-176 | every cell of the range is written exactly once, and no other cell |
| Scheduling.Repeat | apps/WifiAR/app/src/main/java/de/eschoenawa/wifiar/heatmap/HeatmapGenerator.java:168-173 | a leaf of width `n` reports the same pixel count `n` times |
| Scheduling.ConstantSum | apps/WifiAR/app/src/main/java/de/eschoenawa/wifiar/heatmap/HeatmapGenerator.java:168-173 | a leaf's reports add up to width times height |
| Scheduling.ProgressSumsToArea | apps/WifiAR/app/src/main/java/de/eschoenawa/wifiar/heatmap/HeatmapGenerator.java:152-177 | all progress increments of a package add up to its number of cells |
| Scheduling.ScheduleAccounting | apps/WifiAR/app/src/main/java/de/eschoenawa/wifiar/heatmap/HeatmapGenerator.java:161-176 | a package started while registered leaves the count one lower, never below its start before its last call, and wakes the waiter exactly when it was the last task |
| Scheduling.ChildAccounting | apps/WifiAR/app/src/main/java/de/eschoenawa/wifiar/heatmap/HeatmapGenerator.java:161-165 | each sub-package run consumes exactly its own registration |
| Scheduling.Root | apps/WifiAR/app/src/main/java/de/eschoenawa/wifiar/heatmap/HeatmapGenerator.java:139 | the first package covers `sizeX * sizeY` cells |
| Scheduling.RootScheduleCompletes | apps/WifiAR/app/src/main/java/de/eschoenawa/wifiar/heatmap/HeatmapGenerator.java:137-141 | with the root registered first, the count stays positive until the last call, then is zero with exactly one wake-up |
| PoolOrder.Steps | apps/WifiAR/app/src/main/java/de/eschoenawa/wifiar/heatmap/HeatmapGenerator.java:152-177 | every package, split or leaf, causes at least one job |
| PoolOrder.PendingStepsAppend | apps/WifiAR/app/src/main/java/de/eschoenawa/wifiar/heatmap/HeatmapGenerator.java:152-177 | the jobs left of two groups of pending jobs add up |
| PoolOrder.Split | apps/WifiAR/app/src/main/java/de/eschoenawa/wifiar/heatmap/HeatmapGenerator.java:136-139 | the pending jobs are those before the chosen one, the chosen one and those after it |
| PoolOrder.Rest | apps/WifiAR/app/src/main/java/de/eschoenawa/wifiar/heatmap/HeatmapGenerator.java:161-165 | running one pending job removes it and queues the jobs it spawns |
| PoolOrder.RestSteps | apps/WifiAR/app/src/main/java/de/eschoenawa/wifiar/heatmap/HeatmapGenerator.java:152-177 | each job that runs leaves exactly one job less to run, so every order ends |
| PoolOrder.Spawned | apps/WifiAR/app/src/main/java/de/eschoenawa/wifiar/heatmap/HeatmapGenerator.java:161-165 | a split leaves its own `taskCompleted` and its four quadrants pending; they owe its writes and its cells |
| PoolOrder.FourSteps | apps/WifiAR/app/src/main/java/de/eschoenawa/wifiar/heatmap/HeatmapGenerator.java:161-165 | the jobs a split leaves pending count one for its deregistration plus its quadrants' jobs |
| PoolOrder.FourWrites | apps/WifiAR/app/src/main/java/de/eschoenawa/wifiar/heatmap/HeatmapGenerator.java:161-165 | the writes a split leaves pending are its quadrants' writes in turn |
| PoolOrder.PendingWritesCons | apps/WifiAR/app/src/main/java/de/eschoenawa/wifiar/heatmap/HeatmapGenerator.java:152-177 | the writes owed by a job in front of others are its own followed by theirs |
| PoolOrder.FourArea | apps/WifiAR/app/src/main/java/de/eschoenawa/wifiar/heatmap/HeatmapGenerator.java:161-165 | the cells a split leaves pending are its quadrants' cells |
| PoolOrder.Choose | apps/WifiAR/app/src/main/java/de/eschoenawa/wifiar/heatmap/HeatmapGenerator.java:136-139 | the next job is one of the pending jobs, the oldest when no choice is given |
| PoolOrder.PoolAccounting | apps/WifiAR/app/src/main/java/de/eschoenawa/wifiar/heatmap/HeatmapGenerator.java:137-176 | in every order, the count never drops below one before a call and the run ends at zero with exactly one wake-up |
| PoolOrder.RootPoolCompletes | apps/WifiAR/app/src/main/java/de/eschoenawa/wifiar/heatmap/HeatmapGenerator.java:137-176 | in every order, with the whole grid registered and submitted, the waiter is woken exactly once, after the last call |
| PoolOrder.PendingWritesAppend | apps/WifiAR/app/src/main/java/de/eschoenawa/wifiar/heatmap/HeatmapGenerator.java:152-177 | the writes owed by two groups of jobs are concatenated |
| PoolOrder.TakeWrites | apps/WifiAR/app/src/main/java/de/eschoenawa/wifiar/heatmap/HeatmapGenerator.java:152-177 | a job's own writes followed by those it leaves pending are exactly what it owed |
| PoolOrder.RestWrites | apps/WifiAR/app/src/main/java/de/eschoenawa/wifiar/heatmap/HeatmapGenerator.java:152-177 | after a job runs, the others still owe their writes and the spawned jobs owe the rest of it |
| PoolOrder.PoolWritesArePermutation | apps/WifiAR/app/src/main/java/de/eschoenawa/wifiar/heatmap/HeatmapGenerator.java:152-177 | in every order the cells written are the cells owed, each as often |
| PoolOrder.RootPoolWritesEachCellOnce | apps/WifiAR/app/src/main/java/de/eschoenawa/wifiar/heatmap/HeatmapGenerator.java:135-177 | in every order every grid cell is written exactly once and no other cell is written |
| PoolOrder.NoDuplicatesCount | apps/WifiAR/app/src/main/java/de/eschoenawa/wifiar/heatmap/HeatmapGenerator.java:168-171 | a write order without repeats writes each cell at most once |
| PoolOrder.PendingAreaAppend | apps/WifiAR/app/src/main/java/de/eschoenawa/wifiar/heatmap/HeatmapGenerator.java:152-177 | the cells owed by two groups of jobs add up |
| PoolOrder.TakeArea | apps/WifiAR/app/src/main/java/de/eschoenawa/wifiar/heatmap/HeatmapGenerator.java:152-177 | a job's own progress plus what it leaves pending is the cells it owed, and what it spawns covers ordered ranges |
| PoolOrder.RestArea | apps/WifiAR/app/src/main/java/de/eschoenawa/wifiar/heatmap/HeatmapGenerator.java:152-177 | after a job runs, the cells owed drop by that job's own progress |
| PoolOrder.PoolProgressSumsToArea | apps/WifiAR/app/src/main/java/de/eschoenawa/wifiar/heatmap/HeatmapGenerator.java:168-186 | in every order the progress increments add up to the cells owed |
| PoolOrder.RootPoolProgress | apps/WifiAR/app/src/main/java/de/eschoenawa/wifiar/heatmap/HeatmapGenerator.java:139-186 | in every order the whole grid reports exactly `sizeX * sizeY` pixels |
| PoolOrder.FifoRootDeregistersFirst | apps/WifiAR/app/src/main/java/de/eschoenawa/wifiar/heatmap/HeatmapGenerator.java:161-176 | first in, first out, a split root's `taskCompleted` comes straight after its `beforeSubmit(4)`, before any quadrant runs |
| Aggregation.RssiAggregate.constructor | apps/WifiAR/app/src/main/java/de/eschoenawa/wifiar/models/RssiAggregate.java:15-18 | sum 0, count 0, no readings, no location |
| Aggregation.RssiAggregate.At | apps/WifiAR/app/src/main/java/de/eschoenawa/wifiar/models/RssiAggregate.java:20-23 | sum 0, count 0, no readings, the given location |
| Aggregation.RssiAggregate.AddValue | apps/WifiAR/app/src/main/java/de/eschoenawa/wifiar/models/RssiAggregate.java:25-28 | the reading is appended to the readings; the sum stays their total and the count their number; the location stays |
| Aggregation.RssiAggregate.GetAverage | apps/WifiAR/app/src/main/java/de/eschoenawa/wifiar/models/RssiAggregate.java:30-32 | NaN exactly with no readings; otherwise the mean of all readings added |
| Aggregation.RssiAggregate.GetNumberOfValues | apps/WifiAR/app/src/main/java/de/eschoenawa/wifiar/models/RssiAggregate.java:42-44 | the number of readings added |
| Aggregation.RssiAggregate.GetWorldLocation | apps/WifiAR/app/src/main/java/de/eschoenawa/wifiar/models/RssiAggregate.java:34-36 | the stored location |
| Aggregation.RssiAggregate.SetWorldLocation | apps/WifiAR/app/src/main/java/de/eschoenawa/wifiar/models/RssiAggregate.java:38-40 | the location reads back |
| Aggregation.AverageOfReadings | apps/WifiAR/app/src/test/java/de/eschoenawa/wifiar/ModelsTest.java:37-45 | readings 1, 2, 3 average 2; with 4 added, 2.5 |
| PeerSelection.Responders | apps/RTTDemo/app/src/main/java/de/avm/rttdemo/MainActivity.java:80-87 | only responders |
| PeerSelection.NonResponders | apps/RTTDemo/app/src/main/java/de/avm/rttdemo/MainActivity.java:80-87 | only non-responders |
| PeerSelection.PartitionIsPermutation | apps/RTTDemo/app/src/main/java/de/avm/rttdemo/MainActivity.java:80-87 | the two groups together are a permutation of the scan |
| PeerSelection.RespondersAreTheScannedResponders | apps/RTTDemo/app/src/main/java/de/avm/rttdemo/MainActivity.java:80-87 | an access point is among the moved ones exactly when it was scanned and is a responder |
| PeerSelection.SelectPeers | apps/RTTDemo/app/src/main/java/de/avm/rttdemo/MainActivity.java:77-93 | the loops pick the responders then the others, cut to `maxPeers`, and fail when the scan has fewer results |
| PeerSelection.Selection | apps/RTTDemo/app/src/main/java/de/avm/rttdemo/MainActivity.java:80-93 | fails with `IndexOutOfBoundsException` exactly when the scan has fewer than `maxPeers` results; otherwise exactly `maxPeers` entries, all drawn from the scan |
| PeerSelection.MoveResponders | apps/RTTDemo/app/src/main/java/de/avm/rttdemo/MainActivity.java:80-87 | the iterator loop leaves the responders in the new list and the rest, in scan order, in the old one |
| PeerSelection.SelectionOfEnough | apps/RTTDemo/app/src/main/java/de/avm/rttdemo/MainActivity.java:89-93 | with enough results, the selection is the first `maxPeers` of responders followed by the rest |
| PeerSelection.RespondersComeFirst | apps/RTTDemo/app/src/main/java/de/avm/rttdemo/MainActivity.java:80-91 | every responder precedes every non-responder |
| PeerSelection.SelectionKeepsScanOrder | apps/RTTDemo/app/src/main/java/de/avm/rttdemo/MainActivity.java:80-91 | within each group the scan order is kept |
| PeerSelection.FullSelection | apps/RTTDemo/app/src/main/java/de/avm/rttdemo/MainActivity.java:89-93 | with enough results, exactly `maxPeers` entries, all from the scan, none duplicated |
| PeerSelection.EnoughResponders | apps/RTTDemo/app/src/main/java/de/avm/rttdemo/MainActivity.java:89-93 | with enough responders, the first `maxPeers` responders |
| PeerSelection.TooFewResultsThrow | apps/RTTDemo/app/src/main/java/de/avm/rttdemo/MainActivity.java:89-91 | fewer results than `maxPeers` throws `IndexOutOfBoundsException` |
| PeerSelection.UpperCase | apps/RTTDemo/app/src/main/java/de/avm/rttdemo/MainActivity.java:122 | ASCII lower-case letters become upper case, everything else stays |
| PeerSelection.UpperCaseIsIdempotent | apps/RTTDemo/app/src/main/java/de/avm/rttdemo/MainActivity.java:122 | upper-casing twice is upper-casing once |
| PeerSelection.CreateMacToApMap | apps/RTTDemo/app/src/main/java/de/avm/rttdemo/MainActivity.java:119-125 | the loop builds the map one `put` at a time, in scan order |
| PeerSelection.MacToAp | apps/RTTDemo/app/src/main/java/de/avm/rttdemo/MainActivity.java:119-125 | at most one key per scan result, and the last result's upper-cased BSSID maps to its SSID |
| PeerSelection.MacToApKeys | apps/RTTDemo/app/src/main/java/de/avm/rttdemo/MainActivity.java:119-125 | the keys are exactly the upper-cased BSSIDs |
| PeerSelection.MacToApHoldsLastSsid | apps/RTTDemo/app/src/main/java/de/avm/rttdemo/MainActivity.java:119-125 | a key maps to the SSID of its last occurrence, so later duplicates overwrite earlier ones |
| Scale.PixelsToMeters | apps/WifiAR/app/src/main/java/de/eschoenawa/wifiar/utils/ScaleHelper.java:10-12 | a whole number of meters; `ArithmeticException` exactly for a zero setting |
| Scale.PixelsToMetersOfMultiple | apps/WifiAR/app/src/main/java/de/eschoenawa/wifiar/utils/ScaleHelper.java:11 | `pixelsToMeters(n * ppm) == n` |
| Scale.PixelsToMetersTruncates | apps/WifiAR/app/src/main/java/de/eschoenawa/wifiar/utils/ScaleHelper.java:10-12 | 150 px at 100 ppm is 1.0 m and -150 px is -1.0 m |
| Scale.Ceiling | apps/WifiAR/app/src/main/java/de/eschoenawa/wifiar/utils/ScaleHelper.java:15 | `Math.ceil`, the least integer not below the value |
| Scale.CeilingIsMonotone | apps/WifiAR/app/src/main/java/de/eschoenawa/wifiar/utils/ScaleHelper.java:15 | the ceiling never decreases |
| Scale.SaturateToInt32 | apps/WifiAR/app/src/main/java/de/eschoenawa/wifiar/utils/ScaleHelper.java:15 | the `(int)` cast clamps to the `int` range |
| Scale.MetersToPixels | apps/WifiAR/app/src/main/java/de/eschoenawa/wifiar/utils/ScaleHelper.java:14-16 | always an `int` |
| Scale.MetersToPixelsCovers | apps/WifiAR/app/src/main/java/de/eschoenawa/wifiar/utils/ScaleHelper.java:14-16 | within range, the least number of pixels covering the distance |
| Scale.MetersToPixelsIsMonotone | apps/WifiAR/app/src/main/java/de/eschoenawa/wifiar/utils/ScaleHelper.java:15 | a longer distance never needs fewer pixels |
| Scale.MetersToPixelsOfZero | apps/WifiAR/app/src/main/java/de/eschoenawa/wifiar/utils/ScaleHelper.java:15 | no distance needs no pixels |
| Scale.MetersToPixelsInvertsWholeMeters | apps/WifiAR/app/src/main/java/de/eschoenawa/wifiar/utils/ScaleHelper.java:10-16 | whole meters converted to pixels and back give the same pixels |
| States.AreaIsCompletedIn | apps/WifiAR/app/src/main/java/de/eschoenawa/wifiar/utils/StateMachine.java:23-25 | true exactly for AREA_COMPLETED, MEASURE, MEASURING and DISPLAY_HEATMAP |
| States.CompletionIsMonotone | apps/WifiAR/app/src/main/java/de/eschoenawa/wifiar/utils/StateMachine.java:24 | once completed, every later phase is completed |
| States.OrdinalIsInjective | apps/WifiAR/app/src/main/java/de/eschoenawa/wifiar/utils/StateMachine.java:9-11 | distinct phases have distinct ordinals |
| States.Ordinal | apps/WifiAR/app/src/main/java/de/eschoenawa/wifiar/utils/StateMachine.java:9-11 | seven ordinals, FIND_PLANES first and DISPLAY_HEATMAP last |
| States.StateMachine.constructor | apps/WifiAR/app/src/main/java/de/eschoenawa/wifiar/utils/StateMachine.java:13 | no phase before the first `setState` |
| States.StateMachine.SetState | apps/WifiAR/app/src/main/java/de/eschoenawa/wifiar/utils/StateMachine.java:15-21 | `getState` returns what was set |
| States.StateMachine.GetState | apps/WifiAR/app/src/main/java/de/eschoenawa/wifiar/utils/StateMachine.java:15-17 | the current phase |
| States.StateMachine.IsAreaCompleted | apps/WifiAR/app/src/main/java/de/eschoenawa/wifiar/utils/StateMachine.java:23-25 | throws exactly with no phase set; otherwise true exactly for the phases from AREA_COMPLETED on |
| TriangleLookup.Min3 | apps/WifiAR/app/src/main/java/de/eschoenawa/wifiar/heatmap/HeatmapGenerator.java:370-371 | the least of three values |
| TriangleLookup.Max3 | apps/WifiAR/app/src/main/java/de/eschoenawa/wifiar/heatmap/HeatmapGenerator.java:372-373 | the greatest of three values |
| TriangleLookup.CountHits | apps/WifiAR/app/src/main/java/de/eschoenawa/wifiar/heatmap/HeatmapGenerator.java:387-391 | the hit count is positive exactly when it was or some probe is contained |
| TriangleLookup.FuzzyIsPointInTriangle | apps/WifiAR/app/src/main/java/de/eschoenawa/wifiar/heatmap/HeatmapGenerator.java:369-407 | false outside the bounding box grown by the width; otherwise true exactly when the point or one of the eight probes is contained |
| TriangleLookup.FuzzyInside | apps/WifiAR/app/src/main/java/de/eschoenawa/wifiar/heatmap/HeatmapGenerator.java:369-407 | passing implies lying in the grown bounding box; inside that box, a contained point passes |
| TriangleLookup.ZeroWidthIsExact | apps/WifiAR/app/src/main/java/de/eschoenawa/wifiar/heatmap/HeatmapGenerator.java:369-407 | with width 0 the test is the exact one inside the box |
| TriangleLookup.ContainedVertexIsInside | apps/WifiAR/app/src/main/java/de/eschoenawa/wifiar/heatmap/HeatmapGenerator.java:369-379 | a contained vertex passes the tolerant test |
| TriangleLookup.FarPointIsOutside | apps/WifiAR/app/src/main/java/de/eschoenawa/wifiar/heatmap/HeatmapGenerator.java:370-376 | a point farther right than the width beyond all vertices fails it |
| TriangleLookup.FirstFuzzy | apps/WifiAR/app/src/main/java/de/eschoenawa/wifiar/heatmap/HeatmapGenerator.java:345-352 | the first triangle that passes, with none before it; none exactly when no triangle passes |
| TriangleLookup.FindTriangleContainingPoint | apps/WifiAR/app/src/main/java/de/eschoenawa/wifiar/heatmap/HeatmapGenerator.java:345-352 | the loop returns that first triangle, or null exactly when no triangle passes |
| TriangleLookup.FirstFuzzyIsFirstMatch | apps/WifiAR/app/src/main/java/de/eschoenawa/wifiar/heatmap/HeatmapGenerator.java:345-352 | a passing triangle with no passing predecessor is the first match |
| TriangleLookup.ContainingTriangleIsFuzzyMatch | apps/WifiAR/app/src/main/java/de/eschoenawa/wifiar/heatmap/HeatmapGenerator.java:345-352 | a triangle found is from the list and passes the tolerant test; none is found exactly when no triangle passes |
| ColorSelection.GetMode | apps/WifiAR/app/src/main/java/de/eschoenawa/wifiar/heatmap/ColorSelector.java:106-114 | "WIFI_BARS" gives wifi bars; every other string, bounds |
| ColorSelection.GetModeOfNameIsIdentity | apps/WifiAR/app/src/test/java/de/eschoenawa/wifiar/ColorSelectorTest.java:36-41 | "BOUNDS" and "WIFI_BARS" read back as their modes |
| ColorSelection.NewColorSelector | apps/WifiAR/app/src/main/java/de/eschoenawa/wifiar/heatmap/ColorSelector.java:34-63 | bounds mode needs exactly two boundaries and takes the width from the setting (-1 meaning one pixel per colour); wifi-bars mode ignores boundaries, uses NaN bounds and one pixel per colour; a width that is not positive throws |
| ColorSelection.NextRow | apps/WifiAR/app/src/main/java/de/eschoenawa/wifiar/heatmap/ColorSelector.java:87-89 | the end of one row of the scan is the start of the next |
| ColorSelection.SearchRow | apps/WifiAR/app/src/main/java/de/eschoenawa/wifiar/heatmap/ColorSelector.java:88-95 | the inner loop extends the search state over one row |
| ColorSelection.SearchCell | apps/WifiAR/app/src/main/java/de/eschoenawa/wifiar/heatmap/ColorSelector.java:90-94 | one cell updates the running minimum and maximum |
| ColorSelection.FindMinAndMaxValuesInHeatmap | apps/WifiAR/app/src/main/java/de/eschoenawa/wifiar/heatmap/ColorSelector.java:83-104 | throws exactly when no cell is inside the area and a number; otherwise the minimum is such a cell's value and below all of them, and the maximum is the larger of `Double.MIN_VALUE` and all of them |
| ColorSelection.CornerCutCrossings | apps/WifiAR/app/src/test/java/de/eschoenawa/wifiar/ColorSelectorTest.java:24-28 | inside the test triangle exactly when an odd number of its edges is crossed |
| ColorSelection.CornerCutAreaCoverage | apps/WifiAR/app/src/test/java/de/eschoenawa/wifiar/ColorSelectorTest.java:23-28 | the triangle excludes grid point (0,0) and includes the other three |
| ColorSelection.MinAndMaxOfCornerCutGrid | apps/WifiAR/app/src/test/java/de/eschoenawa/wifiar/ColorSelectorTest.java:16-33 | the grid 1 2 / 3 4 searched in that triangle gives (2, 4) |
| Bitmaps.ProgressReports | apps/WifiAR/app/src/main/java/de/eschoenawa/wifiar/heatmap/BitmapGenerator.java:70-77 | one percentage per finished column, for the pixels counted so far |
| Bitmaps.BitmapGenerator.constructor | apps/WifiAR/app/src/main/java/de/eschoenawa/wifiar/heatmap/BitmapGenerator.java:35-42 | `pixels` is the width times the first column's length; nothing done yet |
| Bitmaps.BitmapGenerator.DrawHeatmap | apps/WifiAR/app/src/main/java/de/eschoenawa/wifiar/heatmap/BitmapGenerator.java:44-57 | a new bitmap of the grid's size with every pixel coloured by the rule; the heatmap is not modified; one report per column and `pixels` pixels counted; an empty grid throws |
| Bitmaps.BitmapGenerator.PaintColumn | apps/WifiAR/app/src/main/java/de/eschoenawa/wifiar/heatmap/BitmapGenerator.java:47-53 | a cell's colour when it is a number inside the area, else transparent; other columns stay |
| Bitmaps.BitmapGenerator.PixelColor | apps/WifiAR/app/src/main/java/de/eschoenawa/wifiar/heatmap/BitmapGenerator.java:48-52 | transparent for a NaN cell or a pixel outside the area; otherwise the colour of the cell's value |
| Bitmaps.BitmapGenerator.SendProgressUpdate | apps/WifiAR/app/src/main/java/de/eschoenawa/wifiar/heatmap/BitmapGenerator.java:70-78 | counts the pixels and reports the percentage when a callback is registered |
| Bitmaps.BitmapGenerator.DrawHeatmapAsync | apps/WifiAR/app/src/main/java/de/eschoenawa/wifiar/heatmap/BitmapGenerator.java:59-68 | the bitmap reaches the callback exactly when one is registered and drawing succeeded |
| Bitmaps.LastReportIsComplete | apps/WifiAR/app/src/main/java/de/eschoenawa/wifiar/heatmap/BitmapGenerator.java:70-77 | a drawing from nothing ends with a report of exactly 100 |
| Bitmaps.ProgressStep | apps/WifiAR/app/src/main/java/de/eschoenawa/wifiar/heatmap/BitmapGenerator.java:54 | one more column adds one report |
| Bitmaps.ReportsIncrease | apps/WifiAR/app/src/main/java/de/eschoenawa/wifiar/heatmap/BitmapGenerator.java:70-77 | reports grow strictly from column to column |
| Bitmaps.RightOfAreaIsTransparent | apps/WifiAR/app/src/main/java/de/eschoenawa/wifiar/heatmap/BitmapGenerator.java:48-52 | a pixel right of the whole area is transparent |
| Measurements.WifiMeasurement.constructor | apps/WifiAR/app/src/main/java/de/eschoenawa/wifiar/models/WifiMeasurement.java:19-23 | stores power, wavelength, x and y |
| Measurements.WifiMeasurement.AtPosition | apps/WifiAR/app/src/main/java/de/eschoenawa/wifiar/models/WifiMeasurement.java:15-17 | takes x and y from the position |
| Measurements.WifiMeasurement.Copy | apps/WifiAR/app/src/main/java/de/eschoenawa/wifiar/models/WifiMeasurement.java:11-13 | the copy has equal power, wavelength, x and y |
| Measurements.WifiMeasurement.SetPower | apps/WifiAR/app/src/main/java/de/eschoenawa/wifiar/models/WifiMeasurement.java:33-35 | only the power changes |
| Measurements.WifiMeasurement.MoveTo | apps/WifiAR/app/src/main/java/de/eschoenawa/wifiar/models/WifiMeasurement.java:37-40 | only the position changes |
| Measurements.WifiMeasurement.GetPower | apps/WifiAR/app/src/main/java/de/eschoenawa/wifiar/models/WifiMeasurement.java:25-27 | the stored power |
| Measurements.WifiMeasurement.GetWavelength | apps/WifiAR/app/src/main/java/de/eschoenawa/wifiar/models/WifiMeasurement.java:29-31 | the stored wavelength |

## Left out

- Heron's `getArea` and the barycentric `interpolateValueAt` with three measurements (`HeatmapGenerator.java:246-276`): floating-point square roots and cancellation. The blend is a function parameter, so a cell's value is stated as "the blend of the right three measurements".
- The Delaunay triangulator and `Triangle2D.contains` belong to an external library. They are parameters: an optional triangle list and an uninterpreted predicate.
- Executors, `synchronized`, double-checked locking, `wait`/`notifyAll` and interruption are concurrency. The generator's methods run the packages in one depth-first interleaving. `PoolOrder` lets any pending job go next, but treats each job as one atomic step: the calls of two jobs never interleave within a column, and the cache and the cell values in other orders are not modelled. The waits in `awaitCompletion` are modelled by the calls of the other threads they observe.
- Rounding, infinities and NaN from double arithmetic. Reals are exact, `FindMinAndMaxValuesInHeatmap` assumes finite cell values, and distances are compared squared (the square root is monotone).
- Heatmaps.Percentage: yields NaN whenever `pixels` is 0, where Java gives NaN only for `0 / 0` (a positive count over 0 pixels is infinite). Over an empty grid every increment is 0, so the done count stays 0 and the two agree on every reachable state.
- Scale.PixelsToMeters and Scale.MetersToPixels take the pixels-per-meter setting as a parameter. The `Preferences.getInstance().getPixelsPerMeter()` call, and its `NotInitializedException` or `NumberFormatException`, are modelled separately in `Settings`.
- ColorSelection.NewColorSelector: takes the gradient-width setting as a parameter. The `IllegalArgumentException` for a width that is not positive stands for `Bitmap.createBitmap` rejecting it. The gradient drawable itself is not modelled.
- JavaNumbers.ParseInt: accepts ASCII digits only; Unicode digits that `Integer.parseInt` also accepts are not modelled.
- Heatmaps.HeatmapGenerator.constructor: requires `sizeX * sizeY` to fit in an `int`; the wrap-around of `pixels` is not modelled.
- `ShouldUseMoreThreads` multiplies `deltaX * deltaY` without overflow. This is exact under the constructor's size bound.
- The generator's measurements are values, not shared objects, so aliasing between list entries is not modelled: a measurement listed twice is shifted once per occurrence, as in the source, but the two entries are not the same object.
- `getHeatmap`/`getOffset` are the fields `heatmap` and `offset`.
- A second `generateHeatmap` on the same generator shifts the list again, adds four more corner points and keeps counting `pixelsDone` from where it was, so percentages can pass 100. This is modelled as written; `FirstRunEndsAtHundredPercent` covers the first run only.
- `ColorSelector.getColorForValue` (gradient bitmap sampling, `WifiManager.calculateSignalLevel`, unit conversion) and drawing the gradient drawable: Android rendering. The bitmap generator takes the colour function as a parameter.
- Bitmaps.BitmapGenerator.constructor: requires at least one column, where the source throws `ArrayIndexOutOfBoundsException` on `heatmap[0]`. Grids are rectangular (`array2`), so every column has the first column's length.
- `UnitConverter`, `PowerConverter`, `ImageHolder`, the activities, views, the controller, the data collector and the receiver are UI, AR rendering or platform I/O.
- Settings: the `SharedPreferences` stores are two maps each (strings and booleans). Reading a key stored with the other type (a `ClassCastException`) is not modelled.
- `ColorSelector.getMode(null)`, which throws in a `switch` on a null string, is not modelled: strings are never null here.
- PeerSelection.UpperCase: upper-cases ASCII letters only; `toUpperCase(Locale.US)` on other Unicode letters is not modelled.
- Toasts, `RangingRequest.Builder`, `startRanging` and its callbacks in the RTT demo are platform calls. `getMaxPeers()` is the parameter `maxPeers`.
- `Utils.getScreenSize` and `Utils.saveBitmap` are platform I/O.
