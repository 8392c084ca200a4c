/**
 * The recursive division of the heatmap into rectangular work packages
 * (`interpolateHeatmapValues(startX, endX, startY, endY, ...)` and
 * `shouldUseMoreThreads`): which cells each package writes, in which order,
 * how much progress it reports and which counter calls it makes.
 */
module Scheduling {
  import opened JavaNumbers
  import opened Constants
  import opened Completion

  /** The half-open cell range `[startX, endX) x [startY, endY)`. */
  datatype Rect = Rect(startX: int, endX: int, startY: int, endY: int)

  predicate Ordered(r: Rect)
  {
    r.startX <= r.endX && r.startY <= r.endY
  }

  function Width(r: Rect): nat
  {
    if r.endX > r.startX then r.endX - r.startX else 0
  }

  function Height(r: Rect): nat
  {
    if r.endY > r.startY then r.endY - r.startY else 0
  }

  function Area(r: Rect): nat
  {
    Width(r) * Height(r)
  }

  predicate Contains(r: Rect, x: int, y: int)
  {
    r.startX <= x < r.endX && r.startY <= y < r.endY
  }

  /**
   * `startX + (deltaX / 2)` with Java's truncating division: a point between
   * the two ends, the lower part never the larger.
   */
  function DivideX(r: Rect): (d: int)
    ensures r.startX <= d <= r.endX || r.endX <= d <= r.startX
    ensures r.startX <= r.endX ==> d - r.startX <= r.endX - d <= d - r.startX + 1
  {
    r.startX + TruncDiv(r.endX - r.startX, 2)
  }

  function DivideY(r: Rect): (d: int)
    ensures r.startY <= d <= r.endY || r.endY <= d <= r.startY
    ensures r.startY <= r.endY ==> d - r.startY <= r.endY - d <= d - r.startY + 1
  {
    r.startY + TruncDiv(r.endY - r.startY, 2)
  }

  /**
   * `shouldUseMoreThreads`: more cells than one package should take, and both
   * midpoints strictly inside the range.
   */
  predicate ShouldUseMoreThreads(r: Rect)
  {
    (r.endX - r.startX) * (r.endY - r.startY) > MAX_VALUES_PER_THREAD
    && DivideX(r) > r.startX && DivideX(r) < r.endX
    && DivideY(r) > r.startY && DivideY(r) < r.endY
  }

  /**
   * A package is split exactly when it holds more cells than one package
   * should take and spans at least two columns and two rows.
   */
  lemma SplitCriterion(r: Rect)
    ensures ShouldUseMoreThreads(r) <==> Area(r) > MAX_VALUES_PER_THREAD && Width(r) >= 2 && Height(r) >= 2
  {
  }

  /** The four packages a split submits, in submission order. */
  function Quadrants(r: Rect): (q: seq<Rect>)
    ensures |q| == 4
  {
    var dx, dy := DivideX(r), DivideY(r);
    [Rect(r.startX, dx, r.startY, dy), Rect(dx, r.endX, r.startY, dy),
     Rect(r.startX, dx, dy, r.endY), Rect(dx, r.endX, dy, r.endY)]
  }

  lemma Distribute(a: int, b: int, c: int, d: int)
    ensures (a + b) * (c + d) == a * c + b * c + a * d + b * d
  {
    assert (a + b) * (c + d) == (a + b) * c + (a + b) * d;
  }

  /** A split range has four non-empty quadrants, each narrower and lower than the range. */
  lemma SplitShrinks(r: Rect)
    requires ShouldUseMoreThreads(r)
    ensures Ordered(r)
    ensures forall i :: 0 <= i < 4 ==>
              Ordered(Quadrants(r)[i]) && 0 < Width(Quadrants(r)[i]) < Width(r) && 0 < Height(Quadrants(r)[i]) < Height(r)
  {
  }

  /** Together the quadrants cover exactly the range. */
  lemma SplitCovers(r: Rect)
    requires ShouldUseMoreThreads(r)
    ensures forall x, y :: Contains(r, x, y) <==>
              Contains(Quadrants(r)[0], x, y) || Contains(Quadrants(r)[1], x, y)
              || Contains(Quadrants(r)[2], x, y) || Contains(Quadrants(r)[3], x, y)
  {
  }

  /** No cell lies in two quadrants. */
  lemma SplitIsDisjoint(r: Rect)
    requires ShouldUseMoreThreads(r)
    ensures forall i, j, x, y :: 0 <= i < j < 4 && Contains(Quadrants(r)[i], x, y) ==> !Contains(Quadrants(r)[j], x, y)
  {
  }

  /** The quadrants' cell counts add up to the range's. */
  lemma {:induction false} SplitArea(r: Rect)
    requires ShouldUseMoreThreads(r)
    ensures Area(r) == Area(Quadrants(r)[0]) + Area(Quadrants(r)[1]) + Area(Quadrants(r)[2]) + Area(Quadrants(r)[3])
  {
    SplitShrinks(r);
    var q := Quadrants(r);
    var a, b := DivideX(r) - r.startX, r.endX - DivideX(r);
    var c, d := DivideY(r) - r.startY, r.endY - DivideY(r);
    assert Width(q[0]) == a && Width(q[1]) == b && Width(q[2]) == a && Width(q[3]) == b;
    assert Height(q[0]) == c && Height(q[1]) == c && Height(q[2]) == d && Height(q[3]) == d;
    assert Width(r) == a + b && Height(r) == c + d;
    Distribute(a, b, c, d);
  }

  /** Cell indices are distinct. */
  predicate NoDuplicates(s: seq<(int, int)>)
  {
    forall i, j :: 0 <= i < j < |s| ==> s[i] != s[j]
  }

  lemma NoDuplicatesConcat(a: seq<(int, int)>, b: seq<(int, int)>)
    requires NoDuplicates(a) && NoDuplicates(b)
    requires forall c :: c in a ==> c !in b
    ensures NoDuplicates(a + b)
  {
    forall i, j | 0 <= i < j < |a + b|
      ensures (a + b)[i] != (a + b)[j]
    {
      if i < |a| && j >= |a| {
        assert (a + b)[i] in a && (a + b)[j] in b;
      }
    }
  }

  /** The cells `(x, y0), ..., (x, y1 - 1)`, in the order of the inner loop. */
  function Column(x: int, y0: int, y1: int): (s: seq<(int, int)>)
    ensures |s| == if y1 > y0 then y1 - y0 else 0
    ensures forall i :: 0 <= i < |s| ==> s[i] == (x, y0 + i)
  {
    seq(if y1 > y0 then y1 - y0 else 0, i => (x, y0 + i))
  }

  /** The cells in the order a package's double loop writes them: column after column. */
  function ColumnMajor(r: Rect): seq<(int, int)>
    decreases Width(r)
  {
    if Width(r) == 0 then []
    else Column(r.startX, r.startY, r.endY) + ColumnMajor(r.(startX := r.startX + 1))
  }

  /** The first column of a non-empty range, then the rest. */
  lemma ColumnMajorFirst(r: Rect)
    requires r.startX < r.endX
    ensures ColumnMajor(r) == Column(r.startX, r.startY, r.endY) + ColumnMajor(r.(startX := r.startX + 1))
  {
  }

  /** A package's loop writes every cell of its range exactly once and nothing else. */
  lemma {:induction false} ColumnMajorExact(r: Rect)
    ensures forall x, y :: (x, y) in ColumnMajor(r) <==> Contains(r, x, y)
    ensures NoDuplicates(ColumnMajor(r))
    ensures |ColumnMajor(r)| == Area(r)
    decreases Width(r)
  {
    if Width(r) > 0 {
      var rest := r.(startX := r.startX + 1);
      ColumnMajorExact(rest);
      var col := Column(r.startX, r.startY, r.endY);
      forall x, y
        ensures (x, y) in col <==> (r.startX == x && Contains(r, x, y))
      {
        if (x, y) in col {
          var i :| 0 <= i < |col| && col[i] == (x, y);
        }
        if r.startX == x && Contains(r, x, y) {
          assert col[y - r.startY] == (x, y);
        }
      }
      NoDuplicatesConcat(col, ColumnMajor(rest));
      assert Width(rest) == Width(r) - 1;
      assert Area(r) == Height(r) + Area(rest);
    }
  }

  /** All cells a package writes, its sub-packages' included, depth first, each quadrant to the end before the next. */
  function WriteOrder(r: Rect): seq<(int, int)>
    decreases Width(r) + Height(r)
  {
    if ShouldUseMoreThreads(r) then
      SplitShrinks(r);
      var q := Quadrants(r);
      WriteOrder(q[0]) + WriteOrder(q[1]) + WriteOrder(q[2]) + WriteOrder(q[3])
    else
      ColumnMajor(r)
  }

  /** Whatever the split, the packages together write exactly the cells of the range. */
  lemma {:induction false} WriteOrderCovers(r: Rect)
    ensures forall x, y :: (x, y) in WriteOrder(r) <==> Contains(r, x, y)
    decreases Width(r) + Height(r)
  {
    if ShouldUseMoreThreads(r) {
      SplitShrinks(r);
      SplitCovers(r);
      var q := Quadrants(r);
      WriteOrderCovers(q[0]);
      WriteOrderCovers(q[1]);
      WriteOrderCovers(q[2]);
      WriteOrderCovers(q[3]);
      assert WriteOrder(r) == WriteOrder(q[0]) + WriteOrder(q[1]) + WriteOrder(q[2]) + WriteOrder(q[3]);
    } else {
      ColumnMajorExact(r);
    }
  }

  /** Packages over ranges without common cells write disjoint cells. */
  lemma DisjointWrites(a: Rect, b: Rect)
    requires forall x, y :: Contains(a, x, y) ==> !Contains(b, x, y)
    ensures forall c :: c in WriteOrder(a) ==> c !in WriteOrder(b)
  {
    WriteOrderCovers(a);
    WriteOrderCovers(b);
    forall c | c in WriteOrder(a)
      ensures c !in WriteOrder(b)
    {
      var (x, y) := c;
      assert Contains(a, x, y);
    }
  }

  /** No cell is written twice. */
  lemma {:induction false} WriteOrderHasNoDuplicates(r: Rect)
    ensures NoDuplicates(WriteOrder(r))
    decreases Width(r) + Height(r)
  {
    if ShouldUseMoreThreads(r) {
      SplitShrinks(r);
      SplitIsDisjoint(r);
      var q := Quadrants(r);
      WriteOrderHasNoDuplicates(q[0]);
      WriteOrderHasNoDuplicates(q[1]);
      WriteOrderHasNoDuplicates(q[2]);
      WriteOrderHasNoDuplicates(q[3]);
      var w0, w1, w2, w3 := WriteOrder(q[0]), WriteOrder(q[1]), WriteOrder(q[2]), WriteOrder(q[3]);
      assert WriteOrder(r) == w0 + w1 + w2 + w3;
      DisjointWrites(q[0], q[1]);
      NoDuplicatesConcat(w0, w1);
      DisjointWrites(q[0], q[2]);
      DisjointWrites(q[1], q[2]);
      NoDuplicatesConcat(w0 + w1, w2);
      DisjointWrites(q[0], q[3]);
      DisjointWrites(q[1], q[3]);
      DisjointWrites(q[2], q[3]);
      NoDuplicatesConcat(w0 + w1 + w2, w3);
    } else {
      ColumnMajorExact(r);
    }
  }

  /** As many writes as cells. */
  lemma {:induction false} WriteOrderLength(r: Rect)
    ensures |WriteOrder(r)| == Area(r)
    decreases Width(r) + Height(r)
  {
    if ShouldUseMoreThreads(r) {
      SplitShrinks(r);
      SplitArea(r);
      var q := Quadrants(r);
      WriteOrderLength(q[0]);
      WriteOrderLength(q[1]);
      WriteOrderLength(q[2]);
      WriteOrderLength(q[3]);
      assert WriteOrder(r) == WriteOrder(q[0]) + WriteOrder(q[1]) + WriteOrder(q[2]) + WriteOrder(q[3]);
    } else {
      ColumnMajorExact(r);
    }
  }

  /** Every cell of the range is written exactly once, and no other cell. */
  lemma WriteOrderExact(r: Rect)
    ensures forall x, y :: (x, y) in WriteOrder(r) <==> Contains(r, x, y)
    ensures NoDuplicates(WriteOrder(r))
    ensures |WriteOrder(r)| == Area(r)
  {
    WriteOrderCovers(r);
    WriteOrderHasNoDuplicates(r);
    WriteOrderLength(r);
  }

  function Sum(s: seq<int>): int
  {
    if s == [] then 0 else s[0] + Sum(s[1..])
  }

  lemma {:induction false} SumAppend(a: seq<int>, b: seq<int>)
    ensures Sum(a + b) == Sum(a) + Sum(b)
  {
    if a == [] {
      assert a + b == b;
    } else {
      assert (a + b)[1..] == a[1..] + b;
      SumAppend(a[1..], b);
    }
  }

  /** `n` copies of `v`. */
  function Repeat(n: nat, v: int): (s: seq<int>)
    ensures |s| == n && forall i :: 0 <= i < n ==> s[i] == v
  {
    if n == 0 then [] else [v] + Repeat(n - 1, v)
  }

  /** The pixel counts a package reports, one per column: `endY - startY` each. */
  function ProgressIncrements(r: Rect): seq<int>
    decreases Width(r) + Height(r)
  {
    if ShouldUseMoreThreads(r) then
      SplitShrinks(r);
      var q := Quadrants(r);
      ProgressIncrements(q[0]) + ProgressIncrements(q[1]) + ProgressIncrements(q[2]) + ProgressIncrements(q[3])
    else
      Repeat(Width(r), r.endY - r.startY)
  }

  lemma {:induction false} ConstantSum(n: nat, v: int)
    ensures Sum(Repeat(n, v)) == n * v
  {
    if n > 0 {
      assert Repeat(n, v)[1..] == Repeat(n - 1, v);
      ConstantSum(n - 1, v);
    }
  }

  /** The reported pixel counts of an ordered range add up to its number of cells. */
  lemma {:induction false} ProgressSumsToArea(r: Rect)
    requires Ordered(r)
    ensures Sum(ProgressIncrements(r)) == Area(r)
    decreases Width(r) + Height(r)
  {
    if ShouldUseMoreThreads(r) {
      SplitShrinks(r);
      var q := Quadrants(r);
      SplitArea(r);
      ProgressSumsToArea(q[0]);
      ProgressSumsToArea(q[1]);
      ProgressSumsToArea(q[2]);
      ProgressSumsToArea(q[3]);
      var p0, p1, p2, p3 := ProgressIncrements(q[0]), ProgressIncrements(q[1]), ProgressIncrements(q[2]), ProgressIncrements(q[3]);
      SumAppend(p0, p1);
      SumAppend(p0 + p1, p2);
      SumAppend(p0 + p1 + p2, p3);
    } else {
      ConstantSum(Width(r), r.endY - r.startY);
    }
  }

  /**
   * The counter calls of a package run depth first: a split
   * registers four sub-packages, runs them, then completes itself; a leaf
   * just completes.
   */
  function Schedule(r: Rect): seq<TaskEvent>
    decreases Width(r) + Height(r)
  {
    if ShouldUseMoreThreads(r) then
      SplitShrinks(r);
      var q := Quadrants(r);
      [Submit(4)] + Schedule(q[0]) + Schedule(q[1]) + Schedule(q[2]) + Schedule(q[3]) + [Complete]
    else
      [Complete]
  }

  lemma {:induction false} NeverBelowWeaken(c: CounterState, events: seq<TaskEvent>, m: int, n: int)
    requires NeverBelow(c, events, m) && n <= m
    ensures NeverBelow(c, events, n)
    decreases |events|
  {
    if events != [] {
      NeverBelowWeaken(Step(c, events[0]), events[1..], m, n);
    }
  }

  /** Appending one more event whose start state satisfies the bound keeps it. */
  lemma {:induction false} ExtendRun(c: CounterState, a: seq<TaskEvent>, b: seq<TaskEvent>, m: int)
    requires NeverBelow(c, a, m) && NeverBelow(Run(c, a), b, m)
    ensures NeverBelow(c, a + b, m) && Run(c, a + b) == Run(Run(c, a), b)
  {
    NeverBelowAppend(c, a, b, m);
    RunAppend(c, a, b);
  }

  /**
   * A package started while its own registration is counted (`tasks >= 1`)
   * leaves the count one lower, never lets it drop below its starting value
   * before its last call, and wakes the waiter exactly when it was the last
   * outstanding task.
   */
  lemma {:induction false} ScheduleAccounting(r: Rect, c: CounterState)
    requires c.tasks >= 1
    ensures Run(c, Schedule(r)) == CounterState(c.tasks - 1, c.wakeUps + (if c.tasks == 1 then 1 else 0))
    ensures NeverBelow(c, Schedule(r), c.tasks)
    decreases Width(r) + Height(r), 0
  {
    if ShouldUseMoreThreads(r) {
      SplitShrinks(r);
      var q := Quadrants(r);
      var k, w := c.tasks, c.wakeUps;
      var s0, s1, s2, s3 := Schedule(q[0]), Schedule(q[1]), Schedule(q[2]), Schedule(q[3]);
      assert Schedule(r) == [Submit(4)] + s0 + s1 + s2 + s3 + [Complete];
      assert Run(c, [Submit(4)]) == CounterState(k + 4, w) && NeverBelow(c, [Submit(4)], k);
      ChildAccounting(c, [Submit(4)], q[0], k, 4, w);
      ChildAccounting(c, [Submit(4)] + s0, q[1], k, 3, w);
      ChildAccounting(c, [Submit(4)] + s0 + s1, q[2], k, 2, w);
      ChildAccounting(c, [Submit(4)] + s0 + s1 + s2, q[3], k, 1, w);
      assert NeverBelow(CounterState(k, w), [Complete], k);
      ExtendRun(c, [Submit(4)] + s0 + s1 + s2 + s3, [Complete], k);
    }
  }

  /** One more sub-package run after `prefix`, with `j` sub-packages still registered. */
  lemma {:induction false} ChildAccounting(c: CounterState, prefix: seq<TaskEvent>, q: Rect, k: int, j: int, w: nat)
    requires k >= 1 && j >= 1
    requires Run(c, prefix) == CounterState(k + j, w) && NeverBelow(c, prefix, k)
    ensures Run(c, prefix + Schedule(q)) == CounterState(k + j - 1, w)
    ensures NeverBelow(c, prefix + Schedule(q), k)
    decreases Width(q) + Height(q), 1
  {
    ScheduleAccounting(q, CounterState(k + j, w));
    NeverBelowWeaken(CounterState(k + j, w), Schedule(q), k + j, k);
    ExtendRun(c, prefix, Schedule(q), k);
  }

  /** The whole grid as one package. */
  function Root(sizeX: nat, sizeY: nat): (r: Rect)
    ensures Ordered(r) && Area(r) == sizeX * sizeY
  {
    Rect(0, sizeX, 0, sizeY)
  }

  /**
   * With the root registered first, the count stays positive until the very
   * last call, then is zero with exactly one wake-up.
   */
  lemma RootScheduleCompletes(sizeX: nat, sizeY: nat)
    ensures Run(CounterState(0, 0), [Submit(1)] + Schedule(Root(sizeX, sizeY))) == CounterState(0, 1)
    ensures NeverBelow(CounterState(1, 0), Schedule(Root(sizeX, sizeY)), 1)
  {
    ScheduleAccounting(Root(sizeX, sizeY), CounterState(1, 0));
    RunAppend(CounterState(0, 0), [Submit(1)], Schedule(Root(sizeX, sizeY)));
  }
}
