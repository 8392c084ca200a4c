/**
 * The orders in which the fixed thread pool may run the work packages of
 * `interpolateHeatmapValues`. What is still to happen is a collection of
 * pending jobs: a queued package, or the `taskCompleted` a split package still
 * owes after it has registered and queued its four quadrants. Any pending job
 * may be the next one to reach the counter, whichever worker runs it; `picks`
 * says which, and once it runs out the oldest job goes first. The lemmas hold
 * for every `picks`, so for first-in-first-out, for a parent that deregisters
 * before its quadrants are taken, and for one that deregisters after all of
 * them have finished.
 */
module PoolOrder {
  import opened Completion
  import opened Scheduling

  datatype Job = Package(range: Rect) | Deregister

  /** What running one job does, and the jobs it leaves behind. */
  datatype Effect = Effect(calls: seq<TaskEvent>, increments: seq<int>, writes: seq<(int, int)>, spawned: seq<Job>)

  /** The calls, progress reports and cell writes of a whole run, in the order they happen. */
  datatype Trace = Trace(calls: seq<TaskEvent>, increments: seq<int>, writes: seq<(int, int)>)

  /**
   * A split package registers four tasks and queues its quadrants, owing its
   * own `taskCompleted`; a leaf fills its range column by column, reports each
   * column, and deregisters; an owed `taskCompleted` deregisters.
   */
  function Take(j: Job): Effect
  {
    match j
    case Deregister => Effect([Complete], [], [], [])
    case Package(r) =>
      if ShouldUseMoreThreads(r) then
        var q := Quadrants(r);
        Effect([Submit(4)], [], [], [Deregister, Package(q[0]), Package(q[1]), Package(q[2]), Package(q[3])])
      else
        Effect([Complete], Repeat(Width(r), r.endY - r.startY), ColumnMajor(r), [])
  }

  /** How many jobs a package causes to run, its own deregistration included. */
  function Steps(r: Rect): (n: nat)
    ensures n >= 1
    decreases Width(r) + Height(r)
  {
    if ShouldUseMoreThreads(r) then
      SplitShrinks(r);
      var q := Quadrants(r);
      2 + Steps(q[0]) + Steps(q[1]) + Steps(q[2]) + Steps(q[3])
    else
      1
  }

  function JobSteps(j: Job): nat
  {
    match j
    case Package(r) => Steps(r)
    case Deregister => 1
  }

  function PendingSteps(pending: seq<Job>): nat
  {
    if pending == [] then 0 else JobSteps(pending[0]) + PendingSteps(pending[1..])
  }

  lemma {:induction false} PendingStepsAppend(a: seq<Job>, b: seq<Job>)
    ensures PendingSteps(a + b) == PendingSteps(a) + PendingSteps(b)
  {
    if a == [] {
      assert a + b == b;
    } else {
      assert (a + b)[1..] == a[1..] + b;
      PendingStepsAppend(a[1..], b);
    }
  }

  /** The jobs pending after job `i` has run. */
  function Rest(pending: seq<Job>, i: nat): (rest: seq<Job>)
    requires i < |pending|
    ensures |rest| == |pending| - 1 + |Take(pending[i]).spawned|
  {
    pending[..i] + pending[i + 1..] + Take(pending[i]).spawned
  }

  /** `pending` with job `i` taken out, as three pieces. */
  lemma Split(pending: seq<Job>, i: nat)
    requires i < |pending|
    ensures pending == pending[..i] + [pending[i]] + pending[i + 1..]
  {
  }

  /** Each job that runs brings the remaining work one step closer to the end. */
  lemma RestSteps(pending: seq<Job>, i: nat)
    requires i < |pending|
    ensures PendingSteps(Rest(pending, i)) == PendingSteps(pending) - 1
  {
    var j := pending[i];
    Split(pending, i);
    PendingStepsAppend(pending[..i] + [j], pending[i + 1..]);
    PendingStepsAppend(pending[..i], [j]);
    PendingStepsAppend(pending[..i] + pending[i + 1..], Take(j).spawned);
    PendingStepsAppend(pending[..i], pending[i + 1..]);
    assert PendingSteps([j]) == JobSteps(j);
    if j.Package? && ShouldUseMoreThreads(j.range) {
      Spawned(j.range);
    }
  }

  /** What a split leaves pending: its own deregistration and its four quadrants. */
  lemma Spawned(r: Rect)
    requires ShouldUseMoreThreads(r)
    ensures var q := Quadrants(r);
            var s := Take(Package(r)).spawned;
            && PendingSteps(s) == 1 + Steps(q[0]) + Steps(q[1]) + Steps(q[2]) + Steps(q[3])
            && PendingWrites(s) == WriteOrder(q[0]) + WriteOrder(q[1]) + WriteOrder(q[2]) + WriteOrder(q[3])
            && PendingArea(s) == Area(q[0]) + Area(q[1]) + Area(q[2]) + Area(q[3])
  {
    var q := Quadrants(r);
    FourSteps(q[0], q[1], q[2], q[3]);
    FourWrites(Package(q[0]), Package(q[1]), Package(q[2]), Package(q[3]));
    FourArea(q[0], q[1], q[2], q[3]);
  }

  lemma FourSteps(a: Rect, b: Rect, c: Rect, d: Rect)
    ensures PendingSteps([Deregister, Package(a), Package(b), Package(c), Package(d)])
            == 1 + Steps(a) + Steps(b) + Steps(c) + Steps(d)
  {
    var s1, s2, s3, s4 := [Package(d)], [Package(c), Package(d)], [Package(b), Package(c), Package(d)], [Package(a), Package(b), Package(c), Package(d)];
    assert s1[1..] == [] && s2[1..] == s1 && s3[1..] == s2 && s4[1..] == s3;
    assert [Deregister, Package(a), Package(b), Package(c), Package(d)][1..] == s4;
    assert PendingSteps(s1) == Steps(d);
    assert PendingSteps(s2) == Steps(c) + PendingSteps(s1);
    assert PendingSteps(s3) == Steps(b) + PendingSteps(s2);
    assert PendingSteps(s4) == Steps(a) + PendingSteps(s3);
  }

  lemma FourWrites(a: Job, b: Job, c: Job, d: Job)
    ensures PendingWrites([Deregister, a, b, c, d]) == JobWrites(a) + JobWrites(b) + JobWrites(c) + JobWrites(d)
  {
    var wa, wb, wc, wd := JobWrites(a), JobWrites(b), JobWrites(c), JobWrites(d);
    assert PendingWrites([d]) == wd by {
      PendingWritesCons(d, []);
    }
    assert PendingWrites([c, d]) == wc + wd by {
      PendingWritesCons(c, [d]);
    }
    assert PendingWrites([b, c, d]) == wb + wc + wd by {
      PendingWritesCons(b, [c, d]);
    }
    assert PendingWrites([a, b, c, d]) == wa + wb + wc + wd by {
      PendingWritesCons(a, [b, c, d]);
    }
    PendingWritesCons(Deregister, [a, b, c, d]);
  }

  lemma PendingWritesCons(j: Job, rest: seq<Job>)
    ensures PendingWrites([j] + rest) == JobWrites(j) + PendingWrites(rest)
  {
    assert ([j] + rest)[1..] == rest;
  }

  lemma FourArea(a: Rect, b: Rect, c: Rect, d: Rect)
    ensures PendingArea([Deregister, Package(a), Package(b), Package(c), Package(d)])
            == Area(a) + Area(b) + Area(c) + Area(d)
  {
    var s1, s2, s3, s4 := [Package(d)], [Package(c), Package(d)], [Package(b), Package(c), Package(d)], [Package(a), Package(b), Package(c), Package(d)];
    assert s1[1..] == [] && s2[1..] == s1 && s3[1..] == s2 && s4[1..] == s3;
    assert [Deregister, Package(a), Package(b), Package(c), Package(d)][1..] == s4;
    assert PendingArea(s1) == Area(d);
    assert PendingArea(s2) == Area(c) + PendingArea(s1);
    assert PendingArea(s3) == Area(b) + PendingArea(s2);
    assert PendingArea(s4) == Area(a) + PendingArea(s3);
  }

  /** The job that reaches the counter next. */
  function Choose(pending: seq<Job>, picks: seq<nat>): (i: nat)
    requires pending != []
    ensures i < |pending|
    ensures picks == [] ==> i == 0
  {
    if picks == [] then 0 else picks[0] % |pending|
  }

  function Later(picks: seq<nat>): seq<nat>
  {
    if picks == [] then [] else picks[1..]
  }

  /** Everything that happens while the pending jobs run, in the order `picks` chooses. */
  function PoolTrace(pending: seq<Job>, picks: seq<nat>): Trace
    decreases PendingSteps(pending)
  {
    if pending == [] then Trace([], [], [])
    else
      var i := Choose(pending, picks);
      var e := Take(pending[i]);
      RestSteps(pending, i);
      var t := PoolTrace(Rest(pending, i), Later(picks));
      Trace(e.calls + t.calls, e.increments + t.increments, e.writes + t.writes)
  }

  /**
   * The count is the number of pending jobs. It never drops below one before
   * a call, so the waiter cannot be woken early, and the run leaves it at zero
   * with exactly one wake-up, at the very end, whatever the order.
   */
  lemma {:induction false} PoolAccounting(pending: seq<Job>, picks: seq<nat>, c: CounterState)
    requires c.tasks == |pending|
    ensures Run(c, PoolTrace(pending, picks).calls) == CounterState(0, c.wakeUps + (if pending == [] then 0 else 1))
    ensures NeverBelow(c, PoolTrace(pending, picks).calls, 1)
    decreases PendingSteps(pending)
  {
    if pending != [] {
      var i := Choose(pending, picks);
      var e := Take(pending[i]);
      var rest := Rest(pending, i);
      RestSteps(pending, i);
      var d := Run(c, e.calls);
      assert e.calls == [Submit(4)] || e.calls == [Complete];
      assert Run(Step(c, e.calls[0]), e.calls[1..]) == Step(c, e.calls[0]);
      assert d.tasks == |rest|;
      assert rest != [] ==> d.wakeUps == c.wakeUps;
      assert rest == [] ==> d.wakeUps == c.wakeUps + 1;
      assert NeverBelow(c, e.calls, 1);
      PoolAccounting(rest, Later(picks), d);
      ExtendRun(c, e.calls, PoolTrace(rest, Later(picks)).calls, 1);
    }
  }

  /** The whole grid as one registered package: one wake-up, only after the last call, in every order. */
  lemma RootPoolCompletes(sizeX: nat, sizeY: nat, picks: seq<nat>)
    ensures Run(CounterState(0, 0), [Submit(1)] + PoolTrace([Package(Root(sizeX, sizeY))], picks).calls) == CounterState(0, 1)
    ensures NeverBelow(CounterState(1, 0), PoolTrace([Package(Root(sizeX, sizeY))], picks).calls, 1)
  {
    var calls := PoolTrace([Package(Root(sizeX, sizeY))], picks).calls;
    PoolAccounting([Package(Root(sizeX, sizeY))], picks, CounterState(1, 0));
    RunAppend(CounterState(0, 0), [Submit(1)], calls);
  }

  /** The cells a job leaves to be written, in the depth-first order of `WriteOrder`. */
  function JobWrites(j: Job): seq<(int, int)>
  {
    match j
    case Package(r) => WriteOrder(r)
    case Deregister => []
  }

  function PendingWrites(pending: seq<Job>): seq<(int, int)>
  {
    if pending == [] then [] else JobWrites(pending[0]) + PendingWrites(pending[1..])
  }

  lemma {:induction false} PendingWritesAppend(a: seq<Job>, b: seq<Job>)
    ensures PendingWrites(a + b) == PendingWrites(a) + PendingWrites(b)
  {
    if a == [] {
      assert a + b == b;
    } else {
      assert (a + b)[1..] == a[1..] + b;
      PendingWritesAppend(a[1..], b);
    }
  }

  /** A job's own writes and those it leaves pending are what it owed. */
  lemma TakeWrites(j: Job)
    ensures Take(j).writes + PendingWrites(Take(j).spawned) == JobWrites(j)
  {
    if j.Package? && ShouldUseMoreThreads(j.range) {
      Spawned(j.range);
    }
  }

  /** The writes still owed after job `i` runs: the others' and what job `i` spawned. */
  lemma RestWrites(pending: seq<Job>, i: nat)
    requires i < |pending|
    ensures var others := PendingWrites(pending[..i] + pending[i + 1..]);
            && multiset(PendingWrites(pending)) == multiset(others) + multiset(JobWrites(pending[i]))
            && PendingWrites(Rest(pending, i)) == others + PendingWrites(Take(pending[i]).spawned)
  {
    var j := pending[i];
    Split(pending, i);
    PendingWritesAppend(pending[..i] + [j], pending[i + 1..]);
    PendingWritesAppend(pending[..i], [j]);
    PendingWritesAppend(pending[..i] + pending[i + 1..], Take(j).spawned);
    PendingWritesAppend(pending[..i], pending[i + 1..]);
    assert PendingWrites([j]) == JobWrites(j) + [];
  }

  /** Whatever the order, the cells written are the cells owed, each as often. */
  lemma {:induction false} PoolWritesArePermutation(pending: seq<Job>, picks: seq<nat>)
    ensures multiset(PoolTrace(pending, picks).writes) == multiset(PendingWrites(pending))
    decreases PendingSteps(pending)
  {
    if pending != [] {
      var i := Choose(pending, picks);
      var e := Take(pending[i]);
      var t := PoolTrace(Rest(pending, i), Later(picks));
      RestSteps(pending, i);
      PoolWritesArePermutation(Rest(pending, i), Later(picks));
      RestWrites(pending, i);
      TakeWrites(pending[i]);
      var others := multiset(PendingWrites(pending[..i] + pending[i + 1..]));
      var spawned := multiset(PendingWrites(e.spawned));
      assert multiset(t.writes) == others + spawned;
      assert multiset(JobWrites(pending[i])) == multiset(e.writes) + spawned;
      assert PoolTrace(pending, picks).writes == e.writes + t.writes;
    }
  }

  /** Every cell of the grid is written exactly once, and no other cell, in every order. */
  lemma RootPoolWritesEachCellOnce(sizeX: nat, sizeY: nat, picks: seq<nat>)
    ensures multiset(PoolTrace([Package(Root(sizeX, sizeY))], picks).writes) == multiset(WriteOrder(Root(sizeX, sizeY)))
    ensures forall x, y :: (x, y) in PoolTrace([Package(Root(sizeX, sizeY))], picks).writes <==> 0 <= x < sizeX && 0 <= y < sizeY
    ensures forall x, y :: multiset(PoolTrace([Package(Root(sizeX, sizeY))], picks).writes)[(x, y)] <= 1
  {
    var root := Root(sizeX, sizeY);
    var w := PoolTrace([Package(root)], picks).writes;
    PoolWritesArePermutation([Package(root)], picks);
    assert PendingWrites([Package(root)]) == WriteOrder(root) + [];
    WriteOrderExact(root);
    forall x, y
      ensures (x, y) in w <==> 0 <= x < sizeX && 0 <= y < sizeY
    {
      assert (x, y) in w <==> (x, y) in multiset(w);
      assert (x, y) in WriteOrder(root) <==> (x, y) in multiset(WriteOrder(root));
    }
    forall x, y
      ensures multiset(w)[(x, y)] <= 1
    {
      NoDuplicatesCount(WriteOrder(root), (x, y));
    }
  }

  /** A sequence without duplicates holds each element at most once. */
  lemma {:induction false} NoDuplicatesCount(s: seq<(int, int)>, c: (int, int))
    requires NoDuplicates(s)
    ensures multiset(s)[c] <= 1
  {
    if s != [] {
      assert s == [s[0]] + s[1..];
      assert NoDuplicates(s[1..]) by {
        forall i, j | 0 <= i < j < |s[1..]|
          ensures s[1..][i] != s[1..][j]
        {
          assert s[1..][i] == s[i + 1] && s[1..][j] == s[j + 1];
        }
      }
      NoDuplicatesCount(s[1..], c);
      if s[0] == c {
        assert c !in s[1..] by {
          forall k | 0 <= k < |s[1..]|
            ensures s[1..][k] != c
          {
            assert s[1..][k] == s[k + 1];
          }
        }
      }
    }
  }

  /** The cells a job still owes. */
  function JobArea(j: Job): nat
  {
    match j
    case Package(r) => Area(r)
    case Deregister => 0
  }

  function PendingArea(pending: seq<Job>): nat
  {
    if pending == [] then 0 else JobArea(pending[0]) + PendingArea(pending[1..])
  }

  lemma {:induction false} PendingAreaAppend(a: seq<Job>, b: seq<Job>)
    ensures PendingArea(a + b) == PendingArea(a) + PendingArea(b)
  {
    if a == [] {
      assert a + b == b;
    } else {
      assert (a + b)[1..] == a[1..] + b;
      PendingAreaAppend(a[1..], b);
    }
  }

  /** Every pending package covers an ordered range. */
  predicate AllOrdered(pending: seq<Job>)
  {
    forall k :: 0 <= k < |pending| ==> pending[k].Package? ==> Ordered(pending[k].range)
  }

  /** A job's own progress and what it leaves pending make up the cells it owed. */
  lemma TakeArea(j: Job)
    requires j.Package? ==> Ordered(j.range)
    ensures Sum(Take(j).increments) + PendingArea(Take(j).spawned) == JobArea(j)
    ensures AllOrdered(Take(j).spawned)
  {
    if j.Package? {
      var r := j.range;
      if ShouldUseMoreThreads(r) {
        SplitShrinks(r);
        SplitArea(r);
        Spawned(r);
      } else {
        ConstantSum(Width(r), r.endY - r.startY);
      }
    }
  }

  lemma RestArea(pending: seq<Job>, i: nat)
    requires i < |pending| && AllOrdered(pending)
    ensures PendingArea(Rest(pending, i)) + JobArea(pending[i])
            == PendingArea(pending) + PendingArea(Take(pending[i]).spawned)
    ensures AllOrdered(Rest(pending, i))
  {
    var j := pending[i];
    Split(pending, i);
    PendingAreaAppend(pending[..i] + [j], pending[i + 1..]);
    PendingAreaAppend(pending[..i], [j]);
    PendingAreaAppend(pending[..i] + pending[i + 1..], Take(j).spawned);
    PendingAreaAppend(pending[..i], pending[i + 1..]);
    assert PendingArea([j]) == JobArea(j);
    TakeArea(j);
    var rest := Rest(pending, i);
    forall k | 0 <= k < |rest| && rest[k].Package?
      ensures Ordered(rest[k].range)
    {
      if k < i {
        assert rest[k] == pending[k];
      } else if k < |pending| - 1 {
        assert rest[k] == pending[k + 1];
      } else {
        assert rest[k] == Take(j).spawned[k - (|pending| - 1)];
      }
    }
  }

  /** Whatever the order, the progress reports add up to the cells owed. */
  lemma {:induction false} PoolProgressSumsToArea(pending: seq<Job>, picks: seq<nat>)
    requires AllOrdered(pending)
    ensures Sum(PoolTrace(pending, picks).increments) == PendingArea(pending)
    decreases PendingSteps(pending)
  {
    if pending != [] {
      var i := Choose(pending, picks);
      var e := Take(pending[i]);
      RestSteps(pending, i);
      RestArea(pending, i);
      TakeArea(pending[i]);
      PoolProgressSumsToArea(Rest(pending, i), Later(picks));
      SumAppend(e.increments, PoolTrace(Rest(pending, i), Later(picks)).increments);
    }
  }

  /** The whole grid reports `sizeX * sizeY` pixels in every order. */
  lemma RootPoolProgress(sizeX: nat, sizeY: nat, picks: seq<nat>)
    ensures Sum(PoolTrace([Package(Root(sizeX, sizeY))], picks).increments) == sizeX * sizeY
  {
    PoolProgressSumsToArea([Package(Root(sizeX, sizeY))], picks);
  }

  /**
   * First in, first out, a split root deregisters before any quadrant is
   * taken, as when the thread that ran it carries straight on: an order the
   * depth-first model does not show.
   */
  lemma FifoRootDeregistersFirst(sizeX: nat, sizeY: nat)
    requires ShouldUseMoreThreads(Root(sizeX, sizeY))
    ensures var calls := PoolTrace([Package(Root(sizeX, sizeY))], []).calls;
            |calls| >= 2 && calls[..2] == [Submit(4), Complete]
  {
    var root := Root(sizeX, sizeY);
    var q := Quadrants(root);
    var rest := [Deregister, Package(q[0]), Package(q[1]), Package(q[2]), Package(q[3])];
    assert Rest([Package(root)], 0) == rest;
    RestSteps([Package(root)], 0);
    RestSteps(rest, 0);
    assert PoolTrace(rest, []).calls == [Complete] + PoolTrace(Rest(rest, 0), []).calls;
    assert PoolTrace([Package(root)], []).calls == [Submit(4)] + PoolTrace(rest, []).calls;
  }
}
