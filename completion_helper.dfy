/**
 * `CompletionHelper`: a counter of outstanding tasks. Tasks register before
 * they are submitted and deregister when they end; waiters are woken when the
 * count drops to zero. Threads are modelled as a sequence of counter events.
 */
module Completion {

  /** A call on the counter: `beforeSubmit(n)` (`beforeSubmit()` is `n == 1`) or `taskCompleted()`. */
  datatype TaskEvent = Submit(count: int) | Complete

  /** The task count and how many times waiters were woken. */
  datatype CounterState = CounterState(tasks: int, wakeUps: nat)

  /** One call: a completion that brings the count to exactly zero wakes the waiters. */
  function Step(c: CounterState, e: TaskEvent): (d: CounterState)
    ensures e.Submit? ==> d == CounterState(c.tasks + e.count, c.wakeUps)
    ensures e.Complete? ==> d.tasks == c.tasks - 1
    ensures e.Complete? ==> (d.wakeUps == c.wakeUps + 1 <==> d.tasks == 0)
    ensures d.wakeUps == c.wakeUps || d.wakeUps == c.wakeUps + 1
  {
    match e
    case Submit(n) => c.(tasks := c.tasks + n)
    case Complete =>
      var remaining := c.tasks - 1;
      CounterState(remaining, if remaining == 0 then c.wakeUps + 1 else c.wakeUps)
  }

  /** The calls in order. */
  function Run(c: CounterState, events: seq<TaskEvent>): CounterState
    decreases |events|
  {
    if events == [] then c else Run(Step(c, events[0]), events[1..])
  }

  lemma {:induction false} RunAppend(c: CounterState, a: seq<TaskEvent>, b: seq<TaskEvent>)
    ensures Run(c, a + b) == Run(Run(c, a), b)
    decreases |a|
  {
    if a == [] {
      assert a + b == b;
    } else {
      assert (a + b)[1..] == a[1..] + b;
      RunAppend(Step(c, a[0]), a[1..], b);
    }
  }

  /** The count is at least `m` before every one of the calls. */
  predicate NeverBelow(c: CounterState, events: seq<TaskEvent>, m: int)
    decreases |events|
  {
    events == [] || (c.tasks >= m && NeverBelow(Step(c, events[0]), events[1..], m))
  }

  lemma {:induction false} NeverBelowAppend(c: CounterState, a: seq<TaskEvent>, b: seq<TaskEvent>, m: int)
    requires NeverBelow(c, a, m) && NeverBelow(Run(c, a), b, m)
    ensures NeverBelow(c, a + b, m)
    decreases |a|
  {
    if a == [] {
      assert a + b == b;
    } else {
      assert (a + b)[1..] == a[1..] + b;
      NeverBelowAppend(Step(c, a[0]), a[1..], b, m);
    }
  }

  function Completions(n: nat): (r: seq<TaskEvent>)
    ensures |r| == n && forall i :: 0 <= i < n ==> r[i] == Complete
  {
    seq(n, _ => Complete)
  }

  /** `n` completions lower the count by exactly `n`. */
  lemma {:induction false} CompletionsLowerCount(c: CounterState, n: nat)
    ensures Run(c, Completions(n)).tasks == c.tasks - n
    decreases n
  {
    if n > 0 {
      assert Completions(n)[1..] == Completions(n - 1);
      CompletionsLowerCount(Step(c, Complete), n - 1);
    }
  }

  /** Registering `n` tasks and completing `n` tasks restores the count. */
  lemma SubmitThenCompleteRestores(c: CounterState, n: nat)
    ensures Run(c, [Submit(n)] + Completions(n)).tasks == c.tasks
  {
    RunAppend(c, [Submit(n)], Completions(n));
    CompletionsLowerCount(Step(c, Submit(n)), n);
  }

  class CompletionHelper {
    var numberOfTasks: int
    /** How often `notifyAll` has been called. */
    var wakeUps: nat

    function State(): CounterState
      reads this
    {
      CounterState(numberOfTasks, wakeUps)
    }

    constructor ()
      ensures State() == CounterState(0, 0)
    {
      numberOfTasks, wakeUps := 0, 0;
    }

    /** `beforeSubmit()`: one more task, nothing else changes. */
    method BeforeSubmit()
      modifies this`numberOfTasks
      ensures numberOfTasks == old(numberOfTasks) + 1
      ensures State() == Step(old(State()), Submit(1))
    {
      numberOfTasks := numberOfTasks + 1;
    }

    /** `beforeSubmit(int)`: `n` more tasks. */
    method BeforeSubmitMany(numberOfNewTasks: int)
      modifies this`numberOfTasks
      ensures numberOfTasks == old(numberOfTasks) + numberOfNewTasks
      ensures State() == Step(old(State()), Submit(numberOfNewTasks))
    {
      numberOfTasks := numberOfTasks + numberOfNewTasks;
    }

    /** `taskCompleted`: one task less; the waiters are woken exactly when none is left. */
    method TaskCompleted()
      modifies this
      ensures numberOfTasks == old(numberOfTasks) - 1
      ensures wakeUps == old(wakeUps) + (if numberOfTasks == 0 then 1 else 0)
      ensures State() == Step(old(State()), Complete)
    {
      numberOfTasks := numberOfTasks - 1;
      if numberOfTasks == 0 {
        wakeUps := wakeUps + 1;
      }
    }

    /**
     * `awaitCompletion`: waits while tasks are outstanding. `others` are the
     * calls the other threads make meanwhile, in the order they take the
     * lock. The wait ends as soon as the count is no longer positive; if the
     * other threads run out of calls first, it never ends (`returned` is
     * false).
     */
    method AwaitCompletion(others: seq<TaskEvent>) returns (returned: bool, consumed: nat)
      modifies this
      ensures consumed <= |others|
      ensures State() == Run(old(State()), others[..consumed])
      ensures returned <==> numberOfTasks <= 0
      ensures !returned ==> consumed == |others|
      ensures forall k :: 0 <= k < consumed ==> Run(old(State()), others[..k]).tasks > 0
    {
      consumed := 0;
      while numberOfTasks > 0 && consumed < |others|
        invariant consumed <= |others|
        invariant State() == Run(old(State()), others[..consumed])
        invariant forall k :: 0 <= k < consumed ==> Run(old(State()), others[..k]).tasks > 0
        decreases |others| - consumed
      {
        RunAppend(old(State()), others[..consumed], [others[consumed]]);
        assert others[..consumed + 1] == others[..consumed] + [others[consumed]];
        match others[consumed] {
          case Submit(n) => BeforeSubmitMany(n);
          case Complete => TaskCompleted();
        }
        consumed := consumed + 1;
      }
      returned := numberOfTasks <= 0;
    }
  }
}
