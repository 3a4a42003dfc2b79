/**
 The bounded worker pool of `src/lib/async-concurrency.ts`.

 JavaScript runs one worker at a time and lets another one run only at an `await`.
 The loop below therefore repeatedly picks ANY worker that can move (`:|`) and performs
 one uninterrupted piece of its code; the contracts hold for every order of picks.
 Whether the task started for an index resolves or rejects is given by `task`, which is
 free to answer differently for every index.
 */
module WorkerPool {
  import opened JsNumber
  import opened Wrappers

  datatype Settlement<+R> = Resolved(value: R) | Rejected

  /** Where a worker is: at its loop test, awaiting its task, or finished in one of two ways. */
  datatype Worker = AtLoopTest | Awaiting(index: nat) | Returned | Failed

  const MAX_ASYNC_CONCURRENCY: int := 32

  function NormalizeConcurrency(value: Number): (workers: int)
    ensures 1 <= workers <= 32
    ensures workers == 1 || (value.Finite? && workers as real <= value.value)
    ensures value.Finite? && value.value >= 1.0 && workers < 32 ==> value.value < (workers + 1) as real
  {
    match value
    case NonFinite => 1
    case Finite(v) =>
      var floored := v.Floor;
      var capped := if floored < MAX_ASYNC_CONCURRENCY then floored else MAX_ASYNC_CONCURRENCY;
      if capped > 1 then capped else 1
  }

  function Min(a: int, b: int): int { if a < b then a else b }

  /** Workers started for `count` items. */
  function WorkerCount(concurrency: Number, count: nat): (workers: nat)
    ensures workers <= count && (workers < count ==> workers == NormalizeConcurrency(concurrency))
  {
    Min(NormalizeConcurrency(concurrency), count)
  }

  ghost function InFlight(workers: seq<Worker>): set<int> {
    set w | 0 <= w < |workers| && workers[w].Awaiting?
  }

  ghost function AtTest(workers: seq<Worker>): set<int> {
    set w | 0 <= w < |workers| && workers[w].AtLoopTest?
  }

  /** The indices below `n`; a set of them has at most `n` elements. */
  function Below(n: nat): (s: set<int>)
    ensures |s| == n
    ensures forall x :: x in s <==> 0 <= x < n
  {
    if n == 0 then {} else Below(n - 1) + {n - 1}
  }

  lemma SubsetSize(a: set<int>, b: set<int>)
    requires a <= b
    ensures |a| <= |b|
  {
    assert b == a + (b - a);
  }

  lemma InFlightBounded(workers: seq<Worker>)
    ensures |InFlight(workers)| <= |workers|
  {
    SubsetSize(InFlight(workers), Below(|workers|));
  }

  /** The indices a run has handed out, in the order it handed them out. */
  function FirstIndices(n: nat): (s: seq<nat>)
  {
    seq(n, i requires 0 <= i < n => i)
  }

  lemma NextIndex(n: nat)
    ensures FirstIndices(n + 1) == FirstIndices(n) + [n]
  {
  }

  predicate SomeFailed(workers: seq<Worker>) {
    exists w :: 0 <= w < |workers| && workers[w].Failed?
  }

  predicate SomeAwaits(workers: seq<Worker>, i: nat) {
    exists w :: 0 <= w < |workers| && workers[w] == Awaiting(i)
  }

  /** A claimed index is in flight, stored, or was rejected and took its worker down. */
  predicate Accounted<R>(workers: seq<Worker>, stored: Option<R>, outcome: Settlement<R>, i: nat) {
    || SomeAwaits(workers, i)
    || (outcome.Resolved? && stored.Some?)
    || (outcome.Rejected? && SomeFailed(workers))
  }

  /** What every piece of worker code keeps. */
  ghost predicate Consistent<T, R>(items: seq<T>, task: (T, nat) -> Settlement<R>, cursor: nat,
                                   workers: seq<Worker>, stored: seq<Option<R>>)
  {
    && cursor <= |items| == |stored|
    && (forall w :: 0 <= w < |workers| && workers[w].Awaiting? ==>
          workers[w].index < cursor && stored[workers[w].index] == None)
    && (forall v, w :: 0 <= v < w < |workers| && workers[v].Awaiting? && workers[w].Awaiting? ==>
          workers[v].index != workers[w].index)
    && (forall i :: 0 <= i < cursor ==> Accounted(workers, stored[i], task(items[i], i), i))
    && (forall i :: 0 <= i < |items| && stored[i].Some? ==>
          i < cursor && task(items[i], i) == Resolved(stored[i].value))
    && (forall w :: 0 <= w < |workers| && workers[w].Returned? ==> cursor == |items|)
    && (SomeFailed(workers) ==> exists i :: 0 <= i < cursor && task(items[i], i).Rejected?)
  }

  lemma ClaimKeepsConsistent<T, R>(items: seq<T>, task: (T, nat) -> Settlement<R>, cursor: nat,
                                   workers: seq<Worker>, stored: seq<Option<R>>, w: nat)
    requires Consistent(items, task, cursor, workers, stored)
    requires w < |workers| && workers[w].AtLoopTest? && cursor < |items|
    ensures Consistent(items, task, cursor + 1, workers[w := Awaiting(cursor)], stored)
    ensures |InFlight(workers[w := Awaiting(cursor)])| == |InFlight(workers)| + 1
  {
    var after := workers[w := Awaiting(cursor)];
    assert after[w] == Awaiting(cursor);
    forall i | 0 <= i < cursor + 1
      ensures Accounted(after, stored[i], task(items[i], i), i)
    {
      if i < cursor {
        KeepsAccounted(workers, w, Awaiting(cursor), stored[i], task(items[i], i), i);
      }
    }
    OtherFailures(workers, w, Awaiting(cursor));
    assert InFlight(after) == InFlight(workers) + {w};
  }

  lemma ReturnKeepsConsistent<T, R>(items: seq<T>, task: (T, nat) -> Settlement<R>, cursor: nat,
                                    workers: seq<Worker>, stored: seq<Option<R>>, w: nat)
    requires Consistent(items, task, cursor, workers, stored)
    requires w < |workers| && workers[w].AtLoopTest? && cursor == |items|
    ensures Consistent(items, task, cursor, workers[w := Returned], stored)
    ensures InFlight(workers[w := Returned]) == InFlight(workers)
    ensures AtTest(workers[w := Returned]) < AtTest(workers)
  {
    assert w in AtTest(workers) && AtTest(workers[w := Returned]) == AtTest(workers) - {w};
    forall i | 0 <= i < cursor
      ensures Accounted(workers[w := Returned], stored[i], task(items[i], i), i)
    {
      KeepsAccounted(workers, w, Returned, stored[i], task(items[i], i), i);
    }
    OtherFailures(workers, w, Returned);
  }

  lemma SettleKeepsConsistent<T, R>(items: seq<T>, task: (T, nat) -> Settlement<R>, cursor: nat,
                                    workers: seq<Worker>, stored: seq<Option<R>>, w: nat)
    requires Consistent(items, task, cursor, workers, stored)
    requires w < |workers| && workers[w].Awaiting?
    ensures workers[w].index < |items|
    ensures match task(items[workers[w].index], workers[w].index)
      case Resolved(value) =>
        && Consistent(items, task, cursor, workers[w := AtLoopTest], stored[workers[w].index := Some(value)])
        && InFlight(workers[w := AtLoopTest]) < InFlight(workers)
        && |InFlight(workers[w := AtLoopTest])| == |InFlight(workers)| - 1
      case Rejected =>
        && Consistent(items, task, cursor, workers[w := Failed], stored)
        && InFlight(workers[w := Failed]) < InFlight(workers)
        && |InFlight(workers[w := Failed])| == |InFlight(workers)| - 1
  {
    var index := workers[w].index;
    var outcome := task(items[index], index);
    var next := if outcome.Resolved? then AtLoopTest else Failed;
    var kept := if outcome.Resolved? then stored[index := Some(outcome.value)] else stored;
    var after := workers[w := next];
    assert next.Failed? ==> after[w].Failed?;
    forall i | 0 <= i < cursor
      ensures Accounted(after, kept[i], task(items[i], i), i)
    {
      if i != index {
        KeepsAccounted(workers, w, next, stored[i], task(items[i], i), i);
      }
    }
    assert w in InFlight(workers) && InFlight(after) == InFlight(workers) - {w};
    if next.AtLoopTest? {
      OtherFailures(workers, w, next);
    }
  }

  /** Moving worker `w`, which does not await `i` and had not failed, keeps `i` accounted for. */
  lemma KeepsAccounted<R>(workers: seq<Worker>, w: nat, next: Worker, stored: Option<R>, outcome: Settlement<R>, i: nat)
    requires w < |workers| && workers[w] != Awaiting(i) && !workers[w].Failed?
    requires Accounted(workers, stored, outcome, i)
    ensures Accounted(workers[w := next], stored, outcome, i)
  {
    var after := workers[w := next];
    if SomeAwaits(workers, i) {
      var v :| 0 <= v < |workers| && workers[v] == Awaiting(i);
      assert after[v] == Awaiting(i);
    } else if outcome.Rejected? {
      var v :| 0 <= v < |workers| && workers[v].Failed?;
      assert after[v].Failed?;
    }
  }

  lemma OtherFailures(workers: seq<Worker>, w: nat, next: Worker)
    requires w < |workers| && !next.Failed?
    ensures SomeFailed(workers[w := next]) ==> SomeFailed(workers)
  {
    var after := workers[w := next];
    if SomeFailed(after) {
      var v :| 0 <= v < |after| && after[v].Failed?;
      assert workers[v].Failed?;
    }
  }

  predicate CanMove(worker: Worker) { worker.AtLoopTest? || worker.Awaiting? }

  /** Before the first move. */
  lemma NothingStarted<T, R>(items: seq<T>, task: (T, nat) -> Settlement<R>,
                             workers: seq<Worker>, stored: seq<Option<R>>)
    requires |stored| == |items| && forall i :: 0 <= i < |stored| ==> stored[i] == None
    requires forall w :: 0 <= w < |workers| ==> workers[w].AtLoopTest?
    ensures Consistent(items, task, 0, workers, stored) && Losses(items, task, 0, workers, [])
    ensures InFlight(workers) == {}
  {
  }

  /** What is stored was claimed and is what its task resolved to. */
  lemma StoredIsResolved<T, R>(items: seq<T>, task: (T, nat) -> Settlement<R>, cursor: nat,
                               workers: seq<Worker>, stored: seq<Option<R>>)
    requires Consistent(items, task, cursor, workers, stored)
    requires forall w :: 0 <= w < |workers| ==> !CanMove(workers[w])
    ensures |stored| == |items| && forall i :: 0 <= i < |items| ==>
      stored[i] == if i < cursor && task(items[i], i).Resolved? then Some(task(items[i], i).value) else None
  {
    forall i | 0 <= i < cursor && task(items[i], i).Resolved? ensures stored[i].Some? {
      assert Accounted(workers, stored[i], task(items[i], i), i);
    }
  }

  // ---- rejected tasks --------------------------------------------------------------------------

  ghost function Stopped(workers: seq<Worker>): set<int> {
    set w | 0 <= w < |workers| && workers[w].Failed?
  }

  /** `lost` are the indices whose task was rejected, each once; each took one worker down. */
  ghost predicate Losses<T, R>(items: seq<T>, task: (T, nat) -> Settlement<R>, cursor: nat, workers: seq<Worker>,
                               lost: seq<nat>)
  {
    && cursor <= |items|
    && (forall k :: 0 <= k < |lost| ==> lost[k] < cursor && task(items[lost[k]], lost[k]).Rejected?)
    && (forall j, k :: 0 <= j < k < |lost| ==> lost[j] != lost[k])
    && (forall w :: 0 <= w < |workers| && workers[w].Awaiting? ==> workers[w].index !in lost)
    && (forall i :: 0 <= i < cursor && task(items[i], i).Rejected? ==> i in lost || SomeAwaits(workers, i))
    && |Stopped(workers)| == |lost|
  }

  lemma ClaimKeepsLosses<T, R>(items: seq<T>, task: (T, nat) -> Settlement<R>, cursor: nat, workers: seq<Worker>,
                               lost: seq<nat>, w: nat)
    requires Losses(items, task, cursor, workers, lost)
    requires w < |workers| && workers[w].AtLoopTest? && cursor < |items|
    ensures Losses(items, task, cursor + 1, workers[w := Awaiting(cursor)], lost)
  {
    var after := workers[w := Awaiting(cursor)];
    assert after[w] == Awaiting(cursor);
    assert Stopped(after) == Stopped(workers);
    forall i | 0 <= i < cursor && SomeAwaits(workers, i) ensures SomeAwaits(after, i) {
      var v :| 0 <= v < |workers| && workers[v] == Awaiting(i);
      assert after[v] == Awaiting(i);
    }
  }

  lemma ReturnKeepsLosses<T, R>(items: seq<T>, task: (T, nat) -> Settlement<R>, cursor: nat, workers: seq<Worker>,
                                lost: seq<nat>, w: nat)
    requires Losses(items, task, cursor, workers, lost) && w < |workers| && workers[w].AtLoopTest?
    ensures Losses(items, task, cursor, workers[w := Returned], lost)
  {
    var after := workers[w := Returned];
    assert Stopped(after) == Stopped(workers);
    forall i | 0 <= i < cursor && SomeAwaits(workers, i) ensures SomeAwaits(after, i) {
      var v :| 0 <= v < |workers| && workers[v] == Awaiting(i);
      assert after[v] == Awaiting(i);
    }
  }

  lemma SettleKeepsLosses<T, R>(items: seq<T>, task: (T, nat) -> Settlement<R>, cursor: nat, workers: seq<Worker>,
                                stored: seq<Option<R>>, lost: seq<nat>, w: nat)
    requires Consistent(items, task, cursor, workers, stored) && Losses(items, task, cursor, workers, lost)
    requires w < |workers| && workers[w].Awaiting?
    ensures var index := workers[w].index;
      index < |items| &&
      if task(items[index], index).Resolved? then Losses(items, task, cursor, workers[w := AtLoopTest], lost)
      else Losses(items, task, cursor, workers[w := Failed], lost + [index])
  {
    var index := workers[w].index;
    StillAwaited(workers, w, AtLoopTest, cursor);
    StillAwaited(workers, w, Failed, cursor);
    if task(items[index], index).Resolved? {
      assert Stopped(workers[w := AtLoopTest]) == Stopped(workers);
    } else {
      assert index !in lost;
      assert Stopped(workers[w := Failed]) == Stopped(workers) + {w};
      hide SomeAwaits, Accounted;
    }
  }

  /** Settling the task of one worker leaves the others' tasks awaited. */
  lemma StillAwaited(workers: seq<Worker>, w: nat, next: Worker, cursor: nat)
    requires w < |workers| && workers[w].Awaiting?
    ensures forall i: nat :: i < cursor && i != workers[w].index && SomeAwaits(workers, i) ==>
      SomeAwaits(workers[w := next], i)
  {
    forall i: nat | i < cursor && i != workers[w].index && SomeAwaits(workers, i)
      ensures SomeAwaits(workers[w := next], i)
    {
      var v :| 0 <= v < |workers| && workers[v] == Awaiting(i);
      assert workers[w := next][v] == Awaiting(i);
    }
  }

  /** In the end nothing is awaited: the losses are all rejections, and items are left over only without workers. */
  lemma LossesInTheEnd<T, R>(items: seq<T>, task: (T, nat) -> Settlement<R>, cursor: nat, workers: seq<Worker>,
                             stored: seq<Option<R>>, lost: seq<nat>)
    requires Consistent(items, task, cursor, workers, stored) && Losses(items, task, cursor, workers, lost)
    requires forall w :: 0 <= w < |workers| ==> !CanMove(workers[w])
    ensures forall i: nat :: i in lost <==> i < cursor && task(items[i], i).Rejected?
    ensures |lost| <= |workers| && (cursor < |items| ==> |lost| == |workers|)
  {
    forall i: nat | i < cursor && task(items[i], i).Rejected? ensures i in lost {
      assert i in lost || SomeAwaits(workers, i);
    }
    SubsetSize(Stopped(workers), Below(|workers|));
    if cursor < |items| {
      forall w | 0 <= w < |workers| ensures w in Stopped(workers) {
        assert workers[w].Returned? || workers[w].Failed?;
      }
      assert Stopped(workers) == Below(|workers|);
    }
  }

  /**
   `mapWithConcurrency`: first every worker runs up to its first `await`, then they go on in any order.
   Every index is handed to exactly one worker and in increasing order. As many tasks run together as there
   are workers, and never more (`peak`). The promise is fulfilled exactly when every task resolves, with the
   results in input order whatever order they finished in. A rejected task (`lost`) stops only the worker that
   awaits it: what is claimed and resolves is stored anyway, and an index is left unclaimed only when all
   workers have stopped.
   */
  method MapWithConcurrency<T, R>(items: seq<T>, concurrency: Number, task: (T, nat) -> Settlement<R>)
    returns (fulfilled: bool, results: seq<Option<R>>, claims: seq<nat>, lost: seq<nat>, peak: int)
    ensures claims == FirstIndices(|claims|) && |claims| <= |items|
    ensures peak == WorkerCount(concurrency, |items|)
    ensures fulfilled <==> forall i :: 0 <= i < |items| ==> task(items[i], i).Resolved?
    ensures fulfilled ==> results == seq(|items|, i requires 0 <= i < |items| => Some(task(items[i], i).value))
    ensures |results| == |items|
    ensures forall i :: 0 <= i < |items| ==>
      results[i] == if i < |claims| && task(items[i], i).Resolved? then Some(task(items[i], i).value) else None
    ensures forall i: nat :: i in lost <==> i < |claims| && task(items[i], i).Rejected?
    ensures forall j, k :: 0 <= j < k < |lost| ==> lost[j] != lost[k]
    ensures |claims| < |items| ==> |lost| == peak
  {
    hide Consistent, InFlight, AtTest, SomeAwaits, SomeFailed, Losses;
    var buffer := new Option<R>[|items|](_ => None);
    var workerCount := WorkerCount(concurrency, |items|);
    var workers: seq<Worker> := seq(workerCount, _ => AtLoopTest);
    var cursor: nat := 0;
    claims := [];
    lost := [];
    NothingStarted(items, task, workers, buffer[..]);
    for w := 0 to workerCount
      invariant |workers| == workerCount && cursor == w
      invariant forall v :: w <= v < workerCount ==> workers[v].AtLoopTest?
      invariant claims == FirstIndices(cursor) && |InFlight(workers)| == w && lost == []
      invariant Consistent(items, task, cursor, workers, buffer[..]) && Losses(items, task, cursor, workers, lost)
    {
      hide FirstIndices, WorkerCount, NormalizeConcurrency;
      ClaimKeepsConsistent(items, task, cursor, workers, buffer[..], w);
      ClaimKeepsLosses(items, task, cursor, workers, lost, w);
      NextIndex(cursor);
      workers, claims, cursor := workers[w := Awaiting(cursor)], claims + [cursor], cursor + 1;
    }
    var running: int := workerCount;
    peak := running;
    while exists w :: 0 <= w < |workers| && CanMove(workers[w])
      invariant |workers| == workerCount && cursor <= |items|
      invariant claims == FirstIndices(cursor)
      invariant running == |InFlight(workers)| && peak == workerCount
      invariant Consistent(items, task, cursor, workers, buffer[..]) && Losses(items, task, cursor, workers, lost)
      decreases |items| - cursor, InFlight(workers), AtTest(workers)
    {
      hide FirstIndices, WorkerCount, NormalizeConcurrency;
      var w :| 0 <= w < |workers| && CanMove(workers[w]);
      if workers[w].Awaiting? {
        // the task this worker awaits settles
        SettleKeepsConsistent(items, task, cursor, workers, buffer[..], w);
        SettleKeepsLosses(items, task, cursor, workers, buffer[..], lost, w);
        var index := workers[w].index;
        match task(items[index], index) {
          case Resolved(value) =>
            ghost var stored := buffer[..];
            buffer[index] := Some(value);
            assert buffer[..] == stored[index := Some(value)];
            workers := workers[w := AtLoopTest];
          case Rejected =>
            lost := lost + [index];
            workers := workers[w := Failed];
        }
        running := running - 1;
      } else if cursor < |items| {
        ClaimKeepsConsistent(items, task, cursor, workers, buffer[..], w);
        ClaimKeepsLosses(items, task, cursor, workers, lost, w);
        InFlightBounded(workers[w := Awaiting(cursor)]);
        NextIndex(cursor);
        workers, claims, cursor := workers[w := Awaiting(cursor)], claims + [cursor], cursor + 1;
        running := running + 1;
        peak := if running > peak then running else peak;
      } else {
        ReturnKeepsConsistent(items, task, cursor, workers, buffer[..], w);
        ReturnKeepsLosses(items, task, cursor, workers, lost, w);
        workers := workers[w := Returned];
      }
    }
    fulfilled := forall w :: 0 <= w < |workers| ==> workers[w].Returned?;
    results := buffer[..];
    StoredIsResolved(items, task, cursor, workers, buffer[..]);
    SettledRun(items, task, cursor, workers, buffer[..]);
    LossesInTheEnd(items, task, cursor, workers, buffer[..], lost);
    DistinctLosses(items, task, cursor, workers, lost);
  }

  lemma DistinctLosses<T, R>(items: seq<T>, task: (T, nat) -> Settlement<R>, cursor: nat, workers: seq<Worker>,
                             lost: seq<nat>)
    requires Losses(items, task, cursor, workers, lost)
    ensures forall j, k :: 0 <= j < k < |lost| ==> lost[j] != lost[k]
  {
  }

  /** When nothing can move, the run is fulfilled exactly when no task was rejected. */
  lemma SettledRun<T, R>(items: seq<T>, task: (T, nat) -> Settlement<R>, cursor: nat,
                         workers: seq<Worker>, stored: seq<Option<R>>)
    requires Consistent(items, task, cursor, workers, stored)
    requires forall w :: 0 <= w < |workers| ==> !CanMove(workers[w])
    requires |workers| == 0 ==> |items| == 0
    ensures (forall w :: 0 <= w < |workers| ==> workers[w].Returned?)
       <==> (forall i :: 0 <= i < |items| ==> task(items[i], i).Resolved?)
    ensures (forall w :: 0 <= w < |workers| ==> workers[w].Returned?) ==>
      cursor == |items| && forall i :: 0 <= i < |items| ==> stored[i] == Some(task(items[i], i).value)
  {
    if forall w :: 0 <= w < |workers| ==> workers[w].Returned? {
      assert |workers| > 0 ==> workers[0].Returned?;
      forall i | 0 <= i < |items|
        ensures task(items[i], i).Resolved? && stored[i] == Some(task(items[i], i).value)
      {
        assert Accounted(workers, stored[i], task(items[i], i), i);
      }
    } else {
      var w :| 0 <= w < |workers| && !workers[w].Returned?;
      assert !CanMove(workers[w]) && workers[w].Failed?;
    }
  }
}
