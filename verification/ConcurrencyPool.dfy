/** Running asynchronous tasks with bounded concurrency: workers share a cursor and each takes the next
    task, awaits it and stores its outcome. A run is any interleaving of the workers' steps. */
module ConcurrencyPool {
  import opened Prelude

  /** How a task settles. */
  datatype Settled<V> = Fulfilled(value: V) | Rejected(reason: string)

  /** `Ready` is about to take a task, `Awaiting` has started one, `Idle` has returned. */
  datatype Worker = Ready | Awaiting(task: nat) | Idle

  datatype Pool<V> = Pool(cursor: nat, results: seq<Option<Settled<V>>>, workers: seq<Worker>)

  function Min(a: int, b: int): int { if a <= b then a else b }

  function Fresh<V>(taskCount: nat, workerCount: nat): Pool<V> {
    Pool(0, seq(taskCount, _ => None), seq(workerCount, _ => Ready))
  }

  predicate CanStep<V>(p: Pool<V>, w: nat) {
    w < |p.workers| && !p.workers[w].Idle?
  }

  /** Worker `w` takes the next task or returns; or its task settles and it stores the outcome. */
  function Step<V>(p: Pool<V>, outcomes: seq<Settled<V>>, w: nat): Pool<V>
    requires CanStep(p, w)
  {
    match p.workers[w]
    case Ready =>
      Pool(p.cursor + 1, p.results,
           p.workers[w := if p.cursor >= |outcomes| then Idle else Awaiting(p.cursor)])
    case Awaiting(i) =>
      if i < |p.results| && i < |outcomes|
      then Pool(p.cursor, p.results[i := Some(outcomes[i])], p.workers[w := Ready]) else p
  }

  function Count(workers: seq<Worker>, kind: Worker -> bool): (n: nat)
    ensures n <= |workers|
  {
    if workers == [] then 0
    else Count(workers[..|workers| - 1], kind) + if kind(workers[|workers| - 1]) then 1 else 0
  }

  function InFlight<V>(p: Pool<V>): nat { Count(p.workers, (w: Worker) => w.Awaiting?) }

  function Returned<V>(p: Pool<V>): nat { Count(p.workers, (w: Worker) => w.Idle?) }

  lemma {:induction false} CountUpdate(workers: seq<Worker>, kind: Worker -> bool, w: nat, x: Worker)
    requires w < |workers|
    ensures Count(workers[w := x], kind) + (if kind(workers[w]) then 1 else 0)
            == Count(workers, kind) + (if kind(x) then 1 else 0)
  {
    var n := |workers| - 1;
    if w < n {
      CountUpdate(workers[..n], kind, w, x);
      assert workers[w := x][..n] == workers[..n][w := x];
    } else {
      assert workers[w := x][..n] == workers[..n];
    }
  }

  lemma {:induction false} CountAll(workers: seq<Worker>, kind: Worker -> bool)
    ensures Count(workers, kind) == |workers| <==> forall w | 0 <= w < |workers| :: kind(workers[w])
    ensures Count(workers, kind) == 0 <==> forall w | 0 <= w < |workers| :: !kind(workers[w])
  {
    if workers != [] {
      var n := |workers| - 1;
      CountAll(workers[..n], kind);
      assert forall w | 0 <= w < n :: workers[..n][w] == workers[w];
    }
  }

  // ---------------------------------------------------------------- invariant

  ghost predicate Awaited<V>(p: Pool<V>, i: nat) {
    exists w | 0 <= w < |p.workers| :: p.workers[w] == Awaiting(i)
  }

  /** Every task below the cursor has its outcome stored or is awaited by exactly one worker; none above
      was touched; and the cursor runs past the tasks by one for every worker that returned. */
  ghost predicate Inv<V>(p: Pool<V>, outcomes: seq<Settled<V>>) {
    var n := |outcomes|;
    && |p.results| == n
    && (forall i | 0 <= i < n :: p.results[i].Some? ==> i < p.cursor && p.results[i] == Some(outcomes[i]))
    && (forall i | 0 <= i < Min(p.cursor, n) :: p.results[i].None? ==> Awaited(p, i))
    && (forall w | 0 <= w < |p.workers| && p.workers[w].Awaiting? ::
          p.workers[w].task < Min(p.cursor, n) && p.results[p.workers[w].task].None?)
    && (forall v, w | 0 <= v < w < |p.workers| && p.workers[v].Awaiting? && p.workers[w].Awaiting? ::
          p.workers[v].task != p.workers[w].task)
    && p.cursor == Min(p.cursor, n) + Returned(p)
  }

  lemma StepKeepsInv<V>(p: Pool<V>, outcomes: seq<Settled<V>>, w: nat)
    requires Inv(p, outcomes) && CanStep(p, w)
    ensures Inv(Step(p, outcomes, w), outcomes)
  {
    hide Inv, Step;
    if p.workers[w].Ready? { TakingKeepsInv(p, outcomes, w); } else { StoringKeepsInv(p, outcomes, w); }
  }

  lemma TakingKeepsInv<V>(p: Pool<V>, outcomes: seq<Settled<V>>, w: nat)
    requires Inv(p, outcomes) && CanStep(p, w) && p.workers[w].Ready?
    ensures Inv(Step(p, outcomes, w), outcomes)
  {
    var p' := Step(p, outcomes, w);
    CountUpdate(p.workers, (x: Worker) => x.Idle?, w, p'.workers[w]);
    forall i | 0 <= i < Min(p'.cursor, |outcomes|) && p'.results[i].None? ensures Awaited(p', i) {
      if i == p.cursor {
        assert p'.workers[w] == Awaiting(i);
      } else {
        StillAwaited(p, p', i, w);
      }
    }
  }

  lemma StoringKeepsInv<V>(p: Pool<V>, outcomes: seq<Settled<V>>, w: nat)
    requires Inv(p, outcomes) && CanStep(p, w) && p.workers[w].Awaiting?
    ensures Inv(Step(p, outcomes, w), outcomes)
  {
    var p' := Step(p, outcomes, w);
    CountUpdate(p.workers, (x: Worker) => x.Idle?, w, p'.workers[w]);
    forall i | 0 <= i < Min(p'.cursor, |outcomes|) && p'.results[i].None? ensures Awaited(p', i) {
      StillAwaited(p, p', i, w);
    }
  }

  lemma StillAwaited<V>(p: Pool<V>, p': Pool<V>, i: nat, w: nat)
    requires Awaited(p, i) && w < |p.workers| == |p'.workers| && p.workers[w] != Awaiting(i)
    requires p'.workers == p.workers[w := p'.workers[w]]
    ensures Awaited(p', i)
  {
    var v :| 0 <= v < |p.workers| && p.workers[v] == Awaiting(i);
    assert p'.workers[v] == Awaiting(i);
  }

  /** Each step uses up exactly one unit: a task not yet taken is worth two, a worker awaiting two, a
      ready worker one. */
  function Measure<V>(p: Pool<V>, taskCount: nat): int {
    2 * (taskCount - Min(p.cursor, taskCount)) + |p.workers| + InFlight(p) - Returned(p)
  }

  lemma StepUsesOneUnit<V>(p: Pool<V>, outcomes: seq<Settled<V>>, w: nat)
    requires Inv(p, outcomes) && CanStep(p, w)
    ensures Measure(Step(p, outcomes, w), |outcomes|) == Measure(p, |outcomes|) - 1
  {
    var p' := Step(p, outcomes, w);
    CountUpdate(p.workers, (x: Worker) => x.Idle?, w, p'.workers[w]);
    CountUpdate(p.workers, (x: Worker) => x.Awaiting?, w, p'.workers[w]);
  }

  predicate AllReturned<V>(p: Pool<V>) {
    forall w | 0 <= w < |p.workers| :: p.workers[w].Idle?
  }

  lemma MeasureIsZeroAtEnd<V>(p: Pool<V>, outcomes: seq<Settled<V>>)
    requires Inv(p, outcomes)
    ensures Measure(p, |outcomes|) >= 0
    ensures AllReturned(p) && |p.workers| > 0 ==> Measure(p, |outcomes|) == 0
  {
    CountAll(p.workers, (x: Worker) => x.Idle?);
    CountAll(p.workers, (x: Worker) => x.Awaiting?);
  }

  // ---------------------------------------------------------------- runs

  ghost predicate Schedules<V>(trace: seq<Pool<V>>, outcomes: seq<Settled<V>>, workerCount: nat, schedule: seq<nat>) {
    && |trace| == |schedule| + 1 && trace[0] == Fresh(|outcomes|, workerCount)
    && forall k | 0 <= k < |schedule| ::
         CanStep(trace[k], schedule[k]) && trace[k + 1] == Step(trace[k], outcomes, schedule[k])
  }

  /** The tasks started in the first `k` steps of the run, in order. */
  function Started<V>(trace: seq<Pool<V>>, taskCount: nat, schedule: seq<nat>, k: nat): seq<nat>
    requires k <= |schedule| < |trace| && forall j | 0 <= j < |schedule| :: CanStep(trace[j], schedule[j])
  {
    if k == 0 then [] else
    var p := trace[k - 1];
    assert CanStep(trace[k - 1], schedule[k - 1]);
    Started(trace, taskCount, schedule, k - 1)
    + if p.workers[schedule[k - 1]].Ready? && p.cursor < taskCount then [p.cursor] else []
  }

  lemma FreshInv<V>(outcomes: seq<Settled<V>>, workerCount: nat)
    ensures Inv(Fresh(|outcomes|, workerCount), outcomes)
    ensures Measure(Fresh<V>(|outcomes|, workerCount), |outcomes|) == 2 * |outcomes| + workerCount
  {
    var p := Fresh<V>(|outcomes|, workerCount);
    CountAll(p.workers, (x: Worker) => x.Idle?);
    CountAll(p.workers, (x: Worker) => x.Awaiting?);
  }

  lemma {:induction false} RunKeepsInv<V>(trace: seq<Pool<V>>, outcomes: seq<Settled<V>>, workerCount: nat,
                                          schedule: seq<nat>, k: nat)
    requires Schedules(trace, outcomes, workerCount, schedule) && k <= |schedule|
    ensures Inv(trace[k], outcomes) && |trace[k].workers| == workerCount
    ensures Measure(trace[k], |outcomes|) == 2 * |outcomes| + workerCount - k
  {
    hide Inv, Measure;
    if k == 0 {
      FreshInv(outcomes, workerCount);
    } else {
      RunKeepsInv(trace, outcomes, workerCount, schedule, k - 1);
      var p, w := trace[k - 1], schedule[k - 1];
      assert CanStep(p, w) && trace[k - 1 + 1] == Step(p, outcomes, w);
      StepKeepsInv(p, outcomes, w);
      StepUsesOneUnit(p, outcomes, w);
    }
  }

  /** The tasks are started once each and in order, up to the cursor. */
  lemma {:induction false} StartedInOrder<V>(trace: seq<Pool<V>>, outcomes: seq<Settled<V>>, workerCount: nat,
                                             schedule: seq<nat>, k: nat)
    requires Schedules(trace, outcomes, workerCount, schedule) && k <= |schedule|
    ensures Started(trace, |outcomes|, schedule, k) == seq(Min(trace[k].cursor, |outcomes|), i => i)
  {
    hide Inv, Measure;
    if k > 0 {
      StartedInOrder(trace, outcomes, workerCount, schedule, k - 1);
      assert CanStep(trace[k - 1], schedule[k - 1]);
      assert trace[k - 1 + 1] == Step(trace[k - 1], outcomes, schedule[k - 1]);
    }
  }

  /** The first `m` tasks that have no outcome yet. */
  function Unsettled<V>(results: seq<Option<Settled<V>>>, m: nat): nat
    requires m <= |results|
  {
    if m == 0 then 0 else Unsettled(results, m - 1) + if results[m - 1].None? then 1 else 0
  }

  lemma {:induction false} UnsettledUpdate<V>(results: seq<Option<Settled<V>>>, m: nat, i: nat, x: Settled<V>)
    requires m <= |results| && i < |results| && results[i].None?
    ensures Unsettled(results[i := Some(x)], m) == Unsettled(results, m) - (if i < m then 1 else 0)
  {
    if m > 0 { UnsettledUpdate(results, m - 1, i, x); }
  }

  /** The tasks in flight are exactly those that were started and have no outcome. */
  lemma {:induction false} InFlightAreUnsettled<V>(trace: seq<Pool<V>>, outcomes: seq<Settled<V>>, workerCount: nat,
                                                   schedule: seq<nat>, k: nat)
    requires Schedules(trace, outcomes, workerCount, schedule) && k <= |schedule|
    ensures |trace[k].results| == |outcomes|
    ensures InFlight(trace[k]) == Unsettled(trace[k].results, Min(trace[k].cursor, |outcomes|))
  {
    hide Inv, Measure, Unsettled;
    RunKeepsInv(trace, outcomes, workerCount, schedule, k);
    if k == 0 {
      FreshIsUnsettled(outcomes, workerCount);
    } else {
      InFlightAreUnsettled(trace, outcomes, workerCount, schedule, k - 1);
      RunKeepsInv(trace, outcomes, workerCount, schedule, k - 1);
      assert CanStep(trace[k - 1], schedule[k - 1]);
      assert trace[k - 1 + 1] == Step(trace[k - 1], outcomes, schedule[k - 1]);
      StepKeepsUnsettled(trace[k - 1], outcomes, schedule[k - 1]);
    }
    SlotsOf(trace[k], outcomes);
  }

  lemma SlotsOf<V>(p: Pool<V>, outcomes: seq<Settled<V>>)
    requires Inv(p, outcomes)
    ensures |p.results| == |outcomes|
  {
  }

  lemma FreshIsUnsettled<V>(outcomes: seq<Settled<V>>, workerCount: nat)
    ensures InFlight(Fresh<V>(|outcomes|, workerCount)) == 0 == Unsettled(Fresh<V>(|outcomes|, workerCount).results, 0)
  {
    CountAll(Fresh<V>(|outcomes|, workerCount).workers, (x: Worker) => x.Awaiting?);
  }

  lemma StepKeepsUnsettled<V>(p: Pool<V>, outcomes: seq<Settled<V>>, w: nat)
    requires Inv(p, outcomes) && CanStep(p, w)
    requires InFlight(p) == Unsettled(p.results, Min(p.cursor, |outcomes|))
    ensures var p' := Step(p, outcomes, w);
            |p'.results| == |outcomes| && InFlight(p') == Unsettled(p'.results, Min(p'.cursor, |outcomes|))
  {
    var p' := Step(p, outcomes, w);
    CountUpdate(p.workers, (x: Worker) => x.Awaiting?, w, p'.workers[w]);
    if p.workers[w].Awaiting? {
      var i := p.workers[w].task;
      UnsettledUpdate(p.results, Min(p.cursor, |outcomes|), i, outcomes[i]);
    }
  }

  /** Under every interleaving, at every moment: each task has been started at most once, no slot holds
      anything but its own task's outcome, a task below the cursor whose slot is empty is awaited, at most
      `workerCount` tasks are in flight, and a worker has returned only if every task was taken. */
  lemma EveryInterleaving<V>(trace: seq<Pool<V>>, outcomes: seq<Settled<V>>, workerCount: nat,
                             schedule: seq<nat>, k: nat)
    requires Schedules(trace, outcomes, workerCount, schedule) && k <= |schedule|
    ensures var p := trace[k];
            && Started(trace, |outcomes|, schedule, k) == seq(Min(p.cursor, |outcomes|), i => i)
            && |p.results| == |outcomes| && |p.workers| == workerCount && InFlight(p) <= workerCount
            && (forall i | 0 <= i < |outcomes| ::
                  p.results[i] == (if i < p.cursor && !Awaited(p, i) then Some(outcomes[i]) else None))
            && (forall w: nat | w < workerCount :: p.workers[w].Idle? ==> p.cursor > |outcomes|)
  {
    hide Measure;
    RunKeepsInv(trace, outcomes, workerCount, schedule, k);
    StartedInOrder(trace, outcomes, workerCount, schedule, k);
    StateOf(trace[k], outcomes);
  }

  lemma StateOf<V>(p: Pool<V>, outcomes: seq<Settled<V>>)
    requires Inv(p, outcomes)
    ensures forall i | 0 <= i < |outcomes| ::
              p.results[i] == (if i < p.cursor && !Awaited(p, i) then Some(outcomes[i]) else None)
    ensures forall w: nat | w < |p.workers| :: p.workers[w].Idle? ==> p.cursor > |outcomes|
  {
    CountAll(p.workers, (x: Worker) => x.Idle?);
    forall w: nat | w < |p.workers| && p.workers[w].Idle? ensures p.cursor > |outcomes| {
      assert Returned(p) != 0;
    }
  }

  lemma StuckIsReturned<V>(p: Pool<V>)
    ensures (forall w :: !CanStep(p, w)) <==> AllReturned(p)
  {
    if AllReturned(p) {
      forall w ensures !CanStep(p, w) { }
    } else {
      var w: nat :| w < |p.workers| && !p.workers[w].Idle?;
      assert CanStep(p, w);
    }
  }

  /** All workers have returned exactly when the measure is used up. */
  lemma ReturnedIsSpent<V>(p: Pool<V>, outcomes: seq<Settled<V>>)
    requires Inv(p, outcomes) && |p.workers| > 0
    ensures AllReturned(p) <==> Measure(p, |outcomes|) == 0
  {
    hide Inv;
    MeasureIsZeroAtEnd(p, outcomes);
    if !AllReturned(p) {
      var w: nat :| w < |p.workers| && !p.workers[w].Idle?;
      assert CanStep(p, w);
      StepKeepsInv(p, outcomes, w);
      StepUsesOneUnit(p, outcomes, w);
      MeasureIsZeroAtEnd(Step(p, outcomes, w), outcomes);
    }
  }

  lemma AllReturnedIsComplete<V>(p: Pool<V>, outcomes: seq<Settled<V>>)
    requires Inv(p, outcomes) && AllReturned(p) && |p.workers| > 0
    ensures p.results == seq(|outcomes|, i requires 0 <= i < |outcomes| => Some(outcomes[i]))
    ensures p.cursor == |outcomes| + |p.workers|
  {
    CountAll(p.workers, (x: Worker) => x.Idle?);
    StateOf(p, outcomes);
    assert forall i :: !Awaited(p, i);
  }

  /** No run is longer than 2n + workerCount steps, and a run that cannot go on has taken exactly that
      many, has filled every slot with its task's outcome, whichever tasks failed, and leaves the cursor
      at n + workerCount. */
  lemma EveryRunEndsInTheSequentialMap<V>(trace: seq<Pool<V>>, outcomes: seq<Settled<V>>, workerCount: nat,
                                          schedule: seq<nat>)
    requires Schedules(trace, outcomes, workerCount, schedule) && workerCount > 0
    ensures var p := trace[|schedule|];
            && |schedule| <= 2 * |outcomes| + workerCount
            && ((forall w :: !CanStep(p, w)) <==> |schedule| == 2 * |outcomes| + workerCount)
            && ((forall w :: !CanStep(p, w)) ==>
                  p.results == seq(|outcomes|, i requires 0 <= i < |outcomes| => Some(outcomes[i]))
                  && p.cursor == |outcomes| + workerCount)
  {
    hide Inv, Measure, AllReturned;
    RunKeepsInv(trace, outcomes, workerCount, schedule, |schedule|);
    var p := trace[|schedule|];
    StuckIsReturned(p);
    ReturnedIsSpent(p, outcomes);
    MeasureIsZeroAtEnd(p, outcomes);
    if AllReturned(p) { AllReturnedIsComplete(p, outcomes); }
  }

  // ---------------------------------------------------------------- the program

  datatype Error = InvalidMaxInFlight

  class Runner<V> {
    const outcomes: seq<Settled<V>>
    var cursor: nat
    const results: array<Option<Settled<V>>>
    const workers: array<Worker>

    ghost function View(): Pool<V>
      reads this, results, workers
    {
      Pool(cursor, results[..], workers[..])
    }

    constructor (outcomes: seq<Settled<V>>, workerCount: nat)
      ensures View() == Fresh(|outcomes|, workerCount) && this.outcomes == outcomes
      ensures fresh(results) && fresh(workers) && workers.Length == workerCount && results.Length == |outcomes|
    {
      this.outcomes := outcomes;
      cursor := 0;
      results := new Option<Settled<V>>[|outcomes|](_ => None);
      workers := new Worker[workerCount](_ => Ready);
      new;
      assert results[..] == seq(|outcomes|, _ => None);
    }

    /** One uninterrupted stretch of worker `w`. */
    method Advance(w: nat)
      requires CanStep(View(), w) && Inv(View(), outcomes)
      modifies this, results, workers
      ensures View() == Step(old(View()), outcomes, w)
    {
      match workers[w]
      case Ready =>
        var i := cursor;
        cursor := cursor + 1;
        workers[w] := if i >= |outcomes| then Idle else Awaiting(i);
      case Awaiting(i) =>
        results[i] := Some(outcomes[i]);
        workers[w] := Ready;
    }
  }

  /** The pool under an arbitrary scheduler: whichever worker can go on may be the next to do so. */
  method RunWithConcurrency<V>(outcomes: seq<Settled<V>>, maxInFlight: int)
    returns (r: Result<seq<Option<Settled<V>>>, Error>, ghost peak: nat)
    ensures r == if maxInFlight < 1 then Err(InvalidMaxInFlight)
                 else Ok(seq(|outcomes|, i requires 0 <= i < |outcomes| => Some(outcomes[i])))
    ensures peak <= if maxInFlight < 1 then 0 else Min(maxInFlight, |outcomes|)
  {
    peak := 0;
    if maxInFlight < 1 { return Err(InvalidMaxInFlight), 0; }
    if |outcomes| == 0 {
      assert seq(|outcomes|, i requires 0 <= i < |outcomes| => Some(outcomes[i])) == [];
      return Ok([]), 0;
    }
    var workerCount := Min(maxInFlight, |outcomes|);
    var pool := new Runner(outcomes, workerCount);
    FreshInv(outcomes, workerCount);
    MeasureIsZeroAtEnd(pool.View(), outcomes);
    while exists w :: 0 <= w < pool.workers.Length && !pool.workers[w].Idle?
      invariant fresh(pool) && fresh(pool.results) && fresh(pool.workers) && pool.outcomes == outcomes
      invariant Inv(pool.View(), outcomes) && |pool.View().workers| == workerCount
      invariant InFlight(pool.View()) <= workerCount && peak <= workerCount
      invariant Measure(pool.View(), |outcomes|) >= 0
      decreases Measure(pool.View(), |outcomes|)
    {
      var w :| 0 <= w < pool.workers.Length && !pool.workers[w].Idle?;
      StepKeepsInv(pool.View(), outcomes, w);
      StepUsesOneUnit(pool.View(), outcomes, w);
      MeasureIsZeroAtEnd(Step(pool.View(), outcomes, w), outcomes);
      pool.Advance(w);
      peak := if InFlight(pool.View()) > peak then InFlight(pool.View()) else peak;
    }
    AllReturnedIsComplete(pool.View(), outcomes);
    return Ok(pool.results[..]), peak;
  }
}
