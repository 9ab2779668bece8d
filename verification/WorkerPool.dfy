/**
 A pool of workers sharing one cursor over a list of items. Scheduling is cooperative: what a worker
 does between two awaits is one step, and any worker may take the next step. An item may be missing
 (undefined); the worker that claims it returns for good.
 */
module WorkerPool {
  import opened Text

  datatype Worker =
    | Idle                  // about to test the cursor
    | Running(item: nat)    // awaiting the task of an item
    | Failed(item: nat)     // its task was rejected
    | Drained               // found no item left
    | Dropped               // claimed a missing item
  {
    predicate Over() { Failed? || Drained? || Dropped? }
  }

  /** The log of starts and finishes is what the tasks themselves could observe. */
  datatype State = State(cursor: nat, workers: seq<Worker>, started: seq<nat>, finished: seq<nat>)

  datatype Step = Claim(w: nat) | Finish(w: nat) | Fail(w: nat)

  /** How many workers start: none for a concurrency below one, never more than items. */
  function PoolSize(concurrency: int, n: nat): nat {
    if concurrency < 0 then 0 else if concurrency < n then concurrency else n
  }

  function Initial(size: nat): State {
    State(0, seq(size, _ => Idle), [], [])
  }

  predicate Enabled<T>(items: seq<Option<T>>, s: State, step: Step) {
    step.w < |s.workers| && (if step.Claim? then s.workers[step.w].Idle? else s.workers[step.w].Running?)
  }

  function After<T>(items: seq<Option<T>>, s: State, step: Step): State
    requires Enabled(items, s, step)
  {
    match step
    case Claim(w) =>
      if s.cursor >= |items| then s.(workers := s.workers[w := Drained])
      else
        var idx := s.cursor;
        var s' := s.(cursor := s.cursor + 1);
        if items[idx].None? then s'.(workers := s.workers[w := Dropped])
        else s'.(workers := s.workers[w := Running(idx)], started := s.started + [idx])
    case Finish(w) =>
      s.(workers := s.workers[w := Idle], finished := s.finished + [s.workers[w].item])
    case Fail(w) =>
      s.(workers := s.workers[w := Failed(s.workers[w].item)])
  }

  /** A schedule: which step comes next, as long as it can be taken. */
  predicate Possible<T>(items: seq<Option<T>>, size: nat, schedule: seq<Step>)
    decreases |schedule|, 0
  {
    schedule == []
    || (Possible(items, size, schedule[..|schedule| - 1])
        && Enabled(items, Run(items, size, schedule[..|schedule| - 1]), schedule[|schedule| - 1]))
  }

  function Run<T>(items: seq<Option<T>>, size: nat, schedule: seq<Step>): State
    requires Possible(items, size, schedule)
    decreases |schedule|, 1
  {
    if schedule == [] then Initial(size)
    else After(items, Run(items, size, schedule[..|schedule| - 1]), schedule[|schedule| - 1])
  }

  /** Every worker has returned or thrown. */
  predicate Settled(s: State) {
    forall w :: 0 <= w < |s.workers| ==> s.workers[w].Over()
  }

  predicate NoFailure(s: State) {
    forall w :: 0 <= w < |s.workers| ==> !s.workers[w].Failed?
  }

  // ---- Counting over the workers ----

  function Total(workers: seq<Worker>, weight: Worker -> nat): nat {
    if workers == [] then 0 else weight(workers[0]) + Total(workers[1..], weight)
  }

  lemma {:induction false} TotalUpdate(workers: seq<Worker>, w: nat, x: Worker, weight: Worker -> nat)
    requires w < |workers|
    ensures Total(workers[w := x], weight) + weight(workers[w]) == Total(workers, weight) + weight(x)
  {
    if w == 0 {
      assert workers[w := x][1..] == workers[1..];
    } else {
      assert workers[w := x][1..] == workers[1..][w - 1 := x];
      TotalUpdate(workers[1..], w - 1, x, weight);
    }
  }

  function IsDropped(x: Worker): nat {
    if x.Dropped? then 1 else 0
  }

  function IsRunning(x: Worker): nat {
    if x.Running? then 1 else 0
  }

  /** What a worker may still do: finish its task, then look for another. */
  function Effort(x: Worker): nat {
    if x.Running? then 2 else if x.Idle? then 1 else 0
  }

  lemma {:induction false} TotalBounds(workers: seq<Worker>, w: nat)
    requires w < |workers|
    ensures Total(workers, IsDropped) <= |workers|
    ensures Total(workers, IsDropped) == |workers| ==> workers[w].Dropped?
    ensures (forall k :: 0 <= k < |workers| ==> workers[k].Dropped?) ==> Total(workers, IsDropped) == |workers|
  {
    if |workers| == 1 {
    } else if w > 0 {
      TotalBounds(workers[1..], w - 1);
    } else {
      TotalBounds(workers[1..], 0);
    }
  }

  lemma {:induction false} RunningAtMostAll(workers: seq<Worker>)
    ensures Total(workers, IsRunning) <= |workers|
  {
    if workers != [] {
      RunningAtMostAll(workers[1..]);
    }
  }

  predicate Holds(x: Worker, i: nat) {
    (x.Running? || x.Failed?) && x.item == i
  }

  function Holding(i: nat): Worker -> nat {
    (x: Worker) => if Holds(x, i) then 1 else 0
  }

  /** How many workers run item i or failed on it. */
  function Held(s: State, i: nat): nat {
    Total(s.workers, Holding(i))
  }

  lemma {:induction false} TotalOfNone(workers: seq<Worker>, weight: Worker -> nat)
    requires forall w :: 0 <= w < |workers| ==> weight(workers[w]) == 0
    ensures Total(workers, weight) == 0
  {
    if workers != [] {
      TotalOfNone(workers[1..], weight);
    }
  }

  function Occurs(log: seq<nat>, i: nat): nat {
    if log == [] then 0
    else Occurs(log[..|log| - 1], i) + if log[|log| - 1] == i then 1 else 0
  }

  lemma OccursOneMore(log: seq<nat>, j: nat, i: nat)
    ensures Occurs(log + [j], i) == Occurs(log, i) + if j == i then 1 else 0
  {
    assert (log + [j])[..|log|] == log;
  }

  // ---- Items and holes below a position ----

  function Holes<T>(items: seq<Option<T>>, n: nat): nat
    requires n <= |items|
  {
    if n == 0 then 0 else Holes(items, n - 1) + if items[n - 1].None? then 1 else 0
  }

  /** The positions below n that hold an item, in order. */
  function Present<T>(items: seq<Option<T>>, n: nat): (r: seq<nat>)
    requires n <= |items|
    ensures forall j :: 0 <= j < |r| ==> r[j] < n && items[r[j]].Some?
    ensures forall j, k :: 0 <= j < k < |r| ==> r[j] < r[k]
  {
    if n == 0 then [] else Present(items, n - 1) + if items[n - 1].Some? then [n - 1] else []
  }

  lemma {:induction false} PresentOccursOnce<T>(items: seq<Option<T>>, n: nat, i: nat)
    requires n <= |items|
    ensures Occurs(Present(items, n), i) == if i < n && items[i].Some? then 1 else 0
  {
    if n > 0 {
      PresentOccursOnce(items, n - 1, i);
      if items[n - 1].Some? {
        OccursOneMore(Present(items, n - 1), n - 1, i);
        assert Present(items, n) == Present(items, n - 1) + [n - 1];
      } else {
        assert Present(items, n) == Present(items, n - 1);
      }
    }
  }

  /** How far a pool of this size gets: past the hole that takes its last worker, or to the end. */
  function Reach<T>(items: seq<Option<T>>, size: nat, n: nat): (r: nat)
    requires n <= |items|
    ensures r <= n
    ensures Holes(items, r) <= size
    ensures r < n ==> Holes(items, r) == size
    ensures forall m: nat :: m < r ==> Holes(items, m) < size
  {
    if n == 0 then 0
    else
      var r := Reach(items, size, n - 1);
      if r == n - 1 && Holes(items, n - 1) < size then n else r
  }

  // ---- What every reachable state satisfies ----

  ghost predicate Consistent<T>(items: seq<Option<T>>, size: nat, s: State) {
    && |s.workers| == size
    && s.cursor <= Reach(items, size, |items|)
    && s.started == Present(items, s.cursor)
    && Total(s.workers, IsDropped) == Holes(items, s.cursor)
    && (s.cursor == |items| || NoneDrained(s.workers))
  }

  predicate NoneDrained(workers: seq<Worker>) {
    forall w :: 0 <= w < |workers| ==> !workers[w].Drained?
  }

  lemma InitialIsConsistent<T>(items: seq<Option<T>>, size: nat)
    ensures Consistent(items, size, Initial(size))
  {
    TotalOfNone(Initial(size).workers, IsDropped);
  }

  /** A worker can still claim, so some worker is left and the cursor can pass one more position. */
  lemma ClaimStaysWithinReach<T>(items: seq<Option<T>>, size: nat, s: State, w: nat)
    requires Consistent(items, size, s) && w < size && s.workers[w].Idle? && s.cursor < |items|
    ensures s.cursor + 1 <= Reach(items, size, |items|)
  {
    TotalBounds(s.workers, w);
  }

  lemma ClaimKeepsConsistent<T>(items: seq<Option<T>>, size: nat, s: State, w: nat)
    requires Consistent(items, size, s) && Enabled(items, s, Claim(w))
    ensures Consistent(items, size, After(items, s, Claim(w)))
  {
    if s.cursor == |items| {
      TotalUpdate(s.workers, w, Drained, IsDropped);
    } else if items[s.cursor].None? {
      ClaimOfHole(items, size, s, w);
    } else {
      ClaimOfItem(items, size, s, w);
    }
  }

  lemma ClaimOfHole<T>(items: seq<Option<T>>, size: nat, s: State, w: nat)
    requires Consistent(items, size, s) && w < size && s.workers[w].Idle?
    requires s.cursor < |items| && items[s.cursor].None?
    ensures Consistent(items, size, s.(cursor := s.cursor + 1, workers := s.workers[w := Dropped]))
  {
    ClaimStaysWithinReach(items, size, s, w);
    NextItem(items, s.cursor);
    assert Present(items, s.cursor + 1) == Present(items, s.cursor);
    TotalUpdate(s.workers, w, Dropped, IsDropped);
    NoneDrainedStill(s.workers, w, Dropped);
  }

  lemma ClaimOfItem<T>(items: seq<Option<T>>, size: nat, s: State, w: nat)
    requires Consistent(items, size, s) && w < size && s.workers[w].Idle?
    requires s.cursor < |items| && items[s.cursor].Some?
    ensures Consistent(items, size, s.(
      cursor := s.cursor + 1, workers := s.workers[w := Running(s.cursor)], started := s.started + [s.cursor]))
  {
    ClaimStaysWithinReach(items, size, s, w);
    NextItem(items, s.cursor);
    TotalUpdate(s.workers, w, Running(s.cursor), IsDropped);
    NoneDrainedStill(s.workers, w, Running(s.cursor));
  }

  lemma NextItem<T>(items: seq<Option<T>>, n: nat)
    requires n < |items|
    ensures Holes(items, n + 1) == Holes(items, n) + if items[n].None? then 1 else 0
    ensures Present(items, n + 1) == Present(items, n) + if items[n].None? then [] else [n]
  {
  }

  lemma NoneDrainedStill(workers: seq<Worker>, w: nat, x: Worker)
    requires NoneDrained(workers) && w < |workers| && !x.Drained?
    ensures NoneDrained(workers[w := x])
  {
  }

  lemma ReleaseKeepsConsistent<T>(items: seq<Option<T>>, size: nat, s: State, step: Step)
    requires Consistent(items, size, s) && Enabled(items, s, step) && !step.Claim?
    ensures Consistent(items, size, After(items, s, step))
  {
    var s' := After(items, s, step);
    var x := s'.workers[step.w];
    assert s'.workers == s.workers[step.w := x];
    TotalUpdate(s.workers, step.w, x, IsDropped);
    if s.cursor < |items| {
      NoneDrainedStill(s.workers, step.w, x);
    }
  }

  lemma StepKeepsConsistent<T>(items: seq<Option<T>>, size: nat, s: State, step: Step)
    requires Consistent(items, size, s) && Enabled(items, s, step)
    ensures Consistent(items, size, After(items, s, step))
  {
    if step.Claim? {
      ClaimKeepsConsistent(items, size, s, step.w);
    } else {
      ReleaseKeepsConsistent(items, size, s, step);
    }
  }

  lemma {:induction false} ReachableIsConsistent<T>(items: seq<Option<T>>, size: nat, schedule: seq<Step>)
    requires Possible(items, size, schedule)
    ensures Consistent(items, size, Run(items, size, schedule))
  {
    if schedule == [] {
      InitialIsConsistent(items, size);
    } else {
      var before := schedule[..|schedule| - 1];
      ReachableIsConsistent(items, size, before);
      StepKeepsConsistent(items, size, Run(items, size, before), schedule[|schedule| - 1]);
    }
  }

  /** Every start of an item is accounted for: it finished, or a worker has it or failed on it. */
  lemma {:induction false} StartsAreAccountedFor<T>(items: seq<Option<T>>, size: nat, schedule: seq<Step>, i: nat)
    requires Possible(items, size, schedule)
    ensures var s := Run(items, size, schedule);
            Occurs(s.started, i) == Occurs(s.finished, i) + Held(s, i)
  {
    if schedule == [] {
      TotalOfNone(Initial(size).workers, Holding(i));
    } else {
      var before, step := schedule[..|schedule| - 1], schedule[|schedule| - 1];
      StartsAreAccountedFor(items, size, before, i);
      StepAccounts(items, Run(items, size, before), step, i);
    }
  }

  lemma StepAccounts<T>(items: seq<Option<T>>, s: State, step: Step, i: nat)
    requires Enabled(items, s, step)
    ensures var s' := After(items, s, step);
            Occurs(s'.started, i) - Occurs(s'.finished, i) - Held(s', i)
            == Occurs(s.started, i) - Occurs(s.finished, i) - Held(s, i)
  {
    var x := After(items, s, step).workers[step.w];
    TotalUpdate(s.workers, step.w, x, Holding(i));
    match step
    case Claim(w) => StartedOneMore(items, s, step, i);
    case Finish(w) => OccursOneMore(s.finished, s.workers[w].item, i);
    case Fail(w) =>
  }

  lemma StartedOneMore<T>(items: seq<Option<T>>, s: State, step: Step, i: nat)
    requires Enabled(items, s, step) && step.Claim?
    ensures var s' := After(items, s, step);
            && s'.finished == s.finished
            && Occurs(s'.started, i)
               == Occurs(s.started, i) + if s'.workers[step.w].Running? && s.cursor == i then 1 else 0
    ensures var x := After(items, s, step).workers[step.w];
            x.Running? ==> x.item == s.cursor
  {
    OccursOneMore(s.started, s.cursor, i);
  }

  // ---- Safety over every schedule ----

  /**
   Whatever the schedule: what has started is exactly the items below the cursor, in order; nothing
   starts twice; every started item is finished, in flight or failed, in exactly one of these ways;
   and no more tasks are in flight than the pool has workers.
   */
  lemma EveryScheduleIsSafe<T>(items: seq<Option<T>>, concurrency: int, schedule: seq<Step>)
    requires Possible(items, PoolSize(concurrency, |items|), schedule)
    ensures var s := Run(items, PoolSize(concurrency, |items|), schedule);
            && s.cursor <= |items|
            && s.started == Present(items, s.cursor)
            && (forall i: nat :: Occurs(s.started, i) == Occurs(s.finished, i) + Held(s, i))
            && (forall i: nat :: Occurs(s.started, i) == if i < s.cursor && items[i].Some? then 1 else 0)
            && Total(s.workers, IsRunning) <= |items|
            && Total(s.workers, IsRunning) <= (if concurrency < 0 then 0 else concurrency)
  {
    var size := PoolSize(concurrency, |items|);
    var s := Run(items, size, schedule);
    ReachableIsConsistent(items, size, schedule);
    forall i: nat
      ensures Occurs(s.started, i) == Occurs(s.finished, i) + Held(s, i)
      ensures Occurs(s.started, i) == if i < s.cursor && items[i].Some? then 1 else 0
    {
      StartsAreAccountedFor(items, size, schedule, i);
      PresentOccursOnce(items, s.cursor, i);
    }
    RunningAtMostAll(s.workers);
  }

  /** The first k workers each claim an item. */
  function Claims(k: nat): (schedule: seq<Step>)
    ensures |schedule| == k
  {
    if k == 0 then [] else Claims(k - 1) + [Claim(k - 1)]
  }

  predicate FirstRunning(workers: seq<Worker>, k: nat) {
    forall w :: 0 <= w < |workers| ==> workers[w] == if w < k then Running(w) else Idle
  }

  lemma OneMoreRunning(workers: seq<Worker>, k: nat)
    requires FirstRunning(workers, k) && k < |workers|
    ensures workers[k].Idle? && FirstRunning(workers[k := Running(k)], k + 1)
  {
  }

  lemma {:induction false} ClaimsRun<T>(items: seq<Option<T>>, size: nat, k: nat)
    requires k <= size && k <= |items| && forall i :: 0 <= i < |items| ==> items[i].Some?
    ensures Possible(items, size, Claims(k))
    ensures var s := Run(items, size, Claims(k));
            s.cursor == k && |s.workers| == size && FirstRunning(s.workers, k)
  {
    if k > 0 {
      ClaimsRun(items, size, k - 1);
      OneMoreRunning(Run(items, size, Claims(k - 1)).workers, k - 1);
      RunOneMore(items, size, Claims(k - 1), Claim(k - 1));
    }
  }

  lemma RunOneMore<T>(items: seq<Option<T>>, size: nat, schedule: seq<Step>, step: Step)
    requires Possible(items, size, schedule) && Enabled(items, Run(items, size, schedule), step)
    ensures Possible(items, size, schedule + [step])
    ensures Run(items, size, schedule + [step]) == After(items, Run(items, size, schedule), step)
  {
    assert (schedule + [step])[..|schedule|] == schedule;
  }

  lemma {:induction false} AllRunning(workers: seq<Worker>)
    requires forall w :: 0 <= w < |workers| ==> workers[w].Running?
    ensures Total(workers, IsRunning) == |workers|
  {
    if workers != [] {
      AllRunning(workers[1..]);
    }
  }

  /** And the pool does work that wide: some schedule has min(concurrency, items) tasks in flight. */
  lemma PoolIsThatWide<T>(items: seq<Option<T>>, concurrency: int) returns (schedule: seq<Step>)
    requires forall i :: 0 <= i < |items| ==> items[i].Some?
    ensures Possible(items, PoolSize(concurrency, |items|), schedule)
    ensures Total(Run(items, PoolSize(concurrency, |items|), schedule).workers, IsRunning)
         == if concurrency < 0 then 0 else if concurrency < |items| then concurrency else |items|
  {
    var size := PoolSize(concurrency, |items|);
    schedule := Claims(size);
    ClaimsRun(items, size, size);
    AllRunning(Run(items, size, schedule).workers);
  }

  /** Once every worker is over and none failed, the cursor stands where the pool could get at all. */
  lemma SettledAtReach<T>(items: seq<Option<T>>, size: nat, schedule: seq<Step>)
    requires Possible(items, size, schedule)
    requires Settled(Run(items, size, schedule)) && NoFailure(Run(items, size, schedule))
    ensures Run(items, size, schedule).cursor == Reach(items, size, |items|)
  {
    var s := Run(items, size, schedule);
    ReachableIsConsistent(items, size, schedule);
    if w :| 0 <= w < size && s.workers[w].Drained? {
    } else if size > 0 {
      TotalBounds(s.workers, 0);
    }
  }

  /** Without failures the outcome does not depend on the schedule: the items within reach, each once. */
  lemma SettledOutcome<T>(items: seq<Option<T>>, size: nat, schedule: seq<Step>, i: nat)
    requires Possible(items, size, schedule)
    requires Settled(Run(items, size, schedule)) && NoFailure(Run(items, size, schedule))
    ensures Occurs(Run(items, size, schedule).finished, i)
            == if i < Reach(items, size, |items|) && items[i].Some? then 1 else 0
  {
    var s := Run(items, size, schedule);
    SettledAtReach(items, size, schedule);
    ReachableIsConsistent(items, size, schedule);
    StartsAreAccountedFor(items, size, schedule, i);
    TotalOfNone(s.workers, Holding(i));
    PresentOccursOnce(items, s.cursor, i);
  }

  lemma {:induction false} HolesGrow<T>(items: seq<Option<T>>, m: nat, n: nat)
    requires m <= n <= |items|
    ensures Holes(items, m) <= Holes(items, n)
  {
    if m < n {
      HolesGrow(items, m, n - 1);
    }
  }

  lemma WithinReachIff<T>(items: seq<Option<T>>, size: nat, i: nat)
    requires i < |items|
    ensures i < Reach(items, size, |items|) <==> Holes(items, i) < size
  {
    var r := Reach(items, size, |items|);
    if r <= i {
      HolesGrow(items, r, i);
    }
  }

  /**
   All items are served, under every schedule, exactly when before each of them fewer items are missing
   than there are workers.
   */
  lemma AllServedIff<T>(items: seq<Option<T>>, size: nat, schedule: seq<Step>)
    requires Possible(items, size, schedule)
    requires Settled(Run(items, size, schedule)) && NoFailure(Run(items, size, schedule))
    ensures (forall i: nat :: i < |items| && items[i].Some? ==> Occurs(Run(items, size, schedule).finished, i) == 1)
            <==> (forall i: nat :: i < |items| && items[i].Some? ==> Holes(items, i) < size)
  {
    forall i: nat | i < |items|
      ensures Occurs(Run(items, size, schedule).finished, i)
              == if Holes(items, i) < size && items[i].Some? then 1 else 0
    {
      SettledOutcome(items, size, schedule, i);
      WithinReachIff(items, size, i);
    }
  }

  /** One worker and a hole in front: the worker is gone after one step, and the item is never started. */
  lemma HoleTakesTheOnlyWorker<T>(x: T)
    ensures var items, schedule := [None, Some(x)], [Claim(0)];
            && Possible(items, 1, schedule)
            && Settled(Run(items, 1, schedule)) && NoFailure(Run(items, 1, schedule))
            && Occurs(Run(items, 1, schedule).started, 1) == 0
            && Occurs(Run(items, 1, schedule).finished, 1) == 0
  {
    var items, schedule := [None, Some(x)], [Claim(0)];
    assert schedule[..0] == [];
    assert Possible(items, 1, []) && Run(items, 1, []) == Initial(1);
    assert Possible(items, 1, schedule);
    assert Run(items, 1, schedule) == After(items, Initial(1), Claim(0));
  }

  /** With at least one worker (or nothing to do) and no missing item, every item finishes exactly once. */
  lemma CompleteWithoutHoles<T>(items: seq<Option<T>>, size: nat, schedule: seq<Step>, i: nat)
    requires (size >= 1 || items == []) && forall i :: 0 <= i < |items| ==> items[i].Some?
    requires Possible(items, size, schedule)
    requires Settled(Run(items, size, schedule)) && NoFailure(Run(items, size, schedule))
    ensures Occurs(Run(items, size, schedule).finished, i) == if i < |items| then 1 else 0
  {
    SettledOutcome(items, size, schedule, i);
    NoHoles(items, Reach(items, size, |items|));
  }

  lemma {:induction false} NoHoles<T>(items: seq<Option<T>>, n: nat)
    requires n <= |items| && forall i :: 0 <= i < |items| ==> items[i].Some?
    ensures Holes(items, n) == 0
  {
    if n > 0 {
      NoHoles(items, n - 1);
    }
  }

  // ---- Liveness ----

  function Remaining<T>(items: seq<Option<T>>, s: State): int {
    2 * (|items| - s.cursor) + Total(s.workers, Effort)
  }

  /** Every step leaves less to do, and until every worker is over some step can be taken. */
  lemma StepsRunOut<T>(items: seq<Option<T>>, size: nat, s: State, step: Step)
    requires Consistent(items, size, s) && Enabled(items, s, step)
    ensures 0 <= Remaining(items, After(items, s, step)) < Remaining(items, s)
  {
    var x := After(items, s, step).workers[step.w];
    assert After(items, s, step).workers == s.workers[step.w := x];
    TotalUpdate(s.workers, step.w, x, Effort);
  }

  lemma SomeStepUntilSettled<T>(items: seq<Option<T>>, s: State) returns (step: Step)
    requires !Settled(s)
    ensures Enabled(items, s, step)
  {
    var w :| 0 <= w < |s.workers| && !s.workers[w].Over();
    step := if s.workers[w].Idle? then Claim(w) else Finish(w);
  }

  /** So no schedule is longer than twice the items plus the workers. */
  lemma {:induction false} SchedulesAreFinite<T>(items: seq<Option<T>>, size: nat, schedule: seq<Step>)
    requires Possible(items, size, schedule)
    ensures |schedule| + Remaining(items, Run(items, size, schedule)) <= 2 * |items| + size
    ensures 0 <= Remaining(items, Run(items, size, schedule))
  {
    if schedule == [] {
      EffortOfIdle(size);
    } else {
      var before := schedule[..|schedule| - 1];
      SchedulesAreFinite(items, size, before);
      ReachableIsConsistent(items, size, before);
      StepsRunOut(items, size, Run(items, size, before), schedule[|schedule| - 1]);
    }
  }

  lemma {:induction false} EffortOfIdle(size: nat)
    ensures Total(seq(size, _ => Idle), Effort) == size
  {
    if size > 0 {
      assert seq(size, _ => Idle)[1..] == seq(size - 1, _ => Idle);
      EffortOfIdle(size - 1);
    }
  }
}
