/**
 The decision eval: every (case, repeat) pair is a job of a worker pool, and a finished job appends
 its attempt to the list kept under its case. Reading that list and writing it back is one step,
 because nothing is awaited in between.
 */
module DecisionQueue {
  import opened Text
  import opened WorkerPool

  const CONCURRENCY := 8
  const BUDGET_RETRIES := 3

  /** `answers` runs beside the pool's log of finished jobs: what each of them produced. */
  datatype Queue<K, A> = Queue(pool: State, results: map<K, seq<A>>, answers: seq<A>)

  function Kept<K(==), A>(results: map<K, seq<A>>, id: K): seq<A> {
    if id in results then results[id] else []
  }

  function Items<K(==)>(jobs: seq<K>): (items: seq<Option<K>>)
    ensures |items| == |jobs| && forall i :: 0 <= i < |jobs| ==> items[i] == Some(jobs[i])
  {
    seq(|jobs|, i requires 0 <= i < |jobs| => Some(jobs[i]))
  }

  /** A step of the pool, and the attempt it brings if it finishes a job. */
  function Steps<A>(schedule: seq<(Step, A)>): (steps: seq<Step>)
    ensures |steps| == |schedule|
  {
    if schedule == [] then [] else Steps(schedule[..|schedule| - 1]) + [schedule[|schedule| - 1].0]
  }

  function After<K(==), A>(jobs: seq<K>, q: Queue<K, A>, step: Step, answer: A): Queue<K, A>
    requires Enabled(Items(jobs), q.pool, step)
    requires InRange(q.pool, |jobs|)
  {
    var pool := WorkerPool.After(Items(jobs), q.pool, step);
    if step.Finish? then
      var id := jobs[q.pool.workers[step.w].item];
      Queue(pool, q.results[id := Kept(q.results, id) + [answer]], q.answers + [answer])
    else q.(pool := pool)
  }

  predicate Possible<K(==), A>(jobs: seq<K>, size: nat, schedule: seq<(Step, A)>) {
    WorkerPool.Possible(Items(jobs), size, Steps(schedule))
  }

  /** The queue after a schedule; its pool is the pool after the same steps. */
  function Run<K(==), A>(jobs: seq<K>, size: nat, schedule: seq<(Step, A)>): (q: Queue<K, A>)
    requires Possible(jobs, size, schedule)
    ensures q.pool == WorkerPool.Run(Items(jobs), size, Steps(schedule))
  {
    if schedule == [] then Queue(Initial(size), map[], [])
    else
      var before, (step, answer) := schedule[..|schedule| - 1], schedule[|schedule| - 1];
      assert Steps(schedule)[..|before|] == Steps(before);
      RunningItemsExist(Items(jobs), size, Steps(before));
      After(jobs, Run(jobs, size, before), step, answer)
  }

  predicate InRange(s: State, n: nat) {
    && (forall w :: 0 <= w < |s.workers| ==> s.workers[w].Running? ==> s.workers[w].item < n)
    && (forall j :: 0 <= j < |s.finished| ==> s.finished[j] < n)
  }

  lemma {:induction false} RunningItemsExist<T>(items: seq<Option<T>>, size: nat, schedule: seq<Step>)
    requires WorkerPool.Possible(items, size, schedule)
    ensures InRange(WorkerPool.Run(items, size, schedule), |items|)
  {
    if schedule != [] {
      var before, step := schedule[..|schedule| - 1], schedule[|schedule| - 1];
      RunningItemsExist(items, size, before);
      var s := WorkerPool.Run(items, size, before);
      assert s.workers[step.w].Running? ==> s.workers[step.w].item < |items|;
    }
  }

  /** The attempts of the finished jobs of one case, in the order they finished. */
  function AttemptsOf<K(==), A>(jobs: seq<K>, finished: seq<nat>, answers: seq<A>, id: K): seq<A>
    requires |finished| == |answers| && forall j :: 0 <= j < |finished| ==> finished[j] < |jobs|
  {
    if finished == [] then []
    else
      var n := |finished| - 1;
      AttemptsOf(jobs, finished[..n], answers[..n], id) + if jobs[finished[n]] == id then [answers[n]] else []
  }

  /** No attempt is lost, misfiled or reordered, however the workers interleave. */
  lemma {:induction false} ResultsAreAttempts<K, A>(jobs: seq<K>, size: nat, schedule: seq<(Step, A)>, id: K)
    requires Possible(jobs, size, schedule)
    ensures var q := Run(jobs, size, schedule);
            && |q.answers| == |q.pool.finished|
            && (forall j :: 0 <= j < |q.answers| ==> q.pool.finished[j] < |jobs|)
            && Kept(q.results, id) == AttemptsOf(jobs, q.pool.finished, q.answers, id)
  {
    if schedule != [] {
      var before := schedule[..|schedule| - 1];
      assert Steps(schedule)[..|before|] == Steps(before);
      ResultsAreAttempts(jobs, size, before, id);
      RunningItemsExist(Items(jobs), size, Steps(schedule));
      var q, q' := Run(jobs, size, before), Run(jobs, size, schedule);
      if schedule[|schedule| - 1].0.Finish? {
        assert q'.pool.finished[..|q.answers|] == q.pool.finished && q'.answers[..|q.answers|] == q.answers;
      }
    }
  }

  // ---- How many attempts a case gets ----

  function CountOf<K(==)>(jobs: seq<K>, id: K): nat {
    if jobs == [] then 0 else CountOf(jobs[..|jobs| - 1], id) + if jobs[|jobs| - 1] == id then 1 else 0
  }

  /** Finishes of the first n jobs, of one case only. */
  function FinishesOf<K(==)>(jobs: seq<K>, n: nat, finished: seq<nat>, id: K): nat
    requires n <= |jobs|
  {
    if n == 0 then 0
    else FinishesOf(jobs, n - 1, finished, id) + if jobs[n - 1] == id then Occurs(finished, n - 1) else 0
  }

  lemma {:induction false} FinishesOneMore<K>(jobs: seq<K>, n: nat, finished: seq<nat>, j: nat, id: K)
    requires n <= |jobs| && j < |jobs|
    ensures FinishesOf(jobs, n, finished + [j], id)
            == FinishesOf(jobs, n, finished, id) + if j < n && jobs[j] == id then 1 else 0
  {
    if n > 0 {
      FinishesOneMore(jobs, n - 1, finished, j, id);
      OccursOneMore(finished, j, n - 1);
    }
  }

  lemma {:induction false} AttemptsAreFinishes<K, A>(jobs: seq<K>, finished: seq<nat>, answers: seq<A>, id: K)
    requires |finished| == |answers| && forall j :: 0 <= j < |finished| ==> finished[j] < |jobs|
    ensures |AttemptsOf(jobs, finished, answers, id)| == FinishesOf(jobs, |jobs|, finished, id)
  {
    if finished == [] {
      NoFinishes(jobs, |jobs|, id);
    } else {
      var n := |finished| - 1;
      AttemptsAreFinishes(jobs, finished[..n], answers[..n], id);
      FinishesOneMore(jobs, |jobs|, finished[..n], finished[n], id);
      assert finished[..n] + [finished[n]] == finished;
    }
  }

  lemma {:induction false} NoFinishes<K>(jobs: seq<K>, n: nat, id: K)
    requires n <= |jobs|
    ensures FinishesOf(jobs, n, [], id) == 0
  {
    if n > 0 {
      NoFinishes(jobs, n - 1, id);
    }
  }

  lemma {:induction false} EachOnce<K>(jobs: seq<K>, n: nat, finished: seq<nat>, id: K)
    requires n <= |jobs| && forall i: nat :: i < n ==> Occurs(finished, i) == 1
    ensures FinishesOf(jobs, n, finished, id) == CountOf(jobs[..n], id)
  {
    if n > 0 {
      EachOnce(jobs, n - 1, finished, id);
      assert jobs[..n][..n - 1] == jobs[..n - 1];
    }
  }

  /** Every case, `repeats` times in a row. */
  function Repeated<K(==)>(cases: seq<K>, repeats: nat): seq<K> {
    if cases == [] then []
    else Repeated(cases[..|cases| - 1], repeats) + seq(repeats, _ => cases[|cases| - 1])
  }

  lemma {:induction false} CountConcatRun<K>(jobs: seq<K>, c: K, repeats: nat, id: K)
    ensures CountOf(jobs + seq(repeats, _ => c), id) == CountOf(jobs, id) + if c == id then repeats else 0
  {
    var all := jobs + seq(repeats, _ => c);
    if repeats == 0 {
      assert all == jobs;
    } else {
      assert all[..|all| - 1] == jobs + seq(repeats - 1, _ => c);
      CountConcatRun(jobs, c, repeats - 1, id);
    }
  }

  lemma {:induction false} RepeatedCounts<K>(cases: seq<K>, repeats: nat, id: K)
    ensures CountOf(Repeated(cases, repeats), id) == repeats * CountOf(cases, id)
  {
    if cases != [] {
      var before, c := cases[..|cases| - 1], cases[|cases| - 1];
      RepeatedCounts(before, repeats, id);
      CountConcatRun(Repeated(before, repeats), c, repeats, id);
    }
  }

  /** When the queue has settled, each case has exactly its repeats (once per case that bears the id). */
  lemma EveryCaseGetsItsRepeats<K, A>(cases: seq<K>, repeats: nat, schedule: seq<(Step, A)>, id: K)
    requires Possible(Repeated(cases, repeats), CONCURRENCY, schedule)
    requires Settled(Run(Repeated(cases, repeats), CONCURRENCY, schedule).pool)
    requires NoFailure(Run(Repeated(cases, repeats), CONCURRENCY, schedule).pool)
    ensures |Kept(Run(Repeated(cases, repeats), CONCURRENCY, schedule).results, id)| == repeats * CountOf(cases, id)
  {
    var jobs := Repeated(cases, repeats);
    var q := Run(jobs, CONCURRENCY, schedule);
    ResultsAreAttempts(jobs, CONCURRENCY, schedule, id);
    AttemptsAreFinishes(jobs, q.pool.finished, q.answers, id);
    forall i: nat | i < |jobs|
      ensures Occurs(q.pool.finished, i) == 1
    {
      CompleteWithoutHoles(Items(jobs), CONCURRENCY, Steps(schedule), i);
    }
    EachOnce(jobs, |jobs|, q.pool.finished, id);
    assert jobs[..|jobs|] == jobs;
    RepeatedCounts(cases, repeats, id);
  }

  // ---- One question ----

  datatype Response = Answered | Skipped(reason: string)

  predicate Refused(r: Option<Response>) {
    r == Some(Skipped("rate_limited"))
  }

  /** Ask again while the budget refuses, a bounded number of times: `engine(k)` is the k-th response. */
  method Ask(engine: nat -> Option<Response>) returns (response: Option<Response>, asked: nat)
    ensures 1 <= asked <= 4 && response == engine(asked - 1)
    ensures forall k: nat :: k < asked - 1 ==> engine(k) == Some(Skipped("rate_limited"))
    ensures response == Some(Skipped("rate_limited")) ==> asked == 4
  {
    var tries := 0;
    while true
      invariant 0 <= tries <= BUDGET_RETRIES
      invariant forall k: nat :: k < tries ==> Refused(engine(k))
      decreases BUDGET_RETRIES - tries
    {
      response := engine(tries);
      if !Refused(response) || tries >= BUDGET_RETRIES {
        return response, tries + 1;
      }
      tries := tries + 1;
    }
  }
}
