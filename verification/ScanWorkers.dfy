/** Workers that take tasks from a closed queue and send outcomes to one reader. */
module ScanWorkers {
  const MAX_WORKERS: nat := 16

  datatype Worker<T> = Idle | Busy(task: T) | Stopped

  /** Tasks still queued, what each worker does, outcomes in arrival order, and whether the stream is closed. */
  datatype Pool<T, O> = Pool(jobs: seq<T>, workers: seq<Worker<T>>, outcomes: seq<O>, closed: bool)

  /** Which goroutine runs next: a worker, or the one that closes the stream when all have stopped. */
  datatype Choice = Run(worker: nat) | Close

  predicate Enabled<T, O>(p: Pool<T, O>, choice: Choice) {
    match choice
    case Run(w) => w < |p.workers| && !p.workers[w].Stopped?
    case Close => !p.closed && forall w | 0 <= w < |p.workers| :: p.workers[w].Stopped?
  }

  function Step<T, O>(p: Pool<T, O>, scan: T -> O, choice: Choice): Pool<T, O>
    requires Enabled(p, choice)
  {
    match choice
    case Close => p.(closed := true)
    case Run(w) =>
      match p.workers[w]
      case Busy(t) => p.(workers := p.workers[w := Idle], outcomes := p.outcomes + [scan(t)])
      case _ =>
        if p.jobs == [] then p.(workers := p.workers[w := Stopped])
        else p.(workers := p.workers[w := Busy(p.jobs[0])], jobs := p.jobs[1..])
  }

  function Outcomes<T, O>(scan: T -> O, tasks: seq<T>): seq<O> {
    seq(|tasks|, i requires 0 <= i < |tasks| => scan(tasks[i]))
  }

  /** What one worker will still send. */
  ghost function Owed<T, O>(scan: T -> O, worker: Worker<T>): multiset<O> {
    if worker.Busy? then multiset{scan(worker.task)} else multiset{}
  }

  ghost function OwedAll<T, O>(scan: T -> O, workers: seq<Worker<T>>): multiset<O> {
    if workers == [] then multiset{} else OwedAll(scan, workers[..|workers| - 1]) + Owed(scan, workers[|workers| - 1])
  }

  lemma Rearrange<O>(a: multiset<O>, b: multiset<O>, last: multiset<O>, o: multiset<O>, x: multiset<O>)
    requires a + o == b + x
    ensures (a + last) + o == (b + last) + x
  {
    assert (a + last) + o == (a + o) + last;
    assert (b + last) + x == (b + x) + last;
  }

  lemma {:induction false} OwedUpdate<T, O>(scan: T -> O, workers: seq<Worker<T>>, w: nat, x: Worker<T>)
    requires w < |workers|
    ensures OwedAll(scan, workers[w := x]) + Owed(scan, workers[w]) == OwedAll(scan, workers) + Owed(scan, x)
  {
    var n := |workers| - 1;
    var last := Owed(scan, workers[n]);
    if w < n {
      assert workers[w := x][..n] == workers[..n][w := x] && workers[w := x][n] == workers[n];
      OwedUpdate(scan, workers[..n], w, x);
      Rearrange(OwedAll(scan, workers[..n][w := x]), OwedAll(scan, workers[..n]), last, Owed(scan, workers[w]),
                Owed(scan, x));
    } else {
      assert workers[w := x][..n] == workers[..n];
    }
  }

  lemma {:induction false} NothingOwed<T, O>(scan: T -> O, workers: seq<Worker<T>>)
    requires forall w | 0 <= w < |workers| :: !workers[w].Busy?
    ensures OwedAll(scan, workers) == multiset{}
  {
    if workers == [] {
    } else {
      NothingOwed(scan, workers[..|workers| - 1]);
    }
  }

  /** Every task is accounted for exactly once: sent, being scanned, or queued. */
  ghost predicate Accounted<T, O>(p: Pool<T, O>, scan: T -> O, tasks: seq<T>) {
    multiset(p.outcomes) + OwedAll(scan, p.workers) + multiset(Outcomes(scan, p.jobs))
      == multiset(Outcomes(scan, tasks))
  }

  ghost predicate PoolOk<T, O>(p: Pool<T, O>, scan: T -> O, tasks: seq<T>) {
    && |p.workers| > 0 && Accounted(p, scan, tasks)
    && ((exists w :: 0 <= w < |p.workers| && p.workers[w].Stopped?) ==> p.jobs == [])
    && (p.closed ==> forall w | 0 <= w < |p.workers| :: p.workers[w].Stopped?)
  }

  lemma OutcomesHead<T, O>(scan: T -> O, tasks: seq<T>)
    requires tasks != []
    ensures multiset(Outcomes(scan, tasks)) == multiset{scan(tasks[0])} + multiset(Outcomes(scan, tasks[1..]))
  {
    assert Outcomes(scan, tasks) == [scan(tasks[0])] + Outcomes(scan, tasks[1..]);
  }

  lemma AccountSent<T, O>(p: Pool<T, O>, scan: T -> O, tasks: seq<T>, w: nat)
    requires Accounted(p, scan, tasks) && w < |p.workers| && p.workers[w].Busy?
    ensures Accounted(Step(p, scan, Run(w)), scan, tasks)
  {
    var sent := scan(p.workers[w].task);
    OwedUpdate(scan, p.workers, w, Idle);
    var owed := OwedAll(scan, p.workers[w := Idle]);
    assert owed + multiset{sent} == OwedAll(scan, p.workers);
    assert multiset(p.outcomes + [sent]) == multiset(p.outcomes) + multiset{sent};
    Shift(multiset(p.outcomes), owed, multiset{sent}, multiset(Outcomes(scan, p.jobs)));
  }

  lemma AccountTaken<T, O>(p: Pool<T, O>, scan: T -> O, tasks: seq<T>, w: nat)
    requires Accounted(p, scan, tasks) && w < |p.workers| && p.workers[w].Idle? && p.jobs != []
    ensures Accounted(Step(p, scan, Run(w)), scan, tasks)
  {
    var taken := multiset{scan(p.jobs[0])};
    OwedUpdate(scan, p.workers, w, Busy(p.jobs[0]));
    OutcomesHead(scan, p.jobs);
    assert OwedAll(scan, p.workers[w := Busy(p.jobs[0])]) == OwedAll(scan, p.workers) + taken;
    Shift(multiset(p.outcomes), OwedAll(scan, p.workers), taken, multiset(Outcomes(scan, p.jobs[1..])));
  }

  lemma AccountStopped<T, O>(p: Pool<T, O>, scan: T -> O, tasks: seq<T>, w: nat)
    requires Accounted(p, scan, tasks) && w < |p.workers| && p.workers[w].Idle? && p.jobs == []
    ensures Accounted(Step(p, scan, Run(w)), scan, tasks)
  {
    OwedUpdate(scan, p.workers, w, Stopped);
    var before, after: multiset<O> := OwedAll(scan, p.workers), OwedAll(scan, p.workers[w := Stopped]);
    assert before + multiset{} == before && after + multiset{} == after;
  }

  lemma Shift<O>(a: multiset<O>, b: multiset<O>, x: multiset<O>, c: multiset<O>)
    ensures (a + x) + b + c == a + (b + x) + c == a + b + (x + c)
  {
  }

  /** Whichever worker runs, no task is lost or sent twice. */
  lemma StepKeepsAccount<T, O>(p: Pool<T, O>, scan: T -> O, tasks: seq<T>, choice: Choice)
    requires PoolOk(p, scan, tasks) && Enabled(p, choice)
    ensures PoolOk(Step(p, scan, choice), scan, tasks)
  {
    if choice.Run? {
      var w := choice.worker;
      if p.workers[w].Busy? {
        AccountSent(p, scan, tasks, w);
      } else if p.jobs != [] {
        AccountTaken(p, scan, tasks, w);
      } else {
        AccountStopped(p, scan, tasks, w);
      }
    }
  }

  // Termination -----------------------------------------------------------------------------------

  function Weight<T>(worker: Worker<T>): nat {
    match worker
    case Idle => 1
    case Busy(_) => 2
    case Stopped => 0
  }

  function WeightAll<T>(workers: seq<Worker<T>>): nat {
    if workers == [] then 0 else WeightAll(workers[..|workers| - 1]) + Weight(workers[|workers| - 1])
  }

  lemma {:induction false} WeightUpdate<T>(workers: seq<Worker<T>>, w: nat, x: Worker<T>)
    requires w < |workers|
    ensures WeightAll(workers[w := x]) + Weight(workers[w]) == WeightAll(workers) + Weight(x)
  {
    var n := |workers| - 1;
    if w < n {
      assert workers[w := x][..n] == workers[..n][w := x];
      WeightUpdate(workers[..n], w, x);
    } else {
      assert workers[w := x][..n] == workers[..n];
    }
  }

  /** Steps a pool can still take. */
  function StepsLeft<T, O>(p: Pool<T, O>): nat {
    2 * |p.jobs| + WeightAll(p.workers) + if p.closed then 0 else 1
  }

  lemma StepComesCloser<T, O>(p: Pool<T, O>, scan: T -> O, choice: Choice)
    requires Enabled(p, choice)
    ensures StepsLeft(Step(p, scan, choice)) == StepsLeft(p) - 1
  {
    if choice.Run? { WeightUpdate(p.workers, choice.worker, Step(p, scan, choice).workers[choice.worker]); }
  }

  /** Until the stream is closed somebody can run. */
  lemma SomeoneCanRun<T, O>(p: Pool<T, O>)
    requires !p.closed
    ensures exists choice :: Enabled(p, choice)
  {
    if forall w | 0 <= w < |p.workers| :: p.workers[w].Stopped? {
      assert Enabled(p, Close);
    } else {
      var w :| 0 <= w < |p.workers| && !p.workers[w].Stopped?;
      assert Enabled(p, Run(w));
    }
  }

  // Runs ---------------------------------------------------------------------------------------------

  ghost predicate Possible<T, O>(p: Pool<T, O>, scan: T -> O, choices: seq<Choice>)
    decreases |choices|
  {
    choices == [] || (Enabled(p, choices[0]) && Possible(Step(p, scan, choices[0]), scan, choices[1..]))
  }

  ghost function Execute<T, O>(p: Pool<T, O>, scan: T -> O, choices: seq<Choice>): Pool<T, O>
    requires Possible(p, scan, choices)
    decreases |choices|
  {
    if choices == [] then p else Execute(Step(p, scan, choices[0]), scan, choices[1..])
  }

  function Started<T, O>(tasks: seq<T>, workerCount: nat): Pool<T, O> {
    Pool(tasks, seq(workerCount, _ => Idle), [], false)
  }

  lemma StartedOk<T, O>(tasks: seq<T>, workerCount: nat, scan: T -> O)
    requires workerCount > 0
    ensures PoolOk(Started<T, O>(tasks, workerCount), scan, tasks)
  {
    NothingOwed(scan, Started<T, O>(tasks, workerCount).workers);
  }

  lemma {:induction false} RunKeepsAccount<T, O>(p: Pool<T, O>, scan: T -> O, tasks: seq<T>, choices: seq<Choice>)
    requires PoolOk(p, scan, tasks) && Possible(p, scan, choices)
    ensures PoolOk(Execute(p, scan, choices), scan, tasks)
    ensures |choices| <= StepsLeft(p)
    decreases |choices|
  {
    if choices == [] {
    } else {
      StepKeepsAccount(p, scan, tasks, choices[0]);
      StepComesCloser(p, scan, choices[0]);
      RunKeepsAccount(Step(p, scan, choices[0]), scan, tasks, choices[1..]);
    }
  }

  lemma ClosedIsComplete<T, O>(p: Pool<T, O>, scan: T -> O, tasks: seq<T>)
    requires PoolOk(p, scan, tasks) && p.closed
    ensures multiset(p.outcomes) == multiset(Outcomes(scan, tasks))
  {
    NothingOwed(scan, p.workers);
    assert p.workers[0].Stopped?;
    assert Outcomes(scan, p.jobs) == [];
  }

  /** A run is over when nobody can take another step. */
  ghost predicate Stuck<T, O>(p: Pool<T, O>) {
    forall choice :: !Enabled(p, choice)
  }

  /** A pool is stuck exactly when its stream is closed. */
  lemma StuckIsClosed<T, O>(p: Pool<T, O>, scan: T -> O, tasks: seq<T>)
    requires PoolOk(p, scan, tasks)
    ensures Stuck(p) <==> p.closed
  {
    if !p.closed { SomeoneCanRun(p); }
  }

  /**
   * For any number of workers a run has boundedly many steps, and if it cannot go on it has sent exactly one outcome
   * per task.
   */
  lemma EveryRunSendsAll<T, O>(tasks: seq<T>, workerCount: nat, scan: T -> O, choices: seq<Choice>)
    requires workerCount > 0 && Possible(Started<T, O>(tasks, workerCount), scan, choices)
    ensures |choices| <= 2 * |tasks| + workerCount + 1
    ensures var end := Execute(Started<T, O>(tasks, workerCount), scan, choices);
      && (Stuck(end) <==> end.closed)
      && (Stuck(end) ==> multiset(end.outcomes) == multiset(Outcomes(scan, tasks)))
  {
    var start := Started<T, O>(tasks, workerCount);
    StartedOk<T, O>(tasks, workerCount, scan);
    IdleWeight(start.workers);
    RunKeepsAccount(start, scan, tasks, choices);
    var end := Execute(start, scan, choices);
    StuckIsClosed(end, scan, tasks);
    if end.closed { ClosedIsComplete(end, scan, tasks); }
  }

  lemma {:induction false} IdleWeight<T>(workers: seq<Worker<T>>)
    requires forall w | 0 <= w < |workers| :: workers[w].Idle?
    ensures WeightAll(workers) == |workers|
  {
    if workers == [] {
    } else {
      IdleWeight(workers[..|workers| - 1]);
    }
  }

  function EffectiveWorkerCount(requested: nat, taskCount: nat): nat {
    var capped := if requested < MAX_WORKERS then requested else MAX_WORKERS;
    if capped < taskCount then capped else taskCount
  }

  /** Scans all tasks, the scheduler choosing freely; outcomes come in arrival order. */
  method ScanFiles<T, O>(tasks: seq<T>, scan: T -> O, requested: nat) returns (outcomes: seq<O>)
    requires requested > 0
    ensures multiset(outcomes) == multiset(Outcomes(scan, tasks))
  {
    if |tasks| == 0 {
      assert Outcomes(scan, tasks) == [];
      return [];
    }
    var workerCount := EffectiveWorkerCount(requested, |tasks|);
    var pool: Pool<T, O> := Started(tasks, workerCount);
    StartedOk<T, O>(tasks, workerCount, scan);
    while exists w :: 0 <= w < |pool.workers| && !pool.workers[w].Stopped?
      invariant PoolOk(pool, scan, tasks)
      decreases StepsLeft(pool)
    {
      var w :| 0 <= w < |pool.workers| && !pool.workers[w].Stopped?;
      StepKeepsAccount(pool, scan, tasks, Run(w));
      StepComesCloser(pool, scan, Run(w));
      pool := Step(pool, scan, Run(w));
    }
    if !pool.closed {
      StepKeepsAccount(pool, scan, tasks, Close);
      pool := Step(pool, scan, Close);
    }
    ClosedIsComplete(pool, scan, tasks);
    outcomes := pool.outcomes;
  }
}
