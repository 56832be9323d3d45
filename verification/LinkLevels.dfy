/** Rebuilding the links level by level: any cut into ranges, any interleaving, one result. */
module LinkLevels {
  import opened Patterns
  import opened LinkCells
  import opened LinkJobs

  /** Jobs cut a level into consecutive ranges. */
  ghost predicate Cut(jobs: seq<Job>, levelStart: nat, levelEnd: nat) {
    && |jobs| > 0 && jobs[0].start == levelStart && jobs[|jobs| - 1].end == levelEnd
    && (forall i | 0 <= i < |jobs| :: jobs[i].start <= jobs[i].end)
    && (forall i | 0 <= i < |jobs| - 1 :: jobs[i].end == jobs[i + 1].start)
  }

  lemma {:induction false} CutOrdered(jobs: seq<Job>, levelStart: nat, levelEnd: nat, i: nat, j: nat)
    requires Cut(jobs, levelStart, levelEnd) && i < j < |jobs|
    ensures levelStart <= jobs[i].start && jobs[i].end <= jobs[j].start && jobs[j].end <= levelEnd
    decreases |jobs| + i - j + (|jobs| - j)
  {
    CutBounds(jobs, levelStart, levelEnd, i);
    CutBounds(jobs, levelStart, levelEnd, j);
    if i + 1 < j {
      var k := i;
      while k + 1 < j
        invariant i <= k < j && jobs[i].end <= jobs[k].end
      {
        k := k + 1;
      }
    }
  }

  lemma CutBounds(jobs: seq<Job>, levelStart: nat, levelEnd: nat, i: nat)
    requires Cut(jobs, levelStart, levelEnd) && i < |jobs|
    ensures levelStart <= jobs[i].start && jobs[i].end <= levelEnd
  {
    var k := 0;
    while k < i
      invariant k <= i && levelStart <= jobs[k].start
    {
      k := k + 1;
    }
    k := i;
    while k + 1 < |jobs|
      invariant i <= k < |jobs| && jobs[i].end <= jobs[k].end
    {
      k := k + 1;
    }
  }

  /** The invariant of a level: finished levels are final and every job is in order. */
  ghost predicate LevelOk(t: Store, c: Cells, jobs: seq<Job>, levelStart: nat, levelEnd: nat) {
    && Ready(t, c, levelStart, levelEnd) && Cut(jobs, levelStart, levelEnd)
    && forall i {:trigger jobs[i]} | 0 <= i < |jobs| :: JobOk(t, c, jobs[i], levelEnd)
  }

  ghost predicate InRange(t: Store, job: Job, x: nat) {
    job.start < |t.starts| && job.end < |t.starts| && t.starts[job.start] < x <= t.starts[job.end]
  }

  lemma CutKept(jobs: seq<Job>, levelStart: nat, levelEnd: nat, j: nat, job: Job)
    requires Cut(jobs, levelStart, levelEnd) && j < |jobs|
    requires job.start == jobs[j].start && job.end == jobs[j].end
    ensures Cut(jobs[j := job], levelStart, levelEnd)
  {
  }

  lemma OneJobKept(t: Store, c: Cells, jobs: seq<Job>, levelStart: nat, levelEnd: nat, j: nat, i: nat, c': Cells)
    requires Ready(t, c, levelStart, levelEnd) && Cut(jobs, levelStart, levelEnd) && Fitting(t, c')
    requires i < |jobs| && j < |jobs| && i != j
    requires JobOk(t, c, jobs[i], levelEnd) && OnlyCell(c, c', jobs[j].edge + 1)
    requires c' == c || (levelEnd <= jobs[j].edge + 1 && InRange(t, jobs[j], jobs[j].edge + 1))
    ensures JobOk(t, c', jobs[i], levelEnd)
  {
    if i < j { CutOrdered(jobs, levelStart, levelEnd, i, j); } else { CutOrdered(jobs, levelStart, levelEnd, j, i); }
    OtherJobKept(t, c, c', jobs[j], jobs[i], levelStart, levelEnd);
  }

  /** A job that only touches its own child's cells disturbs nobody. */
  lemma ReplaceJob(t: Store, c: Cells, jobs: seq<Job>, levelStart: nat, levelEnd: nat, j: nat, job: Job, c': Cells)
    requires LevelOk(t, c, jobs, levelStart, levelEnd) && j < |jobs|
    requires job.start == jobs[j].start && job.end == jobs[j].end && JobOk(t, c', job, levelEnd)
    requires OnlyCell(c, c', jobs[j].edge + 1)
    requires c' == c || (levelEnd <= jobs[j].edge + 1 && InRange(t, job, jobs[j].edge + 1))
    ensures LevelOk(t, c', jobs[j := job], levelStart, levelEnd)
  {
    ReadyKept(t, c, c', jobs[j].edge + 1, levelStart, levelEnd);
    CutKept(jobs, levelStart, levelEnd, j, job);
    var jobs' := jobs[j := job];
    forall i {:trigger jobs'[i]} | 0 <= i < |jobs'| ensures JobOk(t, c', jobs'[i], levelEnd) {
      if i != j { OneJobKept(t, c, jobs, levelStart, levelEnd, j, i, c'); }
    }
  }

  /** One worker advances; every other worker and every finished cell is left as it was. */
  lemma StepKeepsLevel(t: Store, c: Cells, jobs: seq<Job>, levelStart: nat, levelEnd: nat, j: nat)
    requires LevelOk(t, c, jobs, levelStart, levelEnd) && j < |jobs| && !Done(jobs[j])
    ensures JobShaped(t, c, jobs[j])
    ensures LevelOk(t, JobStep(t, c, jobs[j]).1, jobs[j := JobStep(t, c, jobs[j]).0], levelStart, levelEnd)
    ensures SameOutside(t, c, JobStep(t, c, jobs[j]).1, levelStart, levelEnd)
  {
    CutBounds(jobs, levelStart, levelEnd, j);
    StepKeepsJob(t, c, jobs[j], levelStart, levelEnd);
    WritesOnlyChild(t, c, jobs[j], levelStart, levelEnd);
    ReplaceJob(t, c, jobs, levelStart, levelEnd, j, JobStep(t, c, jobs[j]).0, JobStep(t, c, jobs[j]).1);
  }

  lemma ReadyKept(t: Store, c: Cells, c': Cells, child: nat, levelStart: nat, levelEnd: nat)
    requires Ready(t, c, levelStart, levelEnd) && Fitting(t, c') && OnlyCell(c, c', child)
      && (c' == c || levelEnd <= child)
    ensures Ready(t, c', levelStart, levelEnd)
  {
    if c' != c {
      forall x: nat {:trigger Final(t, c', levelStart, x)} | x < levelEnd ensures Final(t, c', levelStart, x) {
        assert Final(t, c, levelStart, x);
        LevelNodeBelow(t, levelStart, levelEnd, x);
        SettledFrame(t, c, c', levelEnd, x);
      }
    }
  }

  /** The parent of a node up to the next level's end comes before this level's end. */
  lemma LevelNodeBelow(t: Store, levelStart: nat, levelEnd: nat, x: nat)
    requires Flat(t) && 1 <= levelStart < levelEnd <= |t.heads| && levelEnd == t.starts[levelStart] + 1
    requires x <= t.starts[levelEnd]
    ensures Below(t, x, levelEnd)
  {
  }

  /** Cells that are not children of the level. */
  ghost predicate SameOutside(t: Store, c: Cells, c': Cells, levelStart: nat, levelEnd: nat) {
    && |c'.failures| == |c.failures| && |c'.links| == |c.links| && |c.failures| == |c.links|
    && levelStart <= levelEnd < |t.starts|
    && forall x: nat | x < |c.failures| && !(t.starts[levelStart] < x <= t.starts[levelEnd]) ::
         c'.failures[x] == c.failures[x] && c'.links[x] == c.links[x]
  }

  lemma WritesOnlyChild(t: Store, c: Cells, job: Job, levelStart: nat, levelEnd: nat)
    requires Ready(t, c, levelStart, levelEnd) && JobOk(t, c, job, levelEnd) && !Done(job)
    requires levelStart <= job.start && JobShaped(t, c, job)
    ensures OnlyCell(c, JobStep(t, c, job).1, job.edge + 1)
    ensures JobStep(t, c, job).1 == c || (levelEnd <= job.edge + 1
                                          && t.starts[job.start] < job.edge + 1 <= t.starts[job.end])
    ensures JobStep(t, c, job).1 == c || t.starts[levelStart] < job.edge + 1 <= t.starts[levelEnd]
    ensures JobStep(t, c, job).0.start == job.start && JobStep(t, c, job).0.end == job.end
  {
    assert t.starts[levelStart] <= t.starts[job.start] <= t.starts[job.parent];
    assert t.starts[job.parent + 1] <= t.starts[job.end] <= t.starts[levelEnd];
  }

  lemma OtherJobKept(t: Store, c: Cells, c': Cells, job: Job, other: Job, levelStart: nat, levelEnd: nat)
    requires Ready(t, c, levelStart, levelEnd) && Fitting(t, c') && JobOk(t, c, other, levelEnd)
      && OnlyCell(c, c', job.edge + 1)
    requires job.start <= job.end <= levelEnd && (other.end <= job.start || job.end <= other.start)
    requires c' == c || (levelEnd <= job.edge + 1 && t.starts[job.start] < job.edge + 1 <= t.starts[job.end])
    ensures JobOk(t, c', other, levelEnd)
  {
    if c' != c {
      var child := job.edge + 1;
      KeepOthers(t, c, c', child, levelEnd);
      assert t.starts[other.start] <= t.starts[other.parent] <= t.starts[other.end];
      if other.end <= job.start { assert t.starts[other.end] <= t.starts[job.start]; }
      if job.end <= other.start { assert t.starts[job.end] <= t.starts[other.start]; }
      if AtEdge(t, other) {
        assert t.starts[other.parent + 1] <= t.starts[other.end];
        TargetInLevels(t, c, levelStart, levelEnd, other);
        PcKept(t, c, c', child, other);
      }
    }
  }

  /** What a job is about to do does not depend on other children's cells. */
  lemma PcKept(t: Store, c: Cells, c': Cells, child: nat, job: Job)
    requires Fitting(t, c) && Fitting(t, c') && OnlyCell(c, c', child) && AtEdge(t, job) && PcOk(t, c, job)
    requires job.parent < child != job.edge + 1 && Target(t, c, job.parent, job.edge) < child
    ensures PcOk(t, c', job)
  {
    TargetKept(t, c, c', child, job.parent, job.edge);
    WalkFrame(t, c.failures, c'.failures, c.failures[job.parent], t.tokens[job.edge]);
    if job.pc.Probe? || job.pc.Chase? { WalkFrame(t, c.failures, c'.failures, job.pc.failure, t.tokens[job.edge]); }
  }

  // No races --------------------------------------------------------------------

  datatype Access = Private | ReadFailure(x: nat) | WriteFailure(x: nat) | ReadLink(x: nat) | WriteLink(x: nat)

  /** The shared cell a job touches in its next step. */
  function NextAccess(t: Store, job: Job): Access
    requires job.parent + 1 < |t.starts|
  {
    match job.pc
    case Fetch => if job.edge == t.starts[job.parent + 1] then Private else ReadFailure(job.parent)
    case Probe(_) => Private
    case Chase(f) => ReadFailure(f)
    case Store(_) => WriteFailure(job.edge + 1)
    case Reread => ReadFailure(job.edge + 1)
    case Relink(f) => if f < |t.heads| && t.heads[f] != NONE then Private else ReadLink(f)
    case Finish(_) => WriteLink(job.edge + 1)
  }

  predicate Conflict(a: Access, b: Access) {
    (a.WriteFailure? && (b == ReadFailure(a.x) || b == a)) || (a.WriteLink? && (b == ReadLink(a.x) || b == a))
  }

  ghost predicate Placed(t: Store, job: Job, levelEnd: nat)
    requires job.parent + 1 < |t.starts|
  {
    match NextAccess(t, job)
    case Private => true
    case WriteFailure(x) => x == job.edge + 1 && InRange(t, job, x)
    case WriteLink(x) => x == job.edge + 1 && InRange(t, job, x)
    case ReadFailure(x) => x < levelEnd || (x == job.edge + 1 && InRange(t, job, x))
    case ReadLink(x) => x < levelEnd
  }

  /** A job writes only its current child's cells and reads those or cells of finished levels. */
  lemma AccessPlace(t: Store, c: Cells, job: Job, levelStart: nat, levelEnd: nat)
    requires Ready(t, c, levelStart, levelEnd) && JobOk(t, c, job, levelEnd)
    requires levelStart <= job.start && !Done(job)
    ensures job.parent + 1 < |t.starts|
    ensures Placed(t, job, levelEnd)
  {
    assert t.starts[job.start] <= t.starts[job.parent] && t.starts[job.parent + 1] <= t.starts[job.end];
    if job.edge < t.starts[job.parent + 1] {
      EdgeAhead(t, job);
      TargetInLevels(t, c, levelStart, levelEnd, job);
    }
  }

  /** In no reachable state do two workers touch one cell with one of them writing it. */
  lemma NoRace(t: Store, c: Cells, jobs: seq<Job>, levelStart: nat, levelEnd: nat, i: nat, j: nat)
    requires LevelOk(t, c, jobs, levelStart, levelEnd)
    requires i < |jobs| && j < |jobs| && i != j && !Done(jobs[i]) && !Done(jobs[j])
    ensures jobs[i].parent + 1 < |t.starts| && jobs[j].parent + 1 < |t.starts|
    ensures !Conflict(NextAccess(t, jobs[i]), NextAccess(t, jobs[j]))
  {
    var a, b := jobs[i], jobs[j];
    if i < j { CutOrdered(jobs, levelStart, levelEnd, i, j); } else { CutOrdered(jobs, levelStart, levelEnd, j, i); }
    AccessPlace(t, c, a, levelStart, levelEnd);
    AccessPlace(t, c, b, levelStart, levelEnd);
    assert t.starts[levelStart] <= t.starts[a.start];
    assert t.starts[a.end] <= t.starts[b.start] || t.starts[b.end] <= t.starts[a.start];
    ApartNoConflict(t, a, b, levelEnd);
  }

  lemma ApartNoConflict(t: Store, a: Job, b: Job, levelEnd: nat)
    requires a.parent + 1 < |t.starts| && b.parent + 1 < |t.starts| && a.start <= a.end < |t.starts|
      && b.start <= b.end < |t.starts|
    requires Placed(t, a, levelEnd) && Placed(t, b, levelEnd)
    requires levelEnd <= t.starts[a.start] + 1 && levelEnd <= t.starts[b.start] + 1
    requires t.starts[a.end] <= t.starts[b.start] || t.starts[b.end] <= t.starts[a.start]
    ensures !Conflict(NextAccess(t, a), NextAccess(t, b))
  {
  }

  // Every run ends ----------------------------------------------------------------

  function Repeat(count: nat, cost: nat): nat {
    if count == 0 then 0 else cost + Repeat(count - 1, cost)
  }

  function PcWork(nodes: nat, pc: Pc): nat {
    match pc
    case Fetch => 2 * nodes + 8
    case Probe(f) => 2 * f + 6
    case Chase(f) => 2 * f + 5
    case Store(_) => 4
    case Reread => 3
    case Relink(_) => 2
    case Finish(_) => 1
  }

  /** Steps a job may still take, at most. */
  function Work(t: Store, job: Job): nat {
    if job.end < |t.starts| && job.edge <= t.starts[job.end] && job.parent <= job.end then
      Repeat(t.starts[job.end] - job.edge, 2 * |t.heads| + 9) + (job.end - job.parent) + PcWork(|t.heads|, job.pc)
    else 0
  }

  function TotalWork(t: Store, jobs: seq<Job>): nat {
    if jobs == [] then 0 else Work(t, jobs[0]) + TotalWork(t, jobs[1..])
  }

  /** The next step is cheaper to finish from than the present one. */
  lemma PcShrinks(t: Store, c: Cells, job: Job)
    requires Fitting(t, c) && AtEdge(t, job) && PcOk(t, c, job) && JobShaped(t, c, job) && !job.pc.Finish?
    ensures PcWork(|t.heads|, JobStep(t, c, job).0.pc) < PcWork(|t.heads|, job.pc)
  {
  }

  lemma StepShrinksWork(t: Store, c: Cells, job: Job, levelEnd: nat)
    requires JobOk(t, c, job, levelEnd) && !Done(job)
    ensures JobShaped(t, c, job)
    ensures Work(t, JobStep(t, c, job).0) < Work(t, job)
  {
    JobIsShaped(t, c, job, levelEnd);
    assert t.starts[job.parent + 1] <= t.starts[job.end];
    if job.edge < t.starts[job.parent + 1] {
      EdgeAhead(t, job);
      if !job.pc.Finish? { PcShrinks(t, c, job); }
    }
  }

  lemma {:induction false} TotalWorkShrinks(t: Store, jobs: seq<Job>, j: nat, job: Job)
    requires j < |jobs| && Work(t, job) < Work(t, jobs[j])
    ensures TotalWork(t, jobs[j := job]) < TotalWork(t, jobs)
  {
    if j == 0 {
      assert jobs[0 := job][1..] == jobs[1..];
    } else {
      assert jobs[j := job][1..] == jobs[1..][j - 1 := job];
      TotalWorkShrinks(t, jobs[1..], j - 1, job);
    }
  }

  // A finished level ----------------------------------------------------------------

  ghost predicate AllDone(jobs: seq<Job>) {
    forall i | 0 <= i < |jobs| :: Done(jobs[i])
  }

  /** When all jobs are done, every node up to the end of the next level is final. */
  lemma LevelFinished(t: Store, c: Cells, jobs: seq<Job>, levelStart: nat, levelEnd: nat)
    requires LevelOk(t, c, jobs, levelStart, levelEnd) && AllDone(jobs)
    ensures levelEnd < |t.starts|
    ensures forall x: nat {:trigger Final(t, c, levelEnd, x)} | x <= t.starts[levelEnd] :: Final(t, c, levelEnd, x)
  {
    forall x: nat {:trigger Final(t, c, levelEnd, x)} | x <= t.starts[levelEnd] ensures Final(t, c, levelEnd, x) {
      if x < levelEnd {
        assert Final(t, c, levelStart, x);
      } else {
        var i := Covering(t, jobs, levelStart, levelEnd, x);
        assert JobOk(t, c, jobs[i], levelEnd) && Done(jobs[i]);
      }
    }
  }

  lemma Covering(t: Store, jobs: seq<Job>, levelStart: nat, levelEnd: nat, x: nat) returns (i: nat)
    requires Cut(jobs, levelStart, levelEnd) && levelEnd < |t.starts|
    requires forall k | 0 <= k < |jobs| :: jobs[k].end <= levelEnd
    requires t.starts[levelStart] < x <= t.starts[levelEnd]
    ensures i < |jobs| && jobs[i].start <= levelEnd && t.starts[jobs[i].start] < x <= t.starts[jobs[i].end]
  {
    i := 0;
    while t.starts[jobs[i].end] < x
      invariant i < |jobs| && jobs[i].start <= levelEnd && t.starts[jobs[i].start] < x
      decreases |jobs| - i
    {
      i := i + 1;
    }
  }

  // All runs ------------------------------------------------------------------------

  /** A run: at each turn the scheduler names the worker to advance; idle turns change nothing. */
  ghost function Execute(t: Store, c: Cells, jobs: seq<Job>, schedule: seq<nat>): (Cells, seq<Job>)
    decreases |schedule|
  {
    if schedule == [] then (c, jobs)
    else
      var j := schedule[0];
      if j < |jobs| && !Done(jobs[j]) && JobShaped(t, c, jobs[j]) then
        var (job', c') := JobStep(t, c, jobs[j]);
        Execute(t, c', jobs[j := job'], schedule[1..])
      else Execute(t, c, jobs, schedule[1..])
  }

  /** The level invariant holds after every run, whatever the schedule. */
  lemma {:induction false} EveryRunKeepsLevel(t: Store, c: Cells, jobs: seq<Job>, schedule: seq<nat>,
                                             levelStart: nat, levelEnd: nat)
    requires LevelOk(t, c, jobs, levelStart, levelEnd)
    ensures var (c', jobs') := Execute(t, c, jobs, schedule);
      LevelOk(t, c', jobs', levelStart, levelEnd) && SameOutside(t, c, c', levelStart, levelEnd)
    decreases |schedule|
  {
    if schedule == [] {
    } else {
      var j := schedule[0];
      if j < |jobs| && !Done(jobs[j]) {
        StepKeepsLevel(t, c, jobs, levelStart, levelEnd, j);
        var (job', c') := JobStep(t, c, jobs[j]);
        EveryRunKeepsLevel(t, c', jobs[j := job'], schedule[1..], levelStart, levelEnd);
      } else {
        EveryRunKeepsLevel(t, c, jobs, schedule[1..], levelStart, levelEnd);
      }
    }
  }

  /** Two complete runs of a level end with the same cells, however each cut and scheduled it. */
  lemma ScheduleIndependent(t: Store, c: Cells, jobs: seq<Job>, schedule: seq<nat>,
                            jobs': seq<Job>, schedule': seq<nat>, levelStart: nat, levelEnd: nat)
    requires LevelOk(t, c, jobs, levelStart, levelEnd)
    requires LevelOk(t, c, jobs', levelStart, levelEnd)
    requires AllDone(Execute(t, c, jobs, schedule).1) && AllDone(Execute(t, c, jobs', schedule').1)
    ensures Execute(t, c, jobs, schedule).0 == Execute(t, c, jobs', schedule').0
  {
    EveryRunKeepsLevel(t, c, jobs, schedule, levelStart, levelEnd);
    EveryRunKeepsLevel(t, c, jobs', schedule', levelStart, levelEnd);
    var (a, done) := Execute(t, c, jobs, schedule);
    var (b, done') := Execute(t, c, jobs', schedule');
    FinishedAlike(t, c, a, done, b, done', levelStart, levelEnd);
  }

  /** A finished level holds the same cells whatever jobs finished it. */
  lemma FinishedAlike(t: Store, c: Cells, a: Cells, done: seq<Job>, b: Cells, done': seq<Job>, levelStart: nat,
                      levelEnd: nat)
    requires LevelOk(t, a, done, levelStart, levelEnd) && AllDone(done) && SameOutside(t, c, a, levelStart, levelEnd)
    requires LevelOk(t, b, done', levelStart, levelEnd) && AllDone(done') && SameOutside(t, c, b, levelStart, levelEnd)
    ensures a == b
  {
    LevelFinished(t, a, done, levelStart, levelEnd);
    LevelFinished(t, b, done', levelStart, levelEnd);
    assert t.starts[levelStart] + 1 == levelEnd;
    forall x: nat | x < |c.failures| ensures a.failures[x] == b.failures[x] && a.links[x] == b.links[x] {
      if t.starts[levelStart] < x <= t.starts[levelEnd] { FinalUnique(t, a, b, levelStart, levelEnd, x); }
    }
  }

  lemma FinalUnique(t: Store, a: Cells, b: Cells, levelStart: nat, levelEnd: nat, x: nat)
    requires Final(t, a, levelEnd, x) && Final(t, b, levelEnd, x) && SameBelow(a, b, levelEnd)
    requires 1 <= levelStart < levelEnd <= |t.heads| && levelEnd == t.starts[levelStart] + 1
      && levelEnd <= x <= t.starts[levelEnd]
    ensures a.failures[x] == b.failures[x] && a.links[x] == b.links[x]
  {
    var parent := SomeOwner(t, x - 1);
    LevelNodeBelow(t, levelStart, levelEnd, x);
    assert SettledBy(t, a, parent, x - 1) && SettledBy(t, b, parent, x - 1);
    if parent != 0 { TargetFrame(t, a, b, levelEnd, parent, x - 1); }
  }
}
