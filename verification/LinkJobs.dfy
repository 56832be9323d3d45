/**
 * Workers that fill in failure and output links of one level at the same time. A job owns a range
 * of parents; each step of a job makes at most one access to the shared cells, and steps of
 * different jobs may interleave in any way.
 */
module LinkJobs {
  import opened Options
  import opened Patterns
  import opened Tries
  import opened LinkCells

  /** What a job is about to do. */
  datatype Pc =
    | Fetch                  // read the parent's failure, or move to the next parent
    | Probe(failure: nat)    // look for an edge at a failure node
    | Chase(failure: nat)    // read that node's own failure
    | Store(target: nat)     // write the child's failure
    | Reread                 // read the child's failure back
    | Relink(failure: nat)   // take the failure node itself, or read its link
    | Finish(link: nat)      // write the child's link

  datatype Job = Job(start: nat, end: nat, parent: nat, edge: nat, pc: Pc)

  predicate JobShaped(t: Store, c: Cells, job: Job) {
    && |t.starts| == |t.heads| + 1 && |c.failures| == |c.links| == |t.heads|
    && job.parent <= job.end < |t.starts| && job.edge <= |t.tokens| < |t.heads|
    && (job.parent < job.end ==> job.edge <= t.starts[job.parent + 1] <= |t.tokens|)
    && (job.pc != Fetch ==> job.parent < job.end && job.edge < t.starts[job.parent + 1])
    && match job.pc
       case Probe(f) => f < |t.heads| && t.starts[f + 1] <= |t.tokens|
       case Chase(f) => f < |t.heads|
       case Relink(f) => f < |t.heads|
       case _ => true
  }

  predicate Done(job: Job) {
    job.parent == job.end
  }

  /** One step of a job that is not done. */
  function JobStep(t: Store, c: Cells, job: Job): (Job, Cells)
    requires JobShaped(t, c, job) && !Done(job)
  {
    var child := job.edge + 1;
    match job.pc
    case Fetch =>
      if job.edge == t.starts[job.parent + 1] then (job.(parent := job.parent + 1), c)
      else (job.(pc := Probe(c.failures[job.parent])), c)
    case Probe(f) =>
      (match FindEdge(t.tokens, t.starts[f], t.starts[f + 1], t.tokens[job.edge])
       case Some(e) => (job.(pc := Store(e + 1)), c)
       case None => (job.(pc := if f == 0 then Reread else Chase(f)), c))
    case Chase(f) => (job.(pc := Probe(c.failures[f])), c)
    case Store(target) => (job.(pc := Reread), c.(failures := c.failures[child := target]))
    case Reread => (job.(pc := Relink(c.failures[child])), c)
    case Relink(f) => (job.(pc := Finish(if t.heads[f] != NONE then f else c.links[f])), c)
    case Finish(link) => (job.(pc := Fetch, edge := child), c.(links := c.links[child := link]))
  }

  // What each job may rely on ----------------------------------------------------

  /** A settled node whose failure lies in an earlier level. */
  ghost predicate Final(t: Store, c: Cells, bound: nat, x: nat) {
    Settled(t, c, x) && c.failures[x] < bound
  }

  /** Nodes `levelStart..levelEnd` are a level: all nodes up to its end are final, with failures before it. */
  ghost predicate Ready(t: Store, c: Cells, levelStart: nat, levelEnd: nat) {
    && Fitting(t, c) && 1 <= levelStart < levelEnd <= |t.heads| && levelEnd == t.starts[levelStart] + 1
    && forall x: nat {:trigger Final(t, c, levelStart, x)} | x < levelEnd :: Final(t, c, levelStart, x)
  }

  /** The job is at an edge of its current parent. */
  ghost predicate AtEdge(t: Store, job: Job) {
    Flat(t) && 1 <= job.parent < job.end <= |t.heads| && Owns(t.starts, job.parent, job.edge) && job.edge < |t.tokens|
  }

  /** What remains to be searched from `f` finds what the child's failure is. */
  ghost predicate Searching(t: Store, c: Cells, job: Job, f: nat)
    requires Fitting(t, c) && AtEdge(t, job)
  {
    && f < |t.heads| && (f == 0 || f < job.parent)
    && Walk(t, c.failures, f, t.tokens[job.edge]) == Walk(t, c.failures, c.failures[job.parent], t.tokens[job.edge])
  }

  /** The local state of a job agrees with its own child's cells and with the finished levels. */
  ghost predicate PcOk(t: Store, c: Cells, job: Job)
    requires Fitting(t, c) && AtEdge(t, job)
  {
    var child := job.edge + 1;
    match job.pc
    case Fetch => Initial(c, child)
    case Probe(f) => Initial(c, child) && Searching(t, c, job, f)
    case Chase(f) => Initial(c, child) && Searching(t, c, job, f) && f != 0 && EdgeOf(t, f, t.tokens[job.edge]) == None
    case Store(target) => Initial(c, child) && target == Target(t, c, job.parent, job.edge)
    case Reread => c.failures[child] == Target(t, c, job.parent, job.edge)
    case Relink(f) => c.failures[child] == f == Target(t, c, job.parent, job.edge)
    case Finish(l) =>
      c.failures[child] == Target(t, c, job.parent, job.edge) && l == LinkFor(t, c, Target(t, c, job.parent, job.edge))
  }

  /** A job in the level: its finished children are final and the rest untouched. */
  ghost predicate JobOk(t: Store, c: Cells, job: Job, levelEnd: nat) {
    && Fitting(t, c) && 1 <= job.start <= job.parent <= job.end <= levelEnd <= |t.heads|
    && t.starts[job.parent] <= job.edge
    && (if job.parent < job.end then job.edge <= t.starts[job.parent + 1]
        else job.edge == t.starts[job.end] && job.pc == Fetch)
    && (forall x: nat {:trigger Final(t, c, levelEnd, x)} | t.starts[job.start] < x <= job.edge ::
        Final(t, c, levelEnd, x))
    && (forall x: nat {:trigger Initial(c, x)} | job.edge + 1 < x <= t.starts[job.end] :: Initial(c, x))
    && (AtEdge(t, job) ==> PcOk(t, c, job))
    && (job.parent < job.end && job.edge == t.starts[job.parent + 1] ==>
          job.pc == Fetch && (job.edge < t.starts[job.end] ==> Initial(c, job.edge + 1)))
  }

  lemma EdgeAhead(t: Store, job: Job)
    requires Flat(t) && 1 <= job.parent < job.end <= |t.heads|
      && t.starts[job.parent] <= job.edge < t.starts[job.parent + 1]
    ensures AtEdge(t, job) && job.edge + 1 < |t.heads|
  {
    OwnEdges(t, job.parent);
  }

  lemma JobIsShaped(t: Store, c: Cells, job: Job, levelEnd: nat)
    requires JobOk(t, c, job, levelEnd)
    ensures JobShaped(t, c, job)
  {
    assert t.starts[job.parent] <= t.starts[job.end] <= t.starts[|t.heads|];
    if job.parent < job.end {
      OwnEdges(t, job.parent);
      if job.edge < t.starts[job.parent + 1] { EdgeAhead(t, job); }
    }
    if job.pc.Probe? { OwnEdges(t, job.pc.failure); }
  }

  /** Children made by a level's parents lie past the level's end. */
  lemma ChildPastLevel(t: Store, levelStart: nat, levelEnd: nat, job: Job)
    requires AtEdge(t, job) && levelStart <= job.parent && levelEnd == t.starts[levelStart] + 1
    ensures levelEnd <= job.edge + 1 < |t.heads|
  {
    assert t.starts[levelStart] <= t.starts[job.parent];
  }

  /** A level's children have their failures before the level's end. */
  lemma TargetInLevels(t: Store, c: Cells, levelStart: nat, levelEnd: nat, job: Job)
    requires Ready(t, c, levelStart, levelEnd) && AtEdge(t, job) && job.parent < levelEnd
    ensures c.failures[job.parent] < levelStart && Target(t, c, job.parent, job.edge) < levelEnd
  {
    assert Final(t, c, levelStart, job.parent);
    TargetBelow(t, c, job.parent, job.edge);
    assert t.starts[c.failures[job.parent] + 1] <= t.starts[levelStart];
  }

  /** The job's own step leaves it in order. */
  lemma StepKeepsJob(t: Store, c: Cells, job: Job, levelStart: nat, levelEnd: nat)
    requires Ready(t, c, levelStart, levelEnd) && JobOk(t, c, job, levelEnd)
    requires levelStart <= job.start && !Done(job)
    ensures JobShaped(t, c, job)
    ensures JobOk(t, JobStep(t, c, job).1, JobStep(t, c, job).0, levelEnd)
  {
    JobIsShaped(t, c, job, levelEnd);
    if job.edge == t.starts[job.parent + 1] {
      MoveOn(t, c, job, levelEnd);
    } else {
      EdgeAhead(t, job);
      JobActs(t, c, job, levelStart, levelEnd);
    }
  }

  lemma JobActs(t: Store, c: Cells, job: Job, levelStart: nat, levelEnd: nat)
    requires Ready(t, c, levelStart, levelEnd) && JobOk(t, c, job, levelEnd) && JobShaped(t, c, job)
    requires levelStart <= job.start && AtEdge(t, job)
    ensures JobOk(t, JobStep(t, c, job).1, JobStep(t, c, job).0, levelEnd)
  {
    if job.pc.Store? {
      StoreStep(t, c, job, levelStart, levelEnd);
    } else if job.pc.Finish? {
      FinishStep(t, c, job, levelStart, levelEnd);
    } else {
      ReadingStep(t, c, job);
      NewPc(t, c, job, JobStep(t, c, job).0.pc, levelEnd);
    }
  }

  /** Steps that write no cell only change what the job does next. */
  lemma ReadingStep(t: Store, c: Cells, job: Job)
    requires Fitting(t, c) && AtEdge(t, job) && PcOk(t, c, job) && JobShaped(t, c, job)
    requires !job.pc.Store? && !job.pc.Finish?
    ensures var (job', c') := JobStep(t, c, job); c' == c && job' == job.(pc := job'.pc) && PcOk(t, c, job')
  {
    match job.pc
    case Probe(f) => ProbeStep(t, c, job, f);
    case _ =>
  }

  lemma ProbeStep(t: Store, c: Cells, job: Job, f: nat)
    requires Fitting(t, c) && AtEdge(t, job) && Searching(t, c, job, f)
    ensures t.starts[f + 1] <= |t.tokens|
    ensures match FindEdge(t.tokens, t.starts[f], t.starts[f + 1], t.tokens[job.edge])
      case Some(e) => Target(t, c, job.parent, job.edge) == e + 1
      case None => if f == 0 then Target(t, c, job.parent, job.edge) == 0 else EdgeOf(t, f, t.tokens[job.edge]) == None
  {
    OwnEdges(t, f);
  }

  lemma NewPc(t: Store, c: Cells, job: Job, pc: Pc, levelEnd: nat)
    requires JobOk(t, c, job, levelEnd) && AtEdge(t, job) && PcOk(t, c, job.(pc := pc))
    ensures JobOk(t, c, job.(pc := pc), levelEnd)
  {
  }

  /** Writing one cell past what a target is made from does not change the target. */
  lemma TargetKept(t: Store, c: Cells, c': Cells, child: nat, parent: nat, edge: nat)
    requires Fitting(t, c) && Fitting(t, c') && OnlyCell(c, c', child) && parent < child
    requires Owns(t.starts, parent, edge) && edge < |t.tokens|
    ensures Target(t, c', parent, edge) == Target(t, c, parent, edge)
  {
    TargetFrame(t, c, c', child, parent, edge);
  }

  lemma StoreStep(t: Store, c: Cells, job: Job, levelStart: nat, levelEnd: nat)
    requires Ready(t, c, levelStart, levelEnd) && JobOk(t, c, job, levelEnd) && JobShaped(t, c, job)
    requires levelStart <= job.start && AtEdge(t, job) && job.pc.Store?
    ensures JobOk(t, JobStep(t, c, job).1, JobStep(t, c, job).0, levelEnd)
  {
    var child := job.edge + 1;
    var c' := c.(failures := c.failures[child := job.pc.target]);
    ChildPastLevel(t, levelStart, levelEnd, job);
    TargetBelow(t, c, job.parent, job.edge);
    KeepOthers(t, c, c', child, levelEnd);
    TargetKept(t, c, c', child, job.parent, job.edge);
  }

  lemma FinishStep(t: Store, c: Cells, job: Job, levelStart: nat, levelEnd: nat)
    requires Ready(t, c, levelStart, levelEnd) && JobOk(t, c, job, levelEnd) && JobShaped(t, c, job)
    requires levelStart <= job.start && AtEdge(t, job) && job.pc.Finish?
    ensures JobOk(t, JobStep(t, c, job).1, JobStep(t, c, job).0, levelEnd)
  {
    var child := job.edge + 1;
    var c' := c.(links := c.links[child := job.pc.link]);
    ChildPastLevel(t, levelStart, levelEnd, job);
    FinishedChild(t, c, c', job, levelStart, levelEnd);
    KeepOthers(t, c, c', child, levelEnd);
    assert t.starts[job.parent + 1] <= t.starts[job.end] <= t.starts[|t.heads|];
  }

  lemma FinishedChild(t: Store, c: Cells, c': Cells, job: Job, levelStart: nat, levelEnd: nat)
    requires Ready(t, c, levelStart, levelEnd) && AtEdge(t, job) && PcOk(t, c, job) && job.pc.Finish?
    requires levelStart <= job.parent < levelEnd <= job.edge + 1 < |t.heads|
    requires c' == c.(links := c.links[job.edge + 1 := job.pc.link])
    ensures Fitting(t, c') && Final(t, c', levelEnd, job.edge + 1)
  {
    TargetInLevels(t, c, levelStart, levelEnd, job);
    TargetKept(t, c, c', job.edge + 1, job.parent, job.edge);
    forall parent: nat, edge: nat | job.edge + 1 == edge + 1 && Owns(t.starts, parent, edge)
      ensures SettledBy(t, c', parent, edge) {
      OneOwner(t, job.parent, parent, edge);
    }
  }

  lemma MoveOn(t: Store, c: Cells, job: Job, levelEnd: nat)
    requires JobOk(t, c, job, levelEnd) && !Done(job) && job.edge == t.starts[job.parent + 1]
    ensures JobOk(t, c, job.(parent := job.parent + 1), levelEnd)
  {
    assert t.starts[job.parent + 1] <= t.starts[job.end];
    if job.parent + 1 < job.end { assert t.starts[job.parent + 1] <= t.starts[job.parent + 2] <= t.starts[job.end]; }
  }

  ghost predicate OnlyCell(c: Cells, c': Cells, child: nat) {
    && |c'.failures| == |c.failures| && |c'.links| == |c.links| && |c.failures| == |c.links|
    && forall x: nat | x < |c.failures| && x != child :: c'.failures[x] == c.failures[x] && c'.links[x] == c.links[x]
  }

  /** Cells other than the written child's keep their standing, when the child lies past the level. */
  lemma KeepOthers(t: Store, c: Cells, c': Cells, child: nat, levelEnd: nat)
    requires Fitting(t, c') && OnlyCell(c, c', child) && levelEnd <= child && Flat(t) && levelEnd <= |t.heads|
    ensures forall x: nat {:trigger Final(t, c', levelEnd, x)} | x != child && Final(t, c, levelEnd, x)
      && Below(t, x, levelEnd) :: Final(t, c', levelEnd, x)
    ensures forall x: nat {:trigger Initial(c', x)} | x != child && Initial(c, x) :: Initial(c', x)
  {
    forall x: nat | x != child && Final(t, c, levelEnd, x) && Below(t, x, levelEnd) ensures Final(t, c', levelEnd, x) {
      SettledFrame(t, c, c', levelEnd, x);
    }
  }

  /** The node's parent comes before the bound. */
  ghost predicate Below(t: Store, x: nat, bound: nat) {
    forall parent: nat, edge: nat {:trigger Owns(t.starts, parent, edge)} | x == edge + 1
      && Owns(t.starts, parent, edge) :: parent < bound
  }
}
