/** The level-by-level builder with concurrent workers, and the compact automaton it restores. */
module LinkParallel {
  import opened Options
  import opened Patterns
  import opened Tries
  import opened TrieRows
  import opened Outputs
  import opened Renumber
  import opened LinkCells
  import opened LinkJobs
  import opened LinkLevels
  import opened LinkFold
  import opened LinkBuilder
  import opened LinkWorkers
  import opened Automata
  import Packed
  import Sparse

  /** Carries out one step of one worker on the shared arrays. */
  method StepInPlace(a: TrieArrays, failures: array<nat>, links: array<nat>, job: Job, ghost t: Store)
    returns (job': Job)
    requires Sparse.Consistent(a.terminals) && t == StoreOf(a)
    requires failures != links && JobShaped(t, Snapshot(failures, links), job) && !Done(job)
    modifies failures, links
    ensures (job', Snapshot(failures, links)) == JobStep(t, old(Snapshot(failures, links)), job)
  {
    var child := job.edge + 1;
    match job.pc {
      case Fetch =>
        if job.edge == a.starts[job.parent + 1] {
          job' := job.(parent := job.parent + 1);
        } else {
          job' := job.(pc := Probe(failures[job.parent]));
        }
      case Probe(f) =>
        var found := FindEdge(a.tokens, a.starts[f], a.starts[f + 1], a.tokens[job.edge]);
        if found.Some? {
          job' := job.(pc := Store(found.value + 1));
        } else {
          job' := job.(pc := if f == 0 then Reread else Chase(f));
        }
      case Chase(f) =>
        job' := job.(pc := Probe(failures[f]));
      case Store(target) =>
        failures[child] := target;
        job' := job.(pc := Reread);
      case Reread =>
        job' := job.(pc := Relink(failures[child]));
      case Relink(f) =>
        job' := job.(pc := Finish(if Sparse.TerminalHead(a.terminals, f) != NONE then f else links[f]));
      case Finish(link) =>
        links[child] := link;
        job' := job.(pc := Fetch, edge := child);
    }
  }

  /** A level whose nodes are final and whose children are untouched. */
  ghost predicate Untouched(t: Store, c: Cells, levelStart: nat, levelEnd: nat) {
    && LinkJobs.Ready(t, c, levelStart, levelEnd)
    && forall x: nat {:trigger Initial(c, x)} | levelEnd <= x < |t.heads| :: Initial(c, x)
  }

  function FreshJob(starts: seq<nat>, start: nat, end: nat): Job
    requires start < |starts|
  {
    Job(start, end, start, starts[start], Fetch)
  }

  lemma FreshJobOk(t: Store, c: Cells, levelStart: nat, levelEnd: nat, start: nat, end: nat)
    requires Untouched(t, c, levelStart, levelEnd) && levelStart <= start < end <= levelEnd
    ensures start < |t.starts| && JobOk(t, c, FreshJob(t.starts, start, end), levelEnd)
  {
    assert t.starts[levelStart] <= t.starts[start] <= t.starts[start + 1] <= t.starts[end] <= t.starts[|t.heads|];
    if t.starts[start] < t.starts[end] { assert Initial(c, t.starts[start] + 1); }
  }

  /** The jobs made so far cover the level up to `start`. */
  ghost predicate Covered(t: Store, c: Cells, jobs: seq<Job>, levelStart: nat, levelEnd: nat, start: nat) {
    && levelStart <= start <= levelEnd && (jobs == [] <==> start == levelStart)
    && (jobs != [] ==> Cut(jobs, levelStart, start))
    && forall i {:trigger jobs[i]} | 0 <= i < |jobs| :: JobOk(t, c, jobs[i], levelEnd)
  }

  lemma AddJob(t: Store, c: Cells, jobs: seq<Job>, levelStart: nat, levelEnd: nat, start: nat, job: Job)
    requires Covered(t, c, jobs, levelStart, levelEnd, start) && JobOk(t, c, job, levelEnd)
    requires job.start == start < job.end <= levelEnd
    ensures Covered(t, c, jobs + [job], levelStart, levelEnd, job.end)
  {
    var more := jobs + [job];
    forall i | 0 <= i < |more| ensures JobOk(t, c, more[i], levelEnd) {
      assert more[i] == if i < |jobs| then jobs[i] else job;
    }
    CutMore(jobs, levelStart, start, job);
  }

  lemma CutMore(jobs: seq<Job>, levelStart: nat, start: nat, job: Job)
    requires if jobs == [] then start == levelStart else Cut(jobs, levelStart, start)
    requires job.start == start <= job.end
    ensures Cut(jobs + [job], levelStart, job.end)
  {
  }

  /** Cuts a level into chunks, one job each. */
  method MakeJobs(starts: seq<nat>, levelStart: nat, levelEnd: nat, chunkSize: nat, ghost t: Store, ghost c: Cells)
    returns (jobs: seq<Job>)
    requires Untouched(t, c, levelStart, levelEnd) && chunkSize > 0 && starts == t.starts
    ensures LevelOk(t, c, jobs, levelStart, levelEnd)
  {
    jobs := [];
    var start := levelStart;
    while start < levelEnd
      invariant Covered(t, c, jobs, levelStart, levelEnd, if start < levelEnd then start else levelEnd)
      decreases levelEnd - start
    {
      var end := if start + chunkSize < levelEnd then start + chunkSize else levelEnd;
      FreshJobOk(t, c, levelStart, levelEnd, start, end);
      AddJob(t, c, jobs, levelStart, levelEnd, start, FreshJob(starts, start, end));
      jobs := jobs + [FreshJob(starts, start, end)];
      start := start + chunkSize;
    }
  }

  /** Runs a level's jobs to the end, the scheduler choosing any unfinished worker at each step. */
  method RunLevel(a: TrieArrays, failures: array<nat>, links: array<nat>, jobs0: seq<Job>,
                  levelStart: nat, levelEnd: nat, ghost t: Store)
    requires Sparse.Consistent(a.terminals) && t == StoreOf(a) && failures != links
    requires LevelOk(t, Snapshot(failures, links), jobs0, levelStart, levelEnd)
    modifies failures, links
    ensures SameOutside(t, old(Snapshot(failures, links)), Snapshot(failures, links), levelStart, levelEnd)
    ensures Finished(t, Snapshot(failures, links), levelEnd)
  {
    ghost var before := Snapshot(failures, links);
    var jobs := jobs0;
    while exists j :: 0 <= j < |jobs| && !Done(jobs[j])
      invariant LevelOk(t, Snapshot(failures, links), jobs, levelStart, levelEnd)
      invariant SameOutside(t, before, Snapshot(failures, links), levelStart, levelEnd)
      decreases TotalWork(t, jobs)
    {
      var j :| 0 <= j < |jobs| && !Done(jobs[j]);
      ghost var c := Snapshot(failures, links);
      StepKeepsLevel(t, c, jobs, levelStart, levelEnd, j);
      StepShrinksWork(t, c, jobs[j], levelEnd);
      var job := StepInPlace(a, failures, links, jobs[j], t);
      TotalWorkShrinks(t, jobs, j, job);
      jobs := jobs[j := job];
    }
    LevelFinished(t, Snapshot(failures, links), jobs, levelStart, levelEnd);
  }

  /** Every node up to the end of the next level is final. */
  ghost predicate Finished(t: Store, c: Cells, levelEnd: nat) {
    && Fitting(t, c) && levelEnd < |t.starts|
    && forall x: nat {:trigger Final(t, c, levelEnd, x)} | x <= t.starts[levelEnd] :: Final(t, c, levelEnd, x)
  }

  lemma LevelUnlinked(t: Store, c: Cells, levelStart: nat, levelEnd: nat)
    requires Untouched(t, c, levelStart, levelEnd)
    ensures t.starts[levelStart] <= t.starts[levelEnd] <= |t.tokens| && Unlinked(t, c, t.starts[levelStart])
  {
    assert t.starts[1] <= t.starts[levelStart] <= t.starts[levelEnd] <= t.starts[|t.heads|];
  }

  lemma LevelProgressed(t: Store, c: Cells, count: nat, levelStart: nat, levelEnd: nat)
    requires Untouched(t, c, levelStart, levelEnd) && Reached(t, count)
    ensures Progressed(t, c, count, t.starts[levelStart])
  {
    forall x: nat | x <= t.starts[levelStart] ensures Settled(t, c, x) { assert Final(t, c, levelStart, x); }
  }

  /** A sequential pass over a level finishes it as well. */
  lemma RangeFinishesLevel(t: Store, c: Cells, count: nat, levelStart: nat, levelEnd: nat)
    requires Untouched(t, c, levelStart, levelEnd) && Reached(t, count) && levelEnd <= count
    requires t.starts[1] <= t.starts[levelStart] <= t.starts[levelEnd] <= |t.tokens|
    ensures var c' := Folded(t, c, t.starts[levelStart], t.starts[levelEnd]);
      SameOutside(t, c, c', levelStart, levelEnd) && Finished(t, c', levelEnd)
  {
    var first, end := t.starts[levelStart], t.starts[levelEnd];
    LevelProgressed(t, c, count, levelStart, levelEnd);
    FoldProgresses(t, c, count, first, end);
    forall x: nat | x < |t.heads| && !(first < x <= end)
      ensures Folded(t, c, first, end).failures[x] == c.failures[x]
      ensures Folded(t, c, first, end).links[x] == c.links[x]
    {
      FoldFrame(t, c, first, end, x);
    }
    ProgressFinishes(t, c, Folded(t, c, first, end), count, levelStart, levelEnd);
  }

  lemma ProgressFinishes(t: Store, before: Cells, c: Cells, count: nat, levelStart: nat, levelEnd: nat)
    requires Untouched(t, before, levelStart, levelEnd) && levelEnd <= count
    requires Progressed(t, c, count, t.starts[levelEnd]) && SameOutside(t, before, c, levelStart, levelEnd)
    ensures Finished(t, c, levelEnd)
  {
    assert t.starts[levelEnd] <= t.starts[count];
    forall x: nat {:trigger Final(t, c, levelEnd, x)} | x <= t.starts[levelEnd] ensures Final(t, c, levelEnd, x) {
      assert Settled(t, c, x);
      if x < levelEnd {
        assert Final(t, before, levelStart, x);
      } else {
        LevelChildInLevels(t, before, c, levelStart, levelEnd, x);
      }
    }
  }

  lemma LevelChildInLevels(t: Store, before: Cells, c: Cells, levelStart: nat, levelEnd: nat, x: nat)
    requires LinkJobs.Ready(t, before, levelStart, levelEnd) && SameOutside(t, before, c, levelStart, levelEnd)
    requires Settled(t, c, x) && levelEnd <= x <= t.starts[levelEnd]
    ensures c.failures[x] < levelEnd
  {
    var edge := x - 1;
    var parent := SomeOwner(t, edge);
    LevelNodeBelow(t, levelStart, levelEnd, x);
    assert Final(t, before, levelStart, parent) && SettledBy(t, c, parent, edge);
    if parent != 0 {
      TargetBelow(t, c, parent, edge);
      assert t.starts[c.failures[parent] + 1] <= t.starts[levelStart];
    }
  }

  /** One turn of the level loop, sequential for small levels and concurrent otherwise. */
  method BuildLevel(a: TrieArrays, rootNext: seq<nat>, failures: array<nat>, links: array<nat>, workerCount: nat,
                    levelStart: nat, levelEnd: nat, ghost t: Store, ghost count: nat)
    requires Describes(a, t, rootNext) && failures != links && workerCount > 0
    requires Untouched(t, Snapshot(failures, links), levelStart, levelEnd) && Reached(t, count) && levelEnd <= count
    modifies failures, links
    ensures SameOutside(t, old(Snapshot(failures, links)), Snapshot(failures, links), levelStart, levelEnd)
    ensures Finished(t, Snapshot(failures, links), levelEnd)
  {
    ghost var c := Snapshot(failures, links);
    var parentCount := levelEnd - levelStart;
    var levelWorkers := if workerCount < parentCount then workerCount else parentCount;
    var edgeCount := a.starts[levelEnd] - a.starts[levelStart];
    if levelWorkers == 1 || edgeCount < MINIMUM_PARALLEL_EDGES {
      LevelUnlinked(t, c, levelStart, levelEnd);
      BuildFailureLinkRange(a, rootNext, failures, links, levelStart, levelEnd, t);
      RangeFinishesLevel(t, c, count, levelStart, levelEnd);
    } else {
      var chunkSize := (parentCount + levelWorkers - 1) / levelWorkers;
      assert chunkSize > 0 by { ChunkPositive(parentCount, levelWorkers); }
      var jobs := MakeJobs(a.starts, levelStart, levelEnd, chunkSize, t, c);
      RunLevel(a, failures, links, jobs, levelStart, levelEnd, t);
    }
  }

  lemma ChunkPositive(parents: nat, workers: nat)
    requires 0 < workers <= parents
    ensures (parents + workers - 1) / workers > 0
  {
    var sum := parents + workers - 1;
    assert sum == workers * (sum / workers) + sum % workers;
  }

  /** Between two levels: all nodes before `levelEnd` are final and all others untouched; the last level is empty. */
  ghost predicate BetweenLevels(t: Store, c: Cells, count: nat, levelStart: nat, levelEnd: nat) {
    && Fitting(t, c) && Reached(t, count) && 1 <= levelStart <= levelEnd <= count
    && levelEnd == t.starts[levelStart] + 1
    && (forall x: nat {:trigger Final(t, c, levelStart, x)} | x < levelEnd :: Final(t, c, levelStart, x))
    && forall x: nat {:trigger Initial(c, x)} | levelEnd <= x < |t.heads| :: Initial(c, x)
  }

  lemma NextLevelReady(t: Store, before: Cells, c: Cells, count: nat, levelStart: nat, levelEnd: nat)
    requires BetweenLevels(t, before, count, levelStart, levelEnd) && levelStart < levelEnd
    requires SameOutside(t, before, c, levelStart, levelEnd) && Finished(t, c, levelEnd)
    ensures BetweenLevels(t, c, count, levelEnd, t.starts[levelEnd] + 1)
  {
    assert t.starts[levelStart] <= t.starts[levelEnd] <= t.starts[count];
    forall x: nat {:trigger Initial(c, x)} | t.starts[levelEnd] < x < |t.heads| ensures Initial(c, x) {
      assert Initial(before, x);
    }
  }

  /** The root and its children start with their final cells. */
  lemma FirstCells(t: Store, c: Cells, count: nat)
    requires Flat(t) && c == Blank(t) && Reached(t, count)
    ensures BetweenLevels(t, c, count, 1, t.starts[1] + 1)
  {
    BlankProgressed(t, count);
    assert t.starts[1] <= t.starts[count];
    forall x: nat {:trigger Final(t, c, 1, x)} | x <= t.starts[1] ensures Final(t, c, 1, x) {
      assert Settled(t, c, x);
    }
  }

  lemma LastLevel(t: Store, c: Cells, count: nat, levelStart: nat, levelEnd: nat)
    requires BetweenLevels(t, c, count, levelStart, levelEnd) && levelStart == levelEnd
    ensures AllLevels(t, c, count)
  {
    forall x: nat | x < count ensures Settled(t, c, x) { assert Final(t, c, levelStart, x); }
  }

  method PassLevel(a: TrieArrays, rootNext: seq<nat>, failures: array<nat>, links: array<nat>, workerCount: nat,
                   levelStart: nat, levelEnd: nat, ghost t: Store, ghost count: nat)
    returns (nextStart: nat, nextEnd: nat)
    requires Describes(a, t, rootNext) && failures != links && workerCount > 0 && levelStart < levelEnd
    requires BetweenLevels(t, Snapshot(failures, links), count, levelStart, levelEnd)
    modifies failures, links
    ensures nextStart == levelEnd && BetweenLevels(t, Snapshot(failures, links), count, nextStart, nextEnd)
  {
    ghost var before := Snapshot(failures, links);
    BuildLevel(a, rootNext, failures, links, workerCount, levelStart, levelEnd, t, count);
    NextLevelReady(t, before, Snapshot(failures, links), count, levelStart, levelEnd);
    nextStart, nextEnd := a.starts[levelStart] + 1, a.starts[levelEnd] + 1;
  }

  /** All levels, for any number of workers. */
  method BuildLevels(a: TrieArrays, rootNext: seq<nat>, failures: array<nat>, links: array<nat>, workerCount: nat,
                     ghost t: Store, ghost count: nat)
    requires Describes(a, t, rootNext) && failures != links && workerCount > 0
    requires Snapshot(failures, links) == Blank(t) && Reached(t, count)
    modifies failures, links
    ensures AllLevels(t, Snapshot(failures, links), count)
  {
    var levelStart: nat, levelEnd: nat := 1, a.starts[1] + 1;
    FirstCells(t, Snapshot(failures, links), count);
    while levelStart < levelEnd
      invariant BetweenLevels(t, Snapshot(failures, links), count, levelStart, levelEnd)
      decreases |t.heads| - levelStart
    {
      levelStart, levelEnd := PassLevel(a, rootNext, failures, links, workerCount, levelStart, levelEnd, t, count);
    }
    LastLevel(t, Snapshot(failures, links), count, levelStart, levelEnd);
  }

  // Any arrays ----------------------------------------------------------------------------------------

  predicate Consistent(starts: seq<nat>, tokens: seq<nat>, terminals: Sparse.SparseOutputs) {
    terminals.length != 0 && |starts| == terminals.length + 1 && |tokens| == terminals.length - 1
  }

  /** What the readers leave of any stream: offsets rise to the last edge, and tokens rise along each node's edges. */
  ghost predicate Loadable(a: TrieArrays) {
    Sparse.Consistent(a.terminals) && Flat(StoreOf(a)) && RisingEdges(StoreOf(a)) && RootReady(a.tokens, a.starts[1])
  }

  function WorkerCount(gomaxprocs: nat, nodeCount: nat): nat {
    if gomaxprocs < nodeCount then gomaxprocs else nodeCount
  }

  /** Builds output links, and failures in place, from stored arrays; rejects arrays of inconsistent lengths. */
  method BuildFailureLinksInto(a: TrieArrays, failures: array<nat>, gomaxprocs: nat)
    returns (r: Result<seq<nat>, string>)
    requires a.terminals.length == failures.Length && gomaxprocs > 0
    requires Consistent(a.starts, a.tokens, a.terminals) ==> Loadable(a)
    requires forall x | 0 <= x < failures.Length :: failures[x] == 0
    modifies failures
    ensures r.Ok? <==> Consistent(a.starts, a.tokens, a.terminals)
    ensures r.Ok? ==> Rebuilt(StoreOf(a), Cells(failures[..], r.value), WorkerCount(gomaxprocs, failures.Length))
  {
    var nodeCount := a.terminals.length;
    if nodeCount == 0 || |a.starts| != nodeCount + 1 || |a.tokens| != nodeCount - 1 {
      return Err("inconsistent trie arrays");
    }
    var links := new nat[nodeCount](_ => NONE);
    var rootNext := BuildRootTable(a.starts[1], a.tokens);
    assert Snapshot(failures, links) == Blank(StoreOf(a));
    LinkAll(a, rootNext, failures, links, WorkerCount(gomaxprocs, nodeCount), StoreOf(a));
    r := Ok(links[..]);
  }

  /** One worker takes all nodes as a single range; several go level by level. */
  method LinkAll(a: TrieArrays, rootNext: seq<nat>, failures: array<nat>, links: array<nat>, workerCount: nat,
                 ghost t: Store)
    requires Describes(a, t, rootNext) && failures != links && workerCount > 0
    requires Snapshot(failures, links) == Blank(t)
    modifies failures, links
    ensures Rebuilt(t, Snapshot(failures, links), workerCount)
  {
    ghost var count := SomeReached(t);
    if workerCount == 1 {
      OwnEdges(t, 0);
      BuildFailureLinkRange(a, rootNext, failures, links, 1, a.terminals.length, t);
      OneWorkerRebuilds(t, count);
    } else {
      BuildLevels(a, rootNext, failures, links, workerCount, t, count);
      SeveralRebuild(t, Snapshot(failures, links), count, workerCount);
    }
  }

  // The compact automaton --------------------------------------------------------------------------------

  /** The arrays are those of the trie `sh` of the patterns `ps`. */
  ghost predicate OfPatterns(a: TrieArrays, next: seq<nat>, ps: seq<Pattern>, sh: Shape) {
    && Sparse.Consistent(a.terminals) && TrieOk(Implicit(a.starts, a.tokens), sh) && TokensBounded(a.starts, a.tokens)
    && Terminated(sh, HeadsOf(a.terminals)) && HeadsOk(ps, sh.spell, HeadsOf(a.terminals), next)
    && WordsOk(ps, sh.spell)
  }

  lemma HeadsStay(a: TrieArrays, dense: seq<Sparse.Entry>)
    requires Sparse.Holds(a.terminals, dense)
    ensures Sparse.Heads(dense) == HeadsOf(a.terminals)
  {
    forall v: nat | v < |dense| ensures dense[v].head == Sparse.TerminalHead(a.terminals, v) {
      assert Sparse.Get(a.terminals, v) == dense[v];
    }
  }

  /** An automaton whose links are rebuilt is searchable when its arrays are a trie of patterns. */
  lemma RebuiltSearches(a: TrieArrays, c: Cells, workers: nat, outputs: Sparse.SparseOutputs, next: seq<nat>,
                        ps: seq<Pattern>, sh: Shape)
    requires OfPatterns(a, next, ps, sh) && Rebuilt(StoreOf(a), c, workers)
    requires Sparse.Holds(outputs, Sparse.Zip(c.links, HeadsOf(a.terminals)))
    ensures Searchable(ps, sh, c.links, HeadsOf(a.terminals), a.starts, a.tokens, c.failures, outputs, next)
  {
    RebuiltTrie(StoreOf(a), c, workers, sh);
  }

  /** What the fields of any restored automaton are. */
  ghost predicate RestoredArrays(a: TrieArrays, starts: seq<nat>, tokens: seq<nat>, failures: seq<nat>, links: seq<nat>,
                                 heads: seq<nat>, outputs: Sparse.SparseOutputs, workers: nat) {
    && Loadable(a) && starts == a.starts && tokens == a.tokens && heads == HeadsOf(a.terminals)
    && Rebuilt(StoreOf(a), Cells(failures, links), workers) && Sparse.Holds(outputs, Sparse.Zip(links, heads))
  }

  ghost predicate Holding(r: Automaton, a: TrieArrays, workers: nat)
    reads r
  {
    && RestoredArrays(a, r.Starts(), r.Tokens(), r.Failures(), r.links, r.heads, r.outputs, workers)
    && RootTableFor(a.tokens, a.starts[1], r.rootNext)
  }

  /** An automaton that stores offsets and failures once, in plain or in packed form. */
  ghost predicate StoredOnce(r: Automaton)
    reads r
  {
    (|r.packedStarts| / 3 != 0 ==> r.edgeStarts == []) && (r.failures24 != [] ==> r.failures == [])
  }

  lemma RestoredIsLinked(r: Automaton, a: TrieArrays, workers: nat)
    requires RestoredArrays(a, r.Starts(), r.Tokens(), r.Failures(), r.links, r.heads, r.outputs, workers)
    requires OfPatterns(a, r.outputNext, r.patterns, r.shape) && StoredOnce(r)
    ensures r.Linked()
  {
    RebuiltSearches(a, Cells(r.Failures(), r.links), workers, r.outputs, r.outputNext, r.patterns, r.shape);
  }

  lemma LoadableIsReady(a: TrieArrays)
    requires Loadable(a)
    ensures |a.starts| >= 2 && RootReady(a.tokens, a.starts[1])
  {
  }

  /** A restored automaton can be searched when its arrays are a trie of patterns. */
  lemma HoldingIsValid(r: Automaton, a: TrieArrays, workers: nat)
    requires Holding(r, a, workers) && StoredOnce(r)
    ensures OfPatterns(a, r.outputNext, r.patterns, r.shape) ==> r.Valid()
  {
    if OfPatterns(a, r.outputNext, r.patterns, r.shape) {
      RestoredIsLinked(r, a, workers);
    }
  }

  method NewCompact(edgeStarts: seq<Packed.byte>, tokens: seq<nat>, failures24: seq<Packed.byte>,
                    outputs: Sparse.SparseOutputs,
                    outputNext: seq<nat>, ghost starts: seq<nat>, ghost failures: seq<nat>, ghost links: seq<nat>,
                    ghost heads: seq<nat>, ghost ps: seq<Pattern>, ghost sh: Shape)
    returns (automaton: Automaton)
    requires starts == Packed.Values(edgeStarts) && failures == Packed.Values(failures24) && failures24 != []
      && |starts| >= 2
    ensures fresh(automaton) && automaton.patterns == ps && automaton.shape == sh
    ensures automaton.packedStarts == edgeStarts && automaton.edgeTokens16 == tokens
      && automaton.outputNext == outputNext
    ensures automaton.links == links && automaton.heads == heads && automaton.outputs == outputs
      && StoredOnce(automaton)
    ensures automaton.Starts() == starts && automaton.Tokens() == tokens && automaton.Failures() == failures
  {
    automaton := new Automaton([], edgeStarts, [], tokens, [], failures24, outputs, outputNext, ps, sh, links, heads);
  }

  /** Adds the root table to restored arrays. */
  method AddTable(automaton: Automaton, ghost starts: seq<nat>, ghost tokens: seq<nat>, ghost failures: seq<nat>)
    requires automaton.Starts() == starts && automaton.Tokens() == tokens && automaton.Failures() == failures
    requires |starts| >= 2 && RootReady(tokens, starts[1])
    modifies automaton`rootNext
    ensures automaton.Starts() == starts && automaton.Tokens() == tokens && automaton.Failures() == failures
    ensures RootTableFor(tokens, starts[1], automaton.rootNext)
  {
    automaton.RootTable();
  }

  method AssembleCompact(edgeStarts: seq<Packed.byte>, tokens: seq<nat>, failures24: seq<Packed.byte>,
                         outputs: Sparse.SparseOutputs, outputNext: seq<nat>, ghost a: TrieArrays, ghost c: Cells,
                         ghost heads: seq<nat>, ghost workers: nat, ghost ps: seq<Pattern>, ghost sh: Shape)
    returns (automaton: Automaton)
    requires a.starts == Packed.Values(edgeStarts)
    requires failures24 != [] && Packed.Values(failures24) == c.failures
    requires RestoredArrays(a, a.starts, tokens, c.failures, c.links, heads, outputs, workers)
    ensures fresh(automaton) && automaton.patterns == ps && automaton.shape == sh
    ensures automaton.packedStarts == edgeStarts && automaton.edgeTokens16 == tokens
      && automaton.outputNext == outputNext
    ensures Holding(automaton, a, workers)
    ensures OfPatterns(a, outputNext, ps, sh) ==> automaton.Valid()
  {
    LoadableIsReady(a);
    automaton :=
      NewCompact(edgeStarts, tokens, failures24, outputs, outputNext, a.starts, c.failures, c.links, heads, ps, sh);
    AddTable(automaton, a.starts, tokens, c.failures);
    HoldingIsValid(automaton, a, workers);
  }

  /** An automaton on packed arrays with links derived afresh; a valid one when the arrays are a trie of patterns. */
  method RestoreCompact(edgeStarts: seq<Packed.byte>, tokens: seq<nat>, terminals: Sparse.SparseOutputs,
                        outputNext: seq<nat>,
                        gomaxprocs: nat, ghost dense: seq<Sparse.Entry>, ghost ps: seq<Pattern>, ghost sh: Shape)
    returns (r: Result<Automaton, string>)
    requires gomaxprocs > 0 && terminals.length < Packed.LIMIT24 && Sparse.Holds(terminals, dense)
    requires Consistent(Packed.Values(edgeStarts), tokens, terminals) ==>
               Loadable(TrieArrays(Packed.Values(edgeStarts), tokens, terminals))
    ensures r.Ok? <==> Consistent(Packed.Values(edgeStarts), tokens, terminals)
    ensures r.Ok? ==> fresh(r.value) && r.value.patterns == ps && r.value.shape == sh
    ensures r.Ok? ==>
      r.value.packedStarts == edgeStarts && r.value.edgeTokens16 == tokens && r.value.outputNext == outputNext
    ensures r.Ok? ==> Holding(r.value, TrieArrays(Packed.Values(edgeStarts), tokens, terminals),
                              WorkerCount(gomaxprocs, terminals.length))
    ensures r.Ok? && OfPatterns(TrieArrays(Packed.Values(edgeStarts), tokens, terminals), outputNext, ps, sh)
      ==> r.value.Valid()
  {
    var failures := new nat[terminals.length](_ => 0);
    var starts := Packed.Dense(edgeStarts);
    var a := TrieArrays(starts, tokens, terminals);
    var links := BuildFailureLinksInto(a, failures, gomaxprocs);
    if links.Err? {
      return Err(links.error);
    }
    var packed := Packed.PackUint24(failures[..]);
    HeadsStay(a, dense);
    var outputs := Sparse.WithOutputLinks(terminals, links.value, dense);
    var automaton :=
      AssembleCompact(edgeStarts, tokens, packed, outputs, outputNext, a, Cells(failures[..], links.value),
                                     HeadsOf(terminals), WorkerCount(gomaxprocs, terminals.length), ps, sh);
    r := Ok(automaton);
  }
}
