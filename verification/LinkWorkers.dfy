/** What rebuilding the links of any stored arrays leads to, and when the number of workers shows in it. */
module LinkWorkers {
  import opened Options
  import opened Patterns
  import opened Tries
  import opened LinkCells
  import opened LinkFold
  import opened LinkTries

  /** Cells before anything is linked. */
  ghost function Blank(t: Store): Cells
    requires Flat(t)
  {
    Cells(seq(|t.heads|, _ => 0), seq(|t.heads|, _ => NONE))
  }

  /** One worker links all children below the root's in the order of their edges, reachable or not. */
  ghost function InOneRange(t: Store): (c: Cells)
    requires Flat(t)
    ensures Fitting(t, c)
  {
    OwnEdges(t, 0);
    Folded(t, Blank(t), t.starts[1], |t.tokens|)
  }

  /** The reachable nodes are settled and the others untouched. */
  ghost predicate AllLevels(t: Store, c: Cells, count: nat) {
    && Fitting(t, c) && Reached(t, count)
    && (forall x: nat {:trigger Settled(t, c, x)} | x < count :: Settled(t, c, x))
    && forall x: nat {:trigger Initial(c, x)} | count <= x < |t.heads| :: Initial(c, x)
  }

  /**
   * What the builder leaves: with one worker the cells of all children in the order of their edges, with several the
   * settled cells of the reachable nodes and nothing beyond. Either way nothing is left open.
   */
  ghost predicate Rebuilt(t: Store, c: Cells, workerCount: nat) {
    && Fitting(t, c)
    && (workerCount <= 1 ==> c == InOneRange(t))
    && (workerCount > 1 ==> forall count: nat | Reached(t, count) :: AllLevels(t, c, count))
  }

  lemma ReachedOnce(t: Store, count: nat, other: nat)
    requires Reached(t, count) && Reached(t, other)
    ensures count == other
  {
  }

  /** The root and its children start with their final cells. */
  lemma BlankProgressed(t: Store, count: nat)
    requires Reached(t, count)
    ensures Progressed(t, Blank(t), count, t.starts[1])
  {
    var c := Blank(t);
    forall x: nat {:trigger Settled(t, c, x)} | x <= t.starts[1] && x < count ensures Settled(t, c, x) {
      forall parent: nat, edge: nat | x == edge + 1 && Owns(t.starts, parent, edge)
        ensures SettledBy(t, c, parent, edge) {
        assert Owns(t.starts, 0, edge);
        OneOwner(t, 0, parent, edge);
      }
    }
  }

  lemma OneWorkerRebuilds(t: Store, count: nat)
    requires Reached(t, count)
    ensures Rebuilt(t, InOneRange(t), 1)
    ensures forall x: nat {:trigger Settled(t, InOneRange(t), x)} | x < count :: Settled(t, InOneRange(t), x)
  {
    OwnEdges(t, 0);
    BlankProgressed(t, count);
    FoldProgresses(t, Blank(t), count, t.starts[1], |t.tokens|);
  }

  lemma SeveralRebuild(t: Store, c: Cells, count: nat, workerCount: nat)
    requires AllLevels(t, c, count) && workerCount > 1
    ensures Rebuilt(t, c, workerCount)
  {
    forall other: nat | Reached(t, other) ensures other == count { ReachedOnce(t, count, other); }
  }

  /** Whatever the number of workers, the reachable nodes are settled. */
  lemma RebuiltSettles(t: Store, c: Cells, workers: nat, count: nat)
    requires Rebuilt(t, c, workers) && Reached(t, count)
    ensures forall x: nat {:trigger Settled(t, c, x)} | x < count :: Settled(t, c, x)
  {
    OneWorkerRebuilds(t, count);
  }

  /** On the reachable nodes the links do not depend on the number of workers, whatever the arrays. */
  lemma WorkersAgree(t: Store, c: Cells, workers: nat, d: Cells, others: nat, count: nat)
    requires Rebuilt(t, c, workers) && Rebuilt(t, d, others) && Reached(t, count)
    ensures SameBelow(c, d, count)
  {
    RebuiltSettles(t, c, workers, count);
    RebuiltSettles(t, d, others, count);
    SettledUnique(t, count, c, d, count);
  }

  // Several workers stop where one goes on ------------------------------------------------------

  /** Several workers leave what one would have after the last edge of the reachable nodes. */
  lemma SeveralStopEarly(t: Store, d: Cells, workers: nat, count: nat)
    requires Rebuilt(t, d, workers) && workers > 1 && Reached(t, count)
    ensures t.starts[1] <= count - 1 <= |t.tokens| && d == Folded(t, Blank(t), t.starts[1], count - 1)
  {
    assert t.starts[1] <= t.starts[count] <= t.starts[|t.heads|];
    var c := Folded(t, Blank(t), t.starts[1], count - 1);
    BlankProgressed(t, count);
    FoldProgresses(t, Blank(t), count, t.starts[1], count - 1);
    SettledUnique(t, count, c, d, count);
    forall x: nat | count <= x < |t.heads|
      ensures d.failures[x] == c.failures[x] && d.links[x] == c.links[x]
    {
      assert Initial(c, x) && Initial(d, x);
    }
    assert d.failures == c.failures && d.links == c.links;
  }

  /** The child along an edge gets just the cells an untouched node has. */
  ghost predicate Idle(t: Store, edge: nat)
    requires Flat(t) && edge < |t.tokens|
  {
    t.heads[0] == NONE && EdgeOf(t, 0, t.tokens[edge]).None?
  }

  /** Linking one more unreachable child to such cells changes nothing exactly when its edge is idle. */
  lemma IdleStep(t: Store, d: Cells, count: nat, edge: nat)
    requires AllLevels(t, d, count) && count - 1 <= edge < |t.tokens|
    ensures Owner(t, edge) != 0 && (Linked(t, d, Owner(t, edge), edge) == d <==> Idle(t, edge))
  {
    var parent := Owner(t, edge);
    ReachedMeans(t, count, parent, edge);
    assert Initial(d, parent) && Initial(d, edge + 1) && Settled(t, d, 0);
    var target, linked := Target(t, d, parent, edge), Linked(t, d, parent, edge);
    assert target == 0 <==> EdgeOf(t, 0, t.tokens[edge]).None?;
    assert linked.failures[edge + 1] == target && linked.links[edge + 1] == LinkFor(t, d, target);
    if linked == d {
      assert target == 0;
    }
    if Idle(t, edge) {
      assert linked.failures == d.failures && linked.links == d.links;
    }
  }

  /** While the remaining edges are idle one worker leaves what several do. */
  lemma {:induction false} IdleEdges(t: Store, states: seq<Cells>, d: Cells, count: nat, end: nat)
    requires AllLevels(t, d, count) && count >= 1 && Stages(t, states, count - 1) && states[count - 1] == d
    requires count - 1 <= end <= |t.tokens|
    requires forall e: nat {:trigger Idle(t, e)} | count - 1 <= e < end :: Idle(t, e)
    ensures states[end] == d
    decreases end
  {
    if end == count - 1 {
    } else {
      var edge := end - 1;
      assert Idle(t, edge) && Stage(t, states, edge);
      IdleEdges(t, states, d, count, edge);
      IdleStep(t, d, count, edge);
    }
  }

  /** If one worker leaves what several do, its cells never changed after they stopped, and the edges were idle. */
  lemma NeverChanged(t: Store, states: seq<Cells>, d: Cells, count: nat, end: nat)
    requires AllLevels(t, d, count) && count >= 1 && Stages(t, states, count - 1)
    requires d == states[count - 1] == states[|t.tokens|] && count - 1 <= end <= |t.tokens|
    ensures states[end] == d
  {
    StageFrame(t, states, count - 1, end, end, 0);
    forall x: nat | x < |t.heads|
      ensures states[end].failures[x] == d.failures[x] && states[end].links[x] == d.links[x]
    {
      if x <= end {
        StageFrame(t, states, count - 1, end, |t.tokens|, x);
      } else {
        StageFrame(t, states, count - 1, count - 1, end, x);
      }
    }
    assert states[end].failures == d.failures && states[end].links == d.links;
  }

  lemma IdleThroughout(t: Store, states: seq<Cells>, d: Cells, count: nat, edge: nat)
    requires AllLevels(t, d, count) && count >= 1 && Stages(t, states, count - 1)
    requires d == states[count - 1] == states[|t.tokens|] && count - 1 <= edge < |t.tokens|
    ensures Idle(t, edge)
  {
    NeverChanged(t, states, d, count, edge);
    NeverChanged(t, states, d, count, edge + 1);
    IdleStep(t, d, count, edge);
    assert Stage(t, states, edge);
  }

  /** What decides it, read off the stored arrays: the root ends no pattern and knows no token of an edge beyond. */
  ghost predicate NothingBeyond(t: Store, count: nat)
    requires Flat(t) && 1 <= count <= |t.heads|
  {
    || count == |t.heads|
    || (t.heads[0] == NONE && forall e: nat | count - 1 <= e < |t.tokens| :: t.tokens[e] !in t.tokens[..t.starts[1]])
  }

  lemma IdleMeans(t: Store, edge: nat)
    requires Flat(t) && edge < |t.tokens|
    ensures t.starts[1] <= |t.tokens|
    ensures Idle(t, edge) <==> t.heads[0] == NONE && t.tokens[edge] !in t.tokens[..t.starts[1]]
  {
    OwnEdges(t, 0);
    var token, root := t.tokens[edge], t.tokens[..t.starts[1]];
    if EdgeOf(t, 0, token).Some? {
      assert root[EdgeOf(t, 0, token).value] == token;
    } else {
      assert forall e | 0 <= e < |root| :: root[e] == t.tokens[e];
    }
  }

  lemma BlankStages(t: Store, at: nat) returns (states: seq<Cells>)
    requires Flat(t) && t.starts[1] <= at <= |t.tokens|
    ensures Stages(t, states, t.starts[1])
    ensures states[at] == Folded(t, Blank(t), t.starts[1], at) && states[|t.tokens|] == InOneRange(t)
  {
    var blank, first := Blank(t), t.starts[1];
    states := FoldStages(t, blank, first, at, |t.tokens|);
  }

  /** The stages of one worker, the first of which beyond the reachable nodes is where several stop. */
  lemma StagesBeyond(t: Store, d: Cells, workers: nat, count: nat) returns (states: seq<Cells>)
    requires Rebuilt(t, d, workers) && workers > 1 && Reached(t, count)
    ensures Stages(t, states, count - 1) && states[count - 1] == d && states[|t.tokens|] == InOneRange(t)
  {
    SeveralStopEarly(t, d, workers, count);
    states := BlankStages(t, count - 1);
    LaterStages(t, states, t.starts[1], count - 1);
  }

  /** One worker and several rebuild the same cells exactly when nothing beyond the reachable nodes meets the root. */
  lemma WorkersAgreeExactly(t: Store, c: Cells, d: Cells, workers: nat, count: nat)
    requires Rebuilt(t, c, 1) && Rebuilt(t, d, workers) && workers > 1 && Reached(t, count)
    ensures c == d <==> NothingBeyond(t, count)
  {
    var states := StagesBeyond(t, d, workers, count);
    forall e: nat | e < |t.tokens|
      ensures Idle(t, e) <==> t.heads[0] == NONE && t.tokens[e] !in t.tokens[..t.starts[1]]
    {
      IdleMeans(t, e);
    }
    if NothingBeyond(t, count) {
      IdleEdges(t, states, d, count, |t.tokens|);
    }
    if c == d {
      forall e: nat | count - 1 <= e < |t.tokens| ensures Idle(t, e) { IdleThroughout(t, states, d, count, e); }
    }
  }

  /** All numbers of workers above one rebuild the same cells. */
  lemma SeveralAgree(t: Store, c: Cells, workers: nat, d: Cells, others: nat)
    requires Rebuilt(t, c, workers) && Rebuilt(t, d, others) && workers > 1 && others > 1
    ensures c == d
  {
    var count := SomeReached(t);
    SeveralStopEarly(t, c, workers, count);
    SeveralStopEarly(t, d, others, count);
  }

  /** Some cells are what any number of workers rebuilds. */
  lemma SomeRebuilt(t: Store, workers: nat) returns (c: Cells)
    requires Flat(t)
    ensures Rebuilt(t, c, workers)
  {
    var count := SomeReached(t);
    if workers <= 1 {
      c := InOneRange(t);
    } else {
      assert t.starts[1] <= t.starts[count] <= t.starts[|t.heads|];
      var first, last, blank := t.starts[1], count - 1, Blank(t);
      c := Folded(t, blank, first, last);
      BlankProgressed(t, count);
      FoldProgresses(t, blank, count, first, last);
      SeveralRebuild(t, c, count, workers);
    }
  }

  /** Node 2 is its own parent, and its edge carries the token of the root's. */
  function Tangled(): Store {
    Arrays([0, 1, 1, 2], [5, 5], [NONE, NONE, NONE])
  }

  lemma TangledLink(t: Store, d: Cells)
    requires t == Tangled() && Flat(t) && d == Blank(t)
    ensures Owns(t.starts, 2, 1) && Linked(t, d, 2, 1).failures == [0, 0, 1]
  {
    assert EdgeOf(t, 0, 5) == Some(0);
    assert Target(t, d, 2, 1) == 1;
  }

  /** One worker links node 2 to the root's child, and several leave it alone. */
  lemma WorkersDiffer(c: Cells, d: Cells, workers: nat)
    requires Rebuilt(Tangled(), c, 1) && Rebuilt(Tangled(), d, workers) && workers > 1
    ensures c.failures == [0, 0, 1] && d.failures == [0, 0, 0]
  {
    var t := Tangled();
    assert Reached(t, 2);
    var states := StagesBeyond(t, d, workers, 2);
    SeveralStopEarly(t, d, workers, 2);
    assert d == Blank(t);
    TangledLink(t, d);
    assert Stage(t, states, 1);
  }

  /** On a trie whose root ends no pattern the builder gives exactly the trie's links. */
  lemma RebuiltTrie(t: Store, c: Cells, workers: nat, sh: Shape)
    requires StoresTrie(t, sh) && t.heads[0] == NONE && Rebuilt(t, c, workers)
    ensures LinksOk(sh, t.heads, c.failures, c.links)
  {
    TrieReachesAll(t, sh);
    RebuiltSettles(t, c, workers, |t.heads|);
    SettledIsLinked(t, sh, c);
  }
}
