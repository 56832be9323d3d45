/** The cells that linking one child after another leads to, in the order of the edges. */
module LinkFold {
  import opened Tries
  import opened LinkCells
  import opened LinkJobs

  /** Cells after one child's links were derived. */
  ghost function Linked(t: Store, c: Cells, parent: nat, edge: nat): Cells
    requires Fitting(t, c) && Owns(t.starts, parent, edge) && edge < |t.tokens| && parent != 0
  {
    TargetBelow(t, c, parent, edge);
    var target := Target(t, c, parent, edge);
    Cells(c.failures[edge + 1 := target], c.links[edge + 1 := LinkFor(t, c, target)])
  }

  lemma LinkedFits(t: Store, c: Cells, parent: nat, edge: nat)
    requires Fitting(t, c) && Owns(t.starts, parent, edge) && edge < |t.tokens| && parent != 0
    ensures Fitting(t, Linked(t, c, parent, edge)) && OnlyCell(c, Linked(t, c, parent, edge), edge + 1)
  {
    TargetBelow(t, c, parent, edge);
  }

  lemma OwnerExists(t: Store, e: nat)
    requires Flat(t) && e < |t.tokens|
    ensures exists v: nat :: Owns(t.starts, v, e)
  {
    var v := SomeOwner(t, e);
  }

  /** The node whose edge `e` is. */
  ghost function Owner(t: Store, e: nat): (v: nat)
    requires Flat(t) && e < |t.tokens|
    ensures Owns(t.starts, v, e)
  {
    OwnerExists(t, e);
    var v: nat :| Owns(t.starts, v, e);
    v
  }

  /** Cells after the children along the edges `first..end` were linked in order. */
  ghost function Folded(t: Store, c: Cells, first: nat, end: nat): (r: Cells)
    requires Fitting(t, c) && t.starts[1] <= first <= end <= |t.tokens|
    ensures Fitting(t, r)
    decreases end - first
  {
    if first == end then c
    else
      var before, edge := Folded(t, c, first, end - 1), end - 1;
      LinkedFits(t, before, Owner(t, edge), edge);
      Linked(t, before, Owner(t, edge), edge)
  }

  // The fold one edge at a time -------------------------------------------------------------

  ghost predicate Stage(t: Store, states: seq<Cells>, edge: nat) {
    && |states| == |t.tokens| + 1 && edge < |t.tokens| && Fitting(t, states[edge]) && Fitting(t, states[edge + 1])
    && forall parent: nat | Owns(t.starts, parent, edge) ::
        parent != 0 && states[edge + 1] == Linked(t, states[edge], parent, edge)
  }

  /** The cells after each edge from `first` on. */
  ghost predicate Stages(t: Store, states: seq<Cells>, first: nat) {
    && Flat(t) && |states| == |t.tokens| + 1 && t.starts[1] <= first <= |t.tokens| && Fitting(t, states[first])
    && forall edge: nat {:trigger Stage(t, states, edge)} | first <= edge < |t.tokens| :: Stage(t, states, edge)
  }

  lemma FoldStage(t: Store, c: Cells, first: nat, states: seq<Cells>, edge: nat)
    requires Fitting(t, c) && t.starts[1] <= first <= edge < |t.tokens| && |states| == |t.tokens| + 1
    requires states[edge] == Folded(t, c, first, edge) && states[edge + 1] == Folded(t, c, first, edge + 1)
    ensures Stage(t, states, edge)
  {
    forall parent: nat | Owns(t.starts, parent, edge) ensures parent == Owner(t, edge) {
      OneOwner(t, parent, Owner(t, edge), edge);
    }
  }

  lemma FoldStages(t: Store, c: Cells, first: nat, at: nat, end: nat) returns (states: seq<Cells>)
    requires Fitting(t, c) && t.starts[1] <= first <= at <= end <= |t.tokens|
    ensures Stages(t, states, first) && states[first] == c
    ensures states[at] == Folded(t, c, first, at) && states[end] == Folded(t, c, first, end)
  {
    states := seq(|t.tokens| + 1, e requires 0 <= e <= |t.tokens| => if e < first then c else Folded(t, c, first, e));
    forall edge: nat | first <= edge < |t.tokens| ensures Stage(t, states, edge) {
      FoldStage(t, c, first, states, edge);
    }
  }

  lemma LaterStages(t: Store, states: seq<Cells>, first: nat, at: nat)
    requires Stages(t, states, first) && first <= at <= |t.tokens|
    ensures Stages(t, states, at)
  {
    if first < at { assert Stage(t, states, at - 1); }
  }

  /** Later children change no cells but their own. */
  lemma {:induction false} StageFrame(t: Store, states: seq<Cells>, first: nat, at: nat, end: nat, x: nat)
    requires Stages(t, states, first) && first <= at <= end <= |t.tokens| && x < |t.heads| && !(at < x <= end)
    ensures Fitting(t, states[at]) && Fitting(t, states[end])
    ensures states[end].failures[x] == states[at].failures[x] && states[end].links[x] == states[at].links[x]
    decreases end - at
  {
    if at == end {
      if first < at { assert Stage(t, states, at - 1); }
    } else {
      var edge := end - 1;
      assert Stage(t, states, edge);
      StageFrame(t, states, first, at, edge, x);
      LinkedFits(t, states[edge], Owner(t, edge), edge);
    }
  }

  // What the fold makes of the reachable nodes ------------------------------------------------

  /** Nodes of the reachable part up to `last` are settled, and the nodes after `last` untouched. */
  ghost predicate Progressed(t: Store, c: Cells, count: nat, last: nat) {
    && Fitting(t, c) && Reached(t, count)
    && (forall x: nat {:trigger Settled(t, c, x)} | x <= last && x < count :: Settled(t, c, x))
    && forall x: nat {:trigger Initial(c, x)} | last < x < |t.heads| :: Initial(c, x)
  }

  /** One more child keeps the settled ones settled. */
  lemma ProgressOne(t: Store, c: Cells, count: nat, parent: nat, edge: nat)
    requires Progressed(t, c, count, edge) && Owns(t.starts, parent, edge) && edge < |t.tokens| && parent != 0
    ensures Progressed(t, Linked(t, c, parent, edge), count, edge + 1)
  {
    var c' := Linked(t, c, parent, edge);
    LinkedFits(t, c, parent, edge);
    forall x: nat | x <= edge + 1 && x < count ensures Settled(t, c', x) {
      if x <= edge { StaysSettled(t, c, c', count, x); } else { NewlySettled(t, c, count, parent, edge); }
    }
    forall x: nat {:trigger Initial(c', x)} | edge + 1 < x < |t.heads| ensures Initial(c', x) { assert Initial(c, x); }
  }

  lemma StaysSettled(t: Store, c: Cells, c': Cells, count: nat, x: nat)
    requires Settled(t, c, x) && Fitting(t, c') && SameBelow(c, c', x + 1) && Reached(t, count) && x < count
    ensures Settled(t, c', x)
  {
    forall parent: nat, edge: nat | x == edge + 1 && Owns(t.starts, parent, edge) ensures parent < x + 1 {
      ReachedMeans(t, count, parent, edge);
    }
    SettledFrame(t, c, c', x + 1, x);
  }

  lemma NewlySettled(t: Store, c: Cells, count: nat, parent: nat, edge: nat)
    requires Fitting(t, c) && Owns(t.starts, parent, edge) && edge < |t.tokens| && parent != 0
    requires Reached(t, count) && edge + 1 < count
    ensures Settled(t, Linked(t, c, parent, edge), edge + 1)
  {
    var c' := Linked(t, c, parent, edge);
    LinkedFits(t, c, parent, edge);
    TargetBelow(t, c, parent, edge);
    forall owner: nat, e: nat | edge + 1 == e + 1 && Owns(t.starts, owner, e) ensures SettledBy(t, c', owner, e) {
      OneOwner(t, parent, owner, e);
      ReachedMeans(t, count, parent, edge);
      TargetFrame(t, c, c', edge + 1, parent, edge);
    }
  }

  /** Linking the children along more edges settles the reachable ones among them. */
  lemma {:induction false} StagesProgress(t: Store, states: seq<Cells>, count: nat, first: nat, end: nat)
    requires Stages(t, states, first) && Progressed(t, states[first], count, first) && first <= end <= |t.tokens|
    ensures Progressed(t, states[end], count, end)
    decreases end - first
  {
    if first == end {
    } else {
      var edge := end - 1;
      assert Stage(t, states, edge);
      StagesProgress(t, states, count, first, edge);
      ProgressOne(t, states[edge], count, Owner(t, edge), edge);
    }
  }

  lemma FoldProgresses(t: Store, c: Cells, count: nat, first: nat, end: nat)
    requires Progressed(t, c, count, first) && t.starts[1] <= first <= end <= |t.tokens|
    ensures Progressed(t, Folded(t, c, first, end), count, end)
  {
    var states := FoldStages(t, c, first, first, end);
    StagesProgress(t, states, count, first, end);
  }

  lemma FoldFrame(t: Store, c: Cells, first: nat, end: nat, x: nat)
    requires Fitting(t, c) && t.starts[1] <= first <= end <= |t.tokens| && x < |t.heads| && !(first < x <= end)
    ensures Folded(t, c, first, end).failures[x] == c.failures[x]
    ensures Folded(t, c, first, end).links[x] == c.links[x]
  {
    var states := FoldStages(t, c, first, first, end);
    StageFrame(t, states, first, first, end, x);
  }
}
