/** Rebuilding failure and output links in place from stored arrays, whether or not they are a trie. */
module LinkBuilder {
  import opened Patterns
  import opened Tries
  import opened LinkCells
  import opened LinkFold
  import opened Automata
  import Sparse

  const MINIMUM_PARALLEL_EDGES := 256

  /** The arrays a builder reads. */
  datatype TrieArrays = TrieArrays(starts: seq<nat>, tokens: seq<nat>, terminals: Sparse.SparseOutputs)

  ghost function HeadsOf(terminals: Sparse.SparseOutputs): seq<nat>
    requires Sparse.Consistent(terminals)
  {
    seq(terminals.length, v requires 0 <= v < terminals.length => Sparse.TerminalHead(terminals, v))
  }

  /** The same arrays with the heads laid out. */
  ghost function StoreOf(a: TrieArrays): Store
    requires Sparse.Consistent(a.terminals)
  {
    Arrays(a.starts, a.tokens, HeadsOf(a.terminals))
  }

  ghost predicate Describes(a: TrieArrays, t: Store, rootNext: seq<nat>) {
    && Sparse.Consistent(a.terminals) && t == StoreOf(a) && Flat(t) && RisingEdges(t)
    && RootTableFor(a.tokens, a.starts[1], rootNext)
  }

  /** The root answers from its table, every other node from its edges. */
  method DirectFailure(a: TrieArrays, rootNext: seq<nat>, state: nat, token: nat, ghost t: Store)
    returns (target: nat, found: bool)
    requires Describes(a, t, rootNext) && state < |t.heads|
    ensures match EdgeOf(t, state, token) case None => !found case Some(e) => found && target == e + 1
  {
    if state != 0 {
      target, found := LookUp(a.tokens, a.starts[state], a.starts[state + 1], state, token, t);
    } else {
      target, found := LookUpRoot(rootNext, token, t);
    }
  }

  /** Cells as values. */
  ghost function Snapshot(failures: array<nat>, links: array<nat>): Cells
    reads failures, links
  {
    Cells(failures[..], links[..])
  }

  /** Follows failures from a parent's to the first node with an edge for the token, or past the root. */
  method SearchFailure(a: TrieArrays, rootNext: seq<nat>, failures: array<nat>, parent: nat, token: nat, ghost t: Store)
    returns (target: nat, found: bool)
    requires Describes(a, t, rootNext) && failures.Length == |t.heads| && Falls(failures[..]) && parent < |t.heads|
    ensures match Walk(t, failures[..], failures[parent], token) case None => !found
      case Some(x) => found && target == x
  {
    ghost var all := failures[..];
    var failure: nat := failures[parent];
    target, found := DirectFailure(a, rootNext, failure, token, t);
    while !found && failure != 0
      invariant failure < |t.heads| && Walk(t, all, failure, token) == Walk(t, all, failures[parent], token)
      invariant match EdgeOf(t, failure, token) case None => !found case Some(e) => found && target == e + 1
      decreases failure
    {
      failure := failures[failure];
      target, found := DirectFailure(a, rootNext, failure, token, t);
    }
  }

  /** The links of one child, written in place. */
  method LinkStored(a: TrieArrays, rootNext: seq<nat>, failures: array<nat>, links: array<nat>, parent: nat, edge: nat,
                    ghost t: Store)
    requires Describes(a, t, rootNext) && failures != links && Fitting(t, Snapshot(failures, links))
    requires Owns(t.starts, parent, edge) && edge < |t.tokens| && parent != 0 && failures[edge + 1] == 0
    modifies failures, links
    ensures Snapshot(failures, links) == Linked(t, old(Snapshot(failures, links)), parent, edge)
  {
    ghost var c := Snapshot(failures, links);
    var child := edge + 1;
    TargetBelow(t, c, parent, edge);
    var target, found := SearchFailure(a, rootNext, failures, parent, a.tokens[edge], t);
    if found {
      failures[child] := target;
    }
    var failure := failures[child];
    assert failure == Target(t, c, parent, edge);
    StoredHead(a, rootNext, t, failure);
    var head := Sparse.TerminalHead(a.terminals, failure);
    links[child] := if head != NONE then failure else links[failure];
  }

  lemma StoredHead(a: TrieArrays, rootNext: seq<nat>, t: Store, v: nat)
    requires Describes(a, t, rootNext) && v < |t.heads|
    ensures v < a.terminals.length && Sparse.TerminalHead(a.terminals, v) == t.heads[v]
  {
  }

  // A range of parents -----------------------------------------------------------------------

  /** Arrays whose children from an edge on have not been linked yet. */
  ghost predicate Unlinked(t: Store, c: Cells, first: nat) {
    && Fitting(t, c) && t.starts[1] <= first <= |t.tokens|
    && forall x: nat {:trigger Initial(c, x)} | first < x < |t.heads| :: Initial(c, x)
  }

  lemma StillUnlinked(t: Store, states: seq<Cells>, first: nat, edge: nat)
    requires Stages(t, states, first) && Unlinked(t, states[first], first) && first <= edge < |t.tokens|
    ensures Fitting(t, states[edge]) && states[edge].failures[edge + 1] == 0
  {
    StageFrame(t, states, first, first, edge, edge + 1);
    assert Initial(states[first], edge + 1);
  }

  /** One worker's share: the children of the range are linked in the order of their edges. */
  method BuildFailureLinkRange(a: TrieArrays, rootNext: seq<nat>, failures: array<nat>, links: array<nat>,
                               start: nat, end: nat, ghost t: Store)
    requires Describes(a, t, rootNext) && failures != links && 1 <= start <= end <= |t.heads|
    requires Unlinked(t, Snapshot(failures, links), t.starts[start])
    modifies failures, links
    ensures t.starts[start] <= t.starts[end] <= |t.tokens|
    ensures Snapshot(failures, links) == Folded(t, old(Snapshot(failures, links)), t.starts[start], t.starts[end])
  {
    OwnEdges(t, end - 1);
    ghost var first, last := t.starts[start], t.starts[end];
    assert first <= last;
    ghost var states := FoldStages(t, Snapshot(failures, links), first, first, last);
    LinkParents(a, rootNext, failures, links, start, end, t, states);
  }

  method LinkParents(a: TrieArrays, rootNext: seq<nat>, failures: array<nat>, links: array<nat>, start: nat, end: nat,
                     ghost t: Store, ghost states: seq<Cells>)
    requires Describes(a, t, rootNext) && failures != links && 1 <= start <= end <= |t.heads|
    requires Stages(t, states, t.starts[start]) && Unlinked(t, states[t.starts[start]], t.starts[start])
    requires Snapshot(failures, links) == states[t.starts[start]]
    modifies failures, links
    ensures t.starts[end] < |states| && Snapshot(failures, links) == states[t.starts[end]]
  {
    ghost var first := t.starts[start];
    for parent := start to end
      invariant first <= t.starts[parent] < |states| && Snapshot(failures, links) == states[t.starts[parent]]
    {
      LinkParent(a, rootNext, failures, links, parent, t, states, first);
    }
  }

  method LinkParent(a: TrieArrays, rootNext: seq<nat>, failures: array<nat>, links: array<nat>, parent: nat,
                    ghost t: Store, ghost states: seq<Cells>, ghost first: nat)
    requires Describes(a, t, rootNext) && failures != links && 1 <= parent < |t.heads|
    requires Stages(t, states, first) && Unlinked(t, states[first], first) && first <= t.starts[parent] < |states|
    requires Snapshot(failures, links) == states[t.starts[parent]]
    modifies failures, links
    ensures t.starts[parent] <= t.starts[parent + 1] < |states|
    ensures Snapshot(failures, links) == states[t.starts[parent + 1]]
  {
    OwnEdges(t, parent);
    for edge := a.starts[parent] to a.starts[parent + 1]
      invariant Snapshot(failures, links) == states[edge]
    {
      LinkNext(a, rootNext, failures, links, parent, edge, t, states, first);
    }
  }

  /** The next child in the order of the edges. */
  method LinkNext(a: TrieArrays, rootNext: seq<nat>, failures: array<nat>, links: array<nat>, parent: nat, edge: nat,
                  ghost t: Store, ghost states: seq<Cells>, ghost first: nat)
    requires Describes(a, t, rootNext) && failures != links
    requires Stages(t, states, first) && Unlinked(t, states[first], first)
    requires Owns(t.starts, parent, edge) && first <= edge < |t.tokens| && Snapshot(failures, links) == states[edge]
    modifies failures, links
    ensures Snapshot(failures, links) == states[edge + 1]
  {
    StillUnlinked(t, states, first, edge);
    assert Stage(t, states, edge);
    LinkStored(a, rootNext, failures, links, parent, edge, t);
  }
}
