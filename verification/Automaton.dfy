/** The automaton: dense or packed node arrays, a root table, and the search over them. */
module Automata {
  import opened Options
  import opened Patterns
  import opened Suffixes
  import opened Tries
  import opened TrieRows
  import opened Outputs
  import opened Renumber
  import opened LinkCells
  import opened LinkTries
  import opened StoredSearch
  import opened Sequences
  import OutputChains
  import Packed
  import opened Sparse

  /** Entry `t` is the root's child under token `t`, or 0; tokens past the end have no root edge. */
  ghost predicate RootTableOk(sh: Shape, table: seq<nat>) {
    forall t: nat {:trigger [t] in Words(sh)} ::
      if [t] in Words(sh) then t < |table| && 0 < table[t] < |sh.spell| && sh.spell[table[t]] == [t]
      else t < |table| ==> table[t] == 0
  }

  /** Tokens are positive 32-bit numbers, and the root's leave room for the root table. */
  ghost predicate TokensBounded(starts: seq<nat>, tokens: seq<nat>) {
    && (forall e | 0 <= e < |tokens| :: 0 < tokens[e] <= NONE)
    && forall e | 0 <= e < |tokens| && 1 < |starts| && e < starts[1] :: tokens[e] < NONE
  }

  /** The length of the root table for its last token, computed in 32 bits. */
  function TableLength(lastToken: nat): nat {
    (lastToken + 1) % 0x1_0000_0000
  }

  /** Everything the stored arrays of a searchable automaton satisfy, as values. */
  ghost predicate Searchable(ps: seq<Pattern>, sh: Shape, links: seq<nat>, heads: seq<nat>,
                             starts: seq<nat>, tokens: seq<nat>, failures: seq<nat>,
                             outputs: SparseOutputs, next: seq<nat>) {
    && TrieOk(Implicit(starts, tokens), sh) && TokensBounded(starts, tokens)
    && Terminated(sh, heads) && LinksOk(sh, heads, failures, links)
    && Holds(outputs, Zip(links, heads))
    && HeadsOk(ps, sh.spell, heads, next) && WordsOk(ps, sh.spell)
  }

  /** The table lists the first `rootEnd` edges by token, and nothing else. */
  ghost predicate RootTableFor(tokens: seq<nat>, rootEnd: nat, table: seq<nat>) {
    EdgesListed(tokens, rootEnd, table) && (table == [] <==> rootEnd == 0)
  }

  ghost predicate EdgesListed(tokens: seq<nat>, count: nat, table: seq<nat>) {
    && count <= |tokens|
    && (forall e: nat {:trigger EdgeListed(tokens, table, e)} | e < count :: EdgeListed(tokens, table, e))
    && forall k: nat {:trigger EntryMeans(tokens, table, k, count)} | k < |table| :: EntryMeans(tokens, table, k, count)
  }

  ghost predicate EdgeListed(tokens: seq<nat>, table: seq<nat>, e: nat) {
    e < |tokens| && tokens[e] < |table| && table[tokens[e]] == e + 1
  }

  ghost predicate EntryMeans(tokens: seq<nat>, table: seq<nat>, k: nat, count: nat) {
    k < |table| && (table[k] == 0 || (table[k] <= count && table[k] <= |tokens| && tokens[table[k] - 1] == k))
  }

  /** The root's tokens rise and leave room for the table. */
  ghost predicate RootReady(tokens: seq<nat>, rootEnd: nat) {
    && rootEnd <= |tokens| && (forall e, f | 0 <= e < f < rootEnd :: tokens[e] < tokens[f])
    && (rootEnd > 0 ==> tokens[rootEnd - 1] < NONE)
  }

  method BuildRootTable(rootEnd: nat, tokens: seq<nat>) returns (table: seq<nat>)
    requires RootReady(tokens, rootEnd)
    ensures RootTableFor(tokens, rootEnd, table)
  {
    if rootEnd == 0 {
      return [];
    }
    var cells := new nat[TableLength(tokens[rootEnd - 1])](_ => 0);
    for edge := 0 to rootEnd
      invariant cells.Length == TableLength(tokens[rootEnd - 1]) && EdgesListed(tokens, edge, cells[..])
    {
      ListOne(tokens, rootEnd, edge, cells[..]);
      cells[tokens[edge]] := edge + 1;
    }
    table := cells[..];
  }

  lemma ListOne(tokens: seq<nat>, rootEnd: nat, edge: nat, table: seq<nat>)
    requires RootReady(tokens, rootEnd) && edge < rootEnd && |table| == TableLength(tokens[rootEnd - 1])
    requires EdgesListed(tokens, edge, table)
    ensures tokens[edge] < |table| && EdgesListed(tokens, edge + 1, table[tokens[edge] := edge + 1])
  {
    assert tokens[edge] <= tokens[rootEnd - 1] < |table|;
    var after, more := table[tokens[edge] := edge + 1], edge + 1;
    forall e: nat | e < edge + 1 ensures EdgeListed(tokens, after, e) {
      if e < edge { assert EdgeListed(tokens, table, e); }
    }
    forall k: nat | k < |after| ensures EntryMeans(tokens, after, k, more) {
      assert EntryMeans(tokens, table, k, edge);
    }
  }

  lemma TrieRootReady(starts: seq<nat>, tokens: seq<nat>, sh: Shape)
    requires TrieOk(Implicit(starts, tokens), sh) && TokensBounded(starts, tokens)
    ensures RootReady(tokens, starts[1])
  {
    assert starts[1] <= starts[|sh.spell|];
    forall e, f | 0 <= e < f < starts[1] ensures tokens[e] < tokens[f] {
      TokensSorted(Implicit(starts, tokens), sh, 0, e, f);
    }
  }

  /** In a trie the table finds exactly the one-token strings. */
  lemma TableSpells(starts: seq<nat>, tokens: seq<nat>, sh: Shape, table: seq<nat>)
    requires TrieOk(Implicit(starts, tokens), sh) && RootTableFor(tokens, starts[1], table)
    ensures RootTableOk(sh, table)
  {
    forall t: nat
      ensures if [t] in Words(sh) then t < |table| && 0 < table[t] < |sh.spell| && sh.spell[table[t]] == [t]
              else t < |table| ==> table[t] == 0
    {
      RootLookup(Implicit(starts, tokens), sh, t);
      if t < |table| { assert EntryMeans(tokens, table, t, starts[1]); }
      if [t] in Words(sh) {
        var e: nat :| e < starts[1] && e < |tokens| && tokens[e] == t;
        assert EdgeListed(tokens, table, e);
      }
    }
  }

  /** A one-token string is spelled exactly by a root edge. */
  lemma RootLookup(g: Edges, sh: Shape, t: nat)
    requires TrieOk(g, sh)
    ensures [t] in Words(sh) <==> exists e: nat :: e < g.starts[1] && e < |g.tokens| && g.tokens[e] == t
    ensures forall e: nat | e < g.starts[1] && e < |g.tokens| && g.tokens[e] == t ::
              g.targets[e] < |sh.spell| && sh.spell[g.targets[e]] == [t]
  {
    assert sh.spell[0] + [t] == [t];
    forall e: nat | e < g.starts[1] && e < |g.tokens| && g.tokens[e] == t
      ensures g.targets[e] < |sh.spell| && sh.spell[g.targets[e]] == [t] && [t] in Words(sh)
    {
      assert Owns(g.starts, 0, e);
      EdgeMeansWord(g, sh, 0, e);
    }
    if forall e: nat | e < g.starts[1] && e < |g.tokens| :: g.tokens[e] != t {
      NoEdgeMeansNoWord(g, sh, 0, t);
    }
  }

  /** Looks for `token` among a node's edges: nothing, one comparison, or a binary search. */
  method DirectImplicitRange(tokens: seq<nat>, start: nat, end: nat, token: nat) returns (target: nat, found: bool)
    requires start <= end <= |tokens|
    requires forall i, j | start <= i < j < end :: tokens[i] < tokens[j]
    ensures found ==> start < target <= end && tokens[target - 1] == token
    ensures !found ==> target == 0 && forall e | start <= e < end :: tokens[e] != token
  {
    if start == end {
      return 0, false;
    }
    if end - start == 1 {
      if tokens[start] == token {
        return start + 1, true;
      }
      return 0, false;
    }
    var low, high := start, end;
    while low < high
      invariant start <= low <= high <= end
      invariant forall e | start <= e < low :: tokens[e] < token
      invariant forall e | high <= e < end :: token <= tokens[e]
    {
      var middle := low + (high - low) / 2;
      if tokens[middle] < token { low := middle + 1; } else { high := middle; }
    }
    if low == end || tokens[low] != token {
      return 0, false;
    }
    return low + 1, true;
  }

  /** Finds a node's edge among its own. */
  method LookUp(tokens: seq<nat>, start: nat, end: nat, state: nat, token: nat, ghost t: Store)
    returns (target: nat, found: bool)
    requires Flat(t) && RisingEdges(t) && t.tokens == tokens && state < |t.heads|
    requires start == t.starts[state] && end == t.starts[state + 1]
    ensures match EdgeOf(t, state, token) case None => !found && target == 0 case Some(e) => found && target == e + 1
  {
    OwnEdges(t, state);
    forall i: nat, j: nat | start <= i < j < end ensures tokens[i] < tokens[j] { EdgesRise(t, state, i, j); }
    target, found := DirectImplicitRange(tokens, start, end, token);
    OnlyEdge(t, state, token, if found then target - 1 else 0, found);
  }

  /** The root's edge under a token, read from the table. */
  method LookUpRoot(table: seq<nat>, token: nat, ghost t: Store) returns (target: nat, found: bool)
    requires Flat(t) && RisingEdges(t) && RootTableFor(t.tokens, t.starts[1], table)
    ensures match EdgeOf(t, 0, token) case None => !found && target == 0 case Some(e) => found && target == e + 1
  {
    if EdgeOf(t, 0, token).Some? { assert EdgeListed(t.tokens, table, EdgeOf(t, 0, token).value); }
    if token >= |table| {
      return 0, false;
    }
    target := table[token];
    found := target != 0;
    assert EntryMeans(t.tokens, table, token, t.starts[1]);
    OnlyEdge(t, 0, token, if found then target - 1 else 0, found);
  }

  class Automaton {
    var edgeStarts: seq<nat>
    var packedStarts: seq<Packed.byte>
    var edgeTokens: seq<nat>
    var edgeTokens16: seq<nat>
    var failures: seq<nat>
    var failures24: seq<Packed.byte>
    var outputs: SparseOutputs
    var outputNext: seq<nat>
    var rootNext: seq<nat>

    ghost var patterns: seq<Pattern>
    ghost var shape: Shape
    ghost var links: seq<nat>
    ghost var heads: seq<nat>

    constructor (edgeStarts: seq<nat>, packedStarts: seq<Packed.byte>, edgeTokens: seq<nat>, edgeTokens16: seq<nat>,
                 failures: seq<nat>, failures24: seq<Packed.byte>, outputs: SparseOutputs, outputNext: seq<nat>,
                 ghost patterns: seq<Pattern>, ghost shape: Shape, ghost links: seq<nat>, ghost heads: seq<nat>)
      ensures this.edgeStarts == edgeStarts && this.packedStarts == packedStarts
      ensures this.edgeTokens == edgeTokens && this.edgeTokens16 == edgeTokens16
      ensures this.failures == failures && this.failures24 == failures24
      ensures this.outputs == outputs && this.outputNext == outputNext && this.rootNext == []
      ensures this.patterns == patterns && this.shape == shape && this.links == links && this.heads == heads
    {
      this.edgeStarts, this.packedStarts := edgeStarts, packedStarts;
      this.edgeTokens, this.edgeTokens16 := edgeTokens, edgeTokens16;
      this.failures, this.failures24 := failures, failures24;
      this.outputs, this.outputNext, this.rootNext := outputs, outputNext, [];
      this.patterns, this.shape, this.links, this.heads := patterns, shape, links, heads;
    }

    // The arrays, whichever way they are stored -------------------------------

    ghost function Starts(): seq<nat>
      reads `packedStarts, `edgeStarts
    {
      if |packedStarts| / 3 != 0 then Packed.Values(packedStarts) else edgeStarts
    }

    function Tokens(): seq<nat>
      reads `edgeTokens16, `edgeTokens
    {
      if |edgeTokens16| == 0 then edgeTokens else edgeTokens16
    }

    ghost function Failures(): seq<nat>
      reads `failures24, `failures
    {
      if |failures24| != 0 then Packed.Values(failures24) else failures
    }

    ghost predicate Linked()
      reads `edgeStarts, `packedStarts, `edgeTokens, `edgeTokens16, `failures, `failures24, `outputs, `outputNext
      reads `patterns, `shape, `links, `heads
    {
      && Searchable(patterns, shape, links, heads, Starts(), Tokens(), Failures(), outputs, outputNext)
      && (|packedStarts| / 3 != 0 ==> edgeStarts == []) && (failures24 != [] ==> failures == [])
    }

    ghost predicate Valid()
      reads this
    {
      Linked() && RootTableFor(Tokens(), Starts()[1], rootNext)
    }

    /** The stored arrays with the heads laid out. */
    ghost function Arrays(): Store
      reads `packedStarts, `edgeStarts, `edgeTokens16, `edgeTokens, `heads
    {
      LinkCells.Arrays(Starts(), Tokens(), heads)
    }

    /** Searching stays in range and ends, whatever the arrays describe. */
    ghost predicate Safe()
      reads this
    {
      && Fitting(Arrays(), Cells(Failures(), links)) && RisingEdges(Arrays())
      && RootTableFor(Tokens(), Starts()[1], rootNext)
      && Holds(outputs, Zip(links, heads)) && ChainsEnd(heads, outputNext)
    }

    lemma ValidIsSafe()
      requires Valid()
      ensures Safe() && |heads| == |shape.spell|
    {
      TrieIsFlat(Arrays(), shape);
      TrieLinksFall(Arrays(), shape, Failures(), links);
      TrieChainsEnd(patterns, shape, heads, outputNext);
    }

    function EdgeStart(index: nat): nat
      requires index < |Starts()|
      reads this
    {
      if |packedStarts| / 3 != 0 then Packed.Get(packedStarts, index) else edgeStarts[index]
    }

    function Failure(index: nat): nat
      requires index < |Failures()|
      reads this
    {
      if |failures24| != 0 then Packed.Get(failures24, index) else failures[index]
    }

    function NodeCount(): nat
      reads this
    {
      if |failures24| != 0 then |failures24| / 3 else |failures|
    }

    /** Derives the root table; everything else stays. */
    method RootTable()
      requires |Starts()| >= 2 && RootReady(Tokens(), Starts()[1])
      modifies this`rootNext
      ensures RootTableFor(Tokens(), Starts()[1], rootNext)
    {
      rootNext := BuildRootTable(EdgeStart(1), Tokens());
    }

    lemma LinkedIsReady()
      requires Linked()
      ensures |Starts()| >= 2 && RootReady(Tokens(), Starts()[1])
    {
      TrieRootReady(Starts(), Tokens(), shape);
    }

    /** Looks a token up among a node's edges; on a trie, whether it spells the extended string. */
    method DirectImplicit(state: nat, token: nat) returns (target: nat, found: bool)
      requires Safe() && state < |heads|
      ensures match EdgeOf(Arrays(), state, token)
        case None => !found && target == 0
        case Some(e) => found && target == e + 1
      ensures Valid() ==> FindsChild(shape, state, token, target, found)
    {
      OwnRange(state);
      var start, end := EdgeStart(state), EdgeStart(state + 1);
      target, found := LookUp(Tokens(), start, end, state, token, Arrays());
      if Valid() { EdgeSpells(Arrays(), shape, state, token, target, found); }
    }

    lemma OwnRange(state: nat)
      requires |Starts()| == |heads| + 1 && state < |heads|
      ensures EdgeStart(state) == Starts()[state] && EdgeStart(state + 1) == Starts()[state + 1]
    {
    }

    /** Follows failure links to the first state with an edge for the token, or to the root. */
    method Descend(state0: nat, token: nat) returns (state: nat, target: nat)
      requires Safe() && state0 < |heads|
      ensures state < |heads| && Walk(Arrays(), Failures(), state, token) == Walk(Arrays(), Failures(), state0, token)
      ensures state != 0 ==> Walk(Arrays(), Failures(), state0, token) == Some(target)
    {
      state, target := state0, 0;
      while state != 0
        invariant state < |heads|
        invariant Walk(Arrays(), Failures(), state, token) == Walk(Arrays(), Failures(), state0, token)
        decreases state
      {
        var found;
        target, found := DirectImplicit(state, token);
        if found {
          return;
        }
        state := Failure(state);
      }
    }

    /**
     * Where a search goes with one more token; on a trie, to the longest suffix of the extended input that begins a
     * pattern.
     */
    method Next(state0: nat, token: nat) returns (next: nat)
      requires Safe() && state0 < |heads|
      ensures next == NextNode(Arrays(), Failures(), state0, token) < |heads|
      ensures Valid() ==>
        next < |shape.spell| && LongestIn(Words(shape), shape.spell[state0] + [token]) == Some(shape.spell[next])
    {
      var state, target := Descend(state0, token);
      if state != 0 {
        next := target;
      } else {
        next := FromRoot(token);
      }
      if Valid() { NextSpells(Arrays(), shape, Failures(), links, state0, token); }
    }

    method FromRoot(token: nat) returns (next: nat)
      requires Safe()
      ensures next == match Walk(Arrays(), Failures(), 0, token) case None => 0 case Some(x) => x
    {
      var found;
      if rootNext != [] {
        next, found := LookUpRoot(rootNext, token, Arrays());
      } else {
        next, found := DirectImplicit(0, token);
      }
    }

    method AppendChain(values0: seq<nat>, head: nat) returns (values: seq<nat>)
      requires OutputChains.Ends(outputNext, head)
      ensures values == values0 + ValuesFrom(outputNext, head)
    {
      values := values0;
      var value: nat := head;
      ghost var left: nat :| OutputChains.EndsWithin(outputNext, value, left);
      while value != NONE
        invariant OutputChains.EndsWithin(outputNext, value, left)
        invariant values + ValuesFrom(outputNext, value) == values0 + ValuesFrom(outputNext, head)
        decreases left
      {
        ValuesStep(outputNext, value);
        values, value, left := values + [value], outputNext[value], left - 1;
      }
      ValuesStep(outputNext, value);
    }

    /** What an output walk has still to report. */
    ghost function Rest(node: nat): seq<nat>
      requires Safe()
      reads this
    {
      OutputsFrom(heads, links, outputNext, node)
    }

    /** The facts one turn of an output walk needs. */
    lemma OutputsAt(node: nat)
      requires Safe() && node < |heads| && node != NONE
      ensures Get(outputs, node) == Entry(links[node], heads[node]) && OutputChains.Ends(outputNext, heads[node])
      ensures links[node] == NONE || links[node] < node
      ensures Rest(node) == ValuesFrom(outputNext, heads[node]) + Rest(links[node])
    {
      assert Zip(links, heads)[node] == Entry(links[node], heads[node]);
      HeadEnds(heads, outputNext, node);
    }

    lemma RestIsHits(node: nat)
      requires Valid() && Safe() && node < |heads|
      ensures Rest(node) == Hits(patterns, shape.spell[node])
    {
      OutputsAreHits(patterns, Arrays(), shape, Failures(), links, outputNext, node);
    }

    /** Appends what ends at a state; on a trie, the values of all patterns ending there, in reference order. */
    method AppendOutputs(values0: seq<nat>, state: nat) returns (values: seq<nat>)
      requires Safe() && state < |heads|
      ensures values == values0 + OutputsFrom(heads, links, outputNext, state)
      ensures Valid() ==> values == values0 + Hits(patterns, shape.spell[state])
    {
      values := values0;
      var node: nat := state;
      while node != NONE
        invariant (node == NONE || node < |heads|) && values + Rest(node) == values0 + Rest(state)
        decreases if node == NONE then 0 else 1 + node
      {
        OutputsAt(node);
        var entry := Get(outputs, node);
        Regroup(values, ValuesFrom(outputNext, heads[node]), Rest(links[node]));
        values := AppendChain(values, entry.head);
        node := entry.link;
      }
      if Valid() { RestIsHits(state); }
    }

    method ChainHolds(head: nat, value: nat) returns (holds: bool)
      requires OutputChains.Ends(outputNext, head)
      ensures holds <==> value in ValuesFrom(outputNext, head)
    {
      var output: nat := head;
      ghost var left: nat :| OutputChains.EndsWithin(outputNext, output, left);
      while output != NONE
        invariant OutputChains.EndsWithin(outputNext, output, left)
        invariant value in ValuesFrom(outputNext, head) <==> value in ValuesFrom(outputNext, output)
        decreases left
      {
        ValuesStep(outputNext, output);
        if output == value {
          return true;
        }
        output, left := outputNext[output], left - 1;
      }
      ValuesStep(outputNext, output);
      return false;
    }

    /** Whether a value is among those ending at a state. */
    method HasOutput(state: nat, value: nat) returns (found: bool)
      requires Safe() && state < |heads|
      ensures found <==> value in OutputsFrom(heads, links, outputNext, state)
      ensures Valid() ==> (found <==> value in Hits(patterns, shape.spell[state]))
    {
      if Valid() { RestIsHits(state); }
      var node: nat := state;
      while node != NONE
        invariant node == NONE || node < |heads|
        invariant value in Rest(state) <==> value in Rest(node)
        decreases if node == NONE then 0 else 1 + node
      {
        OutputsAt(node);
        var entry := Get(outputs, node);
        var holds := ChainHolds(entry.head, value);
        if holds {
          return true;
        }
        node := entry.link;
      }
      return false;
    }

    /** Edge offsets as plain numbers. */
    method DenseEdgeStarts() returns (starts: seq<nat>)
      ensures starts == Starts()
    {
      if |packedStarts| / 3 == 0 {
        return edgeStarts;
      }
      starts := Packed.Dense(packedStarts);
    }

    /** Failure links as plain numbers. */
    method DenseFailures() returns (values: seq<nat>)
      ensures values == Failures()
    {
      if |failures24| == 0 {
        return failures;
      }
      values := Packed.Dense(failures24);
    }

    /** Fewer nodes than 24 bits can number leave room for every offset and link. */
    lemma NodeNumbersFit()
      requires Linked() && |Failures()| < Packed.LIMIT24
      ensures forall i | 0 <= i < |Starts()| :: Starts()[i] < Packed.LIMIT24
      ensures forall v | 0 <= v < |Failures()| :: Failures()[v] < Packed.LIMIT24
    {
      forall i | 0 <= i < |Starts()| ensures Starts()[i] < Packed.LIMIT24 {
        assert Starts()[i] <= Starts()[|shape.spell|];
      }
      forall v | 0 <= v < |Failures()| ensures Failures()[v] < Packed.LIMIT24 {
        assert FailOk(shape, v, Failures()[v]);
      }
    }

    /** Packs node numbers in 24 bits when they fit; the arrays read the same afterwards. */
    method CompactNodeIndexes()
      requires Valid()
      modifies this`edgeStarts, this`packedStarts, this`failures, this`failures24
      ensures Valid()
      ensures Starts() == old(Starts()) && Failures() == old(Failures())
      ensures if old(NodeCount()) < Packed.LIMIT24 && old(edgeStarts) != [] && old(failures) != []
              then edgeStarts == [] && failures == []
              else edgeStarts == old(edgeStarts) && failures == old(failures)
    {
      if NodeCount() >= Packed.LIMIT24 || |edgeStarts| == 0 || |failures| == 0 {
        return;
      }
      PackNodeIndexes();
    }

    method PackNodeIndexes()
      requires Valid() && |failures| < Packed.LIMIT24 && edgeStarts != [] && failures != []
      modifies this`edgeStarts, this`packedStarts, this`failures, this`failures24
      ensures Valid() && edgeStarts == [] && failures == []
      ensures Starts() == old(Starts()) && Failures() == old(Failures())
    {
      NodeNumbersFit();
      var starts := Packed.PackUint24(edgeStarts);
      var links24 := Packed.PackUint24(failures);
      StorePacked(starts, links24);
    }

    /** Swaps the plain arrays for packed ones of the same numbers. */
    method StorePacked(starts: seq<Packed.byte>, links24: seq<Packed.byte>)
      requires |starts| / 3 != 0 && links24 != []
      requires Packed.Values(starts) == Starts() && Packed.Values(links24) == Failures()
      modifies this`edgeStarts, this`packedStarts, this`failures, this`failures24
      ensures edgeStarts == [] && failures == []
      ensures Starts() == old(Starts()) && Failures() == old(Failures())
    {
      packedStarts, failures24, edgeStarts, failures := starts, links24, [], [];
    }
  }
}
