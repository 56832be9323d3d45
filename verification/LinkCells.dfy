/**
 * The failure and output link of every node of stored trie arrays, and when they are settled. Nothing here needs the
 * arrays to be a trie: they may number a node before its own parent, and such nodes cannot be reached from the root.
 */
module LinkCells {
  import opened Options
  import opened Patterns
  import opened Tries

  /** Node `v` owns edges `starts[v]..starts[v+1]`, and edge `e` leads to node `e + 1`. */
  datatype Store = Arrays(starts: seq<nat>, tokens: seq<nat>, heads: seq<nat>)

  datatype Cells = Cells(failures: seq<nat>, links: seq<nat>)

  ghost predicate Flat(t: Store) {
    Grouped(t.starts, |t.heads|) && |t.tokens| == |t.heads| - 1
  }

  ghost predicate RisingEdges(t: Store) {
    forall v: nat, e: nat {:trigger Owns(t.starts, v, e)} | Owns(t.starts, v, e) && t.starts[v] < e < |t.tokens| ::
      t.tokens[e - 1] < t.tokens[e]
  }

  lemma {:induction false} EdgesRise(t: Store, v: nat, e: nat, f: nat)
    requires RisingEdges(t) && Owns(t.starts, v, e) && Owns(t.starts, v, f) && e < f < |t.tokens|
    ensures t.tokens[e] < t.tokens[f]
    decreases f
  {
    assert Owns(t.starts, v, f - 1);
    if e == f - 1 {
    } else {
      EdgesRise(t, v, e, f - 1);
    }
  }

  lemma OwnEdges(t: Store, v: nat)
    requires Flat(t) && v < |t.heads|
    ensures t.starts[v] <= t.starts[v + 1] <= |t.tokens|
  {
    assert t.starts[v + 1] <= t.starts[|t.heads|];
  }

  lemma OneOwner(t: Store, v: nat, w: nat, e: nat)
    requires Flat(t) && Owns(t.starts, v, e) && Owns(t.starts, w, e)
    ensures v == w
  {
  }

  lemma SomeOwner(t: Store, e: nat) returns (v: nat)
    requires Flat(t) && e < |t.tokens|
    ensures Owns(t.starts, v, e)
  {
    v := 0;
    while t.starts[v + 1] <= e
      invariant v < |t.heads| && t.starts[v] <= e
      decreases |t.heads| - v
    {
      v := v + 1;
    }
  }

  function FindEdge(tokens: seq<nat>, start: nat, end: nat, token: nat): (r: Option<nat>)
    requires end <= |tokens|
    ensures r.Some? ==> start <= r.value < end && tokens[r.value] == token
    ensures r.None? ==> forall e | start <= e < end :: tokens[e] != token
    decreases end - start
  {
    if start >= end then None
    else if tokens[start] == token then Some(start)
    else FindEdge(tokens, start + 1, end, token)
  }

  /** The edge of a node under a token. */
  ghost function EdgeOf(t: Store, v: nat, token: nat): (r: Option<nat>)
    requires Flat(t) && v < |t.heads|
    ensures r.Some? ==> Owns(t.starts, v, r.value) && r.value < |t.tokens| && t.tokens[r.value] == token
    ensures r.None? ==> forall e | t.starts[v] <= e < t.starts[v + 1] && e < |t.tokens| :: t.tokens[e] != token
  {
    OwnEdges(t, v);
    FindEdge(t.tokens, t.starts[v], t.starts[v + 1], token)
  }

  /** A node has at most one edge under a token. */
  lemma OnlyEdge(t: Store, v: nat, token: nat, e: nat, found: bool)
    requires Flat(t) && RisingEdges(t) && v < |t.heads|
    requires found ==> Owns(t.starts, v, e) && e < |t.tokens| && t.tokens[e] == token
    ensures found ==> EdgeOf(t, v, token) == Some(e)
  {
    if found && EdgeOf(t, v, token).Some? {
      var f := EdgeOf(t, v, token).value;
      if e < f { EdgesRise(t, v, e, f); }
      if f < e { EdgesRise(t, v, f, e); }
    }
  }

  // Cells ------------------------------------------------------------------------------

  /** Every failure leads to a smaller node, so following failures ends at the root. */
  ghost predicate Falls(failures: seq<nat>) {
    forall x | 0 <= x < |failures| :: failures[x] == 0 || failures[x] < x
  }

  ghost predicate Fitting(t: Store, c: Cells) {
    && Flat(t) && |c.failures| == |c.links| == |t.heads| && Falls(c.failures)
    && forall x | 0 <= x < |c.links| :: c.links[x] == NONE || c.links[x] < x
  }

  /** The node a search for `token` from `f` ends at, following failures. */
  ghost function Walk(t: Store, failures: seq<nat>, f: nat, token: nat): Option<nat>
    requires Flat(t) && |failures| == |t.heads| && Falls(failures) && f < |failures|
    decreases f
  {
    match EdgeOf(t, f, token)
    case Some(e) => Some(e + 1)
    case None => if f == 0 then None else Walk(t, failures, failures[f], token)
  }

  /** A search ends no further than the children of the node it started from. */
  lemma {:induction false} WalkBound(t: Store, failures: seq<nat>, f: nat, token: nat)
    requires Flat(t) && |failures| == |t.heads| && Falls(failures) && f < |failures|
    ensures match Walk(t, failures, f, token) case None => true case Some(x) => 0 < x <= t.starts[f + 1]
    decreases f
  {
    if EdgeOf(t, f, token).Some? || f == 0 {
    } else {
      WalkBound(t, failures, failures[f], token);
      assert t.starts[failures[f] + 1] <= t.starts[f + 1];
    }
  }

  /** A search reads only failures of nodes up to where it starts. */
  lemma {:induction false} WalkFrame(t: Store, failures: seq<nat>, failures': seq<nat>, f: nat, token: nat)
    requires Flat(t) && |failures| == |failures'| == |t.heads| && Falls(failures) && Falls(failures') && f < |failures|
    requires forall y | 0 <= y <= f :: failures[y] == failures'[y]
    ensures Walk(t, failures, f, token) == Walk(t, failures', f, token)
    decreases f
  {
    if EdgeOf(t, f, token).Some? || f == 0 {
    } else {
      WalkFrame(t, failures, failures', failures[f], token);
    }
  }

  /** Where the failure of the child along `edge` of `parent` leads. */
  ghost function Target(t: Store, c: Cells, parent: nat, edge: nat): nat
    requires Fitting(t, c) && Owns(t.starts, parent, edge) && edge < |t.tokens|
  {
    match Walk(t, c.failures, c.failures[parent], t.tokens[edge])
    case None => 0
    case Some(x) => x
  }

  lemma TargetBelow(t: Store, c: Cells, parent: nat, edge: nat)
    requires Fitting(t, c) && Owns(t.starts, parent, edge) && edge < |t.tokens| && parent != 0
    ensures Target(t, c, parent, edge) <= t.starts[c.failures[parent] + 1] <= t.starts[parent] <= edge
  {
    WalkBound(t, c.failures, c.failures[parent], t.tokens[edge]);
  }

  /** The failure node itself when it ends a pattern, otherwise its own link. */
  ghost function LinkFor(t: Store, c: Cells, f: nat): nat
    requires f < |t.heads| && f < |c.links|
  {
    if t.heads[f] != NONE then f else c.links[f]
  }

  ghost predicate SettledBy(t: Store, c: Cells, parent: nat, edge: nat)
    requires Fitting(t, c) && Owns(t.starts, parent, edge) && edge < |t.tokens|
  {
    if parent == 0 then c.failures[edge + 1] == 0 && c.links[edge + 1] == NONE
    else c.failures[edge + 1] == Target(t, c, parent, edge) && c.links[edge + 1] == LinkFor(t, c, c.failures[edge + 1])
  }

  /** The cells of a node are what its parent's failure makes them. */
  ghost predicate Settled(t: Store, c: Cells, x: nat) {
    && Fitting(t, c) && x < |t.heads|
    && (x == 0 ==> c.failures[x] == 0 && c.links[x] == NONE)
    && forall parent: nat, edge: nat {:trigger SettledBy(t, c, parent, edge)} |
         x == edge + 1 && Owns(t.starts, parent, edge) :: SettledBy(t, c, parent, edge)
  }

  /** Nodes that have not been reached hold zero and nothing. */
  ghost predicate Initial(c: Cells, x: nat) {
    x < |c.failures| && x < |c.links| && c.failures[x] == 0 && c.links[x] == NONE
  }

  ghost predicate SameBelow(c: Cells, c': Cells, bound: nat) {
    && |c'.failures| == |c.failures| == |c.links| == |c'.links|
    && forall y: nat | y < bound && y < |c.failures| :: c'.failures[y] == c.failures[y] && c'.links[y] == c.links[y]
  }

  /** A settled node stays so while its own cells and those it was made from stay. */
  lemma SettledFrame(t: Store, c: Cells, c': Cells, bound: nat, x: nat)
    requires Settled(t, c, x) && Fitting(t, c') && SameBelow(c, c', bound)
    requires c'.failures[x] == c.failures[x] < bound && c'.links[x] == c.links[x]
    requires forall parent: nat, edge: nat | x == edge + 1 && Owns(t.starts, parent, edge) :: parent < bound
    ensures Settled(t, c', x)
  {
    forall parent: nat, edge: nat | x == edge + 1 && Owns(t.starts, parent, edge)
      ensures SettledBy(t, c', parent, edge) {
      assert SettledBy(t, c, parent, edge);
      if parent != 0 { TargetFrame(t, c, c', bound, parent, edge); }
    }
  }

  lemma TargetFrame(t: Store, c: Cells, c': Cells, bound: nat, parent: nat, edge: nat)
    requires Fitting(t, c) && Fitting(t, c') && SameBelow(c, c', bound) && parent < bound
    requires Owns(t.starts, parent, edge) && edge < |t.tokens|
    ensures Target(t, c', parent, edge) == Target(t, c, parent, edge)
  {
    WalkFrame(t, c.failures, c'.failures, c.failures[parent], t.tokens[edge]);
  }

  // Reachable nodes ------------------------------------------------------------------------

  /**
   * The first `count` nodes are those reachable from the root: up to there every child is numbered after its parent.
   */
  ghost predicate Reached(t: Store, count: nat) {
    && Flat(t) && 1 <= count <= |t.heads| && t.starts[count] + 1 == count
    && forall v: nat | v < count :: v <= t.starts[v]
  }

  /** Arrays of any trie-like sizes have such a first part. */
  lemma SomeReached(t: Store) returns (count: nat)
    requires Flat(t)
    ensures Reached(t, count)
  {
    count := 1;
    while t.starts[count] + 1 != count
      invariant 1 <= count <= |t.heads| && forall v: nat | v < count :: v <= t.starts[v]
      decreases |t.heads| - count
    {
      assert t.starts[count - 1] <= t.starts[count];
      count := count + 1;
    }
  }

  /** It is closed under edges, and each of its nodes but the root hangs below a smaller one. */
  lemma ReachedMeans(t: Store, count: nat, v: nat, edge: nat)
    requires Reached(t, count) && Owns(t.starts, v, edge)
    ensures v < count <==> edge + 1 < count
    ensures v < count ==> v < edge + 1
  {
    if v < count {
      assert t.starts[v + 1] <= t.starts[count];
    } else {
      assert t.starts[count] <= t.starts[v];
    }
  }

  /** The settled cells of the reachable nodes are determined by the arrays alone. */
  lemma {:induction false} SettledUnique(t: Store, count: nat, c: Cells, d: Cells, bound: nat)
    requires Reached(t, count) && bound <= count
    requires forall x: nat | x < count :: Settled(t, c, x) && Settled(t, d, x)
    ensures SameBelow(c, d, bound)
  {
    if bound != 0 {
      SettledUnique(t, count, c, d, bound - 1);
      assert Settled(t, c, bound - 1) && Settled(t, d, bound - 1);
      if bound != 1 {
        var edge := bound - 2;
        var parent := SomeOwner(t, edge);
        ReachedMeans(t, count, parent, edge);
        assert SettledBy(t, c, parent, edge) && SettledBy(t, d, parent, edge);
        if parent != 0 {
          TargetFrame(t, c, d, bound - 1, parent, edge);
          TargetBelow(t, c, parent, edge);
        }
      }
    } else {
      assert Settled(t, c, 0) && Settled(t, d, 0);
    }
  }
}
