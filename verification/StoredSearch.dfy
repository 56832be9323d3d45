/** Searching stored arrays, whether or not they are a trie: where a search goes and what it reports. */
module StoredSearch {
  import opened Options
  import opened Patterns
  import opened Suffixes
  import opened Tries
  import opened TrieRows
  import opened Outputs
  import opened Renumber
  import opened LevelOrder
  import opened LinkCells
  import opened LinkTries
  import opened QueuePass
  import OutputChains

  // States ---------------------------------------------------------------------------------

  /** The node a search goes to from a node under a token. */
  ghost function NextNode(t: Store, failures: seq<nat>, state: nat, token: nat): (next: nat)
    requires Flat(t) && |failures| == |t.heads| && Falls(failures) && state < |failures|
    ensures next < |t.heads|
  {
    WalkBound(t, failures, state, token);
    OwnEdges(t, state);
    match Walk(t, failures, state, token)
    case None => 0
    case Some(x) => x
  }

  /** The node a search from the root reaches with a whole input. */
  ghost function NodeAfter(t: Store, failures: seq<nat>, w: Word): (node: nat)
    requires Flat(t) && |failures| == |t.heads| && Falls(failures)
    ensures node < |t.heads|
  {
    if w == [] then 0 else NextNode(t, failures, NodeAfter(t, failures, w[..|w| - 1]), w[|w| - 1])
  }

  // Outputs --------------------------------------------------------------------------------

  /** Heads and chain entries name values, and every chain of values ends. */
  ghost predicate ChainsEnd(heads: seq<nat>, next: seq<nat>) {
    && (forall v | 0 <= v < |heads| :: heads[v] == NONE || heads[v] < |next|)
    && forall v: nat | v < |next| :: OutputChains.Ends(next, v)
  }

  ghost function ValuesWithin(next: seq<nat>, head: nat, k: nat): seq<nat>
    requires OutputChains.EndsWithin(next, head, k)
    decreases k
  {
    if head == NONE then [] else [head] + ValuesWithin(next, next[head], k - 1)
  }

  /** The values of a chain that ends. */
  ghost function ValuesFrom(next: seq<nat>, head: nat): seq<nat>
    requires OutputChains.Ends(next, head)
  {
    var k: nat :| OutputChains.EndsWithin(next, head, k);
    ValuesWithin(next, head, k)
  }

  lemma {:induction false} ValuesAlike(next: seq<nat>, head: nat, k: nat, j: nat)
    requires OutputChains.EndsWithin(next, head, k) && OutputChains.EndsWithin(next, head, j)
    ensures ValuesWithin(next, head, k) == ValuesWithin(next, head, j)
    decreases k
  {
    if head == NONE {
    } else {
      ValuesAlike(next, next[head], k - 1, j - 1);
    }
  }

  lemma ValuesAre(next: seq<nat>, head: nat, k: nat)
    requires OutputChains.EndsWithin(next, head, k)
    ensures ValuesFrom(next, head) == ValuesWithin(next, head, k)
  {
    var j: nat :| OutputChains.EndsWithin(next, head, j) && ValuesFrom(next, head) == ValuesWithin(next, head, j);
    ValuesAlike(next, head, k, j);
  }

  /** A chain is its first value and the chain from the next. */
  lemma ValuesStep(next: seq<nat>, head: nat)
    requires OutputChains.Ends(next, head)
    ensures head == NONE ==> ValuesFrom(next, head) == []
    ensures head != NONE ==> head < |next| && OutputChains.Ends(next, next[head])
    ensures head != NONE ==> ValuesFrom(next, head) == [head] + ValuesFrom(next, next[head])
  {
    var k: nat :| OutputChains.EndsWithin(next, head, k);
    ValuesAre(next, head, k);
    if head != NONE { ValuesAre(next, next[head], k - 1); }
  }

  lemma HeadEnds(heads: seq<nat>, next: seq<nat>, node: nat)
    requires ChainsEnd(heads, next) && node < |heads|
    ensures OutputChains.Ends(next, heads[node])
  {
    if heads[node] == NONE { assert OutputChains.EndsWithin(next, NONE, 0); }
  }

  /** Links lead to smaller nodes or nowhere. */
  ghost predicate LinksFall(links: seq<nat>) {
    forall x | 0 <= x < |links| :: links[x] == NONE || links[x] < x
  }

  /** What an output walk from a node reports. */
  ghost function OutputsFrom(heads: seq<nat>, links: seq<nat>, next: seq<nat>, node: nat): seq<nat>
    requires |links| == |heads| && LinksFall(links) && ChainsEnd(heads, next)
    decreases if node < |heads| && node != NONE then 1 + node else 0
  {
    if node == NONE || node >= |heads| then []
    else
      HeadEnds(heads, next, node);
      ValuesFrom(next, heads[node]) + OutputsFrom(heads, links, next, links[node])
  }

  // On a trie --------------------------------------------------------------------------------

  /** A lookup from a node finds a child exactly when the trie spells the extended string, and then the child's node. */
  ghost predicate FindsChild(sh: Shape, state: nat, token: nat, target: nat, found: bool) {
    && state < |sh.spell| && (found <==> sh.spell[state] + [token] in Words(sh))
    && (found ==> target < |sh.spell| && sh.spell[target] == sh.spell[state] + [token])
  }

  lemma EdgeSpells(t: Store, sh: Shape, state: nat, token: nat, target: nat, found: bool)
    requires StoresTrie(t, sh) && Flat(t) && state < |t.heads|
    requires match EdgeOf(t, state, token) case None => !found && target == 0 case Some(e) => found && target == e + 1
    ensures FindsChild(sh, state, token, target, found)
  {
    var g := Implicit(t.starts, t.tokens);
    match EdgeOf(t, state, token)
    case None => NoEdgeMeansNoWord(g, sh, state, token);
    case Some(e) => EdgeMeansWord(g, sh, state, e);
  }

  /** On a trie with its own links a search spells longest suffixes. */
  lemma NextSpells(t: Store, sh: Shape, failures: seq<nat>, links: seq<nat>, state: nat, token: nat)
    requires StoresTrie(t, sh) && LinksOk(sh, t.heads, failures, links) && Flat(t) && Falls(failures)
    requires state < |t.heads|
    ensures var next := NextNode(t, failures, state, token);
      LongestIn(Words(sh), sh.spell[state] + [token]) == Some(sh.spell[next])
  {
    WalkSpells(t, sh, failures, state, token);
  }

  lemma ShorterSuffix(p: set<Word>, w: Word, s: Word)
    requires w != [] && LongestIn(p, w[1..]) == Some(s)
    ensures |s| < |w|
  {
    LongestInIsLongest(p, w[1..]);
  }

  /** Links of a trie lead to nodes of shorter strings, which come first. */
  lemma TrieLinksFall(t: Store, sh: Shape, failures: seq<nat>, links: seq<nat>)
    requires StoresTrie(t, sh) && LinksOk(sh, t.heads, failures, links) && t.heads[0] == NONE
    ensures Falls(failures) && LinksFall(links)
  {
    forall x: nat | x < |failures| ensures failures[x] == 0 || failures[x] < x {
      assert FailOk(sh, x, failures[x]);
      if x != 0 { ShorterIsBefore(t, sh, Words(sh), failures[x], x); }
    }
    forall x: nat | x < |links| ensures links[x] == NONE || links[x] < x {
      assert LinkOk(sh, t.heads, x, links[x]);
      if x != 0 && links[x] != NONE { ShorterIsBefore(t, sh, Terminals(sh, t.heads), links[x], x); }
    }
  }

  /** A node spelling part of another's proper suffix is the earlier one. */
  lemma ShorterIsBefore(t: Store, sh: Shape, p: set<Word>, v: nat, x: nat)
    requires StoresTrie(t, sh) && v < |sh.spell| && 0 < x < |sh.spell|
    requires sh.spell[x] != [] ==> LongestIn(p, sh.spell[x][1..]) == Some(sh.spell[v])
    ensures v < x
  {
    NodeSpellsSomething(Implicit(t.starts, t.tokens), sh, x);
    ShorterSuffix(p, sh.spell[x], sh.spell[v]);
    if x <= v { DepthsRise(t.starts, t.tokens, sh, x, v); }
  }

  lemma {:induction false} DescendingValues(next: seq<nat>, head: nat)
    requires Descends(next) && (head == NONE || head < |next|)
    ensures OutputChains.Ends(next, head) && ValuesFrom(next, head) == Chain(next, head)
    decreases if head == NONE then 0 else 1 + head
  {
    if head == NONE {
      assert OutputChains.EndsWithin(next, head, 0);
    } else {
      DescendingValues(next, next[head]);
      var k: nat :| OutputChains.EndsWithin(next, next[head], k);
      assert OutputChains.EndsWithin(next, head, k + 1);
    }
    ValuesStep(next, head);
  }

  lemma TrieChainsEnd(ps: seq<Pattern>, sh: Shape, heads: seq<nat>, next: seq<nat>)
    requires HeadsOk(ps, sh.spell, heads, next)
    ensures ChainsEnd(heads, next)
  {
    forall v | 0 <= v < |heads| ensures heads[v] == NONE || heads[v] < |next| {
      assert Chain(next, heads[v]) == ValuesOf(ps, sh.spell[v]);
    }
    forall v: nat | v < |next| ensures OutputChains.Ends(next, v) { DescendingValues(next, v); }
  }

  /** There an output walk reports the reference answer. */
  lemma {:induction false} OutputsAreHits(ps: seq<Pattern>, t: Store, sh: Shape, failures: seq<nat>, links: seq<nat>,
                                          next: seq<nat>, node: nat)
    requires StoresTrie(t, sh) && LinksOk(sh, t.heads, failures, links) && LinksFall(links)
    requires Terminated(sh, t.heads) && |sh.spell| <= NONE && node < |t.heads|
    requires HeadsOk(ps, sh.spell, t.heads, next) && WordsOk(ps, sh.spell) && ChainsEnd(t.heads, next)
    ensures OutputsFrom(t.heads, links, next, node) == Hits(ps, sh.spell[node])
    decreases node
  {
    var g := Implicit(t.starts, t.tokens);
    EmptyNotTerminal(g, sh, t.heads);
    NodeSpellsSomething(g, sh, node);
    assert LinkOk(sh, t.heads, node, links[node]);
    HitsAtNode(ps, sh, t.heads, next, node, links[node]);
    HeadEnds(t.heads, next, node);
    assert Chain(next, t.heads[node]) == ValuesOf(ps, sh.spell[node]);
    DescendingValues(next, t.heads[node]);
    if links[node] != NONE { OutputsAreHits(ps, t, sh, failures, links, next, links[node]); }
  }

  // Any arrays -------------------------------------------------------------------------------

  /** A search among the reachable nodes stays there and reads no other cells. */
  lemma NextAlike(t: Store, c: Cells, d: Cells, count: nat, state: nat, token: nat)
    requires Reached(t, count) && Fitting(t, c) && Fitting(t, d) && SameBelow(c, d, count) && state < count
    ensures NextNode(t, c.failures, state, token) == NextNode(t, d.failures, state, token) < count
  {
    WalkFrame(t, c.failures, d.failures, state, token);
    WalkBound(t, c.failures, state, token);
    assert t.starts[state + 1] <= t.starts[count];
  }

  lemma {:induction false} NodesAlike(t: Store, c: Cells, d: Cells, count: nat, w: Word)
    requires Reached(t, count) && Fitting(t, c) && Fitting(t, d) && SameBelow(c, d, count)
    ensures NodeAfter(t, c.failures, w) == NodeAfter(t, d.failures, w) < count
  {
    if w == [] {
    } else {
      NodesAlike(t, c, d, count, w[..|w| - 1]);
      NextAlike(t, c, d, count, NodeAfter(t, c.failures, w[..|w| - 1]), w[|w| - 1]);
    }
  }

  lemma {:induction false} OutputsAlike(t: Store, c: Cells, d: Cells, next: seq<nat>, count: nat, node: nat)
    requires Fitting(t, c) && Fitting(t, d) && SameBelow(c, d, count) && node < count <= |t.heads|
    requires ChainsEnd(t.heads, next)
    ensures OutputsFrom(t.heads, c.links, next, node) == OutputsFrom(t.heads, d.links, next, node)
    decreases node
  {
    if node != NONE {
      assert c.links[node] == d.links[node];
      if c.links[node] != NONE { OutputsAlike(t, c, d, next, count, c.links[node]); }
    }
  }
}
