/** In a trie every node is reachable, and settled links are the links the trie requires. */
module LinkTries {
  import opened Options
  import opened Patterns
  import opened Tries
  import opened Renumber
  import opened LevelOrder
  import opened QueuePass
  import opened LinkCells

  ghost predicate StoresTrie(t: Store, sh: Shape) {
    TrieOk(Implicit(t.starts, t.tokens), sh) && |t.heads| == |sh.spell|
  }

  lemma TrieIsFlat(t: Store, sh: Shape)
    requires StoresTrie(t, sh)
    ensures Flat(t) && RisingEdges(t)
  {
    forall v: nat, e: nat | Owns(t.starts, v, e) && t.starts[v] < e < |t.tokens| ensures t.tokens[e - 1] < t.tokens[e] {
      assert EdgeOk(Implicit(t.starts, t.tokens), sh, v, e);
    }
  }

  /** Breadth-first numbering leaves no node out. */
  lemma TrieReachesAll(t: Store, sh: Shape)
    requires StoresTrie(t, sh)
    ensures Reached(t, |t.heads|)
  {
    TrieIsFlat(t, sh);
    forall v: nat | v < |t.heads| ensures v <= t.starts[v] { StartsAhead(t.starts, t.tokens, sh, v); }
  }

  /** A search along right failures ends at the longest suffix the trie spells. */
  lemma {:induction false} WalkSpells(t: Store, sh: Shape, failures: seq<nat>, f: nat, token: nat)
    requires StoresTrie(t, sh) && Flat(t) && |failures| == |t.heads| && Falls(failures) && f < |failures|
    requires forall y: nat | y <= f :: FailOk(sh, y, failures[y])
    ensures var x := match Walk(t, failures, f, token) case None => 0 case Some(x) => x;
      x < |sh.spell| && Step(sh, f, token) == Some(sh.spell[x])
    decreases f
  {
    var g := Implicit(t.starts, t.tokens);
    match EdgeOf(t, f, token)
    case Some(e) =>
      EdgeMeansWord(g, sh, f, e);
      WalkEnd(g, sh, f, token);
    case None =>
      NoEdgeMeansNoWord(g, sh, f, token);
      if f == 0 {
        WalkEnd(g, sh, f, token);
      } else {
        WalkOn(g, sh, f, token, failures[f]);
        WalkSpells(t, sh, failures, failures[f], token);
      }
  }

  /** One settled cell is right when those before it are. */
  lemma SettledIsRight(t: Store, sh: Shape, c: Cells, x: nat)
    requires StoresTrie(t, sh) && t.heads[0] == NONE && Settled(t, c, x)
    requires forall y: nat | y < x :: CellOk(sh, t.heads, c.failures, c.links, y)
    ensures CellOk(sh, t.heads, c.failures, c.links, x)
  {
    var g := Implicit(t.starts, t.tokens);
    NodeSpellsSomething(g, sh, x);
    if x != 0 {
      IncomingEdge(t.starts, t.tokens, sh, x);
      ParentBelow(t.starts, t.tokens, sh, x, x);
      var parent, edge := sh.par[x], x - 1;
      assert SettledBy(t, c, parent, edge);
      if parent == 0 {
        RootChildLinks(g, sh, t.heads, edge);
      } else {
        ChildIsRight(t, sh, c, parent, edge);
      }
    }
  }

  lemma ChildIsRight(t: Store, sh: Shape, c: Cells, parent: nat, edge: nat)
    requires StoresTrie(t, sh) && t.heads[0] == NONE && Fitting(t, c) && Owns(t.starts, parent, edge)
      && edge < |t.tokens|
    requires 0 < parent <= edge && SettledBy(t, c, parent, edge)
    requires forall y: nat | y < edge + 1 :: CellOk(sh, t.heads, c.failures, c.links, y)
    ensures CellOk(sh, t.heads, c.failures, c.links, edge + 1)
  {
    var g, f := Implicit(t.starts, t.tokens), c.failures[parent];
    assert CellOk(sh, t.heads, c.failures, c.links, parent);
    WalkStart(g, sh, parent, edge, f);
    forall y: nat | y <= f ensures FailOk(sh, y, c.failures[y]) { assert CellOk(sh, t.heads, c.failures, c.links, y); }
    WalkSpells(t, sh, c.failures, f, t.tokens[edge]);
    NodeSpellsSomething(g, sh, edge + 1);
    var target := c.failures[edge + 1];
    TargetBelow(t, c, parent, edge);
    assert FailOk(sh, edge + 1, target);
    assert CellOk(sh, t.heads, c.failures, c.links, target);
    LinkRule(g, sh, t.heads, edge + 1, target, c.links[target]);
  }

  lemma {:induction false} CellsAreRight(t: Store, sh: Shape, c: Cells, bound: nat)
    requires StoresTrie(t, sh) && t.heads[0] == NONE && bound <= |t.heads|
    requires forall x: nat | x < |t.heads| :: Settled(t, c, x)
    ensures forall y: nat | y < bound :: CellOk(sh, t.heads, c.failures, c.links, y)
  {
    if bound == 0 {
    } else {
      CellsAreRight(t, sh, c, bound - 1);
      SettledIsRight(t, sh, c, bound - 1);
    }
  }

  /** Settled cells of a trie whose root ends no pattern are its links. */
  lemma SettledIsLinked(t: Store, sh: Shape, c: Cells)
    requires StoresTrie(t, sh) && t.heads[0] == NONE
    requires forall x: nat | x < |t.heads| :: Settled(t, c, x)
    ensures LinksOk(sh, t.heads, c.failures, c.links)
  {
    CellsAreRight(t, sh, c, |t.heads|);
    assert Settled(t, c, 0);
    forall v: nat | v < |sh.spell| ensures FailOk(sh, v, c.failures[v]) && LinkOk(sh, t.heads, v, c.links[v]) {
      assert CellOk(sh, t.heads, c.failures, c.links, v);
    }
  }
}
