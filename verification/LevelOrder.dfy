/** Consequences of breadth-first numbering: parents precede children and depths never fall. */
module LevelOrder {
  import opened Tries
  import opened Renumber

  lemma IncomingEdge(starts: seq<nat>, tokens: seq<nat>, sh: Shape, w: nat)
    requires TrieOk(Implicit(starts, tokens), sh) && 1 <= w < |sh.spell|
    ensures sh.up[w] == w - 1 && sh.par[w] < |sh.spell| && Owns(starts, sh.par[w], w - 1)
    ensures sh.spell[w] == sh.spell[sh.par[w]] + [tokens[w - 1]]
  {
    Incoming(Implicit(starts, tokens), sh, w);
  }

  lemma ParentsRise(starts: seq<nat>, tokens: seq<nat>, sh: Shape, v: nat, w: nat)
    requires TrieOk(Implicit(starts, tokens), sh) && 1 <= v <= w < |sh.spell|
    ensures sh.par[v] <= sh.par[w]
  {
    IncomingEdge(starts, tokens, sh, v);
    IncomingEdge(starts, tokens, sh, w);
  }

  lemma {:induction false} ParentBelow(starts: seq<nat>, tokens: seq<nat>, sh: Shape, w: nat, x: nat)
    requires TrieOk(Implicit(starts, tokens), sh) && 1 <= w <= x < |sh.spell|
    ensures sh.par[w] < w
    decreases |sh.spell[x]|
  {
    if w > sh.par[w] {
    } else {
      ParentsRise(starts, tokens, sh, w, x);
      IncomingEdge(starts, tokens, sh, x);
      ParentBelow(starts, tokens, sh, w, sh.par[x]);
    }
  }

  lemma {:induction false} DepthsRise(starts: seq<nat>, tokens: seq<nat>, sh: Shape, v: nat, w: nat)
    requires TrieOk(Implicit(starts, tokens), sh) && v <= w < |sh.spell|
    ensures |sh.spell[v]| <= |sh.spell[w]|
    decreases w
  {
    if v == 0 {
    } else {
      IncomingEdge(starts, tokens, sh, v);
      IncomingEdge(starts, tokens, sh, w);
      ParentsRise(starts, tokens, sh, v, w);
      ParentBelow(starts, tokens, sh, w, w);
      DepthsRise(starts, tokens, sh, sh.par[v], sh.par[w]);
    }
  }

  /** Every node owns no edge before its own number. */
  lemma StartsAhead(starts: seq<nat>, tokens: seq<nat>, sh: Shape, v: nat)
    requires TrieOk(Implicit(starts, tokens), sh) && v < |sh.spell|
    ensures v <= starts[v]
  {
    if v != 0 {
      IncomingEdge(starts, tokens, sh, v);
      ParentBelow(starts, tokens, sh, v, v);
      assert starts[sh.par[v] + 1] <= starts[v];
    }
  }

  /** Nodes `levelStart..levelEnd` are one level: the next one starts where it ends. */
  ghost predicate Level(starts: seq<nat>, sh: Shape, levelStart: nat, levelEnd: nat, depth: nat) {
    && 1 <= levelStart <= levelEnd <= |sh.spell| && |starts| == |sh.spell| + 1
    && levelEnd == starts[levelStart] + 1
    && (forall v: nat | levelStart <= v < levelEnd :: |sh.spell[v]| == depth)
    && (forall v: nat | v < levelStart :: |sh.spell[v]| < depth)
  }

  lemma FirstLevel(starts: seq<nat>, tokens: seq<nat>, sh: Shape)
    requires TrieOk(Implicit(starts, tokens), sh)
    ensures Level(starts, sh, 1, starts[1] + 1, 1)
  {
    assert starts[1] <= starts[|sh.spell|];
    forall v: nat | 1 <= v < starts[1] + 1 ensures |sh.spell[v]| == 1 {
      assert Owns(starts, 0, v - 1) && EdgeOk(Implicit(starts, tokens), sh, 0, v - 1);
    }
  }

  lemma NextLevel(starts: seq<nat>, tokens: seq<nat>, sh: Shape, levelStart: nat, levelEnd: nat, depth: nat)
    requires TrieOk(Implicit(starts, tokens), sh) && Level(starts, sh, levelStart, levelEnd, depth)
    requires levelStart < levelEnd
    ensures Level(starts, sh, levelEnd, starts[levelEnd] + 1, depth + 1)
  {
    assert starts[levelStart] <= starts[levelEnd] <= starts[|sh.spell|];
    forall v: nat | levelEnd <= v < starts[levelEnd] + 1 ensures |sh.spell[v]| == depth + 1 {
      IncomingEdge(starts, tokens, sh, v);
      ParentInLevel(starts, tokens, sh, levelStart, levelEnd, v);
    }
  }

  /** Edges numbered from a level's first to before its end belong to the level. */
  lemma ParentInLevel(starts: seq<nat>, tokens: seq<nat>, sh: Shape, first: nat, end: nat, v: nat)
    requires TrieOk(Implicit(starts, tokens), sh) && first <= end <= |sh.spell|
    requires 1 <= v < |sh.spell| && starts[first] < v <= starts[end]
    ensures first <= sh.par[v] < end
  {
    IncomingEdge(starts, tokens, sh, v);
  }

  /** A level that starts past the last node is empty, and only such a level is. */
  lemma LevelsEnd(starts: seq<nat>, tokens: seq<nat>, sh: Shape, levelStart: nat, levelEnd: nat, depth: nat)
    requires TrieOk(Implicit(starts, tokens), sh) && Level(starts, sh, levelStart, levelEnd, depth)
    ensures levelStart == levelEnd <==> levelStart == |sh.spell|
  {
    if levelStart < |sh.spell| { StartsAhead(starts, tokens, sh, levelStart); }
  }

  /** Nodes no deeper than a level come before its end. */
  lemma ShallowerBefore(starts: seq<nat>, tokens: seq<nat>, sh: Shape, levelStart: nat, levelEnd: nat, depth: nat,
                        x: nat)
    requires TrieOk(Implicit(starts, tokens), sh) && Level(starts, sh, levelStart, levelEnd, depth)
    requires levelStart < levelEnd && x < |sh.spell| && |sh.spell[x]| <= depth
    ensures x < levelEnd
  {
    if levelEnd <= x {
      NextLevel(starts, tokens, sh, levelStart, levelEnd, depth);
      LevelsEnd(starts, tokens, sh, levelEnd, starts[levelEnd] + 1, depth + 1);
      DepthsRise(starts, tokens, sh, levelEnd, x);
    }
  }

  /** One round of the level loop takes exactly the nodes of one depth. */
  lemma RoundIsDepth(starts: seq<nat>, tokens: seq<nat>, sh: Shape, levelStart: nat, levelEnd: nat, depth: nat, v: nat)
    requires TrieOk(Implicit(starts, tokens), sh) && Level(starts, sh, levelStart, levelEnd, depth)
    requires levelStart < levelEnd && v < |sh.spell|
    ensures levelStart <= v < levelEnd <==> |sh.spell[v]| == depth
  {
    if |sh.spell[v]| == depth { ShallowerBefore(starts, tokens, sh, levelStart, levelEnd, depth, v); }
  }
}
