/** The third pass of the builder: failure and output links, one queue over the whole trie. */
module QueuePass {
  import opened Options
  import opened Patterns
  import opened Suffixes
  import opened Tries
  import opened BreadthFirst
  import Search

  /** Finds the child of `state` under `token` among explicit edge targets. */
  method Direct(g: Edges, state: nat, token: nat, ghost sh: Shape) returns (target: nat, found: bool)
    requires TrieOk(g, sh) && state < |sh.spell|
    ensures found <==> sh.spell[state] + [token] in Words(sh)
    ensures found ==> target < |sh.spell| && sh.spell[target] == sh.spell[state] + [token]
  {
    var start, end := g.starts[state], g.starts[state + 1];
    assert end <= g.starts[|sh.spell|];
    forall i, j | start <= i <= j < end ensures g.tokens[i] <= g.tokens[j] {
      if i < j { TokensSorted(g, sh, state, i, j); }
    }
    var position;
    position, found := Search.BinarySearch(g.tokens[start..end], token);
    if found {
      EdgeMeansWord(g, sh, state, start + position);
      return g.targets[start + position], true;
    }
    forall e: nat | Owns(g.starts, state, e) && e < |g.tokens| ensures g.tokens[e] != token {
      assert g.tokens[e] == g.tokens[start..end][e - start];
    }
    NoEdgeMeansNoWord(g, sh, state, token);
    return 0, false;
  }

  ghost predicate CellOk(sh: Shape, heads: seq<nat>, failures: seq<nat>, links: seq<nat>, x: nat) {
    && x < |failures| && x < |links|
    && FailOk(sh, x, failures[x]) && LinkOk(sh, heads, x, links[x])
  }

  /** Listed nodes have their final links; the others still hold the initial failure. */
  ghost predicate CellsOk(sh: Shape, heads: seq<nat>, order: seq<nat>, failures: seq<nat>, links: seq<nat>) {
    && |failures| == |links| == |heads| == |sh.spell|
    && (forall x: nat | x in order :: CellOk(sh, heads, failures, links, x))
    && (forall x: nat | x < |failures| && x !in order :: failures[x] == 0)
  }

  /** A child of the root keeps the initial links. */
  lemma RootChildLinks(g: Edges, sh: Shape, heads: seq<nat>, edge: nat)
    requires TrieOk(g, sh) && Owns(g.starts, 0, edge) && |heads| == |sh.spell| && heads[0] == NONE
    ensures edge < |g.targets| && FailOk(sh, g.targets[edge], 0) && LinkOk(sh, heads, g.targets[edge], NONE)
  {
    assert EdgeOk(g, sh, 0, edge);
    var c := g.targets[edge];
    assert sh.spell[c] == [g.tokens[edge]] && sh.spell[c][1..] == [];
    assert sh.spell[0] in Words(sh);
    EmptyNotTerminal(g, sh, heads);
    assert LongestIn(Words(sh), []) == Some([]) && LongestIn(Terminals(sh, heads), []) == None;
  }

  lemma EmptyNotTerminal(g: Edges, sh: Shape, heads: seq<nat>)
    requires TrieOk(g, sh) && |heads| == |sh.spell| && heads[0] == NONE
    ensures [] !in Terminals(sh, heads)
  {
    forall v: nat | v < |sh.spell| && sh.spell[v] == [] ensures v == 0 { NodeSpellsSomething(g, sh, v); }
  }

  /** The links of one child, found from nodes no deeper than its parent. */
  method LinkChild(g: Edges, heads: seq<nat>, failures: array<nat>, links: array<nat>, parent: nat, edge: nat,
                   ghost sh: Shape)
    requires TrieOk(g, sh) && Owns(g.starts, parent, edge) && parent != 0
    requires failures != links && failures.Length == links.Length == |heads| == |sh.spell| && heads[0] == NONE
    requires forall x: nat | x < |sh.spell| && Depth(sh, x) <= Depth(sh, parent) ::
               CellOk(sh, heads, failures[..], links[..], x)
    requires edge < |g.targets| && g.targets[edge] < |sh.spell| && failures[g.targets[edge]] == 0
    modifies failures, links
    ensures CellOk(sh, heads, failures[..], links[..], g.targets[edge])
    ensures forall x | 0 <= x < failures.Length && x != g.targets[edge] ::
              failures[x] == old(failures[x]) && links[x] == old(links[x])
  {
    var token, child := g.tokens[edge], g.targets[edge];
    assert EdgeOk(g, sh, parent, edge) && CellOk(sh, heads, failures[..], links[..], parent);
    var failure: nat := failures[parent];
    WalkStart(g, sh, parent, edge, failure);
    ghost var goal := LongestIn(Words(sh), sh.spell[child][1..]);
    var target: nat, found := Direct(g, failure, token, sh);
    while !found && failure != 0
      invariant failures[..] == old(failures[..]) && links[..] == old(links[..])
      invariant failure < |sh.spell| && Depth(sh, failure) < Depth(sh, parent)
      invariant Step(sh, failure, token) == goal
      invariant found <==> sh.spell[failure] + [token] in Words(sh)
      invariant found ==> target < |sh.spell| && sh.spell[target] == sh.spell[failure] + [token]
      decreases Depth(sh, failure)
    {
      assert CellOk(sh, heads, failures[..], links[..], failure);
      WalkOn(g, sh, failure, token, failures[failure]);
      failure := failures[failure];
      target, found := Direct(g, failure, token, sh);
    }
    WalkEnd(g, sh, failure, token);
    if found {
      failures[child] := target;
    }
    failure := failures[child];
    assert FailOk(sh, child, failure) by { NodeSpellsSomething(g, sh, child); }
    assert Depth(sh, failure) <= Depth(sh, parent);
    assert CellOk(sh, heads, old(failures[..]), old(links[..]), failure);
    LinkRule(g, sh, heads, child, failure, links[failure]);
    if heads[failure] != NONE {
      links[child] := failure;
    } else {
      links[child] := links[failure];
    }
  }

  /** Links all children of the queue entry at `position` and enqueues them. */
  method LinkChildren(g: Edges, heads: seq<nat>, failures: array<nat>, links: array<nat>,
                      queue0: seq<nat>, position: nat, ghost sh: Shape, ghost b0: Visit)
    returns (queue: seq<nat>, ghost b: Visit)
    requires position < |queue0| && b0.order == [0] + queue0
    requires TrieOk(g, sh) && queue0[position] < |g.starts|
    requires VisitOk(g, sh, b0, position + 1, g.starts[queue0[position]])
    requires failures != links && failures.Length == links.Length == |heads| > 0 && heads[0] == NONE
    requires CellsOk(sh, heads, b0.order, failures[..], links[..])
    modifies failures, links
    ensures queue0 <= queue && b.order == [0] + queue
    ensures queue[position] + 1 < |g.starts| && VisitOk(g, sh, b, position + 1, g.starts[queue[position] + 1])
    ensures CellsOk(sh, heads, b.order, failures[..], links[..])
  {
    queue, b := queue0, b0;
    var parent := queue[position];
    var edge := g.starts[parent];
    while edge < g.starts[parent + 1]
      invariant edge <= g.starts[parent + 1] && position < |queue|
      invariant queue0 <= queue && b.order == [0] + queue && queue[position] == parent
      invariant VisitOk(g, sh, b, position + 1, edge)
      invariant CellsOk(sh, heads, b.order, failures[..], links[..])
    {
      queue, b := EnqueueChild(g, heads, failures, links, queue, position, edge, sh, b);
      edge := edge + 1;
    }
  }

  method EnqueueChild(g: Edges, heads: seq<nat>, failures: array<nat>, links: array<nat>,
                      queue0: seq<nat>, position: nat, edge: nat, ghost sh: Shape, ghost b0: Visit)
    returns (queue: seq<nat>, ghost b: Visit)
    requires position < |queue0| && b0.order == [0] + queue0
    requires VisitOk(g, sh, b0, position + 1, edge) && Owns(g.starts, queue0[position], edge)
    requires failures != links && failures.Length == links.Length == |heads| > 0 && heads[0] == NONE
    requires CellsOk(sh, heads, b0.order, failures[..], links[..])
    modifies failures, links
    ensures queue0 <= queue && b.order == [0] + queue
    ensures VisitOk(g, sh, b, position + 1, edge + 1)
    ensures CellsOk(sh, heads, b.order, failures[..], links[..])
  {
    var parent := queue0[position];
    ChildIsNew(g, sh, b0, position + 1, edge);
    var child := g.targets[edge];
    assert EdgeOk(g, sh, parent, edge);
    assert b0.order[position + 1] == parent && b0.order[0] == 0;
    forall x: nat | x < |sh.spell| && Depth(sh, x) <= Depth(sh, parent)
      ensures CellOk(sh, heads, failures[..], links[..], x)
    {
      ShallowerListed(g, sh, b0, position + 1, edge, x);
    }
    assert failures[..][child] == 0;
    LinkChild(g, heads, failures, links, parent, edge, sh);
    queue := queue0 + [child];
    b := Push(b0, g, position + 1, edge);
    VisitPush(g, sh, b0, position + 1, edge);
    CellsGrow(sh, heads, b0.order, child, old(failures[..]), old(links[..]), failures[..], links[..]);
  }

  lemma CellsGrow(sh: Shape, heads: seq<nat>, order: seq<nat>, child: nat,
                  failures: seq<nat>, links: seq<nat>, failures': seq<nat>, links': seq<nat>)
    requires CellsOk(sh, heads, order, failures, links) && child !in order
    requires |failures'| == |links'| == |failures|
    requires CellOk(sh, heads, failures', links', child)
    requires forall x | 0 <= x < |failures| && x != child :: failures'[x] == failures[x] && links'[x] == links[x]
    ensures CellsOk(sh, heads, order + [child], failures', links')
  {
    forall x: nat | x in order + [child] ensures CellOk(sh, heads, failures', links', x) {
      if x != child { assert x in order && CellOk(sh, heads, failures, links, x); }
    }
    forall x: nat | x < |failures'| && x !in order + [child] ensures failures'[x] == 0 {
      assert child in order + [child];
      assert x != child;
      assert x !in order;
    }
  }

  /** The root's children enter the queue with the links they start with. */
  method EnqueueRootChildren(g: Edges, ghost sh: Shape, ghost heads: seq<nat>, ghost failures: seq<nat>,
                             ghost links: seq<nat>)
    returns (queue: seq<nat>, ghost b: Visit)
    requires TrieOk(g, sh) && |failures| == |links| == |heads| == |sh.spell| && heads[0] == NONE
    requires (forall x | 0 <= x < |failures| :: failures[x] == 0 && links[x] == NONE)
    ensures b.order == [0] + queue && VisitOk(g, sh, b, 0, g.starts[1])
    ensures CellsOk(sh, heads, b.order, failures, links)
  {
    queue, b := [], ROOT_VISIT;
    VisitStarts(g, sh);
    var edge := g.starts[0];
    while edge < g.starts[1]
      invariant edge <= g.starts[1]
      invariant b.order == [0] + queue && VisitOk(g, sh, b, 0, edge)
      invariant CellsOk(sh, heads, b.order, failures, links)
    {
      assert b.order[0] == 0;
      ChildIsNew(g, sh, b, 0, edge);
      RootChildLinks(g, sh, heads, edge);
      VisitPush(g, sh, b, 0, edge);
      CellsGrow(sh, heads, b.order, g.targets[edge], failures, links, failures, links);
      queue := queue + [g.targets[edge]];
      b := Push(b, g, 0, edge);
      edge := edge + 1;
    }
  }

  /** Where the queue loop stands: about to expand an entry, or finished. */
  ghost predicate Expanding(g: Edges, sh: Shape, b: Visit, queue: seq<nat>, position: nat) {
    && TrieOk(g, sh) && b.order == [0] + queue && position <= |queue|
    && (position < |queue| ==>
        queue[position] < |g.starts| && VisitOk(g, sh, b, position + 1, g.starts[queue[position]]))
    && (position == |queue| ==> forall x: nat | x < |sh.spell| :: x in b.order)
  }

  lemma NextEntry(g: Edges, sh: Shape, b: Visit, queue: seq<nat>, done: nat)
    requires b.order == [0] + queue && done <= |queue|
    requires TrieOk(g, sh) && b.order[done] + 1 < |g.starts| && VisitOk(g, sh, b, done, g.starts[b.order[done] + 1])
    ensures |queue| < |sh.spell|
    ensures Expanding(g, sh, if done < |queue| then Advance(b) else b, queue, done)
  {
    NoLonger(b.order, |sh.spell|);
    if done < |queue| {
      VisitAdvance(g, sh, b, done, g.starts[b.order[done] + 1]);
    } else {
      VisitFinished(g, sh, b, done, g.starts[b.order[done] + 1]);
    }
  }

  method BuildFailures(g: Edges, heads: seq<nat>, ghost sh: Shape) returns (failures: seq<nat>, outputLinks: seq<nat>)
    requires TrieOk(g, sh) && |heads| == |sh.spell| && heads[0] == NONE
    ensures LinksOk(sh, heads, failures, outputLinks)
  {
    var fails := new nat[|heads|](_ => 0);
    var links := new nat[|heads|](_ => NONE);
    var queue;
    ghost var b;
    queue, b := EnqueueRootChildren(g, sh, heads, fails[..], links[..]);
    NextEntry(g, sh, b, queue, 0);
    if 0 < |queue| { b := Advance(b); }
    var position := 0;
    while position < |queue|
      invariant Expanding(g, sh, b, queue, position)
      invariant CellsOk(sh, heads, b.order, fails[..], links[..])
      invariant |queue| < |sh.spell|
      decreases |sh.spell| - position
    {
      queue, b := LinkChildren(g, heads, fails, links, queue, position, sh, b);
      position := position + 1;
      NextEntry(g, sh, b, queue, position);
      if position < |queue| { b := Advance(b); }
    }
    failures, outputLinks := fails[..], links[..];
    forall v: nat | v < |sh.spell| ensures FailOk(sh, v, failures[v]) && LinkOk(sh, heads, v, outputLinks[v]) {
      assert CellOk(sh, heads, failures, outputLinks, v);
    }
  }
}
