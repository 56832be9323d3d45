/** The last pass of the builder: nodes are renumbered so that edge `e` leads to node `e + 1`. */
module Renumber {
  import opened Patterns
  import opened Tries
  import opened BreadthFirst

  /** Edges of a breadth-first numbered trie need no targets. */
  function Implicit(starts: seq<nat>, tokens: seq<nat>): Edges {
    Edges(starts, tokens, seq(|tokens|, e requires 0 <= e => e + 1))
  }

  /** A finished visit of the whole trie. */
  ghost predicate Complete(g: Edges, sh: Shape, b: Visit) {
    && |b.order| == |sh.spell| >= 1
    && b.order[|b.order| - 1] + 1 < |g.starts|
    && VisitOk(g, sh, b, |b.order| - 1, g.starts[b.order[|b.order| - 1] + 1])
  }

  ghost function Renamed(sh: Shape, b: Visit): Shape
    requires forall i | 0 <= i < |b.order| :: b.order[i] < |sh.spell|
  {
    Shape(seq(|b.order|, i requires 0 <= i < |b.order| => sh.spell[b.order[i]]),
          b.via,
          seq(|b.order|, i requires 0 <= i < |b.order| => if i == 0 then 0 else i - 1))
  }

  /** Where the children of the node at place `i` begin, as an edge number. */
  ghost function FirstEdge(b: Visit, i: nat): int
    requires |b.first| == |b.order|
  {
    if i < |b.first| then b.first[i] - 1 else |b.order| - 1
  }

  lemma PlaceInRange(g: Edges, sh: Shape, b: Visit, j: nat)
    requires Complete(g, sh, b) && 1 <= j < |b.order|
    ensures b.via[j] < j && b.order[b.via[j]] == sh.par[b.order[j]]
    ensures sh.par[b.order[j]] < |g.starts|
    ensures j - 1 == FirstEdge(b, b.via[j]) + sh.up[b.order[j]] - g.starts[sh.par[b.order[j]]]
    ensures FirstEdge(b, b.via[j]) <= j - 1 < FirstEdge(b, b.via[j] + 1)
  {
    var last := |b.order| - 1;
    assert Reached(g, sh, b, last, g.starts[b.order[last] + 1], j);
    Incoming(g, sh, b.order[j]);
    if b.via[j] < last { assert CountedAt(g, b, b.via[j]); }
  }

  lemma {:induction false} FirstEdgesRise(g: Edges, sh: Shape, b: Visit, i: nat, j: nat)
    requires Complete(g, sh, b) && i <= j <= |b.order|
    ensures FirstEdge(b, i) <= FirstEdge(b, j)
    decreases j
  {
    if i >= j {
    } else {
      FirstEdgesRise(g, sh, b, i, j - 1);
      if j < |b.order| { assert CountedAt(g, b, j - 1); }
    }
  }

  ghost predicate NewEdges(g: Edges, sh: Shape, b: Visit, starts: seq<nat>, tokens: seq<nat>)
    requires Complete(g, sh, b)
  {
    && |starts| == |b.order| + 1 && |tokens| == |b.order| - 1
    && (forall i {:trigger starts[i]} | 0 <= i <= |b.order| :: starts[i] == FirstEdge(b, i))
    && (forall j: nat {:trigger b.order[j]} | 1 <= j < |b.order| ::
          sh.up[b.order[j]] < |g.tokens| && tokens[j - 1] == g.tokens[sh.up[b.order[j]]])
  }

  /** The edge into the node at place `e + 1` belongs to the node the visit came from. */
  lemma OwnerIsVia(g: Edges, sh: Shape, b: Visit, starts: seq<nat>, tokens: seq<nat>, v: nat, e: nat)
    requires Complete(g, sh, b) && NewEdges(g, sh, b, starts, tokens) && Owns(starts, v, e)
    ensures e + 1 < |b.order| && b.via[e + 1] == v
  {
    FirstEdgesRise(g, sh, b, v + 1, |b.order|);
    PlaceInRange(g, sh, b, e + 1);
    var u := b.via[e + 1];
    if u < v { FirstEdgesRise(g, sh, b, u + 1, v); }
    if v < u { FirstEdgesRise(g, sh, b, v + 1, u); }
  }

  lemma RenumberedEdge(g: Edges, sh: Shape, b: Visit, starts: seq<nat>, tokens: seq<nat>, v: nat, e: nat)
    requires Complete(g, sh, b) && NewEdges(g, sh, b, starts, tokens) && Owns(starts, v, e)
    requires Sized(Implicit(starts, tokens), Renamed(sh, b))
    ensures EdgeOk(Implicit(starts, tokens), Renamed(sh, b), v, e)
  {
    OwnerIsVia(g, sh, b, starts, tokens, v, e);
    PlaceInRange(g, sh, b, e + 1);
    Incoming(g, sh, b.order[e + 1]);
    if starts[v] < e {
      OwnerIsVia(g, sh, b, starts, tokens, v, e - 1);
      PlaceInRange(g, sh, b, e);
      assert EdgeOk(g, sh, b.order[v], sh.up[b.order[e + 1]]);
    }
  }

  /** Renumbering keeps the trie: it spells the same strings from the same tokens. */
  lemma RenumberedTrie(g: Edges, sh: Shape, b: Visit, starts: seq<nat>, tokens: seq<nat>)
    requires Complete(g, sh, b) && NewEdges(g, sh, b, starts, tokens)
    ensures TrieOk(Implicit(starts, tokens), Renamed(sh, b))
  {
    var g', sh', n := Implicit(starts, tokens), Renamed(sh, b), |b.order|;
    forall i, j | 0 <= i <= j <= n ensures starts[i] <= starts[j] { FirstEdgesRise(g, sh, b, i, j); }
    assert Sized(g', sh');
    forall v: nat, e: nat | Owns(g'.starts, v, e) ensures EdgeOk(g', sh', v, e) {
      RenumberedEdge(g, sh, b, starts, tokens, v, e);
    }
    forall w: nat | 1 <= w < n ensures NodeOk(g', sh', w) {
      PlaceInRange(g, sh, b, w);
    }
  }

  ghost predicate Inverse(order: seq<nat>, remapped: seq<nat>) {
    forall j {:trigger order[j]} | 0 <= j < |order| :: order[j] < |remapped| && remapped[order[j]] == j
  }

  ghost predicate NewCells(order: seq<nat>, remapped: seq<nat>, failures: seq<nat>, links: seq<nat>, heads: seq<nat>,
                           failures': seq<nat>, links': seq<nat>, heads': seq<nat>) {
    && |order| == |remapped| == |failures| == |links| == |heads|
    && |failures'| == |links'| == |heads'| <= |order|
    && forall i {:trigger order[i]} | 0 <= i < |heads'| ::
         && order[i] < |order| && failures[order[i]] < |order|
         && (links[order[i]] == NONE || links[order[i]] < |order|)
         && failures'[i] == remapped[failures[order[i]]]
         && links'[i] == (if links[order[i]] == NONE then NONE else remapped[links[order[i]]])
         && heads'[i] == heads[order[i]]
  }

  lemma RenamedWords(g: Edges, sh: Shape, b: Visit, heads: seq<nat>, heads': seq<nat>)
    requires Complete(g, sh, b) && |heads| == |heads'| == |b.order|
    requires forall i | 0 <= i < |b.order| :: heads'[i] == heads[b.order[i]]
    ensures Words(Renamed(sh, b)) == Words(sh)
    ensures Terminals(Renamed(sh, b), heads') == Terminals(sh, heads)
  {
    var sh', last := Renamed(sh, b), |b.order| - 1;
    VisitFinished(g, sh, b, last, g.starts[b.order[last] + 1]);
    forall w | w in Words(sh) ensures w in Words(sh') {
      var v :| 0 <= v < |sh.spell| && sh.spell[v] == w;
      assert v in b.order;
      var i :| 0 <= i < |b.order| && b.order[i] == v;
      assert sh'.spell[i] == w;
    }
    forall w | w in Words(sh') ensures w in Words(sh) {
      var i :| 0 <= i < |sh'.spell| && sh'.spell[i] == w;
      assert sh.spell[b.order[i]] == w;
    }
    forall w | w in Terminals(sh, heads) ensures w in Terminals(sh', heads') {
      var v :| 0 <= v < |sh.spell| && heads[v] != NONE && sh.spell[v] == w;
      assert v in b.order;
      var i :| 0 <= i < |b.order| && b.order[i] == v;
      assert heads'[i] == heads[v] && sh'.spell[i] == w;
    }
    forall w | w in Terminals(sh', heads') ensures w in Terminals(sh, heads) {
      var i :| 0 <= i < |sh'.spell| && heads'[i] != NONE && sh'.spell[i] == w;
      assert heads[b.order[i]] == heads'[i] && sh.spell[b.order[i]] == w;
    }
  }

  /** Renumbered links are the links of the renumbered trie. */
  lemma RenumberedLinks(g: Edges, sh: Shape, b: Visit, remapped: seq<nat>, failures: seq<nat>, links: seq<nat>,
                        heads: seq<nat>, failures': seq<nat>, links': seq<nat>, heads': seq<nat>)
    requires Complete(g, sh, b) && Inverse(b.order, remapped)
    requires LinksOk(sh, heads, failures, links)
    requires NewCells(b.order, remapped, failures, links, heads, failures', links', heads')
    requires |heads'| == |b.order|
    ensures LinksOk(Renamed(sh, b), heads', failures', links')
  {
    RenamedWords(g, sh, b, heads, heads');
    forall v: nat | v < |b.order|
      ensures FailOk(Renamed(sh, b), v, failures'[v]) && LinkOk(Renamed(sh, b), heads', v, links'[v])
    {
      RenumberedCell(g, sh, b, remapped, heads, heads', v, failures[b.order[v]], links[b.order[v]]);
    }
  }

  lemma RenumberedCell(g: Edges, sh: Shape, b: Visit, remapped: seq<nat>, heads: seq<nat>, heads': seq<nat>,
                       v: nat, f: nat, l: nat)
    requires Complete(g, sh, b) && Inverse(b.order, remapped) && v < |b.order|
    requires Words(Renamed(sh, b)) == Words(sh) && Terminals(Renamed(sh, b), heads') == Terminals(sh, heads)
    requires FailOk(sh, b.order[v], f) && LinkOk(sh, heads, b.order[v], l)
    ensures f < |remapped| && FailOk(Renamed(sh, b), v, remapped[f])
    ensures l == NONE || l < |remapped|
    ensures LinkOk(Renamed(sh, b), heads', v, if l == NONE then NONE else remapped[l])
  {
    var last := |b.order| - 1;
    VisitFinished(g, sh, b, last, g.starts[b.order[last] + 1]);
    NodeSpellsSomething(g, sh, b.order[v]);
    assert Renamed(sh, b).spell[v] == sh.spell[b.order[v]];
    assert b.order[0] == 0 && f in b.order;
    RemapSpell(sh, b, remapped, f);
    if l != NONE {
      assert l in b.order;
      RemapSpell(sh, b, remapped, l);
    }
  }

  lemma RemapSpell(sh: Shape, b: Visit, remapped: seq<nat>, u: nat)
    requires (forall i | 0 <= i < |b.order| :: b.order[i] < |sh.spell|) && Inverse(b.order, remapped)
    requires u in b.order
    ensures u < |remapped| && remapped[u] < |b.order| && Renamed(sh, b).spell[remapped[u]] == sh.spell[u]
    ensures u == 0 && |b.order| > 0 && b.order[0] == 0 ==> remapped[u] == 0
  {
    var i :| 0 <= i < |b.order| && b.order[i] == u;
  }

  /** Where the ordering loop stands: about to expand a place, or finished. */
  ghost predicate Ordering(g: Edges, sh: Shape, b: Visit, position: nat) {
    && TrieOk(g, sh) && position <= |b.order| <= |sh.spell|
    && (position < |b.order| ==>
          b.order[position] < |g.starts| && VisitOk(g, sh, b, position, g.starts[b.order[position]]))
    && (position == |b.order| ==> Complete(g, sh, b))
  }

  lemma NextPlace(g: Edges, sh: Shape, b: Visit, position: nat)
    requires TrieOk(g, sh) && position < |b.order| && b.order[position] + 1 < |g.starts|
    requires VisitOk(g, sh, b, position, g.starts[b.order[position] + 1])
    ensures Ordering(g, sh, if position + 1 < |b.order| then Advance(b) else b, position + 1)
  {
    NoLonger(b.order, |sh.spell|);
    if position + 1 < |b.order| {
      VisitAdvance(g, sh, b, position, g.starts[b.order[position] + 1]);
    } else {
      VisitFinished(g, sh, b, position, g.starts[b.order[position] + 1]);
    }
  }

  method OrderChildren(g: Edges, order0: seq<nat>, remapped: array<nat>, position: nat, ghost sh: Shape,
                       ghost b0: Visit)
    returns (order: seq<nat>, ghost b: Visit)
    requires Ordering(g, sh, b0, position) && b0.order == order0 && position < |order0|
    requires remapped.Length == |sh.spell| && Inverse(order0, remapped[..])
    modifies remapped
    ensures b.order == order && Inverse(order, remapped[..])
    ensures position < |order| && order[position] + 1 < |g.starts|
    ensures VisitOk(g, sh, b, position, g.starts[order[position] + 1])
  {
    order, b := order0, b0;
    var oldNode := order[position];
    var edge := g.starts[oldNode];
    while edge < g.starts[oldNode + 1]
      invariant edge <= g.starts[oldNode + 1] && position < |order| && order[position] == oldNode
      invariant b.order == order && VisitOk(g, sh, b, position, edge)
      invariant Inverse(order, remapped[..])
    {
      ChildIsNew(g, sh, b, position, edge);
      assert EdgeOk(g, sh, oldNode, edge);
      VisitPush(g, sh, b, position, edge);
      var child := g.targets[edge];
      remapped[child] := |order|;
      order := order + [child];
      b := Push(b, g, position, edge);
      edge := edge + 1;
    }
  }

  method OrderNodes(g: Edges, nodeCount: nat, ghost sh: Shape)
    returns (order: seq<nat>, remapped: seq<nat>, ghost b: Visit)
    requires TrieOk(g, sh) && nodeCount == |sh.spell|
    ensures Complete(g, sh, b) && b.order == order && |remapped| == nodeCount && Inverse(order, remapped)
  {
    order, b := [0], ROOT_VISIT;
    VisitStarts(g, sh);
    var table := new nat[nodeCount](_ => 0);
    var position := 0;
    while position < |order|
      invariant Ordering(g, sh, b, position) && b.order == order
      invariant Inverse(order, table[..])
      decreases nodeCount - position
    {
      order, b := OrderChildren(g, order, table, position, sh, b);
      NextPlace(g, sh, b, position);
      position := position + 1;
      if position < |order| { b := Advance(b); }
    }
    remapped := table[..];
  }

  /** Tokens copied so far stand before the nodes they lead to. */
  ghost predicate Copied(g: Edges, sh: Shape, order: seq<nat>, tokens: seq<nat>) {
    && |tokens| < |order|
    && forall j: nat {:trigger order[j]} | 1 <= j <= |tokens| ::
         order[j] < |sh.up| && sh.up[order[j]] < |g.tokens| && tokens[j - 1] == g.tokens[sh.up[order[j]]]
  }

  lemma CopyToken(g: Edges, sh: Shape, b: Visit, i: nat, e: nat, tokens: seq<nat>)
    requires Complete(g, sh, b) && i < |b.order| && Owns(g.starts, b.order[i], e)
    requires Copied(g, sh, b.order, tokens) && |tokens| == FirstEdge(b, i) + e - g.starts[b.order[i]]
    ensures e < |g.tokens| && Copied(g, sh, b.order, tokens + [g.tokens[e]])
  {
    assert Placed(g, b, i, e);
    assert EdgeOk(g, sh, b.order[i], e);
    var j: nat :| 1 <= j < |b.order| && At(g, b, i, e, j) && b.order[j] == g.targets[e];
    assert j == |tokens| + 1;
  }

  lemma EndOfNode(g: Edges, sh: Shape, b: Visit, i: nat)
    requires Complete(g, sh, b) && i < |b.order|
    ensures b.order[i] + 1 < |g.starts|
    ensures FirstEdge(b, i + 1) == FirstEdge(b, i) + g.starts[b.order[i] + 1] - g.starts[b.order[i]]
  {
    if i + 1 < |b.order| { assert CountedAt(g, b, i); }
  }

  method CopyEdges(g: Edges, order: seq<nat>, ghost sh: Shape, ghost b: Visit)
    returns (starts: seq<nat>, tokens: seq<nat>)
    requires Complete(g, sh, b) && order == b.order
    ensures NewEdges(g, sh, b, starts, tokens)
  {
    starts, tokens := [], [];
    for newNode := 0 to |order|
      invariant |starts| == newNode && |tokens| == FirstEdge(b, newNode)
      invariant forall i | 0 <= i < newNode :: starts[i] == FirstEdge(b, i)
      invariant Copied(g, sh, order, tokens)
    {
      starts := starts + [|tokens|];
      EndOfNode(g, sh, b, newNode);
      var edge := g.starts[order[newNode]];
      while edge < g.starts[order[newNode] + 1]
        invariant g.starts[order[newNode]] <= edge <= g.starts[order[newNode] + 1]
        invariant |tokens| == FirstEdge(b, newNode) + edge - g.starts[order[newNode]]
        invariant Copied(g, sh, order, tokens)
      {
        CopyToken(g, sh, b, newNode, edge, tokens);
        tokens := tokens + [g.tokens[edge]];
        edge := edge + 1;
      }
    }
    starts := starts + [|tokens|];
  }

  method CopyCells(order: seq<nat>, remapped: seq<nat>, failures: seq<nat>, links: seq<nat>, heads: seq<nat>,
                   ghost g: Edges, ghost sh: Shape, ghost b: Visit)
    returns (failures': seq<nat>, links': seq<nat>, heads': seq<nat>)
    requires Complete(g, sh, b) && order == b.order && |remapped| == |order| == |heads|
    requires LinksOk(sh, heads, failures, links)
    ensures NewCells(order, remapped, failures, links, heads, failures', links', heads') && |heads'| == |order|
  {
    failures', links', heads' := [], [], [];
    for newNode := 0 to |order|
      invariant |heads'| == newNode
      invariant NewCells(order, remapped, failures, links, heads, failures', links', heads')
    {
      var oldNode := order[newNode];
      assert FailOk(sh, oldNode, failures[oldNode]) && LinkOk(sh, heads, oldNode, links[oldNode]);
      failures' := failures' + [remapped[failures[oldNode]]];
      if links[oldNode] == NONE {
        links' := links' + [NONE];
      } else {
        links' := links' + [remapped[links[oldNode]]];
      }
      heads' := heads' + [heads[oldNode]];
    }
  }
}
