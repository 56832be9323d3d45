/** The second pass of the builder: a counting sort groups the edges by their source node. */
module EdgeArrays {
  import opened Options
  import opened Patterns
  import opened Suffixes
  import opened Tries
  import opened TrieRows

  /** Children of `p` among the nodes before `k`. */
  ghost function Count(parents: seq<nat>, p: nat, k: nat): nat
    requires k <= |parents|
  {
    if k <= 1 then 0 else Count(parents, p, k - 1) + if parents[k - 1] == p then 1 else 0
  }

  /** Children of the nodes before `p` among the nodes before `k`. */
  ghost function Sum(parents: seq<nat>, p: nat, k: nat): nat
    requires k <= |parents|
  {
    if p == 0 then 0 else Sum(parents, p - 1, k) + Count(parents, p - 1, k)
  }

  lemma {:induction false} SumStep(parents: seq<nat>, p: nat, k: nat)
    requires 1 <= k < |parents|
    ensures Sum(parents, p, k + 1) == Sum(parents, p, k) + if parents[k] < p then 1 else 0
  {
    if p == 0 {
    } else {
      SumStep(parents, p - 1, k);
    }
  }

  lemma {:induction false} SumAll(parents: seq<nat>, p: nat, k: nat)
    requires 1 <= k <= |parents| && forall v | 1 <= v < k :: parents[v] < p
    ensures Sum(parents, p, k) == k - 1
  {
    if k == 1 {
      SumNone(parents, p);
    } else {
      SumAll(parents, p, k - 1);
      SumStep(parents, p, k - 1);
    }
  }

  lemma {:induction false} SumNone(parents: seq<nat>, p: nat)
    requires 1 <= |parents|
    ensures Sum(parents, p, 1) == 0
  {
    if p == 0 {
    } else {
      SumNone(parents, p - 1);
    }
  }

  lemma {:induction false} SumMonotone(parents: seq<nat>, p: nat, q: nat, k: nat)
    requires p <= q && k <= |parents|
    ensures Sum(parents, p, k) <= Sum(parents, q, k)
    decreases q
  {
    if p == q {
    } else {
      SumMonotone(parents, p, q - 1, k);
    }
  }

  lemma {:induction false} CountMonotone(parents: seq<nat>, p: nat, j: nat, k: nat)
    requires j <= k <= |parents|
    ensures Count(parents, p, j) <= Count(parents, p, k)
    decreases k
  {
    if j == k {
    } else {
      CountMonotone(parents, p, j, k - 1);
    }
  }

  ghost predicate StartsOk(parents: seq<nat>, starts: seq<nat>) {
    && |parents| >= 1 && |starts| == |parents| + 1
    && forall p {:trigger starts[p]} | 0 <= p <= |parents| :: starts[p] == Sum(parents, p, |parents|)
  }

  lemma StartsGrouped(parents: seq<nat>, starts: seq<nat>)
    requires StartsOk(parents, starts) && forall v | 1 <= v < |parents| :: parents[v] < |parents|
    ensures Grouped(starts, |parents|)
  {
    SumAll(parents, |parents|, |parents|);
    forall i, j | 0 <= i <= j <= |parents| ensures starts[i] <= starts[j] {
      SumMonotone(parents, i, j, |parents|);
    }
  }

  method CountChildren(parents: seq<nat>) returns (edgeStarts: array<nat>)
    requires |parents| >= 1 && forall v | 1 <= v < |parents| :: parents[v] < |parents|
    ensures fresh(edgeStarts) && edgeStarts.Length == |parents| + 1 && edgeStarts[0] == 0
    ensures forall q | 1 <= q <= |parents| :: edgeStarts[q] == Count(parents, q - 1, |parents|)
  {
    var n := |parents|;
    edgeStarts := new nat[n + 1](_ => 0);
    for node := 1 to n
      invariant edgeStarts[0] == 0
      invariant forall q | 1 <= q <= n :: edgeStarts[q] == Count(parents, q - 1, node)
    {
      edgeStarts[parents[node] + 1] := edgeStarts[parents[node] + 1] + 1;
    }
  }

  ghost function Totals(parents: seq<nat>): (totals: seq<nat>)
    ensures |totals| == |parents| + 1
  {
    seq(|parents| + 1, p requires 0 <= p => Sum(parents, p, |parents|))
  }

  /** Turns the counts into running totals in place. */
  method Accumulate(edgeStarts: array<nat>, ghost totals: seq<nat>)
    requires edgeStarts.Length == |totals| >= 1 && edgeStarts[0] == totals[0]
    requires forall q | 1 <= q < |totals| :: totals[q] == totals[q - 1] + edgeStarts[q]
    modifies edgeStarts
    ensures edgeStarts[..] == totals
  {
    for node := 1 to edgeStarts.Length
      invariant forall q | 0 <= q < node :: edgeStarts[q] == totals[q]
      invariant forall q | node <= q < edgeStarts.Length :: edgeStarts[q] == old(edgeStarts[q])
    {
      edgeStarts[node] := edgeStarts[node] + edgeStarts[node - 1];
    }
  }

  method CountStarts(parents: seq<nat>) returns (starts: seq<nat>)
    requires |parents| >= 1 && forall v | 1 <= v < |parents| :: parents[v] < |parents|
    ensures StartsOk(parents, starts)
  {
    var edgeStarts := CountChildren(parents);
    Accumulate(edgeStarts, Totals(parents));
    starts := edgeStarts[..];
  }

  /** Slot `e` holds a child of `p`, after the children placed before it. */
  ghost predicate SlotOk(parents: seq<nat>, incoming: seq<nat>, starts: seq<nat>, tokens: seq<nat>, targets: seq<nat>,
                         up: seq<nat>, p: nat, e: nat) {
    && e < |tokens| == |targets| && p < |starts|
    && var c := targets[e];
    && 1 <= c < |parents| && c < |incoming| && c < |up|
    && parents[c] == p && tokens[e] == incoming[c] && up[c] == e
    && (starts[p] < e ==> targets[e - 1] < c)
  }

  /** Node `v` has its own slot. */
  ghost predicate HomeOk(parents: seq<nat>, starts: seq<nat>, targets: seq<nat>, up: seq<nat>, v: nat) {
    && v < |parents| == |up| && parents[v] < |starts|
    && up[v] == starts[parents[v]] + Count(parents, parents[v], v) && up[v] < |targets| && targets[up[v]] == v
  }

  ghost predicate Filled(parents: seq<nat>, incoming: seq<nat>, starts: seq<nat>, tokens: seq<nat>, targets: seq<nat>,
                         up: seq<nat>, node: nat) {
    && 1 <= node <= |parents| == |incoming| == |up| && StartsOk(parents, starts)
    && |tokens| == |targets| == |parents| - 1
    && (forall p: nat, e: nat {:trigger SlotOk(parents, incoming, starts, tokens, targets, up, p, e)} |
          p < |parents| && starts[p] <= e < starts[p] + Count(parents, p, node) ::
          SlotOk(parents, incoming, starts, tokens, targets, up, p, e) && targets[e] < node)
    && (forall v: nat {:trigger HomeOk(parents, starts, targets, up, v)} | 1 <= v < node ::
        HomeOk(parents, starts, targets, up, v))
  }

  /** The next slot of a parent lies inside its range, and no two slots coincide. */
  lemma SlotInRange(parents: seq<nat>, starts: seq<nat>, p: nat, node: nat)
    requires StartsOk(parents, starts) && 1 <= node < |parents| && parents[node] == p < |parents|
    requires forall v | 1 <= v < |parents| :: parents[v] < |parents|
    ensures starts[p] + Count(parents, p, node) < starts[p + 1] <= |parents| - 1
  {
    CountMonotone(parents, p, node + 1, |parents|);
    StartsGrouped(parents, starts);
  }

  lemma SlotsApart(parents: seq<nat>, starts: seq<nat>, node: nat, p: nat, e: nat)
    requires StartsOk(parents, starts) && 1 <= node < |parents| && p < |parents|
    requires forall v | 1 <= v < |parents| :: parents[v] < |parents|
    requires starts[p] <= e < starts[p] + Count(parents, p, node)
    ensures e != starts[parents[node]] + Count(parents, parents[node], node)
  {
    var parent := parents[node];
    SlotInRange(parents, starts, parent, node);
    StartsGrouped(parents, starts);
    CountMonotone(parents, p, node, |parents|);
    assert starts[p + 1] == starts[p] + Count(parents, p, |parents|);
    if p < parent { assert starts[p + 1] <= starts[parent]; }
    if p > parent { assert starts[parent + 1] <= starts[p]; }
  }

  lemma SlotStep(parents: seq<nat>, incoming: seq<nat>, starts: seq<nat>, tokens: seq<nat>, targets: seq<nat>,
                 up: seq<nat>, node: nat, position: nat, p: nat, e: nat)
    requires Filled(parents, incoming, starts, tokens, targets, up, node) && node < |parents|
    requires forall v | 1 <= v < |parents| :: parents[v] < |parents|
    requires position == starts[parents[node]] + Count(parents, parents[node], node) && position < |tokens|
    requires p < |parents| && starts[p] <= e < starts[p] + Count(parents, p, node + 1)
    ensures SlotOk(parents, incoming, starts, tokens[position := incoming[node]], targets[position := node],
                   up[node := position], p, e)
    ensures targets[position := node][e] < node + 1
  {
    if p == parents[node] && e == position {
      if starts[p] < e { assert SlotOk(parents, incoming, starts, tokens, targets, up, p, e - 1); }
    } else {
      assert Count(parents, p, node + 1) == Count(parents, p, node) + if parents[node] == p then 1 else 0;
      SlotsApart(parents, starts, node, p, e);
      assert SlotOk(parents, incoming, starts, tokens, targets, up, p, e);
      if starts[p] < e { SlotsApart(parents, starts, node, p, e - 1); }
    }
  }

  lemma FillStep(parents: seq<nat>, incoming: seq<nat>, starts: seq<nat>, tokens: seq<nat>, targets: seq<nat>,
                 up: seq<nat>, node: nat, position: nat)
    requires Filled(parents, incoming, starts, tokens, targets, up, node) && node < |parents|
    requires forall v | 1 <= v < |parents| :: parents[v] < |parents|
    requires position == starts[parents[node]] + Count(parents, parents[node], node)
    ensures position < |tokens|
    ensures Filled(parents, incoming, starts, tokens[position := incoming[node]], targets[position := node],
                   up[node := position], node + 1)
  {
    SlotInRange(parents, starts, parents[node], node);
    var tokens', targets', up' := tokens[position := incoming[node]], targets[position := node], up[node := position];
    forall p: nat, e: nat {:trigger SlotOk(parents, incoming, starts, tokens', targets', up', p, e)} |
        p < |parents| && starts[p] <= e < starts[p] + Count(parents, p, node + 1)
      ensures SlotOk(parents, incoming, starts, tokens', targets', up', p, e) && targets'[e] < node + 1
    {
      SlotStep(parents, incoming, starts, tokens, targets, up, node, position, p, e);
    }
    forall v: nat {:trigger HomeOk(parents, starts, targets', up', v)} | 1 <= v < node + 1
      ensures HomeOk(parents, starts, targets', up', v)
    {
      if v < node {
        assert HomeOk(parents, starts, targets, up, v);
        CountMonotone(parents, parents[v], v + 1, node);
        SlotsApart(parents, starts, node, parents[v], up[v]);
      }
    }
  }

  /** Edges sit with their parents, in the order their children were made. */
  ghost predicate GroupedEdges(parents: seq<nat>, incoming: seq<nat>, g: Edges, up: seq<nat>) {
    && Filled(parents, incoming, g.starts, g.tokens, g.targets, up, |parents|)
    && Grouped(g.starts, |parents|)
  }

  ghost predicate SiblingsSorted(parents: seq<nat>, incoming: seq<nat>) {
    |parents| == |incoming| && forall v, w | 1 <= v < w < |parents| && parents[v] == parents[w] ::
      incoming[v] < incoming[w]
  }

  predicate RangeSorted(g: Edges, v: nat)
    requires v + 1 < |g.starts| && g.starts[v + 1] <= |g.tokens|
  {
    forall e | g.starts[v] < e < g.starts[v + 1] :: g.tokens[e - 1] < g.tokens[e]
  }

  lemma {:induction false} RangeSortedPairs(g: Edges, v: nat, e: nat, f: nat)
    requires v + 1 < |g.starts| && g.starts[v + 1] <= |g.tokens| && RangeSorted(g, v)
    requires g.starts[v] <= e < f < g.starts[v + 1]
    ensures g.tokens[e] < g.tokens[f]
    decreases f
  {
    assert g.tokens[f - 1] < g.tokens[f];
    if e == f - 1 {
    } else {
      RangeSortedPairs(g, v, e, f - 1);
    }
  }

  lemma EndOfRange(parents: seq<nat>, starts: seq<nat>, p: nat)
    requires StartsOk(parents, starts) && p < |parents|
    ensures starts[p + 1] == starts[p] + Count(parents, p, |parents|)
  {
  }

  lemma UnsortedSiblings(parents: seq<nat>, incoming: seq<nat>, g: Edges, up: seq<nat>, node: nat, edge: nat)
    requires GroupedEdges(parents, incoming, g, up) && node < |parents|
    requires g.starts[node] < edge < g.starts[node + 1] <= |g.tokens| && g.tokens[edge - 1] >= g.tokens[edge]
    ensures !SiblingsSorted(parents, incoming)
  {
    EndOfRange(parents, g.starts, node);
    assert SlotOk(parents, incoming, g.starts, g.tokens, g.targets, up, node, edge - 1);
    assert SlotOk(parents, incoming, g.starts, g.tokens, g.targets, up, node, edge);
  }

  lemma SortedSiblings(parents: seq<nat>, incoming: seq<nat>, g: Edges, up: seq<nat>)
    requires GroupedEdges(parents, incoming, g, up)
    requires forall v | 1 <= v < |parents| :: parents[v] < |parents|
    requires forall v | 0 <= v < |parents| :: g.starts[v + 1] <= |g.tokens| && RangeSorted(g, v)
    ensures SiblingsSorted(parents, incoming)
  {
    forall v, w | 1 <= v < w < |parents| && parents[v] == parents[w] ensures incoming[v] < incoming[w] {
      var p := parents[v];
      EndOfRange(parents, g.starts, p);
      CountMonotone(parents, p, v + 1, w);
      CountMonotone(parents, p, w + 1, |parents|);
      assert HomeOk(parents, g.starts, g.targets, up, v) && HomeOk(parents, g.starts, g.targets, up, w);
      assert SlotOk(parents, incoming, g.starts, g.tokens, g.targets, up, p, up[v]);
      assert SlotOk(parents, incoming, g.starts, g.tokens, g.targets, up, p, up[w]);
      RangeSortedPairs(g, p, up[v], up[w]);
    }
  }

  method PutEdge(edgeTokens: array<nat>, edgeTargets: array<nat>, position: nat, token: nat, node: nat)
    requires edgeTokens != edgeTargets && position < edgeTokens.Length && position < edgeTargets.Length
    modifies edgeTokens, edgeTargets
    ensures edgeTokens[..] == old(edgeTokens[..])[position := token]
    ensures edgeTargets[..] == old(edgeTargets[..])[position := node]
  {
    edgeTokens[position] := token;
    edgeTargets[position] := node;
  }

  method FillEdges(parents: seq<nat>, incoming: seq<nat>, starts: seq<nat>)
    returns (tokens: seq<nat>, targets: seq<nat>, ghost up: seq<nat>)
    requires StartsOk(parents, starts) && |incoming| == |parents|
    requires forall v | 1 <= v < |parents| :: parents[v] < |parents|
    ensures Filled(parents, incoming, starts, tokens, targets, up, |parents|)
  {
    var n := |parents|;
    var edgeTokens := new nat[n - 1](_ => 0);
    var edgeTargets := new nat[n - 1](_ => 0);
    var positions := new nat[n](i requires 0 <= i < n => starts[i]);
    up := seq(n, _ => 0);
    for node := 1 to n
      invariant Filled(parents, incoming, starts, edgeTokens[..], edgeTargets[..], up, node)
      invariant forall p | 0 <= p < n :: positions[p] == starts[p] + Count(parents, p, node)
    {
      var parent := parents[node];
      var position := positions[parent];
      FillStep(parents, incoming, starts, edgeTokens[..], edgeTargets[..], up, node, position);
      PutEdge(edgeTokens, edgeTargets, position, incoming[node], node);
      up := up[node := position];
      positions[parent] := positions[parent] + 1;
    }
    tokens, targets := edgeTokens[..], edgeTargets[..];
  }

  /** Groups edges by parent; fails exactly when some node's child tokens do not rise. */
  method CompactEdges(parents: seq<nat>, incoming: seq<nat>) returns (r: Result<Edges, nat>, ghost up: seq<nat>)
    requires 1 <= |parents| == |incoming| && forall v | 1 <= v < |parents| :: parents[v] < |parents|
    ensures r.Ok? ==> GroupedEdges(parents, incoming, r.value, up)
    ensures r.Ok? <==> SiblingsSorted(parents, incoming)
  {
    var n := |parents|;
    var starts := CountStarts(parents);
    StartsGrouped(parents, starts);
    var tokens, targets;
    tokens, targets, up := FillEdges(parents, incoming, starts);
    var g := Edges(starts, tokens, targets);
    for node := 0 to n
      invariant forall v | 0 <= v < node :: RangeSorted(g, v)
    {
      var edge, end := g.starts[node] + 1, g.starts[node + 1];
      while edge < end
        invariant g.starts[node] < edge
        invariant forall e | g.starts[node] < e < edge && e < end :: g.tokens[e - 1] < g.tokens[e]
      {
        if g.tokens[edge - 1] >= g.tokens[edge] {
          UnsortedSiblings(parents, incoming, g, up, node, edge);
          return Err(node), up;
        }
        edge := edge + 1;
      }
    }
    SortedSiblings(parents, incoming, g, up);
    r := Ok(g);
  }

  /** Rows of a sorted pattern list always compact, into a trie. */
  lemma RowsMakeTrie(spell: seq<Word>, parents: seq<nat>, incoming: seq<nat>)
    requires RowsOk(spell, parents, incoming)
    ensures SiblingsSorted(parents, incoming)
  {
    forall v, w | 1 <= v < w < |parents| && parents[v] == parents[w] ensures incoming[v] < incoming[w] {
      assert LexLess(spell[v], spell[w]);
      LexSiblings(spell[parents[v]], incoming[v], incoming[w]);
    }
  }

  lemma EdgesMakeTrie(spell: seq<Word>, parents: seq<nat>, incoming: seq<nat>, g: Edges, up: seq<nat>)
    requires RowsOk(spell, parents, incoming) && |spell| <= NONE
    requires forall v | 1 <= v < |parents| :: parents[v] < |parents|
    requires GroupedEdges(parents, incoming, g, up) && SiblingsSorted(parents, incoming)
    ensures TrieOk(g, Shape(spell, parents, up))
  {
    var sh := Shape(spell, parents, up);
    forall v: nat, e: nat | Owns(g.starts, v, e) ensures EdgeOk(g, sh, v, e) {
      EndOfRange(parents, g.starts, v);
      assert SlotOk(parents, incoming, g.starts, g.tokens, g.targets, up, v, e);
      if g.starts[v] < e {
        assert SlotOk(parents, incoming, g.starts, g.tokens, g.targets, up, v, e - 1);
      }
    }
    forall w: nat | 1 <= w < |spell| ensures NodeOk(g, sh, w) {
      assert HomeOk(parents, g.starts, g.targets, up, w);
      EndOfRange(parents, g.starts, parents[w]);
      CountMonotone(parents, parents[w], w + 1, |parents|);
    }
  }
}
