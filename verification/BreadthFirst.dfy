/** Breadth-first order of a trie, as the queue passes of the builder produce it. */
module BreadthFirst {
  import opened Tries
  import opened Sequences

  /**
   * `order` lists the nodes reached; node `order[j]` was reached from `order[via[j]]`, and the
   * children of `order[i]` stand at `first[i]` onwards.
   */
  datatype Visit = Visit(order: seq<nat>, via: seq<nat>, first: seq<nat>)

  /** The place in the order of the node behind edge `e` of the node at place `i`. */
  ghost predicate At(g: Edges, b: Visit, i: nat, e: nat, j: nat) {
    i < |b.first| && i < |b.order| && b.order[i] < |g.starts| && j == b.first[i] + e - g.starts[b.order[i]]
  }

  ghost predicate Reached(g: Edges, sh: Shape, b: Visit, pos: nat, edge: nat, j: nat) {
    && j < |b.order| && j < |b.via| && b.via[j] < j && b.via[j] < |b.first|
    && 0 < b.order[j] < |sh.par| && b.order[j] < |sh.up|
    && b.order[b.via[j]] == sh.par[b.order[j]]
    && At(g, b, b.via[j], sh.up[b.order[j]], j)
    && (b.via[j] == pos ==> sh.up[b.order[j]] < edge)
  }

  ghost predicate Placed(g: Edges, b: Visit, i: nat, e: nat) {
    && e < |g.targets|
    && exists j: nat :: 1 <= j < |b.order| && At(g, b, i, e, j) && b.order[j] == g.targets[e]
  }

  ghost predicate Listed(sh: Shape, b: Visit, pos: nat) {
    && pos < |b.order| && |b.via| == |b.order| && |b.first| == pos + 1
    && (forall i | 0 <= i < |b.order| :: b.order[i] < |sh.spell|)
    && b.order[0] == 0 && b.first[0] == 1
    && (forall i, j | 0 <= i < j < |b.order| :: b.order[i] != b.order[j])
    && (forall i, j | 1 <= i <= j < |b.order| :: b.via[i] <= b.via[j])
  }

  ghost predicate CountedAt(g: Edges, b: Visit, i: nat) {
    && i < |b.order| && b.order[i] + 1 < |g.starts| && i + 1 < |b.first|
    && At(g, b, i, g.starts[b.order[i] + 1], b.first[i + 1])
  }

  ghost predicate Counted(g: Edges, b: Visit, pos: nat) {
    forall i: nat {:trigger CountedAt(g, b, i)} | i < pos :: CountedAt(g, b, i)
  }

  ghost predicate Followed(g: Edges, b: Visit, pos: nat, edge: nat) {
    forall i: nat, e: nat | i <= pos && i < |b.order| && Owns(g.starts, b.order[i], e) && (i == pos ==> e < edge) ::
      Placed(g, b, i, e)
  }

  ghost predicate AllReached(g: Edges, sh: Shape, b: Visit, pos: nat, edge: nat) {
    forall j: nat {:trigger Reached(g, sh, b, pos, edge, j)} | 1 <= j < |b.order| ::
      Reached(g, sh, b, pos, edge, j)
  }

  /** All edges of the nodes before `pos`, and those of `order[pos]` before `edge`, have been followed. */
  ghost predicate VisitOk(g: Edges, sh: Shape, b: Visit, pos: nat, edge: nat) {
    && TrieOk(g, sh)
    && Listed(sh, b, pos)
    && g.starts[b.order[pos]] <= edge <= g.starts[b.order[pos] + 1]
    && At(g, b, pos, edge, |b.order|)
    && Counted(g, b, pos)
    && AllReached(g, sh, b, pos, edge)
    && Followed(g, b, pos, edge)
  }

  const ROOT_VISIT := Visit([0], [0], [1])

  function Push(b: Visit, g: Edges, pos: nat, edge: nat): Visit
    requires edge < |g.targets|
  {
    b.(order := b.order + [g.targets[edge]], via := b.via + [pos])
  }

  function Advance(b: Visit): Visit {
    b.(first := b.first + [|b.order|])
  }

  lemma VisitStarts(g: Edges, sh: Shape)
    requires TrieOk(g, sh)
    ensures VisitOk(g, sh, ROOT_VISIT, 0, 0)
  {
  }

  lemma ChildIsNew(g: Edges, sh: Shape, b: Visit, pos: nat, edge: nat)
    requires VisitOk(g, sh, b, pos, edge) && Owns(g.starts, b.order[pos], edge)
    ensures edge < |g.targets| && g.targets[edge] !in b.order
  {
    assert EdgeOk(g, sh, b.order[pos], edge);
    forall j: nat | j < |b.order| ensures b.order[j] != g.targets[edge] {
      assert j == 0 || Reached(g, sh, b, pos, edge, j);
    }
  }

  lemma PushListed(g: Edges, sh: Shape, b: Visit, pos: nat, edge: nat)
    requires VisitOk(g, sh, b, pos, edge) && Owns(g.starts, b.order[pos], edge) && edge < |g.targets|
      && g.targets[edge] < |sh.spell|
    requires g.targets[edge] !in b.order && EdgeOk(g, sh, b.order[pos], edge)
    ensures Listed(sh, Push(b, g, pos, edge), pos)
  {
    var b' := Push(b, g, pos, edge);
    forall i, j | 1 <= i <= j < |b'.order| ensures b'.via[i] <= b'.via[j] {
      assert Reached(g, sh, b, pos, edge, i) || i == |b.order|;
    }
  }

  lemma PushPlaced(g: Edges, sh: Shape, b: Visit, pos: nat, edge: nat)
    requires VisitOk(g, sh, b, pos, edge) && Owns(g.starts, b.order[pos], edge) && edge < |g.targets|
    ensures forall i: nat, e: nat | i <= pos && Owns(g.starts, Push(b, g, pos, edge).order[i], e)
      && (i == pos ==> e < edge + 1) ::
              Placed(g, Push(b, g, pos, edge), i, e)
  {
    var b' := Push(b, g, pos, edge);
    forall i: nat, e: nat | i <= pos && Owns(g.starts, b'.order[i], e) && (i == pos ==> e < edge + 1)
      ensures Placed(g, b', i, e)
    {
      assert b'.order[i] == b.order[i];
      if i < pos || e < edge {
        assert Placed(g, b, i, e);
        var j: nat :| 1 <= j < |b.order| && At(g, b, i, e, j) && b.order[j] == g.targets[e];
        assert At(g, b', i, e, j) && b'.order[j] == g.targets[e];
      } else {
        assert At(g, b', i, e, |b.order|);
      }
    }
  }

  lemma VisitPush(g: Edges, sh: Shape, b: Visit, pos: nat, edge: nat)
    requires VisitOk(g, sh, b, pos, edge) && Owns(g.starts, b.order[pos], edge)
    ensures edge < |g.targets| && VisitOk(g, sh, Push(b, g, pos, edge), pos, edge + 1)
  {
    assert EdgeOk(g, sh, b.order[pos], edge);
    ChildIsNew(g, sh, b, pos, edge);
    var b' := Push(b, g, pos, edge);
    PushListed(g, sh, b, pos, edge);
    PushPlaced(g, sh, b, pos, edge);
    forall i: nat {:trigger CountedAt(g, b', i)} | i < pos ensures CountedAt(g, b', i) {
      assert CountedAt(g, b, i);
    }
    forall j: nat {:trigger Reached(g, sh, b', pos, edge + 1, j)} | 1 <= j < |b'.order|
      ensures Reached(g, sh, b', pos, edge + 1, j)
    {
      if j < |b.order| {
        assert Reached(g, sh, b, pos, edge, j);
        assert b'.order[b.via[j]] == b.order[b.via[j]];
      }
    }
  }

  lemma VisitAdvance(g: Edges, sh: Shape, b: Visit, pos: nat, edge: nat)
    requires VisitOk(g, sh, b, pos, edge)
    requires edge == g.starts[b.order[pos] + 1] && pos + 1 < |b.order|
    ensures VisitOk(g, sh, Advance(b), pos + 1, g.starts[b.order[pos + 1]])
  {
    var b' := Advance(b);
    var edge' := g.starts[b.order[pos + 1]];
    assert Counted(g, b', pos + 1) by {
      forall i: nat {:trigger CountedAt(g, b', i)} | i <= pos ensures CountedAt(g, b', i) {
        if i < pos { assert CountedAt(g, b, i); }
      }
    }
    forall j: nat {:trigger Reached(g, sh, b', pos + 1, edge', j)} | 1 <= j < |b'.order|
      ensures Reached(g, sh, b', pos + 1, edge', j)
    {
      assert Reached(g, sh, b, pos, edge, j);
    }
    assert Followed(g, b', pos + 1, edge') by {
      forall i: nat, e: nat | i <= pos + 1 && i < |b'.order| && Owns(g.starts, b'.order[i], e)
          && (i == pos + 1 ==> e < edge')
        ensures Placed(g, b', i, e)
      {
        assert Placed(g, b, i, e);
        var j: nat :| 1 <= j < |b.order| && At(g, b, i, e, j) && b.order[j] == g.targets[e];
        assert At(g, b', i, e, j);
      }
    }
  }

  function Depth(sh: Shape, v: nat): nat
    requires v < |sh.spell|
  {
    |sh.spell[v]|
  }

  lemma {:induction false} DepthsRise(g: Edges, sh: Shape, b: Visit, pos: nat, edge: nat, i: nat, j: nat)
    requires VisitOk(g, sh, b, pos, edge) && i <= j < |b.order|
    ensures Depth(sh, b.order[i]) <= Depth(sh, b.order[j])
    decreases j
  {
    if 1 <= i < j {
      assert Reached(g, sh, b, pos, edge, i) && Reached(g, sh, b, pos, edge, j);
      Incoming(g, sh, b.order[i]);
      Incoming(g, sh, b.order[j]);
      DepthsRise(g, sh, b, pos, edge, b.via[i], b.via[j]);
    }
  }

  /** While `order[pos]` is being expanded, every node at most as deep is already listed. */
  lemma {:induction false} ShallowerListed(g: Edges, sh: Shape, b: Visit, pos: nat, edge: nat, x: nat)
    requires VisitOk(g, sh, b, pos, edge)
    requires x < |sh.spell| && Depth(sh, x) <= Depth(sh, b.order[pos])
    ensures x in b.order
    decreases |sh.spell[x]|
  {
    if x != 0 {
      Incoming(g, sh, x);
      ShallowerListed(g, sh, b, pos, edge, sh.par[x]);
      var i :| 0 <= i < |b.order| && b.order[i] == sh.par[x];
      if pos <= i { DepthsRise(g, sh, b, pos, edge, pos, i); }
      assert Placed(g, b, i, sh.up[x]);
    } else {
      assert b.order[0] == 0;
    }
  }

  lemma {:induction false} EveryNodeListed(g: Edges, sh: Shape, b: Visit, pos: nat, edge: nat, x: nat)
    requires VisitOk(g, sh, b, pos, edge)
    requires edge == g.starts[b.order[pos] + 1] && pos + 1 == |b.order| && x < |sh.spell|
    ensures x in b.order
    decreases |sh.spell[x]|
  {
    if x != 0 {
      Incoming(g, sh, x);
      EveryNodeListed(g, sh, b, pos, edge, sh.par[x]);
      var i :| 0 <= i < |b.order| && b.order[i] == sh.par[x];
      assert Placed(g, b, i, sh.up[x]);
    } else {
      assert b.order[0] == 0;
    }
  }

  /** The finished order is a permutation of all nodes. */
  lemma VisitFinished(g: Edges, sh: Shape, b: Visit, pos: nat, edge: nat)
    requires VisitOk(g, sh, b, pos, edge)
    requires edge == g.starts[b.order[pos] + 1] && pos + 1 == |b.order|
    ensures |b.order| == |sh.spell|
    ensures forall x: nat | x < |sh.spell| :: x in b.order
  {
    forall x: nat | x < |sh.spell| ensures x in b.order { EveryNodeListed(g, sh, b, pos, edge, x); }
    SameLength(b.order, |sh.spell|);
  }

  ghost predicate DistinctBelow(s: seq<nat>, n: nat) {
    && (forall i, j | 0 <= i < j < |s| :: s[i] != s[j])
    && forall i | 0 <= i < |s| :: s[i] < n
  }

  /** Dropping the largest of distinct numbers. */
  lemma DropLargest(s: seq<nat>, n: nat, k: nat)
    requires DistinctBelow(s, n) && k < |s| && s[k] == n - 1
    ensures DistinctBelow(Without(s, k), n - 1) && |Without(s, k)| == |s| - 1
    ensures forall x | x in s && x != s[k] :: x in Without(s, k)
  {
    var r := Without(s, k);
    assert forall i | 0 <= i < |r| :: r[i] == if i < k then s[i] else s[i + 1];
    forall x | x in s && x != s[k] ensures x in r {
      var i :| 0 <= i < |s| && s[i] == x;
      assert r[if i < k then i else i - 1] == x;
    }
  }

  /** A list of distinct numbers below `n` that misses none has length `n`. */
  lemma {:induction false} SameLength(s: seq<nat>, n: nat)
    requires DistinctBelow(s, n) && forall x: nat | x < n :: x in s
    ensures |s| == n
  {
    assert s != [] ==> s[0] < n;
    if n == 0 {
    } else {
      assert n - 1 in s;
      var k :| 0 <= k < |s| && s[k] == n - 1;
      DropLargest(s, n, k);
      SameLength(Without(s, k), n - 1);
    }
  }

  /** Distinct numbers below `n` are at most `n`. */
  lemma {:induction false} NoLonger(s: seq<nat>, n: nat)
    requires DistinctBelow(s, n)
    ensures |s| <= n
  {
    if s == [] {
    } else {
      assert s[0] < n;
      if n - 1 in s {
        var k :| 0 <= k < |s| && s[k] == n - 1;
        DropLargest(s, n, k);
        NoLonger(Without(s, k), n - 1);
      } else {
        forall i | 0 <= i < |s| ensures s[i] < n - 1 { assert s[i] in s; }
        NoLonger(s, n - 1);
      }
    }
  }
}
