/** The check that every chain of pattern values comes to an end. */
module OutputChains {
  import opened Options
  import opened Patterns
  import BreadthFirst

  ghost predicate InRange(next: seq<nat>) {
    |next| <= NONE && forall v | 0 <= v < |next| :: next[v] == NONE || next[v] < |next|
  }

  /** The chain from `v` ends within `k` steps. */
  ghost predicate EndsWithin(next: seq<nat>, v: nat, k: nat)
    decreases k
  {
    v == NONE || (0 < k && v < |next| && EndsWithin(next, next[v], k - 1))
  }

  ghost predicate Ends(next: seq<nat>, v: nat) {
    exists k: nat :: EndsWithin(next, v, k)
  }

  const VISITING: nat := 1
  const VISITED: nat := 2

  ghost predicate Linked(next: seq<nat>, path: seq<nat>, node: nat, i: nat) {
    i < |path| && path[i] < |next| && next[path[i]] == if i + 1 < |path| then path[i + 1] else node
  }

  /** A walk along the chain from `path[0]`, now at `node`. */
  ghost predicate Walk(next: seq<nat>, path: seq<nat>, start: nat, node: nat) {
    && (forall i | 0 <= i < |path| :: path[i] < |next|)
    && (forall i: nat {:trigger Linked(next, path, node, i)} | i < |path| :: Linked(next, path, node, i))
    && start == if path == [] then node else path[0]
  }

  lemma WalkOneMore(next: seq<nat>, path: seq<nat>, start: nat, node: nat)
    requires Walk(next, path, start, node) && node < |next|
    ensures Walk(next, path + [node], start, next[node])
  {
    forall i: nat | i < |path| + 1 ensures Linked(next, path + [node], next[node], i) {
      assert i < |path| ==> Linked(next, path, node, i);
    }
  }

  lemma {:induction false} WalkEnds(next: seq<nat>, path: seq<nat>, start: nat, node: nat, i: nat)
    requires Walk(next, path, start, node) && i < |path| && Ends(next, node)
    ensures Ends(next, path[i])
    decreases |path| - i
  {
    assert Linked(next, path, node, i);
    if i + 1 < |path| { WalkEnds(next, path, start, node, i + 1); }
    var v := if i + 1 < |path| then path[i + 1] else node;
    var k: nat :| EndsWithin(next, v, k);
    assert EndsWithin(next, path[i], k + 1);
  }

  lemma {:induction false} LoopNeverEnds(next: seq<nat>, path: seq<nat>, start: nat, node: nat, m: nat, i: nat, k: nat)
    requires Walk(next, path, start, node) && m <= i < |path| && path[m] == node && |next| <= NONE
    ensures !EndsWithin(next, path[i], k)
    decreases k
  {
    assert Linked(next, path, node, i);
    if k == 0 {
    } else {
      LoopNeverEnds(next, path, start, node, m, if i + 1 < |path| then i + 1 else m, k - 1);
    }
  }

  lemma CycleNeverEnds(next: seq<nat>, path: seq<nat>, start: nat, node: nat)
    requires Walk(next, path, start, node) && node in path && |next| <= NONE
    ensures !Ends(next, node)
  {
    var m :| 0 <= m < |path| && path[m] == node;
    forall k: nat ensures !EndsWithin(next, node, k) { LoopNeverEnds(next, path, start, node, m, m, k); }
  }

  /** Marks while no walk is under way: done nodes end, and lead only to done nodes. */
  ghost predicate Settled(next: seq<nat>, states: seq<nat>) {
    && |states| == |next|
    && forall v {:trigger states[v]} | 0 <= v < |next| ::
         states[v] == 0 || (states[v] == VISITED && Ends(next, v))
  }

  /** Marks during a walk: exactly its nodes are marked as being visited. */
  ghost predicate Walking(next: seq<nat>, before: seq<nat>, path: seq<nat>, states: seq<nat>) {
    && |states| == |before| == |next|
    && forall v: nat {:trigger states[v]} | v < |next| ::
         if v in path then states[v] == VISITING && before[v] == 0 else states[v] == before[v]
  }

  /** Walks from `start` until the chain ends or meets a marked node. */
  method Visit(next: seq<nat>, states: array<nat>, start: nat) returns (node: nat, ghost path: seq<nat>)
    requires InRange(next) && start < |next| && Settled(next, states[..])
    modifies states
    ensures Walk(next, path, start, node) && Walking(next, old(states[..]), path, states[..])
    ensures forall i, j | 0 <= i < j < |path| :: path[i] != path[j]
    ensures node == NONE || (node < |next| && states[node] != 0)
  {
    node, path := start, [];
    while node != NONE && states[node] == 0
      invariant node == NONE || node < |next|
      invariant states.Length == |next|
      invariant Walk(next, path, start, node) && Walking(next, old(states[..]), path, states[..])
      invariant forall i, j | 0 <= i < j < |path| :: path[i] != path[j]
      invariant |path| <= |next|
      decreases |next| - |path|
    {
      assert states[..][node] == 0;
      assert node !in path;
      WalkOneMore(next, path, start, node);
      states[node] := VISITING;
      path := path + [node];
      node := next[node];
      BreadthFirst.NoLonger(path, |next|);
    }
  }

  /** Marks the walk just made as done. */
  method Settle(next: seq<nat>, states: array<nat>, start: nat, ghost path: seq<nat>, ghost last: nat,
                ghost before: seq<nat>)
    requires InRange(next) && Walk(next, path, start, last) && Walking(next, before, path, states[..])
    requires forall i, j | 0 <= i < j < |path| :: path[i] != path[j]
    requires Settled(next, before) && Ends(next, last) && (last == NONE || (last < |next| && last !in path))
    modifies states
    ensures Settled(next, states[..])
    ensures forall v: nat | v < |next| && (before[v] == VISITED || v in path) :: states[v] == VISITED
  {
    var node := start;
    ghost var i := 0;
    while node != NONE && states[node] == VISITING
      invariant i <= |path| && node == if i < |path| then path[i] else last
      invariant states.Length == |next|
      invariant forall j | 0 <= j < i :: states[path[j]] == VISITED
      invariant forall j | i <= j < |path| :: states[path[j]] == VISITING
      invariant forall v: nat {:trigger states[v]} | v < |next| && v !in path :: states[v] == before[v]
      decreases |path| - i
    {
      assert Linked(next, path, last, i);
      states[node] := VISITED;
      node := next[node];
      i := i + 1;
    }
    forall v: nat | v < |next| ensures states[v] == 0 || (states[v] == VISITED && Ends(next, v)) {
      if v in path {
        var j :| 0 <= j < |path| && path[j] == v;
        WalkEnds(next, path, start, last, j);
      } else {
        assert before[v] == 0 || (before[v] == VISITED && Ends(next, v));
      }
    }
  }

  /** Names a value on a cycle, or accepts; it accepts exactly when every chain ends. */
  method ValidateOutputChains(next: seq<nat>) returns (cyclic: Option<nat>)
    requires InRange(next)
    ensures cyclic.None? <==> forall v: nat | v < |next| :: Ends(next, v)
    ensures cyclic.Some? ==> cyclic.value < |next| && !Ends(next, cyclic.value)
  {
    var states := new nat[|next|](_ => 0);
    for start := 0 to |next|
      invariant states.Length == |next|
      invariant Settled(next, states[..])
      invariant forall v: nat | v < start :: states[v] == VISITED
    {
      ghost var before := states[..];
      var node;
      ghost var path;
      node, path := Visit(next, states, start);
      if node != NONE && states[node] == VISITING {
        CycleNeverEnds(next, path, start, node);
        return Some(node);
      }
      assert Ends(next, node) by {
        if node == NONE { assert EndsWithin(next, node, 0); }
      }
      Settle(next, states, start, path, node, before);
    }
    forall v: nat | v < |next| ensures Ends(next, v) {
      assert states[..][v] == VISITED;
    }
    cyclic := None;
  }
}
