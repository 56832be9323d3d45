/** Token tries stored as flat edge arrays, and what their failure and output links must be. */
module Tries {
  import opened Options
  import opened Patterns
  import opened Suffixes

  /** Node `v` owns edges `starts[v]..starts[v+1]`; edge `e` carries `tokens[e]` to `targets[e]`. */
  datatype Edges = Edges(starts: seq<nat>, tokens: seq<nat>, targets: seq<nat>)

  /** The string each node spells, and the parent and incoming edge of every node but the root. */
  datatype Shape = Shape(spell: seq<Word>, par: seq<nat>, up: seq<nat>)

  ghost predicate Grouped(starts: seq<nat>, n: nat) {
    && n >= 1
    && |starts| == n + 1
    && starts[0] == 0 && starts[n] == n - 1
    && forall i, j | 0 <= i <= j <= n :: starts[i] <= starts[j]
  }

  ghost predicate Sized(g: Edges, sh: Shape) {
    var n := |sh.spell|;
    && 1 <= n <= NONE
    && Grouped(g.starts, n)
    && |g.tokens| == |g.targets| == n - 1
    && |sh.par| == |sh.up| == n
    && sh.spell[0] == []
  }

  predicate Owns(starts: seq<nat>, v: nat, e: nat) {
    v + 1 < |starts| && starts[v] <= e < starts[v + 1]
  }

  ghost predicate EdgeOk(g: Edges, sh: Shape, v: nat, e: nat)
    requires Sized(g, sh) && Owns(g.starts, v, e)
  {
    assert g.starts[v + 1] <= g.starts[|sh.spell|];
    var c := g.targets[e];
    && 1 <= c < |sh.spell|
    && sh.par[c] == v && sh.up[c] == e
    && sh.spell[c] == sh.spell[v] + [g.tokens[e]]
    && (g.starts[v] < e ==> g.tokens[e - 1] < g.tokens[e])
  }

  ghost predicate NodeOk(g: Edges, sh: Shape, w: nat)
    requires Sized(g, sh) && w < |sh.spell|
  {
    && sh.par[w] < |sh.spell|
    && Owns(g.starts, sh.par[w], sh.up[w])
    && sh.up[w] < |g.targets| && g.targets[sh.up[w]] == w
  }

  ghost predicate TrieOk(g: Edges, sh: Shape) {
    && Sized(g, sh)
    && (forall v: nat, e: nat | Owns(g.starts, v, e) :: EdgeOk(g, sh, v, e))
    && (forall w: nat | 1 <= w < |sh.spell| :: NodeOk(g, sh, w))
  }

  ghost function Words(sh: Shape): set<Word> {
    set w | w in sh.spell
  }

  ghost function Terminals(sh: Shape, heads: seq<nat>): set<Word> {
    set v | 0 <= v < |sh.spell| && v < |heads| && heads[v] != NONE :: sh.spell[v]
  }

  lemma WordsPrefixClosed(g: Edges, sh: Shape)
    requires TrieOk(g, sh)
    ensures PrefixClosed(Words(sh))
  {
    forall w | w in Words(sh) && w != [] ensures w[..|w| - 1] in Words(sh) {
      var c: nat :| c < |sh.spell| && sh.spell[c] == w;
      Incoming(g, sh, c);
    }
    assert sh.spell[0] in Words(sh);
  }

  lemma {:induction false} TokensSorted(g: Edges, sh: Shape, v: nat, e: nat, f: nat)
    requires TrieOk(g, sh) && Owns(g.starts, v, e) && Owns(g.starts, v, f) && e < f
    ensures f < |g.tokens| && g.tokens[e] < g.tokens[f]
    decreases f - e
  {
    assert EdgeOk(g, sh, v, f);
    if e == f - 1 {
    } else {
      TokensSorted(g, sh, v, e, f - 1);
    }
  }

  /** The edge into a node and the string it adds to. */
  lemma Incoming(g: Edges, sh: Shape, w: nat)
    requires TrieOk(g, sh) && 1 <= w < |sh.spell|
    ensures sh.par[w] < |sh.spell| && Owns(g.starts, sh.par[w], sh.up[w])
    ensures sh.up[w] < |g.targets| && g.targets[sh.up[w]] == w
    ensures sh.spell[w] == sh.spell[sh.par[w]] + [g.tokens[sh.up[w]]]
  {
    assert NodeOk(g, sh, w) && EdgeOk(g, sh, sh.par[w], sh.up[w]);
  }

  lemma NodeSpellsSomething(g: Edges, sh: Shape, v: nat)
    requires TrieOk(g, sh) && v < |sh.spell|
    ensures sh.spell[v] == [] <==> v == 0
  {
    if v != 0 { Incoming(g, sh, v); }
  }

  /** No two nodes spell the same string. */
  lemma {:induction false} SpellsDistinct(g: Edges, sh: Shape, a: nat, b: nat)
    requires TrieOk(g, sh) && a < |sh.spell| && b < |sh.spell|
    requires sh.spell[a] == sh.spell[b]
    ensures a == b
    decreases |sh.spell[a]|
  {
    NodeSpellsSomething(g, sh, a);
    NodeSpellsSomething(g, sh, b);
    if a == 0 {
    } else {
      Incoming(g, sh, a);
      Incoming(g, sh, b);
      var w := sh.spell[a];
      assert sh.spell[sh.par[a]] == w[..|w| - 1] == sh.spell[sh.par[b]];
      SpellsDistinct(g, sh, sh.par[a], sh.par[b]);
      assert g.tokens[sh.up[a]] == w[|w| - 1] == g.tokens[sh.up[b]];
      if sh.up[a] < sh.up[b] { TokensSorted(g, sh, sh.par[a], sh.up[a], sh.up[b]); }
      if sh.up[b] < sh.up[a] { TokensSorted(g, sh, sh.par[a], sh.up[b], sh.up[a]); }
    }
  }

  lemma EdgeMeansWord(g: Edges, sh: Shape, v: nat, e: nat)
    requires TrieOk(g, sh) && Owns(g.starts, v, e)
    ensures e < |g.tokens| && g.targets[e] < |sh.spell| && g.targets[e] != 0
    ensures sh.spell[g.targets[e]] == sh.spell[v] + [g.tokens[e]]
    ensures sh.spell[v] + [g.tokens[e]] in Words(sh)
  {
    assert EdgeOk(g, sh, v, e);
  }

  lemma NoEdgeMeansNoWord(g: Edges, sh: Shape, v: nat, t: nat)
    requires TrieOk(g, sh) && v < |sh.spell|
    requires forall e: nat | Owns(g.starts, v, e) && e < |g.tokens| :: g.tokens[e] != t
    ensures sh.spell[v] + [t] !in Words(sh)
  {
    if sh.spell[v] + [t] in Words(sh) {
      var c: nat :| c < |sh.spell| && sh.spell[c] == sh.spell[v] + [t];
      Incoming(g, sh, c);
      assert sh.spell[c][..|sh.spell[v]|] == sh.spell[v];
      assert sh.spell[sh.par[c]] == sh.spell[c][..|sh.spell[c]| - 1];
      assert sh.spell[c][|sh.spell[v]|] == t == g.tokens[sh.up[c]];
      assert Owns(g.starts, sh.par[c], sh.up[c]);
      SpellsDistinct(g, sh, v, sh.par[c]);
      assert false;
    }
  }

  // What the links must be -------------------------------------------------

  /** The failure of a node spells the longest proper suffix that the trie also spells. */
  ghost predicate FailOk(sh: Shape, v: nat, f: nat) {
    && v < |sh.spell| && f < |sh.spell|
    && if v == 0 || sh.spell[v] == [] then f == 0
       else LongestIn(Words(sh), sh.spell[v][1..]) == Some(sh.spell[f])
  }

  /** The output link of a node leads to the longest proper suffix that is a whole pattern. */
  ghost predicate LinkOk(sh: Shape, heads: seq<nat>, v: nat, l: nat) {
    && v < |sh.spell|
    && if v == 0 || sh.spell[v] == [] then l == NONE
       else match LongestIn(Terminals(sh, heads), sh.spell[v][1..])
         case None => l == NONE
         case Some(s) => l < |sh.spell| && sh.spell[l] == s
  }

  ghost predicate LinksOk(sh: Shape, heads: seq<nat>, failures: seq<nat>, links: seq<nat>) {
    && |failures| == |links| == |sh.spell|
    && (forall v: nat | v < |sh.spell| :: FailOk(sh, v, failures[v]))
    && (forall v: nat | v < |sh.spell| :: LinkOk(sh, heads, v, links[v]))
  }

  lemma CellUnique(g: Edges, sh: Shape, heads: seq<nat>, v: nat, f: nat, l: nat, f': nat, l': nat)
    requires TrieOk(g, sh) && FailOk(sh, v, f) && FailOk(sh, v, f') && LinkOk(sh, heads, v, l)
      && LinkOk(sh, heads, v, l')
    ensures f == f' && l == l'
  {
    if v != 0 && sh.spell[v] != [] {
      SpellsDistinct(g, sh, f, f');
      if l < |sh.spell| && l' < |sh.spell| { SpellsDistinct(g, sh, l, l'); }
    }
  }

  /** The trie leaves no freedom in its links. */
  lemma LinksUnique(g: Edges, sh: Shape, heads: seq<nat>,
                    failures: seq<nat>, links: seq<nat>, failures': seq<nat>, links': seq<nat>)
    requires TrieOk(g, sh)
    requires LinksOk(sh, heads, failures, links) && LinksOk(sh, heads, failures', links')
    ensures failures == failures' && links == links'
  {
    forall v: nat | v < |sh.spell| ensures failures[v] == failures'[v] && links[v] == links'[v] {
      CellUnique(g, sh, heads, v, failures[v], links[v], failures'[v], links'[v]);
    }
  }

  // How a builder finds them -----------------------------------------------

  ghost function Step(sh: Shape, v: nat, t: nat): Option<Word>
    requires v < |sh.spell|
  {
    LongestIn(Words(sh), sh.spell[v] + [t])
  }

  /** A child's failure is one step from its parent's failure. */
  lemma WalkStart(g: Edges, sh: Shape, parent: nat, edge: nat, f: nat)
    requires TrieOk(g, sh) && Owns(g.starts, parent, edge) && parent != 0
    requires FailOk(sh, parent, f)
    ensures edge < |g.targets| && g.targets[edge] < |sh.spell|
    ensures LongestIn(Words(sh), sh.spell[g.targets[edge]][1..]) == Step(sh, f, g.tokens[edge])
    ensures |sh.spell[f]| < |sh.spell[parent]|
  {
    assert EdgeOk(g, sh, parent, edge);
    var s, t := sh.spell[parent], g.tokens[edge];
    NodeSpellsSomething(g, sh, parent);
    assert (s + [t])[1..] == s[1..] + [t];
    WordsPrefixClosed(g, sh);
    LongestStep(Words(sh), s[1..], t);
    LongestExists(Words(sh), s[1..]);
  }

  /** A missing edge passes the search on to the failure node, whose string is shorter. */
  lemma WalkOn(g: Edges, sh: Shape, f: nat, t: nat, f': nat)
    requires TrieOk(g, sh) && f < |sh.spell| && f != 0 && FailOk(sh, f, f')
    requires sh.spell[f] + [t] !in Words(sh)
    ensures Step(sh, f, t) == Step(sh, f', t)
    ensures |sh.spell[f']| < |sh.spell[f]|
  {
    var s := sh.spell[f];
    NodeSpellsSomething(g, sh, f);
    assert (s + [t])[1..] == s[1..] + [t];
    WordsPrefixClosed(g, sh);
    LongestStep(Words(sh), s[1..], t);
    LongestExists(Words(sh), s[1..]);
  }

  /** The search ends: at an edge, or at the root without one. */
  lemma WalkEnd(g: Edges, sh: Shape, f: nat, t: nat)
    requires TrieOk(g, sh) && f < |sh.spell|
    requires sh.spell[f] + [t] in Words(sh) || f == 0
    ensures Step(sh, f, t) == Some(if sh.spell[f] + [t] in Words(sh) then sh.spell[f] + [t] else sh.spell[0])
  {
    if sh.spell[f] + [t] !in Words(sh) {
      assert sh.spell[0] in Words(sh);
      assert sh.spell[f] + [t] == [t] && [t][1..] == [];
      assert LongestIn(Words(sh), [t][1..]) == Some([]);
    }
  }

  /** The output link follows from the failure node's own head and link. */
  lemma LinkRule(g: Edges, sh: Shape, heads: seq<nat>, v: nat, f: nat, l: nat)
    requires TrieOk(g, sh) && 0 < v < |sh.spell| && |heads| == |sh.spell| && heads[0] == NONE
    requires FailOk(sh, v, f) && LinkOk(sh, heads, f, l)
    ensures LinkOk(sh, heads, v, if heads[f] != NONE then f else l)
    ensures |sh.spell[f]| < |sh.spell[v]|
  {
    NodeSpellsSomething(g, sh, v);
    NodeSpellsSomething(g, sh, f);
    var p, q := Words(sh), Terminals(sh, heads);
    var s, r := sh.spell[v], sh.spell[f];
    assert sh.spell[0] in p;
    LongestThrough(p, q, s[1..]);
    LongestExists(p, s[1..]);
    if heads[f] != NONE {
      assert r in q;
    } else if r in q {
      var u :| 0 <= u < |sh.spell| && heads[u] != NONE && sh.spell[u] == r;
      SpellsDistinct(g, sh, u, f);
    }
  }
}
