/** Building an automaton from patterns. */
module AhoBuild {
  import opened Options
  import opened Patterns
  import opened Suffixes
  import opened Tries
  import opened TrieRows
  import opened Outputs
  import opened Automata
  import BreadthFirst
  import EdgeArrays
  import QueuePass
  import Renumber
  import Sorting
  import Sparse

  datatype BuildError =
    | InvalidValueCount
    | ValueExceedsCount(value: nat)
    | DuplicateValue(value: nat)
    | TokenZero(value: nat)
    | TooManyTokens
    | EdgesNotSorted

  function NonEmpty(ps: seq<Pattern>): seq<Pattern> {
    if ps == [] then []
    else
      var last := ps[|ps| - 1];
      NonEmpty(ps[..|ps| - 1]) + (if last.tokens == [] then [] else [last])
  }

  lemma {:induction false} NonEmptyMembers(ps: seq<Pattern>, p: Pattern)
    ensures p in NonEmpty(ps) <==> p in ps && p.tokens != []
  {
    if ps == [] {
    } else {
      assert ps == ps[..|ps| - 1] + [ps[|ps| - 1]];
      NonEmptyMembers(ps[..|ps| - 1], p);
    }
  }

  lemma {:induction false} NonEmptyTotal(ps: seq<Pattern>)
    ensures TotalTokens(NonEmpty(ps)) == TotalTokens(ps)
  {
    if ps == [] {
    } else {
      var init, last := ps[..|ps| - 1], ps[|ps| - 1];
      NonEmptyTotal(init);
      if last.tokens != [] {
        assert (NonEmpty(init) + [last])[..|NonEmpty(init)|] == NonEmpty(init);
      } else {
        assert NonEmpty(ps) == NonEmpty(init);
      }
    }
  }

  lemma {:induction false} NonEmptyDistinct(ps: seq<Pattern>)
    requires DistinctValues(ps)
    ensures DistinctValues(NonEmpty(ps))
  {
    if ps == [] {
    } else {
      var m := |ps| - 1;
      var init := ps[..m];
      NonEmptyDistinct(init);
      var kept := NonEmpty(init);
      forall i | 0 <= i < |kept| ensures kept[i].value != ps[m].value {
        NonEmptyMembers(init, kept[i]);
        var k :| 0 <= k < m && init[k] == kept[i];
        assert ps[k] == kept[i];
      }
    }
  }

  lemma NonEmptyKeeps(ps: seq<Pattern>)
    requires DistinctValues(ps)
    ensures DistinctValues(NonEmpty(ps)) && TotalTokens(NonEmpty(ps)) == TotalTokens(ps)
  {
    NonEmptyDistinct(ps);
    NonEmptyTotal(ps);
  }

  lemma OneMore(ps: seq<Pattern>, i: nat)
    requires i < |ps|
    ensures TotalTokens(ps[..i + 1]) == TotalTokens(ps[..i]) + |ps[i].tokens| <= TotalTokens(ps)
    ensures NonEmpty(ps[..i + 1]) == NonEmpty(ps[..i]) + (if ps[i].tokens == [] then [] else [ps[i]])
  {
    assert ps[..i + 1][..i] == ps[..i];
    TotalOfPrefix(ps, i + 1);
  }

  /** The first `i` patterns pass, with these values seen and this many tokens. */
  ghost predicate Passed(patterns: seq<Pattern>, valueCount: nat, i: nat, seen: seq<bool>, tokenCount: nat) {
    && i <= |patterns| && |seen| == valueCount
    && tokenCount == TotalTokens(patterns[..i]) < NONE
    && (forall k | 0 <= k < i :: patterns[k].value < valueCount && 0 !in patterns[k].tokens && seen[patterns[k].value])
    && (forall v: nat | v < valueCount && seen[v] :: exists k :: 0 <= k < i && patterns[k].value == v)
    && (forall j, k | 0 <= j < k < i :: patterns[j].value != patterns[k].value)
  }

  /** What a rejection says about the list. */
  ghost predicate Justified(patterns: seq<Pattern>, valueCount: int, error: BuildError) {
    match error
    case InvalidValueCount => valueCount < 0 || valueCount > NONE
    case ValueExceedsCount(v) => v >= valueCount && exists p :: p in patterns && p.value == v
    case DuplicateValue(v) => exists i, j :: 0 <= i < j < |patterns| && patterns[i].value == patterns[j].value == v
    case TokenZero(v) => exists p :: p in patterns && p.value == v && 0 in p.tokens
    case TooManyTokens => TotalTokens(patterns) >= NONE
    case EdgesNotSorted => false
  }

  /** Claims the pattern's value. */
  method CheckValue(patterns: seq<Pattern>, valueCount: nat, i: nat, seen: array<bool>, ghost tokenCount: nat)
    returns (error: Option<BuildError>)
    requires i < |patterns| && Passed(patterns, valueCount, i, seen[..], tokenCount)
    modifies seen
    ensures error.Some? ==> Justified(patterns, valueCount, error.value)
    ensures error.None? ==> patterns[i].value < valueCount && !old(seen[..])[patterns[i].value]
    ensures error.None? ==> seen[..] == old(seen[..])[patterns[i].value := true]
  {
    var value := patterns[i].value;
    if value >= valueCount {
      assert patterns[i] in patterns;
      return Some(ValueExceedsCount(value));
    }
    if seen[value] {
      assert seen[..][value];
      return Some(DuplicateValue(value));
    }
    seen[value] := true;
    error := None;
  }

  lemma PassOne(patterns: seq<Pattern>, valueCount: nat, i: nat, seen: seq<bool>, tokenCount: nat)
    requires i < |patterns| && Passed(patterns, valueCount, i, seen, tokenCount)
    requires patterns[i].value < valueCount && !seen[patterns[i].value] && 0 !in patterns[i].tokens
    requires tokenCount + |patterns[i].tokens| < NONE
    ensures Passed(patterns, valueCount, i + 1, seen[patterns[i].value := true], tokenCount + |patterns[i].tokens|)
  {
    OneMore(patterns, i);
  }

  method CheckPattern(patterns: seq<Pattern>, valueCount: nat, i: nat, seen: array<bool>, tokenCount0: nat)
    returns (error: Option<BuildError>, tokenCount: nat)
    requires i < |patterns| && Passed(patterns, valueCount, i, seen[..], tokenCount0)
    modifies seen
    ensures error.None? ==> Passed(patterns, valueCount, i + 1, seen[..], tokenCount)
    ensures error.Some? ==> Justified(patterns, valueCount, error.value)
  {
    var pattern := patterns[i];
    OneMore(patterns, i);
    tokenCount := tokenCount0;
    ghost var before := seen[..];
    error := CheckValue(patterns, valueCount, i, seen, tokenCount);
    if error.Some? {
      return;
    }
    if 0 in pattern.tokens {
      assert pattern in patterns;
      return Some(TokenZero(pattern.value)), tokenCount;
    }
    tokenCount := tokenCount + |pattern.tokens|;
    if |pattern.tokens| != 0 && tokenCount >= NONE {
      return Some(TooManyTokens), tokenCount;
    }
    PassOne(patterns, valueCount, i, before, tokenCount0);
  }

  lemma RejectedNotAcceptable(patterns: seq<Pattern>, valueCount: int, error: BuildError)
    requires Justified(patterns, valueCount, error)
    ensures !Acceptable(patterns, valueCount)
  {
  }

  /** The checks Build makes before it builds anything. */
  method CheckPatterns(patterns: seq<Pattern>, valueCount: int) returns (r: Result<seq<Pattern>, BuildError>)
    ensures r.Ok? <==> Acceptable(patterns, valueCount)
    ensures r.Ok? ==> r.value == NonEmpty(patterns)
    ensures r.Err? ==> Justified(patterns, valueCount, r.error)
  {
    if valueCount < 0 || valueCount > NONE {
      return Err(InvalidValueCount);
    }
    var refs: seq<Pattern> := [];
    var seen := new bool[valueCount](_ => false);
    var tokenCount := 0;
    for i := 0 to |patterns|
      invariant Passed(patterns, valueCount, i, seen[..], tokenCount)
      invariant refs == NonEmpty(patterns[..i])
    {
      OneMore(patterns, i);
      var error;
      error, tokenCount := CheckPattern(patterns, valueCount, i, seen, tokenCount);
      if error.Some? {
        RejectedNotAcceptable(patterns, valueCount, error.value);
        return Err(error.value);
      }
      if |patterns[i].tokens| != 0 {
        refs := refs + [patterns[i]];
      }
    }
    assert patterns[..|patterns|] == patterns;
    r := Ok(refs);
  }

  // What sorting keeps ---------------------------------------------------------

  lemma {:induction false} TotalOfConcat(a: seq<Pattern>, b: seq<Pattern>)
    ensures TotalTokens(a + b) == TotalTokens(a) + TotalTokens(b)
  {
    if b == [] {
      assert a + b == a;
    } else {
      TotalOfConcat(a, b[..|b| - 1]);
      assert (a + b)[..|a + b| - 1] == a + b[..|b| - 1];
    }
  }

  lemma TotalOfCons(p: Pattern, s: seq<Pattern>)
    ensures TotalTokens([p] + s) == |p.tokens| + TotalTokens(s)
  {
    assert [p][..0] == [] && TotalTokens([p]) == |p.tokens|;
    TotalOfConcat([p], s);
  }

  lemma {:induction false} InsertTotal(p: Pattern, s: seq<Pattern>)
    ensures TotalTokens(Sorting.Insert(Before(), p, s)) == |p.tokens| + TotalTokens(s)
  {
    TotalOfCons(p, s);
    if s == [] {
      assert [p] + s == [p];
    } else if !Before()(p, s[0]) {
      InsertTotal(p, s[1..]);
      TotalOfCons(s[0], Sorting.Insert(Before(), p, s[1..]));
      TotalOfCons(s[0], s[1..]);
      assert s == [s[0]] + s[1..];
    }
  }

  lemma {:induction false} InsertMembers(p: Pattern, s: seq<Pattern>, q: Pattern)
    ensures q in Sorting.Insert(Before(), p, s) <==> q == p || q in s
  {
    if s == [] || Before()(p, s[0]) {
    } else {
      InsertMembers(p, s[1..], q);
      assert s == [s[0]] + s[1..];
    }
  }

  lemma {:induction false} InsertDistinct(p: Pattern, s: seq<Pattern>)
    requires DistinctValues(s) && forall q | q in s :: q.value != p.value
    ensures DistinctValues(Sorting.Insert(Before(), p, s))
  {
    if s == [] || Before()(p, s[0]) {
    } else {
      var tail := s[1..];
      assert forall q | q in tail :: q in s;
      InsertDistinct(p, tail);
      var rest := Sorting.Insert(Before(), p, tail);
      forall i | 0 <= i < |rest| ensures rest[i].value != s[0].value {
        InsertMembers(p, tail, rest[i]);
        if rest[i] != p {
          var k :| 0 <= k < |tail| && tail[k] == rest[i];
          assert s[k + 1] == rest[i];
        }
      }
    }
  }

  lemma {:induction false} SortKeeps(s: seq<Pattern>)
    requires DistinctValues(s)
    ensures DistinctValues(Sorting.Sort(Before(), s)) && TotalTokens(Sorting.Sort(Before(), s)) == TotalTokens(s)
    ensures forall q :: q in Sorting.Sort(Before(), s) <==> q in s
  {
    if s == [] {
    } else {
      var tail := s[1..];
      SortKeeps(tail);
      forall q | q in tail ensures q.value != s[0].value {
        var k :| 0 <= k < |tail| && tail[k] == q;
        assert s[k + 1] == q;
      }
      var sorted := Sorting.Sort(Before(), tail);
      InsertDistinct(s[0], sorted);
      InsertTotal(s[0], sorted);
      assert s == [s[0]] + tail;
      TotalOfCons(s[0], tail);
      forall q ensures q in Sorting.Sort(Before(), s) <==> q in s { InsertMembers(s[0], sorted, q); }
    }
  }

  /** The pattern list an automaton is built from: the non-empty patterns in sorted order. */
  function Refs(patterns: seq<Pattern>): seq<Pattern> {
    Sorting.Sort(Before(), NonEmpty(patterns))
  }

  lemma RefsMembers(patterns: seq<Pattern>, p: Pattern)
    requires DistinctValues(patterns)
    ensures p in Refs(patterns) <==> p in patterns && p.tokens != []
  {
    NonEmptyMembers(patterns, p);
    NonEmptyKeeps(patterns);
    SortKeeps(NonEmpty(patterns));
  }

  lemma RefsReady(patterns: seq<Pattern>, valueCount: int)
    requires Acceptable(patterns, valueCount)
    ensures Ready(Refs(patterns), valueCount)
  {
    NonEmptyKeeps(patterns);
    SortKeeps(NonEmpty(patterns));
    BeforeIsTotalOrder();
    Sorting.SortIsSortedPermutation(Before(), NonEmpty(patterns));
    forall p | p in Refs(patterns) ensures p.value < valueCount && p.tokens != [] { RefsMembers(patterns, p); }
  }

  // Building ---------------------------------------------------------------------

  /** Tokens are 32-bit numbers, and no pattern begins with the largest of them. */
  ghost predicate TokensFit(ps: seq<Pattern>) {
    && (forall p, t | p in ps && t in p.tokens :: t <= NONE)
    && forall p | p in ps && p.tokens != [] :: p.tokens[0] < NONE
  }

  ghost predicate NoZeros(ps: seq<Pattern>) {
    forall p | p in ps :: 0 !in p.tokens
  }

  lemma TokensOfWords(ps: seq<Pattern>, starts: seq<nat>, tokens: seq<nat>, sh: Shape)
    requires TrieOk(Renumber.Implicit(starts, tokens), sh) && WordsOk(ps, sh.spell)
    requires TokensFit(ps) && NoZeros(ps)
    ensures TokensBounded(starts, tokens)
  {
    forall e | 0 <= e < |tokens| ensures 0 < tokens[e] <= NONE && (1 < |starts| && e < starts[1] ==> tokens[e] < NONE) {
      EdgeFromPattern(ps, starts, tokens, sh, e);
    }
  }

  /** Every edge's token comes from a pattern, a root edge's from the front of one. */
  lemma EdgeFromPattern(ps: seq<Pattern>, starts: seq<nat>, tokens: seq<nat>, sh: Shape, e: nat)
    requires TrieOk(Renumber.Implicit(starts, tokens), sh) && WordsOk(ps, sh.spell) && e < |tokens|
    ensures exists p :: p in ps && tokens[e] in p.tokens && (e < starts[1] ==> p.tokens[0] == tokens[e])
  {
    var g := Renumber.Implicit(starts, tokens);
    Incoming(g, sh, e + 1);
    assert g.targets[sh.up[e + 1]] == sh.up[e + 1] + 1;
    var w := sh.spell[e + 1];
    assert BeginsSome(ps, w);
    var p :| p in ps && w <= p.tokens;
    assert p.tokens[|w| - 1] == w[|w| - 1] == tokens[e];
    if e < starts[1] {
      assert Owns(starts, 0, e) && EdgeOk(g, sh, 0, e);
      assert w == [tokens[e]];
    }
  }

  lemma {:induction false} FirstSpelled(words: set<Word>, w: Word)
    requires PrefixClosed(words) && w in words && w != []
    ensures [w[0]] in words
    decreases |w|
  {
    if |w| == 1 {
      assert w == [w[0]];
    } else {
      FirstSpelled(words, w[..|w| - 1]);
    }
  }

  /** A pattern's first token is a root edge's. */
  lemma FirstTokenIsRootEdge(ps: seq<Pattern>, starts: seq<nat>, tokens: seq<nat>, sh: Shape, p: Pattern)
    requires TrieOk(Renumber.Implicit(starts, tokens), sh) && WordsOk(ps, sh.spell) && p in ps && p.tokens != []
    ensures exists e: nat :: e < starts[1] && e < |tokens| && tokens[e] == p.tokens[0]
  {
    var g := Renumber.Implicit(starts, tokens);
    WordsPrefixClosed(g, sh);
    assert p.tokens in Words(sh);
    FirstSpelled(Words(sh), p.tokens);
    RootLookup(g, sh, p.tokens[0]);
  }

  /**
   * For the trie of any patterns, the root table has a cell for every root edge exactly when no pattern begins with the
   * largest token.
   */
  lemma RootTableFits(ps: seq<Pattern>, starts: seq<nat>, tokens: seq<nat>, sh: Shape)
    requires TrieOk(Renumber.Implicit(starts, tokens), sh) && WordsOk(ps, sh.spell) && starts[1] > 0
    requires forall p, t | p in ps && t in p.tokens :: t <= NONE
    ensures starts[1] <= |tokens|
    ensures (forall e: nat | e < starts[1] :: tokens[e] < TableLength(tokens[starts[1] - 1])) <==> TokensFit(ps)
  {
    var g, last := Renumber.Implicit(starts, tokens), starts[1] - 1;
    assert starts[1] <= starts[|sh.spell|];
    EdgeFromPattern(ps, starts, tokens, sh, last);
    forall e: nat | e < last ensures tokens[e] < tokens[last] { TokensSorted(g, sh, 0, e, last); }
    if tokens[last] < NONE {
      forall p | p in ps && p.tokens != [] ensures p.tokens[0] < NONE {
        FirstTokenIsRootEdge(ps, starts, tokens, sh, p);
      }
    } else {
      assert TableLength(tokens[last]) == 0;
    }
  }

  /** The rest of the build accepts the failing input: one pattern holding just the largest token. */
  lemma LargestTokenAccepted()
    ensures var ps := [Pattern([NONE], 0)];
      Acceptable(ps, 1) && !TokensFit(ps) && TableLength(NONE) == 0
  {
    var ps := [Pattern([NONE], 0)];
    assert ps[..0] == [];
    assert TotalTokens(ps[..0]) == 0;
    assert ps[0] in ps && ps[0].tokens == [NONE];
  }

  lemma RenamedHeads(ps: seq<Pattern>, g: Edges, sh: Shape, b: BreadthFirst.Visit, heads: seq<nat>, heads': seq<nat>,
                     next: seq<nat>)
    requires Renumber.Complete(g, sh, b) && |heads| == |heads'| == |b.order|
    requires forall i | 0 <= i < |b.order| :: heads'[i] == heads[b.order[i]]
    requires HeadsOk(ps, sh.spell, heads, next) && WordsOk(ps, sh.spell)
    ensures HeadsOk(ps, Renumber.Renamed(sh, b).spell, heads', next) && WordsOk(ps, Renumber.Renamed(sh, b).spell)
    ensures heads[0] == NONE ==> Terminated(Renumber.Renamed(sh, b), heads')
  {
    Renumber.RenamedWords(g, sh, b, heads, heads');
    var spell' := Renumber.Renamed(sh, b).spell;
    assert forall i | 0 <= i < |b.order| :: b.order[i] < |sh.spell| && spell'[i] == sh.spell[b.order[i]];
    RenamedChains(ps, sh.spell, spell', b.order, heads, heads', next);
    forall p | p in ps ensures p.tokens in spell' { assert p.tokens in Words(sh); }
    RenamedPrefixes(ps, sh.spell, spell', b.order);
  }

  lemma RenamedChains(ps: seq<Pattern>, spell: seq<Word>, spell': seq<Word>, order: seq<nat>, heads: seq<nat>,
                      heads': seq<nat>, next: seq<nat>)
    requires HeadsOk(ps, spell, heads, next) && |spell'| == |heads'| == |order|
    requires forall i | 0 <= i < |order| ::
      order[i] < |spell| && spell'[i] == spell[order[i]] && heads'[i] == heads[order[i]]
    ensures HeadsOk(ps, spell', heads', next)
  {
  }

  lemma RenamedPrefixes(ps: seq<Pattern>, spell: seq<Word>, spell': seq<Word>, order: seq<nat>)
    requires WordsOk(ps, spell) && |spell'| == |order|
    requires forall i | 0 <= i < |order| :: order[i] < |spell| && spell'[i] == spell[order[i]]
    requires forall i | 1 <= i < |order| :: order[i] != 0
    requires forall p | p in ps :: p.tokens in spell'
    ensures WordsOk(ps, spell')
  {
    forall v | 1 <= v < |spell'| ensures BeginsSome(ps, spell'[v]) { assert BeginsSome(ps, spell[order[v]]); }
  }

  /** Renumbers breadth-first and packs the links and heads. */
  method ReorderBreadthFirst(g: Edges, failures: seq<nat>, links: seq<nat>, heads: seq<nat>, outputNext: seq<nat>,
                             ghost sh: Shape, ghost ps: seq<Pattern>) returns (automaton: Automaton)
    requires TrieOk(g, sh) && LinksOk(sh, heads, failures, links) && Terminated(sh, heads)
    requires HeadsOk(ps, sh.spell, heads, outputNext) && WordsOk(ps, sh.spell)
    requires TokensFit(ps) && NoZeros(ps)
    ensures fresh(automaton) && automaton.Linked() && automaton.patterns == ps && automaton.outputNext == outputNext
    ensures automaton.packedStarts == [] && automaton.edgeTokens16 == [] && automaton.failures24 == []
  {
    var order, remapped;
    ghost var b;
    order, remapped, b := Renumber.OrderNodes(g, |failures|, sh);
    var starts, tokens := Renumber.CopyEdges(g, order, sh, b);
    var failures', links', heads' := Renumber.CopyCells(order, remapped, failures, links, heads, g, sh, b);
    ghost var sh' := Renumber.Renamed(sh, b);
    Renumber.RenumberedTrie(g, sh, b, starts, tokens);
    Renumber.RenumberedLinks(g, sh, b, remapped, failures, links, heads, failures', links', heads');
    RenamedHeads(ps, g, sh, b, heads, heads', outputNext);
    TokensOfWords(ps, starts, tokens, sh');
    var outputs := Sparse.NewSparseOutputs(links', heads');
    automaton := new Automaton(starts, [], tokens, [], failures', [], outputs, outputNext, ps, sh', links', heads');
  }

  /** Rows, then edges: the trie of the sorted patterns. */
  method BuildTrie(refs: seq<Pattern>, valueCount: nat)
    returns (r: Result<Edges, BuildError>, heads: seq<nat>, outputNext: seq<nat>, ghost sh: Shape)
    requires Ready(refs, valueCount)
    ensures r.Ok? && TrieOk(r.value, sh) && Terminated(sh, heads)
    ensures HeadsOk(refs, sh.spell, heads, outputNext) && WordsOk(refs, sh.spell) && |outputNext| == valueCount
  {
    var parents, incoming;
    ghost var spell;
    parents, incoming, heads, outputNext, spell := BuildRows(refs, valueCount);
    EdgeArrays.RowsMakeTrie(spell, parents, incoming);
    var edges;
    ghost var up;
    edges, up := EdgeArrays.CompactEdges(parents, incoming);
    sh := Shape(spell, parents, up);
    if edges.Err? {
      return Err(EdgesNotSorted), heads, outputNext, sh;
    }
    EdgeArrays.EdgesMakeTrie(spell, parents, incoming, edges.value, up);
    RootHasNoHead(refs, spell, heads, outputNext);
    r := Ok(edges.value);
  }

  /** All passes after the checks, on sorted patterns. */
  method BuildSorted(refs: seq<Pattern>, valueCount: nat) returns (r: Result<Automaton, BuildError>)
    requires Ready(refs, valueCount)
    requires TokensFit(refs) && NoZeros(refs)
    ensures r.Ok? && fresh(r.value) && r.value.Valid() && r.value.patterns == refs
    ensures |r.value.outputNext| == valueCount
    ensures r.value.packedStarts == [] && r.value.edgeTokens16 == [] && r.value.failures24 == []
  {
    var edges, heads, outputNext;
    ghost var sh;
    edges, heads, outputNext, sh := BuildTrie(refs, valueCount);
    if edges.Err? {
      return Err(EdgesNotSorted);
    }
    var failures, links := QueuePass.BuildFailures(edges.value, heads, sh);
    var automaton := ReorderBreadthFirst(edges.value, failures, links, heads, outputNext, sh, refs);
    automaton.LinkedIsReady();
    automaton.RootTable();
    r := Ok(automaton);
  }

  /** Builds a searchable automaton, or rejects a pattern list; no accepted list fails later on. */
  method Build(patterns: seq<Pattern>, valueCount: int) returns (r: Result<Automaton, BuildError>)
    requires TokensFit(patterns)
    ensures r.Ok? <==> Acceptable(patterns, valueCount)
    ensures r.Err? ==> Justified(patterns, valueCount, r.error)
    ensures r.Ok? ==> fresh(r.value) && r.value.Valid() && r.value.patterns == Refs(patterns)
    ensures r.Ok? ==> |r.value.outputNext| == valueCount
    ensures r.Ok? ==> r.value.packedStarts == [] && r.value.edgeTokens16 == [] && r.value.failures24 == []
  {
    var checked := CheckPatterns(patterns, valueCount);
    if checked.Err? {
      return Err(checked.error);
    }
    var refs := Sorting.Sort(Before(), checked.value);
    RefsReady(patterns, valueCount);
    forall p | p in refs ensures p in patterns && 0 !in p.tokens { RefsMembers(patterns, p); }
    r := BuildSorted(refs, valueCount);
  }

  lemma RootHasNoHead(ps: seq<Pattern>, spell: seq<Word>, heads: seq<nat>, next: seq<nat>)
    requires HeadsOk(ps, spell, heads, next) && |spell| > 0 && spell[0] == []
    requires forall p | p in ps :: p.tokens != []
    ensures heads[0] == NONE
  {
    assert Chain(next, heads[0]) == ValuesOf(ps, spell[0]);
    if ValuesOf(ps, []) != [] {
      ValuesOfMembers(ps, [], ValuesOf(ps, [])[0]);
      assert false;
    }
  }
}
