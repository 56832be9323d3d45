/** The first pass of the builder: sorted patterns become nodes with parents, tokens and heads. */
module TrieRows {
  import opened Sequences
  import opened Patterns
  import opened Suffixes
  import Sorting

  // Output chains ------------------------------------------------------------

  /** Every value chains to a smaller one or ends. */
  ghost predicate Descends(next: seq<nat>) {
    |next| <= NONE && forall v: nat | v < |next| :: next[v] == NONE || next[v] < v
  }

  ghost function Chain(next: seq<nat>, head: nat): seq<nat> {
    if head < |next| then [head] + (if next[head] < head then Chain(next, next[head]) else []) else []
  }

  lemma {:induction false} ChainFrame(next: seq<nat>, head: nat, v: nat, x: nat)
    requires v < |next| && v !in Chain(next, head)
    ensures Chain(next[v := x], head) == Chain(next, head)
    decreases head
  {
    if head >= |next| {
    } else {
      assert head in Chain(next, head);
      if next[head] < head { ChainFrame(next, next[head], v, x); }
    }
  }

  // Rows ---------------------------------------------------------------------

  ghost predicate RowsOk(spell: seq<Word>, parents: seq<nat>, incoming: seq<nat>) {
    && |spell| == |parents| == |incoming| && |spell| >= 1
    && spell[0] == []
    && (forall v | 1 <= v < |spell| :: parents[v] < v && spell[v] == spell[parents[v]] + [incoming[v]])
    && (forall i, j {:trigger LexLess(spell[i], spell[j])} | 0 <= i < j < |spell| :: LexLess(spell[i], spell[j]))
  }

  ghost predicate PathOk(spell: seq<Word>, path: seq<nat>, word: Word) {
    && |path| == |word| + 1
    && forall k | 0 <= k <= |word| :: path[k] < |spell| && spell[path[k]] == word[..k]
  }

  /** Chains hold the values of the patterns listed so far that spell the node, last listed first. */
  ghost predicate HeadsOk(ps: seq<Pattern>, spell: seq<Word>, heads: seq<nat>, next: seq<nat>) {
    && Descends(next) && |heads| == |spell|
    && forall v {:trigger Chain(next, heads[v])} {:trigger ValuesOf(ps, spell[v])} | 0 <= v < |spell| ::
         (heads[v] == NONE || heads[v] < |next|) && Chain(next, heads[v]) == ValuesOf(ps, spell[v])
  }

  /** A word that some pattern starts with. */
  ghost predicate BeginsSome(ps: seq<Pattern>, w: Word) {
    exists p :: p in ps && w <= p.tokens
  }

  ghost predicate WordsOk(ps: seq<Pattern>, spell: seq<Word>) {
    && (forall v | 1 <= v < |spell| :: BeginsSome(ps, spell[v]))
    && (forall p | p in ps :: p.tokens in spell)
  }

  function TotalTokens(ps: seq<Pattern>): nat {
    if ps == [] then 0 else TotalTokens(ps[..|ps| - 1]) + |ps[|ps| - 1].tokens|
  }

  ghost predicate Acceptable(ps: seq<Pattern>, valueCount: int) {
    && 0 <= valueCount <= NONE
    && (forall p | p in ps :: p.value < valueCount && 0 !in p.tokens)
    && DistinctValues(ps)
    && TotalTokens(ps) < NONE
  }

  /** What the sort hands to the trie pass. */
  ghost predicate Ready(refs: seq<Pattern>, valueCount: nat) {
    && valueCount <= NONE && TotalTokens(refs) < NONE
    && (forall p | p in refs :: p.value < valueCount && p.tokens != [])
    && DistinctValues(refs)
    && Sorting.Sorted(Before(), refs)
  }

  lemma NewWord(spell: seq<Word>, parents: seq<nat>, incoming: seq<nat>, parent: nat, token: nat)
    requires RowsOk(spell, parents, incoming) && parent < |spell|
    requires LexLess(spell[|spell| - 1], spell[parent] + [token])
    ensures RowsOk(spell + [spell[parent] + [token]], parents + [parent], incoming + [token])
    ensures spell[parent] + [token] !in spell
  {
    var w := spell[parent] + [token];
    forall i | 0 <= i < |spell| ensures LexLess(spell[i], w) && spell[i] != w {
      if i < |spell| - 1 { LexTransitive(spell[i], spell[|spell| - 1], w); }
      LexTotal(w, w);
    }
  }

  /** A prefix of the pattern past the point where it leaves the last string comes after that string. */
  lemma NextPrefix(last: Word, tokens: Word, previous: Word, k: nat)
    requires k < |tokens|
    requires last == tokens[..k] || (last == previous && LexLess(previous, tokens)
                                     && k == CommonPrefix(previous, tokens))
    ensures LexLess(last, tokens[..k + 1])
  {
    if last == tokens[..k] {
      assert tokens[..k + 1][..k] == last;
      CommonPrefixUnique(last, tokens[..k + 1], k);
    } else {
      LexExtend(previous, tokens, k + 1);
    }
  }

  lemma {:induction false} TotalOfPrefix(ps: seq<Pattern>, i: nat)
    requires i <= |ps|
    ensures TotalTokens(ps[..i]) <= TotalTokens(ps)
    decreases |ps|
  {
    if i < |ps| {
      TotalOfPrefix(ps[..|ps| - 1], i);
      assert ps[..|ps| - 1][..i] == ps[..i];
    } else {
      assert ps[..i] == ps;
    }
  }

  /** Recording the value of the next pattern at its node keeps every chain right. */
  lemma RecordValue(ps: seq<Pattern>, p: Pattern, spell: seq<Word>, heads: seq<nat>, next: seq<nat>, node: nat)
    requires HeadsOk(ps, spell, heads, next) && node < |spell| && spell[node] == p.tokens
    requires forall i, j | 0 <= i < j < |spell| :: spell[i] != spell[j]
    requires p.value < |next|
    requires forall q | q in ps :: q.value != p.value
    requires forall q | q in ps && q.tokens == p.tokens :: q.value < p.value
    ensures HeadsOk(ps + [p], spell, heads[node := p.value], next[p.value := heads[node]])
  {
    var next', heads' := next[p.value := heads[node]], heads[node := p.value];
    assert (ps + [p])[..|ps|] == ps;
    forall v | 0 <= v < |spell|
      ensures (heads'[v] == NONE || heads'[v] < |next'|) && Chain(next', heads'[v]) == ValuesOf(ps + [p], spell[v])
    {
      ValuesOfMembers(ps, spell[v], p.value);
      ChainFrame(next, heads[v], p.value, heads[node]);
      if v == node && heads[node] != NONE {
        assert heads[node] in Chain(next, heads[node]);
        ValuesOfMembers(ps, spell[v], heads[node]);
      }
    }
    var h := heads[node];
    if h != NONE {
      assert h in Chain(next, h);
      ValuesOfMembers(ps, spell[node], h);
    }
  }

  /** The inner loop of the trie pass: one node for each token past the common prefix. */
  method ExtendPath(parents0: seq<nat>, incoming0: seq<nat>, heads0: seq<nat>, path0: seq<nat>, tokens: Word,
                    common: nat,
                    ghost spell0: seq<Word>, ghost previous: Word, ghost ps: seq<Pattern>, ghost next: seq<nat>)
    returns (parents: seq<nat>, incoming: seq<nat>, heads: seq<nat>, path: seq<nat>, ghost spell: seq<Word>)
    requires RowsOk(spell0, parents0, incoming0) && HeadsOk(ps, spell0, heads0, next)
    requires common == CommonPrefix(previous, tokens) && (previous == tokens || LexLess(previous, tokens))
    requires PathOk(spell0, path0, tokens[..common]) && spell0[|spell0| - 1] == previous
    requires forall p | p in ps :: p.tokens in spell0
    ensures RowsOk(spell, parents, incoming) && HeadsOk(ps, spell, heads, next)
    ensures |spell| == |spell0| + |tokens| - common && spell0 <= spell
    ensures forall v | |spell0| <= v < |spell| :: spell[v] <= tokens
    ensures PathOk(spell, path, tokens) && spell[|spell| - 1] == tokens
  {
    parents, incoming, heads, path, spell := parents0, incoming0, heads0, path0, spell0;
    if previous == tokens { CommonPrefixUnique(previous, tokens, |previous|); }
    for t := common to |tokens|
      invariant Extending(ps, next, spell0, previous, tokens, common, t, spell, parents, incoming, heads, path)
    {
      var token := tokens[t];
      var node: nat := |parents|;
      var parent := path[|path| - 1];
      ExtendStep(ps, next, spell0, previous, tokens, common, t, spell, parents, incoming, heads, path);
      spell := spell + [tokens[..t + 1]];
      parents := parents + [parent];
      incoming := incoming + [token];
      heads := heads + [NONE];
      path := path + [node];
    }
    assert tokens[..|tokens|] == tokens;
  }

  ghost predicate Extending(ps: seq<Pattern>, next: seq<nat>, spell0: seq<Word>, previous: Word, tokens: Word,
                            common: nat, t: nat, spell: seq<Word>, parents: seq<nat>, incoming: seq<nat>,
                            heads: seq<nat>, path: seq<nat>) {
    && common <= t <= |tokens|
    && RowsOk(spell, parents, incoming) && HeadsOk(ps, spell, heads, next)
    && |spell| == |spell0| + t - common && spell0 <= spell
    && (forall v | |spell0| <= v < |spell| :: spell[v] <= tokens)
    && PathOk(spell, path, tokens[..t])
    && spell[|spell| - 1] == if t == common then previous else tokens[..t]
  }

  lemma ExtendStep(ps: seq<Pattern>, next: seq<nat>, spell0: seq<Word>, previous: Word, tokens: Word,
                   common: nat, t: nat, spell: seq<Word>, parents: seq<nat>, incoming: seq<nat>,
                   heads: seq<nat>, path: seq<nat>)
    requires Extending(ps, next, spell0, previous, tokens, common, t, spell, parents, incoming, heads, path)
    requires t < |tokens| && common == CommonPrefix(previous, tokens) && LexLess(previous, tokens)
    requires forall p | p in ps :: p.tokens in spell0
    ensures |path| > 0
    ensures Extending(ps, next, spell0, previous, tokens, common, t + 1, spell + [tokens[..t + 1]],
                      parents + [path[|path| - 1]], incoming + [tokens[t]], heads + [NONE], path + [|spell|])
  {
    var word := tokens[..t + 1];
    ExtendPathOk(spell, path, tokens, t);
    NextPrefix(spell[|spell| - 1], tokens, previous, t);
    NewWord(spell, parents, incoming, path[|path| - 1], tokens[t]);
    NoValues(ps, spell, word);
    HeadsGrow(ps, spell, heads, next, word);
  }

  lemma ExtendPathOk(spell: seq<Word>, path: seq<nat>, tokens: Word, t: nat)
    requires t < |tokens| && PathOk(spell, path, tokens[..t])
    ensures path[|path| - 1] < |spell| && spell[path[|path| - 1]] == tokens[..t]
    ensures spell[path[|path| - 1]] + [tokens[t]] == tokens[..t + 1]
    ensures PathOk(spell + [tokens[..t + 1]], path + [|spell|], tokens[..t + 1])
  {
    assert tokens[..t] + [tokens[t]] == tokens[..t + 1];
    assert forall k | 0 <= k <= t :: tokens[..t][..k] == tokens[..t + 1][..k];
    assert tokens[..t][..t] == tokens[..t] && tokens[..t + 1][..t + 1] == tokens[..t + 1];
  }

  lemma PathEnd(spell: seq<Word>, path: seq<nat>, word: Word)
    requires PathOk(spell, path, word)
    ensures path[|path| - 1] < |spell| && spell[path[|path| - 1]] == word
  {
    assert word[..|word|] == word;
  }

  lemma HeadsGrow(ps: seq<Pattern>, spell: seq<Word>, heads: seq<nat>, next: seq<nat>, word: Word)
    requires HeadsOk(ps, spell, heads, next) && ValuesOf(ps, word) == []
    ensures HeadsOk(ps, spell + [word], heads + [NONE], next)
  {
  }

  lemma NoValues(ps: seq<Pattern>, spell: seq<Word>, word: Word)
    requires word !in spell && forall p | p in ps :: p.tokens in spell
    ensures ValuesOf(ps, word) == []
  {
    if ValuesOf(ps, word) != [] {
      ValuesOfMembers(ps, word, ValuesOf(ps, word)[0]);
      assert false;
    }
  }

  /** The path of the next pattern starts with the nodes it shares with the previous one. */
  lemma SharedPath(spell: seq<Word>, path: seq<nat>, previous: Word, tokens: Word)
    requires PathOk(spell, path, previous)
    ensures PathOk(spell, path[..CommonPrefix(previous, tokens) + 1], tokens[..CommonPrefix(previous, tokens)])
  {
    var common := CommonPrefix(previous, tokens);
    forall k | 0 <= k <= common ensures previous[..k] == tokens[..common][..k] {
      assert previous[..common][..k] == previous[..k];
    }
  }

  /** The state of the trie pass after the first `i` patterns. */
  ghost predicate Built(refs: seq<Pattern>, i: nat, spell: seq<Word>, parents: seq<nat>, incoming: seq<nat>,
                        heads: seq<nat>, next: seq<nat>, path: seq<nat>, previous: Word) {
    && i <= |refs|
    && RowsOk(spell, parents, incoming) && |spell| <= 1 + TotalTokens(refs[..i])
    && HeadsOk(refs[..i], spell, heads, next) && WordsOk(refs[..i], spell)
    && PathOk(spell, path, previous) && spell[|spell| - 1] == previous
    && previous == if i == 0 then [] else refs[i - 1].tokens
  }

  lemma NextPattern(refs: seq<Pattern>, valueCount: nat, i: nat, spell0: seq<Word>, next: seq<nat>,
                    spell: seq<Word>, parents: seq<nat>, incoming: seq<nat>, heads: seq<nat>, path: seq<nat>)
    requires Ready(refs, valueCount) && i < |refs| && |next| == valueCount
    requires WordsOk(refs[..i], spell0) && 1 <= |spell0| <= 1 + TotalTokens(refs[..i])
    requires RowsOk(spell, parents, incoming) && HeadsOk(refs[..i], spell, heads, next)
    requires spell0 <= spell && |spell| <= |spell0| + |refs[i].tokens|
    requires forall v | |spell0| <= v < |spell| :: spell[v] <= refs[i].tokens
    requires PathOk(spell, path, refs[i].tokens) && spell[|spell| - 1] == refs[i].tokens
    ensures refs[i].value < valueCount && path[|path| - 1] < |heads|
    ensures Built(refs, i + 1, spell, parents, incoming, heads[path[|path| - 1] := refs[i].value],
                  next[refs[i].value := heads[path[|path| - 1]]], path, refs[i].tokens)
  {
    ReadyPrefix(refs, valueCount, i);
    TakeNext(refs, i);
    PathEnd(spell, path, refs[i].tokens);
    DistinctSpells(spell, parents, incoming);
    KeepWords(refs[..i], refs[i], spell0, spell);
    RecordValue(refs[..i], refs[i], spell, heads, next, path[|path| - 1]);
  }

  /** One round of the trie pass: extend the path and chain the value in at the terminal node. */
  method AddPattern(refs: seq<Pattern>, valueCount: nat, i: nat,
                    parents0: seq<nat>, incoming0: seq<nat>, heads0: seq<nat>, next: array<nat>, path0: seq<nat>,
                    previous: Word, ghost spell0: seq<Word>)
    returns (parents: seq<nat>, incoming: seq<nat>, heads: seq<nat>, path: seq<nat>, ghost spell: seq<Word>)
    requires Ready(refs, valueCount) && i < |refs| && next.Length == valueCount
    requires Built(refs, i, spell0, parents0, incoming0, heads0, next[..], path0, previous)
    modifies next
    ensures Built(refs, i + 1, spell, parents, incoming, heads, next[..], path, refs[i].tokens)
  {
    var pattern := refs[i];
    ReadyPrefix(refs, valueCount, i);
    TakeNext(refs, i);
    var common := CommonPrefix(previous, pattern.tokens);
    SharedPath(spell0, path0, previous, pattern.tokens);
    parents, incoming, heads, path, spell := ExtendPath(parents0, incoming0, heads0, path0[..common + 1],
      pattern.tokens, common, spell0, previous, refs[..i], next[..]);
    NextPattern(refs, valueCount, i, spell0, next[..], spell, parents, incoming, heads, path);
    var terminal := path[|path| - 1];
    var head := heads[terminal];
    next[pattern.value] := head;
    assert next[..] == old(next[..])[pattern.value := head];
    heads := heads[terminal := pattern.value];
  }

  /** Just the root, for no patterns. */
  lemma BuiltFirst(refs: seq<Pattern>, valueCount: nat, next: seq<nat>)
    requires valueCount <= NONE && |next| == valueCount && forall v | 0 <= v < valueCount :: next[v] == NONE
    ensures Built(refs, 0, [[]], [0], [0], [NONE], next, [0], [])
  {
    assert Chain(next, NONE) == [] == ValuesOf([], []);
  }

  method BuildRows(refs: seq<Pattern>, valueCount: nat)
    returns (parents: seq<nat>, incoming: seq<nat>, heads: seq<nat>, outputNext: seq<nat>, ghost spell: seq<Word>)
    requires Ready(refs, valueCount)
    ensures RowsOk(spell, parents, incoming) && |spell| <= NONE
    ensures |outputNext| == valueCount && HeadsOk(refs, spell, heads, outputNext)
    ensures WordsOk(refs, spell)
  {
    parents, incoming, heads := [0], [0], [NONE];
    var next := new nat[valueCount](_ => NONE);
    var path: seq<nat> := [0];
    var previous: Word := [];
    spell := [[]];
    BuiltFirst(refs, valueCount, next[..]);
    for i := 0 to |refs|
      invariant Built(refs, i, spell, parents, incoming, heads, next[..], path, previous)
    {
      parents, incoming, heads, path, spell :=
        AddPattern(refs, valueCount, i, parents, incoming, heads, next, path, previous, spell);
      previous := refs[i].tokens;
    }
    BuiltAll(refs, spell, parents, incoming, heads, next[..], path, previous);
    outputNext := next[..];
  }

  lemma BuiltAll(refs: seq<Pattern>, spell: seq<Word>, parents: seq<nat>, incoming: seq<nat>, heads: seq<nat>,
                 next: seq<nat>, path: seq<nat>, previous: Word)
    requires Built(refs, |refs|, spell, parents, incoming, heads, next, path, previous)
    ensures RowsOk(spell, parents, incoming) && |spell| <= 1 + TotalTokens(refs)
    ensures HeadsOk(refs, spell, heads, next) && WordsOk(refs, spell)
  {
    assert refs[..|refs|] == refs;
  }

  lemma KeepWords(ps: seq<Pattern>, p: Pattern, spell0: seq<Word>, spell: seq<Word>)
    requires WordsOk(ps, spell0) && spell0 <= spell && p.tokens in spell && |spell0| >= 1
    requires forall v | |spell0| <= v < |spell| :: spell[v] <= p.tokens
    ensures WordsOk(ps + [p], spell)
  {
    forall v | 1 <= v < |spell| ensures exists q :: q in ps + [p] && spell[v] <= q.tokens {
      if v < |spell0| {
        assert spell[v] == spell0[v];
        var q :| q in ps && spell0[v] <= q.tokens;
        assert q in ps + [p];
      } else {
        assert p in ps + [p];
      }
    }
  }

  lemma DistinctSpells(spell: seq<Word>, parents: seq<nat>, incoming: seq<nat>)
    requires RowsOk(spell, parents, incoming)
    ensures forall i, j | 0 <= i < j < |spell| :: spell[i] != spell[j]
  {
    forall i, j | 0 <= i < j < |spell| ensures spell[i] != spell[j] {
      LexTotal(spell[i], spell[i]);
    }
  }

  lemma ReadyPrefix(refs: seq<Pattern>, valueCount: nat, i: nat)
    requires Ready(refs, valueCount) && i < |refs|
    ensures forall q | q in refs[..i] :: q.value != refs[i].value
    ensures forall q | q in refs[..i] && q.tokens == refs[i].tokens :: q.value < refs[i].value
    ensures TotalTokens(refs[..i + 1]) == TotalTokens(refs[..i]) + |refs[i].tokens| <= TotalTokens(refs)
    ensures refs[i].value < valueCount
    ensures i == 0 || refs[i - 1].tokens == refs[i].tokens || LexLess(refs[i - 1].tokens, refs[i].tokens)
    ensures i == 0 ==> LexLess([], refs[i].tokens)
  {
    if i == 0 {
      assert refs[i] in refs;
      CommonPrefixUnique([], refs[i].tokens, 0);
    } else {
      assert Before()(refs[i - 1], refs[i]);
    }
    TotalOfPrefix(refs, i + 1);
    assert refs[..i + 1][..i] == refs[..i] && refs[i] in refs;
    forall q | q in refs[..i]
      ensures q.value != refs[i].value && (q.tokens == refs[i].tokens ==> q.value < refs[i].value)
    {
      var j :| 0 <= j < i && refs[j] == q;
      assert refs[j].value != refs[i].value;
      assert Before()(refs[j], refs[i]);
      LexTotal(q.tokens, q.tokens);
    }
  }
}
