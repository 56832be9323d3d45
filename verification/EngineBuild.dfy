/** From a corpus of rules to a working engine. */
module EngineBuild {
  import opened Options
  import opened Patterns
  import opened Suffixes
  import opened TrieRows
  import opened Outputs
  import opened ExactMatches
  import opened Occurrences
  import opened Automata
  import opened Matcher
  import AhoBuild
  import EdgeCounts

  datatype EngineError = TooManyTokens | BadPatterns(error: AhoBuild.BuildError)

  /** The non-empty rules, each as the pattern of its own number. */
  function PatternsOf(rules: seq<Word>): seq<Pattern> {
    if rules == [] then []
    else
      var last := |rules| - 1;
      PatternsOf(rules[..last]) + if rules[last] == [] then [] else [Pattern(rules[last], last)]
  }

  function TotalLength(rules: seq<Word>): nat {
    if rules == [] then 0 else TotalLength(rules[..|rules| - 1]) + |rules[|rules| - 1]|
  }

  lemma {:induction false} PatternsOfRules(rules: seq<Word>, p: Pattern)
    ensures p in PatternsOf(rules) <==> p.value < |rules| && p.tokens == rules[p.value] && p.tokens != []
  {
    if rules == [] {
    } else {
      PatternsOfRules(rules[..|rules| - 1], p);
    }
  }

  lemma {:induction false} PatternsDistinct(rules: seq<Word>)
    ensures DistinctValues(PatternsOf(rules))
    ensures TotalTokens(PatternsOf(rules)) == TotalLength(rules)
  {
    if rules == [] {
    } else {
      var last := |rules| - 1;
      var init := PatternsOf(rules[..last]);
      PatternsDistinct(rules[..last]);
      forall i | 0 <= i < |init| ensures init[i].value < last { PatternsOfRules(rules[..last], init[i]); }
      if rules[last] != [] {
        assert (init + [Pattern(rules[last], last)])[..|init|] == init;
      } else {
        assert PatternsOf(rules) == init;
      }
    }
  }

  lemma {:induction false} LengthGrows(rules: seq<Word>, i: nat)
    requires i <= |rules|
    ensures TotalLength(rules[..i]) <= TotalLength(rules)
    decreases |rules| - i
  {
    if i < |rules| {
      assert rules[..i + 1][..i] == rules[..i];
      LengthGrows(rules, i + 1);
    } else {
      assert rules[..i] == rules;
    }
  }

  /** Lists the patterns, or refuses rules whose tokens could exceed the reader's node limit. */
  method RebuildPatterns(rules: seq<Word>) returns (r: Result<seq<Pattern>, EngineError>)
    ensures r == if TotalLength(rules) < EdgeCounts.MAX_NODE_COUNT then Ok(PatternsOf(rules)) else Err(TooManyTokens)
  {
    var patterns: seq<Pattern>, tokenCount: nat := [], 0;
    for index := 0 to |rules|
      invariant patterns == PatternsOf(rules[..index]) && tokenCount == TotalLength(rules[..index])
      invariant tokenCount < EdgeCounts.MAX_NODE_COUNT
    {
      assert rules[..index + 1][..index] == rules[..index];
      if |rules[index]| == 0 {
        continue;
      }
      tokenCount := tokenCount + |rules[index]|;
      if tokenCount >= EdgeCounts.MAX_NODE_COUNT {
        LengthGrows(rules, index + 1);
        return Err(TooManyTokens);
      }
      patterns := patterns + [Pattern(rules[index], index)];
    }
    assert rules[..|rules|] == rules;
    r := Ok(patterns);
  }

  ghost predicate Usable(rules: seq<Word>) {
    && |rules| <= NONE && TotalLength(rules) < EdgeCounts.MAX_NODE_COUNT
    && forall r: nat | r < |rules| :: 0 !in rules[r]
  }

  lemma UsableIsAcceptable(rules: seq<Word>)
    requires TotalLength(rules) < EdgeCounts.MAX_NODE_COUNT
    ensures Acceptable(PatternsOf(rules), |rules|) <==> Usable(rules)
  {
    PatternsDistinct(rules);
    forall p | p in PatternsOf(rules) ensures p.value < |rules| && p.tokens == rules[p.value] {
      PatternsOfRules(rules, p);
    }
    forall r: nat | r < |rules| && rules[r] != [] ensures Pattern(rules[r], r) in PatternsOf(rules) {
      PatternsOfRules(rules, Pattern(rules[r], r));
    }
    if Acceptable(PatternsOf(rules), |rules|) {
      forall r: nat | r < |rules| ensures 0 !in rules[r] {
        if rules[r] != [] { assert 0 !in Pattern(rules[r], r).tokens; }
      }
    }
  }

  lemma RefsMember(rules: seq<Word>, p: Pattern)
    requires DistinctValues(PatternsOf(rules))
    ensures p in AhoBuild.Refs(PatternsOf(rules)) <==> p.value < |rules| && p.tokens == rules[p.value] && p.tokens != []
  {
    AhoBuild.RefsMembers(PatternsOf(rules), p);
    PatternsOfRules(rules, p);
  }

  lemma RefsAreRules(rules: seq<Word>)
    requires Acceptable(PatternsOf(rules), |rules|)
    ensures RulePatterns(AhoBuild.Refs(PatternsOf(rules)), rules)
  {
    ghost var refs := AhoBuild.Refs(PatternsOf(rules));
    assert TiesRise(refs) by {
      AhoBuild.RefsReady(PatternsOf(rules), |rules|);
      ReadyTiesRise(refs, |rules|);
    }
    forall p | p in refs ensures p.value < |rules| && p.tokens == rules[p.value] && p.tokens != [] {
      RefsMember(rules, p);
    }
    forall r: nat | r < |rules| && rules[r] != [] ensures Pattern(rules[r], r) in refs {
      RefsMember(rules, Pattern(rules[r], r));
    }
  }

  method TokenLengths(rules: seq<Word>) returns (lengths: seq<nat>)
    ensures Lengths(lengths, rules)
  {
    lengths := [];
    for r := 0 to |rules|
      invariant Lengths(lengths, rules[..r])
    {
      lengths := lengths + [|rules[r]|];
    }
    assert rules[..|rules|] == rules;
  }

  /** The automaton is a searchable one of just the rules' patterns. */
  ghost predicate OfRules(automaton: Automaton, ruleTokens: seq<Word>)
    reads automaton
  {
    && Acceptable(PatternsOf(ruleTokens), |ruleTokens|)
    && automaton.Valid() && automaton.patterns == AhoBuild.Refs(PatternsOf(ruleTokens))
  }

  /** An engine around an automaton, valid when that is one of its rules' patterns. */
  method EngineOf(automaton: Automaton, ruleTokens: seq<Word>, rules: seq<MatchRule>, hash: Word -> nat)
    returns (engine: MatchEngine)
    requires |rules| == |ruleTokens|
    ensures fresh(engine) && engine.automaton == automaton
    ensures engine.ruleTokens == ruleTokens && engine.rules == rules && engine.hash == hash
    ensures OfRules(automaton, ruleTokens) ==> engine.Valid()
  {
    if OfRules(automaton, ruleTokens) { RefsAreRules(ruleTokens); }
    var lengths := TokenLengths(ruleTokens);
    var hashes := BuildHashes(hash, ruleTokens);
    engine := new MatchEngine(automaton, lengths, rules, hash, hashes, ruleTokens);
  }

  /** An engine over rules, or the reason there is none. */
  method NewMatchEngine(ruleTokens: seq<Word>, rules: seq<MatchRule>, hash: Word -> nat)
    returns (r: Result<MatchEngine, EngineError>)
    requires |rules| == |ruleTokens|
    requires forall i: nat, t | i < |ruleTokens| && t in ruleTokens[i] :: t <= NONE
    requires forall i: nat | i < |ruleTokens| && ruleTokens[i] != [] :: ruleTokens[i][0] < NONE
    ensures r.Ok? <==> Usable(ruleTokens)
    ensures r.Ok? ==> fresh(r.value) && r.value.Valid() && r.value.ruleTokens == ruleTokens && r.value.rules == rules
  {
    var patterns := RebuildPatterns(ruleTokens);
    if patterns.Err? {
      return Err(patterns.error);
    }
    UsableIsAcceptable(ruleTokens);
    forall p | p in patterns.value ensures p.value < |ruleTokens| && p.tokens == ruleTokens[p.value] {
      PatternsOfRules(ruleTokens, p);
    }
    var automaton := AhoBuild.Build(patterns.value, |ruleTokens|);
    if automaton.Err? {
      return Err(BadPatterns(automaton.error));
    }
    var engine := EngineOf(automaton.value, ruleTokens, rules, hash);
    r := Ok(engine);
  }
}
