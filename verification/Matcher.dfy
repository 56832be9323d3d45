/** Collecting candidates: a whole-input hash lookup, and one or two passes of the automaton. */
module Matcher {
  import opened Options
  import opened Patterns
  import opened Suffixes
  import opened Tries
  import opened Outputs
  import opened Renumber
  import opened Automata
  import opened ExactMatches
  import opened Occurrences
  import opened Sequences

  const MAX_CANDIDATES: nat := 1_000_000
  const TWO_PASS_THRESHOLD: nat := 4096

  datatype MatchError = TooManyMatches

  datatype Added = All | Threshold | Exceeded

  /** Every non-empty rule is listed once under its hash, in rule order, and nothing else is listed. */
  ghost predicate HashesOk(hash: Word -> nat, hashes: map<nat, seq<nat>>, rules: seq<Word>) {
    && (forall h {:trigger hashes[h]} | h in hashes :: Rising(hashes[h]))
    && forall h: nat, r: nat {:trigger Listed(hashes, h, r)} ::
      Listed(hashes, h, r) <==> r < |rules| && rules[r] != [] && hash(rules[r]) == h
  }

  predicate Listed(hashes: map<nat, seq<nat>>, h: nat, r: nat) {
    h in hashes && r in hashes[h]
  }

  ghost predicate Rising(s: seq<nat>) {
    forall i, j | 0 <= i < j < |s| :: s[i] < s[j]
  }

  /** Buckets the rules by the hash of their tokens. */
  method BuildHashes(hash: Word -> nat, rules: seq<Word>) returns (hashes: map<nat, seq<nat>>)
    ensures HashesOk(hash, hashes, rules)
  {
    hashes := map[];
    for i := 0 to |rules|
      invariant HashesOk(hash, hashes, rules[..i])
    {
      ghost var before := hashes;
      if rules[i] != [] {
        var h := hash(rules[i]);
        hashes := hashes[h := (if h in hashes then hashes[h] else []) + [i]];
      }
      BucketGrows(hash, before, hashes, rules, i);
    }
    assert rules[..|rules|] == rules;
  }

  lemma BucketGrows(hash: Word -> nat, before: map<nat, seq<nat>>, after: map<nat, seq<nat>>, rules: seq<Word>, i: nat)
    requires i < |rules| && HashesOk(hash, before, rules[..i])
    requires var h := hash(rules[i]);
      after == if rules[i] == [] then before else before[h := (if h in before then before[h] else []) + [i]]
    ensures HashesOk(hash, after, rules[..i + 1])
  {
    if rules[i] != [] {
      var h := hash(rules[i]);
      forall j | h in before && 0 <= j < |before[h]| ensures before[h][j] < i {
        assert Listed(before, h, before[h][j]);
      }
      assert Rising(after[h]);
    }
    forall h: nat, r: nat
      ensures Listed(after, h, r) <==> r < i + 1 && rules[r] != [] && hash(rules[r]) == h
    {
      assert Listed(before, h, r) <==> r < i && rules[..i][r] != [] && hash(rules[..i][r]) == h;
    }
  }

  // One position's candidates ------------------------------------------------------------

  /** Reported rules have lengths that fit before the position. */
  ghost predicate Fits(lengths: seq<nat>, outputs: seq<nat>, end: nat) {
    forall k | 0 <= k < |outputs| :: outputs[k] < |lengths| && 0 < lengths[outputs[k]] <= end
  }

  lemma LengthsFit(ps: seq<Pattern>, lengths: seq<nat>, rules: seq<Word>, seen: Word)
    requires RulePatterns(ps, rules) && Lengths(lengths, rules)
    ensures Fits(lengths, Hits(ps, seen), |seen|)
  {
    var outputs := Hits(ps, seen);
    forall k | 0 <= k < |outputs| ensures outputs[k] < |lengths| && 0 < lengths[outputs[k]] <= |seen| {
      HitIsRule(ps, rules, seen, outputs[k]);
    }
  }

  lemma PlacedNext(lengths: seq<nat>, candidates0: seq<Match>, outputs: seq<nat>, k: nat, end: nat)
    requires k < |outputs|
    ensures candidates0 + PlacedAll(lengths, outputs[..k + 1], end)
         == candidates0 + PlacedAll(lengths, outputs[..k], end) + [Placed(lengths, outputs[k], end)]
  {
    assert PlacedAll(lengths, outputs[..k + 1], end)
      == PlacedAll(lengths, outputs[..k], end) + [Placed(lengths, outputs[k], end)];
  }

  /** Appends the candidates ending at a position, unless that makes too many for one pass. */
  method AddOutputs(candidates0: seq<Match>, lengths: seq<nat>, outputs: seq<nat>, position: nat)
    returns (candidates: seq<Match>, added: Added)
    requires Fits(lengths, outputs, position + 1) && |candidates0| < TWO_PASS_THRESHOLD
    ensures added != Exceeded
    ensures added == All <==> |candidates0| + |outputs| < TWO_PASS_THRESHOLD
    ensures added == All ==> candidates == candidates0 + PlacedAll(lengths, outputs, position + 1)
  {
    candidates := candidates0;
    for k := 0 to |outputs|
      invariant candidates == candidates0 + PlacedAll(lengths, outputs[..k], position + 1)
      invariant |candidates| < TWO_PASS_THRESHOLD
    {
      var length := lengths[outputs[k]];
      if length <= position + 1 {
        if |candidates| == MAX_CANDIDATES {
          return candidates, Exceeded;
        }
        PlacedNext(lengths, candidates0, outputs, k, position + 1);
        candidates := candidates + [Match(outputs[k], position + 1 - length, position + 1)];
        if |candidates| == TWO_PASS_THRESHOLD {
          return candidates, Threshold;
        }
      }
    }
    assert outputs[..|outputs|] == outputs;
    added := All;
  }

  /** Counts the candidates ending at a position, up to the limit. */
  method CountOutputs(count0: nat, lengths: seq<nat>, outputs: seq<nat>, position: nat) returns (count: Option<nat>)
    requires Fits(lengths, outputs, position + 1) && count0 <= MAX_CANDIDATES
    ensures count == if count0 + |outputs| <= MAX_CANDIDATES then Some(count0 + |outputs|) else None
  {
    var total := count0;
    for k := 0 to |outputs|
      invariant total == count0 + k <= MAX_CANDIDATES
    {
      if lengths[outputs[k]] <= position + 1 {
        if total == MAX_CANDIDATES {
          return None;
        }
        total := total + 1;
      }
    }
    count := Some(total);
  }

  /** Places all candidates ending at a position. */
  method PlaceOutputs(candidates0: seq<Match>, lengths: seq<nat>, outputs: seq<nat>, position: nat)
    returns (candidates: seq<Match>)
    requires Fits(lengths, outputs, position + 1)
    ensures candidates == candidates0 + PlacedAll(lengths, outputs, position + 1)
  {
    candidates := candidates0;
    for k := 0 to |outputs|
      invariant candidates == candidates0 + PlacedAll(lengths, outputs[..k], position + 1)
    {
      PlacedNext(lengths, candidates0, outputs, k, position + 1);
      var length := lengths[outputs[k]];
      if length <= position + 1 {
        candidates := candidates + [Match(outputs[k], position + 1 - length, position + 1)];
      }
    }
    assert outputs[..|outputs|] == outputs;
  }

  lemma {:induction false} OccurrencesGrow(ps: seq<Pattern>, lengths: seq<nat>, tokens: Word, i: nat)
    requires i <= |tokens|
    ensures |Occurrences.Occurrences(ps, lengths, tokens[..i])| <= |Occurrences.Occurrences(ps, lengths, tokens)|
    decreases |tokens| - i
  {
    if i < |tokens| {
      OneMoreToken(ps, lengths, tokens, i);
      OccurrencesGrow(ps, lengths, tokens, i + 1);
    } else {
      assert tokens[..i] == tokens;
    }
  }

  class MatchEngine {
    const automaton: Automaton
    const ruleTokenLengths: seq<nat>
    const rules: seq<MatchRule>
    const hash: Word -> nat
    const hashes: map<nat, seq<nat>>
    ghost const ruleTokens: seq<Word>

    constructor (automaton: Automaton, ruleTokenLengths: seq<nat>, rules: seq<MatchRule>, hash: Word -> nat,
                 hashes: map<nat, seq<nat>>, ghost ruleTokens: seq<Word>)
      ensures this.automaton == automaton && this.ruleTokenLengths == ruleTokenLengths && this.rules == rules
      ensures this.hash == hash && this.hashes == hashes && this.ruleTokens == ruleTokens
    {
      this.automaton, this.ruleTokenLengths, this.rules := automaton, ruleTokenLengths, rules;
      this.hash, this.hashes, this.ruleTokens := hash, hashes, ruleTokens;
    }

    ghost predicate Valid()
      reads automaton
    {
      && automaton.Valid() && RulePatterns(automaton.patterns, ruleTokens) && Lengths(ruleTokenLengths, ruleTokens)
      && |rules| == |ruleTokens| && HashesOk(hash, hashes, ruleTokens)
    }

    /** What collecting must find. */
    ghost function Found(tokens: Word): seq<Match>
      reads automaton
    {
      Occurrences.Occurrences(automaton.patterns, ruleTokenLengths, tokens)
    }

    /** The state reached after reading `seen` from the root. */
    ghost predicate At(state: nat, seen: Word)
      reads automaton
    {
      state < |automaton.shape.spell| && LongestIn(Words(automaton.shape), seen) == Some(automaton.shape.spell[state])
    }

    lemma AtStart()
      requires Valid()
      ensures At(0, [])
    {
      assert automaton.shape.spell[0] in Words(automaton.shape);
    }

    method Advance(state: nat, token: nat, ghost seen: Word) returns (next: nat)
      requires Valid() && At(state, seen)
      ensures At(next, seen + [token])
    {
      automaton.ValidIsSafe();
      next := automaton.Next(state, token);
      WordsPrefixClosed(Implicit(automaton.Starts(), automaton.Tokens()), automaton.shape);
      LongestStep(Words(automaton.shape), seen, token);
    }

    lemma HitsAt(state: nat, seen: Word)
      requires Valid() && At(state, seen)
      ensures Hits(automaton.patterns, seen) == Hits(automaton.patterns, automaton.shape.spell[state])
    {
      assert automaton.shape.spell[0] in Words(automaton.shape);
      HitsOfState(automaton.patterns, automaton.shape, seen);
    }

    method OutputsAt(state: nat, ghost seen: Word) returns (outputs: seq<nat>)
      requires Valid() && At(state, seen)
      ensures outputs == Hits(automaton.patterns, seen)
    {
      HitsAt(state, seen);
      automaton.ValidIsSafe();
      outputs := automaton.AppendOutputs([], state);
      assert [] + Hits(automaton.patterns, seen) == Hits(automaton.patterns, seen);
    }

    /** Reads one more token and lists the rules ending there. */
    method ReadToken(state: nat, tokens: Word, position: nat) returns (next: nat, outputs: seq<nat>)
      requires Valid() && position < |tokens| && At(state, tokens[..position])
      ensures At(next, tokens[..position + 1])
      ensures Fits(ruleTokenLengths, outputs, position + 1)
      ensures Found(tokens[..position + 1])
        == Found(tokens[..position]) + PlacedAll(ruleTokenLengths, outputs, position + 1)
    {
      ghost var seen := tokens[..position + 1];
      TakeNext(tokens, position);
      next := Advance(state, tokens[position], tokens[..position]);
      outputs := OutputsAt(next, seen);
      TokenPlaces(tokens, position);
    }

    lemma TokenPlaces(tokens: Word, position: nat)
      requires Valid() && position < |tokens|
      ensures var outputs := Hits(automaton.patterns, tokens[..position + 1]);
        && Fits(ruleTokenLengths, outputs, position + 1)
        && Found(tokens[..position + 1])
          == Found(tokens[..position]) + PlacedAll(ruleTokenLengths, outputs, position + 1)
    {
      LengthsFit(automaton.patterns, ruleTokenLengths, ruleTokens, tokens[..position + 1]);
      OneMoreToken(automaton.patterns, ruleTokenLengths, tokens, position);
    }

    /** One turn of the collecting loop. */
    method CollectAt(candidates0: seq<Match>, state0: nat, tokens: Word, position: nat)
      returns (candidates: seq<Match>, state: nat, added: Added)
      requires Valid() && position < |tokens| && At(state0, tokens[..position])
      requires candidates0 == Found(tokens[..position]) && |candidates0| < TWO_PASS_THRESHOLD
      ensures added != Exceeded && At(state, tokens[..position + 1])
      ensures added == All ==> candidates == Found(tokens[..position + 1]) && |candidates| < TWO_PASS_THRESHOLD
    {
      var outputs;
      state, outputs := ReadToken(state0, tokens, position);
      candidates, added := AddOutputs(candidates0, ruleTokenLengths, outputs, position);
    }

    /** All occurrences, in order of their ends; fails exactly when there are more than a million. */
    method CollectAhoMatches(tokens: Word) returns (r: Result<seq<Match>, MatchError>)
      requires Valid()
      ensures r.Ok? <==> |Found(tokens)| <= MAX_CANDIDATES
      ensures r.Ok? ==> r.value == Found(tokens)
    {
      var candidates: seq<Match>, state: nat := [], 0;
      AtStart();
      for position := 0 to |tokens|
        invariant At(state, tokens[..position])
        invariant candidates == Found(tokens[..position]) && |candidates| < TWO_PASS_THRESHOLD
      {
        var added;
        candidates, state, added := CollectAt(candidates, state, tokens, position);
        if added == Exceeded {
          return Err(TooManyMatches);
        }
        if added == Threshold {
          r := CollectManyExactMatches(tokens);
          return;
        }
      }
      assert tokens[..|tokens|] == tokens;
      r := Ok(candidates);
    }

    /** The counting pass. */
    method CountExactMatches(tokens: Word) returns (count: Option<nat>)
      requires Valid()
      ensures count.Some? <==> |Found(tokens)| <= MAX_CANDIDATES
    {
      var total: nat, state: nat := 0, 0;
      AtStart();
      for position := 0 to |tokens|
        invariant At(state, tokens[..position])
        invariant total == |Found(tokens[..position])| <= MAX_CANDIDATES
      {
        var outputs;
        state, outputs := ReadToken(state, tokens, position);
        var counted := CountOutputs(total, ruleTokenLengths, outputs, position);
        if counted.None? {
          OccurrencesGrow(automaton.patterns, ruleTokenLengths, tokens, position + 1);
          return None;
        }
        total := counted.value;
      }
      assert tokens[..|tokens|] == tokens;
      count := Some(total);
    }

    /** A counting pass, then a collecting pass. */
    method CollectManyExactMatches(tokens: Word) returns (r: Result<seq<Match>, MatchError>)
      requires Valid()
      ensures r.Ok? <==> |Found(tokens)| <= MAX_CANDIDATES
      ensures r.Ok? ==> r.value == Found(tokens)
    {
      var count := CountExactMatches(tokens);
      if count.None? {
        return Err(TooManyMatches);
      }
      var candidates: seq<Match>, state: nat := [], 0;
      AtStart();
      for position := 0 to |tokens|
        invariant At(state, tokens[..position])
        invariant candidates == Found(tokens[..position])
      {
        var outputs;
        state, outputs := ReadToken(state, tokens, position);
        candidates := PlaceOutputs(candidates, ruleTokenLengths, outputs, position);
      }
      assert tokens[..|tokens|] == tokens;
      r := Ok(candidates);
    }

    // Whole-input lookup -----------------------------------------------------------------

    /** Reads the whole input. */
    method FinalState(tokens: Word) returns (state: nat)
      requires Valid()
      ensures At(state, tokens)
    {
      state := 0;
      AtStart();
      for position := 0 to |tokens|
        invariant At(state, tokens[..position])
      {
        TakeNext(tokens, position);
        state := Advance(state, tokens[position], tokens[..position]);
      }
      assert tokens[..|tokens|] == tokens;
    }

    /** A rule reported at the end of the input and as long as the input is the input. */
    lemma WholeRule(tokens: Word, rule: nat)
      requires Valid() && rule < |ruleTokens| && ruleTokens[rule] != []
      ensures ruleTokenLengths[rule] == |tokens| && rule in Hits(automaton.patterns, tokens)
        <==> ruleTokens[rule] == tokens
    {
      HitIsRule(automaton.patterns, ruleTokens, tokens, rule);
      assert tokens[0..] == tokens;
    }

    lemma BucketMeaning(h: nat, rule: nat)
      requires Valid()
      ensures Listed(hashes, h, rule) <==> rule < |ruleTokens| && ruleTokens[rule] != [] && hash(ruleTokens[rule]) == h
    {
    }

    method EqualsRule(tokens: Word, state: nat, rule: nat) returns (equal: bool)
      requires Valid() && At(state, tokens) && Listed(hashes, hash(tokens), rule)
      ensures equal <==> ruleTokens[rule] == tokens
    {
      BucketMeaning(hash(tokens), rule);
      WholeRule(tokens, rule);
      HitsAt(state, tokens);
      equal := false;
      if ruleTokenLengths[rule] == |tokens| {
        automaton.ValidIsSafe();
        equal := automaton.HasOutput(state, rule);
      }
    }

    function Bucket(h: nat): seq<nat> {
      if h in hashes then hashes[h] else []
    }

    /** One match for each rule whose tokens are the whole input, in rule order, and no other. */
    ghost predicate WholeInput(tokens: Word, matches: seq<Match>) {
      && (forall rule: nat :: Match(rule, 0, |tokens|) in matches <==> tokens != [] && IsInput(tokens, rule))
      && (forall m | m in matches :: m == Match(m.rule, 0, |tokens|))
      && (forall i, j | 0 <= i < j < |matches| :: matches[i].rule < matches[j].rule)
    }

    /** Exactly the rules equal to the input, whatever else shares their hash. */
    method HashMatches(tokens: Word) returns (matches: seq<Match>)
      requires Valid()
      ensures WholeInput(tokens, matches)
    {
      var candidates := Bucket(hash(tokens));
      if |candidates| == 0 {
        ChosenIsAll(tokens, []);
        return [];
      }
      var state := FinalState(tokens);
      matches := ChooseEqual(tokens, state);
      ChosenIsAll(tokens, matches);
    }

    method ChooseEqual(tokens: Word, state: nat) returns (matches: seq<Match>)
      requires Valid() && At(state, tokens)
      ensures Chosen(tokens, Bucket(hash(tokens)), matches)
    {
      matches := [];
      var candidates := Bucket(hash(tokens));
      for k := 0 to |candidates|
        invariant Chosen(tokens, candidates[..k], matches)
      {
        assert Listed(hashes, hash(tokens), candidates[k]);
        var equal := EqualsRule(tokens, state, candidates[k]);
        WholeInputListed(tokens);
        ChooseOne(tokens, candidates, k, matches, equal);
        if equal {
          matches := matches + [Match(candidates[k], 0, |tokens|)];
        }
      }
      assert candidates[..|candidates|] == candidates;
    }

    lemma ChosenIsAll(tokens: Word, matches: seq<Match>)
      requires Valid() && Chosen(tokens, Bucket(hash(tokens)), matches)
      ensures WholeInput(tokens, matches)
    {
      forall rule: nat ensures Match(rule, 0, |tokens|) in matches <==> tokens != [] && IsInput(tokens, rule) {
        BucketMeaning(hash(tokens), rule);
        assert Listed(hashes, hash(tokens), rule) <==> rule in Bucket(hash(tokens));
      }
    }

    ghost predicate IsInput(tokens: Word, rule: nat) {
      rule < |ruleTokens| && ruleTokens[rule] == tokens
    }

    /** Of the candidates looked at so far, those equal to the input were kept. */
    ghost predicate Chosen(tokens: Word, candidates: seq<nat>, matches: seq<Match>) {
      && (forall rule: nat :: Match(rule, 0, |tokens|) in matches <==> rule in candidates && IsInput(tokens, rule))
      && (forall m | m in matches :: m == Match(m.rule, 0, |tokens|))
      && (forall i, j | 0 <= i < j < |matches| :: matches[i].rule < matches[j].rule)
    }

    lemma ChooseOne(tokens: Word, candidates: seq<nat>, k: nat, matches: seq<Match>, equal: bool)
      requires k < |candidates| && Rising(candidates) && Chosen(tokens, candidates[..k], matches)
      requires equal <==> IsInput(tokens, candidates[k])
      ensures Chosen(tokens, candidates[..k + 1],
                     if equal then matches + [Match(candidates[k], 0, |tokens|)] else matches)
    {
      assert candidates[..k + 1] == candidates[..k] + [candidates[k]];
      forall m | m in matches ensures m.rule < candidates[k] {
        assert Match(m.rule, 0, |tokens|) in matches;
      }
      forall i | 0 <= i < |matches| ensures matches[i].rule < candidates[k] { assert matches[i] in matches; }
    }

    lemma WholeInputListed(tokens: Word)
      requires Valid()
      ensures Rising(Bucket(hash(tokens)))
      ensures forall rule: nat | Listed(hashes, hash(tokens), rule) :: rule < |ruleTokens|
    {
      forall rule: nat | Listed(hashes, hash(tokens), rule) ensures rule < |ruleTokens| {
        BucketMeaning(hash(tokens), rule);
      }
    }
  }
}
