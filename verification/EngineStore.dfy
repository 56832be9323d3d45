/** An engine over a stored automaton instead of one built afresh. */
module EngineStore {
  import opened Packed
  import opened Varint
  import opened Patterns
  import opened Suffixes
  import opened Tries
  import opened TrieRows
  import opened ExactMatches
  import opened Automata
  import opened Matcher
  import opened EngineBuild
  import opened CorpusFormat
  import opened CorpusReader
  import opened CorpusRoundTrip
  import AhoBuild
  import LinkParallel

  /** The stream holds the automaton of the rules. */
  ghost predicate StoresRules(stream: seq<byte>, ruleTokens: seq<Word>, sh: Shape) {
    && Accepted(stream, |ruleTokens|, MAX_TOKEN16) && Acceptable(PatternsOf(ruleTokens), |ruleTokens|)
    && IsTrie(DecodeStored(stream, |ruleTokens|, MAX_TOKEN16).value, AhoBuild.Refs(PatternsOf(ruleTokens)), sh)
  }

  /**
   * Loads an engine from whatever automaton is stored beside its rules: one that is safe to search, and a valid engine
   * when the automaton is the rules' own.
   */
  method LoadMatchEngine(stream: seq<byte>, gomaxprocs: nat, ruleTokens: seq<Word>, rules: seq<MatchRule>,
                         hash: Word -> nat, ghost sh: Shape) returns (r: Read<MatchEngine>)
    requires gomaxprocs > 0 && |rules| == |ruleTokens| <= NONE
    ensures r.Got? <==> Accepted(stream, |ruleTokens|, MAX_TOKEN16)
    ensures r.Got? ==> fresh(r.value) && r.value.ruleTokens == ruleTokens && r.value.rules == rules
    ensures r.Got? ==> r.value.hash == hash && r.value.automaton.Safe()
    ensures r.Got? ==> r.rest == DecodeStored(stream, |ruleTokens|, MAX_TOKEN16).rest
    ensures StoresRules(stream, ruleTokens, sh) ==>
      r.Got? && r.value.Valid() && r.value.automaton.patterns == AhoBuild.Refs(PatternsOf(ruleTokens))
  {
    ghost var ps := AhoBuild.Refs(PatternsOf(ruleTokens));
    var read := ReadCompact(stream, |ruleTokens|, gomaxprocs, ps, sh);
    if read.Bad? {
      return Bad;
    }
    ghost var s := DecodeStored(stream, |ruleTokens|, MAX_TOKEN16).value;
    LoadedIsSafe(read.value, s, LinkParallel.WorkerCount(gomaxprocs, |s.starts| - 1));
    var engine := EngineOf(read.value, ruleTokens, rules, hash);
    r := Got(engine, read.rest);
  }

  /** Both engines find the same occurrences, and the same whole inputs. */
  ghost predicate FindAlike(a: MatchEngine, b: MatchEngine)
    reads a.automaton, b.automaton
  {
    && (forall tokens: Word :: a.Found(tokens) == b.Found(tokens))
    && forall tokens: Word, ms: seq<Match> :: a.WholeInput(tokens, ms) <==> b.WholeInput(tokens, ms)
  }

  lemma SameRulesFindAlike(a: MatchEngine, b: MatchEngine)
    requires a.Valid() && b.Valid() && a.ruleTokens == b.ruleTokens && a.automaton.patterns == b.automaton.patterns
    ensures FindAlike(a, b)
  {
    SameLengths(a, b);
    forall tokens: Word ensures a.Found(tokens) == b.Found(tokens) { }
    forall tokens: Word, ms: seq<Match> ensures a.WholeInput(tokens, ms) <==> b.WholeInput(tokens, ms) {
      SameWholeInput(a, b, tokens, ms);
    }
  }

  lemma SameLengths(a: MatchEngine, b: MatchEngine)
    requires a.Valid() && b.Valid() && a.ruleTokens == b.ruleTokens
    ensures a.ruleTokenLengths == b.ruleTokenLengths
  {
  }

  lemma SameWholeInput(a: MatchEngine, b: MatchEngine, tokens: Word, ms: seq<Match>)
    requires a.ruleTokens == b.ruleTokens
    ensures a.WholeInput(tokens, ms) <==> b.WholeInput(tokens, ms)
  {
    assert forall rule: nat :: a.IsInput(tokens, rule) <==> b.IsInput(tokens, rule);
  }

  lemma WrittenStoresRules(a: Automaton, bytes: seq<byte>, following: seq<byte>, ruleTokens: seq<Word>)
    requires a.Valid() && WithinLimits(a, MAX_TOKEN16) && EncodesStored(bytes, StoredForm(a))
    requires |ruleTokens| == |a.outputNext| && a.patterns == AhoBuild.Refs(PatternsOf(ruleTokens))
    requires Acceptable(PatternsOf(ruleTokens), |ruleTokens|)
    ensures Accepted(bytes + following, |ruleTokens|, MAX_TOKEN16)
      && StoresRules(bytes + following, ruleTokens, a.shape)
    ensures DecodeStored(bytes + following, |ruleTokens|, MAX_TOKEN16).rest == following
  {
    WrittenIsAccepted(a, bytes, following, MAX_TOKEN16);
  }

  /** An engine saved and loaded finds in every input what it found before. */
  method SaveAndLoadEngine(engine: MatchEngine, following: seq<byte>, gomaxprocs: nat, ruleTokens: seq<Word>)
    returns (loaded: MatchEngine, rest: seq<byte>)
    requires engine.Valid() && engine.ruleTokens == ruleTokens && WithinLimits(engine.automaton, MAX_TOKEN16)
      && gomaxprocs > 0
    requires |ruleTokens| == |engine.automaton.outputNext| <= NONE && Acceptable(PatternsOf(ruleTokens), |ruleTokens|)
    requires engine.automaton.patterns == AhoBuild.Refs(PatternsOf(ruleTokens))
    ensures rest == following && fresh(loaded) && loaded.Valid() && FindAlike(loaded, engine)
  {
    var bytes := WriteAutomaton(engine.automaton);
    WrittenStoresRules(engine.automaton, bytes, following, ruleTokens);
    var read :=
      LoadMatchEngine(bytes + following, gomaxprocs, ruleTokens, engine.rules, engine.hash, engine.automaton.shape);
    loaded, rest := read.value, read.rest;
    SameRulesFindAlike(loaded, engine);
  }
}
