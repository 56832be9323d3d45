/** One input from bytes to reported rule matches. */
module Matching {
  import opened Options
  import opened Suffixes
  import opened Tokenize
  import opened Tokens
  import opened ExactMatches
  import opened Occurrences
  import opened Matcher
  import opened OmittedWords
  import opened FilterStates
  import opened FilterPipeline
  import opened Detections
  import LicenseLists
  import Search

  /** A rule match in input bytes. */
  datatype Reported = Reported(rule: nat, start: nat, end: nat)

  /** What tokenizing the input gives. */
  ghost predicate Tokenized(v: Vocabulary, decode: Decoder, input: Bytes, words: seq<Range>, kinds: seq<WordKind>,
                            tokens: IDTokens) {
    words == AllWords(decode, input) && kinds == Kinds(v, input, words) && Recorded(words, kinds, |words|, tokens)
  }

  /** Reading the reported bytes again gives just the rule's tokens. */
  ghost predicate ReadsAsRule(v: Vocabulary, decode: Decoder, input: Bytes, rules: seq<Word>, found: Reported) {
    && found.rule < |rules| && found.start < found.end
    && ReadsAs(v, decode, input, found.start, found.end, rules[found.rule])
  }

  /** Only a non-empty range reads as some tokens. */
  lemma NothingToRead(v: Vocabulary, decode: Decoder, input: Bytes, from: nat, to: nat, ids: Word)
    requires ReadsAs(v, decode, input, from, to, ids) && ids != []
    ensures from < to
  {
    assert AllWords(decode, []) == [];
    assert input[from..to] == [] <==> from == to;
  }

  // Omitted words -----------------------------------------------------------------------------

  lemma {:induction false} PositionsAscend(kinds: seq<WordKind>, kind: WordKind)
    ensures Search.Ascending(Positions(kinds, kind))
  {
    if kinds == [] {
    } else {
      var n := |kinds| - 1;
      PositionsAscend(kinds[..n], kind);
      PositionsSplit(kinds, kind, n);
    }
  }

  predicate HasStrictStopwords(rules: seq<MatchRule>) {
    exists i :: 0 <= i < |rules| && |rules[i].stopwordAfter| != 0 && Strict(rules[i].flags)
  }

  ghost predicate AllKnown(ms: seq<Match>, rules: seq<MatchRule>) {
    forall m | m in ms :: m.rule < |rules|
  }

  lemma {:induction false} AllSurvive(keep: Match -> bool, ms: seq<Match>)
    requires forall m | m in ms :: keep(m)
    ensures Filter(keep, ms) == ms
  {
    if ms == [] {
    } else {
      var n := |ms| - 1;
      AllSurvive(keep, ms[..n]);
      assert ms[n] in ms && ms == ms[..n] + [ms[n]];
    }
  }

  lemma NoOmittedWordSurvives(rules: seq<MatchRule>, lengths: seq<nat>, m: Match)
    requires !HasStrictStopwords(rules) && |rules| == |lengths| && m.rule < |rules|
    ensures Surviving(rules, lengths, [], [])(m)
  {
    if Strict(rules[m.rule].flags) { assert |rules[m.rule].stopwordAfter| == 0; }
  }

  /**
   * Drops the matches that span omitted words; when there are none to span, the skipped filter would keep everything.
   */
  method DropSpanning(candidates: seq<Match>, rules: seq<MatchRule>, lengths: seq<nat>, unknownAfter: seq<nat>,
                      stopwordAfter: seq<nat>)
    returns (kept: seq<Match>)
    requires Search.Ascending(unknownAfter) && Search.Ascending(stopwordAfter) && |rules| == |lengths|
      && AllKnown(candidates, rules)
    ensures kept == Filter(Surviving(rules, lengths, unknownAfter, stopwordAfter), candidates)
  {
    var hasOmittedWords := |unknownAfter| != 0 || |stopwordAfter| != 0;
    if |candidates| != 0 && (hasOmittedWords || HasStrictStopwords(rules)) {
      var matches := new Match[|candidates|](i requires 0 <= i < |candidates| => candidates[i]);
      assert matches[..] == candidates;
      var count := FilterOmittedSpanningMatches(matches, rules, lengths, unknownAfter, stopwordAfter);
      kept := matches[..count];
    } else {
      forall m | m in candidates ensures Surviving(rules, lengths, unknownAfter, stopwordAfter)(m) {
        NoOmittedWordSurvives(rules, lengths, m);
      }
      AllSurvive(Surviving(rules, lengths, unknownAfter, stopwordAfter), candidates);
      kept := candidates;
    }
  }

  // Candidates -----------------------------------------------------------------------------------

  /** Every candidate is a place where its rule's tokens stand. */
  ghost predicate AllOccur(rules: seq<Word>, ids: Word, ms: seq<Match>) {
    forall m | m in ms :: Occurs(rules, ids, m)
  }

  lemma FoundOccur(engine: MatchEngine, ids: Word)
    requires engine.Valid()
    ensures AllOccur(engine.ruleTokens, ids, engine.Found(ids))
  {
    forall m | m in engine.Found(ids) ensures Occurs(engine.ruleTokens, ids, m) {
      OccurrencesExact(engine.automaton.patterns, engine.ruleTokenLengths, engine.ruleTokens, ids, m);
    }
  }

  lemma WholeOccur(engine: MatchEngine, ids: Word, ms: seq<Match>)
    requires engine.WholeInput(ids, ms)
    ensures AllOccur(engine.ruleTokens, ids, ms) && forall m | m in ms :: m.start == 0 && m.end == |ids|
  {
    forall m | m in ms ensures Occurs(engine.ruleTokens, ids, m) && m.start == 0 && m.end == |ids| {
      assert m == Match(m.rule, 0, |ids|);
      assert ids[0..|ids|] == ids;
    }
  }

  /** The whole-input matches if there are any, otherwise all occurrences. */
  method CollectExactMatches(engine: MatchEngine, ids: Word) returns (r: Result<(seq<Match>, Method), MatchError>)
    requires engine.Valid()
    ensures r.Err? <==> engine.WholeInput(ids, []) && |engine.Found(ids)| > MAX_CANDIDATES
    ensures r.Ok? && r.value.1.Hash? ==> engine.WholeInput(ids, r.value.0) && r.value.0 != []
    ensures r.Ok? && r.value.1.Exact? ==> engine.WholeInput(ids, []) && r.value.0 == engine.Found(ids)
  {
    var whole := engine.HashMatches(ids);
    if |whole| != 0 {
      assert whole[0] in whole && Match(whole[0].rule, 0, |ids|) !in [];
      return Ok((whole, Hash));
    }
    var found := engine.CollectAhoMatches(ids);
    match found
    case Err(e) => return Err(e);
    case Ok(matches) => return Ok((matches, Exact));
  }

  /** What is left after dropping spanning matches. */
  ghost function Kept(engine: MatchEngine, tokens: IDTokens, ms: seq<Match>): seq<Match> {
    Filter(Surviving(engine.rules, engine.ruleTokenLengths, tokens.unknownAfter, tokens.stopwordAfter), ms)
  }

  /** A rule whose tokens are the whole input, with its omitted words where the rule allows them. */
  ghost predicate CoversInput(engine: MatchEngine, tokens: IDTokens, rule: nat) {
    && tokens.ids != [] && engine.IsInput(tokens.ids, rule)
    && Surviving(engine.rules, engine.ruleTokenLengths, tokens.unknownAfter, tokens.stopwordAfter)(
         Match(rule, 0, |tokens.ids|))
  }

  /** Whole-input matches are reported just when every word of the input is known and one survives. */
  ghost predicate CoveredWhole(engine: MatchEngine, tokens: IDTokens) {
    tokens.unknownAfter == [] && exists rule: nat :: CoversInput(engine, tokens, rule)
  }

  /** Otherwise all occurrences are looked for, and there must not be more than a million. */
  ghost predicate TooMany(engine: MatchEngine, tokens: IDTokens)
    reads engine.automaton
  {
    !CoveredWhole(engine, tokens) && |engine.Found(tokens.ids)| > 1_000_000
  }

  /** The candidates either cover the whole input or are all surviving occurrences. */
  ghost predicate CandidatesOf(engine: MatchEngine, tokens: IDTokens, ms: seq<Match>, how: Method)
    reads engine.automaton
  {
    match how
    case Exact =>
      && !CoveredWhole(engine, tokens) && |engine.Found(tokens.ids)| <= MAX_CANDIDATES
      && ms == Kept(engine, tokens, engine.Found(tokens.ids))
    case Hash =>
      CoveredWhole(engine, tokens) && ms != [] && exists whole ::
        engine.WholeInput(tokens.ids, whole) && ms == Kept(engine, tokens, whole)
  }

  /** Some whole-input match survives exactly when some rule covers the input. */
  lemma WholeKept(engine: MatchEngine, tokens: IDTokens, whole: seq<Match>)
    requires engine.WholeInput(tokens.ids, whole)
    ensures Kept(engine, tokens, whole) != [] <==> exists rule: nat :: CoversInput(engine, tokens, rule)
  {
    var keep := Surviving(engine.rules, engine.ruleTokenLengths, tokens.unknownAfter, tokens.stopwordAfter);
    var kept := Kept(engine, tokens, whole);
    if kept != [] {
      FilterMembers(keep, whole, kept[0]);
      assert kept[0] == Match(kept[0].rule, 0, |tokens.ids|);
      assert CoversInput(engine, tokens, kept[0].rule);
    }
    if rule: nat :| CoversInput(engine, tokens, rule) {
      FilterMembers(keep, whole, Match(rule, 0, |tokens.ids|));
    }
  }

  lemma KeptOccur(engine: MatchEngine, tokens: IDTokens, ms: seq<Match>)
    requires AllOccur(engine.ruleTokens, tokens.ids, ms)
    ensures AllOccur(engine.ruleTokens, tokens.ids, Kept(engine, tokens, ms))
    ensures forall m | m in Kept(engine, tokens, ms) :: m in ms
  {
    forall m | m in Kept(engine, tokens, ms) ensures m in ms {
      FilterMembers(Surviving(engine.rules, engine.ruleTokenLengths, tokens.unknownAfter, tokens.stopwordAfter), ms, m);
    }
  }

  /** No match can cover an input that no rule equals or that has unknown words. */
  ghost predicate NoWhole(engine: MatchEngine, tokens: IDTokens) {
    tokens.unknownAfter != [] || engine.WholeInput(tokens.ids, [])
  }

  lemma NoWholeCovers(engine: MatchEngine, tokens: IDTokens)
    requires NoWhole(engine, tokens)
    ensures !CoveredWhole(engine, tokens)
  {
    if tokens.unknownAfter == [] { WholeKept(engine, tokens, []); }
  }

  /** The first candidates: with unknown words in the input no rule can be the whole of it. */
  method FirstCandidates(engine: MatchEngine, tokens: IDTokens) returns (r: Result<(seq<Match>, Method), MatchError>)
    requires engine.Valid()
    ensures r.Err? <==> NoWhole(engine, tokens) && |engine.Found(tokens.ids)| > MAX_CANDIDATES
    ensures r.Ok? && r.value.1.Hash? ==> tokens.unknownAfter == [] && engine.WholeInput(tokens.ids, r.value.0)
    ensures r.Ok? && r.value.1.Exact? ==> NoWhole(engine, tokens) && r.value.0 == engine.Found(tokens.ids)
  {
    if |tokens.unknownAfter| != 0 {
      var found := engine.CollectAhoMatches(tokens.ids);
      match found
      case Err(e) => return Err(e);
      case Ok(matches) => return Ok((matches, Exact));
    }
    r := CollectExactMatches(engine, tokens.ids);
  }

  method AllCandidates(engine: MatchEngine, tokens: IDTokens) returns (r: Result<seq<Match>, MatchError>)
    requires engine.Valid() && Search.Ascending(tokens.unknownAfter) && Search.Ascending(tokens.stopwordAfter)
    requires !CoveredWhole(engine, tokens)
    ensures r.Err? <==> TooMany(engine, tokens)
    ensures r.Ok? ==> CandidatesOf(engine, tokens, r.value, Exact)
  {
    var found := engine.CollectAhoMatches(tokens.ids);
    if found.Err? {
      return Err(found.error);
    }
    FoundOccur(engine, tokens.ids);
    var kept :=
      DropSpanning(found.value, engine.rules, engine.ruleTokenLengths, tokens.unknownAfter, tokens.stopwordAfter);
    r := Ok(kept);
  }

  /** Which of the first candidates survive decides: whole-input matches if some do, else the occurrences. */
  lemma FirstDecide(engine: MatchEngine, tokens: IDTokens, matches: seq<Match>, how: Method)
    requires how.Hash? ==> tokens.unknownAfter == [] && engine.WholeInput(tokens.ids, matches)
    requires how.Exact? ==> NoWhole(engine, tokens) && matches == engine.Found(tokens.ids)
    requires how.Exact? ==> |engine.Found(tokens.ids)| <= MAX_CANDIDATES
    ensures how.Hash? ==> (CoveredWhole(engine, tokens) <==> Kept(engine, tokens, matches) != [])
    ensures how.Exact? || Kept(engine, tokens, matches) != [] ==>
      CandidatesOf(engine, tokens, Kept(engine, tokens, matches), how)
    ensures CandidatesOf(engine, tokens, Kept(engine, tokens, matches), how) ==> !TooMany(engine, tokens)
  {
    if how.Hash? { WholeKept(engine, tokens, matches); } else { NoWholeCovers(engine, tokens); }
  }

  /** Collects candidates; whole-input matches that all span omitted words give way to a full search. */
  method Candidates(engine: MatchEngine, tokens: IDTokens) returns (r: Result<(seq<Match>, Method), MatchError>)
    requires engine.Valid() && Search.Ascending(tokens.unknownAfter) && Search.Ascending(tokens.stopwordAfter)
    ensures r.Err? <==> TooMany(engine, tokens)
    ensures r.Ok? ==> CandidatesOf(engine, tokens, r.value.0, r.value.1)
  {
    var first := FirstCandidates(engine, tokens);
    if first.Err? {
      NoWholeCovers(engine, tokens);
      return Err(first.error);
    }
    var (matches, how) := first.value;
    FirstOccur(engine, tokens, matches, how);
    var kept := DropSpanning(matches, engine.rules, engine.ruleTokenLengths, tokens.unknownAfter, tokens.stopwordAfter);
    FirstDecide(engine, tokens, matches, how);
    if |kept| != 0 || how == Exact {
      return Ok((kept, how));
    }
    var all := AllCandidates(engine, tokens);
    match all
    case Err(e) => return Err(e);
    case Ok(found) => return Ok((found, Exact));
  }

  lemma FirstOccur(engine: MatchEngine, tokens: IDTokens, matches: seq<Match>, how: Method)
    requires engine.Valid()
    requires how.Hash? ==> engine.WholeInput(tokens.ids, matches)
    requires how.Exact? ==> matches == engine.Found(tokens.ids)
    ensures AllOccur(engine.ruleTokens, tokens.ids, matches)
  {
    if how.Hash? { WholeOccur(engine, tokens.ids, matches); } else { FoundOccur(engine, tokens.ids); }
  }

  // Reporting ------------------------------------------------------------------------------------

  lemma CandidatesOccur(engine: MatchEngine, tokens: IDTokens, ms: seq<Match>, how: Method)
    requires engine.Valid() && CandidatesOf(engine, tokens, ms, how)
    ensures AllOccur(engine.ruleTokens, tokens.ids, ms)
    ensures how.Hash? ==> forall m | m in ms :: m.start == 0 && m.end == |tokens.ids|
  {
    match how
    case Exact =>
      FoundOccur(engine, tokens.ids);
      KeptOccur(engine, tokens, engine.Found(tokens.ids));
    case Hash =>
      var whole :| engine.WholeInput(tokens.ids, whole) && ms == Kept(engine, tokens, whole);
      WholeOccur(engine, tokens.ids, whole);
      KeptOccur(engine, tokens, whole);
  }

  /** What the filter reports was among its candidates. */
  lemma ReportedWasCandidate(rules: seq<MatchRule>, candidates: seq<Match>, ms: seq<Match>, options: FilterOptions,
                             settled: seq<State>, kept: seq<Match>, m: Match)
    requires multiset(ms) == multiset(candidates) && FilterPipeline.Reported(rules, ms, options, settled, kept)
      && m in kept
    ensures m in candidates
  {
    var survivors := Filter(Reportable(rules, options), ActiveFrom(ms, settled, 0));
    assert m in multiset(kept);
    FilterMembers(Reportable(rules, options), ActiveFrom(ms, settled, 0), m);
    assert m in multiset(survivors);
    ActiveOnes(ms, settled, 0, m);
    assert m in multiset(ms);
  }

  /** The byte range of a token range of known words. */
  lemma RangeReads(v: Vocabulary, decode: Decoder, input: Bytes, words: seq<Range>, kinds: seq<WordKind>, ids: Word,
                   rules: seq<Word>, m: Match, offsets: seq<Range>)
    requires Local(decode) && Proper(decode) && words == AllWords(decode, input) && kinds == Kinds(v, input, words)
    requires offsets == KnownRanges(words, kinds) && Ids(kinds) == ids && Occurs(rules, ids, m)
    ensures m.end <= |offsets|
    ensures ReadsAsRule(v, decode, input, rules, Reported(m.rule, offsets[m.start].start, offsets[m.end - 1].end))
  {
    RangeReadsTokens(v, decode, input, words, kinds, offsets, m.start, m.end);
    NothingToRead(v, decode, input, offsets[m.start].start, offsets[m.end - 1].end, rules[m.rule]);
  }

  lemma RangeReadsTokens(v: Vocabulary, decode: Decoder, input: Bytes, words: seq<Range>, kinds: seq<WordKind>,
                         offsets: seq<Range>, start: nat, end: nat)
    requires Local(decode) && Proper(decode) && words == AllWords(decode, input) && kinds == Kinds(v, input, words)
    requires offsets == KnownRanges(words, kinds) && start < end <= |offsets| == |Ids(kinds)|
    ensures ReadsAs(v, decode, input, offsets[start].start, offsets[end - 1].end, Ids(kinds)[start..end])
  {
    RangeTokens(v, decode, input, words, kinds, start, end);
  }

  /** Byte ranges of the known words, by whichever of the two scans applies. */
  method KnownOffsets(v: Vocabulary, decode: Decoder, input: Bytes, tokens: IDTokens, ghost words: seq<Range>,
                      ghost kinds: seq<WordKind>)
    returns (offsets: seq<Range>)
    requires Tokenized(v, decode, input, words, kinds, tokens)
    ensures offsets == KnownRanges(words, kinds)
  {
    RecordedAll(words, kinds, tokens);
    if |tokens.unknownAfter| != 0 || |tokens.stopwordAfter| != 0 {
      offsets := KnownTokenOffsets(decode, input, tokens.unknownAfter, tokens.stopwordAfter, v);
    } else {
      offsets := TokenOffsets(decode, input, v);
    }
  }

  /** Where each kept match stands: its own range, or the span of all known words for a whole-input match. */
  function Place(m: Match, how: Method, tokens: IDTokens, offsets: seq<Range>): Reported {
    if how.Exact? && m.start < |offsets| && 0 < m.end <= |offsets|
    then Reported(m.rule, offsets[m.start].start, offsets[m.end - 1].end)
    else Reported(m.rule, tokens.start, tokens.end)
  }

  lemma PlaceReads(v: Vocabulary, decode: Decoder, input: Bytes, words: seq<Range>, kinds: seq<WordKind>,
                   tokens: IDTokens, rules: seq<Word>, m: Match, how: Method, offsets: seq<Range>)
    requires Local(decode) && Proper(decode) && Tokenized(v, decode, input, words, kinds, tokens)
    requires Occurs(rules, tokens.ids, m) && (how.Exact? ==> offsets == KnownRanges(words, kinds))
    requires how.Hash? ==> m.start == 0 && m.end == |tokens.ids|
    ensures ReadsAsRule(v, decode, input, rules, Place(m, how, tokens, offsets))
  {
    RecordedAll(words, kinds, tokens);
    RangeReads(v, decode, input, words, kinds, tokens.ids, rules, m, KnownRanges(words, kinds));
    SpanOfAll(words, kinds, tokens);
  }

  lemma SpanOfAll(words: seq<Range>, kinds: seq<WordKind>, tokens: IDTokens)
    requires Recorded(words, kinds, |words|, tokens) && tokens.ids != []
    ensures var ranges := KnownRanges(words, kinds);
      |ranges| == |tokens.ids| && tokens.start == ranges[0].start && tokens.end == ranges[|ranges| - 1].end
  {
    RecordedAll(words, kinds, tokens);
  }

  method PlaceAll(kept: seq<Match>, how: Method, tokens: IDTokens, offsets: seq<Range>) returns (placed: seq<Reported>)
    ensures |placed| == |kept| && forall i | 0 <= i < |kept| :: placed[i] == Place(kept[i], how, tokens, offsets)
  {
    placed := [];
    for i := 0 to |kept|
      invariant |placed| == i && forall k | 0 <= k < i :: placed[k] == Place(kept[k], how, tokens, offsets)
    {
      placed := placed + [Place(kept[i], how, tokens, offsets)];
    }
  }

  /**
   * How candidates became reported ranges: filtering order, states after each stage, the matches kept, and those
   * reported.
   */
  datatype Run = Run(candidates: seq<Match>, how: Method, ms: seq<Match>, t: Trace, kept: seq<Match>,
                     reported: seq<Match>)

  ghost predicate Ran(rules: seq<MatchRule>, options: FilterOptions, run: Run) {
    && multiset(run.ms) == multiset(run.candidates) && Traced(rules, run.ms, options, run.t)
    && FilterPipeline.Reported(rules, run.ms, options, run.t.s5, run.kept)
  }

  function ListInput(rules: seq<MatchRule>, tokens: IDTokens): LicenseLists.Input {
    LicenseLists.Input(rules, tokens.unknownAfter, tokens.stopwordAfter,
                       |tokens.ids| + |tokens.unknownAfter| + |tokens.stopwordAfter|)
  }

  /** The kept matches without those in dense lists of license names, which are looked for inside larger inputs only. */
  ghost function WithoutLists(rules: seq<MatchRule>, tokens: IDTokens, how: Method, options: FilterOptions,
                              kept: seq<Match>): seq<Match> {
    if options.falsePositive && how.Exact? && |kept| >= LicenseLists.MINIMUM_MATCHES
    then LicenseLists.Unlisted(ListInput(rules, tokens), kept, |kept|)
    else kept
  }

  method DropLists(rules: seq<MatchRule>, tokens: IDTokens, how: Method, options: FilterOptions, kept: seq<Match>)
    returns (reported: seq<Match>)
    requires Search.Ascending(tokens.unknownAfter) && Search.Ascending(tokens.stopwordAfter)
    ensures reported == WithoutLists(rules, tokens, how, options, kept)
    ensures forall m | m in reported :: m in kept
  {
    reported := kept;
    if options.falsePositive && how == Exact && |kept| >= LicenseLists.MINIMUM_MATCHES {
      var matches := new Match[|kept|](i requires 0 <= i < |kept| => kept[i]);
      assert matches[..] == kept;
      var count := LicenseLists.FilterLicenseListMatches(ListInput(rules, tokens), matches);
      reported := matches[..count];
      LicenseLists.UnlistedMembers(ListInput(rules, tokens), kept, |kept|);
    }
  }

  ghost predicate PlacedFrom(placed: seq<Reported>, run: Run, tokens: IDTokens, ranges: seq<Range>) {
    && |placed| == |run.reported|
    && forall i | 0 <= i < |placed| :: placed[i] == Place(run.reported[i], run.how, tokens, ranges)
  }

  /**
   * No candidate is lost: a kept match shares a token with it, or a survivor that was dropped as a false positive does.
   */
  lemma EveryCandidateAnswered(rules: seq<MatchRule>, options: FilterOptions, run: Run, m: Match) returns (k: Match)
    requires Ran(rules, options, run) && m in run.candidates
    ensures Overlap(k, m) > 0
    ensures k in run.kept || (options.falsePositive && IsFalsePositive(rules, k) && k in run.candidates)
  {
    var ms, settled := run.ms, run.t.s5;
    assert m in multiset(ms);
    var i :| 0 <= i < |ms| && ms[i] == m;
    assert Represented(ms, settled, i);
    var j: nat :| j < |ms| && IsActive(settled, j) && Overlap(ms[j], ms[i]) > 0;
    k := ms[j];
    ActiveIsListed(ms, settled, 0, j);
    FilterMembers(Reportable(rules, options), ActiveFrom(ms, settled, 0), k);
    var survivors := Filter(Reportable(rules, options), ActiveFrom(ms, settled, 0));
    if k in survivors {
      assert k in multiset(survivors);
    } else {
      assert k in multiset(ms);
    }
  }

  lemma {:induction false} ActiveIsListed(ms: seq<Match>, settled: seq<State>, i: nat, j: nat)
    requires |settled| == |ms| && i <= j < |ms| && IsActive(settled, j)
    ensures ms[j] in ActiveFrom(ms, settled, i)
    decreases |ms| - i
  {
    if i == j {
    } else {
      ActiveIsListed(ms, settled, i + 1, j);
    }
  }

  /** Every placed match of a run reads as its rule's tokens. */
  lemma AllPlacedRead(rules: seq<MatchRule>, ruleTokens: seq<Word>, v: Vocabulary, decode: Decoder, input: Bytes,
                      tokens: IDTokens, options: FilterOptions, words: seq<Range>, kinds: seq<WordKind>, run: Run,
                      placed: seq<Reported>, offsets: seq<Range>)
    requires Local(decode) && Proper(decode) && Tokenized(v, decode, input, words, kinds, tokens)
    requires Ran(rules, options, run) && AllOccur(ruleTokens, tokens.ids, run.candidates)
    requires run.how.Hash? ==> forall m | m in run.candidates :: m.start == 0 && m.end == |tokens.ids|
    requires (forall m | m in run.reported :: m in run.kept)
    requires run.how.Exact? && run.reported != [] ==> offsets == KnownRanges(words, kinds)
    requires PlacedFrom(placed, run, tokens, offsets)
    ensures forall f | f in placed :: ReadsAsRule(v, decode, input, ruleTokens, f)
  {
    forall f | f in placed ensures ReadsAsRule(v, decode, input, ruleTokens, f) {
      var i :| 0 <= i < |placed| && placed[i] == f;
      assert run.reported[i] in run.kept;
      ReportedWasCandidate(rules, run.candidates, run.ms, options, run.t.s5, run.kept, run.reported[i]);
      PlaceReads(v, decode, input, words, kinds, tokens, ruleTokens, run.reported[i], run.how, offsets);
    }
  }

  lemma TokenizedPositionsAscend(v: Vocabulary, decode: Decoder, input: Bytes, words: seq<Range>, kinds: seq<WordKind>,
                                 tokens: IDTokens)
    requires Tokenized(v, decode, input, words, kinds, tokens)
    ensures Search.Ascending(tokens.unknownAfter) && Search.Ascending(tokens.stopwordAfter)
  {
    RecordedAll(words, kinds, tokens);
    PositionsAscend(kinds, Unknown);
    PositionsAscend(kinds, Stopword);
  }

  /** Filters candidates and places what is left. */
  method FilterAndPlace(engine: MatchEngine, v: Vocabulary, decode: Decoder, input: Bytes, tokens: IDTokens,
                        candidates: seq<Match>, how: Method, options: FilterOptions, ghost words: seq<Range>,
                        ghost kinds: seq<WordKind>)
    returns (placed: seq<Reported>, ghost run: Run)
    requires engine.Valid() && Local(decode) && Proper(decode) && Tokenized(v, decode, input, words, kinds, tokens)
    requires AllOccur(engine.ruleTokens, tokens.ids, candidates)
    requires how.Hash? ==> forall m | m in candidates :: m.start == 0 && m.end == |tokens.ids|
    ensures forall f | f in placed :: ReadsAsRule(v, decode, input, engine.ruleTokens, f)
    ensures run.candidates == candidates && run.how == how && Ran(engine.rules, options, run)
    ensures run.reported == WithoutLists(engine.rules, tokens, how, options, run.kept)
    ensures PlacedFrom(placed, run, tokens, KnownRanges(words, kinds))
  {
    forall i | 0 <= i < |candidates|
      ensures candidates[i].rule < |engine.rules| && candidates[i].start < candidates[i].end {
      assert candidates[i] in candidates;
    }
    var kept := FilterExactMatches(engine.rules, candidates, options);
    ghost var ms, t :| Filtered(engine.rules, candidates, options, ms, t, kept);
    TokenizedPositionsAscend(v, decode, input, words, kinds, tokens);
    var reported := DropLists(engine.rules, tokens, how, options, kept);
    var offsets: seq<Range> := [];
    if |reported| != 0 && how == Exact {
      offsets := KnownOffsets(v, decode, input, tokens, words, kinds);
    }
    placed := PlaceAll(reported, how, tokens, offsets);
    run := Run(candidates, how, ms, t, kept, reported);
    AllPlacedRead(engine.rules, engine.ruleTokens, v, decode, input, tokens, options, words, kinds, run, placed,
                  offsets);
  }

  /**
   * The answer for an input: nothing without known tokens, otherwise the placed matches of a run over its candidates.
   */
  ghost predicate Answers(engine: MatchEngine, options: FilterOptions, tokens: IDTokens, ranges: seq<Range>,
                          placed: seq<Reported>, run: Run)
    reads engine.automaton
  {
    if tokens.ids == [] then placed == []
    else
      && CandidatesOf(engine, tokens, run.candidates, run.how) && Ran(engine.rules, options, run)
      && run.reported == WithoutLists(engine.rules, tokens, run.how, options, run.kept)
      && PlacedFrom(placed, run, tokens, ranges)
  }

  /**
   * Rule matches of an input and how they were found. Every reported byte range reads, on its own, as its rule's
   * tokens.
   */
  method MatchRules(engine: MatchEngine, v: Vocabulary, decode: Decoder, input: Bytes, options: FilterOptions)
    returns (r: Result<(seq<Reported>, Method), MatchError>, ghost tokens: IDTokens, ghost run: Run)
    requires engine.Valid() && Local(decode) && Proper(decode)
    ensures Tokenized(v, decode, input, AllWords(decode, input), Kinds(v, input, AllWords(decode, input)), tokens)
    ensures r.Err? <==> TooMany(engine, tokens)
    ensures r.Ok? ==> forall f | f in r.value.0 :: ReadsAsRule(v, decode, input, engine.ruleTokens, f)
    ensures r.Ok? ==> r.value.1 == run.how && Answers(engine, options, tokens,
      KnownRanges(AllWords(decode, input), Kinds(v, input, AllWords(decode, input))), r.value.0, run)
  {
    var found := TokenizeIDs(v, decode, input);
    tokens, run := found, Run([], Exact, [], Trace([], [], [], [], []), [], []);
    ghost var words := AllWords(decode, input);
    ghost var kinds := Kinds(v, input, words);
    if |found.ids| == 0 {
      return Ok(([], Exact)), tokens, run;
    }
    TokenizedPositionsAscend(v, decode, input, words, kinds, tokens);
    var candidates := Candidates(engine, found);
    if candidates.Err? {
      return Err(candidates.error), tokens, run;
    }
    var (matches, how) := candidates.value;
    CandidatesOccur(engine, tokens, matches, how);
    var placed;
    placed, run := FilterAndPlace(engine, v, decode, input, found, matches, how, options, words, kinds);
    r := Ok((placed, how));
  }
}
