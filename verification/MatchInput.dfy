/**
 * One input from bytes to its result: rule matches, grouping, texts that continue, license tags, and the final order.
 */
module MatchInput {
  import opened Options
  import opened Suffixes
  import opened ExactMatches
  import opened Detections
  import opened Grouping
  import opened RuleMatches
  import opened ResultOrder
  import opened SpdxText
  import opened SpdxSweep
  import opened SpdxResult
  import opened SpdxMatch
  import opened ReportedOrder
  import opened SpdxOutcome
  import opened SpdxVisits
  import Matcher
  import Matching
  import Tokenize
  import Tokens
  import TokenWords
  import FilterPipeline
  import Sorting

  /**
   * What a result is read against: the input with its decoder and vocabulary, the rules, and the parser of tag
   * expressions.
   */
  datatype Context = Context(input: Bytes, decode: Tokenize.Decoder, vocabulary: Tokens.Vocabulary,
                             ruleTokens: seq<Word>,
                             rules: seq<MatchRule>, metadata: seq<Metadata>, normalize: Bytes -> Normalized)

  // What a match of the result is ---------------------------------------------------------------------

  /** The bytes of the match, read on their own, are the tokens of its rule, whose category and score it has. */
  ghost predicate IsRuleMatch(c: Context, m: Found) {
    && m.origin.OfRule? && m.origin.rule < |c.metadata| == |c.rules|
    && Matching.ReadsAsRule(c.vocabulary, c.decode, c.input, c.ruleTokens,
                            Matching.Reported(m.origin.rule, m.start, m.end))
    && m.licenseIds == c.metadata[m.origin.rule].licenseIds && m.score == c.rules[m.origin.rule].relevance
    && IsKind(c.rules[m.origin.rule].flags, m.kind)
  }

  /** The match of a text that continues, as a clue. */
  ghost predicate IsContinued(c: Context, m: Found) {
    m.kind == Clue && IsRuleMatch(c, m.(kind := Text))
  }

  /** The match is a visited tag from its anchor to the end of its expression. */
  ghost predicate IsTag(c: Context, m: Found, v: Visit) {
    VisitOk(c.input, v) && m.origin.OfTag? && m.start == v.anchor && m.end == v.end && v.start < v.end
  }

  /** A tag that declares the expression. */
  ghost predicate DeclaresAs(c: Context, m: Found, e: string) {
    exists v :: IsTag(c, m, v) && c.normalize(c.input[v.start..v.end]).expression == e
                && m.licenseIds == c.normalize(c.input[v.start..v.end]).identifiers
  }

  /** A tag whose expression was cut off. */
  ghost predicate IsCutOff(c: Context, m: Found) {
    m.kind == Clue && exists v :: IsTag(c, m, v) && !v.complete
  }

  ghost predicate StatesAs(c: Context, m: Found, e: string) {
    (IsRuleMatch(c, m) && c.metadata[m.origin.rule].expression == e) || DeclaresAs(c, m, e)
  }

  ghost predicate AllState(c: Context, ms: seq<Found>, e: string) {
    forall m | m in ms :: StatesAs(c, m, e)
  }

  /** Every detection states its expression. */
  ghost predicate DetectionsSound(c: Context, ds: seq<Detection>) {
    Grouped(ds) && forall e: string {:trigger DetectionOf(ds, e)} ::
      match DetectionOf(ds, e) case None => true case Some(d) => AllState(c, d.matches, e)
  }

  ghost predicate ClueSound(c: Context, m: Found) {
    IsRuleMatch(c, m) || IsContinued(c, m) || IsCutOff(c, m)
  }

  ghost predicate CluesSound(c: Context, ms: seq<Found>) {
    forall m | m in ms :: ClueSound(c, m)
  }

  // Grouping ------------------------------------------------------------------------------------------------

  ghost predicate ItemsSound(c: Context, items: seq<Item>) {
    forall i | 0 <= i < |items| ::
      && IsRuleMatch(c, items[i].found) && items[i].found.start < items[i].found.end
      && c.metadata[items[i].found.origin.rule].expression == items[i].expression
  }

  lemma GroupsSound(c: Context, ds: seq<Detection>, items: seq<Item>)
    requires GroupedFrom(ds, items) && ItemsSound(c, items)
    ensures DetectionsSound(c, ds)
  {
    GroupsAreGrouped(ds, items);
    forall e: string ensures match DetectionOf(ds, e) case None => true case Some(d) => AllState(c, d.matches, e) {
      DetectionListed(ds, e);
      if DetectionOf(ds, e).Some? {
        var d := DetectionOf(ds, e).value;
        var k :| 0 <= k < |ds| && ds[k] == d;
        assert DetectedFrom(ds[k], items);
        forall m | m in d.matches ensures StatesAs(c, m, e) { StatingMember(items, e, m); }
      }
    }
  }

  lemma GroupedCluesSound(c: Context, items: seq<Item>)
    requires ItemsSound(c, items)
    ensures CluesSound(c, Clues(items)) && NonEmptyMatches(Clues(items))
  {
    CluesNonEmpty(items);
    forall m | m in Clues(items) ensures IsRuleMatch(c, m) { ClueMember(items, m); }
  }

  // Removing and adding --------------------------------------------------------------------------------------

  lemma RemovalSound(c: Context, before: seq<Detection>, after: seq<Detection>, keep: Found -> bool)
    requires DetectionsSound(c, before) && Removed(before, after, keep)
    ensures DetectionsSound(c, after)
  {
    forall e: string ensures match DetectionOf(after, e) case None => true case Some(d) => AllState(c, d.matches, e) {
      assert DetectionOf(after, e) == Remaining(keep, DetectionOf(before, e));
      if DetectionOf(after, e).Some? {
        var d := DetectionOf(before, e).value;
        assert AllState(c, d.matches, e);
        forall m | m in Filter(keep, d.matches) ensures StatesAs(c, m, e) { FilterMembers(keep, d.matches, m); }
      }
    }
  }

  /** Only license texts are downgraded, and those are rule matches. */
  lemma DowngradedSound(c: Context, ds: seq<Detection>, continues: (nat, nat) -> bool)
    requires DetectionsSound(c, ds) && forall d, m | d in ds && m in d.matches :: m.origin.OfRule?
    ensures CluesSound(c, DowngradedIn(Stays(continues), ds)) && NonEmptyMatches(DowngradedIn(Stays(continues), ds))
  {
    var clues := DowngradedIn(Stays(continues), ds);
    forall x | x in clues ensures IsContinued(c, x) && x.start < x.end {
      DowngradedInMember(Stays(continues), ds, x);
      var d, m :| d in ds && m in d.matches && !Stays(continues)(m) && x == m.(kind := Clue);
      DetectedSound(c, ds, d, m);
      assert x.(kind := Text) == m;
    }
    forall i | 0 <= i < |clues| ensures clues[i].start < clues[i].end { assert clues[i] in clues; }
  }

  lemma DetectedSound(c: Context, ds: seq<Detection>, d: Detection, m: Found)
    requires DetectionsSound(c, ds) && d in ds && m in d.matches
    ensures StatesAs(c, m, d.expression) && m.start < m.end
  {
    var i :| 0 <= i < |ds| && ds[i] == d;
    OwnDetection(ds, i);
    assert AllState(c, DetectionOf(ds, d.expression).value.matches, d.expression);
    var k :| 0 <= k < |d.matches| && d.matches[k] == m;
  }

  /** Everything the sweep recorded comes from a visit. */
  ghost predicate RecordedFromVisits(c: Context, s: Swept) {
    && (forall d | d in s.additions :: FromVisit(c, d))
    && forall span | span in s.cutOff :: exists v ::
      VisitOk(c.input, v) && !v.complete && v.start < v.end && span == Span(v.anchor, v.end)
  }

  ghost predicate FromVisit(c: Context, d: Declared) {
    exists v :: VisitOk(c.input, v) && v.start < v.end && d.anchor == v.anchor && d.end == v.end
                && d.license == c.normalize(c.input[v.start..v.end])
  }

  lemma {:induction false} RecordedSound(c: Context, coverage: seq<Span>, visits: seq<Visit>)
    requires forall i | 0 <= i < |visits| :: VisitOk(c.input, visits[i])
    ensures RecordedFromVisits(c, Recorded(c.input, coverage, c.normalize, visits))
  {
    if visits == [] {
    } else {
      var n := |visits| - 1;
      RecordedSound(c, coverage, visits[..n]);
      AddSound(c, Recorded(c.input, coverage, c.normalize, visits[..n]), coverage, visits[n]);
    }
  }

  lemma AddSound(c: Context, s: Swept, coverage: seq<Span>, v: Visit)
    requires RecordedFromVisits(c, s) && VisitOk(c.input, v)
    ensures RecordedFromVisits(c, Add(s, v, Judge(c.input, coverage, c.normalize, v)))
  {
  }

  lemma {:induction false} AdditionsState(c: Context, additions: seq<Declared>, e: string)
    requires forall d | d in additions :: FromVisit(c, d)
    ensures match AdditionFor(additions, e) case None => true case Some(d) => AllState(c, d.matches, e)
  {
    if additions == [] {
    } else {
      var n := |additions| - 1;
      AdditionsState(c, additions[..n], e);
      assert additions[n] in additions;
      if additions[n].license.expression == e { TagStates(c, additions[n]); }
    }
  }

  lemma TagStates(c: Context, d: Declared)
    requires FromVisit(c, d)
    ensures StatesAs(c, TagMatch(d), d.license.expression)
  {
    var v :| VisitOk(c.input, v) && v.start < v.end && d.anchor == v.anchor && d.end == v.end
             && d.license == c.normalize(c.input[v.start..v.end]);
    assert IsTag(c, TagMatch(d), v);
  }

  lemma ReplacedSound(c: Context, before: ScanResult, swept: Swept, after: ScanResult)
    requires DetectionsSound(c, before.detections) && CluesSound(c, before.clues)
    requires RecordedFromVisits(c, swept) && Replaced(before, swept, after)
    ensures DetectionsSound(c, after.detections) && CluesSound(c, after.clues)
  {
    var keep := Unsuperseded(swept.declarations, swept.cutOff);
    forall e: string
      ensures match DetectionOf(after.detections, e) case None => true case Some(d) => AllState(c, d.matches, e) {
      assert DetectionOf(after.detections, e)
        == Merged(Remaining(keep, DetectionOf(before.detections, e)), AdditionFor(swept.additions, e));
      AdditionsState(c, swept.additions, e);
      RemainingStates(c, DetectionOf(before.detections, e), keep, e);
    }
    forall m | m in after.clues ensures ClueSound(c, m) { ClueStaysSound(c, before, swept, after, m); }
  }

  lemma RemainingStates(c: Context, d: Option<Detection>, keep: Found -> bool, e: string)
    requires d.Some? ==> AllState(c, d.value.matches, e)
    ensures match Remaining(keep, d) case None => true case Some(x) => AllState(c, x.matches, e)
  {
    if d.Some? {
      forall m | m in Filter(keep, d.value.matches) ensures StatesAs(c, m, e) {
        FilterMembers(keep, d.value.matches, m);
      }
    }
  }

  lemma ClueStaysSound(c: Context, before: ScanResult, swept: Swept, after: ScanResult, m: Found)
    requires CluesSound(c, before.clues) && RecordedFromVisits(c, swept) && Replaced(before, swept, after)
      && m in after.clues
    ensures ClueSound(c, m)
  {
    FilterMembers(Unsuperseded(swept.declarations, swept.cutOff), before.clues, m);
    if m !in before.clues {
      var i :| 0 <= i < |swept.cutOff| && CutOffClues(swept.cutOff)[i] == m;
      assert swept.cutOff[i] in swept.cutOff;
      var v :| VisitOk(c.input, v) && !v.complete && v.start < v.end && swept.cutOff[i] == Span(v.anchor, v.end);
      assert IsTag(c, m, v);
    }
  }

  lemma ArrangedSound(c: Context, before: seq<Detection>, after: seq<Detection>)
    requires DetectionsSound(c, before) && Arranged(before, after)
    ensures DetectionsSound(c, after)
  {
    forall e: string ensures match DetectionOf(after, e) case None => true case Some(d) => AllState(c, d.matches, e) {
      assert match DetectionOf(before, e)
        case None => DetectionOf(after, e) == None
        case Some(d) => DetectionOf(after, e).Some? && SameMatches(d, DetectionOf(after, e).value);
    }
  }

  // The whole input -------------------------------------------------------------------------------------------

  /** What happened to one input, stage by stage. */
  datatype Story = Story(tokens: Tokens.IDTokens, run: Matching.Run, placed: seq<Matching.Reported>, items: seq<Item>,
                         grouped: seq<Detection>, kept: ScanResult, coverage: seq<Span>, swept: Swept,
                         visits: seq<Visit>, replaced: ScanResult)

  /** The placed matches of a run, each with its rule's metadata. */
  ghost predicate ItemsOf(c: Context, how: Method, placed: seq<Matching.Reported>, items: seq<Item>) {
    && |items| == |placed| && |c.rules| == |c.metadata|
    && forall i | 0 <= i < |placed| ::
        IsItem(c.rules, c.metadata, how, placed[i], items[i])
  }

  /** Rule matches are found, placed and grouped. */
  ghost predicate RulesMatched(engine: Matcher.MatchEngine, options: FilterPipeline.FilterOptions, c: Context, s: Story)
    reads engine.automaton
  {
    var words := Tokens.AllWords(c.decode, c.input);
    var kinds := Tokens.Kinds(c.vocabulary, c.input, words);
    && Matching.Tokenized(c.vocabulary, c.decode, c.input, words, kinds, s.tokens)
    && Matching.Answers(engine, options, s.tokens, Tokens.KnownRanges(words, kinds), s.placed, s.run)
    && (forall f | f in s.placed :: Matching.ReadsAsRule(c.vocabulary, c.decode, c.input, c.ruleTokens, f))
    && ItemsOf(c, s.run.how, s.placed, s.items) && GroupedFrom(s.grouped, s.items)
  }

  /** Texts that continue become clues, declared tags replace their parts, and everything is put in order. */
  ghost predicate ResultFrom(c: Context, continues: (nat, nat) -> bool, s: Story, r: ScanResult) {
    && Removed(s.grouped, s.kept.detections, Stays(continues))
    && s.kept.clues == Clues(s.items) + DowngradedIn(Stays(continues), s.grouped) && s.kept.declared == []
    && Swapped(c.input, s.kept, c.normalize, s.replaced, s.coverage, s.swept, s.visits)
    && Arranged(s.replaced.detections, r.detections) && r.declared == s.replaced.declared
    && multiset(r.clues) == multiset(s.replaced.clues)
  }

  lemma StoryItems(c: Context, how: Method, placed: seq<Matching.Reported>, items: seq<Item>)
    requires ItemsOf(c, how, placed, items)
    requires forall f | f in placed :: Matching.ReadsAsRule(c.vocabulary, c.decode, c.input, c.ruleTokens, f)
    ensures ItemsSound(c, items) && forall i | 0 <= i < |items| :: items[i].found.origin.OfRule?
  {
    forall i | 0 <= i < |items|
      ensures IsRuleMatch(c, items[i].found) && items[i].found.start < items[i].found.end
      ensures c.metadata[items[i].found.origin.rule].expression == items[i].expression
    {
      assert placed[i] in placed;
    }
  }

  lemma GroupedRules(ds: seq<Detection>, items: seq<Item>, d: Detection, m: Found)
    requires GroupedFrom(ds, items) && (forall i | 0 <= i < |items| :: items[i].found.origin.OfRule?)
    requires d in ds && m in d.matches
    ensures m.origin.OfRule?
  {
    var k :| 0 <= k < |ds| && ds[k] == d;
    assert DetectedFrom(ds[k], items);
    StatingMember(items, d.expression, m);
  }

  /** Grouped and downgraded matches are sound. */
  lemma KeptSound(c: Context, continues: (nat, nat) -> bool, how: Method, placed: seq<Matching.Reported>,
                  items: seq<Item>, grouped: seq<Detection>, detections: seq<Detection>)
    requires ItemsOf(c, how, placed, items) && GroupedFrom(grouped, items)
      && Removed(grouped, detections, Stays(continues))
    requires forall f | f in placed :: Matching.ReadsAsRule(c.vocabulary, c.decode, c.input, c.ruleTokens, f)
    ensures DetectionsSound(c, detections)
    ensures CluesSound(c, Clues(items) + DowngradedIn(Stays(continues), grouped))
    ensures NonEmptyMatches(Clues(items) + DowngradedIn(Stays(continues), grouped))
  {
    StoryItems(c, how, placed, items);
    GroupsSound(c, grouped, items);
    RemovalSound(c, grouped, detections, Stays(continues));
    GroupedCluesSound(c, items);
    forall d, m | d in grouped && m in d.matches ensures m.origin.OfRule? { GroupedRules(grouped, items, d, m); }
    DowngradedSound(c, grouped, continues);
  }

  /** Every match of a result reads as its rule's tokens or is a visited tag, and states its detection's expression. */
  lemma ResultSound(engine: Matcher.MatchEngine, options: FilterPipeline.FilterOptions, c: Context,
                    continues: (nat, nat) -> bool, s: Story, r: ScanResult)
    requires RulesMatched(engine, options, c, s) && ResultFrom(c, continues, s, r)
    ensures DetectionsSound(c, r.detections) && CluesSound(c, r.clues)
  {
    KeptSound(c, continues, s.run.how, s.placed, s.items, s.grouped, s.kept.detections);
    RecordedSound(c, s.coverage, s.visits);
    ReplacedSound(c, s.kept, s.swept, s.replaced);
    ArrangedSound(c, s.replaced.detections, r.detections);
    SameClues(s.replaced.clues, r.clues);
  }

  /** A match still in a detection after the swap is in the result. */
  lemma StillDetected(c: Context, continues: (nat, nat) -> bool, s: Story, r: ScanResult, e: string, m: Found)
    requires ResultFrom(c, continues, s, r)
    requires DetectionOf(s.kept.detections, e).Some? && m in DetectionOf(s.kept.detections, e).value.matches
    requires Unsuperseded(s.swept.declarations, s.swept.cutOff)(m)
    ensures DetectionOf(r.detections, e).Some? && m in DetectionOf(r.detections, e).value.matches
  {
    var keep, d := Unsuperseded(s.swept.declarations, s.swept.cutOff), DetectionOf(s.kept.detections, e).value;
    FilterMembers(keep, d.matches, m);
    assert DetectionOf(s.replaced.detections, e)
      == Merged(Remaining(keep, DetectionOf(s.kept.detections, e)), AdditionFor(s.swept.additions, e));
    assert match DetectionOf(s.replaced.detections, e)
      case None => DetectionOf(r.detections, e) == None
      case Some(x) => DetectionOf(r.detections, e).Some? && SameMatches(x, DetectionOf(r.detections, e).value);
  }

  lemma SameClues(before: seq<Found>, after: seq<Found>)
    requires multiset(before) == multiset(after)
    ensures forall x :: x in after <==> x in before
  {
    forall x ensures x in after <==> x in before { assert x in multiset(after) <==> x in multiset(before); }
  }

  lemma StillClue(c: Context, continues: (nat, nat) -> bool, s: Story, r: ScanResult, m: Found)
    requires ResultFrom(c, continues, s, r) && m in s.kept.clues
      && Unsuperseded(s.swept.declarations, s.swept.cutOff)(m)
    ensures m in r.clues
  {
    FilterMembers(Unsuperseded(s.swept.declarations, s.swept.cutOff), s.kept.clues, m);
    SameClues(s.replaced.clues, r.clues);
  }

  /** No visited tag displaces the match. */
  ghost predicate Undisplaced(c: Context, s: Story, m: Found) {
    !SomeVisit(Removing(c.input, s.kept.detections, c.normalize, m), s.visits)
  }

  /**
   * Where a placed match ends up unless a tag displaces it: among the clues if it is one or continues, else with its
   * expression.
   */
  ghost predicate Accounted(c: Context, continues: (nat, nat) -> bool, s: Story, item: Item, r: ScanResult) {
    if item.clue then Undisplaced(c, s, item.found) ==> item.found in r.clues
    else if !(item.found.kind == Text && continues(item.found.start, item.found.end)) then
      Undisplaced(c, s, item.found) ==> InDetection(r.detections, item.expression, item.found)
    else Undisplaced(c, s, item.found.(kind := Clue)) ==> item.found.(kind := Clue) in r.clues
  }

  /** No match is lost: every placed match is accounted for. */
  lemma NothingDropped(engine: Matcher.MatchEngine, options: FilterPipeline.FilterOptions, c: Context,
                       continues: (nat, nat) -> bool, s: Story, r: ScanResult, i: nat)
    requires RulesMatched(engine, options, c, s) && ResultFrom(c, continues, s, r) && i < |s.placed|
    ensures i < |s.items| && Accounted(c, continues, s, s.items[i], r)
  {
    StoryItems(c, s.run.how, s.placed, s.items);
    GroupsAreGrouped(s.grouped, s.items);
    ItemAccounted(c, continues, s, r, i);
  }

  lemma ItemAccounted(c: Context, continues: (nat, nat) -> bool, s: Story, r: ScanResult, i: nat)
    requires GroupedFrom(s.grouped, s.items) && Grouped(s.grouped) && ResultFrom(c, continues, s, r) && i < |s.items|
    ensures Accounted(c, continues, s, s.items[i], r)
  {
    var item, keep := s.items[i], Unsuperseded(s.swept.declarations, s.swept.cutOff);
    DisplacedOrNot(c.input, s.kept, c.normalize, s.coverage, s.visits, item.found);
    DisplacedOrNot(c.input, s.kept, c.normalize, s.coverage, s.visits, item.found.(kind := Clue));
    if item.clue {
      ClueMember(s.items, item.found);
      if keep(item.found) { StillClue(c, continues, s, r, item.found); }
    } else if Stays(continues)(item.found) {
      if keep(item.found) {
        StatedAccounted(c, continues, s, r, i);
        InDetectionOf(r.detections, item.expression, item.found);
      }
    } else {
      if keep(item.found.(kind := Clue)) { ContinuedAccounted(c, continues, s, r, i); }
    }
  }

  lemma StatedAccounted(c: Context, continues: (nat, nat) -> bool, s: Story, r: ScanResult, i: nat)
    requires GroupedFrom(s.grouped, s.items) && Grouped(s.grouped) && ResultFrom(c, continues, s, r) && i < |s.items|
    requires !s.items[i].clue && Stays(continues)(s.items[i].found)
    requires Unsuperseded(s.swept.declarations, s.swept.cutOff)(s.items[i].found)
    ensures DetectionOf(r.detections, s.items[i].expression).Some?
    ensures s.items[i].found in DetectionOf(r.detections, s.items[i].expression).value.matches
  {
    var d := StatedIn(s.grouped, s.items, i);
    StaysDetected(s.grouped, s.kept.detections, continues, d, s.items[i].found);
    StillDetected(c, continues, s, r, s.items[i].expression, s.items[i].found);
  }

  lemma ContinuedAccounted(c: Context, continues: (nat, nat) -> bool, s: Story, r: ScanResult, i: nat)
    requires GroupedFrom(s.grouped, s.items) && ResultFrom(c, continues, s, r) && i < |s.items|
    requires !s.items[i].clue && !Stays(continues)(s.items[i].found)
    requires Unsuperseded(s.swept.declarations, s.swept.cutOff)(s.items[i].found.(kind := Clue))
    ensures s.items[i].found.(kind := Clue) in r.clues
  {
    var d := StatedIn(s.grouped, s.items, i);
    DowngradedInMember(Stays(continues), s.grouped, s.items[i].found.(kind := Clue));
    StillClue(c, continues, s, r, s.items[i].found.(kind := Clue));
  }

  lemma StatedIn(ds: seq<Detection>, items: seq<Item>, i: nat) returns (d: Detection)
    requires GroupedFrom(ds, items) && i < |items| && !items[i].clue
    ensures d in ds && d.expression == items[i].expression && items[i].found in d.matches
  {
    NothingLost(ds, items);
    var k :| 0 <= k < |ds| && Expressions(ds)[k] == items[i].expression;
    d := ds[k];
    assert DetectedFrom(d, items);
    StatingMember(items, d.expression, items[i].found);
  }

  lemma StaysDetected(before: seq<Detection>, after: seq<Detection>, continues: (nat, nat) -> bool, d: Detection,
                      m: Found)
    requires Grouped(before) && Removed(before, after, Stays(continues)) && d in before && m in d.matches
      && Stays(continues)(m)
    ensures DetectionOf(after, d.expression).Some? && m in DetectionOf(after, d.expression).value.matches
  {
    var k :| 0 <= k < |before| && before[k] == d;
    OwnDetection(before, k);
    FilterMembers(Stays(continues), d.matches, m);
    assert DetectionOf(after, d.expression) == Remaining(Stays(continues), DetectionOf(before, d.expression));
  }

  /** Detections by their first matches, and all matches of a detection and all clues by where they stand. */
  ghost predicate InOrder(rules: seq<MatchRule>, r: ScanResult) {
    && Sorting.Sorted(DetectionOrder(), r.detections) && AllInOrder(rules, r.detections)
    && Sorting.Sorted(MatchOrder(rules), r.clues)
  }

  /** Matching hands over its matches in the order of a result. */
  lemma StoryInOrder(engine: Matcher.MatchEngine, options: FilterPipeline.FilterOptions, c: Context, s: Story)
    requires engine.Valid() && c.rules == engine.rules && RulesMatched(engine, options, c, s)
    ensures ItemsInOrder(c.rules, s.items)
  {
    var words := Tokens.AllWords(c.decode, c.input);
    var kinds := Tokens.Kinds(c.vocabulary, c.input, words);
    var bound := |Tokenize.Reading(c.decode, c.input)|;
    Tokenize.WordsAreDisjoint(Tokenize.Reading(c.decode, c.input), 0);
    KnownRangesRise(words, kinds, 0, bound);
    Tokens.RecordedAll(words, kinds, s.tokens);
    forall i | 0 <= i < |s.placed|
      ensures s.placed[i].rule < |c.metadata| && s.items[i] == ItemOf(c.rules, c.metadata, s.run.how, s.placed[i])
    {
      ItemIsItem(c.rules, c.metadata, s.run.how, s.placed[i], s.items[i]);
    }
    PlacedInOrder(engine, c.metadata, options, s.tokens, Tokens.KnownRanges(words, kinds), bound, s.placed, s.run,
                  s.items);
  }

  /** Groups the placed matches, downgrades continued texts, and swaps in the tags. */
  method BuildResult(engine: Matcher.MatchEngine, metadata: seq<Metadata>, input: Bytes,
                     placed: seq<Matching.Reported>, how: Method,
                     normalize: Bytes -> Normalized, continues: (nat, nat) -> bool, ghost c: Context)
    returns (r: ScanResult, ghost items: seq<Item>, ghost grouped: seq<Detection>, ghost kept: ScanResult,
             ghost replaced: ScanResult)
    requires c.input == input && c.normalize == normalize && c.rules == engine.rules && c.metadata == metadata
    requires |metadata| == |engine.rules| && forall f | f in placed :: f.rule < |engine.rules|
    requires forall f | f in placed :: Matching.ReadsAsRule(c.vocabulary, c.decode, c.input, c.ruleTokens, f)
    ensures ItemsOf(c, how, placed, items) && GroupedFrom(grouped, items)
    ensures Removed(grouped, kept.detections, Stays(continues))
    ensures kept.clues == Clues(items) + DowngradedIn(Stays(continues), grouped) && kept.declared == []
    ensures exists coverage, swept, visits :: Swapped(input, kept, normalize, replaced, coverage, swept, visits)
    ensures Arranged(replaced.detections, r.detections) && r.declared == replaced.declared
    ensures multiset(r.clues) == multiset(replaced.clues)
    ensures ItemsInOrder(engine.rules, items) ==> InOrder(engine.rules, r)
  {
    var list := MakeItems(engine.rules, metadata, how, placed);
    items := list;
    var detections, clues := AddExactMatches(list);
    grouped := detections;
    StoryItems(c, how, placed, items);
    GroupsAreGrouped(grouped, items);
    var after, all := DowngradeContinuedText(detections, clues, continues);
    KeptSound(c, continues, how, placed, items, grouped, after);
    var before := ScanResult(after, all, []);
    kept := before;
    var swapped := MatchSPDXTags(input, before, normalize);
    replaced := swapped;
    // Also set when only covered declarations were recorded. Sorting what is in order again makes no difference.
    var changed := all != clues || swapped != before;
    r := SortResult(engine.rules, swapped, changed);
    if ItemsInOrder(engine.rules, items) {
      GroupsInOrder(engine.rules, grouped, items);
      RemovedInOrder(engine.rules, grouped, after, Stays(continues));
      CluesInOrder(engine.rules, items);
    }
  }

  /** What tokenizing the input gives. */
  ghost function InputTokens(c: Context): Tokens.IDTokens {
    var words := Tokens.AllWords(c.decode, c.input);
    Tokens.TokensOf(words, Tokens.Kinds(c.vocabulary, c.input, words))
  }

  lemma TokenizedOnce(c: Context, tokens: Tokens.IDTokens)
    requires var words := Tokens.AllWords(c.decode, c.input);
      Matching.Tokenized(c.vocabulary, c.decode, c.input, words, Tokens.Kinds(c.vocabulary, c.input, words), tokens)
    ensures tokens == InputTokens(c)
  {
    var words := Tokens.AllWords(c.decode, c.input);
    Tokens.RecordedOnce(words, Tokens.Kinds(c.vocabulary, c.input, words), tokens);
  }

  /** Before the tags are swept there are only rule matches. */
  lemma KeptAreRules(c: Context, continues: (nat, nat) -> bool, how: Method, placed: seq<Matching.Reported>,
                     items: seq<Item>, grouped: seq<Detection>, kept: ScanResult)
    requires ItemsOf(c, how, placed, items) && GroupedFrom(grouped, items)
      && Removed(grouped, kept.detections, Stays(continues)) && kept.declared == []
      && kept.clues == Clues(items) + DowngradedIn(Stays(continues), grouped)
    requires forall f | f in placed :: Matching.ReadsAsRule(c.vocabulary, c.decode, c.input, c.ruleTokens, f)
    ensures RulesOnly(kept)
  {
    StoryItems(c, how, placed, items);
    forall d, m | d in grouped && m in d.matches ensures m.origin.OfRule? { GroupedRules(grouped, items, d, m); }
    forall m | m in kept.clues ensures m.origin.OfRule? {
      if m in Clues(items) {
        ClueMember(items, m);
      } else {
        DowngradedInMember(Stays(continues), grouped, m);
      }
    }
    forall i, m | 0 <= i < |kept.detections| && m in kept.detections[i].matches ensures m.origin.OfRule? {
      var e := kept.detections[i].expression;
      OwnDetection(kept.detections, i);
      DetectionListed(grouped, e);
      assert DetectionOf(kept.detections, e) == Remaining(Stays(continues), DetectionOf(grouped, e));
      FilterMembers(Stays(continues), DetectionOf(grouped, e).value.matches, m);
    }
  }

  /** Every tag of the input is decided in the result, shown once, and identifies a detection that only tags make. */
  ghost predicate TagsAccounted(c: Context, s: Story, r: ScanResult) {
    && TagsSwept(c.input, s.visits)
    && TagsDecided(c.input, s.kept, c.normalize, s.visits, r) && TagsOnce(r)
    && TagsIdentify(c.input, s.kept, c.normalize, s.visits, r)
  }

  lemma TagsOfResult(engine: Matcher.MatchEngine, options: FilterPipeline.FilterOptions, c: Context,
                     continues: (nat, nat) -> bool, s: Story, r: ScanResult)
    requires RulesMatched(engine, options, c, s) && ResultFrom(c, continues, s, r)
    ensures TagsAccounted(c, s, r)
  {
    KeptAreRules(c, continues, s.run.how, s.placed, s.items, s.grouped, s.kept);
    CompleteIsSwept(c.input, s.visits);
    TagsAreDecided(c.input, s.kept, c.normalize, s.replaced, s.coverage, s.swept, s.visits);
    ArrangedDecided(c.input, s.kept, c.normalize, s.visits, s.replaced, r);
    TagsShownOnce(c.input, s.kept, c.normalize, s.replaced, s.coverage, s.swept, s.visits);
    ArrangedOnce(s.replaced, r);
    TagsIdentified(c.input, s.kept, c.normalize, s.replaced, s.coverage, s.swept, s.visits);
    ArrangedIdentified(c.input, s.kept, c.normalize, s.visits, s.replaced, r);
  }

  /** The rule of every placed match allows the omitted words that its bytes hold. */
  ghost predicate PlacedAllowed(c: Context, s: Story) {
    forall i | 0 <= i < |s.placed| ::
      TokenWords.AllowedAt(c.vocabulary, c.decode, c.input, c.rules, c.ruleTokens, s.placed[i])
  }

  lemma StoryAllowed(engine: Matcher.MatchEngine, options: FilterPipeline.FilterOptions, c: Context, s: Story)
    requires engine.Valid() && RulesMatched(engine, options, c, s) && c.rules == engine.rules
      && c.ruleTokens == engine.ruleTokens && Tokenize.Local(c.decode) && Tokenize.Proper(c.decode)
    ensures PlacedAllowed(c, s)
  {
    forall i: nat | i < |s.placed|
      ensures TokenWords.AllowedAt(c.vocabulary, c.decode, c.input, c.rules, c.ruleTokens, s.placed[i])
    {
      if s.tokens.ids != [] {
        TokenWords.AnswersAllowed(engine, options, c.vocabulary, c.decode, c.input, s.tokens, s.placed, s.run, i);
      }
    }
  }

  /** Some run of all stages gives the result, and each of its placed matches and tags is accounted for. */
  ghost predicate ComesFrom(engine: Matcher.MatchEngine, options: FilterPipeline.FilterOptions, c: Context,
                            continues: (nat, nat) -> bool, r: ScanResult)
    reads engine.automaton
  {
    exists s: Story ::
      && RulesMatched(engine, options, c, s) && ResultFrom(c, continues, s, r)
      && (forall item | item in s.items :: Accounted(c, continues, s, item, r)) && TagsAccounted(c, s, r)
      && PlacedAllowed(c, s)
  }

  lemma AllAccounted(engine: Matcher.MatchEngine, options: FilterPipeline.FilterOptions, c: Context,
                     continues: (nat, nat) -> bool, s: Story, r: ScanResult)
    requires RulesMatched(engine, options, c, s) && ResultFrom(c, continues, s, r) && PlacedAllowed(c, s)
    ensures ComesFrom(engine, options, c, continues, r)
  {
    forall item | item in s.items ensures Accounted(c, continues, s, item, r) {
      var i :| 0 <= i < |s.items| && s.items[i] == item;
      NothingDropped(engine, options, c, continues, s, r, i);
    }
    TagsOfResult(engine, options, c, continues, s, r);
  }

  /** What a story makes of an input is sound, complete and in order. */
  lemma StoryTold(engine: Matcher.MatchEngine, options: FilterPipeline.FilterOptions, c: Context,
                  continues: (nat, nat) -> bool, s: Story, r: ScanResult)
    requires engine.Valid() && c.rules == engine.rules && RulesMatched(engine, options, c, s)
    requires c.ruleTokens == engine.ruleTokens && Tokenize.Local(c.decode) && Tokenize.Proper(c.decode)
    requires ResultFrom(c, continues, s, r) && (ItemsInOrder(c.rules, s.items) ==> InOrder(c.rules, r))
    ensures ComesFrom(engine, options, c, continues, r) && ResultInOrder(c.rules, r)
    ensures DetectionsSound(c, r.detections) && CluesSound(c, r.clues)
  {
    StoryAllowed(engine, options, c, s);
    AllAccounted(engine, options, c, continues, s, r);
    ResultSound(engine, options, c, continues, s, r);
    StoryInOrder(engine, options, c, s);
    SortedResult(c.rules, r);
  }

  /** The result of one input. */
  method MatchBytes(engine: Matcher.MatchEngine, metadata: seq<Metadata>, v: Tokens.Vocabulary,
                    decode: Tokenize.Decoder, input: Bytes, options: FilterPipeline.FilterOptions,
                    normalize: Bytes -> Normalized, continues: (nat, nat) -> bool)
    returns (r: Result<ScanResult, Matcher.MatchError>)
    requires engine.Valid() && |metadata| == |engine.rules| && Tokenize.Local(decode) && Tokenize.Proper(decode)
    ensures var c := Context(input, decode, v, engine.ruleTokens, engine.rules, metadata, normalize);
      match r
      case Err(_) => Matching.TooMany(engine, InputTokens(c))
      case Ok(result) =>
        && !Matching.TooMany(engine, InputTokens(c))
        && ComesFrom(engine, options, c, continues, result) && ResultInOrder(engine.rules, result)
        && DetectionsSound(c, result.detections) && CluesSound(c, result.clues)
  {
    ghost var c := Context(input, decode, v, engine.ruleTokens, engine.rules, metadata, normalize);
    var matched;
    ghost var tokens, run;
    matched, tokens, run := Matching.MatchRules(engine, v, decode, input, options);
    TokenizedOnce(c, tokens);
    if matched.Err? {
      return Err(matched.error);
    }
    var (placed, how) := matched.value;
    forall f | f in placed ensures f.rule < |engine.rules| { assert f.rule < |engine.ruleTokens|; }
    ghost var items, grouped, kept, replaced;
    var result;
    result, items, grouped, kept, replaced :=
      BuildResult(engine, metadata, input, placed, how, normalize, continues, c);
    ghost var coverage, swept, visits :| Swapped(input, kept, normalize, replaced, coverage, swept, visits);
    ghost var story := Story(tokens, run, placed, items, grouped, kept, coverage, swept, visits, replaced);
    StoryTold(engine, options, c, continues, story, result);
    r := Ok(result);
  }
}
