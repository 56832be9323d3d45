/** Placed matches already stand in the order of a result, and grouping and removing keep it. */
module ReportedOrder {
  import opened ExactMatches
  import opened Detections
  import opened Grouping
  import opened Matching
  import opened RuleMatches
  import opened ResultOrder
  import opened Tokens
  import opened FilterPipeline
  import opened Matcher
  import LicenseLists
  import Sorting
  import Tokenize

  ghost predicate ItemsInOrder(rules: seq<MatchRule>, items: seq<Item>) {
    forall i, j | 0 <= i < j < |items| :: MatchOrder(rules)(items[i].found, items[j].found)
  }

  lemma SortedMore<T>(le: (T, T) -> bool, s: seq<T>, x: T)
    requires Sorting.Sorted(le, s) && forall y | y in s :: le(y, x)
    ensures Sorting.Sorted(le, s + [x])
  {
  }

  // Placing ---------------------------------------------------------------------------------------------

  lemma {:induction false} UnlistedInOrder(le: (Match, Match) -> bool, input: LicenseLists.Input, ms: seq<Match>,
                                           n: nat)
    requires n <= |ms| && Sorting.Sorted(le, ms)
    ensures Sorting.Sorted(le, LicenseLists.Unlisted(input, ms, n))
    ensures forall m | m in LicenseLists.Unlisted(input, ms, n) :: m in ms[..n]
  {
    if n == 0 {
    } else {
      UnlistedInOrder(le, input, ms, n - 1);
      var before := LicenseLists.Unlisted(input, ms, n - 1);
      forall m | m in before ensures le(m, ms[n - 1]) && m in ms[..n] {
        var i :| 0 <= i < n - 1 && ms[..n - 1][i] == m;
        assert ms[..n][i] == m;
      }
      assert ms[..n][n - 1] == ms[n - 1];
      SortedMore(le, before, ms[n - 1]);
    }
  }

  lemma {:induction false} KnownRangesIn(words: seq<Tokenize.Range>, kinds: seq<WordKind>, r: Tokenize.Range)
    requires |words| == |kinds| && r in KnownRanges(words, kinds)
    ensures r in words
  {
    var n := |words| - 1;
    if r in KnownRanges(words[..n], kinds[..n]) { KnownRangesIn(words[..n], kinds[..n], r); }
  }

  lemma RiseMore(ranges: seq<Tokenize.Range>, word: Tokenize.Range, from: nat, to: nat)
    requires Tokenize.WordsRise(ranges, from, to) && from <= word.start < word.end <= to
    requires forall r | r in ranges :: r.end <= word.start
    ensures Tokenize.WordsRise(ranges + [word], from, to)
  {
  }

  lemma FrontRises(words: seq<Tokenize.Range>, n: nat, from: nat, to: nat)
    requires Tokenize.WordsRise(words, from, to) && n < |words|
    ensures Tokenize.WordsRise(words[..n], from, to) && forall r | r in words[..n] :: r.end <= words[n].start
  {
  }

  /** Known words follow one another. */
  lemma {:induction false} KnownRangesRise(words: seq<Tokenize.Range>, kinds: seq<WordKind>, from: nat, to: nat)
    requires |words| == |kinds| && Tokenize.WordsRise(words, from, to)
    ensures Tokenize.WordsRise(KnownRanges(words, kinds), from, to)
  {
    if words == [] {
    } else {
      var n := |words| - 1;
      var before := KnownRanges(words[..n], kinds[..n]);
      FrontRises(words, n, from, to);
      KnownRangesRise(words[..n], kinds[..n], from, to);
      forall r | r in before ensures r.end <= words[n].start { KnownRangesIn(words[..n], kinds[..n], r); }
      RiseMore(before, words[n], from, to);
    }
  }

  /** The order of token ranges is that of their byte ranges. */
  lemma PlacedOrder(rules: seq<MatchRule>, metadata: seq<Metadata>, how: Method, tokens: IDTokens,
                    ranges: seq<Tokenize.Range>, bound: nat, a: Match, b: Match)
    requires Tokenize.WordsRise(ranges, 0, bound) && |ranges| == |tokens.ids|
    requires a.start < a.end <= |ranges| && b.start < b.end <= |ranges|
    requires how.Hash? ==> a.start == b.start == 0 && a.end == b.end == |tokens.ids|
    requires a.rule < |rules| == |metadata| && b.rule < |rules| && ReportOrder(rules)(a, b)
    ensures var x, y := Place(a, how, tokens, ranges), Place(b, how, tokens, ranges);
      x.rule == a.rule && y.rule == b.rule
      && MatchOrder(rules)(ItemOf(rules, metadata, how, x).found, ItemOf(rules, metadata, how, y).found)
  {
    if a.start < b.start { assert ranges[a.start].end <= ranges[b.start].start; }
    if a.end < b.end { assert ranges[a.end - 1].end <= ranges[b.end - 1].start; }
  }

  /** What a run reports is in reporting order and occurs in the input. */
  lemma ReportedRise(engine: MatchEngine, options: FilterOptions, tokens: IDTokens, run: Run)
    requires engine.Valid() && CandidatesOf(engine, tokens, run.candidates, run.how) && Ran(engine.rules, options, run)
    requires run.reported == WithoutLists(engine.rules, tokens, run.how, options, run.kept)
    ensures Sorting.Sorted(ReportOrder(engine.rules), run.reported)
    ensures AllOccur(engine.ruleTokens, tokens.ids, run.reported)
    ensures run.how.Hash? ==> forall m | m in run.reported :: m.start == 0 && m.end == |tokens.ids|
  {
    CandidatesOccur(engine, tokens, run.candidates, run.how);
    UnlistedInOrder(ReportOrder(engine.rules), ListInput(engine.rules, tokens), run.kept, |run.kept|);
    forall m | m in run.reported ensures m in run.candidates {
      assert m in run.kept;
      ReportedWasCandidate(engine.rules, run.candidates, run.ms, options, run.t.s5, run.kept, m);
    }
  }

  /** Placed matches, with what the engine knows of them, are in the order of a result. */
  lemma PlacedInOrder(engine: MatchEngine, metadata: seq<Metadata>, options: FilterOptions, tokens: IDTokens,
                      ranges: seq<Tokenize.Range>, bound: nat, placed: seq<Reported>, run: Run, items: seq<Item>)
    requires engine.Valid() && Answers(engine, options, tokens, ranges, placed, run)
    requires Tokenize.WordsRise(ranges, 0, bound) && |ranges| == |tokens.ids| && |metadata| == |engine.rules|
    requires |items| == |placed| && forall i | 0 <= i < |placed| ::
      placed[i].rule < |metadata| && items[i] == ItemOf(engine.rules, metadata, run.how, placed[i])
    ensures ItemsInOrder(engine.rules, items)
  {
    if tokens.ids != [] {
      ReportedRise(engine, options, tokens, run);
      forall i, j | 0 <= i < j < |items| ensures MatchOrder(engine.rules)(items[i].found, items[j].found) {
        var a, b := run.reported[i], run.reported[j];
        assert a in run.reported && b in run.reported && placed[i].rule == a.rule && placed[j].rule == b.rule;
        PlacedOrder(engine.rules, metadata, run.how, tokens, ranges, bound, a, b);
      }
    }
  }

  // Grouping ---------------------------------------------------------------------------------------------

  lemma {:induction false} StatingInOrder(rules: seq<MatchRule>, items: seq<Item>, e: string)
    requires ItemsInOrder(rules, items)
    ensures Sorting.Sorted(MatchOrder(rules), Stating(items, e))
  {
    if items == [] {
    } else {
      var n := |items| - 1;
      StatingInOrder(rules, items[..n], e);
      forall m | m in Stating(items[..n], e) ensures MatchOrder(rules)(m, items[n].found) {
        StatingMember(items[..n], e, m);
      }
      SortedMore(MatchOrder(rules), Stating(items[..n], e), items[n].found);
    }
  }

  lemma {:induction false} CluesInOrder(rules: seq<MatchRule>, items: seq<Item>)
    requires ItemsInOrder(rules, items)
    ensures Sorting.Sorted(MatchOrder(rules), Clues(items))
  {
    if items == [] {
    } else {
      var n := |items| - 1;
      CluesInOrder(rules, items[..n]);
      forall m | m in Clues(items[..n]) ensures MatchOrder(rules)(m, items[n].found) {
        ClueMember(items[..n], m);
      }
      SortedMore(MatchOrder(rules), Clues(items[..n]), items[n].found);
    }
  }

  lemma GroupsInOrder(rules: seq<MatchRule>, ds: seq<Detection>, items: seq<Item>)
    requires ItemsInOrder(rules, items) && GroupedFrom(ds, items)
    ensures AllInOrder(rules, ds)
  {
    forall i | 0 <= i < |ds| ensures Sorting.Sorted(MatchOrder(rules), ds[i].matches) {
      assert DetectedFrom(ds[i], items);
      StatingInOrder(rules, items, ds[i].expression);
    }
  }

  lemma {:induction false} FilterInOrder(rules: seq<MatchRule>, keep: Found -> bool, ms: seq<Found>)
    requires Sorting.Sorted(MatchOrder(rules), ms)
    ensures Sorting.Sorted(MatchOrder(rules), Filter(keep, ms))
  {
    if ms == [] {
    } else {
      var n := |ms| - 1;
      FilterInOrder(rules, keep, ms[..n]);
      forall m | m in Filter(keep, ms[..n]) ensures MatchOrder(rules)(m, ms[n]) {
        FilterMembers(keep, ms[..n], m);
      }
      SortedMore(MatchOrder(rules), Filter(keep, ms[..n]), ms[n]);
    }
  }

  /** Removing matches leaves the others in order. */
  lemma RemovedInOrder(rules: seq<MatchRule>, before: seq<Detection>, after: seq<Detection>, keep: Found -> bool)
    requires AllInOrder(rules, before) && Removed(before, after, keep)
    ensures AllInOrder(rules, after)
  {
    forall i | 0 <= i < |after| ensures Sorting.Sorted(MatchOrder(rules), after[i].matches) {
      OwnDetection(after, i);
      var e := after[i].expression;
      assert DetectionOf(after, e) == Remaining(keep, DetectionOf(before, e));
      DetectionListed(before, e);
      var d := DetectionOf(before, e).value;
      var k :| 0 <= k < |before| && before[k] == d;
      FilterInOrder(rules, keep, before[k].matches);
    }
  }
}
