/** The whole filter: contained, overlapping, two restores, contained again, then false positives. */
module FilterPipeline {
  import opened ExactMatches
  import opened FilterStates
  import opened ContainedFilter
  import opened OverlapFilter
  import opened RestoreFilter
  import opened Strings
  import opened Picking
  import Sorting

  datatype FilterOptions = FilterOptions(contained: bool, overlapping: bool, falsePositive: bool)

  // The five stages --------------------------------------------------------------------

  /** Nothing was discarded for good, nor is a restore under way. */
  ghost predicate Provisional(s: seq<State>) {
    forall i: nat {:trigger s[i]} | i < |s| :: s[i] != DiscardedFinal && s[i] != Restored
  }

  /** The states after each stage, from all active to the settled ones. */
  ghost predicate Stages(rules: seq<MatchRule>, ms: seq<Match>, options: FilterOptions,
                         s1: seq<State>, s2: seq<State>, s3: seq<State>, s4: seq<State>, s5: seq<State>)
    requires RulesKnown(rules, ms)
  {
    var s0 := seq(|ms|, _ => Active);
    && (if options.contained then ContainedDiscarded(ms, s0, s1, DiscardedContained) else s1 == s0)
    && (if options.overlapping then OverlapsDiscarded(rules, ms, s1, s2) else s2 == s1)
    && RestoredApart(ms, s2, s3, DiscardedContained)
    && RestoredApart(ms, s3, s4, DiscardedOverlapping)
    && (if options.contained then ContainedDiscarded(ms, s4, s5, DiscardedFinal) else s5 == s4)
  }

  /** Range `i` shares a token with an active range. */
  ghost predicate Represented(ms: seq<Match>, states: seq<State>, i: nat)
    requires i < |ms|
  {
    exists j: nat :: j < |ms| && IsActive(states, j) && Overlap(ms[j], ms[i]) > 0
  }

  ghost predicate AllRepresented(ms: seq<Match>, states: seq<State>) {
    forall i: nat | i < |ms| :: Represented(ms, states, i)
  }

  /** The active ranges rise strictly in both ends, so none contains another. */
  ghost predicate ActiveRise(ms: seq<Match>, states: seq<State>) {
    forall i: nat, j: nat {:trigger IsActive(states, i), IsActive(states, j)} | i < j < |ms| && IsActive(states, i)
      && IsActive(states, j) ::
      ms[i].start < ms[j].start && ms[i].end < ms[j].end
  }

  lemma SelfOverlaps(ms: seq<Match>, i: nat)
    requires InOrder(ms) && i < |ms|
    ensures Overlap(ms[i], ms[i]) > 0
  {
  }

  /** A range that was discarded and not taken back overlaps one that was active. */
  lemma RestoreRepresents(ms: seq<Match>, before: seq<State>, after: seq<State>, discard: State, i: nat)
    requires InOrder(ms) && RestoredApart(ms, before, after, discard) && discard != Active && i < |ms|
    requires before[i] == discard || before[i] == Active || Represented(ms, before, i)
    ensures Represented(ms, after, i)
  {
    SelfOverlaps(ms, i);
    assert forall j: nat | j < |ms| && IsActive(before, j) :: IsActive(after, j);
    if before[i] == Active || after[i] == Active {
      assert IsActive(after, i);
    } else if before[i] == discard {
      var j: nat :| j < |ms| && IsActive(before, j) && Overlap(ms[j], ms[i]) != 0;
      assert IsActive(after, j);
    } else {
      var j: nat :| j < |ms| && IsActive(before, j) && Overlap(ms[j], ms[i]) > 0;
      assert IsActive(after, j);
    }
  }

  /** The last containment pass drops only ranges whose tokens another kept range holds. */
  lemma ContainedRepresents(ms: seq<Match>, before: seq<State>, after: seq<State>, i: nat)
    requires InOrder(ms) && ContainedDiscarded(ms, before, after, DiscardedFinal) && i < |ms|
      && Represented(ms, before, i)
    ensures Represented(ms, after, i)
  {
    var j: nat :| j < |ms| && IsActive(before, j) && Overlap(ms[j], ms[i]) > 0;
    if !IsActive(after, j) {
      var k := KeptContainer(ms, before, after, DiscardedFinal, j);
      assert Overlap(ms[k], ms[i]) > 0;
    }
  }

  lemma StatesOfStages(rules: seq<MatchRule>, ms: seq<Match>, options: FilterOptions,
                       s1: seq<State>, s2: seq<State>, s3: seq<State>, s4: seq<State>, s5: seq<State>)
    requires RulesKnown(rules, ms) && Stages(rules, ms, options, s1, s2, s3, s4, s5)
    ensures |s1| == |s2| == |s3| == |s4| == |s5| == |ms|
    ensures Provisional(s2) && Provisional(s3)
  {
    var s0 := seq(|ms|, _ => Active);
    forall i: nat | i < |ms| ensures s1[i] != DiscardedFinal && s1[i] != Restored {
      if options.contained { assert StateAfter(ms, s0, s1, DiscardedContained, i); }
    }
    forall i: nat | i < |ms| ensures s2[i] != DiscardedFinal && s2[i] != Restored {
      if options.overlapping && s2[i] != s1[i] { WhyDiscarded(rules, ms, s1, s2, i); }
    }
  }

  /**
   * Whatever the options, every candidate shares a token with a survivor; with containment on, survivors rise strictly.
   */
  lemma SurvivorsRepresentAll(rules: seq<MatchRule>, ms: seq<Match>, options: FilterOptions,
                              s1: seq<State>, s2: seq<State>, s3: seq<State>, s4: seq<State>, s5: seq<State>)
    requires RulesKnown(rules, ms) && InOrder(ms) && Stages(rules, ms, options, s1, s2, s3, s4, s5)
    ensures AllRepresented(ms, s5)
    ensures options.contained ==> ActiveRise(ms, s5)
  {
    StatesOfStages(rules, ms, options, s1, s2, s3, s4, s5);
    forall i: nat | i < |ms| ensures Represented(ms, s5, i) {
      SelfOverlaps(ms, i);
      if s2[i] != DiscardedOverlapping { RestoreRepresents(ms, s2, s3, DiscardedContained, i); }
      RestoreRepresents(ms, s3, s4, DiscardedOverlapping, i);
      if options.contained { ContainedRepresents(ms, s4, s5, i); }
    }
    if options.contained {
      forall i: nat, j: nat | i < j < |ms| && IsActive(s5, i) && IsActive(s5, j)
        ensures ms[i].start < ms[j].start && ms[i].end < ms[j].end
      {
        KeptRise(ms, s4, s5, DiscardedFinal, i, j);
      }
    }
  }

  // Running the stages --------------------------------------------------------------------

  lemma NothingToRestore(ms: seq<Match>, states: seq<State>, discard: State)
    requires |states| == |ms| && discard !in states
    ensures RestoredApart(ms, states, states, discard)
  {
  }

  /** All stages but the last drop, in place; the ghost lists record the states between them. */
  method RunStages(rules: seq<MatchRule>, ms: seq<Match>, options: FilterOptions)
    returns (states: array<State>, ghost s1: seq<State>, ghost s2: seq<State>, ghost s3: seq<State>,
             ghost s4: seq<State>)
    requires RulesKnown(rules, ms) && InOrder(ms)
    ensures fresh(states) && Stages(rules, ms, options, s1, s2, s3, s4, states[..])
  {
    states := new State[|ms|](_ => Active);
    ghost var s0 := seq(|ms|, _ => Active);
    assert states[..] == s0;
    var discardedContained, discardedOverlapping := false, false;
    if options.contained {
      discardedContained := FilterContainedMatches(ms, states, DiscardedContained);
    }
    s1 := states[..];
    ContainedStates(ms, s0, s1, options.contained, discardedContained);
    if options.overlapping {
      discardedOverlapping := FilterOverlappingMatches(rules, ms, states);
    }
    s2 := states[..];
    OverlapStates(rules, ms, s1, s2, options.overlapping, discardedContained, discardedOverlapping);
    if discardedContained {
      RestoreNonOverlapping(ms, states, DiscardedContained);
    } else {
      NothingToRestore(ms, s2, DiscardedContained);
    }
    s3 := states[..];
    if discardedOverlapping {
      RestoreNonOverlapping(ms, states, DiscardedOverlapping);
    } else {
      NothingToRestore(ms, s3, DiscardedOverlapping);
    }
    s4 := states[..];
    if options.contained {
      var _ := FilterContainedMatches(ms, states, DiscardedFinal);
    }
  }

  lemma ContainedStates(ms: seq<Match>, s0: seq<State>, s1: seq<State>, contained: bool, discarded: bool)
    requires s0 == seq(|ms|, _ => Active)
      && (if contained then ContainedDiscarded(ms, s0, s1, DiscardedContained) else s1 == s0)
    requires !discarded ==> !contained || !(exists i: nat :: IsActive(s0, i) && i < |ms| && Contained(ms, s0, i))
    ensures Provisional(s1) && DiscardedOverlapping !in s1 && (!discarded ==> DiscardedContained !in s1)
  {
    forall i: nat | i < |ms|
      ensures s1[i] == Active || (s1[i] == DiscardedContained && discarded)
    {
      if contained { assert StateAfter(ms, s0, s1, DiscardedContained, i) && IsActive(s0, i); }
    }
  }

  lemma OverlapStates(rules: seq<MatchRule>, ms: seq<Match>, s1: seq<State>, s2: seq<State>, overlapping: bool,
                      discardedContained: bool, discardedOverlapping: bool)
    requires RulesKnown(rules, ms) && |s1| == |ms| && Provisional(s1) && DiscardedOverlapping !in s1
    requires !discardedContained ==> DiscardedContained !in s1
    requires if overlapping then OverlapsDiscarded(rules, ms, s1, s2) else s2 == s1
    requires !discardedOverlapping ==> s2 == s1
    ensures Provisional(s2)
    ensures !discardedContained ==> DiscardedContained !in s2
    ensures !discardedOverlapping ==> DiscardedOverlapping !in s2
  {
    forall i: nat | i < |ms| ensures s2[i] == s1[i] || s2[i] == DiscardedOverlapping {
      if overlapping && s2[i] != s1[i] { WhyDiscarded(rules, ms, s1, s2, i); }
    }
  }

  // Dropping false positives and reporting ------------------------------------------------

  predicate IsFalsePositive(rules: seq<MatchRule>, m: Match) {
    m.rule < |rules| && rules[m.rule].flags.falsePositive
  }

  method FilterFalsePositiveMatches(rules: seq<MatchRule>, ms: seq<Match>, states: array<State>)
    requires RulesKnown(rules, ms) && states.Length == |ms|
    modifies states
    ensures forall i: nat | i < |ms| ::
      states[i] == if old(states[i]) == Active && IsFalsePositive(rules, ms[i]) then DiscardedFinal else old(states[i])
  {
    for index := 0 to |ms|
      invariant forall i: nat | i < |ms| ::
        states[i] == if i < index && old(states[i]) == Active && IsFalsePositive(rules, ms[i]) then DiscardedFinal
          else old(states[i])
    {
      if states[index] == Active && rules[ms[index].rule].flags.falsePositive {
        states[index] := DiscardedFinal;
      }
    }
  }

  /** The active ranges from `i` on, in order. */
  function ActiveFrom(ms: seq<Match>, states: seq<State>, i: nat): seq<Match>
    requires |states| == |ms|
    decreases |ms| - i
  {
    if i >= |ms| then []
    else (if states[i] == Active then [ms[i]] else []) + ActiveFrom(ms, states, i + 1)
  }

  ghost function ActiveAt(states: seq<State>): nat -> bool {
    (i: nat) => IsActive(states, i)
  }

  /** The active ranges, each once and in order. */
  lemma {:induction false} ActivePicks(ms: seq<Match>, states: seq<State>, i: nat)
    requires |states| == |ms| && i <= |ms|
    ensures Picks(i, |ms|, ActiveAt(states), MemberAt(ms), ActiveFrom(ms, states, i))
    decreases |ms| - i
  {
    if i == |ms| {
      PicksNone(i, ActiveAt(states), MemberAt(ms));
    } else {
      ActivePicks(ms, states, i + 1);
      PicksFirst(i, |ms|, ActiveAt(states), MemberAt(ms), ActiveFrom(ms, states, i + 1),
                 if states[i] == Active then [ms[i]] else []);
    }
  }

  method CompactExactMatches(ms: seq<Match>, states: array<State>) returns (kept: seq<Match>)
    requires states.Length == |ms|
    ensures kept == ActiveFrom(ms, states[..], 0)
  {
    kept := [];
    for index := 0 to |ms|
      invariant kept + ActiveFrom(ms, states[..], index) == ActiveFrom(ms, states[..], 0)
    {
      KeepNext(ms, states[..], index, kept);
      if states[index] == Active {
        kept := kept + [ms[index]];
      }
    }
  }

  lemma KeepNext(ms: seq<Match>, states: seq<State>, i: nat, kept: seq<Match>)
    requires |states| == |ms| && i < |ms|
    ensures kept + ActiveFrom(ms, states, i)
      == (if states[i] == Active then kept + [ms[i]] else kept) + ActiveFrom(ms, states, i + 1)
  {
  }

  /** Ranges rising strictly in both ends. */
  ghost predicate Rising(s: seq<Match>) {
    forall i, j | 0 <= i < j < |s| :: s[i].start < s[j].start && s[i].end < s[j].end
  }

  lemma {:induction false} ActiveOnes(ms: seq<Match>, states: seq<State>, i: nat, m: Match)
    requires |states| == |ms| && m in ActiveFrom(ms, states, i)
    ensures exists j: nat :: i <= j < |ms| && IsActive(states, j) && m == ms[j]
    decreases |ms| - i
  {
    if states[i] == Active && m == ms[i] {
      assert IsActive(states, i);
    } else {
      ActiveOnes(ms, states, i + 1, m);
    }
  }

  lemma {:induction false} ActiveOnesRise(ms: seq<Match>, states: seq<State>, i: nat)
    requires |states| == |ms| && ActiveRise(ms, states)
    ensures Rising(ActiveFrom(ms, states, i))
    decreases |ms| - i
  {
    if i >= |ms| {
    } else {
      ActiveOnesRise(ms, states, i + 1);
      var later := ActiveFrom(ms, states, i + 1);
      if states[i] == Active {
        forall k | 0 <= k < |later| ensures ms[i].start < later[k].start && ms[i].end < later[k].end {
          ActiveOnes(ms, states, i + 1, later[k]);
          assert IsActive(states, i);
        }
        RisingCons(ms[i], later);
      }
    }
  }

  lemma RisingCons(m: Match, later: seq<Match>)
    requires Rising(later) && forall k | 0 <= k < |later| :: m.start < later[k].start && m.end < later[k].end
    ensures Rising([m] + later)
  {
  }

  function Identifier(rules: seq<MatchRule>, rule: nat): string {
    if rule < |rules| then rules[rule].id else ""
  }

  /** The order matches are reported in: start, end, identifier. */
  function ReportOrder(rules: seq<MatchRule>): (Match, Match) -> bool {
    (a: Match, b: Match) =>
      a.start < b.start || (a.start == b.start &&
        (a.end < b.end || (a.end == b.end && StringLe(Identifier(rules, a.rule), Identifier(rules, b.rule)))))
  }

  lemma ReportOrderIsTotal(rules: seq<MatchRule>)
    ensures Sorting.TotalOrder(ReportOrder(rules))
  {
    var le := ReportOrder(rules);
    forall a, b ensures le(a, b) || le(b, a) { StringLeTotal(Identifier(rules, a.rule), Identifier(rules, b.rule)); }
    forall a, b, c | le(a, b) && le(b, c) ensures le(a, c) {
      var x, y, z := Identifier(rules, a.rule), Identifier(rules, b.rule), Identifier(rules, c.rule);
      if StringLe(x, y) && StringLe(y, z) { StringLeTransitive(x, y, z); }
    }
  }

  /** Candidates in filtering order, whatever order they were found in. */
  lemma SortedCandidates(matches: seq<Match>)
    requires forall i | 0 <= i < |matches| :: matches[i].start < matches[i].end
    ensures InOrder(Sorting.Sort(FilterOrder(), matches))
      && multiset(Sorting.Sort(FilterOrder(), matches)) == multiset(matches)
    ensures |Sorting.Sort(FilterOrder(), matches)| == |matches|
  {
    var sorted := Sorting.Sort(FilterOrder(), matches);
    FilterOrderIsTotal();
    Sorting.SortIsSortedPermutation(FilterOrder(), matches);
    assert |sorted| == |multiset(sorted)| == |matches|;
    forall i | 0 <= i < |sorted| ensures sorted[i].start < sorted[i].end {
      assert sorted[i] in multiset(matches);
      var k :| 0 <= k < |matches| && matches[k] == sorted[i];
    }
    forall i, j | 0 <= i < j < |sorted| ensures FilterOrder()(sorted[i], sorted[j]) { }
  }

  lemma RulesStayKnown(rules: seq<MatchRule>, matches: seq<Match>)
    requires RulesKnown(rules, matches) && multiset(Sorting.Sort(FilterOrder(), matches)) == multiset(matches)
    ensures RulesKnown(rules, Sorting.Sort(FilterOrder(), matches))
  {
    var sorted := Sorting.Sort(FilterOrder(), matches);
    forall i | 0 <= i < |sorted| ensures sorted[i].rule < |rules| {
      assert sorted[i] in multiset(matches);
      var k :| 0 <= k < |matches| && matches[k] == sorted[i];
    }
  }

  /** What is left of the survivors once false positives go. */
  function Reportable(rules: seq<MatchRule>, options: FilterOptions): Match -> bool {
    (m: Match) => !options.falsePositive || !IsFalsePositive(rules, m)
  }

  lemma {:induction false} FilterCons(keep: Match -> bool, x: Match, s: seq<Match>)
    ensures Filter(keep, [x] + s) == (if keep(x) then [x] else []) + Filter(keep, s)
  {
    if s == [] {
      assert [x] + s == [x] && [x][..0] == [];
      assert Filter(keep, [x]) == Filter(keep, []) + if keep(x) then [x] else [];
    } else {
      var n := |s| - 1;
      assert ([x] + s)[..|s|] == [x] + s[..n] && ([x] + s)[|s|] == s[n];
      FilterCons(keep, x, s[..n]);
    }
  }

  lemma {:induction false} DroppingFilters(rules: seq<MatchRule>, options: FilterOptions, ms: seq<Match>,
                                           before: seq<State>, after: seq<State>, i: nat)
    requires |before| == |after| == |ms|
    requires forall k: nat | k < |ms| ::
      after[k] == if before[k] == Active && !Reportable(rules, options)(ms[k]) then DiscardedFinal else before[k]
    ensures ActiveFrom(ms, after, i) == Filter(Reportable(rules, options), ActiveFrom(ms, before, i))
    decreases |ms| - i
  {
    if i >= |ms| {
    } else {
      DroppingFilters(rules, options, ms, before, after, i + 1);
      FilterCons(Reportable(rules, options), ms[i], ActiveFrom(ms, before, i + 1));
      assert [] + ActiveFrom(ms, before, i + 1) == ActiveFrom(ms, before, i + 1);
      assert [] + ActiveFrom(ms, after, i + 1) == ActiveFrom(ms, after, i + 1);
    }
  }

  lemma {:induction false} FilterRises(keep: Match -> bool, s: seq<Match>)
    requires Rising(s)
    ensures Rising(Filter(keep, s))
    ensures forall m | m in Filter(keep, s) :: m in s
  {
    if s == [] {
    } else {
      var n := |s| - 1;
      FilterRises(keep, s[..n]);
      forall i | 0 <= i < |Filter(keep, s[..n])|
        ensures Filter(keep, s[..n])[i].start < s[n].start && Filter(keep, s[..n])[i].end < s[n].end
      {
        assert Filter(keep, s[..n])[i] in s[..n];
      }
    }
  }

  lemma RisingIsReported(rules: seq<MatchRule>, s: seq<Match>)
    requires Rising(s)
    ensures Sorting.Sort(ReportOrder(rules), s) == s
  {
    forall i, j | 0 <= i < j < |s| ensures ReportOrder(rules)(s[i], s[j]) { assert s[i].start < s[j].start; }
    Sorting.SortedStays(ReportOrder(rules), s);
  }

  /** The states after each stage. */
  datatype Trace = Trace(s1: seq<State>, s2: seq<State>, s3: seq<State>, s4: seq<State>, s5: seq<State>)

  ghost predicate Traced(rules: seq<MatchRule>, ms: seq<Match>, options: FilterOptions, t: Trace) {
    && RulesKnown(rules, ms) && Stages(rules, ms, options, t.s1, t.s2, t.s3, t.s4, t.s5)
    && |t.s5| == |ms| && AllRepresented(ms, t.s5) && (options.contained ==> ActiveRise(ms, t.s5))
  }

  /** The reportable survivors of the stages. */
  ghost predicate Survivors(rules: seq<MatchRule>, ms: seq<Match>, options: FilterOptions, t: Trace, kept: seq<Match>) {
    Traced(rules, ms, options, t) && kept == Filter(Reportable(rules, options), ActiveFrom(ms, t.s5, 0))
  }

  /** The filter on candidates already in filtering order. */
  method FilterSorted(rules: seq<MatchRule>, ms: seq<Match>, options: FilterOptions) returns (kept: seq<Match>)
    requires RulesKnown(rules, ms) && InOrder(ms)
    ensures exists t :: Survivors(rules, ms, options, t, kept)
  {
    var states;
    ghost var s1, s2, s3, s4;
    states, s1, s2, s3, s4 := RunStages(rules, ms, options);
    ghost var s5 := states[..];
    ghost var t := Trace(s1, s2, s3, s4, s5);
    StatesOfStages(rules, ms, options, s1, s2, s3, s4, s5);
    SurvivorsRepresentAll(rules, ms, options, s1, s2, s3, s4, s5);
    if options.falsePositive {
      FilterFalsePositiveMatches(rules, ms, states);
    }
    DroppingFilters(rules, options, ms, s5, states[..], 0);
    kept := CompactExactMatches(ms, states);
    assert Survivors(rules, ms, options, t, kept);
  }

  /** What is reported: the reportable survivors in report order, which for rising survivors is the order they have. */
  ghost predicate Reported(rules: seq<MatchRule>, ms: seq<Match>, options: FilterOptions, settled: seq<State>,
                           kept: seq<Match>) {
    && |settled| == |ms|
    && var survivors := Filter(Reportable(rules, options), ActiveFrom(ms, settled, 0));
      && multiset(kept) == multiset(survivors) && Sorting.Sorted(ReportOrder(rules), kept)
      && (options.contained ==> kept == survivors && Rising(kept))
  }

  lemma SortedSurvivors(rules: seq<MatchRule>, ms: seq<Match>, options: FilterOptions, settled: seq<State>,
                        survivors: seq<Match>)
    requires |settled| == |ms| && (options.contained ==> ActiveRise(ms, settled))
    requires survivors == Filter(Reportable(rules, options), ActiveFrom(ms, settled, 0))
    ensures Reported(rules, ms, options, settled, Sorting.Sort(ReportOrder(rules), survivors))
  {
    if options.contained {
      ActiveOnesRise(ms, settled, 0);
      FilterRises(Reportable(rules, options), ActiveFrom(ms, settled, 0));
      RisingIsReported(rules, survivors);
    }
    ReportOrderIsTotal(rules);
    Sorting.SortIsSortedPermutation(ReportOrder(rules), survivors);
  }

  lemma FilterOrderTies()
    ensures forall a, b | FilterOrder()(a, b) && FilterOrder()(b, a) :: a == b
  {
  }

  /** The order in which candidates were found does not matter. */
  lemma FoundOrderIrrelevant(matches: seq<Match>, others: seq<Match>)
    requires multiset(matches) == multiset(others)
    ensures Sorting.Sort(FilterOrder(), matches) == Sorting.Sort(FilterOrder(), others)
  {
    FilterOrderIsTotal();
    FilterOrderTies();
    Sorting.SortIsSortedPermutation(FilterOrder(), matches);
    Sorting.SortIsSortedPermutation(FilterOrder(), others);
    Sorting.SortedUnique(FilterOrder(), Sorting.Sort(FilterOrder(), matches), Sorting.Sort(FilterOrder(), others));
  }

  method OrderCandidates(rules: seq<MatchRule>, matches: seq<Match>) returns (ms: seq<Match>)
    requires RulesKnown(rules, matches) && forall i | 0 <= i < |matches| :: matches[i].start < matches[i].end
    ensures ms == Sorting.Sort(FilterOrder(), matches)
    ensures InOrder(ms) && multiset(ms) == multiset(matches) && RulesKnown(rules, ms)
  {
    SortedCandidates(matches);
    RulesStayKnown(rules, matches);
    ms := if |matches| >= MINIMUM_MATCH_COUNT then Sorting.Sort(FilterOrder(), matches) else matches;
  }

  /** The sorted candidates, the states after each stage and the matches reported. */
  ghost predicate Filtered(rules: seq<MatchRule>, matches: seq<Match>, options: FilterOptions, ms: seq<Match>,
                           t: Trace, kept: seq<Match>) {
    && InOrder(ms) && multiset(ms) == multiset(matches)
    && Traced(rules, ms, options, t) && Reported(rules, ms, options, t.s5, kept)
  }

  /** Filters candidates given in any order. With containment on, the reported ranges rise strictly in both ends. */
  method FilterExactMatches(rules: seq<MatchRule>, matches: seq<Match>, options: FilterOptions)
    returns (kept: seq<Match>)
    requires RulesKnown(rules, matches) && forall i | 0 <= i < |matches| :: matches[i].start < matches[i].end
    ensures exists ms, t :: Filtered(rules, matches, options, ms, t, kept)
  {
    var ms := OrderCandidates(rules, matches);
    var survivors := FilterSorted(rules, ms, options);
    ghost var t :| Survivors(rules, ms, options, t, survivors);
    SortedSurvivors(rules, ms, options, t.s5, survivors);
    kept := Sorting.Sort(ReportOrder(rules), survivors);
    assert Filtered(rules, matches, options, ms, t, kept);
  }

  /** By start, then end, then the rule's identifier. */
  ghost predicate RangesInOrder(rules: seq<MatchRule>, s: seq<Match>) {
    forall i, j | 0 <= i < j < |s| ::
      && s[i].start <= s[j].start && (s[i].start == s[j].start ==> s[i].end <= s[j].end)
      && (s[i].start == s[j].start && s[i].end == s[j].end && s[i].rule < |rules| && s[j].rule < |rules| ==>
            StringLe(rules[s[i].rule].id, rules[s[j].rule].id))
  }

  /** Reported matches are in that order. */
  lemma ReportedInOrder(rules: seq<MatchRule>, ms: seq<Match>, options: FilterOptions, settled: seq<State>,
                        kept: seq<Match>)
    requires Reported(rules, ms, options, settled, kept)
    ensures RangesInOrder(rules, kept)
  {
    forall i, j | 0 <= i < j < |kept| ensures ReportOrder(rules)(kept[i], kept[j]) { }
  }
}
