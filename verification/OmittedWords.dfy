/** Matches that span words the rules do not have. */
module OmittedWords {
  import opened ExactMatches
  import opened Search

  const MINIMUM_VARIABLE_NOTICE_TOKENS: nat := 15

  /** Offsets, from the start of a range, of the positions strictly inside it. */
  function Inside(positions: seq<nat>, start: nat, end: nat): seq<nat> {
    if positions == [] then []
    else (if start < positions[0] < end then [positions[0] - start] else []) + Inside(positions[1..], start, end)
  }

  predicate SpansOmittedWord(m: Match, positions: seq<nat>) {
    exists p :: p in positions && m.start < p < m.end
  }

  predicate Strict(flags: Flags) {
    flags.continuous || flags.requiredPhrase
  }

  /**
   * What survives: no unknown word inside unless the rule allows variable words, and strict rules keep their stopwords.
   */
  predicate Survives(rule: MatchRule, length: nat, m: Match, unknownAfter: seq<nat>, stopwordAfter: seq<nat>) {
    && (SpansOmittedWord(m, unknownAfter) ==>
          !Strict(rule.flags) && (rule.flags.text || (rule.flags.notice && length >= MINIMUM_VARIABLE_NOTICE_TOKENS)))
    && (Strict(rule.flags) ==> Inside(stopwordAfter, m.start, m.end) == rule.stopwordAfter)
  }

  function Surviving(rules: seq<MatchRule>, lengths: seq<nat>, unknownAfter: seq<nat>,
                     stopwordAfter: seq<nat>): Match -> bool {
    (m: Match) => m.rule < |rules| && m.rule < |lengths|
      && Survives(rules[m.rule], lengths[m.rule], m, unknownAfter, stopwordAfter)
  }

  /** One binary search decides whether some position lies strictly inside. */
  method MatchSpansOmittedWord(m: Match, positions: seq<nat>) returns (spans: bool)
    requires Ascending(positions)
    ensures spans <==> SpansOmittedWord(m, positions)
  {
    var position, _ := BinarySearch(positions, m.start + 1);
    spans := position < |positions| && positions[position] < m.end;
    if spans {
      assert positions[position] in positions;
    } else {
      forall p | p in positions ensures !(m.start < p < m.end) {
        var i :| 0 <= i < |positions| && positions[i] == p;
      }
    }
  }

  lemma {:induction false} NothingInside(positions: seq<nat>, start: nat, end: nat)
    requires forall k | 0 <= k < |positions| :: positions[k] <= start || end <= positions[k]
    ensures Inside(positions, start, end) == []
  {
    if positions == [] {
    } else {
      NothingInside(positions[1..], start, end);
    }
  }

  lemma {:induction false} InsideFrom(positions: seq<nat>, start: nat, end: nat, i: nat)
    requires i <= |positions| && forall k | 0 <= k < i :: positions[k] <= start
    ensures Inside(positions, start, end) == Inside(positions[i..], start, end)
  {
    if i == 0 {
      assert positions[0..] == positions;
    } else {
      assert positions[1..][i - 1..] == positions[i..];
      InsideFrom(positions[1..], start, end, i - 1);
    }
  }

  lemma InsideFirst(positions: seq<nat>, start: nat, end: nat, i: nat)
    requires Ascending(positions) && i <= |positions| && (i < |positions| ==> start < positions[i])
    ensures i < |positions| && positions[i] < end ==>
      Inside(positions[i..], start, end) == [positions[i] - start] + Inside(positions[i + 1..], start, end)
    ensures i == |positions| || end <= positions[i] ==> Inside(positions[i..], start, end) == []
  {
    if i < |positions| {
      assert positions[i..][1..] == positions[i + 1..];
      if end <= positions[i] {
        NothingInside(positions[i..], start, end);
      }
    }
  }

  /** The first `ruleIndex` offsets agree, the rest begins at `queryIndex`. */
  ghost predicate Aligned(query: seq<nat>, rule: seq<nat>, start: nat, end: nat, queryIndex: nat, ruleIndex: nat) {
    && queryIndex <= |query| && ruleIndex <= |rule| && (queryIndex < |query| ==> start < query[queryIndex])
    && Inside(query, start, end) == rule[..ruleIndex] + Inside(query[queryIndex..], start, end)
  }

  lemma AlignNext(query: seq<nat>, rule: seq<nat>, start: nat, end: nat, queryIndex: nat, ruleIndex: nat)
    requires Ascending(query) && Aligned(query, rule, start, end, queryIndex, ruleIndex)
    requires queryIndex < |query| && query[queryIndex] < end && ruleIndex < |rule|
    ensures query[queryIndex] - start == rule[ruleIndex]
      ==> Aligned(query, rule, start, end, queryIndex + 1, ruleIndex + 1)
    ensures query[queryIndex] - start != rule[ruleIndex] ==> Inside(query, start, end) != rule
  {
    InsideFirst(query, start, end, queryIndex);
    var later := Inside(query[queryIndex + 1..], start, end);
    var offset := query[queryIndex] - start;
    assert Inside(query, start, end) == rule[..ruleIndex] + ([offset] + later);
    assert Inside(query, start, end)[ruleIndex] == offset;
    if offset == rule[ruleIndex] {
      assert rule[..ruleIndex] + ([offset] + later) == rule[..ruleIndex + 1] + later;
    }
  }

  /** Whether the stopwords strictly inside the range stand exactly where the rule's do. */
  method StopwordsAlign(m: Match, query: seq<nat>, rule: seq<nat>) returns (align: bool)
    requires Ascending(query)
    ensures align <==> Inside(query, m.start, m.end) == rule
  {
    var queryIndex, _ := BinarySearch(query, m.start + 1);
    var ruleIndex := 0;
    InsideFrom(query, m.start, m.end, queryIndex);
    assert rule[..0] + Inside(query[queryIndex..], m.start, m.end) == Inside(query[queryIndex..], m.start, m.end);
    while queryIndex < |query| && query[queryIndex] < m.end && ruleIndex < |rule|
      invariant Aligned(query, rule, m.start, m.end, queryIndex, ruleIndex)
    {
      AlignNext(query, rule, m.start, m.end, queryIndex, ruleIndex);
      if query[queryIndex] - m.start != rule[ruleIndex] {
        return false;
      }
      queryIndex, ruleIndex := queryIndex + 1, ruleIndex + 1;
    }
    InsideFirst(query, m.start, m.end, queryIndex);
    align := ruleIndex == |rule| && (queryIndex == |query| || query[queryIndex] >= m.end);
    assert rule[..|rule|] == rule;
  }

  method MatchSurvives(rule: MatchRule, length: nat, m: Match, unknownAfter: seq<nat>, stopwordAfter: seq<nat>)
    returns (survives: bool)
    requires Ascending(unknownAfter) && Ascending(stopwordAfter)
    ensures survives <==> Survives(rule, length, m, unknownAfter, stopwordAfter)
  {
    var spansUnknown := MatchSpansOmittedWord(m, unknownAfter);
    var strict := Strict(rule.flags);
    if spansUnknown {
      var allowsVariableWords := rule.flags.text || (rule.flags.notice && length >= MINIMUM_VARIABLE_NOTICE_TOKENS);
      if !allowsVariableWords || strict {
        return false;
      }
    }
    if strict {
      var align := StopwordsAlign(m, stopwordAfter, rule.stopwordAfter);
      if !align {
        return false;
      }
    }
    return true;
  }

  /** Moves the survivors to the front of the array, in order. */
  method FilterOmittedSpanningMatches(matches: array<Match>, rules: seq<MatchRule>, lengths: seq<nat>,
                                      unknownAfter: seq<nat>, stopwordAfter: seq<nat>) returns (kept: nat)
    requires Ascending(unknownAfter) && Ascending(stopwordAfter) && |rules| == |lengths|
    requires forall i | 0 <= i < matches.Length :: matches[i].rule < |rules|
    modifies matches
    ensures kept <= matches.Length
    ensures matches[..kept] == Filter(Surviving(rules, lengths, unknownAfter, stopwordAfter), old(matches[..]))
  {
    kept := 0;
    ghost var keep, before := Surviving(rules, lengths, unknownAfter, stopwordAfter), matches[..];
    for i := 0 to matches.Length
      invariant kept <= i && matches[i..] == before[i..]
      invariant matches[..kept] == Filter(keep, before[..i])
    {
      var m := matches[i];
      assert m == matches[i..][0] == before[i];
      FilterOne(keep, before, i);
      var survives := MatchSurvives(rules[m.rule], lengths[m.rule], m, unknownAfter, stopwordAfter);
      if survives {
        matches[kept] := m;
        kept := kept + 1;
      }
      assert matches[i + 1..] == before[i + 1..] by {
        assert forall j | i < j < matches.Length :: matches[j] == before[i..][j - i];
      }
    }
    assert before[..matches.Length] == before;
  }
}
