/** Every place where a rule's tokens stand in the input. */
module Occurrences {
  import opened Patterns
  import opened Suffixes
  import opened Outputs
  import opened ExactMatches

  /** The automaton's patterns are the non-empty rules, each under its own number. */
  ghost predicate RulePatterns(ps: seq<Pattern>, rules: seq<Word>) {
    && TiesRise(ps)
    && (forall p | p in ps :: p.value < |rules| && p.tokens == rules[p.value] && p.tokens != [])
    && (forall r: nat | r < |rules| && rules[r] != [] :: Pattern(rules[r], r) in ps)
  }

  function Placed(lengths: seq<nat>, rule: nat, end: nat): Match {
    Match(rule, if rule < |lengths| && lengths[rule] <= end then end - lengths[rule] else 0, end)
  }

  function PlacedAll(lengths: seq<nat>, values: seq<nat>, end: nat): seq<Match> {
    seq(|values|, i requires 0 <= i < |values| => Placed(lengths, values[i], end))
  }

  /** What ends at each position, in turn. */
  function Occurrences(ps: seq<Pattern>, lengths: seq<nat>, tokens: Word): seq<Match> {
    if tokens == [] then []
    else Occurrences(ps, lengths, tokens[..|tokens| - 1]) + PlacedAll(lengths, Hits(ps, tokens), |tokens|)
  }

  lemma OneMoreToken(ps: seq<Pattern>, lengths: seq<nat>, tokens: Word, i: nat)
    requires i < |tokens|
    ensures Occurrences(ps, lengths, tokens[..i + 1])
         == Occurrences(ps, lengths, tokens[..i]) + PlacedAll(lengths, Hits(ps, tokens[..i + 1]), i + 1)
  {
    assert tokens[..i + 1][..i] == tokens[..i];
  }

  ghost predicate Lengths(lengths: seq<nat>, rules: seq<Word>) {
    |lengths| == |rules| && forall r | 0 <= r < |rules| :: lengths[r] == |rules[r]|
  }

  /** A rule reported at the end of `w` is a non-empty suffix of `w`. */
  lemma HitIsRule(ps: seq<Pattern>, rules: seq<Word>, w: Word, v: nat)
    requires RulePatterns(ps, rules)
    ensures v in Hits(ps, w) <==> v < |rules| && rules[v] != [] && IsSuffix(rules[v], w)
  {
    HitsExact(ps, w, v);
    if v < |rules| && rules[v] != [] && IsSuffix(rules[v], w) { assert Pattern(rules[v], v) in ps; }
  }

  ghost predicate Occurs(rules: seq<Word>, tokens: Word, m: Match) {
    m.rule < |rules| && m.start < m.end <= |tokens| && tokens[m.start..m.end] == rules[m.rule]
  }

  /** The occurrences are exactly the ranges whose tokens are some rule's tokens. */
  lemma {:induction false} OccurrencesExact(ps: seq<Pattern>, lengths: seq<nat>, rules: seq<Word>, tokens: Word,
                                            m: Match)
    requires RulePatterns(ps, rules) && Lengths(lengths, rules)
    ensures m in Occurrences(ps, lengths, tokens) <==> Occurs(rules, tokens, m)
    decreases |tokens|
  {
    if tokens == [] {
    } else {
      var n := |tokens|;
      var init := tokens[..n - 1];
      OccurrencesExact(ps, lengths, rules, init, m);
      EndingHere(ps, lengths, rules, tokens, m);
      OccursEarlier(rules, tokens, m);
      assert m in Occurrences(ps, lengths, tokens) <==>
        m in Occurrences(ps, lengths, init) || m in PlacedAll(lengths, Hits(ps, tokens), n);
    }
  }

  lemma OccursEarlier(rules: seq<Word>, tokens: Word, m: Match)
    requires tokens != []
    ensures Occurs(rules, tokens, m) <==>
      Occurs(rules, tokens[..|tokens| - 1], m) || (m.end == |tokens| && Occurs(rules, tokens, m))
  {
    var init := tokens[..|tokens| - 1];
    if m.start <= m.end < |tokens| { assert tokens[m.start..m.end] == init[m.start..m.end]; }
  }

  lemma EndingHere(ps: seq<Pattern>, lengths: seq<nat>, rules: seq<Word>, w: Word, m: Match)
    requires RulePatterns(ps, rules) && Lengths(lengths, rules)
    ensures m in PlacedAll(lengths, Hits(ps, w), |w|) <==> m.end == |w| && Occurs(rules, w, m)
  {
    var hits := Hits(ps, w);
    var placed := PlacedAll(lengths, hits, |w|);
    if m in placed {
      var i: nat :| i < |placed| && placed[i] == m;
      HitIsRule(ps, rules, w, hits[i]);
    }
    if m.end == |w| && Occurs(rules, w, m) {
      HitIsRule(ps, rules, w, m.rule);
      assert IsSuffix(rules[m.rule], w);
      var i: nat :| i < |hits| && hits[i] == m.rule;
      assert placed[i] == m;
    }
  }

  ghost predicate Earlier(a: Match, b: Match) {
    a.end < b.end || (a.end == b.end && (a.start < b.start || (a.start == b.start && a.rule > b.rule)))
  }

  ghost predicate Ordered(s: seq<Match>) {
    forall i, j | 0 <= i < j < |s| :: Earlier(s[i], s[j])
  }

  ghost predicate EndBy(s: seq<Match>, end: nat) {
    forall i | 0 <= i < |s| :: s[i].end <= end
  }

  lemma OrderedHere(ps: seq<Pattern>, lengths: seq<nat>, rules: seq<Word>, w: Word)
    requires RulePatterns(ps, rules) && Lengths(lengths, rules)
    ensures Ordered(PlacedAll(lengths, Hits(ps, w), |w|))
  {
    var hits := Hits(ps, w);
    forall i, j | 0 <= i < j < |hits|
      ensures Earlier(PlacedAll(lengths, hits, |w|)[i], PlacedAll(lengths, hits, |w|)[j]) {
      var v, u := hits[i], hits[j];
      HitIsRule(ps, rules, w, v);
      HitIsRule(ps, rules, w, u);
      HitsOrdered(ps, w, i, j, Pattern(rules[v], v), Pattern(rules[u], u));
    }
  }

  lemma OrderedConcat(before: seq<Match>, here: seq<Match>, end: nat)
    requires Ordered(before) && Ordered(here) && EndBy(before, end) && forall i | 0 <= i < |here| ::
      here[i].end == end + 1
    ensures Ordered(before + here) && EndBy(before + here, end + 1)
  {
  }

  /** Occurrences come in order of their ends, longer ones first, and none twice. */
  lemma {:induction false} OccurrencesOrdered(ps: seq<Pattern>, lengths: seq<nat>, rules: seq<Word>, tokens: Word)
    requires RulePatterns(ps, rules) && Lengths(lengths, rules)
    ensures Ordered(Occurrences(ps, lengths, tokens)) && EndBy(Occurrences(ps, lengths, tokens), |tokens|)
  {
    if tokens == [] {
    } else {
      var init := tokens[..|tokens| - 1];
      OccurrencesOrdered(ps, lengths, rules, init);
      OrderedHere(ps, lengths, rules, tokens);
      OrderedConcat(Occurrences(ps, lengths, init), PlacedAll(lengths, Hits(ps, tokens), |tokens|), |init|);
    }
  }
}
