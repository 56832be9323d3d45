/** Building an automaton and searching with it, end to end. */
module AhoSearch {
  import opened Options
  import opened Patterns
  import opened Suffixes
  import opened Tries
  import opened TrieRows
  import opened Outputs
  import opened Renumber
  import opened Automata
  import opened Sequences
  import opened AhoBuild

  /** The state spells the longest suffix of `w` that begins some pattern. */
  ghost predicate StateAfter(a: Automaton, w: Word, state: nat)
    reads a
  {
    state < |a.shape.spell| && LongestIn(Words(a.shape), w) == Some(a.shape.spell[state])
  }

  method Step(a: Automaton, w: Word, i: nat, state: nat) returns (next: nat)
    requires a.Valid() && i < |w| && StateAfter(a, w[..i], state)
    ensures StateAfter(a, w[..i + 1], next)
  {
    a.ValidIsSafe();
    next := a.Next(state, w[i]);
    WordsPrefixClosed(Implicit(a.Starts(), a.Tokens()), a.shape);
    LongestStep(Words(a.shape), w[..i], w[i]);
    TakeNext(w, i);
  }

  /** Stepping over an input from the root. */
  method Run(a: Automaton, w: Word) returns (state: nat)
    requires a.Valid()
    ensures StateAfter(a, w, state)
  {
    state := 0;
    assert a.shape.spell[0] in Words(a.shape);
    for i := 0 to |w|
      invariant StateAfter(a, w[..i], state)
    {
      state := Step(a, w, i, state);
    }
    assert w[..|w|] == w;
  }

  /** The values are those of the non-empty patterns that are suffixes of `w`. */
  ghost predicate Exactly(patterns: seq<Pattern>, w: Word, values: seq<nat>) {
    forall v: nat :: v in values <==> exists p ::
      p in patterns && p.value == v && p.tokens != [] && IsSuffix(p.tokens, w)
  }

  /** Longer patterns come first, of equal patterns the larger value, and no value comes twice. */
  ghost predicate InReportOrder(patterns: seq<Pattern>, values: seq<nat>) {
    forall i: nat, j: nat, p, q {:trigger values[i], values[j], p in patterns, q in patterns} |
      i < j < |values| && p in patterns && q in patterns && p.value == values[i] && q.value == values[j]
        && p.tokens != [] && q.tokens != [] ::
      ReportedBefore(p, q)
  }

  lemma HitsOfPatterns(patterns: seq<Pattern>, valueCount: int, w: Word)
    requires Acceptable(patterns, valueCount)
    ensures Exactly(patterns, w, Hits(Refs(patterns), w))
    ensures InReportOrder(patterns, Hits(Refs(patterns), w))
  {
    var refs := Refs(patterns);
    forall p ensures p in refs <==> p in patterns && p.tokens != [] { RefsMembers(patterns, p); }
    forall v: nat
      ensures v in Hits(refs, w) <==> exists p ::
        p in patterns && p.value == v && p.tokens != [] && IsSuffix(p.tokens, w) {
      HitsExact(refs, w, v);
    }
    RefsReady(patterns, valueCount);
    ReadyTiesRise(refs, valueCount);
    forall i: nat, j: nat, p, q | i < j < |Hits(refs, w)| && p in patterns && q in patterns
      && p.value == Hits(refs, w)[i]
        && q.value == Hits(refs, w)[j] && p.tokens != [] && q.tokens != []
      ensures ReportedBefore(p, q)
    {
      HitsOrdered(refs, w, i, j, p, q);
    }
  }

  lemma HitsAfter(a: Automaton, w: Word, state: nat)
    requires a.Valid() && StateAfter(a, w, state)
    ensures Hits(a.patterns, a.shape.spell[state]) == Hits(a.patterns, w)
  {
    assert a.shape.spell[0] in Words(a.shape);
    HitsOfState(a.patterns, a.shape, w);
  }

  /** After any input, an automaton built from acceptable patterns lists exactly the patterns that end there. */
  method ValuesEnding(patterns: seq<Pattern>, valueCount: int, w: Word) returns (r: Result<seq<nat>, BuildError>)
    requires TokensFit(patterns)
    ensures r.Ok? <==> Acceptable(patterns, valueCount)
    ensures r.Ok? ==> Exactly(patterns, w, r.value) && InReportOrder(patterns, r.value)
  {
    var built := Build(patterns, valueCount);
    if built.Err? {
      return Err(built.error);
    }
    var a := built.value;
    var state := Run(a, w);
    HitsAfter(a, w, state);
    HitsOfPatterns(patterns, valueCount, w);
    a.ValidIsSafe();
    var values := a.AppendOutputs([], state);
    assert [] + Hits(a.patterns, w) == Hits(a.patterns, w);
    r := Ok(values);
  }
}
