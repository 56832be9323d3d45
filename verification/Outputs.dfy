/** What an automaton must report, and how node heads and links deliver it. */
module Outputs {
  import opened Options
  import opened Patterns
  import opened Suffixes
  import opened Tries
  import opened TrieRows

  ghost predicate Terminated(sh: Shape, heads: seq<nat>) {
    |heads| == |sh.spell| > 0 && heads[0] == NONE
  }

  lemma TerminalHasValues(ps: seq<Pattern>, sh: Shape, heads: seq<nat>, next: seq<nat>, w: Word)
    requires HeadsOk(ps, sh.spell, heads, next) && WordsOk(ps, sh.spell)
    ensures w in Terminals(sh, heads) <==> ValuesOf(ps, w) != []
  {
    if w in Terminals(sh, heads) {
      var v: nat :| v < |sh.spell| && heads[v] != NONE && sh.spell[v] == w;
      assert Chain(next, heads[v]) == ValuesOf(ps, w);
    }
    if ValuesOf(ps, w) != [] {
      ValuesOfMembers(ps, w, ValuesOf(ps, w)[0]);
      assert w in sh.spell;
      var v: nat :| v < |sh.spell| && sh.spell[v] == w;
      assert Chain(next, heads[v]) == ValuesOf(ps, w);
    }
  }

  /** Only the longest suffix that is a whole pattern matters for what ends here. */
  lemma {:induction false} HitsAtTerminal(ps: seq<Pattern>, sh: Shape, heads: seq<nat>, next: seq<nat>, w: Word)
    requires HeadsOk(ps, sh.spell, heads, next) && WordsOk(ps, sh.spell) && [] !in Terminals(sh, heads)
    ensures Hits(ps, w) == match LongestIn(Terminals(sh, heads), w)
      case None => []
      case Some(s) => Hits(ps, s)
  {
    TerminalHasValues(ps, sh, heads, next, w);
    if w !in Terminals(sh, heads) && w != [] { HitsAtTerminal(ps, sh, heads, next, w[1..]); }
  }

  lemma RootReportsNothing(ps: seq<Pattern>, sh: Shape, heads: seq<nat>, next: seq<nat>)
    requires HeadsOk(ps, sh.spell, heads, next) && WordsOk(ps, sh.spell) && [] !in Terminals(sh, heads)
    ensures ValuesOf(ps, []) == []
  {
    TerminalHasValues(ps, sh, heads, next, []);
  }

  /** A node reports its own values, then everything its output link reports. */
  lemma HitsAtNode(ps: seq<Pattern>, sh: Shape, heads: seq<nat>, next: seq<nat>, v: nat, l: nat)
    requires HeadsOk(ps, sh.spell, heads, next) && WordsOk(ps, sh.spell)
    requires Terminated(sh, heads) && [] !in Terminals(sh, heads) && |sh.spell| <= NONE
    requires v < |sh.spell| && (sh.spell[v] == [] <==> v == 0) && LinkOk(sh, heads, v, l)
    ensures l == NONE || l < |sh.spell|
    ensures Hits(ps, sh.spell[v]) == Chain(next, heads[v]) + (if l == NONE then [] else Hits(ps, sh.spell[l]))
    ensures l != NONE ==> |sh.spell[l]| < |sh.spell[v]|
  {
    var w := sh.spell[v];
    assert Chain(next, heads[v]) == ValuesOf(ps, w);
    RootReportsNothing(ps, sh, heads, next);
    if v != 0 {
      HitsAtTerminal(ps, sh, heads, next, w[1..]);
      LongestInIsLongest(Terminals(sh, heads), w[1..]);
      LinkedHits(ps, sh, LongestIn(Terminals(sh, heads), w[1..]), Hits(ps, w[1..]), l);
      HitsUnfold(ps, w);
    } else {
      assert Hits(ps, w) == [] == ValuesOf(ps, w);
    }
  }

  lemma LinkedHits(ps: seq<Pattern>, sh: Shape, longest: Option<Word>, hits: seq<nat>, l: nat)
    requires longest.None? ==> hits == [] && l == NONE
    requires longest.Some? ==> hits == Hits(ps, longest.value) && l < |sh.spell| <= NONE && sh.spell[l] == longest.value
    ensures hits == (if l == NONE then [] else Hits(ps, sh.spell[l]))
  {
  }

  lemma HitsUnfold(ps: seq<Pattern>, w: Word)
    requires w != []
    ensures Hits(ps, w) == ValuesOf(ps, w) + Hits(ps, w[1..])
  {
  }

  /** What ends at `w` ends at the longest suffix of `w` that begins some pattern. */
  lemma {:induction false} HitsOfState(ps: seq<Pattern>, sh: Shape, w: Word)
    requires WordsOk(ps, sh.spell) && [] in Words(sh)
    ensures LongestIn(Words(sh), w).Some?
    ensures Hits(ps, w) == Hits(ps, LongestIn(Words(sh), w).value)
  {
    if w in Words(sh) {
    } else {
      OnlyWordsHaveValues(ps, sh, w);
      HitsOfState(ps, sh, w[1..]);
    }
  }

  lemma OnlyWordsHaveValues(ps: seq<Pattern>, sh: Shape, w: Word)
    requires WordsOk(ps, sh.spell) && w !in Words(sh)
    ensures ValuesOf(ps, w) == []
  {
    if ValuesOf(ps, w) != [] {
      ValuesOfMembers(ps, w, ValuesOf(ps, w)[0]);
      assert false;
    }
  }

  // The reference answer ------------------------------------------------------

  /** `Hits` holds exactly the values of the non-empty patterns that are suffixes of `w`. */
  lemma {:induction false} HitsExact(ps: seq<Pattern>, w: Word, v: nat)
    ensures v in Hits(ps, w) <==> exists p :: p in ps && p.value == v && p.tokens != [] && IsSuffix(p.tokens, w)
  {
    if w == [] {
    } else {
      ValuesOfMembers(ps, w, v);
      HitsExact(ps, w[1..], v);
      forall p | p in ps ensures p.tokens != [] && IsSuffix(p.tokens, w) <==>
          p.tokens == w || (p.tokens != [] && IsSuffix(p.tokens, w[1..])) {
        if |p.tokens| < |w| { assert w[|w| - |p.tokens|..] == w[1..][|w| - 1 - |p.tokens|..]; }
      }
    }
  }

  ghost predicate ReportedBefore(p: Pattern, q: Pattern) {
    |p.tokens| > |q.tokens| || (p.tokens == q.tokens && p.value > q.value)
  }

  /** Equal patterns stand in rising order of value, and no value is listed twice. */
  ghost predicate TiesRise(ps: seq<Pattern>) {
    && DistinctValues(ps)
    && forall i, j {:trigger ps[i].tokens, ps[j].tokens} | 0 <= i < j < |ps| && ps[i].tokens == ps[j].tokens ::
         ps[i].value < ps[j].value
  }

  lemma ReadyTiesRise(ps: seq<Pattern>, valueCount: nat)
    requires Ready(ps, valueCount)
    ensures TiesRise(ps)
  {
    forall i, j | 0 <= i < j < |ps| && ps[i].tokens == ps[j].tokens ensures ps[i].value < ps[j].value {
      ReadyPrefix(ps, valueCount, j);
      assert ps[..j][i] == ps[i];
    }
  }

  /** Longer patterns are reported first, larger values first among equal patterns, and none twice. */
  lemma {:induction false} HitsOrdered(ps: seq<Pattern>, w: Word, i: nat, j: nat, p: Pattern, q: Pattern)
    requires TiesRise(ps) && i < j < |Hits(ps, w)|
    requires p in ps && q in ps && p.value == Hits(ps, w)[i] && q.value == Hits(ps, w)[j]
    ensures ReportedBefore(p, q)
  {
    var here, later := ValuesOf(ps, w), Hits(ps, w[1..]);
    HitsUnfold(ps, w);
    if i < |here| {
      PatternOfValue(ps, p, w);
      if j < |here| {
        PatternOfValue(ps, q, w);
        ValuesDescend(ps, w, i, j);
      } else {
        LaterIsShorter(ps, q, w[1..]);
      }
    } else {
      HitsOrdered(ps, w[1..], i - |here|, j - |here|, p, q);
    }
  }

  lemma PatternOfValue(ps: seq<Pattern>, p: Pattern, w: Word)
    requires DistinctValues(ps) && p in ps && p.value in ValuesOf(ps, w)
    ensures p.tokens == w
  {
    ValuesOfMembers(ps, w, p.value);
    var q :| q in ps && q.tokens == w && q.value == p.value;
    SameValueSamePattern(ps, p, q);
  }

  lemma LaterIsShorter(ps: seq<Pattern>, p: Pattern, w: Word)
    requires DistinctValues(ps) && p in ps && p.value in Hits(ps, w)
    ensures |p.tokens| <= |w|
  {
    HitsExact(ps, w, p.value);
    var q :| q in ps && q.value == p.value && q.tokens != [] && IsSuffix(q.tokens, w);
    SameValueSamePattern(ps, p, q);
  }

  lemma SameValueSamePattern(ps: seq<Pattern>, p: Pattern, q: Pattern)
    requires DistinctValues(ps) && p in ps && q in ps && p.value == q.value
    ensures p == q
  {
    var i :| 0 <= i < |ps| && ps[i] == p;
    var j :| 0 <= j < |ps| && ps[j] == q;
    assert i == j;
  }

  lemma {:induction false} ValuesDescend(ps: seq<Pattern>, w: Word, i: nat, j: nat)
    requires TiesRise(ps) && i < j < |ValuesOf(ps, w)|
    ensures ValuesOf(ps, w)[i] > ValuesOf(ps, w)[j]
    decreases |ps|
  {
    var m := |ps| - 1;
    var init, last := ps[..m], ps[m];
    assert TiesRise(init) by { assert forall k | 0 <= k < m :: init[k] == ps[k]; }
    var rest := ValuesOf(init, w);
    if last.tokens == w {
      assert ValuesOf(ps, w) == [last.value] + rest;
      if i == 0 {
        ValuesOfMembers(init, w, rest[j - 1]);
        var p :| p in init && p.tokens == w && p.value == rest[j - 1];
        var k :| 0 <= k < m && init[k] == p;
        assert ps[k].tokens == ps[m].tokens;
      } else {
        ValuesDescend(init, w, i - 1, j - 1);
      }
    } else {
      ValuesDescend(init, w, i, j);
    }
  }
}
