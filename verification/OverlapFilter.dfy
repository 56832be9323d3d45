/** Discarding the shorter of two ranges that share too many tokens, in place and in order. */
module OverlapFilter {
  import opened ExactMatches
  import opened FilterStates

  datatype Removal = Neither | RemoveCurrent | RemoveNext

  /** Which of two overlapping ranges goes: thresholds of 90%, 70%, and 40% under one expression. */
  function OverlappingMatchToRemove(currentRule: MatchRule, nextRule: MatchRule, current: Match, next: Match,
                                    overlap: nat): Removal {
    var currentLength, nextLength := current.Length(), next.Length();
    var sameLicensing := currentRule.expression == nextRule.expression;
    if 10 * overlap >= 9 * nextLength && currentLength >= nextLength then RemoveNext
    else if 10 * overlap >= 9 * currentLength && currentLength <= nextLength then RemoveCurrent
    else if 10 * overlap >= 7 * nextLength && currentLength >= nextLength then RemoveNext
    else if 10 * overlap >= 7 * currentLength && currentLength <= nextLength then RemoveCurrent
    else if 10 * overlap >= 4 * nextLength && sameLicensing then
      if currentLength >= nextLength then RemoveNext else RemoveCurrent
    else if 10 * overlap >= 4 * currentLength && sameLicensing then
      if currentLength >= nextLength then RemoveNext else RemoveCurrent
    else Neither
  }

  /** Two ranges share less than 70% of the shorter, and less than 40% of it under one expression. */
  ghost predicate Distant(firstRule: MatchRule, secondRule: MatchRule, first: Match, second: Match) {
    var shorter := Min(first.Length(), second.Length());
    && 10 * Overlap(first, second) < 7 * shorter
    && (firstRule.expression == secondRule.expression ==> 10 * Overlap(first, second) < 4 * shorter)
  }

  /** The six thresholds come to this: unless distant, the shorter goes, and the later of two equally long. */
  lemma RemovalMeaning(currentRule: MatchRule, nextRule: MatchRule, current: Match, next: Match)
    requires current.start < current.end && next.start < next.end
    ensures OverlappingMatchToRemove(currentRule, nextRule, current, next, Overlap(current, next)) ==
      if Distant(currentRule, nextRule, current, next) then Neither
      else if current.Length() >= next.Length() then RemoveNext
      else RemoveCurrent
  {
  }

  ghost predicate RulesKnown(rules: seq<MatchRule>, ms: seq<Match>) {
    forall i | 0 <= i < |ms| :: ms[i].rule < |rules|
  }

  function OverlapRemovalForPair(rules: seq<MatchRule>, ms: seq<Match>, current: nat, next: nat, previous: int): Removal
    requires RulesKnown(rules, ms) && current < |ms| && next < |ms| && -1 <= previous < |ms|
  {
    var overlap := Overlap(ms[current], ms[next]);
    var currentRule, nextRule := rules[ms[current].rule], rules[ms[next].rule];
    if overlap == 0 || (currentRule.flags.falsePositive && nextRule.flags.falsePositive) then Neither
    else
      var remove := OverlappingMatchToRemove(currentRule, nextRule, ms[current], ms[next], overlap);
      if remove != Neither then remove
      else if previous < 0 || Overlap(ms[previous], ms[next]) != 0 then Neither
      else
        var combined := Overlap(ms[current], ms[previous]) + overlap;
        if 10 * combined >= 9 * ms[current].Length() then RemoveCurrent else Neither
  }

  // What the stage decides --------------------------------------------------------------

  /** Two ranges share tokens, and not both are of false-positive rules. */
  ghost predicate Compete(rules: seq<MatchRule>, ms: seq<Match>, i: nat, k: nat)
    requires RulesKnown(rules, ms) && i < |ms| && k < |ms|
  {
    && Overlap(ms[i], ms[k]) > 0
    && !(rules[ms[i].rule].flags.falsePositive && rules[ms[k].rule].flags.falsePositive)
  }

  /** Range `i` is too close to `k`, which is longer, or as long and earlier. */
  ghost predicate GivesWay(rules: seq<MatchRule>, ms: seq<Match>, i: nat, k: nat)
    requires RulesKnown(rules, ms) && i < |ms| && k < |ms|
  {
    && Compete(rules, ms, i, k) && !Distant(rules[ms[i].rule], rules[ms[k].rule], ms[i], ms[k])
    && (ms[i].Length() < ms[k].Length() || (ms[i].Length() == ms[k].Length() && k < i))
  }

  /** Range `i`, distant from `k`, is nine tenths covered by `p` and by `k`, which are apart. */
  ghost predicate Bridged(rules: seq<MatchRule>, ms: seq<Match>, i: nat, p: nat, k: nat)
    requires RulesKnown(rules, ms) && i < |ms| && k < |ms| && p < |ms|
  {
    && Compete(rules, ms, i, k) && Distant(rules[ms[i].rule], rules[ms[k].rule], ms[i], ms[k])
    && Overlap(ms[p], ms[k]) == 0 && 10 * (Overlap(ms[i], ms[p]) + Overlap(ms[i], ms[k])) >= 9 * ms[i].Length()
  }

  /** Range `i` was active and no other range discarded it; `fates[i]` is the one that did, or -1. */
  ghost predicate Kept(before: seq<State>, fates: seq<int>, i: nat) {
    i < |fates| && IsActive(before, i) && fates[i] == -1
  }

  ghost predicate LastKept(before: seq<State>, fates: seq<int>, p: nat, i: nat) {
    p < i && Kept(before, fates, p) && forall q: nat | p < q < i :: !Kept(before, fates, q)
  }

  /** Both ranges are still active when `c` is compared with the later `n`. */
  ghost predicate Met(before: seq<State>, fates: seq<int>, c: nat, n: nat) {
    && c < n < |fates| && IsActive(before, c) && IsActive(before, n)
    && (fates[c] == -1 || n <= fates[c]) && (fates[n] == -1 || c <= fates[n])
  }

  /** The last range kept before `c` covers it together with `n`. */
  ghost predicate BridgedByKept(rules: seq<MatchRule>, ms: seq<Match>, before: seq<State>, fates: seq<int>, c: nat,
                                n: nat)
    requires RulesKnown(rules, ms) && c < |ms| && n < |ms|
  {
    exists p: nat :: p < |ms| && LastKept(before, fates, p, c) && Bridged(rules, ms, c, p, n)
  }

  /** The verdict on two ranges: whether one of them discards the other. */
  ghost predicate PairDecided(rules: seq<MatchRule>, ms: seq<Match>, before: seq<State>, fates: seq<int>, c: nat,
                              n: nat)
    requires RulesKnown(rules, ms) && c < n < |ms| == |fates|
  {
    && (fates[n] == c <==> Met(before, fates, c, n) && GivesWay(rules, ms, n, c))
    && (fates[c] == n <==>
        Met(before, fates, c, n)
        && (GivesWay(rules, ms, c, n) || BridgedByKept(rules, ms, before, fates, c, n)))
  }

  ghost predicate Discarder(before: seq<State>, fates: seq<int>, i: nat)
    requires i < |fates| == |before|
  {
    fates[i] == -1 || (0 <= fates[i] < |fates| && fates[i] != i && before[i] == Active)
  }

  ghost predicate Discarders(before: seq<State>, fates: seq<int>) {
    |before| == |fates| && forall i: nat | i < |fates| :: Discarder(before, fates, i)
  }

  /** Which range discarded which, decided for every pair. */
  ghost predicate Decided(rules: seq<MatchRule>, ms: seq<Match>, before: seq<State>, fates: seq<int>)
    requires RulesKnown(rules, ms)
  {
    && |ms| == |before| && Discarders(before, fates)
    && forall c: nat, n: nat {:trigger PairDecided(rules, ms, before, fates, c, n)} | c < n < |ms| ::
         PairDecided(rules, ms, before, fates, c, n)
  }

  ghost predicate StateLeft(before: seq<State>, fates: seq<int>, after: seq<State>, i: nat)
    requires i < |before| == |fates| == |after|
  {
    after[i] == if fates[i] == -1 then before[i] else DiscardedOverlapping
  }

  ghost predicate Outcome(before: seq<State>, fates: seq<int>, after: seq<State>) {
    |before| == |fates| == |after| && forall i: nat | i < |after| :: StateLeft(before, fates, after, i)
  }

  /** The discards of the stage. */
  ghost predicate OverlapsDiscarded(rules: seq<MatchRule>, ms: seq<Match>, before: seq<State>, after: seq<State>)
    requires RulesKnown(rules, ms)
  {
    exists fates :: Decided(rules, ms, before, fates) && Outcome(before, fates, after)
  }

  // What the decisions mean ---------------------------------------------------------------

  /** Two accounts agree on whether either of two ranges discards the other. */
  ghost predicate PairAlike(fates: seq<int>, other: seq<int>, c: nat, n: nat)
    requires c < n < |fates| == |other|
  {
    (fates[n] == c <==> other[n] == c) && (fates[c] == n <==> other[c] == n)
  }

  lemma {:induction false} PairsAlike(rules: seq<MatchRule>, ms: seq<Match>, before: seq<State>, fates: seq<int>,
                                      other: seq<int>, c: nat, n: nat)
    requires RulesKnown(rules, ms) && Decided(rules, ms, before, fates) && Decided(rules, ms, before, other)
    requires c < n < |ms|
    ensures PairAlike(fates, other, c, n)
    decreases c, n
  {
    forall a: nat, b: nat | a < b < |ms| && (a < c || (a == c && b < n)) ensures PairAlike(fates, other, a, b) {
      PairsAlike(rules, ms, before, fates, other, a, b);
    }
    assert PairDecided(rules, ms, before, fates, c, n) && PairDecided(rules, ms, before, other, c, n);
    MetAlike(before, fates, other, c, n);
    forall q: nat | q < c ensures Kept(before, fates, q) <==> Kept(before, other, q) {
      KeptAlike(before, fates, other, c, q);
    }
    assert forall p: nat :: LastKept(before, fates, p, c) <==> LastKept(before, other, p, c);
  }

  /** Where two accounts agree on a pair, a discard in one is a discard in the other. */
  lemma AlikeAt(before: seq<State>, fates: seq<int>, other: seq<int>, i: nat, m: nat)
    requires Discarders(before, fates) && |other| == |fates| && i < |fates| && m < |fates|
      && fates[i] == m
    requires m != i ==> PairAlike(fates, other, Min(i, m), Max(i, m)) || PairAlike(other, fates, Min(i, m), Max(i, m))
    ensures other[i] == m
  {
    assert Discarder(before, fates, i);
  }

  lemma MetAlike(before: seq<State>, fates: seq<int>, other: seq<int>, c: nat, n: nat)
    requires Discarders(before, fates) && Discarders(before, other) && c < n < |fates|
    requires forall a: nat, b: nat | a < b < |fates| && (a < c || (a == c && b < n)) :: PairAlike(fates, other, a, b)
    ensures Met(before, fates, c, n) <==> Met(before, other, c, n)
  {
    if 0 <= fates[c] < n { AlikeAt(before, fates, other, c, fates[c]); }
    if 0 <= other[c] < n { AlikeAt(before, other, fates, c, other[c]); }
    if 0 <= fates[n] < c { AlikeAt(before, fates, other, n, fates[n]); }
    if 0 <= other[n] < c { AlikeAt(before, other, fates, n, other[n]); }
    assert Discarder(before, fates, c) && Discarder(before, other, c);
    assert Discarder(before, fates, n) && Discarder(before, other, n);
  }

  lemma KeptAlike(before: seq<State>, fates: seq<int>, other: seq<int>, c: nat, q: nat)
    requires Discarders(before, fates) && Discarders(before, other) && q < c < |fates|
    requires forall a: nat, b: nat | a < b < |fates| && a < c :: PairAlike(fates, other, a, b)
    ensures Kept(before, fates, q) <==> Kept(before, other, q)
  {
    assert Discarder(before, fates, q) && Discarder(before, other, q);
    if fates[q] != -1 { AlikeAt(before, fates, other, q, fates[q]); }
    if other[q] != -1 { AlikeAt(before, other, fates, q, other[q]); }
  }

  /** The decisions determine the states: there is one outcome. */
  lemma OverlapsUnique(rules: seq<MatchRule>, ms: seq<Match>, before: seq<State>, after: seq<State>,
                       other: seq<State>)
    requires RulesKnown(rules, ms)
    requires OverlapsDiscarded(rules, ms, before, after) && OverlapsDiscarded(rules, ms, before, other)
    ensures after == other
  {
    var fates :| Decided(rules, ms, before, fates) && Outcome(before, fates, after);
    var others :| Decided(rules, ms, before, others) && Outcome(before, others, other);
    forall i: nat | i < |ms| ensures fates[i] == others[i] {
      assert Discarder(before, fates, i) && Discarder(before, others, i);
      if fates[i] != -1 { PairsAlike(rules, ms, before, fates, others, Min(i, fates[i]), Max(i, fates[i])); }
      if others[i] != -1 { PairsAlike(rules, ms, before, fates, others, Min(i, others[i]), Max(i, others[i])); }
    }
    forall i: nat | i < |ms| ensures after[i] == other[i] {
      assert StateLeft(before, fates, after, i) && StateLeft(before, others, other, i);
    }
  }

  /** Ranges the stage leaves active are apart, both of false-positive rules, or distant. */
  lemma ActiveAreDistant(rules: seq<MatchRule>, ms: seq<Match>, before: seq<State>, after: seq<State>, i: nat, j: nat)
    requires RulesKnown(rules, ms) && OverlapsDiscarded(rules, ms, before, after)
    requires i < j < |ms| && IsActive(after, i) && IsActive(after, j)
    ensures Compete(rules, ms, i, j) ==> Distant(rules[ms[i].rule], rules[ms[j].rule], ms[i], ms[j])
  {
    var fates :| Decided(rules, ms, before, fates) && Outcome(before, fates, after);
    assert StateLeft(before, fates, after, i) && StateLeft(before, fates, after, j);
    assert PairDecided(rules, ms, before, fates, i, j);
    DistantSymmetric(rules[ms[i].rule], rules[ms[j].rule], ms[i], ms[j]);
  }

  /** No range left active is covered by the active one next before it and an active one further on. */
  lemma NoneBridged(rules: seq<MatchRule>, ms: seq<Match>, before: seq<State>, after: seq<State>, p: nat, i: nat,
                    k: nat)
    requires RulesKnown(rules, ms) && OverlapsDiscarded(rules, ms, before, after)
    requires p < i < k < |ms| && IsActive(after, p) && IsActive(after, i) && IsActive(after, k)
    requires forall q: nat | p < q < i :: !IsActive(after, q)
    ensures Compete(rules, ms, i, k) && Overlap(ms[p], ms[k]) == 0
      ==> 10 * (Overlap(ms[i], ms[p]) + Overlap(ms[i], ms[k])) < 9 * ms[i].Length()
  {
    ActiveAreDistant(rules, ms, before, after, i, k);
    var fates :| Decided(rules, ms, before, fates) && Outcome(before, fates, after);
    forall q: nat | p <= q < i || q == k ensures Kept(before, fates, q) <==> IsActive(after, q) {
      assert StateLeft(before, fates, after, q);
    }
    assert StateLeft(before, fates, after, i) && PairDecided(rules, ms, before, fates, i, k);
    assert LastKept(before, fates, p, i);
  }

  /** A discarded range was active, and gave way or was covered by the one kept before it and a later one. */
  lemma WhyDiscarded(rules: seq<MatchRule>, ms: seq<Match>, before: seq<State>, after: seq<State>, i: nat)
    requires RulesKnown(rules, ms) && OverlapsDiscarded(rules, ms, before, after)
    requires i < |ms| && after[i] != before[i]
    ensures IsActive(before, i) && after[i] == DiscardedOverlapping
    ensures || (exists k: nat :: k < |ms| && IsActive(before, k) && GivesWay(rules, ms, i, k))
            || (exists p: nat, k: nat :: p < i < k < |ms| && IsActive(after, p) && IsActive(before, k)
                                         && Bridged(rules, ms, i, p, k))
  {
    var fates :| Decided(rules, ms, before, fates) && Outcome(before, fates, after);
    assert StateLeft(before, fates, after, i) && Discarder(before, fates, i);
    var k := fates[i];
    assert PairDecided(rules, ms, before, fates, Min(i, k), Max(i, k));
    if !GivesWay(rules, ms, i, k) {
      var p: nat :| p < |ms| && LastKept(before, fates, p, i) && Bridged(rules, ms, i, p, k);
      assert StateLeft(before, fates, after, p);
    }
  }

  // The sweep -----------------------------------------------------------------------------

  /** The pair is compared before `current` is compared with `next`. */
  ghost predicate Earlier(c: nat, n: nat, current: nat, next: nat) {
    c < current || (c == current && n < next)
  }

  ghost predicate DiscarderSoFar(before: seq<State>, fates: seq<int>, current: nat, next: nat, i: nat)
    requires i < |fates| == |before|
  {
    Discarder(before, fates, i) && (fates[i] == -1 || Earlier(Min(i, fates[i]), Max(i, fates[i]), current, next))
  }

  /** All pairs compared so far are decided, and nothing else is. */
  ghost predicate Swept(rules: seq<MatchRule>, ms: seq<Match>, before: seq<State>, fates: seq<int>, now: seq<State>,
                        current: nat, next: nat)
    requires RulesKnown(rules, ms)
  {
    && |ms| == |before| == |fates| && Outcome(before, fates, now)
    && (forall i: nat | i < |fates| :: DiscarderSoFar(before, fates, current, next, i))
    && forall c: nat, n: nat {:trigger PairDecided(rules, ms, before, fates, c, n)} |
         c < n < |ms| && Earlier(c, n, current, next) :: PairDecided(rules, ms, before, fates, c, n)
  }

  /** `previous` is the last range kept before `current`, or -1. */
  ghost predicate PreviousIs(before: seq<State>, fates: seq<int>, current: nat, previous: int) {
    if previous < 0 then previous == -1 && forall q: nat | q < current :: !Kept(before, fates, q)
    else LastKept(before, fates, previous, current)
  }

  /** What comparing two ranges comes to. */
  lemma ComparePair(rules: seq<MatchRule>, ms: seq<Match>, before: seq<State>, fates: seq<int>, current: nat, next: nat,
                    previous: int)
    requires RulesKnown(rules, ms) && InOrder(ms) && current < next < |ms| == |fates|
    requires PreviousIs(before, fates, current, previous)
    ensures previous < |ms|
    ensures OverlapRemovalForPair(rules, ms, current, next, previous) ==
      if GivesWay(rules, ms, next, current) then RemoveNext
      else if GivesWay(rules, ms, current, next) || BridgedByKept(rules, ms, before, fates, current, next)
        then RemoveCurrent
      else Neither
  {
    RemovalMeaning(rules[ms[current].rule], rules[ms[next].rule], ms[current], ms[next]);
    DistantSymmetric(rules[ms[current].rule], rules[ms[next].rule], ms[current], ms[next]);
    if previous >= 0 {
      assert BridgedByKept(rules, ms, before, fates, current, next)
        <==> Bridged(rules, ms, current, previous, next) by {
        forall p: nat | LastKept(before, fates, p, current) ensures p == previous { }
      }
    }
  }

  lemma DistantSymmetric(firstRule: MatchRule, secondRule: MatchRule, first: Match, second: Match)
    ensures Distant(firstRule, secondRule, first, second) == Distant(secondRule, firstRule, second, first)
  {
  }

  lemma SweptFurther(before: seq<State>, fates: seq<int>, current: nat, next: nat, later: nat, i: nat)
    requires i < |fates| == |before| && DiscarderSoFar(before, fates, current, next, i) && next <= later
    ensures DiscarderSoFar(before, fates, current, later, i)
  {
  }

  /** A pair decided without a discard. */
  lemma NextPair(rules: seq<MatchRule>, ms: seq<Match>, before: seq<State>, fates: seq<int>, now: seq<State>,
                 current: nat, next: nat)
    requires RulesKnown(rules, ms) && Swept(rules, ms, before, fates, now, current, next) && current < next < |ms|
    requires PairDecided(rules, ms, before, fates, current, next)
    ensures Swept(rules, ms, before, fates, now, current, next + 1)
  {
    var later := next + 1;
    forall i: nat | i < |fates| ensures DiscarderSoFar(before, fates, current, later, i) {
      SweptFurther(before, fates, current, next, later, i);
    }
  }

  /** Only ranges still active meet, and a pair not yet compared has no verdict. */
  lemma MeetingIsActive(rules: seq<MatchRule>, ms: seq<Match>, before: seq<State>, fates: seq<int>, now: seq<State>,
                        current: nat, next: nat)
    requires RulesKnown(rules, ms) && Swept(rules, ms, before, fates, now, current, next) && current < next < |ms|
    ensures Met(before, fates, current, next) <==> IsActive(now, current) && IsActive(now, next)
    ensures fates[next] != current && fates[current] != next
    ensures IsActive(now, current) ==> IsActive(before, current) && fates[current] == -1
    ensures IsActive(now, next) ==> IsActive(before, next) && fates[next] == -1
  {
    assert DiscarderSoFar(before, fates, current, next, current) && StateLeft(before, fates, now, current);
    assert DiscarderSoFar(before, fates, current, next, next) && StateLeft(before, fates, now, next);
  }

  /** Discarding a range leaves the last kept one before an index not beyond it. */
  lemma BridgeStays(rules: seq<MatchRule>, ms: seq<Match>, before: seq<State>, fates: seq<int>, x: nat, y: nat,
                    c: nat, n: nat)
    requires RulesKnown(rules, ms) && c <= x < |fates| == |ms| && c < n < |ms|
    ensures BridgedByKept(rules, ms, before, fates[x := y], c, n) <==> BridgedByKept(rules, ms, before, fates, c, n)
  {
    var later := fates[x := y];
    forall p: nat | p < c ensures LastKept(before, later, p, c) <==> LastKept(before, fates, p, c) {
      assert forall q: nat | q < c :: later[q] == fates[q];
      assert forall q: nat | q < c && Kept(before, fates, q) :: Kept(before, later, q);
      assert forall q: nat | q < c && Kept(before, later, q) :: Kept(before, fates, q);
    }
    assert forall p: nat | p < |ms| && LastKept(before, later, p, c) :: LastKept(before, fates, p, c);
    assert forall p: nat | p < |ms| && LastKept(before, fates, p, c) :: LastKept(before, later, p, c);
  }

  /** A verdict stands when one of two later compared ranges discards the other. */
  lemma VerdictStays(rules: seq<MatchRule>, ms: seq<Match>, before: seq<State>, fates: seq<int>, current: nat,
                     next: nat, x: nat, y: nat, c: nat, n: nat)
    requires RulesKnown(rules, ms) && |fates| == |ms| && c < n < |ms| && current < next < |ms|
    requires Earlier(c, n, current, next) && PairDecided(rules, ms, before, fates, c, n)
    requires ((x == current && y == next) || (x == next && y == current)) && fates[x] == -1
    ensures PairDecided(rules, ms, before, fates[x := y], c, n)
  {
    BridgeStays(rules, ms, before, fates, x, y, c, n);
    var later := fates[x := y];
    assert Met(before, later, c, n) <==> Met(before, fates, c, n);
    assert later[c] == n <==> fates[c] == n;
    assert later[n] == c <==> fates[n] == c;
  }

  lemma NewVerdict(rules: seq<MatchRule>, ms: seq<Match>, before: seq<State>, fates: seq<int>, current: nat,
                   next: nat, x: nat, y: nat)
    requires RulesKnown(rules, ms) && |fates| == |ms| && current < next < |ms|
    requires fates[current] == -1 == fates[next] && IsActive(before, current) && IsActive(before, next)
    requires (x == current && y == next) || (x == next && y == current)
    requires if x == next then GivesWay(rules, ms, next, current)
      else !GivesWay(rules, ms, next, current)
           && (GivesWay(rules, ms, current, next) || BridgedByKept(rules, ms, before, fates, current, next))
    ensures PairDecided(rules, ms, before, fates[x := y], current, next)
  {
    BridgeStays(rules, ms, before, fates, x, y, current, next);
    DistantSymmetric(rules[ms[current].rule], rules[ms[next].rule], ms[current], ms[next]);
    assert Met(before, fates[x := y], current, next);
  }

  /** One of two ranges that meet is discarded by the other. */
  lemma DiscardOne(rules: seq<MatchRule>, ms: seq<Match>, before: seq<State>, fates: seq<int>, now: seq<State>,
                   current: nat, next: nat, x: nat, y: nat)
    requires RulesKnown(rules, ms) && Swept(rules, ms, before, fates, now, current, next) && current < next < |ms|
    requires fates[current] == -1 == fates[next] && IsActive(before, current) && IsActive(before, next)
    requires (x == current && y == next) || (x == next && y == current)
    requires PairDecided(rules, ms, before, fates[x := y], current, next)
    ensures Swept(rules, ms, before, fates[x := y], now[x := DiscardedOverlapping], current, next + 1)
  {
    var later, after, beyond := fates[x := y], now[x := DiscardedOverlapping], next + 1;
    forall i: nat | i < |fates|
      ensures DiscarderSoFar(before, later, current, beyond, i) && StateLeft(before, later, after, i)
    {
      assert DiscarderSoFar(before, fates, current, next, i) && StateLeft(before, fates, now, i);
    }
    forall c: nat, n: nat | c < n < |ms| && Earlier(c, n, current, beyond)
      ensures PairDecided(rules, ms, before, later, c, n)
    {
      if c != current || n != next {
        assert PairDecided(rules, ms, before, fates, c, n);
        VerdictStays(rules, ms, before, fates, current, next, x, y, c, n);
      }
    }
  }

  /** No pair is left once the current range is discarded or later ones start beyond it. */
  lemma RestDecided(rules: seq<MatchRule>, ms: seq<Match>, before: seq<State>, fates: seq<int>, now: seq<State>,
                    current: nat, next: nat)
    requires RulesKnown(rules, ms) && InOrder(ms) && Swept(rules, ms, before, fates, now, current, next)
    requires current < next <= |ms|
    requires next < |ms| ==> !IsActive(now, current) || ms[current].end <= ms[next].start
    ensures Swept(rules, ms, before, fates, now, current + 1, 0)
  {
    var after := current + 1;
    forall i: nat | i < |fates| ensures DiscarderSoFar(before, fates, after, 0, i) {
      assert DiscarderSoFar(before, fates, current, next, i);
    }
    forall c: nat, n: nat | c < n < |ms| && Earlier(c, n, after, 0)
      ensures PairDecided(rules, ms, before, fates, c, n)
    {
      if c == current && next <= n {
        assert DiscarderSoFar(before, fates, current, next, c) && DiscarderSoFar(before, fates, current, next, n);
        assert StateLeft(before, fates, now, c) && StateLeft(before, fates, now, n);
        assert IsActive(now, current) ==> Overlap(ms[current], ms[n]) == 0 by {
          assert ms[next].start <= ms[n].start;
        }
      } else {
        assert PairDecided(rules, ms, before, fates, c, n);
      }
    }
  }

  /** What the comparison of two active ranges does to the account and the states. */
  lemma SettlePair(rules: seq<MatchRule>, ms: seq<Match>, before: seq<State>, fates: seq<int>, now: seq<State>,
                   current: nat, next: nat, previous: int)
    requires RulesKnown(rules, ms) && InOrder(ms) && Swept(rules, ms, before, fates, now, current, next)
      && current < next < |ms|
    requires IsActive(now, current) && IsActive(now, next) && PreviousIs(before, fates, current, previous)
    ensures previous < |ms|
    ensures match OverlapRemovalForPair(rules, ms, current, next, previous)
      case Neither => Swept(rules, ms, before, fates, now, current, next + 1)
      case RemoveNext =>
        Swept(rules, ms, before, fates[next := current], now[next := DiscardedOverlapping], current, next + 1)
      case RemoveCurrent =>
        Swept(rules, ms, before, fates[current := next], now[current := DiscardedOverlapping], current, next + 1)
  {
    ComparePair(rules, ms, before, fates, current, next, previous);
    MeetingIsActive(rules, ms, before, fates, now, current, next);
    match OverlapRemovalForPair(rules, ms, current, next, previous)
    case Neither =>
      NextPair(rules, ms, before, fates, now, current, next);
    case RemoveNext =>
      NewVerdict(rules, ms, before, fates, current, next, next, current);
      DiscardOne(rules, ms, before, fates, now, current, next, next, current);
    case RemoveCurrent =>
      NewVerdict(rules, ms, before, fates, current, next, current, next);
      DiscardOne(rules, ms, before, fates, now, current, next, current, next);
  }

  lemma SkipInactive(rules: seq<MatchRule>, ms: seq<Match>, before: seq<State>, fates: seq<int>, now: seq<State>,
                     current: nat, next: nat)
    requires RulesKnown(rules, ms) && Swept(rules, ms, before, fates, now, current, next) && current < next < |ms|
    requires !IsActive(now, next)
    ensures Swept(rules, ms, before, fates, now, current, next + 1)
  {
    MeetingIsActive(rules, ms, before, fates, now, current, next);
    NextPair(rules, ms, before, fates, now, current, next);
  }

  /** Earlier ranges' fates are settled, so the last one kept stays the same. */
  lemma PreviousStays(before: seq<State>, fates: seq<int>, x: nat, y: nat, current: nat, previous: int)
    requires PreviousIs(before, fates, current, previous) && current <= x < |fates|
    ensures PreviousIs(before, fates[x := y], current, previous)
  {
    var later := fates[x := y];
    assert forall q: nat | q < current :: later[q] == fates[q];
    assert forall q: nat | q < current && Kept(before, later, q) :: Kept(before, fates, q);
    assert previous >= 0 ==> Kept(before, later, previous);
  }

  ghost predicate SomeDiscarded(fates: seq<int>) {
    exists i: nat :: i < |fates| && fates[i] != -1
  }

  /** Compares one active range with the later ones it overlaps, until it is discarded or they run out. */
  method SettleCurrent(rules: seq<MatchRule>, ms: seq<Match>, states: array<State>, current: nat, previous: int,
                       ghost before: seq<State>, ghost fates: seq<int>)
    returns (discarded: bool, ghost settled: seq<int>)
    requires RulesKnown(rules, ms) && InOrder(ms) && current < |ms|
    requires Swept(rules, ms, before, fates, states[..], current, 0)
    requires IsActive(states[..], current) && PreviousIs(before, fates, current, previous)
    modifies states
    ensures Swept(rules, ms, before, settled, states[..], current + 1, 0)
    ensures PreviousIs(before, settled, current, previous)
    ensures if discarded then SomeDiscarded(settled) else settled == fates && states[..] == old(states[..])
    ensures SomeDiscarded(fates) ==> SomeDiscarded(settled)
  {
    discarded := false;
    settled := fates;
    ghost var was := states[..];
    StartRow(rules, ms, before, settled, was, current);
    var next := current + 1;
    while next < |ms| && states[current] == Active
      invariant current < next <= |ms| == states.Length
      invariant Swept(rules, ms, before, settled, states[..], current, next)
      invariant PreviousIs(before, settled, current, previous)
      invariant if discarded then SomeDiscarded(settled) else settled == fates && states[..] == was
    {
      ghost var now := states[..];
      if states[next] != Active {
        SkipInactive(rules, ms, before, settled, now, current, next);
        next := next + 1;
        continue;
      }
      if ms[next].start >= ms[current].end {
        break;
      }
      SettlePair(rules, ms, before, settled, now, current, next, previous);
      var remove := OverlapRemovalForPair(rules, ms, current, next, previous);
      if remove != Neither {
        ghost var x := if remove == RemoveNext then next else current;
        ghost var y := if remove == RemoveNext then current else next;
        PreviousStays(before, settled, x, y, current, previous);
        settled := settled[x := y];
        states[if remove == RemoveNext then next else current] := DiscardedOverlapping;
        discarded := true;
        assert states[..] == now[x := DiscardedOverlapping];
        assert settled[x] != -1;
      }
      next := next + 1;
    }
    RestDecided(rules, ms, before, settled, states[..], current, next);
  }

  lemma StartRow(rules: seq<MatchRule>, ms: seq<Match>, before: seq<State>, fates: seq<int>, now: seq<State>,
                 current: nat)
    requires RulesKnown(rules, ms) && Swept(rules, ms, before, fates, now, current, 0)
    ensures Swept(rules, ms, before, fates, now, current, current + 1)
  {
    var first := current + 1;
    forall i: nat | i < |fates| ensures DiscarderSoFar(before, fates, current, first, i) {
      SweptFurther(before, fates, current, 0, first, i);
    }
  }

  method FilterOverlappingMatches(rules: seq<MatchRule>, ms: seq<Match>, states: array<State>) returns (discarded: bool)
    requires RulesKnown(rules, ms) && InOrder(ms) && states.Length == |ms|
    modifies states
    ensures OverlapsDiscarded(rules, ms, old(states[..]), states[..])
    ensures !discarded <==> states[..] == old(states[..])
  {
    ghost var before := states[..];
    ghost var fates := seq(|ms|, _ => -1);
    assert Outcome(before, fates, states[..]) by {
      assert forall i: nat | i < |ms| :: StateLeft(before, fates, states[..], i);
    }
    assert Swept(rules, ms, before, fates, states[..], 0, 0) by {
      assert forall i: nat | i < |ms| :: DiscarderSoFar(before, fates, 0, 0, i);
    }
    if |ms| < MINIMUM_MATCH_COUNT {
      AllDecided(rules, ms, before, fates, states[..], 0);
      return false;
    }
    discarded := false;
    var previousKept: int := -1;
    for current := 0 to |ms| - 1
      invariant Swept(rules, ms, before, fates, states[..], current, 0)
      invariant PreviousIs(before, fates, current, previousKept)
      invariant if discarded then SomeDiscarded(fates) else states[..] == before
    {
      if states[current] != Active {
        SkipRow(rules, ms, before, fates, states[..], current, previousKept);
        continue;
      }
      var changed;
      changed, fates := SettleCurrent(rules, ms, states, current, previousKept, before, fates);
      discarded := discarded || changed;
      NextPrevious(rules, ms, before, fates, states[..], current, previousKept);
      if states[current] == Active {
        previousKept := current;
      }
    }
    AllDecided(rules, ms, before, fates, states[..], |ms| - 1);
    if discarded { OutcomeChanges(before, fates, states[..]); }
  }

  lemma SkipRow(rules: seq<MatchRule>, ms: seq<Match>, before: seq<State>, fates: seq<int>, now: seq<State>,
                current: nat, previous: int)
    requires RulesKnown(rules, ms) && InOrder(ms) && Swept(rules, ms, before, fates, now, current, 0)
      && current < |ms| && !IsActive(now, current) && PreviousIs(before, fates, current, previous)
    ensures Swept(rules, ms, before, fates, now, current + 1, 0)
    ensures PreviousIs(before, fates, current + 1, previous)
  {
    StartRow(rules, ms, before, fates, now, current);
    RestDecided(rules, ms, before, fates, now, current, current + 1);
    assert StateLeft(before, fates, now, current);
  }

  lemma NextPrevious(rules: seq<MatchRule>, ms: seq<Match>, before: seq<State>, fates: seq<int>, now: seq<State>,
                     current: nat, previous: int)
    requires RulesKnown(rules, ms) && Swept(rules, ms, before, fates, now, current + 1, 0) && current < |ms|
    requires PreviousIs(before, fates, current, previous)
    ensures PreviousIs(before, fates, current + 1, if IsActive(now, current) then current else previous)
  {
    assert StateLeft(before, fates, now, current);
  }

  /** All rows but the last, which has no later range, decide everything. */
  lemma AllDecided(rules: seq<MatchRule>, ms: seq<Match>, before: seq<State>, fates: seq<int>, now: seq<State>,
                   done: nat)
    requires RulesKnown(rules, ms) && Swept(rules, ms, before, fates, now, done, 0) && |ms| <= done + 1
    ensures Decided(rules, ms, before, fates) && Outcome(before, fates, now)
  {
    forall i: nat | i < |fates| ensures Discarder(before, fates, i) {
      assert DiscarderSoFar(before, fates, done, 0, i);
    }
    assert forall c: nat, n: nat | c < n < |ms| :: Earlier(c, n, done, 0);
  }

  lemma OutcomeChanges(before: seq<State>, fates: seq<int>, after: seq<State>)
    requires Discarders(before, fates) && Outcome(before, fates, after) && SomeDiscarded(fates)
    ensures after != before
  {
    var i: nat :| i < |fates| && fates[i] != -1;
    assert Discarder(before, fates, i) && StateLeft(before, fates, after, i);
  }
}
