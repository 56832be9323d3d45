/** Candidates in filtering order, their states, and the tokens they share. */
module FilterStates {
  import opened ExactMatches
  import Sorting

  datatype State = Active | DiscardedContained | DiscardedOverlapping | DiscardedFinal | Restored

  const MINIMUM_MATCH_COUNT: nat := 2

  /** Earlier start first, then the longer range, then the smaller rule. */
  function FilterOrder(): (Match, Match) -> bool {
    (a: Match, b: Match) =>
      a.start < b.start || (a.start == b.start && (a.end > b.end || (a.end == b.end && a.rule <= b.rule)))
  }

  lemma FilterOrderIsTotal()
    ensures Sorting.TotalOrder(FilterOrder())
  {
  }

  /** Non-empty ranges in filtering order: equal ranges stand in the order of their rules. */
  ghost predicate InOrder(ms: seq<Match>) {
    && (forall i | 0 <= i < |ms| :: ms[i].start < ms[i].end)
    && (forall i, j {:trigger ms[i], ms[j]} | 0 <= i < j < |ms| ::
          ms[i].start < ms[j].start || (ms[i].start == ms[j].start && ms[i].end >= ms[j].end))
    && forall i, j {:trigger ms[i], ms[j]} | 0 <= i < j < |ms| ::
         ms[i].start == ms[j].start && ms[i].end == ms[j].end ==> ms[i].rule <= ms[j].rule
  }

  function Min(a: int, b: int): int {
    if a < b then a else b
  }

  function Max(a: int, b: int): int {
    if a < b then b else a
  }

  /** The numbers from `a` up to `b`. */
  ghost function Interval(a: nat, b: nat): (s: set<nat>)
    ensures forall t: nat :: t in s <==> a <= t < b
    ensures |s| == if a <= b then b - a else 0
  {
    if a >= b then {} else Interval(a, b - 1) + {b - 1}
  }

  /** The overlap counts the tokens two ranges share. */
  lemma OverlapCounts(a: Match, b: Match)
    ensures Overlap(a, b) == |Interval(a.start, a.end) * Interval(b.start, b.end)|
  {
    var start, end := Max(a.start, b.start), Min(a.end, b.end);
    assert Interval(a.start, a.end) * Interval(b.start, b.end) == Interval(start, end);
  }

  /** How many tokens two ranges share. */
  function Overlap(a: Match, b: Match): (shared: nat)
    ensures shared > 0 <==> exists t: nat :: Inside(a, t) && Inside(b, t)
  {
    var start, end := Max(a.start, b.start), Min(a.end, b.end);
    assert start < end ==> Inside(a, start) && Inside(b, start);
    Max(0, end - start)
  }

  predicate Inside(m: Match, t: nat) {
    m.start <= t < m.end
  }

  ghost predicate IsActive(states: seq<State>, i: nat) {
    i < |states| && states[i] == Active
  }
}
