/** Taking discarded ranges back: one pass over merged unions of the active ranges. */
module RestoreFilter {
  import opened ExactMatches
  import opened FilterStates

  /** The range shares no token with an active one. */
  ghost predicate Apart(ms: seq<Match>, states: seq<State>, i: nat)
    requires i < |ms|
  {
    forall j: nat {:trigger IsActive(states, j)} | j < |ms| && IsActive(states, j) :: Overlap(ms[j], ms[i]) == 0
  }

  /** The all-pairs meaning of the sweep. */
  ghost predicate RestoredApart(ms: seq<Match>, before: seq<State>, after: seq<State>, discard: State) {
    && |ms| == |before| == |after|
    && forall i: nat {:trigger after[i]} | i < |ms| ::
         after[i] == if before[i] == discard && Apart(ms, before, i) then Active else before[i]
  }

  /** Some active range among `lo..hi` holds the token. */
  ghost predicate Covered(ms: seq<Match>, states: seq<State>, lo: nat, hi: nat, t: nat) {
    exists k: nat :: lo <= k < hi && k < |ms| && IsActive(states, k) && Inside(ms[k], t)
  }

  /** The union holds exactly the tokens of the active ranges among `lo..hi`. */
  ghost predicate IsUnion(ms: seq<Match>, states: seq<State>, lo: nat, hi: nat, union: Match) {
    && union.start < union.end
    && (forall k: nat {:trigger IsActive(states, k)} | lo <= k < hi && k < |ms| && IsActive(states, k) ::
          union.start <= ms[k].start && ms[k].end <= union.end)
    && (forall t: nat {:trigger Covered(ms, states, lo, hi, t)} | union.start <= t < union.end ::
        Covered(ms, states, lo, hi, t))
  }

  ghost predicate NoneActive(ms: seq<Match>, states: seq<State>, lo: nat, hi: nat) {
    forall k: nat {:trigger IsActive(states, k)} | lo <= k < hi && k < |ms| :: !IsActive(states, k)
  }

  lemma UnionSkips(ms: seq<Match>, states: seq<State>, lo: nat, hi: nat, union: Match)
    requires IsUnion(ms, states, lo, hi, union) && lo <= hi < |ms| && !IsActive(states, hi)
    ensures IsUnion(ms, states, lo, hi + 1, union)
  {
    CoveredGrows(ms, states, lo, hi, union);
  }

  lemma CoveredGrows(ms: seq<Match>, states: seq<State>, lo: nat, hi: nat, union: Match)
    requires IsUnion(ms, states, lo, hi, union)
    ensures forall t: nat {:trigger Covered(ms, states, lo, hi + 1, t)} | union.start <= t < union.end ::
      Covered(ms, states, lo, hi + 1, t)
  {
    var wider := hi + 1;
    forall t: nat | union.start <= t < union.end ensures Covered(ms, states, lo, wider, t) {
      assert Covered(ms, states, lo, hi, t);
    }
  }

  /** A range that starts inside the union extends it without a gap. */
  lemma UnionExtends(ms: seq<Match>, states: seq<State>, lo: nat, hi: nat, union: Match)
    requires IsUnion(ms, states, lo, hi, union) && lo <= hi < |ms| && IsActive(states, hi)
    requires union.start <= ms[hi].start < union.end
    ensures IsUnion(ms, states, lo, hi + 1, if ms[hi].end > union.end then union.(end := ms[hi].end) else union)
  {
    CoveredGrows(ms, states, lo, hi, union);
    var wider := hi + 1;
    forall t: nat | union.end <= t < ms[hi].end ensures Covered(ms, states, lo, wider, t) {
      assert Inside(ms[hi], t);
    }
  }

  /** The next maximal union of active ranges, if any is left; later active ranges start beyond it. */
  method NextActiveMatchUnion(ms: seq<Match>, states: array<State>, position0: nat)
    returns (union: Match, hasUnion: bool, position: nat, ghost lo: nat)
    requires InOrder(ms) && states.Length == |ms| && position0 <= |ms|
    ensures position0 <= lo <= position <= |ms|
    ensures NoneActive(ms, states[..], position0, lo)
    ensures hasUnion ==> lo < position && IsActive(states[..], lo) && union.start == ms[lo].start
    ensures hasUnion ==> IsUnion(ms, states[..], lo, position, union)
    ensures hasUnion ==> forall k: nat | position <= k < |ms| && IsActive(states[..], k) :: union.end <= ms[k].start
    ensures !hasUnion ==> lo == |ms|
  {
    position := position0;
    while position < |ms| && states[position] != Active
      invariant position0 <= position <= |ms| && NoneActive(ms, states[..], position0, position)
    {
      position := position + 1;
    }
    lo := position;
    if position == |ms| {
      return Match(0, 0, 0), false, position, lo;
    }
    union, hasUnion := ms[position], true;
    FirstOfUnion(ms, states[..], lo);
    position := position + 1;
    while position < |ms|
      invariant lo < position <= |ms| && union.start == ms[lo].start
      invariant IsUnion(ms, states[..], lo, position, union)
    {
      if states[position] != Active {
        UnionSkips(ms, states[..], lo, position, union);
        position := position + 1;
        continue;
      }
      var m := ms[position];
      if m.start >= union.end {
        break;
      }
      UnionExtends(ms, states[..], lo, position, union);
      if m.end > union.end {
        union := union.(end := m.end);
      }
      position := position + 1;
    }
  }

  lemma FirstOfUnion(ms: seq<Match>, states: seq<State>, lo: nat)
    requires InOrder(ms) && lo < |ms| && IsActive(states, lo)
    ensures IsUnion(ms, states, lo, lo + 1, ms[lo])
  {
    var hi := lo + 1;
    forall t: nat | ms[lo].start <= t < ms[lo].end ensures Covered(ms, states, lo, hi, t) {
      assert Inside(ms[lo], t);
    }
  }

  /** Where the sweep stands: active ranges before `lo` end by `bound`, the union holds those up to `position`. */
  ghost predicate Sweeping(ms: seq<Match>, states: seq<State>, union: Match, hasUnion: bool, lo: nat, position: nat,
                           bound: int) {
    && lo <= position <= |ms| == |states|
    && (forall k: nat {:trigger IsActive(states, k)} | k < lo && IsActive(states, k) :: ms[k].end <= bound)
    && (hasUnion ==> IsUnion(ms, states, lo, position, union)
                     && forall k: nat {:trigger IsActive(states, k)} | position <= k < |ms| && IsActive(states, k) ::
                       union.end <= ms[k].start)
    && (!hasUnion ==> lo == |ms|)
  }

  lemma SweepOn(ms: seq<Match>, states: seq<State>, union: Match, lo: nat, position: nat, bound: int,
                union': Match, hasUnion': bool, lo': nat, position': nat)
    requires Sweeping(ms, states, union, true, lo, position, bound) && union.end <= bound
    requires position <= lo' <= position' <= |ms| && NoneActive(ms, states, position, lo')
    requires hasUnion' ==> IsUnion(ms, states, lo', position', union')
    requires hasUnion' ==> forall k: nat | position' <= k < |ms| && IsActive(states, k) :: union'.end <= ms[k].start
    requires !hasUnion' ==> lo' == |ms|
    ensures Sweeping(ms, states, union', hasUnion', lo', position', bound)
  {
  }

  /** Once passed unions end by the range's start, one comparison decides whether any active range overlaps it. */
  lemma UnionDecides(ms: seq<Match>, states: seq<State>, union: Match, hasUnion: bool, lo: nat, position: nat, i: nat)
    requires InOrder(ms) && i < |ms| && Sweeping(ms, states, union, hasUnion, lo, position, ms[i].start)
    requires hasUnion ==> union.end > ms[i].start
    ensures Apart(ms, states, i) <==> !(hasUnion && union.start < ms[i].end)
  {
    if hasUnion && union.start < ms[i].end {
      var t := Max(union.start, ms[i].start);
      assert Covered(ms, states, lo, position, t);
      var k: nat :| lo <= k < position && k < |ms| && IsActive(states, k) && Inside(ms[k], t);
      assert Inside(ms[i], t);
    }
  }

  lemma SweepFrame(ms: seq<Match>, before: seq<State>, union: Match, hasUnion: bool, lo: nat, position: nat,
                   bound: int, bound': int)
    requires Sweeping(ms, before, union, hasUnion, lo, position, bound) && bound <= bound'
    ensures Sweeping(ms, before, union, hasUnion, lo, position, bound')
  {
  }

  /** During the sweep the same ranges stay active. */
  ghost predicate Marked(ms: seq<Match>, before: seq<State>, now: seq<State>, discard: State, index: nat) {
    && |before| == |now| == |ms|
    && forall i: nat {:trigger now[i]} | i < |ms| ::
         now[i] == if i < index && before[i] == discard && Apart(ms, before, i) then Restored else before[i]
  }

  lemma SameActive(ms: seq<Match>, before: seq<State>, now: seq<State>, discard: State, index: nat)
    requires Marked(ms, before, now, discard, index) && discard != Active
    ensures forall k: nat {:trigger IsActive(before, k)} {:trigger IsActive(now, k)} ::
      IsActive(now, k) <==> IsActive(before, k)
  {
  }

  lemma UnionFrame(ms: seq<Match>, before: seq<State>, now: seq<State>, lo: nat, hi: nat, union: Match)
    requires forall k: nat {:trigger IsActive(before, k)} {:trigger IsActive(now, k)} ::
      IsActive(now, k) <==> IsActive(before, k)
    requires IsUnion(ms, now, lo, hi, union)
    ensures IsUnion(ms, before, lo, hi, union)
  {
    forall t: nat | union.start <= t < union.end ensures Covered(ms, before, lo, hi, t) {
      assert Covered(ms, now, lo, hi, t);
    }
  }

  /** Drops the unions that end by `start`. */
  method SkipUnions(ms: seq<Match>, states: array<State>, union0: Match, hasUnion0: bool, position0: nat, start: nat,
                    ghost before: seq<State>, ghost discard: State, ghost index: nat, ghost lo0: nat)
    returns (union: Match, hasUnion: bool, position: nat, ghost lo: nat)
    requires InOrder(ms) && states.Length == |ms| && Marked(ms, before, states[..], discard, index) && discard != Active
    requires Sweeping(ms, before, union0, hasUnion0, lo0, position0, start)
    ensures Sweeping(ms, before, union, hasUnion, lo, position, start) && (hasUnion ==> union.end > start)
  {
    union, hasUnion, position, lo := union0, hasUnion0, position0, lo0;
    SameActive(ms, before, states[..], discard, index);
    while hasUnion && union.end <= start
      invariant Sweeping(ms, before, union, hasUnion, lo, position, start)
      decreases |ms| - position + if hasUnion then 1 else 0
    {
      var union', hasUnion', position';
      ghost var lo';
      union', hasUnion', position', lo' := NextActiveMatchUnion(ms, states, position);
      if hasUnion' { UnionFrame(ms, before, states[..], lo', position', union'); }
      SweepOn(ms, before, union, lo, position, start, union', hasUnion', lo', position');
      union, hasUnion, position, lo := union', hasUnion', position', lo';
    }
  }

  lemma MarkOne(ms: seq<Match>, before: seq<State>, now: seq<State>, discard: State, index: nat)
    requires Marked(ms, before, now, discard, index) && index < |ms|
    ensures before[index] == discard && Apart(ms, before, index)
      ==> Marked(ms, before, now[index := Restored], discard, index + 1)
    ensures !(before[index] == discard && Apart(ms, before, index)) ==> Marked(ms, before, now, discard, index + 1)
  {
  }

  /** Reactivates exactly the discarded ranges that share no token with a range active on entry. */
  method RestoreNonOverlapping(ms: seq<Match>, states: array<State>, discard: State)
    requires InOrder(ms) && states.Length == |ms| && discard != Active && discard != Restored && Restored !in states[..]
    modifies states
    ensures RestoredApart(ms, old(states[..]), states[..], discard)
  {
    ghost var before := states[..];
    var union, hasUnion, position;
    ghost var lo;
    union, hasUnion, position, lo := NextActiveMatchUnion(ms, states, 0);
    ghost var bound := -1;
    for index := 0 to |ms|
      invariant Marked(ms, before, states[..], discard, index)
      invariant Sweeping(ms, before, union, hasUnion, lo, position, bound)
      invariant index < |ms| ==> bound <= ms[index].start
    {
      ghost var now := states[..];
      MarkOne(ms, before, now, discard, index);
      if states[index] != discard {
        continue;
      }
      SweepFrame(ms, before, union, hasUnion, lo, position, bound, ms[index].start);
      union, hasUnion, position, lo :=
        SkipUnions(ms, states, union, hasUnion, position, ms[index].start, before, discard, index, lo);
      bound := ms[index].start;
      UnionDecides(ms, before, union, hasUnion, lo, position, index);
      if hasUnion && union.start < ms[index].end {
        continue;
      }
      states[index] := Restored;
      assert states[..] == now[index := Restored];
    }
    Reactivate(states);
  }

  method Reactivate(states: array<State>)
    modifies states
    ensures forall i: nat | i < states.Length ::
      states[i] == if old(states[i]) == Restored then Active else old(states[i])
  {
    for index := 0 to states.Length
      invariant forall i: nat | i < states.Length ::
        states[i] == if i < index && old(states[i]) == Restored then Active else old(states[i])
    {
      if states[index] == Restored {
        states[index] := Active;
      }
    }
  }
}
