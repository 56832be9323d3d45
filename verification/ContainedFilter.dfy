/** Discarding ranges that lie inside another: one sweep that remembers the furthest end. */
module ContainedFilter {
  import opened ExactMatches
  import opened FilterStates

  /** An earlier active range reaches at least as far. */
  ghost predicate Contained(ms: seq<Match>, states: seq<State>, i: nat)
    requires i < |ms|
  {
    exists j: nat :: j < i && IsActive(states, j) && ms[i].end <= ms[j].end
  }

  ghost predicate StateAfter(ms: seq<Match>, before: seq<State>, after: seq<State>, discard: State, i: nat)
    requires i < |ms| == |before| == |after|
  {
    after[i] == if before[i] == Active && Contained(ms, before, i) then discard else before[i]
  }

  /** The all-pairs meaning of the sweep. */
  ghost predicate ContainedDiscarded(ms: seq<Match>, before: seq<State>, after: seq<State>, discard: State) {
    && |ms| == |before| == |after|
    && forall i: nat | i < |ms| :: StateAfter(ms, before, after, discard, i)
  }

  /**
   * In filtering order, reaching as far from an earlier place is containing, an equal range counting when it comes
   * first.
   */
  lemma ContainedMeansContained(ms: seq<Match>, states: seq<State>, i: nat)
    requires InOrder(ms) && |states| == |ms| && i < |ms|
    ensures Contained(ms, states, i) <==>
      exists j: nat :: j < |ms| && j != i && IsActive(states, j) && ms[j].start <= ms[i].start && ms[i].end <= ms[j].end
                       && (ms[j].start == ms[i].start && ms[j].end == ms[i].end ==> j < i)
  {
    if j: nat :| j < |ms| && j != i && IsActive(states, j) && ms[j].start <= ms[i].start && ms[i].end <= ms[j].end
                 && (ms[j].start == ms[i].start && ms[j].end == ms[i].end ==> j < i) {
      assert j < i;
    }
  }

  /** The furthest end of the active ranges before `i`. */
  ghost predicate Furthest(ms: seq<Match>, states: seq<State>, i: nat, maxEnd: int) {
    && (forall j: nat | j < i && j < |ms| && IsActive(states, j) :: ms[j].end <= maxEnd)
    && (maxEnd == -1 || exists j: nat :: j < i && j < |ms| && IsActive(states, j) && ms[j].end == maxEnd)
  }

  lemma SweepOne(ms: seq<Match>, before: seq<State>, discard: State, index: nat, maxEnd: int)
    requires |before| == |ms| && index < |ms| && Furthest(ms, before, index, maxEnd)
    ensures Contained(ms, before, index) <==> ms[index].end <= maxEnd
    ensures before[index] == Active && ms[index].end > maxEnd ==> Furthest(ms, before, index + 1, ms[index].end)
    ensures before[index] != Active || ms[index].end <= maxEnd ==> Furthest(ms, before, index + 1, maxEnd)
  {
  }

  method FilterContainedMatches(ms: seq<Match>, states: array<State>, discard: State) returns (discarded: bool)
    requires states.Length == |ms|
    modifies states
    ensures ContainedDiscarded(ms, old(states[..]), states[..], discard)
    ensures discarded <==> exists i: nat ::
      IsActive(old(states[..]), i) && i < |ms| && Contained(ms, old(states[..]), i)
  {
    ghost var before := states[..];
    if |ms| < MINIMUM_MATCH_COUNT {
      return false;
    }
    discarded := false;
    var maxEnd: int := -1;
    for index := 0 to |ms|
      invariant forall i: nat | i < index :: StateAfter(ms, before, states[..], discard, i)
      invariant forall i: nat | index <= i < |ms| :: states[i] == before[i]
      invariant Furthest(ms, before, index, maxEnd)
      invariant discarded <==> exists i: nat :: i < index && IsActive(before, i) && Contained(ms, before, i)
    {
      ghost var now := states[..];
      SweepOne(ms, before, discard, index, maxEnd);
      if states[index] != Active {
        continue;
      }
      if ms[index].end <= maxEnd {
        states[index] := discard;
        discarded := true;
        assert forall i: nat | i < index :: states[..][i] == now[i] && StateAfter(ms, before, now, discard, i);
        continue;
      }
      maxEnd := ms[index].end;
    }
  }

  /** A discarded range lies inside one that was kept. */
  lemma {:induction false} KeptContainer(ms: seq<Match>, before: seq<State>, after: seq<State>, discard: State, i: nat)
    returns (j: nat)
    requires InOrder(ms) && ContainedDiscarded(ms, before, after, discard) && discard != Active
    requires i < |ms| && IsActive(before, i) && !IsActive(after, i)
    ensures j < |ms| && IsActive(after, j) && ms[j].start <= ms[i].start && ms[i].end <= ms[j].end
  {
    assert StateAfter(ms, before, after, discard, i);
    var k: nat :| k < i && IsActive(before, k) && ms[i].end <= ms[k].end;
    assert StateAfter(ms, before, after, discard, k);
    if IsActive(after, k) {
      j := k;
    } else {
      j := KeptContainer(ms, before, after, discard, k);
    }
  }

  /** The kept ranges rise strictly in both ends: none contains another. */
  lemma KeptRise(ms: seq<Match>, before: seq<State>, after: seq<State>, discard: State, i: nat, j: nat)
    requires InOrder(ms) && ContainedDiscarded(ms, before, after, discard) && discard != Active
    requires i < j < |ms| && IsActive(after, i) && IsActive(after, j)
    ensures ms[i].start < ms[j].start && ms[i].end < ms[j].end
  {
    assert StateAfter(ms, before, after, discard, i) && StateAfter(ms, before, after, discard, j);
    assert IsActive(before, i);
  }
}
