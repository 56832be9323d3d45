/** How many bytes of an input license texts and notices cover: a sweep over sorted, clamped ranges. */
module TextCoverage {
  import opened FilterStates
  import Sorting

  /** A match in input bytes, and whether its rule is a license text or notice. */
  datatype TextMatch = TextMatch(textual: bool, start: int, end: int)

  datatype ByteRange = ByteRange(start: nat, end: nat)

  /** The offsets some range holds. */
  ghost function Union(ranges: seq<ByteRange>): set<nat> {
    if ranges == [] then {}
    else Union(ranges[..|ranges| - 1]) + Interval(ranges[|ranges| - 1].start, ranges[|ranges| - 1].end)
  }

  ghost predicate Holds(ranges: seq<ByteRange>, t: nat) {
    exists i :: 0 <= i < |ranges| && ranges[i].start <= t < ranges[i].end
  }

  lemma HoldsMore(ranges: seq<ByteRange>, r: ByteRange, t: nat)
    ensures Holds(ranges + [r], t) <==> Holds(ranges, t) || r.start <= t < r.end
  {
    var more := ranges + [r];
    if Holds(ranges, t) {
      var i :| 0 <= i < |ranges| && ranges[i].start <= t < ranges[i].end;
      assert more[i] == ranges[i];
    }
    if r.start <= t < r.end { assert more[|ranges|] == r; }
  }

  lemma {:induction false} UnionHolds(ranges: seq<ByteRange>, t: nat)
    ensures t in Union(ranges) <==> Holds(ranges, t)
  {
    if ranges == [] {
    } else {
      var n := |ranges| - 1;
      UnionHolds(ranges[..n], t);
      HoldsMore(ranges[..n], ranges[n], t);
      assert ranges == ranges[..n] + [ranges[n]];
    }
  }

  function RangeOrder(): (ByteRange, ByteRange) -> bool {
    (a: ByteRange, b: ByteRange) => a.start < b.start || (a.start == b.start && a.end <= b.end)
  }

  ghost predicate Ordered(ranges: seq<ByteRange>) {
    && (forall i | 0 <= i < |ranges| :: ranges[i].start < ranges[i].end)
    && forall i, j | 0 <= i < j < |ranges| :: ranges[i].start <= ranges[j].start
  }

  /** Finished ranges lie before the current one and have been counted. */
  ghost predicate Counted(ranges: seq<ByteRange>, i: nat, closed: set<nat>, covered: nat, current: ByteRange) {
    && 0 < i <= |ranges| && current.start < current.end && |closed| == covered
    && (forall t | t in closed :: t < current.start)
    && Union(ranges[..i]) == closed + Interval(current.start, current.end)
    && (i < |ranges| ==> current.start <= ranges[i].start)
  }

  lemma JoinIntervals(a: nat, b: nat, c: nat, d: nat)
    requires a <= c <= b
    ensures Interval(a, b) + Interval(c, d) == Interval(a, Max(b, d))
  {
  }

  lemma Merge(ranges: seq<ByteRange>, i: nat, closed: set<nat>, covered: nat, current: ByteRange)
    requires Ordered(ranges) && Counted(ranges, i, closed, covered, current) && i < |ranges|
      && ranges[i].start <= current.end
    ensures Counted(ranges, i + 1, closed, covered, current.(end := Max(current.end, ranges[i].end)))
  {
    UnionNext(ranges, i);
    JoinIntervals(current.start, current.end, ranges[i].start, ranges[i].end);
    RegroupSets(closed, Interval(current.start, current.end), Interval(ranges[i].start, ranges[i].end));
  }

  lemma RegroupSets(a: set<nat>, b: set<nat>, c: set<nat>)
    ensures (a + b) + c == a + (b + c)
  {
  }

  lemma UnionNext(ranges: seq<ByteRange>, i: nat)
    requires i < |ranges|
    ensures Union(ranges[..i + 1]) == Union(ranges[..i]) + Interval(ranges[i].start, ranges[i].end)
  {
    assert ranges[..i + 1][..i] == ranges[..i];
  }

  lemma Finish(ranges: seq<ByteRange>, i: nat, closed: set<nat>, covered: nat, current: ByteRange)
    requires Ordered(ranges) && Counted(ranges, i, closed, covered, current) && i < |ranges|
      && ranges[i].start > current.end
    ensures Counted(ranges, i + 1, closed + Interval(current.start, current.end),
                    covered + (current.end - current.start), ranges[i])
  {
    UnionNext(ranges, i);
    assert closed !! Interval(current.start, current.end);
  }

  lemma Total(ranges: seq<ByteRange>, closed: set<nat>, covered: nat, current: ByteRange)
    requires Counted(ranges, |ranges|, closed, covered, current)
    ensures covered + (current.end - current.start) == |Union(ranges)|
  {
    assert ranges[..|ranges|] == ranges;
    assert closed !! Interval(current.start, current.end);
  }

  /** The sweep over sorted ranges counts every covered offset once. */
  method CountCovered(ranges: seq<ByteRange>) returns (covered: nat)
    requires Ordered(ranges) && ranges != []
    ensures covered == |Union(ranges)|
  {
    covered := 0;
    var current := ranges[0];
    ghost var closed: set<nat> := {};
    assert ranges[..1][..0] == [] && Union(ranges[..1]) == Interval(current.start, current.end);
    for i := 1 to |ranges|
      invariant Counted(ranges, i, closed, covered, current)
    {
      if ranges[i].start <= current.end {
        Merge(ranges, i, closed, covered, current);
        current := current.(end := Max(current.end, ranges[i].end));
        continue;
      }
      Finish(ranges, i, closed, covered, current);
      closed := closed + Interval(current.start, current.end);
      covered := covered + (current.end - current.start);
      current := ranges[i];
    }
    Total(ranges, closed, covered, current);
    covered := covered + (current.end - current.start);
  }

  /** The offset lies in the input and inside some text or notice match. */
  ghost predicate CoveredAt(matches: seq<TextMatch>, inputLength: nat, t: nat) {
    t < inputLength && exists i :: 0 <= i < |matches| && matches[i].textual && matches[i].start <= t < matches[i].end
  }

  function Clamp(x: int, inputLength: nat): nat {
    Max(0, Min(x, inputLength))
  }

  /** The ranges hold just what the first `k` matches cover. */
  ghost predicate Clamped(ranges: seq<ByteRange>, matches: seq<TextMatch>, inputLength: nat, k: nat) {
    && k <= |matches| && (forall i | 0 <= i < |ranges| :: ranges[i].start < ranges[i].end)
    && forall t: nat {:trigger Holds(ranges, t)} :: Holds(ranges, t) <==> CoveredAt(matches[..k], inputLength, t)
  }

  lemma ClampOne(ranges: seq<ByteRange>, matches: seq<TextMatch>, inputLength: nat, k: nat)
    requires Clamped(ranges, matches, inputLength, k) && k < |matches|
    ensures var start, end := Clamp(matches[k].start, inputLength), Clamp(matches[k].end, inputLength);
      if matches[k].textual && start < end then Clamped(ranges + [ByteRange(start, end)], matches, inputLength, k + 1)
      else Clamped(ranges, matches, inputLength, k + 1)
  {
    var start, end := Clamp(matches[k].start, inputLength), Clamp(matches[k].end, inputLength);
    var more := ranges + [ByteRange(start, end)];
    forall t: nat
      ensures CoveredAt(matches[..k + 1], inputLength, t)
        <==> Holds(ranges, t) || (matches[k].textual && start <= t < end)
      ensures Holds(more, t) <==> Holds(ranges, t) || start <= t < end
    {
      CoveredByOne(matches, inputLength, k, t);
      HoldsMore(ranges, ByteRange(start, end), t);
    }
  }

  /** The clamped, non-empty ranges of the text and notice matches. */
  method TextRanges(matches: seq<TextMatch>, inputLength: nat) returns (ranges: seq<ByteRange>)
    ensures Clamped(ranges, matches, inputLength, |matches|)
  {
    ranges := [];
    for k := 0 to |matches|
      invariant Clamped(ranges, matches, inputLength, k)
    {
      ClampOne(ranges, matches, inputLength, k);
      var start, end := Clamp(matches[k].start, inputLength), Clamp(matches[k].end, inputLength);
      if matches[k].textual && start < end {
        ranges := ranges + [ByteRange(start, end)];
      }
    }
  }

  lemma CoveredByOne(matches: seq<TextMatch>, inputLength: nat, k: nat, t: nat)
    requires k < |matches|
    ensures var m := matches[k];
      CoveredAt(matches[..k + 1], inputLength, t) <==>
        CoveredAt(matches[..k], inputLength, t)
          || (m.textual && Clamp(m.start, inputLength) <= t < Clamp(m.end, inputLength))
  {
    var more, less := matches[..k + 1], matches[..k];
    assert more[k] == matches[k] && forall i | 0 <= i < k :: more[i] == less[i];
  }

  /** Bytes of the input inside some license text or notice match, each counted once. */
  method CoveredBytes(matches: seq<TextMatch>, inputLength: nat) returns (covered: nat)
    ensures covered == |set t: nat | t < inputLength && CoveredAt(matches, inputLength, t)|
  {
    var ranges := TextRanges(matches, inputLength);
    assert matches[..|matches|] == matches;
    forall t: nat ensures t in Union(ranges) <==> CoveredAt(matches, inputLength, t) { UnionHolds(ranges, t); }
    assert Union(ranges) == set t: nat | t < inputLength && CoveredAt(matches, inputLength, t);
    if inputLength == 0 || |ranges| == 0 {
      return 0;
    }
    var sorted := SortRanges(ranges);
    covered := CountCovered(sorted);
  }

  /** The share of the input in license text or notices, in percent: all of it exactly when every byte is covered. */
  method LicenseTextCoverage(matches: seq<TextMatch>, inputLength: nat) returns (percent: real)
    ensures inputLength == 0 ==> percent == 0.0
    ensures percent * inputLength as real == 100.0 * |set t: nat | t < inputLength
      && CoveredAt(matches, inputLength, t)| as real
    ensures 0.0 <= percent <= 100.0
    ensures inputLength > 0 ==> (percent == 100.0
                                 <==> forall t: nat | t < inputLength :: CoveredAt(matches, inputLength, t))
  {
    ghost var bytes := set t: nat | t < inputLength && CoveredAt(matches, inputLength, t);
    SomeOf(bytes, inputLength);
    var covered := CoveredBytes(matches, inputLength);
    if inputLength == 0 {
      return 0.0;
    }
    percent := covered as real / inputLength as real * 100.0;
    Percent(covered, inputLength, percent);
    if covered == inputLength {
      forall t: nat | t < inputLength ensures CoveredAt(matches, inputLength, t) { assert t in bytes; }
    }
  }

  lemma Percent(covered: nat, inputLength: nat, percent: real)
    requires 0 < inputLength && covered <= inputLength && percent == covered as real / inputLength as real * 100.0
    ensures percent * inputLength as real == 100.0 * covered as real && 0.0 <= percent <= 100.0
    ensures percent == 100.0 <==> covered == inputLength
  {
    var share := covered as real / inputLength as real;
    assert share * inputLength as real == covered as real;
    assert (share - 1.0) * inputLength as real == covered as real - inputLength as real;
  }

  /** Some numbers below a bound are no more than all of them, and as many only if they are all. */
  lemma {:induction false} SomeOf(s: set<nat>, bound: nat)
    requires forall t | t in s :: t < bound
    ensures |s| <= bound && (|s| == bound <==> forall t: nat | t < bound :: t in s)
  {
    if bound != 0 {
      var last := bound - 1;
      SomeOf(s - {last}, last);
      if last in s { assert |s| == |s - {last}| + 1; } else { assert s - {last} == s; }
    } else {
      assert s == {};
    }
  }

  method SortRanges(ranges: seq<ByteRange>) returns (sorted: seq<ByteRange>)
    requires ranges != [] && forall i | 0 <= i < |ranges| :: ranges[i].start < ranges[i].end
    ensures Ordered(sorted) && sorted != [] && Union(sorted) == Union(ranges)
  {
    sorted := Sorting.Sort(RangeOrder(), ranges);
    Sorting.SortIsSortedPermutation(RangeOrder(), ranges);
    assert |sorted| == |multiset(sorted)| == |ranges|;
    forall i | 0 <= i < |sorted| ensures sorted[i].start < sorted[i].end {
      assert sorted[i] in multiset(ranges);
      var k :| 0 <= k < |ranges| && ranges[k] == sorted[i];
    }
    forall i, j | 0 <= i < j < |sorted| ensures sorted[i].start <= sorted[j].start {
      assert RangeOrder()(sorted[i], sorted[j]);
    }
    SameUnion(sorted, ranges);
  }

  lemma SameUnion(a: seq<ByteRange>, b: seq<ByteRange>)
    requires multiset(a) == multiset(b)
    ensures Union(a) == Union(b)
  {
    forall t: nat ensures t in Union(a) <==> t in Union(b) {
      UnionHolds(a, t);
      UnionHolds(b, t);
      if i :| 0 <= i < |a| && a[i].start <= t < a[i].end {
        assert a[i] in multiset(b);
        var j :| 0 <= j < |b| && b[j] == a[i];
      }
      if i :| 0 <= i < |b| && b[i].start <= t < b[i].end {
        assert b[i] in multiset(a);
        var j :| 0 <= j < |a| && a[j] == b[i];
      }
    }
  }
}
