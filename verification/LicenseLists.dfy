/** Dense lists of short license names, dropped in place. */
module LicenseLists {
  import opened ExactMatches
  import opened Search
  import opened Picking

  const MINIMUM_MATCHES: nat := 15
  const MINIMUM_EXPRESSIONS: nat := 5
  const MAXIMUM_TOKENS: nat := 20
  const MAXIMUM_DISTANCE: nat := 10

  /** Rules, positions of omitted words, and the number of words in the input. */
  datatype Input = Input(rules: seq<MatchRule>, unknownAfter: seq<nat>, stopwordAfter: seq<nat>, totalWordCount: nat)

  /** How many positions lie below a bound. */
  function Below(positions: seq<nat>, bound: nat): nat {
    if positions == [] then 0
    else Below(positions[..|positions| - 1], bound) + if positions[|positions| - 1] < bound then 1 else 0
  }

  predicate IsCandidate(input: Input, m: Match) {
    && m.Length() <= MAXIMUM_TOKENS && m.rule < |input.rules|
    && var flags := input.rules[m.rule].flags; flags.reference || flags.tag || flags.intro || flags.clue
  }

  /** Words from the end of one match to the start of the next, omitted ones included. */
  function Distance(input: Input, previous: Match, current: Match): int {
    current.start - previous.end + 1
    + (Below(input.unknownAfter, current.start + 1) - Below(input.unknownAfter, previous.end))
    + (Below(input.stopwordAfter, current.start + 1) - Below(input.stopwordAfter, previous.end))
  }

  /** Words from the first match of a group to the last, omitted ones strictly inside included. */
  function SpanWords(input: Input, first: Match, last: Match): int {
    last.end - first.start
    + (Below(input.unknownAfter, last.end) - Below(input.unknownAfter, first.start + 1))
    + (Below(input.stopwordAfter, last.end) - Below(input.stopwordAfter, first.start + 1))
  }

  function ExpressionsOf(input: Input, group: seq<Match>): set<string> {
    set i | 0 <= i < |group| && group[i].rule < |input.rules| :: input.rules[group[i].rule].expression
  }

  /** A long group of enough expressions that spans at least half of the words. */
  predicate IsList(input: Input, group: seq<Match>) {
    && |group| >= MINIMUM_MATCHES && |ExpressionsOf(input, group)| >= MINIMUM_EXPRESSIONS
    && 2 * SpanWords(input, group[0], group[|group| - 1]) >= input.totalWordCount
  }

  // Runs --------------------------------------------------------------------------------------------

  /** The matches at `i - 1` and `i` belong to one group. */
  predicate Joined(input: Input, ms: seq<Match>, i: nat) {
    && 0 < i < |ms| && IsCandidate(input, ms[i - 1]) && IsCandidate(input, ms[i])
    && Distance(input, ms[i - 1], ms[i]) <= MAXIMUM_DISTANCE
  }

  /** A group under way: candidates from `a` on, each joined to the one before, and none before `a` joined. */
  ghost predicate Grouping(input: Input, ms: seq<Match>, a: nat, b: nat) {
    && a < b <= |ms| && !Joined(input, ms, a) && IsCandidate(input, ms[a])
    && forall i: nat {:trigger Joined(input, ms, i)} | a < i < b :: Joined(input, ms, i)
  }

  /** A whole group. */
  ghost predicate IsRun(input: Input, ms: seq<Match>, a: nat, b: nat) {
    Grouping(input, ms, a, b) && !Joined(input, ms, b)
  }

  /** The match belongs to a group that is dropped. */
  ghost predicate Listed(input: Input, ms: seq<Match>, i: nat) {
    exists a: nat, b: nat :: a <= i < b && IsRun(input, ms, a, b) && IsList(input, ms[a..b])
  }

  /** The first `n` matches without those in dropped groups. */
  ghost function Unlisted(input: Input, ms: seq<Match>, n: nat): seq<Match>
    requires n <= |ms|
  {
    if n == 0 then [] else Unlisted(input, ms, n - 1) + if Listed(input, ms, n - 1) then [] else [ms[n - 1]]
  }

  lemma {:induction false} UnlistedMembers(input: Input, ms: seq<Match>, n: nat)
    requires n <= |ms|
    ensures forall m | m in Unlisted(input, ms, n) :: m in ms
  {
    if n == 0 {
    } else {
      UnlistedMembers(input, ms, n - 1);
    }
  }

  ghost function UnlistedAt(input: Input, ms: seq<Match>): nat -> bool {
    (i: nat) => i < |ms| && !Listed(input, ms, i)
  }

  /** The matches in no dropped group, each once and in order. */
  lemma {:induction false} UnlistedPicks(input: Input, ms: seq<Match>, n: nat)
    requires n <= |ms|
    ensures Picks(0, n, UnlistedAt(input, ms), MemberAt(ms), Unlisted(input, ms, n))
  {
    if n == 0 {
      PicksNone(0, UnlistedAt(input, ms), MemberAt(ms));
    } else {
      UnlistedPicks(input, ms, n - 1);
      UnlistedGives(input, ms, n - 1);
      PicksNext(0, n - 1, UnlistedAt(input, ms), MemberAt(ms), Unlisted(input, ms, n - 1),
                if Listed(input, ms, n - 1) then [] else [ms[n - 1]]);
    }
  }

  lemma UnlistedGives(input: Input, ms: seq<Match>, i: nat)
    requires i < |ms|
    ensures Gives(UnlistedAt(input, ms), MemberAt(ms), i, if Listed(input, ms, i) then [] else [ms[i]])
  {
  }

  /** Groups do not overlap. */
  lemma RunUnique(input: Input, ms: seq<Match>, a: nat, b: nat, c: nat, d: nat, i: nat)
    requires IsRun(input, ms, a, b) && IsRun(input, ms, c, d) && a <= i < b && c <= i < d
    ensures a == c && b == d
  {
    assert !Joined(input, ms, a) && !Joined(input, ms, b) && !Joined(input, ms, c) && !Joined(input, ms, d);
  }

  lemma RunDecides(input: Input, ms: seq<Match>, a: nat, b: nat, i: nat)
    requires IsRun(input, ms, a, b) && a <= i < b
    ensures Listed(input, ms, i) <==> IsList(input, ms[a..b])
  {
    if c: nat, d: nat :| c <= i < d && IsRun(input, ms, c, d) && IsList(input, ms[c..d]) {
      RunUnique(input, ms, a, b, c, d, i);
    }
  }

  lemma OthersStay(input: Input, ms: seq<Match>, i: nat)
    requires i < |ms| && !IsCandidate(input, ms[i])
    ensures !Listed(input, ms, i)
  {
    assert !Joined(input, ms, i);
  }

  lemma {:induction false} UnlistedAlike(input: Input, ms: seq<Match>, a: nat, n: nat, drop: bool)
    requires a <= n <= |ms| && forall i: nat {:trigger Listed(input, ms, i)} | a <= i < n ::
      Listed(input, ms, i) == drop
    ensures Unlisted(input, ms, n) == if drop then Unlisted(input, ms, a) else Unlisted(input, ms, a) + ms[a..n]
    decreases n
  {
    if a < n {
      UnlistedAlike(input, ms, a, n - 1, drop);
      OneMore(Unlisted(input, ms, a), ms, a, n);
    } else {
      assert ms[a..n] == [];
    }
  }

  lemma OneMore(before: seq<Match>, ms: seq<Match>, a: nat, n: nat)
    requires a < n <= |ms|
    ensures before + ms[a..n] == before + ms[a..n - 1] + [ms[n - 1]]
  {
  }

  /** A whole group is kept or dropped as one. */
  lemma UnlistedRun(input: Input, ms: seq<Match>, a: nat, b: nat)
    requires IsRun(input, ms, a, b)
    ensures Unlisted(input, ms, b) == if IsList(input, ms[a..b]) then Unlisted(input, ms, a)
      else Unlisted(input, ms, a) + ms[a..b]
  {
    var drop := IsList(input, ms[a..b]);
    forall i: nat | a <= i < b ensures Listed(input, ms, i) == drop { RunDecides(input, ms, a, b, i); }
    UnlistedAlike(input, ms, a, b, drop);
  }

  // Counting ------------------------------------------------------------------------------------------

  lemma {:induction false} PlaceIsCount(positions: seq<nat>, bound: nat, place: nat)
    requires place <= |positions| && (forall i | 0 <= i < place :: positions[i] < bound)
    requires forall i | place <= i < |positions| :: bound <= positions[i]
    ensures Below(positions, bound) == place
  {
    if positions == [] {
    } else {
      var n := |positions| - 1;
      PlaceIsCount(positions[..n], bound, if place <= n then place else n);
    }
  }

  method CountBelow(positions: seq<nat>, bound: nat) returns (count: nat)
    requires Ascending(positions)
    ensures count == Below(positions, bound)
  {
    var place, _ := BinarySearch(positions, bound);
    PlaceIsCount(positions, bound, place);
    count := place;
  }

  method MatchDistance(input: Input, previous: Match, current: Match) returns (distance: int)
    requires Ascending(input.unknownAfter) && Ascending(input.stopwordAfter)
    ensures distance == Distance(input, previous, current)
  {
    var unknownFrom: int := CountBelow(input.unknownAfter, previous.end);
    var unknownTo: int := CountBelow(input.unknownAfter, current.start + 1);
    var stopwordFrom: int := CountBelow(input.stopwordAfter, previous.end);
    var stopwordTo: int := CountBelow(input.stopwordAfter, current.start + 1);
    distance := current.start - previous.end + 1 + (unknownTo - unknownFrom) + (stopwordTo - stopwordFrom);
  }

  method GroupIsList(input: Input, group: seq<Match>) returns (list: bool)
    requires group != [] && Ascending(input.unknownAfter) && Ascending(input.stopwordAfter)
    ensures list <==> IsList(input, group)
  {
    var first, last := group[0], group[|group| - 1];
    var unknownFrom: int := CountBelow(input.unknownAfter, first.start + 1);
    var unknownTo: int := CountBelow(input.unknownAfter, last.end);
    var stopwordFrom: int := CountBelow(input.stopwordAfter, first.start + 1);
    var stopwordTo: int := CountBelow(input.stopwordAfter, last.end);
    var spanWords := last.end - first.start + (unknownTo - unknownFrom) + (stopwordTo - stopwordFrom);
    list := |group| >= MINIMUM_MATCHES && |ExpressionsOf(input, group)| >= MINIMUM_EXPRESSIONS
      && 2 * spanWords >= input.totalWordCount;
  }

  // In place --------------------------------------------------------------------------------------------

  /**
   * The array from `from` on is untouched, and its first `kept` cells hold the unlisted of the first `from` matches.
   */
  ghost predicate Compacted(input: Input, ms: seq<Match>, cells: seq<Match>, kept: nat, from: nat) {
    && |cells| == |ms| && kept <= from <= |ms| && cells[from..] == ms[from..]
    && cells[..kept] == Unlisted(input, ms, from)
  }

  /**
   * Moves a finished group to the front unless it is dropped; the group lies behind the kept part, so nothing is lost.
   */
  method FlushGroup(input: Input, matches: array<Match>, kept0: nat, groupStart: nat, end: nat, ghost ms: seq<Match>)
    returns (kept: nat)
    requires Ascending(input.unknownAfter) && Ascending(input.stopwordAfter)
    requires Compacted(input, ms, matches[..], kept0, groupStart) && IsRun(input, ms, groupStart, end)
    modifies matches
    ensures Compacted(input, ms, matches[..], kept, end)
  {
    var group := matches[groupStart..end];
    assert group == matches[..][groupStart..][..end - groupStart] == ms[groupStart..end];
    UnlistedRun(input, ms, groupStart, end);
    var list := GroupIsList(input, group);
    kept := kept0;
    if !list {
      CopyDown(matches, kept0, groupStart, end, group);
      kept := kept0 + |group|;
      assert matches[..][..kept] == Unlisted(input, ms, groupStart) + group;
    }
    Untouched(matches[..], ms, groupStart, end);
  }

  lemma Untouched(cells: seq<Match>, ms: seq<Match>, from: nat, end: nat)
    requires |cells| == |ms| && from <= end <= |ms| && (cells[from..] == ms[from..] || cells[end..] == ms[end..])
    ensures cells[end..] == ms[end..]
  {
    if cells[from..] == ms[from..] {
      assert cells[end..] == cells[from..][end - from..] && ms[end..] == ms[from..][end - from..];
    }
  }

  /** Copies cells `from..end` down to `to`, which may overlap them. */
  method CopyDown(matches: array<Match>, to: nat, from: nat, end: nat, ghost group: seq<Match>)
    requires to <= from <= end <= matches.Length && group == matches[from..end]
    modifies matches
    ensures matches[..to] == old(matches[..to]) && matches[to..to + |group|] == group
      && matches[end..] == old(matches[end..])
  {
    ghost var before := matches[..];
    for k := 0 to end - from
      invariant forall i | 0 <= i < to || from + k <= i < matches.Length :: matches[i] == before[i]
      invariant forall i | 0 <= i < k :: matches[to + i] == group[i]
    {
      matches[to + k] := matches[from + k];
    }
  }

  /** A group under way from `groupStart`, or none, with everything before it settled. */
  ghost predicate Sweeping(input: Input, ms: seq<Match>, cells: seq<Match>, kept: nat, groupStart: int, index: nat) {
    && -1 <= groupStart < index <= |ms|
    && if groupStart >= 0 then Compacted(input, ms, cells, kept, groupStart) && Grouping(input, ms, groupStart, index)
       else Compacted(input, ms, cells, kept, index) && !Joined(input, ms, index)
  }

  /** Settles the group under way, if there is one. */
  method FlushOpen(input: Input, matches: array<Match>, kept0: nat, groupStart: int, end: nat, ghost ms: seq<Match>)
    returns (kept: nat)
    requires Ascending(input.unknownAfter) && Ascending(input.stopwordAfter)
    requires Sweeping(input, ms, matches[..], kept0, groupStart, end) && !Joined(input, ms, end)
    modifies matches
    ensures Compacted(input, ms, matches[..], kept, end)
  {
    kept := kept0;
    if groupStart >= 0 {
      kept := FlushGroup(input, matches, kept0, groupStart, end, ms);
    }
  }

  /** A match that is no candidate settles the group before it and is kept. */
  method KeepOther(input: Input, matches: array<Match>, kept0: nat, index: nat, ghost ms: seq<Match>)
    returns (kept: nat)
    requires index < matches.Length && Compacted(input, ms, matches[..], kept0, index) && !IsCandidate(input, ms[index])
    modifies matches
    ensures Compacted(input, ms, matches[..], kept, index + 1)
  {
    OthersStay(input, ms, index);
    ghost var before := matches[..];
    SameHead(before, ms, index);
    matches[kept0] := matches[index];
    Stored(before, matches[..], ms, kept0, index);
    kept := kept0 + 1;
  }

  lemma SameHead(cells: seq<Match>, ms: seq<Match>, index: nat)
    requires |cells| == |ms| && index < |ms| && cells[index..] == ms[index..]
    ensures cells[index] == ms[index]
  {
    assert cells[index..][0] == ms[index..][0];
  }

  lemma Stored(before: seq<Match>, after: seq<Match>, ms: seq<Match>, kept: nat, index: nat)
    requires |before| == |ms| && kept <= index < |ms| && before[index..] == ms[index..]
      && after == before[kept := ms[index]]
    ensures after[..kept + 1] == before[..kept] + [ms[index]] && after[index + 1..] == ms[index + 1..]
  {
    assert after[index + 1..] == before[index + 1..] == before[index..][1..] == ms[index..][1..];
  }

  /** One turn of the sweep. */
  method Advance(input: Input, matches: array<Match>, kept0: nat, groupStart0: int, previous: Match, index: nat,
                 ghost ms: seq<Match>)
    returns (kept: nat, groupStart: int)
    requires Ascending(input.unknownAfter) && Ascending(input.stopwordAfter)
    requires index < matches.Length && Sweeping(input, ms, matches[..], kept0, groupStart0, index)
    requires groupStart0 >= 0 ==> previous == ms[index - 1] && IsCandidate(input, previous)
    modifies matches
    ensures Sweeping(input, ms, matches[..], kept, groupStart, index + 1)
    ensures groupStart >= 0 ==> IsCandidate(input, ms[index])
  {
    var current := matches[index];
    kept, groupStart := kept0, groupStart0;
    SweepHead(input, ms, matches[..], kept0, groupStart0, index);
    if !IsCandidate(input, current) {
      kept := FlushOpen(input, matches, kept, groupStart, index, ms);
      kept := KeepOther(input, matches, kept, index, ms);
      groupStart := -1;
    } else if groupStart < 0 {
      groupStart := index;
    } else {
      var distance := MatchDistance(input, previous, current);
      if distance > MAXIMUM_DISTANCE {
        kept := FlushOpen(input, matches, kept, groupStart, index, ms);
        groupStart := index;
      }
    }
  }

  lemma SweepHead(input: Input, ms: seq<Match>, cells: seq<Match>, kept: nat, groupStart: int, index: nat)
    requires index < |ms| && Sweeping(input, ms, cells, kept, groupStart, index)
    ensures |cells| == |ms| && cells[index] == ms[index]
  {
    var from := if groupStart >= 0 then groupStart else index;
    assert cells[from..][index - from] == ms[from..][index - from];
  }

  /**
   * Fewer than fifteen matches are left alone; otherwise every group that is a list is dropped whole, and nothing else
   * is.
   */
  method FilterLicenseListMatches(input: Input, matches: array<Match>) returns (kept: nat)
    requires Ascending(input.unknownAfter) && Ascending(input.stopwordAfter)
    modifies matches
    ensures kept <= matches.Length
    ensures matches[..kept] == if matches.Length < MINIMUM_MATCHES then old(matches[..])
      else Unlisted(input, old(matches[..]), matches.Length)
  {
    if matches.Length < MINIMUM_MATCHES { return matches.Length; }
    ghost var ms := matches[..];
    kept := 0;
    var groupStart, previous := -1, matches[0];
    for index := 0 to matches.Length
      invariant Sweeping(input, ms, matches[..], kept, groupStart, index)
      invariant groupStart >= 0 ==> previous == ms[index - 1] && IsCandidate(input, previous)
    {
      SweepHead(input, ms, matches[..], kept, groupStart, index);
      var current := matches[index];
      kept, groupStart := Advance(input, matches, kept, groupStart, previous, index, ms);
      if groupStart >= 0 { previous := current; }
    }
    kept := FlushOpen(input, matches, kept, groupStart, matches.Length, ms);
  }
}
