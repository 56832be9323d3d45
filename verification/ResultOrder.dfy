/** The order of a finished result. */
module ResultOrder {
  import opened Options
  import opened ExactMatches
  import opened Detections
  import opened SpdxResult
  import opened Strings
  import Sorting

  const TAG_RULE: string := "spdx-license-identifier"

  function RuleId(rules: seq<MatchRule>, origin: Origin): string {
    match origin
    case OfTag => TAG_RULE
    case OfRule(rule, _) => if rule < |rules| then rules[rule].id else ""
  }

  /** Methods by name: exact, hash, spdx-id. */
  function MethodRank(origin: Origin): nat {
    match origin
    case OfRule(_, Exact) => 0
    case OfRule(_, Hash) => 1
    case OfTag => 2
  }

  /** Matches by start, end, rule and method. */
  function MatchOrder(rules: seq<MatchRule>): (Found, Found) -> bool {
    (a: Found, b: Found) =>
      if a.start != b.start then a.start < b.start
      else if a.end != b.end then a.end < b.end
      else if RuleId(rules, a.origin) != RuleId(rules, b.origin)
        then StringLe(RuleId(rules, a.origin), RuleId(rules, b.origin))
      else MethodRank(a.origin) <= MethodRank(b.origin)
  }

  function FirstStart(d: Detection): nat {
    if d.matches == [] then 0 else d.matches[0].start
  }

  /** Detections by the start of their first match, then by expression. */
  function DetectionOrder(): (Detection, Detection) -> bool {
    (a: Detection, b: Detection) => if FirstStart(a) != FirstStart(b) then FirstStart(a) < FirstStart(b)
      else StringLe(a.expression, b.expression)
  }

  lemma MatchOrderIsTotal(rules: seq<MatchRule>)
    ensures Sorting.TotalOrder(MatchOrder(rules))
  {
    var le := MatchOrder(rules);
    forall a: Found, b: Found ensures le(a, b) || le(b, a) {
      StringLeTotal(RuleId(rules, a.origin), RuleId(rules, b.origin));
    }
    forall a: Found, b: Found, c: Found | le(a, b) && le(b, c) ensures le(a, c) {
      MatchOrderTransitive(rules, a, b, c);
    }
  }

  lemma MatchOrderTransitive(rules: seq<MatchRule>, a: Found, b: Found, c: Found)
    requires MatchOrder(rules)(a, b) && MatchOrder(rules)(b, c)
    ensures MatchOrder(rules)(a, c)
  {
    var x, y, z := RuleId(rules, a.origin), RuleId(rules, b.origin), RuleId(rules, c.origin);
    StringLeTotal(x, y);
    StringLeTotal(y, z);
    if StringLe(x, y) && StringLe(y, z) { StringLeTransitive(x, y, z); }
  }

  lemma DetectionOrderIsTotal()
    ensures Sorting.TotalOrder(DetectionOrder())
  {
    var le := DetectionOrder();
    forall a: Detection, b: Detection ensures le(a, b) || le(b, a) { StringLeTotal(a.expression, b.expression); }
    forall a: Detection, b: Detection, c: Detection | le(a, b) && le(b, c) ensures le(a, c) {
      if StringLe(a.expression, b.expression) && StringLe(b.expression, c.expression) {
        StringLeTransitive(a.expression, b.expression, c.expression);
      }
    }
  }

  // Sorting keeps everything -------------------------------------------------------------------------

  function SortedMatches(rules: seq<MatchRule>, d: Detection): Detection {
    d.(matches := Sorting.Sort(MatchOrder(rules), d.matches))
  }

  lemma MatchesSorted(rules: seq<MatchRule>, ms: seq<Found>)
    ensures var sorted := Sorting.Sort(MatchOrder(rules), ms);
      && Sorting.Sorted(MatchOrder(rules), sorted) && multiset(sorted) == multiset(ms) && |sorted| == |ms|
      && forall m :: m in sorted <==> m in ms
  {
    MatchOrderIsTotal(rules);
    Sorting.SortIsSortedPermutation(MatchOrder(rules), ms);
    var sorted := Sorting.Sort(MatchOrder(rules), ms);
    assert |sorted| == |multiset(sorted)| == |ms|;
    forall m ensures m in sorted <==> m in ms { assert m in multiset(sorted) <==> m in multiset(ms); }
  }

  /** A detection with its matches in order, or as it was. */
  ghost predicate SameMatches(a: Detection, b: Detection) {
    && a.expression == b.expression && a.identification == b.identification
    && multiset(a.matches) == multiset(b.matches) && |a.matches| == |b.matches|
    && forall m :: m in a.matches <==> m in b.matches
  }

  /** Every detection has its matches in order. */
  ghost predicate AllInOrder(rules: seq<MatchRule>, ds: seq<Detection>) {
    forall i | 0 <= i < |ds| :: Sorting.Sorted(MatchOrder(rules), ds[i].matches)
  }

  lemma NonEmptyStays(a: Detection, b: Detection)
    requires SameMatches(a, b) && a.matches != [] && NonEmptyMatches(a.matches)
    ensures b.matches != [] && NonEmptyMatches(b.matches)
  {
    forall i | 0 <= i < |b.matches| ensures b.matches[i].start < b.matches[i].end {
      var m := b.matches[i];
      assert m in a.matches;
      var j :| 0 <= j < |a.matches| && a.matches[j] == m;
    }
  }

  /** The same detections in order of their first matches, none lost and none twice. */
  ghost predicate Arranged(before: seq<Detection>, after: seq<Detection>) {
    && Grouped(after) && Sorting.Sorted(DetectionOrder(), after)
    && forall e: string {:trigger DetectionOf(after, e)} ::
         match DetectionOf(before, e)
         case None => DetectionOf(after, e) == None
         case Some(d) => DetectionOf(after, e).Some? && SameMatches(d, DetectionOf(after, e).value)
  }

  lemma PermutedGrouped(before: seq<Detection>, after: seq<Detection>)
    requires Grouped(before) && multiset(before) == multiset(after)
    ensures Grouped(after) && forall e: string :: DetectionOf(before, e) == DetectionOf(after, e)
  {
    forall i | 0 <= i < |after| ensures DetectionOf(before, after[i].expression) == Some(after[i]) {
      ListedIn(before, after, i);
    }
    forall i | 0 <= i < |after| ensures after[i].matches != [] && NonEmptyMatches(after[i].matches) {
      var k := PlaceOf(before, after, i);
    }
    forall i, j | 0 <= i < j < |after| ensures after[i].expression != after[j].expression {
      if after[i] == after[j] {
        ListedOnce(before, after[i]);
        TwiceListed(after, i, j);
      }
    }
    forall e: string ensures DetectionOf(before, e) == DetectionOf(after, e) { SameEntry(before, after, e); }
  }

  lemma PlaceOf(before: seq<Detection>, after: seq<Detection>, i: nat) returns (k: nat)
    requires multiset(before) == multiset(after) && i < |after|
    ensures k < |before| && before[k] == after[i]
  {
    assert after[i] in multiset(before);
    k :| 0 <= k < |before| && before[k] == after[i];
  }

  lemma ListedIn(before: seq<Detection>, after: seq<Detection>, i: nat)
    requires Grouped(before) && multiset(before) == multiset(after) && i < |after|
    ensures DetectionOf(before, after[i].expression) == Some(after[i])
  {
    var k := PlaceOf(before, after, i);
    OwnDetection(before, k);
  }

  lemma TwiceListed(ds: seq<Detection>, i: nat, j: nat)
    requires i < j < |ds| && ds[i] == ds[j]
    ensures multiset(ds)[ds[i]] >= 2
  {
    assert ds == ds[..i] + [ds[i]] + ds[i + 1..j] + [ds[j]] + ds[j + 1..];
  }

  lemma SameEntry(before: seq<Detection>, after: seq<Detection>, e: string)
    requires Grouped(before) && multiset(before) == multiset(after)
    requires forall i | 0 <= i < |after| :: DetectionOf(before, after[i].expression) == Some(after[i])
    ensures DetectionOf(before, e) == DetectionOf(after, e)
  {
    DetectionListed(before, e);
    DetectionListed(after, e);
    match DetectionOf(before, e)
    case Some(d) =>
      assert d in multiset(after);
      var k :| 0 <= k < |after| && after[k] == d;
      var x := DetectionOf(after, e).value;
      var i :| 0 <= i < |after| && after[i] == x;
    case None =>
  }

  /** Sorts the detections by their first matches. */
  method SortDetections(before: seq<Detection>) returns (after: seq<Detection>)
    requires Grouped(before)
    ensures after == Sorting.Sort(DetectionOrder(), before) && multiset(after) == multiset(before)
    ensures Arranged(before, after)
  {
    after := Sorting.Sort(DetectionOrder(), before);
    DetectionOrderIsTotal();
    Sorting.SortIsSortedPermutation(DetectionOrder(), before);
    PermutedGrouped(before, after);
  }

  /** Sorts the matches of every detection. */
  method SortAllMatches(rules: seq<MatchRule>, before: seq<Detection>) returns (after: seq<Detection>)
    requires Grouped(before)
    ensures Grouped(after)
    ensures forall e: string {:trigger DetectionOf(after, e)} ::
      match DetectionOf(before, e)
      case None => DetectionOf(after, e) == None
      case Some(d) => DetectionOf(after, e) == Some(SortedMatches(rules, d))
  {
    after := [];
    for i := 0 to |before|
      invariant MatchesSortedIn(rules, before[..i], after)
    {
      SortOne(rules, before, i, after);
      after := after + [SortedMatches(rules, before[i])];
    }
    assert before[..|before|] == before;
  }

  ghost predicate MatchesSortedIn(rules: seq<MatchRule>, before: seq<Detection>, after: seq<Detection>) {
    && Grouped(after)
    && forall e: string {:trigger DetectionOf(after, e)} ::
         match DetectionOf(before, e)
         case None => DetectionOf(after, e) == None
         case Some(d) => DetectionOf(after, e) == Some(SortedMatches(rules, d))
  }

  lemma SortedSame(rules: seq<MatchRule>, d: Detection)
    ensures SameMatches(d, SortedMatches(rules, d))
  {
    MatchesSorted(rules, d.matches);
  }

  lemma SortOne(rules: seq<MatchRule>, before: seq<Detection>, i: nat, after: seq<Detection>)
    requires Grouped(before) && i < |before| && MatchesSortedIn(rules, before[..i], after)
    ensures MatchesSortedIn(rules, before[..i + 1], after + [SortedMatches(rules, before[i])])
  {
    var d := SortedMatches(rules, before[i]);
    SortedSame(rules, before[i]);
    NonEmptyStays(before[i], d);
    EarlierUnlisted(before, i);
    assert DetectionOf(after, d.expression) == None;
    GroupedMore(after, d);
    forall e: string
      ensures match DetectionOf(before[..i + 1], e)
        case None => DetectionOf(after + [d], e) == None
        case Some(x) => DetectionOf(after + [d], e) == Some(SortedMatches(rules, x))
    {
      DetectionOne(before, i, e);
      DetectionMore(after, d, e);
    }
  }

  lemma SortedInside(rules: seq<MatchRule>, before: seq<Detection>, after: seq<Detection>)
    requires MatchesSortedIn(rules, before, after)
    ensures AllInOrder(rules, after)
  {
    forall i | 0 <= i < |after| ensures Sorting.Sorted(MatchOrder(rules), after[i].matches) {
      OwnDetection(after, i);
      var e := after[i].expression;
      assert DetectionOf(after, e) == Some(SortedMatches(rules, DetectionOf(before, e).value));
      MatchesSorted(rules, DetectionOf(before, e).value.matches);
    }
  }

  lemma PermutedInOrder(rules: seq<MatchRule>, before: seq<Detection>, after: seq<Detection>)
    requires multiset(before) == multiset(after) && AllInOrder(rules, before)
    ensures AllInOrder(rules, after)
  {
    forall i | 0 <= i < |after| ensures Sorting.Sorted(MatchOrder(rules), after[i].matches) {
      var k := PlaceOf(before, after, i);
    }
  }

  /** Sorts everything when the result changed after grouping, otherwise the detections only. */
  method SortResult(rules: seq<MatchRule>, before: ScanResult, changed: bool) returns (after: ScanResult)
    requires Grouped(before.detections)
    ensures Arranged(before.detections, after.detections) && after.declared == before.declared
    ensures multiset(after.clues) == multiset(before.clues)
    ensures changed || AllInOrder(rules, before.detections) ==> AllInOrder(rules, after.detections)
    ensures changed ==> Sorting.Sorted(MatchOrder(rules), after.clues)
    ensures !changed ==> after.clues == before.clues && multiset(after.detections) == multiset(before.detections)
  {
    if changed {
      var sorted := SortAllMatches(rules, before.detections);
      var detections := SortDetections(sorted);
      MatchesSorted(rules, before.clues);
      ArrangedAfterMatches(rules, before.detections, sorted, detections);
      SortedInside(rules, before.detections, sorted);
      PermutedInOrder(rules, sorted, detections);
      after := ScanResult(detections, Sorting.Sort(MatchOrder(rules), before.clues), before.declared);
    } else {
      var detections := SortDetections(before.detections);
      if AllInOrder(rules, before.detections) { PermutedInOrder(rules, before.detections, detections); }
      after := before.(detections := detections);
    }
  }

  lemma ArrangedAfterMatches(rules: seq<MatchRule>, before: seq<Detection>, sorted: seq<Detection>,
                             after: seq<Detection>)
    requires MatchesSortedIn(rules, before, sorted) && Arranged(sorted, after)
    ensures Arranged(before, after)
  {
    forall e: string
      ensures match DetectionOf(before, e)
        case None => DetectionOf(after, e) == None
        case Some(d) => DetectionOf(after, e).Some? && SameMatches(d, DetectionOf(after, e).value)
    {
      assert match DetectionOf(before, e)
        case None => DetectionOf(sorted, e) == None
        case Some(d) => DetectionOf(sorted, e) == Some(SortedMatches(rules, d));
      if DetectionOf(before, e).Some? { SortedSame(rules, DetectionOf(before, e).value); }
    }
  }

  /** The order in which pending expressions were appended does not show. */
  lemma AppendOrderIrrelevant(a: seq<Detection>, b: seq<Detection>)
    requires Grouped(a) && Grouped(b) && forall e: string :: DetectionOf(a, e) == DetectionOf(b, e)
    ensures Sorting.Sort(DetectionOrder(), a) == Sorting.Sort(DetectionOrder(), b)
  {
    SameDetections(a, b);
    DetectionOrderIsTotal();
    var s, t := Sorting.Sort(DetectionOrder(), a), Sorting.Sort(DetectionOrder(), b);
    Sorting.SortIsSortedPermutation(DetectionOrder(), a);
    Sorting.SortIsSortedPermutation(DetectionOrder(), b);
    PermutedGrouped(a, s);
    forall x, y | x in s && y in s && DetectionOrder()(x, y) && DetectionOrder()(y, x) ensures x == y {
      StringLeTotal(x.expression, y.expression);
      var i :| 0 <= i < |s| && s[i] == x;
      var j :| 0 <= j < |s| && s[j] == y;
    }
    Sorting.SortedUnique(DetectionOrder(), s, t);
  }

  // Order, field by field ---------------------------------------------------------------------------

  /** The rule's identifier; a tag has one of its own. */
  ghost predicate Named(rules: seq<MatchRule>, m: Found, name: string) {
    match m.origin
    case OfTag => name == "spdx-license-identifier"
    case OfRule(rule, _) => name == if rule < |rules| then rules[rule].id else ""
  }

  /** Of two matches with the same range and rule, an exact one comes before one by hash, and a tag last. */
  ghost predicate MethodsInOrder(a: Origin, b: Origin) {
    && (a.OfTag? ==> b.OfTag?)
    && (a.OfRule? && b.OfRule? && b.how == Exact ==> a.how == Exact)
  }

  /** By start, then end, then the rule's identifier, then method. */
  ghost predicate Precedes(rules: seq<MatchRule>, a: Found, b: Found) {
    && a.start <= b.start && (a.start == b.start ==> a.end <= b.end)
    && forall x, y | Named(rules, a, x) && Named(rules, b, y) && a.start == b.start && a.end == b.end ::
         StringLe(x, y) && (x == y ==> MethodsInOrder(a.origin, b.origin))
  }

  ghost predicate MatchesInOrder(rules: seq<MatchRule>, ms: seq<Found>) {
    forall i, j | 0 <= i < j < |ms| :: Precedes(rules, ms[i], ms[j])
  }

  lemma SortedMatchesInOrder(rules: seq<MatchRule>, ms: seq<Found>)
    requires Sorting.Sorted(MatchOrder(rules), ms)
    ensures MatchesInOrder(rules, ms)
  {
    forall i, j | 0 <= i < j < |ms| ensures Precedes(rules, ms[i], ms[j]) {
      assert MatchOrder(rules)(ms[i], ms[j]);
      InOrderPrecedes(rules, ms[i], ms[j]);
    }
  }

  lemma InOrderPrecedes(rules: seq<MatchRule>, a: Found, b: Found)
    requires MatchOrder(rules)(a, b)
    ensures Precedes(rules, a, b)
  {
    StringLeTotal(RuleId(rules, a.origin), RuleId(rules, b.origin));
    forall x, y | Named(rules, a, x) && Named(rules, b, y)
      ensures x == RuleId(rules, a.origin) && y == RuleId(rules, b.origin)
    {
    }
  }

  /** Detections by where their first matches start, then by expression, and all matches in order. */
  ghost predicate ResultInOrder(rules: seq<MatchRule>, r: ScanResult) {
    && (forall i | 0 <= i < |r.detections| ::
          r.detections[i].matches != [] && MatchesInOrder(rules, r.detections[i].matches))
    && (forall i, j | 0 <= i < j < |r.detections| ::
          var a, b := r.detections[i], r.detections[j];
          && a.matches[0].start <= b.matches[0].start
          && (a.matches[0].start == b.matches[0].start ==> StringLe(a.expression, b.expression)))
    && MatchesInOrder(rules, r.clues)
  }

  lemma SortedResult(rules: seq<MatchRule>, r: ScanResult)
    requires Grouped(r.detections) && AllInOrder(rules, r.detections)
    requires Sorting.Sorted(DetectionOrder(), r.detections) && Sorting.Sorted(MatchOrder(rules), r.clues)
    ensures ResultInOrder(rules, r)
  {
    SortedMatchesInOrder(rules, r.clues);
    forall i | 0 <= i < |r.detections| ensures MatchesInOrder(rules, r.detections[i].matches) {
      SortedMatchesInOrder(rules, r.detections[i].matches);
    }
    forall i, j | 0 <= i < j < |r.detections|
      ensures r.detections[i].matches[0].start <= r.detections[j].matches[0].start
      ensures r.detections[i].matches[0].start == r.detections[j].matches[0].start
        ==> StringLe(r.detections[i].expression, r.detections[j].expression)
    {
      assert DetectionOrder()(r.detections[i], r.detections[j]);
    }
  }
}
