/** The SPDX stage of a match: sweep the tags, then replace what they declare. */
module SpdxMatch {
  import opened SpdxText
  import opened SpdxSweep
  import opened SpdxResult
  import opened Detections
  import opened ExactMatches
  import Sorting

  function SpansOf(ms: seq<Found>): seq<Span> {
    seq(|ms|, i requires 0 <= i < |ms| => Span(ms[i].start, ms[i].end))
  }

  function SpansIn(ds: seq<Detection>): seq<Span> {
    if ds == [] then [] else SpansIn(ds[..|ds| - 1]) + SpansOf(ds[|ds| - 1].matches)
  }

  function StartOrder(): (Span, Span) -> bool {
    (a: Span, b: Span) => a.start <= b.start
  }

  /** Some detected match spans the whole range. */
  ghost predicate SomeMatchSpans(ds: seq<Detection>, start: nat, end: nat) {
    exists i, k :: 0 <= i < |ds| && 0 <= k < |ds[i].matches| && ds[i].matches[k].start <= start
      && end <= ds[i].matches[k].end
  }

  lemma {:induction false} SpansCover(ds: seq<Detection>, start: nat, end: nat)
    ensures Covered(SpansIn(ds), start, end) <==> SomeMatchSpans(ds, start, end)
  {
    if ds == [] {
    } else {
      var n := |ds| - 1;
      var before, here := SpansIn(ds[..n]), SpansOf(ds[n].matches);
      SpansCover(ds[..n], start, end);
      CoveredConcat(before, here, start, end);
      if Covered(here, start, end) {
        var k :| 0 <= k < |here| && here[k].start <= start && end <= here[k].end;
        assert ds[n].matches[k].start <= start && end <= ds[n].matches[k].end;
      }
      if SomeMatchSpans(ds[..n], start, end) {
        var i, k :| 0 <= i < n && 0 <= k < |ds[..n][i].matches| && ds[..n][i].matches[k].start <= start
          && end <= ds[..n][i].matches[k].end;
        assert ds[i].matches[k].start <= start;
      }
      if SomeMatchSpans(ds, start, end) {
        var i, k :| 0 <= i < |ds| && 0 <= k < |ds[i].matches| && ds[i].matches[k].start <= start
          && end <= ds[i].matches[k].end;
        if i < n { assert ds[..n][i] == ds[i]; } else { assert here[k].start <= start && end <= here[k].end; }
      }
    }
  }

  lemma CoveredConcat(a: seq<Span>, b: seq<Span>, start: nat, end: nat)
    ensures Covered(a + b, start, end) <==> Covered(a, start, end) || Covered(b, start, end)
  {
    if Covered(a, start, end) {
      var i :| 0 <= i < |a| && a[i].start <= start && end <= a[i].end;
      assert (a + b)[i] == a[i];
    }
    if Covered(b, start, end) {
      var i :| 0 <= i < |b| && b[i].start <= start && end <= b[i].end;
      assert (a + b)[|a| + i] == b[i];
    }
  }

  lemma SortedCovers(spans: seq<Span>, start: nat, end: nat)
    ensures ByStart(Sorting.Sort(StartOrder(), spans))
    ensures Covered(Sorting.Sort(StartOrder(), spans), start, end) <==> Covered(spans, start, end)
  {
    var sorted := Sorting.Sort(StartOrder(), spans);
    Sorting.SortIsSortedPermutation(StartOrder(), spans);
    forall i, j | 0 <= i < j < |sorted| ensures sorted[i].start <= sorted[j].start {
      assert StartOrder()(sorted[i], sorted[j]);
    }
    SameElementsCover(spans, sorted, start, end);
    SameElementsCover(sorted, spans, start, end);
  }

  lemma SameElementsCover(a: seq<Span>, b: seq<Span>, start: nat, end: nat)
    requires multiset(a) == multiset(b)
    ensures Covered(a, start, end) ==> Covered(b, start, end)
  {
    if Covered(a, start, end) {
      var i :| 0 <= i < |a| && a[i].start <= start && end <= a[i].end;
      assert a[i] in multiset(b);
      var j :| 0 <= j < |b| && b[j] == a[i];
    }
  }

  /** The spans of all detected matches, by start. */
  method MatchSpans(ds: seq<Detection>) returns (coverage: seq<Span>)
    ensures ByStart(coverage)
    ensures forall start: nat, end: nat {:trigger Covered(coverage, start, end)} ::
              Covered(coverage, start, end) <==> SomeMatchSpans(ds, start, end)
  {
    var spans: seq<Span> := [];
    for i := 0 to |ds|
      invariant spans == SpansIn(ds[..i])
    {
      assert ds[..i + 1][..i] == ds[..i];
      spans := spans + SpansOf(ds[i].matches);
    }
    assert ds[..|ds|] == ds;
    coverage := Sorting.Sort(StartOrder(), spans);
    forall start: nat, end: nat ensures Covered(coverage, start, end) <==> SomeMatchSpans(ds, start, end) {
      SortedCovers(spans, start, end);
      SpansCover(ds, start, end);
    }
    SortedCovers(spans, 0, 0);
  }

  function CutOffClues(spans: seq<Span>): seq<Found> {
    seq(|spans|, i requires 0 <= i < |spans| => Found(OfTag, [], Clue, 0, spans[i].start, spans[i].end))
  }

  lemma AdditionsHaveLength(input: Bytes, coverage: seq<Span>, normalize: Bytes -> Normalized, visits: seq<Visit>,
                            offset: nat)
    requires VisitsRise(input, visits, offset)
    ensures forall i | 0 <= i < |Recorded(input, coverage, normalize, visits).additions| ::
      var d := Recorded(input, coverage, normalize, visits).additions[i]; d.anchor < d.end
    decreases |visits|
  {
    if visits == [] {
    } else {
      var n := |visits| - 1;
      assert VisitsRise(input, visits[..n], visits[n].anchor);
      AdditionsHaveLength(input, coverage, normalize, visits[..n], visits[n].anchor);
    }
  }

  /** The new result: per expression the matches no declaration replaces, then its tags that no match covers. */
  ghost predicate Replaced(before: ScanResult, swept: Swept, after: ScanResult) {
    var keep := Unsuperseded(swept.declarations, swept.cutOff);
    && Grouped(after.detections)
    && (forall e: string {:trigger DetectionOf(after.detections, e)} :: DetectionOf(after.detections, e)
          == Merged(Remaining(keep, DetectionOf(before.detections, e)), AdditionFor(swept.additions, e)))
    && after.clues == Filter(keep, before.clues) + CutOffClues(swept.cutOff)
    && after.declared == before.declared + swept.declared
  }

  /** The stage swept the tags against the spans of the detected matches and replaced what they declare. */
  ghost predicate Swapped(input: Bytes, before: ScanResult, normalize: Bytes -> Normalized, after: ScanResult,
                          coverage: seq<Span>, swept: Swept, visits: seq<Visit>) {
    && (forall start: nat, end: nat {:trigger Covered(coverage, start, end)} ::
          Covered(coverage, start, end) <==> SomeMatchSpans(before.detections, start, end))
    && Complete(input, coverage, normalize, visits, swept) && Replaced(before, swept, after)
  }

  /** Complete declarations replace their parts; tags cut off without a covering match become clues. */
  method MatchSPDXTags(input: Bytes, before: ScanResult, normalize: Bytes -> Normalized) returns (after: ScanResult)
    requires Grouped(before.detections) && NonEmptyMatches(before.clues)
    ensures exists coverage, swept, visits :: Swapped(input, before, normalize, after, coverage, swept, visits)
  {
    var coverage := MatchSpans(before.detections);
    var swept := SweepTags(input, coverage, normalize);
    ghost var visits :| Complete(input, coverage, normalize, visits, swept);
    after := Replace(before, swept, input, coverage, normalize, visits);
    assert Swapped(input, before, normalize, after, coverage, swept, visits);
  }

  /** Removes, then adds. */
  method Replace(before: ScanResult, swept: Swept, ghost input: Bytes, ghost coverage: seq<Span>,
                 ghost normalize: Bytes -> Normalized, ghost visits: seq<Visit>) returns (after: ScanResult)
    requires Grouped(before.detections) && NonEmptyMatches(before.clues)
      && Complete(input, coverage, normalize, visits, swept)
    ensures Replaced(before, swept, after)
  {
    RecordedRises(input, coverage, normalize, visits, |input|);
    AdditionsHaveLength(input, coverage, normalize, visits, |input|);
    var detections := RemoveMatches(before.detections, swept.declarations, swept.cutOff, |input|);
    var clues := KeepUnsuperseded(before.clues, swept.declarations, swept.cutOff, |input|);
    var pending := BuildPending(swept.additions);
    var merged := MergePending(detections, pending);
    after := ScanResult(merged, clues + CutOffClues(swept.cutOff), before.declared + swept.declared);
    forall e: string
      ensures DetectionOf(merged, e) == Merged(Remaining(Unsuperseded(swept.declarations, swept.cutOff),
                                                         DetectionOf(before.detections, e)),
                                               AdditionFor(swept.additions, e))
    {
      assert PendingFor(pending, e) == AdditionFor(swept.additions, e);
      assert DetectionOf(detections, e) == Remaining(Unsuperseded(swept.declarations, swept.cutOff),
                                                     DetectionOf(before.detections, e));
    }
  }
}
