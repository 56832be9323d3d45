/** One pass over the tags of a text: which are declared, which are cut off, which already have a match. */
module SpdxSweep {
  import opened Detections
  import opened SpdxText

  const MAX_EXPRESSION_BYTES: nat := 1024

  datatype Span = Span(start: nat, end: nat)

  datatype Declaration = Declaration(anchor: nat, start: nat, end: nat, covered: bool)

  /** A parsed expression with its identifiers; an expression that is rejected is empty. */
  datatype Normalized = Normalized(expression: string, identifiers: seq<string>, identification: Identification)

  /** A tag expression as declared, from the tag alone. */
  datatype Declared = Declared(license: Normalized, anchor: nat, end: nat)

  /** A tag the sweep came to: its expression, possibly empty, and whether that was cut off. */
  datatype Visit = Visit(anchor: nat, tagEnd: nat, start: nat, end: nat, complete: bool)

  // Coverage ------------------------------------------------------------------------------------

  ghost predicate ByStart(coverage: seq<Span>) {
    forall i, j | 0 <= i < j < |coverage| :: coverage[i].start <= coverage[j].start
  }

  /** One detected match spans the whole range. */
  ghost predicate Covered(coverage: seq<Span>, start: nat, end: nat) {
    exists i :: 0 <= i < |coverage| && coverage[i].start <= start && end <= coverage[i].end
  }

  /** The furthest end of the first `next` spans, which are those starting by `start`. */
  ghost predicate Reaching(coverage: seq<Span>, next: nat, coveredEnd: nat, start: int) {
    && next <= |coverage|
    && (forall i | 0 <= i < next :: coverage[i].start <= start && coverage[i].end <= coveredEnd)
    && (coveredEnd == 0 || exists i :: 0 <= i < next && coverage[i].end == coveredEnd)
  }

  /** Moves on to the spans that start by `start`. */
  method Advance(coverage: seq<Span>, next0: nat, coveredEnd0: nat, ghost previous: int, start: nat)
    returns (next: nat, coveredEnd: nat)
    requires ByStart(coverage) && Reaching(coverage, next0, coveredEnd0, previous) && previous <= start
    ensures Reaching(coverage, next, coveredEnd, start)
    ensures forall end: nat | end > 0 :: coveredEnd >= end <==> Covered(coverage, start, end)
  {
    next, coveredEnd := next0, coveredEnd0;
    while next < |coverage| && coverage[next].start <= start
      invariant Reaching(coverage, next, coveredEnd, start)
    {
      coveredEnd := if coverage[next].end > coveredEnd then coverage[next].end else coveredEnd;
      next := next + 1;
    }
  }

  // What the sweep comes to ------------------------------------------------------------------------

  /** The next tag, up to which a cut-off expression is read. */
  ghost predicate NextTagAt(input: Bytes, from: nat, next: nat) {
    from <= next <= |input| && NoTag(input, from, next) && (next < |input| ==> TagEnd(input, next) >= 0)
  }

  /** The expression is read up to the byte limit, or when that cuts it off, up to the next tag. */
  ghost predicate VisitOk(input: Bytes, v: Visit) {
    && TagEnd(input, v.anchor) == v.tagEnd && v.tagEnd <= v.start <= v.end <= |input|
    && if v.complete then SpanOf(input, v.tagEnd, 1024, v.start, v.end, true)
       else
         && (exists s: nat, e: nat :: SpanOf(input, v.tagEnd, 1024, s, e, false))
         && exists next: nat :: NextTagAt(input, v.tagEnd, next) && SpanBefore(input, v, next)
  }

  ghost predicate SpanBefore(input: Bytes, v: Visit, next: nat) {
    v.tagEnd <= next && (SpanOf(input, v.tagEnd, next - v.tagEnd, v.start, v.end, true)
                         || SpanOf(input, v.tagEnd, next - v.tagEnd, v.start, v.end, false))
  }

  /** Where the sweep goes on after a tag. */
  function Past(v: Visit): nat {
    if v.end > v.tagEnd then v.end else v.tagEnd
  }

  /** Tags come in order and apart from each other. */
  ghost predicate VisitsRise(input: Bytes, visits: seq<Visit>, offset: nat) {
    && (forall i | 0 <= i < |visits| :: VisitOk(input, visits[i]) && visits[i].anchor < Past(visits[i]) <= offset)
    && forall i, j | 0 <= i < j < |visits| :: Past(visits[i]) <= visits[j].anchor
  }

  /** Every tag before `offset` was come to, or lies inside one that was. */
  ghost predicate AllVisited(input: Bytes, visits: seq<Visit>, offset: nat) {
    forall at: nat {:trigger TagEnd(input, at)} | at < offset && TagEnd(input, at) >= 0 ::
      exists i :: 0 <= i < |visits| && visits[i].anchor <= at < Past(visits[i])
  }

  /** What one tag adds. */
  datatype Verdict = Ignored | CutOff | Declares(license: Normalized, covered: bool)

  ghost function Judge(input: Bytes, coverage: seq<Span>, normalize: Bytes -> Normalized, v: Visit): Verdict
    requires VisitOk(input, v)
  {
    var covered := Covered(coverage, v.start, v.end);
    if v.start >= v.end then Ignored
    else if !v.complete && !covered then CutOff
    else
      var license := normalize(input[v.start..v.end]);
      if license.expression == "" then Ignored else Declares(license, covered)
  }

  /** Everything the sweep records. */
  datatype Swept = Swept(declarations: seq<Declaration>, cutOff: seq<Span>, declared: seq<Declared>,
                         additions: seq<Declared>)

  function Add(s: Swept, v: Visit, verdict: Verdict): Swept {
    match verdict
    case Ignored => s
    case CutOff => s.(cutOff := s.cutOff + [Span(v.anchor, v.end)])
    case Declares(license, covered) =>
      var entry := Declared(license, v.anchor, v.end);
      s.(declarations := s.declarations + [Declaration(v.anchor, v.start, v.end, covered)],
         declared := s.declared + [entry],
         additions := if covered then s.additions else s.additions + [entry])
  }

  /** What all visits together record. */
  ghost function Recorded(input: Bytes, coverage: seq<Span>, normalize: Bytes -> Normalized, visits: seq<Visit>): Swept
    requires forall i | 0 <= i < |visits| :: VisitOk(input, visits[i])
  {
    if visits == [] then Swept([], [], [], [])
    else
      var n := |visits| - 1;
      Add(Recorded(input, coverage, normalize, visits[..n]), visits[n], Judge(input, coverage, normalize, visits[n]))
  }

  /** Reads the expression of the tag at an anchor. */
  method VisitTag(input: Bytes, anchor: nat, tagEnd: nat) returns (v: Visit)
    requires TagEnd(input, anchor) == tagEnd
    ensures VisitOk(input, v) && v.anchor == anchor && v.tagEnd == tagEnd
  {
    var start, end, complete := ExpressionSpanWithin(input, tagEnd, MAX_EXPRESSION_BYTES);
    v := Visit(anchor, tagEnd, start, end, complete);
    if !complete {
      ghost var s, e := start, end;
      var next := NextSPDXTag(input, tagEnd);
      var ended;
      start, end, ended := ExpressionSpanWithin(input, tagEnd, next - tagEnd);
      v := Visit(anchor, tagEnd, start, end, complete);
      assert SpanOf(input, tagEnd, MAX_EXPRESSION_BYTES, s, e, false);
      assert NextTagAt(input, tagEnd, next) && SpanBefore(input, v, next);
    }
  }

  /** Where the sweep stands. */
  ghost predicate Sweeping(input: Bytes, coverage: seq<Span>, normalize: Bytes -> Normalized, visits: seq<Visit>,
                           offset: nat, next: nat, coveredEnd: nat, swept: Swept) {
    && VisitsRise(input, visits, offset) && AllVisited(input, visits, offset)
    && Reaching(coverage, next, coveredEnd, offset) && swept == Recorded(input, coverage, normalize, visits)
  }

  lemma SkipTo(input: Bytes, coverage: seq<Span>, normalize: Bytes -> Normalized, visits: seq<Visit>, offset: nat,
               next: nat, coveredEnd: nat, swept: Swept, to: nat)
    requires Sweeping(input, coverage, normalize, visits, offset, next, coveredEnd, swept) && offset <= to
      && NoTag(input, offset, to)
    ensures Sweeping(input, coverage, normalize, visits, to, next, coveredEnd, swept)
  {
  }

  lemma SweepStart(input: Bytes, coverage: seq<Span>, normalize: Bytes -> Normalized)
    ensures Sweeping(input, coverage, normalize, [], 0, 0, 0, Swept([], [], [], []))
  {
  }

  lemma VisitRises(input: Bytes, visits: seq<Visit>, offset: nat, v: Visit)
    requires VisitsRise(input, visits, offset) && VisitOk(input, v) && offset <= v.anchor
    ensures VisitsRise(input, visits + [v], Past(v))
  {
  }

  lemma VisitOne(input: Bytes, visits: seq<Visit>, v: Visit)
    requires AllVisited(input, visits, v.anchor)
    ensures AllVisited(input, visits + [v], Past(v))
  {
    var more := visits + [v];
    forall at: nat | at < Past(v) && TagEnd(input, at) >= 0
      ensures exists i :: 0 <= i < |more| && more[i].anchor <= at < Past(more[i])
    {
      if at < v.anchor {
        var i :| 0 <= i < |visits| && visits[i].anchor <= at < Past(visits[i]);
        assert more[i] == visits[i];
      } else {
        assert more[|visits|] == v;
      }
    }
  }

  lemma RecordOne(input: Bytes, coverage: seq<Span>, normalize: Bytes -> Normalized, visits: seq<Visit>, v: Visit)
    requires (forall i | 0 <= i < |visits| :: VisitOk(input, visits[i])) && VisitOk(input, v)
    ensures Recorded(input, coverage, normalize, visits + [v])
         == Add(Recorded(input, coverage, normalize, visits), v, Judge(input, coverage, normalize, v))
  {
    assert (visits + [v])[..|visits|] == visits;
  }

  /** Judges one tag with the running coverage. */
  method JudgeTag(input: Bytes, coverage: seq<Span>, normalize: Bytes -> Normalized, v: Visit, next0: nat,
                  coveredEnd0: nat, ghost previous: int)
    returns (verdict: Verdict, next: nat, coveredEnd: nat)
    requires VisitOk(input, v) && ByStart(coverage) && Reaching(coverage, next0, coveredEnd0, previous)
      && previous <= v.anchor
    ensures verdict == Judge(input, coverage, normalize, v)
    ensures Reaching(coverage, next, coveredEnd, Past(v))
  {
    if v.start >= v.end {
      return Ignored, next0, coveredEnd0;
    }
    next, coveredEnd := Advance(coverage, next0, coveredEnd0, previous, v.start);
    var covered := coveredEnd >= v.end;
    if !v.complete && !covered {
      return CutOff, next, coveredEnd;
    }
    var license := normalize(input[v.start..v.end]);
    if license.expression == "" {
      return Ignored, next, coveredEnd;
    }
    verdict := Declares(license, covered);
  }

  /** Visits the tag at an anchor. */
  method SweepOne(input: Bytes, coverage: seq<Span>, normalize: Bytes -> Normalized, anchor: nat, tagEnd: nat,
                  swept0: Swept, next0: nat, coveredEnd0: nat, ghost visits0: seq<Visit>)
    returns (swept: Swept, next: nat, coveredEnd: nat, offset: nat, ghost visits: seq<Visit>)
    requires ByStart(coverage) && TagEnd(input, anchor) == tagEnd
    requires Sweeping(input, coverage, normalize, visits0, anchor, next0, coveredEnd0, swept0)
    ensures anchor < offset <= |input| && Sweeping(input, coverage, normalize, visits, offset, next, coveredEnd, swept)
  {
    var v := VisitTag(input, anchor, tagEnd);
    var verdict;
    verdict, next, coveredEnd := JudgeTag(input, coverage, normalize, v, next0, coveredEnd0, anchor);
    VisitRises(input, visits0, anchor, v);
    VisitOne(input, visits0, v);
    RecordOne(input, coverage, normalize, visits0, v);
    swept, visits, offset := Add(swept0, v, verdict), visits0 + [v], Past(v);
  }

  /** A finished sweep: every tag visited or inside one that was, in order and apart, and recorded as judged. */
  ghost predicate Complete(input: Bytes, coverage: seq<Span>, normalize: Bytes -> Normalized, visits: seq<Visit>,
                           swept: Swept) {
    && VisitsRise(input, visits, |input|) && AllVisited(input, visits, |input|)
    && swept == Recorded(input, coverage, normalize, visits)
  }

  lemma SweepEnd(input: Bytes, coverage: seq<Span>, normalize: Bytes -> Normalized, visits: seq<Visit>, offset: nat,
                 next: nat, coveredEnd: nat, swept: Swept)
    requires Sweeping(input, coverage, normalize, visits, offset, next, coveredEnd, swept) && offset == |input|
    ensures Complete(input, coverage, normalize, visits, swept)
  {
  }

  /** Visits every tag once, in order; a tag inside another's expression is not visited. */
  method SweepTags(input: Bytes, coverage: seq<Span>, normalize: Bytes -> Normalized) returns (swept: Swept)
    requires ByStart(coverage)
    ensures exists visits :: Complete(input, coverage, normalize, visits, swept)
  {
    swept := Swept([], [], [], []);
    ghost var visits: seq<Visit> := [];
    var next: nat, coveredEnd: nat, offset: nat := 0, 0, 0;
    SweepStart(input, coverage, normalize);
    while offset < |input|
      invariant offset <= |input| && Sweeping(input, coverage, normalize, visits, offset, next, coveredEnd, swept)
      decreases |input| - offset
    {
      var anchor := IndexSPDXAnchor(input, offset);
      NoAnchorNoTag(input, offset, if anchor >= 0 then anchor else |input|);
      SkipTo(input, coverage, normalize, visits, offset, next, coveredEnd, swept,
             if anchor >= 0 then anchor else |input|);
      if anchor < 0 {
        offset := |input|;
        break;
      }
      var tagEnd := TagEnd(input, anchor);
      if tagEnd < 0 {
        SkipTo(input, coverage, normalize, visits, anchor, next, coveredEnd, swept, anchor + 1);
        offset := anchor + 1;
        continue;
      }
      swept, next, coveredEnd, offset, visits :=
        SweepOne(input, coverage, normalize, anchor, tagEnd, swept, next, coveredEnd, visits);
    }
    SweepEnd(input, coverage, normalize, visits, offset, next, coveredEnd, swept);
  }

  // The recorded ranges are sorted ----------------------------------------------------------------------

  ghost predicate DeclarationsRise(ds: seq<Declaration>, to: nat) {
    && (forall i | 0 <= i < |ds| :: ds[i].anchor < ds[i].start < ds[i].end <= to)
    && forall i, j | 0 <= i < j < |ds| :: ds[i].end <= ds[j].anchor
  }

  ghost predicate SpansRise(spans: seq<Span>, to: nat) {
    && (forall i | 0 <= i < |spans| :: spans[i].start < spans[i].end <= to)
    && forall i, j | 0 <= i < j < |spans| :: spans[i].end <= spans[j].start
  }

  lemma AddRises(s: Swept, v: Visit, verdict: Verdict)
    requires DeclarationsRise(s.declarations, v.anchor) && SpansRise(s.cutOff, v.anchor)
    requires !verdict.Ignored? ==> v.anchor < v.tagEnd <= v.start < v.end
    ensures DeclarationsRise(Add(s, v, verdict).declarations, if v.anchor < Past(v) then Past(v) else v.anchor)
    ensures SpansRise(Add(s, v, verdict).cutOff, if v.anchor < Past(v) then Past(v) else v.anchor)
  {
  }

  lemma RiseFurther(s: Swept, to: nat, further: nat)
    requires DeclarationsRise(s.declarations, to) && SpansRise(s.cutOff, to) && to <= further
    ensures DeclarationsRise(s.declarations, further) && SpansRise(s.cutOff, further)
  {
  }

  /** Declared and cut-off tags have disjoint, increasing ranges. */
  lemma {:induction false} RecordedRises(input: Bytes, coverage: seq<Span>, normalize: Bytes -> Normalized,
                                         visits: seq<Visit>, offset: nat)
    requires VisitsRise(input, visits, offset)
    ensures DeclarationsRise(Recorded(input, coverage, normalize, visits).declarations, offset)
    ensures SpansRise(Recorded(input, coverage, normalize, visits).cutOff, offset)
    decreases |visits|
  {
    if visits == [] {
    } else {
      var n := |visits| - 1;
      var v := visits[n];
      assert VisitsRise(input, visits[..n], v.anchor);
      RecordedRises(input, coverage, normalize, visits[..n], v.anchor);
      var s := Recorded(input, coverage, normalize, visits[..n]);
      AddRises(s, v, Judge(input, coverage, normalize, v));
      RiseFurther(Recorded(input, coverage, normalize, visits), Past(v), offset);
    }
  }
}
