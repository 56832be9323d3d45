/** What a sweep does to the detected matches: parts of declarations go, declarations come in. */
module SpdxResult {
  import opened SpdxSweep
  import opened Detections
  import opened ExactMatches
  import opened Options
  import opened Sequences

  datatype ScanResult = ScanResult(detections: seq<Detection>, clues: seq<Found>, declared: seq<Declared>)

  // Which matches a declaration replaces -------------------------------------------------------------

  /** The match lies in a declared tag, and is not just the covered expression itself. */
  predicate Inside(m: Found, d: Declaration) {
    d.anchor <= m.start && m.end <= d.end && (!d.covered || d.start < m.start || m.end < d.end)
  }

  ghost predicate Superseded(m: Found, declarations: seq<Declaration>, cutOff: seq<Span>) {
    || (exists i :: 0 <= i < |cutOff| && cutOff[i].start <= m.start < cutOff[i].end)
    || (exists i :: 0 <= i < |declarations| && Inside(m, declarations[i]))
  }

  /** One binary search decides whether an offset falls inside some span. */
  method SpanContains(spans: seq<Span>, offset: nat, ghost to: nat) returns (contains: bool)
    requires SpansRise(spans, to)
    ensures contains <==> exists i :: 0 <= i < |spans| && spans[i].start <= offset < spans[i].end
  {
    var low, high := 0, |spans|;
    while low < high
      invariant 0 <= low <= high <= |spans|
      invariant forall i | 0 <= i < low :: spans[i].end <= offset
      invariant forall i | high <= i < |spans| :: offset < spans[i].end
    {
      var middle := low + (high - low) / 2;
      if spans[middle].end > offset { high := middle; } else { low := middle + 1; }
    }
    contains := low < |spans| && offset >= spans[low].start;
  }

  /** The first declaration ending at or past the match decides for all of them. */
  method SupersededBySPDX(m: Found, declarations: seq<Declaration>, cutOff: seq<Span>, ghost to: nat)
    returns (superseded: bool)
    requires m.start < m.end && DeclarationsRise(declarations, to) && SpansRise(cutOff, to)
    ensures superseded <==> Superseded(m, declarations, cutOff)
  {
    var contained := SpanContains(cutOff, m.start, to);
    if contained {
      return true;
    }
    var low, high := 0, |declarations|;
    while low < high
      invariant 0 <= low <= high <= |declarations|
      invariant forall i | 0 <= i < low :: declarations[i].end < m.end
      invariant forall i | high <= i < |declarations| :: m.end <= declarations[i].end
    {
      var middle := low + (high - low) / 2;
      if declarations[middle].end >= m.end { high := middle; } else { low := middle + 1; }
    }
    if low == |declarations| {
      return false;
    }
    var d := declarations[low];
    superseded := m.start >= d.anchor && (!d.covered || m.start > d.start || m.end < d.end);
  }

  // Removing ------------------------------------------------------------------------------------------

  ghost function Unsuperseded(declarations: seq<Declaration>, cutOff: seq<Span>): Found -> bool {
    (m: Found) => !Superseded(m, declarations, cutOff)
  }

  method KeepUnsuperseded(ms: seq<Found>, declarations: seq<Declaration>, cutOff: seq<Span>, ghost to: nat)
    returns (kept: seq<Found>)
    requires NonEmptyMatches(ms) && DeclarationsRise(declarations, to) && SpansRise(cutOff, to)
    ensures kept == Filter(Unsuperseded(declarations, cutOff), ms)
  {
    kept := [];
    for i := 0 to |ms|
      invariant kept == Filter(Unsuperseded(declarations, cutOff), ms[..i])
    {
      FilterOne(Unsuperseded(declarations, cutOff), ms, i);
      var superseded := SupersededBySPDX(ms[i], declarations, cutOff, to);
      if !superseded {
        kept := kept + [ms[i]];
      }
    }
    assert ms[..|ms|] == ms;
  }

  /** Deletes superseded matches, and detections left without any. */
  method RemoveMatches(before: seq<Detection>, declarations: seq<Declaration>, cutOff: seq<Span>, ghost to: nat)
    returns (after: seq<Detection>)
    requires Grouped(before) && DeclarationsRise(declarations, to) && SpansRise(cutOff, to)
    ensures Removed(before, after, Unsuperseded(declarations, cutOff))
  {
    after := [];
    for i := 0 to |before|
      invariant Removed(before[..i], after, Unsuperseded(declarations, cutOff))
    {
      var kept := KeepUnsuperseded(before[i].matches, declarations, cutOff, to);
      RemoveOne(before, i, after, Unsuperseded(declarations, cutOff), kept);
      if |kept| != 0 {
        after := after + [before[i].(matches := kept)];
      }
    }
    assert before[..|before|] == before;
  }

  // Adding --------------------------------------------------------------------------------------------

  function TagMatch(d: Declared): Found {
    Found(OfTag, d.license.identifiers, Tag, FULL_SCORE, d.anchor, d.end)
  }

  /** A detection with one more tag, or the first tag's own detection. */
  function WithTag(before: Option<Detection>, d: Declared): Detection {
    match before
    case None => Detection(d.license.expression, d.license.identification, [TagMatch(d)])
    case Some(detection) => detection.(matches := detection.matches + [TagMatch(d)])
  }

  /** The detection that the added tags of an expression make, identified as the first of them. */
  function AdditionFor(additions: seq<Declared>, expression: string): Option<Detection> {
    if additions == [] then None
    else
      var last := additions[|additions| - 1];
      var before := AdditionFor(additions[..|additions| - 1], expression);
      if last.license.expression == expression then Some(WithTag(before, last)) else before
  }

  function PendingFor(pending: map<string, Detection>, expression: string): Option<Detection> {
    if expression in pending then Some(pending[expression]) else None
  }

  /** Detections are filed under their own expressions and are not empty. */
  ghost predicate Filed(pending: map<string, Detection>) {
    forall e | e in pending :: pending[e].expression == e && pending[e].matches != []
      && NonEmptyMatches(pending[e].matches)
  }

  /** Groups the tag matches by expression. */
  method BuildPending(additions: seq<Declared>) returns (pending: map<string, Detection>)
    requires forall i | 0 <= i < |additions| :: additions[i].anchor < additions[i].end
    ensures Filed(pending)
    ensures forall e: string {:trigger PendingFor(pending, e)} :: PendingFor(pending, e) == AdditionFor(additions, e)
  {
    pending := map[];
    for i := 0 to |additions|
      invariant Filed(pending)
      invariant forall e: string {:trigger PendingFor(pending, e)} ::
        PendingFor(pending, e) == AdditionFor(additions[..i], e)
    {
      var d := additions[i];
      ghost var before := pending;
      pending := pending[d.license.expression := WithTag(PendingFor(pending, d.license.expression), d)];
      TakeNext(additions, i);
      forall e: string ensures PendingFor(pending, e) == AdditionFor(additions[..i + 1], e) {
        assert PendingFor(before, e) == AdditionFor(additions[..i], e);
      }
    }
    assert additions[..|additions|] == additions;
  }

  /** A detection and what is pending for its expression. */
  function Merged(d: Option<Detection>, addition: Option<Detection>): Option<Detection> {
    match (d, addition)
    case (None, _) => addition
    case (_, None) => d
    case (Some(d), Some(a)) => Some(d.(matches := d.matches + a.matches))
  }

  /** A detection with what is pending for it. */
  function WithPending(d: Detection, pending: map<string, Detection>): Detection {
    if d.expression in pending then d.(matches := d.matches + pending[d.expression].matches) else d
  }

  /** Detections looked at so far carry their additions, which are no longer pending. */
  ghost predicate Merging(before: seq<Detection>, i: nat, after: seq<Detection>, all: map<string, Detection>,
                          pending: map<string, Detection>) {
    && i <= |before| && Grouped(after) && Filed(pending)
    && (forall e: string {:trigger PendingFor(pending, e)} ::
          PendingFor(pending, e) == if DetectionOf(before[..i], e).Some? then None else PendingFor(all, e))
    && forall e: string {:trigger DetectionOf(after, e)} ::
         DetectionOf(after, e) == if DetectionOf(before[..i], e).Some?
           then Merged(DetectionOf(before[..i], e), PendingFor(all, e)) else None
  }

  lemma MergeOne(before: seq<Detection>, i: nat, after: seq<Detection>, all: map<string, Detection>,
                 pending: map<string, Detection>)
    requires Grouped(before) && i < |before| && Merging(before, i, after, all, pending)
    ensures Merging(before, i + 1, after + [WithPending(before[i], pending)], all, pending - {before[i].expression})
  {
    var d, more := before[i], WithPending(before[i], pending);
    EarlierUnlisted(before, i);
    assert DetectionOf(after, d.expression) == None;
    assert PendingFor(pending, d.expression) == PendingFor(all, d.expression);
    GroupedMore(after, more);
    var rest := pending - {d.expression};
    forall e: string
      ensures PendingFor(rest, e) == if DetectionOf(before[..i + 1], e).Some? then None else PendingFor(all, e)
    {
      DetectionOne(before, i, e);
      assert PendingFor(rest, e) == if e == d.expression then None else PendingFor(pending, e);
    }
    forall e: string
      ensures DetectionOf(after + [more], e)
           == if DetectionOf(before[..i + 1], e).Some? then Merged(DetectionOf(before[..i + 1], e), PendingFor(all, e))
             else None
    {
      DetectionOne(before, i, e);
      DetectionMore(after, more, e);
    }
  }

  /** The rest of the pending expressions become detections of their own, in whatever order. */
  ghost predicate Draining(after: seq<Detection>, pending: map<string, Detection>, total: string -> Option<Detection>) {
    && Grouped(after) && Filed(pending)
    && forall e: string {:trigger DetectionOf(after, e)} {:trigger total(e)} ::
         if e in pending then DetectionOf(after, e) == None && total(e) == Some(pending[e])
           else DetectionOf(after, e) == total(e)
  }

  lemma DrainOne(after: seq<Detection>, pending: map<string, Detection>, total: string -> Option<Detection>, e: string)
    requires Draining(after, pending, total) && e in pending
    ensures Draining(after + [pending[e]], pending - {e}, total)
  {
    assert DetectionOf(after, e) == None;
    GroupedMore(after, pending[e]);
    forall x: string
      ensures if x in pending - {e} then DetectionOf(after + [pending[e]], x) == None
        && total(x) == Some((pending - {e})[x])
              else DetectionOf(after + [pending[e]], x) == total(x)
    {
      DetectionMore(after, pending[e], x);
      assert if x in pending then DetectionOf(after, x) == None && total(x) == Some(pending[x])
        else DetectionOf(after, x) == total(x);
    }
  }

  /** The map is iterated in whatever order. */
  method DrainPending(before: seq<Detection>, pending0: map<string, Detection>,
                      ghost total: string -> Option<Detection>)
    returns (after: seq<Detection>)
    requires Draining(before, pending0, total)
    ensures Grouped(after) && forall e: string {:trigger DetectionOf(after, e)} :: DetectionOf(after, e) == total(e)
  {
    after := before;
    var pending := pending0;
    while pending.Keys != {}
      invariant Draining(after, pending, total)
      decreases |pending.Keys|
    {
      var e :| e in pending.Keys;
      DrainOne(after, pending, total, e);
      after := after + [pending[e]];
      ghost var keys := pending.Keys;
      pending := pending - {e};
      assert pending.Keys == keys - {e};
    }
  }

  lemma MergedDrains(before: seq<Detection>, after: seq<Detection>, all: map<string, Detection>,
                     pending: map<string, Detection>, total: string -> Option<Detection>)
    requires Merging(before, |before|, after, all, pending)
    requires forall e: string {:trigger total(e)} :: total(e) == Merged(DetectionOf(before, e), PendingFor(all, e))
    ensures Draining(after, pending, total)
  {
    assert before[..|before|] == before;
    forall e: string
      ensures if e in pending then DetectionOf(after, e) == None && total(e) == Some(pending[e])
        else DetectionOf(after, e) == total(e)
    {
      assert PendingFor(pending, e) == if DetectionOf(before, e).Some? then None else PendingFor(all, e);
    }
  }

  /** Adds the pending matches, each expression's after its own. */
  method MergePending(before: seq<Detection>, all: map<string, Detection>) returns (after: seq<Detection>)
    requires Grouped(before) && Filed(all)
    ensures Grouped(after)
    ensures forall e: string {:trigger DetectionOf(after, e)} ::
              DetectionOf(after, e) == Merged(DetectionOf(before, e), PendingFor(all, e))
  {
    after := [];
    var pending := all;
    for i := 0 to |before|
      invariant Merging(before, i, after, all, pending)
    {
      MergeOne(before, i, after, all, pending);
      after := after + [WithPending(before[i], pending)];
      pending := pending - {before[i].expression};
    }
    ghost var total := (e: string) => Merged(DetectionOf(before, e), PendingFor(all, e));
    MergedDrains(before, after, all, pending, total);
    after := DrainPending(after, pending, total);
  }
}
