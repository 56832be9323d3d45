/** Which tags a sweep comes to, stated by their places in the text, and that the text determines them. */
module SpdxVisits {
  import opened SpdxText
  import opened SpdxSweep

  /** The place lies in the tag or its expression, behind the first byte. */
  ghost predicate Within(v: Visit, at: nat) {
    v.anchor < at && (at < v.tagEnd || at < v.end)
  }

  ghost predicate AllRight(input: Bytes, visits: seq<Visit>) {
    forall i | 0 <= i < |visits| :: VisitOk(input, visits[i])
  }

  ghost predicate Apart(visits: seq<Visit>) {
    forall i, j | 0 <= i < j < |visits| ::
      visits[i].anchor < visits[j].anchor && !Within(visits[i], visits[j].anchor)
  }

  ghost predicate Met(visits: seq<Visit>, at: nat) {
    exists i :: 0 <= i < |visits| && (visits[i].anchor == at || Within(visits[i], at))
  }

  /**
   * Visited tags come in order, each behind the expression of the one before; every other tag of the text lies inside
   * a visited one or its expression.
   */
  ghost predicate TagsSwept(input: Bytes, visits: seq<Visit>) {
    && AllRight(input, visits) && Apart(visits)
    && forall at: nat {:trigger Met(visits, at)} | TagEnd(input, at) >= 0 :: Met(visits, at)
  }

  lemma TagFits(input: Bytes, at: nat)
    ensures TagEnd(input, at) >= 0 ==> at < TagEnd(input, at) <= |input|
  {
  }

  lemma CompleteIsSwept(input: Bytes, visits: seq<Visit>)
    requires VisitsRise(input, visits, |input|) && AllVisited(input, visits, |input|)
    ensures TagsSwept(input, visits)
  {
    forall at: nat | TagEnd(input, at) >= 0 ensures Met(visits, at) {
      TagFits(input, at);
      var i :| 0 <= i < |visits| && visits[i].anchor <= at < Past(visits[i]);
    }
  }

  // The text determines the visits ------------------------------------------------------------------

  lemma NextOnce(input: Bytes, from: nat, a: nat, b: nat)
    requires NextTagAt(input, from, a) && NextTagAt(input, from, b)
    ensures a == b
  {
    assert a < b ==> TagEnd(input, a) < 0;
    assert b < a ==> TagEnd(input, b) < 0;
  }

  lemma Limited(input: Bytes, v: Visit) returns (s: nat, e: nat)
    requires VisitOk(input, v)
    ensures SpanOf(input, v.tagEnd, 1024, s, e, v.complete)
  {
    if v.complete {
      s, e := v.start, v.end;
    } else {
      s, e :| SpanOf(input, v.tagEnd, 1024, s, e, false);
    }
  }

  lemma BeforeOnce(input: Bytes, a: Visit, b: Visit, next: nat)
    requires SpanBefore(input, a, next) && SpanBefore(input, b, next) && a.tagEnd == b.tagEnd
    ensures a.start == b.start && a.end == b.end
  {
    var whole: bool :| SpanOf(input, a.tagEnd, next - a.tagEnd, a.start, a.end, whole);
    var also: bool :| SpanOf(input, b.tagEnd, next - b.tagEnd, b.start, b.end, also);
    SpanOnce(input, a.tagEnd, next - a.tagEnd, a.start, a.end, whole, b.start, b.end, also);
  }

  lemma CutOnce(input: Bytes, a: Visit, b: Visit)
    requires VisitOk(input, a) && VisitOk(input, b) && a.tagEnd == b.tagEnd && !a.complete && !b.complete
    ensures a.start == b.start && a.end == b.end
  {
    var next: nat :| NextTagAt(input, a.tagEnd, next) && SpanBefore(input, a, next);
    var other: nat :| NextTagAt(input, b.tagEnd, other) && SpanBefore(input, b, other);
    NextOnce(input, a.tagEnd, next, other);
    BeforeOnce(input, a, b, next);
  }

  /** The place of a tag determines the visit. */
  lemma VisitOnce(input: Bytes, a: Visit, b: Visit)
    requires VisitOk(input, a) && VisitOk(input, b) && a.anchor == b.anchor
    ensures a == b
  {
    var s, e := Limited(input, a);
    var first, last := Limited(input, b);
    SpanOnce(input, a.tagEnd, 1024, s, e, a.complete, first, last, b.complete);
    if a.complete {
      SpanOnce(input, a.tagEnd, 1024, a.start, a.end, true, b.start, b.end, true);
    } else {
      CutOnce(input, a, b);
    }
  }

  /** Where two lists agree up to the `k`th visit, the one that goes on is met by the other no later. */
  lemma NextVisit(a: seq<Visit>, b: seq<Visit>, k: nat)
    requires Apart(a) && Apart(b) && k <= |b| && k < |a| && a[..k] == b[..k] && Met(b, a[k].anchor)
    ensures k < |b| && b[k].anchor <= a[k].anchor
  {
    var at := a[k].anchor;
    var i :| 0 <= i < |b| && (b[i].anchor == at || Within(b[i], at));
    forall j | 0 <= j < k ensures b[j].anchor < at && !Within(b[j], at) {
      assert a[..k][j] == b[..k][j];
    }
    assert k < i ==> b[k].anchor < b[i].anchor;
  }

  lemma {:induction false} AgreeTo(input: Bytes, a: seq<Visit>, b: seq<Visit>, k: nat)
    requires TagsSwept(input, a) && TagsSwept(input, b) && k <= |a|
    ensures k <= |b| && a[..k] == b[..k]
  {
    if k > 0 {
      AgreeTo(input, a, b, k - 1);
      NextAgrees(input, a, b, k - 1);
      assert a[..k] == a[..k - 1] + [a[k - 1]] && b[..k] == b[..k - 1] + [b[k - 1]];
    }
  }

  lemma NextAgrees(input: Bytes, a: seq<Visit>, b: seq<Visit>, k: nat)
    requires TagsSwept(input, a) && TagsSwept(input, b) && k < |a| && k <= |b| && a[..k] == b[..k]
    ensures k < |b| && a[k] == b[k]
  {
    assert VisitOk(input, a[k]) && Met(b, a[k].anchor);
    NextVisit(a, b, k);
    assert VisitOk(input, b[k]) && Met(a, b[k].anchor);
    NextVisit(b, a, k);
    VisitOnce(input, a[k], b[k]);
  }

  /** No two lists of visits fit one text. */
  lemma SweptOnce(input: Bytes, a: seq<Visit>, b: seq<Visit>)
    requires TagsSwept(input, a) && TagsSwept(input, b)
    ensures a == b
  {
    AgreeTo(input, a, b, |a|);
    AgreeTo(input, b, a, |b|);
    assert a[..|a|] == a && b[..|b|] == b;
  }
}
