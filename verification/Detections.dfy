/** Matches in input bytes, and their grouping by the expression they state. */
module Detections {
  import opened Options
  import opened ExactMatches

  /** How well the identifiers of an expression say which license it is. */
  datatype Identification = Identified | Partial | NoAssertion

  /** The category of the matched rule. */
  datatype Kind = Text | Notice | Tag | Reference | Intro | Clue | UnknownKind

  /** Found by the hash of the whole input, or as a token sequence inside it. */
  datatype Method = Hash | Exact

  /** What was matched: a rule, or a license tag. */
  datatype Origin = OfRule(rule: nat, how: Method) | OfTag

  const FULL_SCORE := 100

  /** A match of input bytes. */
  datatype Found = Found(origin: Origin, licenseIds: seq<string>, kind: Kind, score: nat, start: nat, end: nat)

  datatype Detection = Detection(expression: string, identification: Identification, matches: seq<Found>)

  ghost predicate NonEmptyMatches(ms: seq<Found>) {
    forall i | 0 <= i < |ms| :: ms[i].start < ms[i].end
  }

  /** One detection per expression, none of them empty. */
  ghost predicate Grouped(ds: seq<Detection>) {
    && (forall i | 0 <= i < |ds| :: ds[i].matches != [] && NonEmptyMatches(ds[i].matches))
    && forall i, j | 0 <= i < j < |ds| :: ds[i].expression != ds[j].expression
  }

  /** The detection of an expression. */
  function DetectionOf(ds: seq<Detection>, expression: string): Option<Detection> {
    if ds == [] then None
    else
      var last := ds[|ds| - 1];
      if last.expression == expression then Some(last) else DetectionOf(ds[..|ds| - 1], expression)
  }

  lemma DetectionMore(ds: seq<Detection>, d: Detection, e: string)
    ensures DetectionOf(ds + [d], e) == if d.expression == e then Some(d) else DetectionOf(ds, e)
  {
    assert (ds + [d])[..|ds|] == ds;
  }

  lemma DetectionOne(ds: seq<Detection>, i: nat, e: string)
    requires i < |ds|
    ensures DetectionOf(ds[..i + 1], e) == if ds[i].expression == e then Some(ds[i]) else DetectionOf(ds[..i], e)
  {
    assert ds[..i + 1][..i] == ds[..i];
  }

  /** Whether and where an expression is listed. */
  lemma {:induction false} DetectionListed(ds: seq<Detection>, e: string)
    ensures match DetectionOf(ds, e)
      case None => forall i | 0 <= i < |ds| :: ds[i].expression != e
      case Some(d) => d in ds && d.expression == e
  {
    if ds == [] {
    } else {
      var n := |ds| - 1;
      DetectionListed(ds[..n], e);
      assert forall i | 0 <= i < n :: ds[i] == ds[..n][i];
    }
  }

  /** In a grouped list every detection is that of its expression. */
  lemma OwnDetection(ds: seq<Detection>, i: nat)
    requires Grouped(ds) && i < |ds|
    ensures DetectionOf(ds, ds[i].expression) == Some(ds[i])
  {
    DetectionListed(ds, ds[i].expression);
    var d := DetectionOf(ds, ds[i].expression).value;
    var j :| 0 <= j < |ds| && ds[j] == d;
  }

  lemma EarlierUnlisted(ds: seq<Detection>, i: nat)
    requires Grouped(ds) && i < |ds|
    ensures DetectionOf(ds[..i], ds[i].expression) == None
  {
    DetectionListed(ds[..i], ds[i].expression);
  }

  lemma GroupedMore(ds: seq<Detection>, d: Detection)
    requires Grouped(ds) && DetectionOf(ds, d.expression) == None && d.matches != [] && NonEmptyMatches(d.matches)
    ensures Grouped(ds + [d])
  {
    DetectionListed(ds, d.expression);
  }

  // Removing matches --------------------------------------------------------------------------------

  lemma {:induction false} KeptSome(keep: Found -> bool, ms: seq<Found>)
    requires NonEmptyMatches(ms)
    ensures NonEmptyMatches(Filter(keep, ms))
  {
    if ms == [] {
    } else {
      KeptSome(keep, ms[..|ms| - 1]);
    }
  }

  /** What is left of a detection: its kept matches, or nothing. */
  function Remaining(keep: Found -> bool, d: Option<Detection>): Option<Detection> {
    match d
    case None => None
    case Some(d) => if Filter(keep, d.matches) == [] then None else Some(d.(matches := Filter(keep, d.matches)))
  }

  /** Each expression keeps the matches that pass, and goes if none does. */
  ghost predicate Removed(before: seq<Detection>, after: seq<Detection>, keep: Found -> bool) {
    Grouped(after) && forall e: string {:trigger DetectionOf(after, e)} ::
      DetectionOf(after, e) == Remaining(keep, DetectionOf(before, e))
  }

  lemma RemoveOne(before: seq<Detection>, i: nat, after: seq<Detection>, keep: Found -> bool, kept: seq<Found>)
    requires Grouped(before) && i < |before| && Removed(before[..i], after, keep)
      && kept == Filter(keep, before[i].matches)
    ensures kept == [] ==> Removed(before[..i + 1], after, keep)
    ensures kept != [] ==> Removed(before[..i + 1], after + [before[i].(matches := kept)], keep)
  {
    var d := before[i].(matches := kept);
    KeptSome(keep, before[i].matches);
    EarlierUnlisted(before, i);
    assert DetectionOf(after, d.expression) == None;
    if kept != [] { GroupedMore(after, d); }
    forall e: string
      ensures kept == [] ==> DetectionOf(after, e) == Remaining(keep, DetectionOf(before[..i + 1], e))
      ensures kept != [] ==> DetectionOf(after + [d], e) == Remaining(keep, DetectionOf(before[..i + 1], e))
    {
      DetectionOne(before, i, e);
      DetectionMore(after, d, e);
    }
  }

  // One result -----------------------------------------------------------------------------------------

  lemma {:induction false} ListedOnce(ds: seq<Detection>, d: Detection)
    requires Grouped(ds)
    ensures multiset(ds)[d] == if DetectionOf(ds, d.expression) == Some(d) then 1 else 0
  {
    if ds == [] {
    } else {
      var n := |ds| - 1;
      assert ds == ds[..n] + [ds[n]];
      ListedOnce(ds[..n], d);
      if d.expression == ds[n].expression { EarlierUnlisted(ds, n); }
    }
  }

  /** Grouped lists with the same detection for every expression have the same members. */
  lemma SameDetections(a: seq<Detection>, b: seq<Detection>)
    requires Grouped(a) && Grouped(b) && forall e: string :: DetectionOf(a, e) == DetectionOf(b, e)
    ensures multiset(a) == multiset(b)
  {
    forall d ensures multiset(a)[d] == multiset(b)[d] {
      ListedOnce(a, d);
      ListedOnce(b, d);
    }
  }
}
