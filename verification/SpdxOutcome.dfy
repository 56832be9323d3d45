/** What becomes of each tag the sweep comes to, and of the matches around it, read off the result alone. */
module SpdxOutcome {
  import opened Options
  import opened ExactMatches
  import opened Detections
  import opened ResultOrder
  import opened SpdxText
  import opened SpdxSweep
  import opened SpdxResult
  import opened SpdxMatch

  // One tag -------------------------------------------------------------------------------------

  /** What the tag's expression, which lies inside the input, stands for. */
  ghost function LicenseOf(input: Bytes, normalize: Bytes -> Normalized, v: Visit): Normalized {
    if v.start <= v.end <= |input| then normalize(input[v.start..v.end]) else normalize([])
  }

  /** The tag declares a license: whole, or cut off where one match spans what is left of it. */
  ghost predicate Declares(input: Bytes, normalize: Bytes -> Normalized, v: Visit, spanned: bool) {
    v.start < v.end && (v.complete || spanned) && LicenseOf(input, normalize, v).expression != ""
  }

  /** The tag was cut off and no match spans what is left of it. */
  ghost predicate Cut(v: Visit, spanned: bool) {
    v.start < v.end && !v.complete && !spanned
  }

  ghost predicate DeclaredBy(input: Bytes, normalize: Bytes -> Normalized, v: Visit, spanned: bool, d: Declared) {
    Declares(input, normalize, v, spanned) && d == Declared(LicenseOf(input, normalize, v), v.anchor, v.end)
  }

  ghost predicate AddedBy(input: Bytes, normalize: Bytes -> Normalized, v: Visit, spanned: bool, d: Declared) {
    DeclaredBy(input, normalize, v, spanned, d) && !spanned
  }

  ghost predicate PlacedBy(input: Bytes, normalize: Bytes -> Normalized, v: Visit, spanned: bool, x: Declaration) {
    Declares(input, normalize, v, spanned) && x == Declaration(v.anchor, v.start, v.end, spanned)
  }

  ghost predicate CutBy(v: Visit, spanned: bool, span: Span) {
    Cut(v, spanned) && span == Span(v.anchor, v.end)
  }

  /** The tag displaces the match: it was cut off and the match starts in it, or it holds a match short of it. */
  ghost predicate DisplacedBy(input: Bytes, normalize: Bytes -> Normalized, m: Found, v: Visit, spanned: bool) {
    || (Cut(v, spanned) && v.anchor <= m.start < v.end)
    || (&& Declares(input, normalize, v, spanned) && v.anchor <= m.start && m.end <= v.end
        && !(spanned && m.start <= v.start && v.end <= m.end))
  }

  // What the sweep records ----------------------------------------------------------------------

  /** Some visit satisfies the condition. */
  ghost predicate SomeVisit(holds: Visit -> bool, visits: seq<Visit>) {
    exists i :: 0 <= i < |visits| && holds(visits[i])
  }

  lemma SomeVisitLast(holds: Visit -> bool, visits: seq<Visit>)
    requires visits != []
    ensures SomeVisit(holds, visits) <==>
      SomeVisit(holds, visits[..|visits| - 1]) || holds(visits[|visits| - 1])
  {
    var n := |visits| - 1;
    if SomeVisit(holds, visits) {
      var i :| 0 <= i < |visits| && holds(visits[i]);
      if i < n { assert visits[..n][i] == visits[i]; }
    }
    if SomeVisit(holds, visits[..n]) {
      var i :| 0 <= i < n && holds(visits[..n][i]);
      assert holds(visits[i]);
    }
  }

  ghost predicate AllOk(input: Bytes, visits: seq<Visit>) {
    forall i | 0 <= i < |visits| :: VisitOk(input, visits[i])
  }

  ghost function Declaring(input: Bytes, coverage: seq<Span>, normalize: Bytes -> Normalized, d: Declared)
    : Visit -> bool {
    (v: Visit) => DeclaredBy(input, normalize, v, Covered(coverage, v.start, v.end), d)
  }

  ghost function Adding(input: Bytes, coverage: seq<Span>, normalize: Bytes -> Normalized, d: Declared): Visit -> bool {
    (v: Visit) => AddedBy(input, normalize, v, Covered(coverage, v.start, v.end), d)
  }

  ghost function Placing(input: Bytes, coverage: seq<Span>, normalize: Bytes -> Normalized, x: Declaration)
    : Visit -> bool {
    (v: Visit) => PlacedBy(input, normalize, v, Covered(coverage, v.start, v.end), x)
  }

  ghost function Cutting(coverage: seq<Span>, span: Span): Visit -> bool {
    (v: Visit) => CutBy(v, Covered(coverage, v.start, v.end), span)
  }

  /** What one visited tag adds to the lists. */
  lemma AddMembers(s: Swept, input: Bytes, coverage: seq<Span>, normalize: Bytes -> Normalized, v: Visit, d: Declared,
                   x: Declaration, span: Span)
    requires VisitOk(input, v)
    ensures var after := Add(s, v, Judge(input, coverage, normalize, v));
      && (d in after.declared <==> d in s.declared || Declaring(input, coverage, normalize, d)(v))
      && (d in after.additions <==> d in s.additions || Adding(input, coverage, normalize, d)(v))
      && (x in after.declarations <==> x in s.declarations || Placing(input, coverage, normalize, x)(v))
      && (span in after.cutOff <==> span in s.cutOff || Cutting(coverage, span)(v))
  {
  }

  /** The lists hold what the visited tags give, and nothing else. */
  lemma {:induction false} RecordedMembers(input: Bytes, coverage: seq<Span>, normalize: Bytes -> Normalized,
                                           visits: seq<Visit>, d: Declared, x: Declaration, span: Span)
    requires AllOk(input, visits)
    ensures var s := Recorded(input, coverage, normalize, visits);
      && (d in s.declared <==> SomeVisit(Declaring(input, coverage, normalize, d), visits))
      && (d in s.additions <==> SomeVisit(Adding(input, coverage, normalize, d), visits))
      && (x in s.declarations <==> SomeVisit(Placing(input, coverage, normalize, x), visits))
      && (span in s.cutOff <==> SomeVisit(Cutting(coverage, span), visits))
  {
    if visits == [] {
    } else {
      var n := |visits| - 1;
      RecordedMembers(input, coverage, normalize, visits[..n], d, x, span);
      AddMembers(Recorded(input, coverage, normalize, visits[..n]), input, coverage, normalize, visits[n], d, x, span);
      SomeVisitLast(Declaring(input, coverage, normalize, d), visits);
      SomeVisitLast(Adding(input, coverage, normalize, d), visits);
      SomeVisitLast(Placing(input, coverage, normalize, x), visits);
      SomeVisitLast(Cutting(coverage, span), visits);
    }
  }

  ghost predicate AnchorsRise(ds: seq<Declared>, to: nat) {
    && (forall i | 0 <= i < |ds| :: ds[i].anchor < to)
    && forall i, j | 0 <= i < j < |ds| :: ds[i].anchor < ds[j].anchor
  }

  lemma AddInOrder(s: Swept, v: Visit, verdict: Verdict, to: nat)
    requires AnchorsRise(s.declared, v.anchor) && AnchorsRise(s.additions, v.anchor) && v.anchor < to
    ensures AnchorsRise(Add(s, v, verdict).declared, to) && AnchorsRise(Add(s, v, verdict).additions, to)
  {
  }

  lemma EarlierVisits(input: Bytes, visits: seq<Visit>, to: nat)
    requires VisitsRise(input, visits, to) && visits != []
    ensures var n := |visits| - 1; visits[n].anchor < to && VisitsRise(input, visits[..n], visits[n].anchor)
  {
  }

  /** Both lists are in the order of the tags, each tag once. */
  lemma {:induction false} RecordedInOrder(input: Bytes, coverage: seq<Span>, normalize: Bytes -> Normalized,
                                           visits: seq<Visit>, to: nat)
    requires VisitsRise(input, visits, to)
    ensures AnchorsRise(Recorded(input, coverage, normalize, visits).declared, to)
    ensures AnchorsRise(Recorded(input, coverage, normalize, visits).additions, to)
    decreases |visits|
  {
    if visits == [] {
    } else {
      var n := |visits| - 1;
      EarlierVisits(input, visits, to);
      RecordedInOrder(input, coverage, normalize, visits[..n], visits[n].anchor);
      AddInOrder(Recorded(input, coverage, normalize, visits[..n]), visits[n],
                 Judge(input, coverage, normalize, visits[n]), to);
    }
  }

  // Which matches go ------------------------------------------------------------------------------

  ghost function Displacing(input: Bytes, coverage: seq<Span>, normalize: Bytes -> Normalized, m: Found)
    : Visit -> bool {
    (v: Visit) => DisplacedBy(input, normalize, m, v, Covered(coverage, v.start, v.end))
  }

  lemma SupersededIsDisplaced(input: Bytes, coverage: seq<Span>, normalize: Bytes -> Normalized, visits: seq<Visit>,
                              m: Found)
    requires AllOk(input, visits)
    requires var s := Recorded(input, coverage, normalize, visits); Superseded(m, s.declarations, s.cutOff)
    ensures SomeVisit(Displacing(input, coverage, normalize, m), visits)
  {
    var s := Recorded(input, coverage, normalize, visits);
    var displaces, d := Displacing(input, coverage, normalize, m), Declared(normalize([]), 0, 0);
    if i :| 0 <= i < |s.cutOff| && s.cutOff[i].start <= m.start < s.cutOff[i].end {
      RecordedMembers(input, coverage, normalize, visits, d, Declaration(0, 0, 0, false), s.cutOff[i]);
      var k :| 0 <= k < |visits| && Cutting(coverage, s.cutOff[i])(visits[k]);
      assert displaces(visits[k]);
    } else {
      var i :| 0 <= i < |s.declarations| && Inside(m, s.declarations[i]);
      RecordedMembers(input, coverage, normalize, visits, d, s.declarations[i], Span(0, 0));
      var k :| 0 <= k < |visits| && Placing(input, coverage, normalize, s.declarations[i])(visits[k]);
      assert displaces(visits[k]);
    }
  }

  lemma DisplacedIsSuperseded(input: Bytes, coverage: seq<Span>, normalize: Bytes -> Normalized, visits: seq<Visit>,
                              m: Found, v: Visit)
    requires AllOk(input, visits) && v in visits && Displacing(input, coverage, normalize, m)(v)
    ensures var s := Recorded(input, coverage, normalize, visits); Superseded(m, s.declarations, s.cutOff)
  {
    var s := Recorded(input, coverage, normalize, visits);
    var spanned := Covered(coverage, v.start, v.end);
    var x, span := Declaration(v.anchor, v.start, v.end, spanned), Span(v.anchor, v.end);
    RecordedMembers(input, coverage, normalize, visits, Declared(normalize([]), 0, 0), x, span);
    var k :| 0 <= k < |visits| && visits[k] == v;
    if Cut(v, spanned) {
      assert Cutting(coverage, span)(visits[k]);
      var i :| 0 <= i < |s.cutOff| && s.cutOff[i] == span;
    } else {
      assert Placing(input, coverage, normalize, x)(visits[k]);
      var i :| 0 <= i < |s.declarations| && s.declarations[i] == x;
      assert Inside(m, s.declarations[i]);
    }
  }

  lemma SupersededMeans(input: Bytes, coverage: seq<Span>, normalize: Bytes -> Normalized, visits: seq<Visit>,
                        m: Found)
    requires AllOk(input, visits)
    ensures var s := Recorded(input, coverage, normalize, visits);
      Superseded(m, s.declarations, s.cutOff) <==> SomeVisit(Displacing(input, coverage, normalize, m), visits)
  {
    var s := Recorded(input, coverage, normalize, visits);
    if Superseded(m, s.declarations, s.cutOff) {
      SupersededIsDisplaced(input, coverage, normalize, visits, m);
    }
    if SomeVisit(Displacing(input, coverage, normalize, m), visits) {
      var k :| 0 <= k < |visits| && Displacing(input, coverage, normalize, m)(visits[k]);
      DisplacedIsSuperseded(input, coverage, normalize, visits, m, visits[k]);
    }
  }

  // The result of the stage -------------------------------------------------------------------------

  ghost predicate InDetection(ds: seq<Detection>, e: string, m: Found) {
    exists i :: 0 <= i < |ds| && ds[i].expression == e && m in ds[i].matches
  }

  lemma InDetectionOf(ds: seq<Detection>, e: string, m: Found)
    requires Grouped(ds)
    ensures InDetection(ds, e, m) <==> DetectionOf(ds, e).Some? && m in DetectionOf(ds, e).value.matches
  {
    DetectionListed(ds, e);
    if InDetection(ds, e, m) {
      var i :| 0 <= i < |ds| && ds[i].expression == e && m in ds[i].matches;
      OwnDetection(ds, i);
    }
  }

  /** The match the tag makes, under its expression. */
  ghost predicate ShownBy(input: Bytes, normalize: Bytes -> Normalized, v: Visit, spanned: bool, e: string, m: Found) {
    && Declares(input, normalize, v, spanned) && !spanned && e == LicenseOf(input, normalize, v).expression
    && m == Found(OfTag, LicenseOf(input, normalize, v).identifiers, Tag, 100, v.anchor, v.end)
  }

  ghost function Showing(input: Bytes, ds: seq<Detection>, normalize: Bytes -> Normalized, e: string, m: Found)
    : Visit -> bool {
    (v: Visit) => ShownBy(input, normalize, v, SomeMatchSpans(ds, v.start, v.end), e, m)
  }

  /** The clue a cut-off tag makes. */
  ghost function Hinting(ds: seq<Detection>, m: Found): Visit -> bool {
    (v: Visit) => Cut(v, SomeMatchSpans(ds, v.start, v.end)) && m == Found(OfTag, [], Clue, 0, v.anchor, v.end)
  }

  ghost function Listing(input: Bytes, ds: seq<Detection>, normalize: Bytes -> Normalized, d: Declared): Visit -> bool {
    (v: Visit) => DeclaredBy(input, normalize, v, SomeMatchSpans(ds, v.start, v.end), d)
  }

  ghost function Removing(input: Bytes, ds: seq<Detection>, normalize: Bytes -> Normalized, m: Found): Visit -> bool {
    (v: Visit) => DisplacedBy(input, normalize, m, v, SomeMatchSpans(ds, v.start, v.end))
  }

  /**
   * Every declaring tag is listed as declared, in order; those that no detected match spans, and no others, are
   * matches of their expression's detection; cut-off ones that none spans are clues; and of the matches there were,
   * just those stay that no tag displaces.
   */
  ghost predicate TagsDecided(input: Bytes, before: ScanResult, normalize: Bytes -> Normalized, visits: seq<Visit>,
                              after: ScanResult) {
    && AnchorsRise(after.declared, |input|)
    && (forall d :: d in after.declared <==> SomeVisit(Listing(input, before.detections, normalize, d), visits))
    && (forall e: string, m: Found {:trigger InDetection(after.detections, e, m)} :: InDetection(after.detections, e, m)
          <==> if m.origin.OfTag? then SomeVisit(Showing(input, before.detections, normalize, e, m), visits)
               else InDetection(before.detections, e, m)
                    && !SomeVisit(Removing(input, before.detections, normalize, m), visits))
    && forall m: Found {:trigger m in after.clues} :: m in after.clues
         <==> if m.origin.OfTag? then SomeVisit(Hinting(before.detections, m), visits)
              else m in before.clues && !SomeVisit(Removing(input, before.detections, normalize, m), visits)
  }

  /** Only rules have matched so far. */
  ghost predicate RulesOnly(r: ScanResult) {
    && Grouped(r.detections) && r.declared == [] && (forall m | m in r.clues :: m.origin.OfRule?)
    && forall i, m | 0 <= i < |r.detections| && m in r.detections[i].matches :: m.origin.OfRule?
  }

  ghost predicate SameCoverage(coverage: seq<Span>, ds: seq<Detection>) {
    forall start: nat, end: nat {:trigger Covered(coverage, start, end)} ::
      Covered(coverage, start, end) <==> SomeMatchSpans(ds, start, end)
  }

  lemma SameHolds(a: Visit -> bool, b: Visit -> bool, visits: seq<Visit>)
    requires forall v :: a(v) <==> b(v)
    ensures SomeVisit(a, visits) <==> SomeVisit(b, visits)
  {
    assert forall v | a(v) :: b(v);
    assert forall v | b(v) :: a(v);
  }

  lemma DisplacedOrNot(input: Bytes, before: ScanResult, normalize: Bytes -> Normalized, coverage: seq<Span>,
                       visits: seq<Visit>, m: Found)
    requires AllOk(input, visits) && SameCoverage(coverage, before.detections)
    ensures var s := Recorded(input, coverage, normalize, visits);
      Unsuperseded(s.declarations, s.cutOff)(m) <==>
      !SomeVisit(Removing(input, before.detections, normalize, m), visits)
  {
    SupersededMeans(input, coverage, normalize, visits, m);
    SameHolds(Displacing(input, coverage, normalize, m), Removing(input, before.detections, normalize, m), visits);
  }

  lemma {:induction false} AdditionMembers(additions: seq<Declared>, e: string, m: Found)
    ensures AdditionFor(additions, e).Some? && m in AdditionFor(additions, e).value.matches <==>
      exists i :: 0 <= i < |additions| && additions[i].license.expression == e && m == TagMatch(additions[i])
  {
    if additions == [] {
    } else {
      var n := |additions| - 1;
      AdditionMembers(additions[..n], e, m);
      assert forall i | 0 <= i < n :: additions[..n][i] == additions[i];
    }
  }

  lemma ShownIffAdded(input: Bytes, before: ScanResult, normalize: Bytes -> Normalized, coverage: seq<Span>,
                      visits: seq<Visit>, e: string, m: Found)
    requires AllOk(input, visits) && SameCoverage(coverage, before.detections)
    ensures var a := AdditionFor(Recorded(input, coverage, normalize, visits).additions, e);
      a.Some? && m in a.value.matches <==> SomeVisit(Showing(input, before.detections, normalize, e, m), visits)
  {
    var additions, shows :=
      Recorded(input, coverage, normalize, visits).additions, Showing(input, before.detections, normalize, e, m);
    AdditionMembers(additions, e, m);
    var x, span := Declaration(0, 0, 0, false), Span(0, 0);
    if i :| 0 <= i < |additions| && additions[i].license.expression == e && m == TagMatch(additions[i]) {
      RecordedMembers(input, coverage, normalize, visits, additions[i], x, span);
      var k :| 0 <= k < |visits| && Adding(input, coverage, normalize, additions[i])(visits[k]);
      assert shows(visits[k]);
    }
    if SomeVisit(shows, visits) {
      var k :| 0 <= k < |visits| && shows(visits[k]);
      var v := visits[k];
      var d := Declared(LicenseOf(input, normalize, v), v.anchor, v.end);
      assert Covered(coverage, v.start, v.end) <==> SomeMatchSpans(before.detections, v.start, v.end);
      assert Adding(input, coverage, normalize, d)(v);
      RecordedMembers(input, coverage, normalize, visits, d, x, span);
      assert m == TagMatch(d);
    }
  }

  lemma HintIsCut(input: Bytes, before: ScanResult, normalize: Bytes -> Normalized, coverage: seq<Span>,
                  visits: seq<Visit>, m: Found)
    requires AllOk(input, visits) && SameCoverage(coverage, before.detections)
    requires SomeVisit(Hinting(before.detections, m), visits)
    ensures m in CutOffClues(Recorded(input, coverage, normalize, visits).cutOff)
  {
    var k :| 0 <= k < |visits| && Hinting(before.detections, m)(visits[k]);
    var cutOff, span := Recorded(input, coverage, normalize, visits).cutOff, Span(visits[k].anchor, visits[k].end);
    var d, x := Declared(normalize([]), 0, 0), Declaration(0, 0, 0, false);
    RecordedMembers(input, coverage, normalize, visits, d, x, span);
    assert Cutting(coverage, span)(visits[k]);
    var i :| 0 <= i < |cutOff| && cutOff[i] == span;
    assert CutOffClues(cutOff)[i] == m;
  }

  lemma CutIsHint(input: Bytes, before: ScanResult, normalize: Bytes -> Normalized, coverage: seq<Span>,
                  visits: seq<Visit>, m: Found)
    requires AllOk(input, visits) && SameCoverage(coverage, before.detections)
    requires m in CutOffClues(Recorded(input, coverage, normalize, visits).cutOff)
    ensures m.origin.OfTag? && SomeVisit(Hinting(before.detections, m), visits)
  {
    var cutOff := Recorded(input, coverage, normalize, visits).cutOff;
    var i :| 0 <= i < |cutOff| && CutOffClues(cutOff)[i] == m;
    RecordedMembers(input, coverage, normalize, visits, Declared(normalize([]), 0, 0), Declaration(0, 0, 0, false),
                    cutOff[i]);
    var k :| 0 <= k < |visits| && Cutting(coverage, cutOff[i])(visits[k]);
    assert Hinting(before.detections, m)(visits[k]);
  }

  lemma CluesDecided(input: Bytes, before: ScanResult, normalize: Bytes -> Normalized, after: ScanResult,
                     coverage: seq<Span>, swept: Swept, visits: seq<Visit>, m: Found)
    requires Swapped(input, before, normalize, after, coverage, swept, visits) && RulesOnly(before)
    ensures m in after.clues <==> if m.origin.OfTag? then SomeVisit(Hinting(before.detections, m), visits)
      else m in before.clues && !SomeVisit(Removing(input, before.detections, normalize, m), visits)
  {
    var keep := Unsuperseded(swept.declarations, swept.cutOff);
    FilterMembers(keep, before.clues, m);
    assert m in after.clues <==> m in Filter(keep, before.clues) || m in CutOffClues(swept.cutOff);
    if m.origin.OfRule? { DisplacedOrNot(input, before, normalize, coverage, visits, m); }
    if m in CutOffClues(swept.cutOff) { CutIsHint(input, before, normalize, coverage, visits, m); }
    if SomeVisit(Hinting(before.detections, m), visits) {
      HintIsCut(input, before, normalize, coverage, visits, m);
    }
  }

  lemma DetectionsDecided(input: Bytes, before: ScanResult, normalize: Bytes -> Normalized, after: ScanResult,
                          coverage: seq<Span>, swept: Swept, visits: seq<Visit>, e: string, m: Found)
    requires Swapped(input, before, normalize, after, coverage, swept, visits) && RulesOnly(before)
    ensures InDetection(after.detections, e, m) <==>
      if m.origin.OfTag? then SomeVisit(Showing(input, before.detections, normalize, e, m), visits)
      else InDetection(before.detections, e, m)
           && !SomeVisit(Removing(input, before.detections, normalize, m), visits)
  {
    var keep, earlier := Unsuperseded(swept.declarations, swept.cutOff), DetectionOf(before.detections, e);
    var added := AdditionFor(swept.additions, e);
    InDetectionOf(before.detections, e, m);
    InDetectionOf(after.detections, e, m);
    assert DetectionOf(after.detections, e) == Merged(Remaining(keep, earlier), added);
    if earlier.Some? { FilterMembers(keep, earlier.value.matches, m); }
    DisplacedOrNot(input, before, normalize, coverage, visits, m);
    ShownIffAdded(input, before, normalize, coverage, visits, e, m);
    AdditionMembers(swept.additions, e, m);
  }

  /** The stage decides every tag, and every match there was, as stated. */
  lemma TagsAreDecided(input: Bytes, before: ScanResult, normalize: Bytes -> Normalized, after: ScanResult,
                       coverage: seq<Span>, swept: Swept, visits: seq<Visit>)
    requires Swapped(input, before, normalize, after, coverage, swept, visits) && RulesOnly(before)
    ensures TagsDecided(input, before, normalize, visits, after)
  {
    RecordedInOrder(input, coverage, normalize, visits, |input|);
    assert after.declared == swept.declared;
    forall d ensures d in after.declared <==> SomeVisit(Listing(input, before.detections, normalize, d), visits) {
      RecordedMembers(input, coverage, normalize, visits, d, Declaration(0, 0, 0, false), Span(0, 0));
      SameHolds(Declaring(input, coverage, normalize, d), Listing(input, before.detections, normalize, d), visits);
    }
    forall e: string, m: Found
      ensures InDetection(after.detections, e, m) <==>
        if m.origin.OfTag? then SomeVisit(Showing(input, before.detections, normalize, e, m), visits)
        else InDetection(before.detections, e, m)
             && !SomeVisit(Removing(input, before.detections, normalize, m), visits)
    {
      DetectionsDecided(input, before, normalize, after, coverage, swept, visits, e, m);
    }
    forall m: Found
      ensures m in after.clues <==> if m.origin.OfTag? then SomeVisit(Hinting(before.detections, m), visits)
        else m in before.clues && !SomeVisit(Removing(input, before.detections, normalize, m), visits)
    {
      CluesDecided(input, before, normalize, after, coverage, swept, visits, m);
    }
  }

  /** Putting the result in order decides nothing anew. */
  lemma ArrangedDecided(input: Bytes, before: ScanResult, normalize: Bytes -> Normalized, visits: seq<Visit>,
                        after: ScanResult, r: ScanResult)
    requires TagsDecided(input, before, normalize, visits, after) && Grouped(after.detections)
    requires Arranged(after.detections, r.detections) && r.declared == after.declared
      && multiset(r.clues) == multiset(after.clues)
    ensures TagsDecided(input, before, normalize, visits, r)
  {
    forall e: string, m: Found ensures InDetection(r.detections, e, m) <==> InDetection(after.detections, e, m) {
      InDetectionOf(r.detections, e, m);
      InDetectionOf(after.detections, e, m);
      assert match DetectionOf(after.detections, e)
        case None => DetectionOf(r.detections, e) == None
        case Some(d) => DetectionOf(r.detections, e).Some? && SameMatches(d, DetectionOf(r.detections, e).value);
    }
    forall m: Found ensures m in r.clues <==> m in after.clues {
      assert m in multiset(r.clues) <==> m in multiset(after.clues);
    }
  }

  /** A detected match that spans the whole expression of a tag, and lies in that tag, stays. */
  lemma SpanningMatchStays(input: Bytes, before: ScanResult, normalize: Bytes -> Normalized, visits: seq<Visit>,
                           after: ScanResult, e: string, m: Found, k: nat)
    requires TagsDecided(input, before, normalize, visits, after) && VisitsRise(input, visits, |input|)
    requires InDetection(before.detections, e, m) && m.origin.OfRule? && m.start < m.end && k < |visits|
    requires visits[k].anchor <= m.start <= visits[k].start < visits[k].end == m.end
    ensures InDetection(after.detections, e, m)
  {
    var v, ds := visits[k], before.detections;
    var i :| 0 <= i < |ds| && ds[i].expression == e && m in ds[i].matches;
    var j :| 0 <= j < |ds[i].matches| && ds[i].matches[j] == m;
    assert SomeMatchSpans(ds, v.start, v.end);
    forall x | 0 <= x < |visits| ensures !Removing(input, ds, normalize, m)(visits[x]) {
      TagSpares(input, normalize, visits, m, k, x, SomeMatchSpans(ds, visits[x].start, visits[x].end));
    }
  }

  lemma TagSpares(input: Bytes, normalize: Bytes -> Normalized, visits: seq<Visit>, m: Found, k: nat, x: nat,
                  spanned: bool)
    requires VisitsRise(input, visits, |input|) && k < |visits| && x < |visits| && m.start < m.end
    requires visits[k].anchor <= m.start <= visits[k].start < visits[k].end == m.end && (x == k ==> spanned)
    ensures !DisplacedBy(input, normalize, m, visits[x], spanned)
  {
    assert x < k ==> Past(visits[x]) <= visits[k].anchor;
    assert k < x ==> Past(visits[k]) <= visits[x].anchor;
  }

  // Once each, and identified ------------------------------------------------------------------------

  /** No tag is shown twice. */
  ghost predicate TagsOnce(r: ScanResult) {
    && (forall i, m: Found {:trigger multiset(r.detections[i].matches)[m]} |
          0 <= i < |r.detections| && m.origin.OfTag? :: multiset(r.detections[i].matches)[m] <= 1)
    && forall m: Found {:trigger multiset(r.clues)[m]} | m.origin.OfTag? :: multiset(r.clues)[m] <= 1
  }

  lemma {:induction false} AdditionOnce(additions: seq<Declared>, e: string, m: Found, to: nat)
    requires AnchorsRise(additions, to)
    ensures var a := AdditionFor(additions, e);
      a.Some? ==> multiset(a.value.matches)[m] <= 1 && (m in a.value.matches ==> m.start < to)
  {
    if additions == [] {
    } else {
      var n := |additions| - 1;
      var last := additions[n];
      assert AnchorsRise(additions[..n], last.anchor);
      AdditionOnce(additions[..n], e, m, last.anchor);
    }
  }

  lemma NotKept(keep: Found -> bool, ms: seq<Found>, m: Found)
    requires m !in ms
    ensures multiset(Filter(keep, ms))[m] == 0
  {
    FilterMembers(keep, ms, m);
  }

  lemma DetectionShowsOnce(input: Bytes, before: ScanResult, normalize: Bytes -> Normalized, after: ScanResult,
                           coverage: seq<Span>, swept: Swept, visits: seq<Visit>, i: nat, m: Found)
    requires Swapped(input, before, normalize, after, coverage, swept, visits) && RulesOnly(before)
    requires i < |after.detections| && m.origin.OfTag?
    ensures multiset(after.detections[i].matches)[m] <= 1
  {
    var keep, e := Unsuperseded(swept.declarations, swept.cutOff), after.detections[i].expression;
    OwnDetection(after.detections, i);
    RecordedInOrder(input, coverage, normalize, visits, |input|);
    AdditionOnce(swept.additions, e, m, |input|);
    DetectionListed(before.detections, e);
    var earlier := DetectionOf(before.detections, e);
    if earlier.Some? {
      assert m !in earlier.value.matches;
      NotKept(keep, earlier.value.matches, m);
    }
  }

  lemma CluesShowOnce(spans: seq<Span>, to: nat, m: Found)
    requires SpansRise(spans, to)
    ensures multiset(CutOffClues(spans))[m] <= 1
  {
    var clues := CutOffClues(spans);
    forall i, j | 0 <= i < j < |clues| ensures clues[i] != clues[j] { assert spans[i].end <= spans[j].start; }
    DistinctOnce(clues, m);
  }

  lemma {:induction false} DistinctOnce(ms: seq<Found>, m: Found)
    requires forall i, j | 0 <= i < j < |ms| :: ms[i] != ms[j]
    ensures multiset(ms)[m] <= 1
  {
    if ms == [] {
    } else {
      var n := |ms| - 1;
      assert ms == ms[..n] + [ms[n]];
      DistinctOnce(ms[..n], m);
      if m == ms[n] { assert m !in ms[..n]; }
    }
  }

  lemma TagsShownOnce(input: Bytes, before: ScanResult, normalize: Bytes -> Normalized, after: ScanResult,
                      coverage: seq<Span>, swept: Swept, visits: seq<Visit>)
    requires Swapped(input, before, normalize, after, coverage, swept, visits) && RulesOnly(before)
    ensures TagsOnce(after)
  {
    forall i, m: Found | 0 <= i < |after.detections| && m.origin.OfTag?
      ensures multiset(after.detections[i].matches)[m] <= 1
    {
      DetectionShowsOnce(input, before, normalize, after, coverage, swept, visits, i, m);
    }
    RecordedRises(input, coverage, normalize, visits, |input|);
    forall m: Found | m.origin.OfTag? ensures multiset(after.clues)[m] <= 1 {
      CluesShowOnce(swept.cutOff, |input|, m);
      NotKept(Unsuperseded(swept.declarations, swept.cutOff), before.clues, m);
    }
  }

  lemma ArrangedOnce(after: ScanResult, r: ScanResult)
    requires TagsOnce(after) && Grouped(after.detections) && Arranged(after.detections, r.detections)
      && multiset(r.clues) == multiset(after.clues)
    ensures TagsOnce(r)
  {
    forall i, m: Found | 0 <= i < |r.detections| && m.origin.OfTag? ensures multiset(r.detections[i].matches)[m] <= 1 {
      var e := r.detections[i].expression;
      OwnDetection(r.detections, i);
      DetectionListed(after.detections, e);
      assert match DetectionOf(after.detections, e)
        case None => DetectionOf(r.detections, e) == None
        case Some(d) => DetectionOf(r.detections, e).Some? && SameMatches(d, DetectionOf(r.detections, e).value);
    }
  }

  /** The tag is the first of those that make a match of its expression. */
  ghost predicate FirstShown(input: Bytes, ds: seq<Detection>, normalize: Bytes -> Normalized, visits: seq<Visit>,
                             e: string, k: nat) {
    && k < |visits| && ShowsAs(input, ds, normalize, visits[k], e)
    && forall j | 0 <= j < k :: !ShowsAs(input, ds, normalize, visits[j], e)
  }

  ghost predicate ShowsAs(input: Bytes, ds: seq<Detection>, normalize: Bytes -> Normalized, v: Visit, e: string) {
    && Declares(input, normalize, v, SomeMatchSpans(ds, v.start, v.end)) && !SomeMatchSpans(ds, v.start, v.end)
    && LicenseOf(input, normalize, v).expression == e
  }

  /** A detection keeps its identification while a rule match is left in it, and else has that of its first tag. */
  ghost predicate TagsIdentify(input: Bytes, before: ScanResult, normalize: Bytes -> Normalized, visits: seq<Visit>,
                               after: ScanResult) {
    forall i | 0 <= i < |after.detections| :: IdentifiedIn(input, before, normalize, visits, after.detections[i])
  }

  ghost predicate IdentifiedIn(input: Bytes, before: ScanResult, normalize: Bytes -> Normalized, visits: seq<Visit>,
                               d: Detection) {
    if exists m :: m in d.matches && m.origin.OfRule? then
      exists k :: 0 <= k < |before.detections| && before.detections[k].expression == d.expression
                  && before.detections[k].identification == d.identification
    else
      exists k: nat :: FirstShown(input, before.detections, normalize, visits, d.expression, k)
                       && d.identification == LicenseOf(input, normalize, visits[k]).identification
  }

  lemma {:induction false} AdditionIdentified(additions: seq<Declared>, e: string) returns (i: nat)
    requires AdditionFor(additions, e).Some?
    ensures i < |additions| && additions[i].license.expression == e
      && AdditionFor(additions, e).value.identification == additions[i].license.identification
    ensures forall j | 0 <= j < i :: additions[j].license.expression != e
  {
    var n := |additions| - 1;
    if AdditionFor(additions[..n], e).Some? {
      i := AdditionIdentified(additions[..n], e);
      assert forall j | 0 <= j < n :: additions[..n][j] == additions[j];
    } else {
      i := n;
      NoneAdded(additions[..n], e);
      assert forall j | 0 <= j < n :: additions[..n][j] == additions[j];
    }
  }

  lemma {:induction false} NoneAdded(additions: seq<Declared>, e: string)
    requires AdditionFor(additions, e).None?
    ensures forall j | 0 <= j < |additions| :: additions[j].license.expression != e
  {
    if additions == [] {
    } else {
      NoneAdded(additions[..|additions| - 1], e);
      assert forall j | 0 <= j < |additions| - 1 :: additions[..|additions| - 1][j] == additions[j];
    }
  }

  /** The first addition of an expression is of the first tag showing it. */
  lemma FirstAddition(input: Bytes, before: ScanResult, normalize: Bytes -> Normalized, coverage: seq<Span>,
                      visits: seq<Visit>, e: string, i: nat) returns (k: nat)
    requires VisitsRise(input, visits, |input|) && SameCoverage(coverage, before.detections)
    requires var additions := Recorded(input, coverage, normalize, visits).additions;
      i < |additions| && additions[i].license.expression == e
      && forall j | 0 <= j < i :: additions[j].license.expression != e
    ensures FirstShown(input, before.detections, normalize, visits, e, k)
    ensures LicenseOf(input, normalize, visits[k]) == Recorded(input, coverage, normalize, visits).additions[i].license
  {
    var additions := Recorded(input, coverage, normalize, visits).additions;
    var x, span := Declaration(0, 0, 0, false), Span(0, 0);
    RecordedMembers(input, coverage, normalize, visits, additions[i], x, span);
    k :| 0 <= k < |visits| && Adding(input, coverage, normalize, additions[i])(visits[k]);
    forall j | 0 <= j < k ensures !ShowsAs(input, before.detections, normalize, visits[j], e) {
      LaterAddition(input, before, normalize, coverage, visits, e, i, j);
      assert visits[j].anchor < Past(visits[j]) <= visits[k].anchor;
    }
  }

  lemma LaterAddition(input: Bytes, before: ScanResult, normalize: Bytes -> Normalized, coverage: seq<Span>,
                      visits: seq<Visit>, e: string, i: nat, j: nat)
    requires VisitsRise(input, visits, |input|) && SameCoverage(coverage, before.detections) && j < |visits|
    requires var additions := Recorded(input, coverage, normalize, visits).additions;
      i < |additions| && forall j | 0 <= j < i :: additions[j].license.expression != e
    ensures ShowsAs(input, before.detections, normalize, visits[j], e)
      ==> Recorded(input, coverage, normalize, visits).additions[i].anchor <= visits[j].anchor
  {
    if ShowsAs(input, before.detections, normalize, visits[j], e) {
      var d := AdditionShown(input, before, normalize, coverage, visits, e, j);
      RecordedInOrder(input, coverage, normalize, visits, |input|);
      FirstIsEarliest(Recorded(input, coverage, normalize, visits).additions, |input|, e, i, d);
    }
  }

  /** The addition of a tag that is shown. */
  lemma AdditionShown(input: Bytes, before: ScanResult, normalize: Bytes -> Normalized, coverage: seq<Span>,
                      visits: seq<Visit>, e: string, j: nat) returns (d: Declared)
    requires AllOk(input, visits) && SameCoverage(coverage, before.detections) && j < |visits|
    requires ShowsAs(input, before.detections, normalize, visits[j], e)
    ensures d in Recorded(input, coverage, normalize, visits).additions
      && d.license.expression == e && d.anchor == visits[j].anchor
  {
    var v := visits[j];
    d := Declared(LicenseOf(input, normalize, v), v.anchor, v.end);
    RecordedMembers(input, coverage, normalize, visits, d, Declaration(0, 0, 0, false), Span(0, 0));
    assert Covered(coverage, v.start, v.end) <==> SomeMatchSpans(before.detections, v.start, v.end);
    assert Adding(input, coverage, normalize, d)(visits[j]);
  }

  lemma FirstIsEarliest(additions: seq<Declared>, to: nat, e: string, i: nat, d: Declared)
    requires AnchorsRise(additions, to) && i < |additions| && d in additions && d.license.expression == e
    requires forall j | 0 <= j < i :: additions[j].license.expression != e
    ensures additions[i].anchor <= d.anchor
  {
    var x :| 0 <= x < |additions| && additions[x] == d;
    assert x == i || i < x;
  }

  lemma DetectionIdentified(input: Bytes, before: ScanResult, normalize: Bytes -> Normalized, after: ScanResult,
                            coverage: seq<Span>, swept: Swept, visits: seq<Visit>, i: nat)
    requires Swapped(input, before, normalize, after, coverage, swept, visits) && RulesOnly(before)
      && i < |after.detections|
    ensures IdentifiedIn(input, before, normalize, visits, after.detections[i])
  {
    var d, keep := after.detections[i], Unsuperseded(swept.declarations, swept.cutOff);
    var e := d.expression;
    OwnDetection(after.detections, i);
    DetectionListed(before.detections, e);
    var earlier, added := DetectionOf(before.detections, e), AdditionFor(swept.additions, e);
    assert Some(d) == Merged(Remaining(keep, earlier), added);
    if Remaining(keep, earlier).Some? {
      var m := Filter(keep, earlier.value.matches)[0];
      FilterMembers(keep, earlier.value.matches, m);
      assert m in d.matches && m.origin.OfRule?;
    } else {
      forall m | m in d.matches ensures m.origin.OfTag? { AdditionMembers(swept.additions, e, m); }
      var first := AdditionIdentified(swept.additions, e);
      var k := FirstAddition(input, before, normalize, coverage, visits, e, first);
    }
  }

  lemma TagsIdentified(input: Bytes, before: ScanResult, normalize: Bytes -> Normalized, after: ScanResult,
                       coverage: seq<Span>, swept: Swept, visits: seq<Visit>)
    requires Swapped(input, before, normalize, after, coverage, swept, visits) && RulesOnly(before)
    ensures TagsIdentify(input, before, normalize, visits, after)
  {
    forall i: nat | i < |after.detections|
      ensures IdentifiedIn(input, before, normalize, visits, after.detections[i])
    {
      DetectionIdentified(input, before, normalize, after, coverage, swept, visits, i);
    }
  }

  lemma ArrangedIdentified(input: Bytes, before: ScanResult, normalize: Bytes -> Normalized, visits: seq<Visit>,
                           after: ScanResult, r: ScanResult)
    requires TagsIdentify(input, before, normalize, visits, after) && Grouped(after.detections)
    requires Arranged(after.detections, r.detections)
    ensures TagsIdentify(input, before, normalize, visits, r)
  {
    forall i: nat | i < |r.detections| ensures IdentifiedIn(input, before, normalize, visits, r.detections[i]) {
      var e := r.detections[i].expression;
      OwnDetection(r.detections, i);
      DetectionListed(after.detections, e);
      assert match DetectionOf(after.detections, e)
        case None => DetectionOf(r.detections, e) == None
        case Some(d) => DetectionOf(r.detections, e).Some? && SameMatches(d, DetectionOf(r.detections, e).value);
      var j :| 0 <= j < |after.detections| && after.detections[j] == DetectionOf(after.detections, e).value;
      assert IdentifiedIn(input, before, normalize, visits, after.detections[j]);
    }
  }
}
