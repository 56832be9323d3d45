/** What a report says, read off the fields of the outcomes alone. */
module ReportContents {
  import opened Options
  import opened Detections
  import opened Strings
  import opened Folds
  import opened ScanReport
  import opened ScanFold
  import Sorting

  // Counting ------------------------------------------------------------------------------------

  /** Where the members of a list satisfy a condition. */
  ghost function Places<T>(s: seq<T>, holds: T -> bool): set<nat> {
    set i: nat | i < |s| && holds(s[i])
  }

  ghost function Tally<T>(holds: T -> bool): T -> nat {
    (t: T) => if holds(t) then 1 else 0
  }

  /** Adding ones up counts the places. */
  lemma {:induction false} TallyCounts<T>(s: seq<T>, holds: T -> bool)
    ensures Sum(Tally(holds), s) == |Places(s, holds)|
  {
    if s == [] {
      assert Places(s, holds) == {};
    } else {
      var n := |s| - 1;
      TallyCounts(s[..n], holds);
      assert Places(s, holds) == Places(s[..n], holds) + if holds(s[n]) then {n} else {};
    }
  }

  lemma {:induction false} SumAlike<T>(f: T -> nat, g: T -> nat, s: seq<T>)
    requires forall t | t in s :: f(t) == g(t)
    ensures Sum(f, s) == Sum(g, s)
  {
    if s == [] {
    } else {
      SumAlike(f, g, s[..|s| - 1]);
    }
  }

  lemma CountsPlaces<T>(f: T -> nat, holds: T -> bool, s: seq<T>)
    requires forall t | t in s :: f(t) == if holds(t) then 1 else 0
    ensures Sum(f, s) == |Places(s, holds)|
  {
    SumAlike(f, Tally(holds), s);
    TallyCounts(s, holds);
  }

  ghost function Occurs<T, R>(f: T -> seq<R>, r: R): T -> nat {
    (t: T) => multiset(f(t))[r]
  }

  lemma {:induction false} CollectCounts<T, R>(f: T -> seq<R>, s: seq<T>, r: R)
    ensures multiset(Collect(f, s))[r] == Sum(Occurs(f, r), s)
  {
    if s == [] {
    } else {
      CollectCounts(f, s[..|s| - 1], r);
    }
  }

  ghost function SumIn<T, R>(f: T -> seq<R>, g: R -> nat): T -> nat {
    (t: T) => Sum(g, f(t))
  }

  lemma {:induction false} SumConcat<R>(g: R -> nat, a: seq<R>, b: seq<R>)
    ensures Sum(g, a + b) == Sum(g, a) + Sum(g, b)
  {
    if b == [] {
      assert a + b == a;
    } else {
      var n := |b| - 1;
      SumConcat(g, a, b[..n]);
      assert (a + b)[..|a| + n] == a + b[..n] && (a + b)[|a| + n] == b[n];
    }
  }

  lemma {:induction false} SumCollect<T, R>(f: T -> seq<R>, g: R -> nat, s: seq<T>)
    ensures Sum(g, Collect(f, s)) == Sum(SumIn(f, g), s)
  {
    if s == [] {
    } else {
      var n := |s| - 1;
      SumCollect(f, g, s[..n]);
      SumConcat(g, Collect(f, s[..n]), f(s[n]));
    }
  }

  // Single outcomes -------------------------------------------------------------------------------

  ghost predicate IsBinary(o: Outcome) {
    o.error == None && o.binary
  }

  ghost predicate IsTooLarge(o: Outcome) {
    o.error == None && !o.binary && o.tooLarge
  }

  /** The file was scanned without trouble and has something to show: a detection, a clue, or a legal file's role. */
  ghost predicate Shows(legal: bool, o: Outcome) {
    && o.error == None && !o.binary && !o.tooLarge && o.scanned
    && (o.file.detections != [] || o.file.clues != [] || (legal && o.file.roles != []))
  }

  ghost predicate ShowsAs(legal: bool, o: Outcome, f: FileRecord) {
    Shows(legal, o) && f == o.file.(path := o.path)
  }

  ghost predicate FailsAs(o: Outcome, e: PathRecord) {
    o.error.Some? && e == PathRecord(o.path, o.error.value)
  }

  ghost predicate SkippedAs(o: Outcome, e: PathRecord) {
    (IsBinary(o) && e == PathRecord(o.path, "binary")) || (IsTooLarge(o) && e == PathRecord(o.path, "size"))
  }

  /** A detection of the shown file is identified so. */
  ghost predicate Identifies(legal: bool, o: Outcome, identification: Identification) {
    Shows(legal, o) && exists d :: d in o.file.detections && d.identification == identification
  }

  // Lists and counters ------------------------------------------------------------------------------

  /** How often each record is listed. */
  ghost predicate ListsHold(r: Report, legal: bool, found: Discovery, outcomes: seq<Outcome>) {
    && (forall f :: multiset(r.files)[f] == |Places(outcomes, (o: Outcome) => ShowsAs(legal, o, f))|)
    && (forall e :: multiset(r.errors)[e]
          == multiset(found.errors)[e] + |Places(outcomes, (o: Outcome) => FailsAs(o, e))|)
    && (forall e :: multiset(r.skipped)[e]
          == multiset(found.skipped)[e] + |Places(outcomes, (o: Outcome) => SkippedAs(o, e))|)
    && multiset(r.declared) == multiset(found.declared)
  }

  /** Lists are in order of their paths, and then of the text. */
  ghost predicate ListsInOrder(r: Report) {
    && (forall i, j | 0 <= i < j < |r.files| :: StringLe(r.files[i].path, r.files[j].path))
    && (forall i, j | 0 <= i < j < |r.declared| :: StringLe(r.declared[i].path, r.declared[j].path))
    && PathsInOrder(r.errors) && PathsInOrder(r.skipped)
  }

  ghost predicate PathsInOrder(s: seq<PathRecord>) {
    forall i, j | 0 <= i < j < |s| ::
      StringLe(s[i].path, s[j].path) && (s[i].path == s[j].path ==> StringLe(s[i].text, s[j].text))
  }

  ghost function BytesOf(o: Outcome): nat {
    if o.scanned then o.bytes else 0
  }

  /** What each counter counts. */
  ghost predicate Counted(r: Report, legal: bool, outcomes: seq<Outcome>) {
    var s := r.summary;
    && s.filesScanned == |Places(outcomes, (o: Outcome) => o.scanned)|
    && s.bytesScanned == Sum(BytesOf, outcomes)
    && s.skippedBinary == |Places(outcomes, IsBinary)| && s.skippedSize == |Places(outcomes, IsTooLarge)|
    && s.withDetections == |Places(outcomes, (o: Outcome) => Shows(legal, o) && o.file.detections != [])|
    && s.withClues == |Places(outcomes, (o: Outcome) => Shows(legal, o) && o.file.clues != [])|
    && s.identified == |Places(outcomes, (o: Outcome) => Identifies(legal, o, Identified))|
    && s.partially == |Places(outcomes, (o: Outcome) => Identifies(legal, o, Partial))|
    && s.noAssertion == |Places(outcomes, (o: Outcome) => Identifies(legal, o, NoAssertion))|
    && r.errorCount == |r.errors|
  }

  lemma ListedBy(legal: bool, o: Outcome, f: FileRecord)
    ensures multiset(ReportedBy(legal)(o))[f] == if ShowsAs(legal, o, f) then 1 else 0
  {
    var list := ReportedBy(legal)(o);
    if Shows(legal, o) {
      assert list == [o.file.(path := o.path)];
    } else {
      assert list == [];
    }
  }

  lemma FilesCounted(legal: bool, outcomes: seq<Outcome>, f: FileRecord)
    ensures multiset(Collect(ReportedBy(legal), outcomes))[f]
      == |Places(outcomes, (o: Outcome) => ShowsAs(legal, o, f))|
  {
    CollectCounts(ReportedBy(legal), outcomes, f);
    forall o | o in outcomes ensures Occurs(ReportedBy(legal), f)(o) == if ShowsAs(legal, o, f) then 1 else 0 {
      ListedBy(legal, o, f);
    }
    CountsPlaces(Occurs(ReportedBy(legal), f), (o: Outcome) => ShowsAs(legal, o, f), outcomes);
  }

  lemma ErrorsCounted(legal: bool, outcomes: seq<Outcome>, e: PathRecord)
    ensures multiset(Collect(ErrorsBy(legal), outcomes))[e] == |Places(outcomes, (o: Outcome) => FailsAs(o, e))|
  {
    CollectCounts(ErrorsBy(legal), outcomes, e);
    CountsPlaces(Occurs(ErrorsBy(legal), e), (o: Outcome) => FailsAs(o, e), outcomes);
  }

  lemma SkipsCounted(legal: bool, outcomes: seq<Outcome>, e: PathRecord)
    ensures multiset(Collect(SkipsBy(legal), outcomes))[e] == |Places(outcomes, (o: Outcome) => SkippedAs(o, e))|
  {
    CollectCounts(SkipsBy(legal), outcomes, e);
    forall o | o in outcomes ensures Occurs(SkipsBy(legal), e)(o) == if SkippedAs(o, e) then 1 else 0 {
      SkippedBy(legal, o, e);
    }
    CountsPlaces(Occurs(SkipsBy(legal), e), (o: Outcome) => SkippedAs(o, e), outcomes);
  }

  lemma SkippedBy(legal: bool, o: Outcome, e: PathRecord)
    ensures multiset(SkipsBy(legal)(o))[e] == if SkippedAs(o, e) then 1 else 0
  {
  }

  lemma CounterCounts(s: Summary, legal: bool, outcomes: seq<Outcome>, field: Field, holds: Outcome -> bool)
    requires Totals(s, legal, outcomes)
    requires forall o :: CountOf(legal, field, o) == if holds(o) then 1 else 0
    ensures FieldOf(s, field) == |Places(outcomes, holds)|
  {
    CountsPlaces(Count(legal, field), holds, outcomes);
  }

  lemma IdentifiedCounts(s: Summary, legal: bool, outcomes: seq<Outcome>, identification: Identification)
    requires Totals(s, legal, outcomes)
    ensures FieldOf(s, With(identification)) == |Places(outcomes, (o: Outcome) => Identifies(legal, o, identification))|
  {
    var holds := (o: Outcome) => Identifies(legal, o, identification);
    forall o ensures CountOf(legal, With(identification), o) == if holds(o) then 1 else 0 {
      assert Mentions(o.file, identification)
        <==> exists d :: d in o.file.detections && d.identification == identification;
    }
    CounterCounts(s, legal, outcomes, With(identification), holds);
  }

  lemma CountersCount(r: Report, legal: bool, outcomes: seq<Outcome>)
    requires Totals(r.summary, legal, outcomes) && r.errorCount == |r.errors|
    ensures Counted(r, legal, outcomes)
  {
    var s := r.summary;
    CounterCounts(s, legal, outcomes, FilesScanned, (o: Outcome) => o.scanned);
    CounterCounts(s, legal, outcomes, SkippedBinary, IsBinary);
    CounterCounts(s, legal, outcomes, SkippedSize, IsTooLarge);
    CounterCounts(s, legal, outcomes, WithDetections, (o: Outcome) => Shows(legal, o) && o.file.detections != []);
    CounterCounts(s, legal, outcomes, WithClues, (o: Outcome) => Shows(legal, o) && o.file.clues != []);
    IdentifiedCounts(s, legal, outcomes, Identified);
    IdentifiedCounts(s, legal, outcomes, Partial);
    IdentifiedCounts(s, legal, outcomes, NoAssertion);
    assert FieldOf(s, BytesScanned) == Sum(Count(legal, BytesScanned), outcomes);
    SumAlike(Count(legal, BytesScanned), BytesOf, outcomes);
  }

  lemma ListsAreHeld(r: Report, legal: bool, isRoot: FileRecord -> bool, found: Discovery, outcomes: seq<Outcome>)
    requires ReportOk(r, legal, isRoot, found, outcomes)
    ensures ListsHold(r, legal, found, outcomes) && ListsInOrder(r)
  {
    FileOrderIsTotal();
    PathOrderIsTotal();
    DeclaredOrderIsTotal();
    Sorting.SortIsSortedPermutation(FileOrder(), Collect(ReportedBy(legal), outcomes));
    Sorting.SortIsSortedPermutation(PathOrder(), found.errors + Collect(ErrorsBy(legal), outcomes));
    Sorting.SortIsSortedPermutation(PathOrder(), found.skipped + Collect(SkipsBy(legal), outcomes));
    Sorting.SortIsSortedPermutation(DeclaredOrder(), found.declared);
    forall f ensures multiset(r.files)[f] == |Places(outcomes, (o: Outcome) => ShowsAs(legal, o, f))| {
      FilesCounted(legal, outcomes, f);
    }
    forall e ensures multiset(r.errors)[e]
      == multiset(found.errors)[e] + |Places(outcomes, (o: Outcome) => FailsAs(o, e))|
    {
      ErrorsCounted(legal, outcomes, e);
    }
    forall e ensures multiset(r.skipped)[e]
      == multiset(found.skipped)[e] + |Places(outcomes, (o: Outcome) => SkippedAs(o, e))|
    {
      SkipsCounted(legal, outcomes, e);
    }
    SortedPaths(r.errors);
    SortedPaths(r.skipped);
    forall i, j | 0 <= i < j < |r.files| ensures StringLe(r.files[i].path, r.files[j].path) {
      assert FileOrder()(r.files[i], r.files[j]);
    }
    forall i, j | 0 <= i < j < |r.declared| ensures StringLe(r.declared[i].path, r.declared[j].path) {
      assert DeclaredOrder()(r.declared[i], r.declared[j]);
    }
  }

  lemma SortedPaths(s: seq<PathRecord>)
    requires Sorting.Sorted(PathOrder(), s)
    ensures PathsInOrder(s)
  {
    forall i, j | 0 <= i < j < |s|
      ensures StringLe(s[i].path, s[j].path) && (s[i].path == s[j].path ==> StringLe(s[i].text, s[j].text))
    {
      assert PathOrder()(s[i], s[j]);
      StringLeTotal(s[i].path, s[j].path);
    }
  }

  // Expression records --------------------------------------------------------------------------------

  /** The detections of the expression in a shown file. */
  ghost function Stated(legal: bool, e: string): Outcome -> nat {
    (o: Outcome) =>
      if Shows(legal, o) then |Places(o.file.detections, (d: DetectionRecord) => d.expression == e)| else 0
  }

  ghost function MatchesOf(e: string): DetectionRecord -> nat {
    (d: DetectionRecord) => if d.expression == e then |d.matches| else 0
  }

  /** The matches in them. */
  ghost function StatedMatches(legal: bool, e: string): Outcome -> nat {
    (o: Outcome) => if Shows(legal, o) then Sum(MatchesOf(e), o.file.detections) else 0
  }

  /** Detection `k` of outcome `i` is shown and states the expression. */
  ghost predicate StatesAt(legal: bool, outcomes: seq<Outcome>, e: string, i: nat, k: nat) {
    && i < |outcomes| && Shows(legal, outcomes[i]) && k < |outcomes[i].file.detections|
    && outcomes[i].file.detections[k].expression == e
  }

  /** It is the first that does. */
  ghost predicate FirstAt(legal: bool, outcomes: seq<Outcome>, e: string, i: nat, k: nat) {
    && StatesAt(legal, outcomes, e, i, k)
    && forall j: nat, l: nat | StatesAt(legal, outcomes, e, j, l) :: i < j || (i == j && k <= l)
  }

  /** The record sums up the shown detections of its expression, and is identified as the first of them. */
  ghost predicate RecordHolds(x: ExpressionRecord, legal: bool, isRoot: FileRecord -> bool, outcomes: seq<Outcome>) {
    var e := x.expression;
    && x.files == Sum(Stated(legal, e), outcomes) && x.matches == Sum(StatedMatches(legal, e), outcomes)
    && (x.root <==> exists i: nat, k: nat ::
          StatesAt(legal, outcomes, e, i, k) && isRoot(outcomes[i].file.(path := outcomes[i].path)))
    && exists i: nat, k: nat :: FirstAt(legal, outcomes, e, i, k)
         && x.identification == outcomes[i].file.detections[k].identification
  }

  /** One record for each expression that is stated, in order. */
  ghost predicate ExpressionsHold(r: Report, legal: bool, isRoot: FileRecord -> bool, outcomes: seq<Outcome>) {
    && (forall x | x in r.expressions :: RecordHolds(x, legal, isRoot, outcomes))
    && (forall e: string, i: nat, k: nat | StatesAt(legal, outcomes, e, i, k) ::
          exists x :: x in r.expressions && x.expression == e)
    && forall i, j | 0 <= i < j < |r.expressions| ::
         r.expressions[i].expression != r.expressions[j].expression
         && StringLe(r.expressions[i].expression, r.expressions[j].expression)
  }

  lemma {:induction false} ContributionsSum(root: bool, ds: seq<DetectionRecord>, f: Contribution -> nat,
                                            g: DetectionRecord -> nat)
    requires forall d: DetectionRecord :: f(Contribution(d.expression, d.identification, root, |d.matches|)) == g(d)
    ensures Sum(f, ContributionsOf(root, ds)) == Sum(g, ds)
  {
    if ds == [] {
    } else {
      var n := |ds| - 1;
      ContributionsSum(root, ds[..n], f, g);
      assert ContributionsOf(root, ds)[..n] == ContributionsOf(root, ds[..n]);
    }
  }

  /** What an outcome contributes: its shown detections, or nothing. */
  lemma ContributionsShown(legal: bool, isRoot: FileRecord -> bool, o: Outcome)
    ensures ContributionsBy(legal, isRoot)(o)
      == if Shows(legal, o) then ContributionsOf(isRoot(o.file.(path := o.path)), o.file.detections) else []
  {
    if Shows(legal, o) {
      assert CategoryOf(legal, o) == Reported(o.file.(path := o.path));
    } else {
      assert !CategoryOf(legal, o).Reported?;
    }
  }

  lemma StatedSums(legal: bool, isRoot: FileRecord -> bool, outcomes: seq<Outcome>, e: string)
    ensures var cs := Collect(ContributionsBy(legal, isRoot), outcomes);
      Sum(States(e), cs) == Sum(Stated(legal, e), outcomes)
      && Sum(MatchesFor(e), cs) == Sum(StatedMatches(legal, e), outcomes)
  {
    var gives := ContributionsBy(legal, isRoot);
    SumCollect(gives, States(e), outcomes);
    SumCollect(gives, MatchesFor(e), outcomes);
    forall o | o in outcomes
      ensures SumIn(gives, States(e))(o) == Stated(legal, e)(o)
      ensures SumIn(gives, MatchesFor(e))(o) == StatedMatches(legal, e)(o)
    {
      ContributionsShown(legal, isRoot, o);
      var root, holds := isRoot(o.file.(path := o.path)), (d: DetectionRecord) => d.expression == e;
      ContributionsSum(root, o.file.detections, States(e), Tally(holds));
      ContributionsSum(root, o.file.detections, MatchesFor(e), MatchesOf(e));
      TallyCounts(o.file.detections, holds);
    }
    SumAlike(SumIn(gives, States(e)), Stated(legal, e), outcomes);
    SumAlike(SumIn(gives, MatchesFor(e)), StatedMatches(legal, e), outcomes);
  }

  /** Contributions to an expression are its shown detections. */
  lemma ContributedAt(legal: bool, isRoot: FileRecord -> bool, outcomes: seq<Outcome>, d: Contribution)
    requires d in Collect(ContributionsBy(legal, isRoot), outcomes)
    ensures exists i: nat, k: nat ::
      StatesAt(legal, outcomes, d.expression, i, k) && d.root == isRoot(outcomes[i].file.(path := outcomes[i].path))
  {
    CollectMember(ContributionsBy(legal, isRoot), outcomes, d);
    var o :| o in outcomes && d in ContributionsBy(legal, isRoot)(o);
    ContributionsShown(legal, isRoot, o);
    var i: nat :| i < |outcomes| && outcomes[i] == o;
    var k: nat :| k < |o.file.detections|
      && ContributionsOf(isRoot(o.file.(path := o.path)), o.file.detections)[k] == d;
    assert StatesAt(legal, outcomes, d.expression, i, k);
  }

  lemma StatedContributes(legal: bool, isRoot: FileRecord -> bool, outcomes: seq<Outcome>, e: string, i: nat, k: nat)
    returns (d: Contribution)
    requires StatesAt(legal, outcomes, e, i, k)
    ensures d in Collect(ContributionsBy(legal, isRoot), outcomes) && d.expression == e
      && d.root == isRoot(outcomes[i].file.(path := outcomes[i].path))
  {
    var o := outcomes[i];
    ContributionsShown(legal, isRoot, o);
    d := ContributionsOf(isRoot(o.file.(path := o.path)), o.file.detections)[k];
    assert o in outcomes && d in ContributionsBy(legal, isRoot)(o);
    CollectMember(ContributionsBy(legal, isRoot), outcomes, d);
  }

  ghost predicate FirstIn(ds: seq<DetectionRecord>, e: string, k: nat) {
    k < |ds| && ds[k].expression == e && forall l | 0 <= l < k :: ds[l].expression != e
  }

  lemma {:induction false} FirstOfFile(root: bool, ds: seq<DetectionRecord>, e: string) returns (k: nat)
    ensures match FirstIdentification(ContributionsOf(root, ds), e)
      case None => forall l | 0 <= l < |ds| :: ds[l].expression != e
      case Some(identification) => FirstIn(ds, e, k) && ds[k].identification == identification
  {
    k := 0;
    if ds != [] {
      var n := |ds| - 1;
      k := FirstOfFile(root, ds[..n], e);
      assert ContributionsOf(root, ds)[..n] == ContributionsOf(root, ds[..n]);
      assert forall l | 0 <= l < n :: ds[..n][l] == ds[l];
      if FirstIdentification(ContributionsOf(root, ds[..n]), e) == None { k := n; }
    }
  }

  lemma {:induction false} FirstOfAll(legal: bool, isRoot: FileRecord -> bool, outcomes: seq<Outcome>, e: string)
    returns (i: nat, k: nat)
    ensures match FirstIdentification(Collect(ContributionsBy(legal, isRoot), outcomes), e)
      case None => forall j: nat, l: nat :: !StatesAt(legal, outcomes, e, j, l)
      case Some(identification) =>
        FirstAt(legal, outcomes, e, i, k) && outcomes[i].file.detections[k].identification == identification
  {
    i, k := 0, 0;
    if outcomes != [] {
      var n := |outcomes| - 1;
      var o, gives := outcomes[n], ContributionsBy(legal, isRoot);
      i, k := FirstOfAll(legal, isRoot, outcomes[..n], e);
      FirstConcat(Collect(gives, outcomes[..n]), gives(o), e);
      EarlierStated(legal, outcomes, e);
      if FirstIdentification(Collect(gives, outcomes[..n]), e) == None {
        i := n;
        k := FirstOfLast(legal, isRoot, outcomes, e);
      }
    }
  }

  /** Where no earlier outcome states the expression, the last one decides. */
  lemma FirstOfLast(legal: bool, isRoot: FileRecord -> bool, outcomes: seq<Outcome>, e: string) returns (k: nat)
    requires outcomes != [] && forall j: nat, l: nat | j < |outcomes| - 1 :: !StatesAt(legal, outcomes, e, j, l)
    ensures match FirstIdentification(ContributionsBy(legal, isRoot)(outcomes[|outcomes| - 1]), e)
      case None => forall j: nat, l: nat :: !StatesAt(legal, outcomes, e, j, l)
      case Some(identification) =>
        && FirstAt(legal, outcomes, e, |outcomes| - 1, k)
        && outcomes[|outcomes| - 1].file.detections[k].identification == identification
  {
    var o := outcomes[|outcomes| - 1];
    k := 0;
    ContributionsShown(legal, isRoot, o);
    if Shows(legal, o) { k := FirstOfFile(isRoot(o.file.(path := o.path)), o.file.detections, e); }
  }

  lemma EarlierStated(legal: bool, outcomes: seq<Outcome>, e: string)
    requires outcomes != []
    ensures forall j: nat, l: nat | j < |outcomes| - 1 ::
      StatesAt(legal, outcomes, e, j, l) <==> StatesAt(legal, outcomes[..|outcomes| - 1], e, j, l)
  {
  }

  lemma RecordIsHeld(x: ExpressionRecord, legal: bool, isRoot: FileRecord -> bool, outcomes: seq<Outcome>)
    requires RecordOk(x, Collect(ContributionsBy(legal, isRoot), outcomes))
    ensures RecordHolds(x, legal, isRoot, outcomes)
  {
    var e, cs := x.expression, Collect(ContributionsBy(legal, isRoot), outcomes);
    StatedSums(legal, isRoot, outcomes, e);
    var i, k := FirstOfAll(legal, isRoot, outcomes, e);
    if x.root {
      var d :| d in cs && d.expression == e && d.root;
      ContributedAt(legal, isRoot, outcomes, d);
    }
    if j: nat, l: nat :|
      StatesAt(legal, outcomes, e, j, l) && isRoot(outcomes[j].file.(path := outcomes[j].path))
    {
      var d := StatedContributes(legal, isRoot, outcomes, e, j, l);
    }
  }

  lemma ExpressionsAreHeld(r: Report, legal: bool, isRoot: FileRecord -> bool, found: Discovery,
                           outcomes: seq<Outcome>)
    requires ReportOk(r, legal, isRoot, found, outcomes)
    ensures ExpressionsHold(r, legal, isRoot, outcomes)
  {
    var cs := Collect(ContributionsBy(legal, isRoot), outcomes);
    var m, list :| ExpressionsOk(m, cs) && Lists(m, list) && r.expressions == Sorting.Sort(ExpressionOrder(), list);
    ExpressionOrderIsTotal();
    Sorting.SortIsSortedPermutation(ExpressionOrder(), list);
    forall x ensures x in r.expressions <==> x in list { assert x in multiset(r.expressions) <==> x in multiset(list); }
    forall x | x in r.expressions ensures RecordHolds(x, legal, isRoot, outcomes) {
      var i :| 0 <= i < |list| && list[i] == x;
      RecordIsHeld(x, legal, isRoot, outcomes);
    }
    forall e: string, i: nat, k: nat | StatesAt(legal, outcomes, e, i, k)
      ensures exists x :: x in r.expressions && x.expression == e
    {
      var d := StatedContributes(legal, isRoot, outcomes, e, i, k);
      assert m[e] in list;
    }
    OneRecordEach(m, list, r.expressions);
  }

  lemma OneRecordEach(m: map<string, ExpressionRecord>, list: seq<ExpressionRecord>, sorted: seq<ExpressionRecord>)
    requires Lists(m, list) && multiset(sorted) == multiset(list) && Sorting.Sorted(ExpressionOrder(), sorted)
    ensures forall i, j | 0 <= i < j < |sorted| ::
      sorted[i].expression != sorted[j].expression && StringLe(sorted[i].expression, sorted[j].expression)
  {
    ScanFold.ListedOnce(m, list);
    forall i, j | 0 <= i < j < |sorted|
      ensures sorted[i].expression != sorted[j].expression
      ensures StringLe(sorted[i].expression, sorted[j].expression)
    {
      assert ExpressionOrder()(sorted[i], sorted[j]);
      assert sorted[i] in multiset(list) && sorted[j] in multiset(list);
      var a :| 0 <= a < |list| && list[a] == sorted[i];
      var b :| 0 <= b < |list| && list[b] == sorted[j];
      assert multiset(list)[sorted[i]] == 1;
      TwiceCounted(sorted, i, j);
    }
  }

  lemma TwiceCounted<T>(s: seq<T>, i: nat, j: nat)
    requires i < j < |s|
    ensures s[i] == s[j] ==> multiset(s)[s[i]] >= 2
  {
    assert s == s[..j] + [s[j]] + s[j + 1..];
    assert s[i] in s[..j];
  }

  /** Everything the report says. */
  ghost predicate Tells(r: Report, legal: bool, isRoot: FileRecord -> bool, found: Discovery, outcomes: seq<Outcome>) {
    && ListsHold(r, legal, found, outcomes) && ListsInOrder(r) && Counted(r, legal, outcomes)
    && ExpressionsHold(r, legal, isRoot, outcomes)
  }

  /** The report of a list of outcomes tells what their fields say. */
  lemma ReportTells(r: Report, legal: bool, isRoot: FileRecord -> bool, found: Discovery, outcomes: seq<Outcome>)
    requires ReportOk(r, legal, isRoot, found, outcomes)
    ensures Tells(r, legal, isRoot, found, outcomes)
  {
    ListsAreHeld(r, legal, isRoot, found, outcomes);
    CountersCount(r, legal, outcomes);
    ExpressionsAreHeld(r, legal, isRoot, found, outcomes);
  }
}
