/** Expression records, and the whole report of a list of outcomes. */
module ScanFold {
  import opened Options
  import opened Detections
  import opened Folds
  import opened ScanReport
  import opened Sequences
  import ScanWorkers
  import Sorting
  import Strings

  // Expressions -----------------------------------------------------------------------------------

  /** What one detection of a reported file adds to its expression's record. */
  datatype Contribution = Contribution(expression: string, identification: Identification, root: bool, matches: nat)

  function ContributionsOf(root: bool, detections: seq<DetectionRecord>): seq<Contribution> {
    seq(|detections|, i requires 0 <= i < |detections| =>
      Contribution(detections[i].expression, detections[i].identification, root, |detections[i].matches|))
  }

  function ContributionsBy(legal: bool, isRoot: FileRecord -> bool): Outcome -> seq<Contribution> {
    (o: Outcome) => match CategoryOf(legal, o) case Reported(file) => ContributionsOf(isRoot(file), file.detections)
      case _ => []
  }

  function States(expression: string): Contribution -> nat {
    (d: Contribution) => One(d.expression == expression)
  }

  function MatchesFor(expression: string): Contribution -> nat {
    (d: Contribution) => if d.expression == expression then d.matches else 0
  }

  /** The identification that comes with the first contribution to an expression. */
  function FirstIdentification(ds: seq<Contribution>, expression: string): Option<Identification> {
    if ds == [] then None
    else
      var n := |ds| - 1;
      var before := FirstIdentification(ds[..n], expression);
      if before.Some? then before
      else if ds[n].expression == expression then Some(ds[n].identification) else None
  }

  /** The record adds up all contributions to its expression and is identified as the first of them. */
  ghost predicate RecordOk(r: ExpressionRecord, ds: seq<Contribution>) {
    && r.files == Sum(States(r.expression), ds) && r.matches == Sum(MatchesFor(r.expression), ds)
    && (r.root <==> RootStates(ds, r.expression))
    && FirstIdentification(ds, r.expression) == Some(r.identification)
  }

  /** A root file contributes to the expression. */
  ghost predicate RootStates(ds: seq<Contribution>, expression: string) {
    exists d :: d in ds && d.expression == expression && d.root
  }

  lemma RootMore(ds: seq<Contribution>, d: Contribution, e: string)
    ensures RootStates(ds + [d], e) <==> RootStates(ds, e) || (d.expression == e && d.root)
  {
    if RootStates(ds, e) {
      var x :| x in ds && x.expression == e && x.root;
      assert x in ds + [d];
    }
    assert d in ds + [d];
  }

  ghost predicate ExpressionsOk(m: map<string, ExpressionRecord>, ds: seq<Contribution>) {
    && (forall e {:trigger m[e]} | e in m :: m[e].expression == e && RecordOk(m[e], ds))
    && forall d | d in ds :: d.expression in m
  }

  lemma FirstMore(ds: seq<Contribution>, d: Contribution, e: string)
    ensures FirstIdentification(ds + [d], e) == if FirstIdentification(ds, e).Some? then FirstIdentification(ds, e)
      else if d.expression == e then Some(d.identification) else None
  {
    assert (ds + [d])[..|ds|] == ds;
  }

  lemma {:induction false} FirstStated(ds: seq<Contribution>, e: string)
    ensures FirstIdentification(ds, e).Some? <==> exists d :: d in ds && d.expression == e
  {
    if ds == [] {
    } else {
      var n := |ds| - 1;
      FirstStated(ds[..n], e);
      assert ds == ds[..n] + [ds[n]];
    }
  }

  lemma {:induction false} FirstConcat(a: seq<Contribution>, b: seq<Contribution>, e: string)
    ensures FirstIdentification(a + b, e) == if FirstIdentification(a, e).Some? then FirstIdentification(a, e)
      else FirstIdentification(b, e)
  {
    if b == [] {
      assert a + b == a;
    } else {
      var n := |b| - 1;
      assert a + b == (a + b[..n]) + [b[n]];
      FirstMore(a + b[..n], b[n], e);
      FirstConcat(a, b[..n], e);
    }
  }

  function Updated(m: map<string, ExpressionRecord>, d: Contribution): map<string, ExpressionRecord> {
    var r := if d.expression in m then m[d.expression]
      else ExpressionRecord(d.expression, d.identification, false, 0, 0);
    m[d.expression := r.(root := r.root || d.root, files := r.files + 1, matches := r.matches + d.matches)]
  }

  lemma {:induction false} NoContribution(ds: seq<Contribution>, e: string)
    requires forall d | d in ds :: d.expression != e
    ensures Sum(States(e), ds) == 0 && Sum(MatchesFor(e), ds) == 0 && FirstIdentification(ds, e) == None
  {
    if ds == [] {
    } else {
      assert ds[|ds| - 1] in ds;
      NoContribution(ds[..|ds| - 1], e);
    }
  }

  lemma SumMore<T>(f: T -> nat, s: seq<T>, x: T)
    ensures Sum(f, s + [x]) == Sum(f, s) + f(x)
  {
    assert (s + [x])[..|s|] == s;
  }

  lemma RecordGrows(r: ExpressionRecord, ds: seq<Contribution>, d: Contribution)
    requires RecordOk(r, ds) && r.expression != d.expression
    ensures RecordOk(r, ds + [d])
  {
    SumMore(States(r.expression), ds, d);
    SumMore(MatchesFor(r.expression), ds, d);
    FirstMore(ds, d, r.expression);
    RootMore(ds, d, r.expression);
  }

  lemma RecordJoins(m: map<string, ExpressionRecord>, ds: seq<Contribution>, d: Contribution)
    requires ExpressionsOk(m, ds)
    ensures RecordOk(Updated(m, d)[d.expression], ds + [d])
  {
    var e := d.expression;
    SumMore(States(e), ds, d);
    SumMore(MatchesFor(e), ds, d);
    FirstMore(ds, d, e);
    RootMore(ds, d, e);
    if e !in m { NoContribution(ds, e); }
  }

  lemma UpdateOne(m: map<string, ExpressionRecord>, ds: seq<Contribution>, d: Contribution)
    requires ExpressionsOk(m, ds)
    ensures ExpressionsOk(Updated(m, d), ds + [d])
  {
    var after, more := Updated(m, d), ds + [d];
    RecordJoins(m, ds, d);
    forall e | e in after ensures after[e].expression == e && RecordOk(after[e], more) {
      if e != d.expression { RecordGrows(m[e], ds, d); }
    }
  }

  lemma UpdateNext(m: map<string, ExpressionRecord>, ds: seq<Contribution>, all: seq<Contribution>, i: nat)
    requires i < |all| && ExpressionsOk(m, ds + all[..i])
    ensures ExpressionsOk(Updated(m, all[i]), ds + all[..i + 1])
  {
    UpdateOne(m, ds + all[..i], all[i]);
    Regroup(ds, all[..i], [all[i]]);
    TakeNext(all, i);
  }

  method AddExpressionRecords(m0: map<string, ExpressionRecord>, file: FileRecord, isRoot: FileRecord -> bool,
                              ghost ds: seq<Contribution>)
    returns (m: map<string, ExpressionRecord>)
    requires ExpressionsOk(m0, ds)
    ensures ExpressionsOk(m, ds + ContributionsOf(isRoot(file), file.detections))
  {
    m := m0;
    var root := isRoot(file);
    ghost var all := ContributionsOf(root, file.detections);
    assert ds + all[..0] == ds;
    for i := 0 to |file.detections|
      invariant ExpressionsOk(m, ds + all[..i])
    {
      var detection := file.detections[i];
      UpdateNext(m, ds, all, i);
      m := Updated(m, Contribution(detection.expression, detection.identification, root, |detection.matches|));
    }
    assert all[..|file.detections|] == all;
  }

  lemma RecordPermuted(r: ExpressionRecord, s: ExpressionRecord, a: seq<Contribution>, b: seq<Contribution>)
    requires RecordOk(r, a) && RecordOk(s, b) && multiset(a) == multiset(b) && r.expression == s.expression
    requires FirstIdentification(a, r.expression) == FirstIdentification(b, r.expression)
    ensures r == s
  {
    SumPermuted(States(r.expression), a, b);
    SumPermuted(MatchesFor(r.expression), a, b);
    forall d ensures d in a <==> d in b { assert d in multiset(a) <==> d in multiset(b); }
  }

  lemma ExpressionsStated(m: map<string, ExpressionRecord>, ds: seq<Contribution>, e: string)
    requires ExpressionsOk(m, ds)
    ensures e in m <==> exists d :: d in ds && d.expression == e
  {
    if e in m { FirstStated(ds, e); }
  }

  /** The same contributions in any order give the same records. */
  lemma ExpressionsPermuted(m: map<string, ExpressionRecord>, k: map<string, ExpressionRecord>, a: seq<Contribution>,
                            b: seq<Contribution>)
    requires ExpressionsOk(m, a) && ExpressionsOk(k, b) && multiset(a) == multiset(b)
    requires forall e :: FirstIdentification(a, e) == FirstIdentification(b, e)
    ensures m == k
  {
    forall d ensures d in a <==> d in b { assert d in multiset(a) <==> d in multiset(b); }
    forall e ensures e in m <==> e in k {
      ExpressionsStated(m, a, e);
      ExpressionsStated(k, b, e);
    }
    forall e | e in m ensures m[e] == k[e] { RecordPermuted(m[e], k[e], a, b); }
  }

  /** The records of a map, each once. */
  ghost predicate Lists(m: map<string, ExpressionRecord>, list: seq<ExpressionRecord>) {
    && (forall i | 0 <= i < |list| :: list[i].expression in m && list[i] == m[list[i].expression])
    && (forall i, j | 0 <= i < j < |list| :: list[i].expression != list[j].expression)
    && forall e | e in m :: m[e] in list
  }

  /** Lists the records in whatever order the map yields them. */
  method RecordsOf(m: map<string, ExpressionRecord>) returns (list: seq<ExpressionRecord>)
    requires forall e | e in m :: m[e].expression == e
    ensures Lists(m, list)
  {
    list := [];
    var keys := m.Keys;
    while keys != {}
      invariant keys <= m.Keys
      invariant forall i | 0 <= i < |list| ::
        list[i].expression in m && list[i] == m[list[i].expression] && list[i].expression !in keys
      invariant forall i, j | 0 <= i < j < |list| :: list[i].expression != list[j].expression
      invariant forall e | e in m :: e in keys || m[e] in list
      decreases |keys|
    {
      var e :| e in keys;
      list := list + [m[e]];
      keys := keys - {e};
    }
  }

  lemma ListsAlike(m: map<string, ExpressionRecord>, a: seq<ExpressionRecord>, b: seq<ExpressionRecord>)
    requires Lists(m, a) && Lists(m, b)
    ensures multiset(a) == multiset(b)
  {
    ListedOnce(m, a);
    ListedOnce(m, b);
    forall r ensures multiset(a)[r] == multiset(b)[r] {
      assert r in a <==> r in b by {
        if r in a { var i :| 0 <= i < |a| && a[i] == r; assert m[r.expression] in b; }
        if r in b { var i :| 0 <= i < |b| && b[i] == r; assert m[r.expression] in a; }
      }
    }
  }

  lemma ListedOnce(m: map<string, ExpressionRecord>, list: seq<ExpressionRecord>)
    requires Lists(m, list)
    ensures forall r :: multiset(list)[r] == if r in list then 1 else 0
  {
    forall r ensures multiset(list)[r] == if r in list then 1 else 0 { DistinctOnce(list, r); }
  }

  lemma {:induction false} DistinctOnce(list: seq<ExpressionRecord>, r: ExpressionRecord)
    requires forall i, j | 0 <= i < j < |list| :: list[i].expression != list[j].expression
    ensures multiset(list)[r] == if r in list then 1 else 0
  {
    if list == [] {
    } else {
      var n := |list| - 1;
      assert list == list[..n] + [list[n]];
      DistinctOnce(list[..n], r);
    }
  }

  // The report --------------------------------------------------------------------------------------

  datatype Report = Report(summary: Summary, declared: seq<DeclaredRecord>, files: seq<FileRecord>,
                           errors: seq<PathRecord>, skipped: seq<PathRecord>,
                           expressions: seq<ExpressionRecord>, errorCount: nat)

  /** What the walk over the directories found before any file was scanned. */
  datatype Discovery = Discovery(declared: seq<DeclaredRecord>, errors: seq<PathRecord>, skipped: seq<PathRecord>)

  /** What outcomes add up to, given the errors and skips found before scanning. */
  ghost predicate ReportOk(r: Report, legal: bool, isRoot: FileRecord -> bool, found: Discovery,
                           outcomes: seq<Outcome>) {
    && Totals(r.summary, legal, outcomes)
    && r.declared == Sorting.Sort(DeclaredOrder(), found.declared)
    && r.files == Sorting.Sort(FileOrder(), Collect(ReportedBy(legal), outcomes))
    && r.errors == Sorting.Sort(PathOrder(), found.errors + Collect(ErrorsBy(legal), outcomes))
    && r.skipped == Sorting.Sort(PathOrder(), found.skipped + Collect(SkipsBy(legal), outcomes))
    && r.errorCount == |r.errors|
    && exists m, list :: ExpressionsOk(m, Collect(ContributionsBy(legal, isRoot), outcomes)) && Lists(m, list)
                         && r.expressions == Sorting.Sort(ExpressionOrder(), list)
  }

  datatype Progress = Progress(summary: Summary, files: seq<FileRecord>, errors: seq<PathRecord>,
                               skipped: seq<PathRecord>, expressions: map<string, ExpressionRecord>)

  ghost predicate Folding(p: Progress, legal: bool, isRoot: FileRecord -> bool, found: Discovery,
                          outcomes: seq<Outcome>) {
    && Totals(p.summary, legal, outcomes)
    && p.files == Collect(ReportedBy(legal), outcomes)
    && p.errors == found.errors + Collect(ErrorsBy(legal), outcomes)
    && p.skipped == found.skipped + Collect(SkipsBy(legal), outcomes)
    && ExpressionsOk(p.expressions, Collect(ContributionsBy(legal, isRoot), outcomes))
  }

  /** The lists after one more outcome. */
  function Listed(p: Progress, legal: bool, o: Outcome): Progress {
    match CategoryOf(legal, o)
    case Failed(error) => p.(errors := p.errors + [PathRecord(o.path, error)])
    case Binary => p.(skipped := p.skipped + [PathRecord(o.path, "binary")])
    case TooLarge => p.(skipped := p.skipped + [PathRecord(o.path, "size")])
    case Silent => p
    case Reported(file) => p.(files := p.files + [file])
  }

  lemma CollectNext<R>(record: Outcome -> seq<R>, before: seq<R>, list: seq<R>, outcomes: seq<Outcome>, i: nat)
    requires i < |outcomes| && list == before + Collect(record, outcomes[..i])
    ensures list + record(outcomes[i]) == before + Collect(record, outcomes[..i + 1])
    ensures record(outcomes[i]) == [] ==> list == before + Collect(record, outcomes[..i + 1])
  {
    CollectOne(record, outcomes, i);
    assert list + [] == list;
  }

  lemma ListOne(p: Progress, legal: bool, found: Discovery, outcomes: seq<Outcome>, i: nat)
    requires i < |outcomes| && p.files == Collect(ReportedBy(legal), outcomes[..i])
    requires p.errors == found.errors + Collect(ErrorsBy(legal), outcomes[..i])
    requires p.skipped == found.skipped + Collect(SkipsBy(legal), outcomes[..i])
    ensures Listed(p, legal, outcomes[i]).files == Collect(ReportedBy(legal), outcomes[..i + 1])
    ensures Listed(p, legal, outcomes[i]).errors == found.errors + Collect(ErrorsBy(legal), outcomes[..i + 1])
    ensures Listed(p, legal, outcomes[i]).skipped == found.skipped + Collect(SkipsBy(legal), outcomes[..i + 1])
  {
    assert [] + Collect(ReportedBy(legal), outcomes[..i]) == Collect(ReportedBy(legal), outcomes[..i]);
    assert [] + Collect(ReportedBy(legal), outcomes[..i + 1]) == Collect(ReportedBy(legal), outcomes[..i + 1]);
    CollectNext(ReportedBy(legal), [], p.files, outcomes, i);
    CollectNext(ErrorsBy(legal), found.errors, p.errors, outcomes, i);
    CollectNext(SkipsBy(legal), found.skipped, p.skipped, outcomes, i);
  }

  /** The expression records after one more outcome. */
  method StateExpressions(m0: map<string, ExpressionRecord>, legal: bool, isRoot: FileRecord -> bool, o: Outcome,
                          ghost outcomes: seq<Outcome>, ghost i: nat) returns (m: map<string, ExpressionRecord>)
    requires i < |outcomes| && outcomes[i] == o
    requires ExpressionsOk(m0, Collect(ContributionsBy(legal, isRoot), outcomes[..i]))
    ensures ExpressionsOk(m, Collect(ContributionsBy(legal, isRoot), outcomes[..i + 1]))
  {
    ghost var ds := Collect(ContributionsBy(legal, isRoot), outcomes[..i]);
    CollectOne(ContributionsBy(legal, isRoot), outcomes, i);
    assert ds + [] == ds;
    match CategoryOf(legal, o) {
      case Reported(file) => m := AddExpressionRecords(m0, file, isRoot, ds);
      case _ => m := m0;
    }
  }

  /** One turn of the outcome loop. */
  method AddOutcome(p0: Progress, legal: bool, isRoot: FileRecord -> bool, o: Outcome,
                    ghost found: Discovery, ghost outcomes: seq<Outcome>, ghost i: nat)
    returns (p: Progress)
    requires i < |outcomes| && outcomes[i] == o && Folding(p0, legal, isRoot, found, outcomes[..i])
    ensures Folding(p, legal, isRoot, found, outcomes[..i + 1])
  {
    CountOne(p0.summary, legal, outcomes, i);
    ListOne(p0, legal, found, outcomes, i);
    var expressions := StateExpressions(p0.expressions, legal, isRoot, o, outcomes, i);
    p := Listed(p0, legal, o).(summary := CountOutcome(p0.summary, legal, o), expressions := expressions);
  }

  /** Folds the outcomes as they arrive, then sorts the lists. */
  method FoldOutcomes(outcomes: seq<Outcome>, legal: bool, isRoot: FileRecord -> bool, found: Discovery)
    returns (r: Report)
    ensures ReportOk(r, legal, isRoot, found, outcomes)
  {
    var p := Progress(Summary(0, 0, 0, 0, 0, 0, 0, 0, 0), [], found.errors, found.skipped, map[]);
    assert found.errors + [] == found.errors && found.skipped + [] == found.skipped;
    for i := 0 to |outcomes|
      invariant Folding(p, legal, isRoot, found, outcomes[..i])
    {
      p := AddOutcome(p, legal, isRoot, outcomes[i], found, outcomes, i);
    }
    assert outcomes[..|outcomes|] == outcomes;
    var list := RecordsOf(p.expressions);
    var errors := Sorting.Sort(PathOrder(), p.errors);
    r := Report(p.summary, Sorting.Sort(DeclaredOrder(), found.declared), Sorting.Sort(FileOrder(), p.files), errors,
                Sorting.Sort(PathOrder(), p.skipped), Sorting.Sort(ExpressionOrder(), list), |errors|);
  }

  // Order of arrival ---------------------------------------------------------------------------------

  /** Each path is scanned once. */
  ghost predicate DistinctPaths(outcomes: seq<Outcome>) {
    forall i, j | 0 <= i < j < |outcomes| :: outcomes[i].path != outcomes[j].path
  }

  /** Files that contribute to the same expression identify it alike, each by its first contribution. */
  ghost predicate Agree(legal: bool, isRoot: FileRecord -> bool, outcomes: seq<Outcome>) {
    forall i, j, e: string {:trigger Own(legal, isRoot, outcomes[i], e), Own(legal, isRoot, outcomes[j], e)} |
        0 <= i < |outcomes| && 0 <= j < |outcomes| && Own(legal, isRoot, outcomes[i], e).Some?
          && Own(legal, isRoot, outcomes[j], e).Some? ::
      Own(legal, isRoot, outcomes[i], e) == Own(legal, isRoot, outcomes[j], e)
  }

  function Own(legal: bool, isRoot: FileRecord -> bool, o: Outcome, expression: string): Option<Identification> {
    FirstIdentification(ContributionsBy(legal, isRoot)(o), expression)
  }

  /** The identification by the first outcome that contributes to an expression. */
  function FirstOwn(legal: bool, isRoot: FileRecord -> bool, outcomes: seq<Outcome>,
                    expression: string): Option<Identification> {
    if outcomes == [] then None
    else
      var n := |outcomes| - 1;
      var before := FirstOwn(legal, isRoot, outcomes[..n], expression);
      if before.Some? then before else Own(legal, isRoot, outcomes[n], expression)
  }

  lemma {:induction false} FirstOfOutcomes(legal: bool, isRoot: FileRecord -> bool, outcomes: seq<Outcome>, e: string)
    ensures FirstIdentification(Collect(ContributionsBy(legal, isRoot), outcomes), e)
      == FirstOwn(legal, isRoot, outcomes, e)
  {
    if outcomes == [] {
    } else {
      var n := |outcomes| - 1;
      var f := ContributionsBy(legal, isRoot);
      FirstOfOutcomes(legal, isRoot, outcomes[..n], e);
      FirstConcat(Collect(f, outcomes[..n]), f(outcomes[n]), e);
    }
  }

  /** An expression is identified by some outcome that contributes to it, if any does. */
  lemma {:induction false} SomeoneIdentifies(legal: bool, isRoot: FileRecord -> bool, outcomes: seq<Outcome>, e: string)
    ensures var first := FirstOwn(legal, isRoot, outcomes, e);
      if first.Some? then exists i :: 0 <= i < |outcomes| && Own(legal, isRoot, outcomes[i], e) == first
      else forall i | 0 <= i < |outcomes| :: Own(legal, isRoot, outcomes[i], e) == None
  {
    if outcomes == [] {
    } else {
      var n := |outcomes| - 1;
      SomeoneIdentifies(legal, isRoot, outcomes[..n], e);
      assert forall i | 0 <= i < n :: outcomes[i] == outcomes[..n][i];
    }
  }

  lemma FirstsAlike(legal: bool, isRoot: FileRecord -> bool, a: seq<Outcome>, b: seq<Outcome>)
    requires multiset(a) == multiset(b) && Agree(legal, isRoot, a)
    ensures forall e :: FirstIdentification(Collect(ContributionsBy(legal, isRoot), a), e)
                     == FirstIdentification(Collect(ContributionsBy(legal, isRoot), b), e)
  {
    forall e ensures FirstIdentification(Collect(ContributionsBy(legal, isRoot), a), e)
                  == FirstIdentification(Collect(ContributionsBy(legal, isRoot), b), e)
    {
      FirstAlike(legal, isRoot, a, b, e);
    }
  }

  lemma FirstAlike(legal: bool, isRoot: FileRecord -> bool, a: seq<Outcome>, b: seq<Outcome>, e: string)
    requires multiset(a) == multiset(b) && Agree(legal, isRoot, a)
    ensures FirstIdentification(Collect(ContributionsBy(legal, isRoot), a), e)
         == FirstIdentification(Collect(ContributionsBy(legal, isRoot), b), e)
  {
    FirstOfOutcomes(legal, isRoot, a, e);
    FirstOfOutcomes(legal, isRoot, b, e);
    SomeoneIdentifies(legal, isRoot, a, e);
    SomeoneIdentifies(legal, isRoot, b, e);
    var x, y := FirstOwn(legal, isRoot, a, e), FirstOwn(legal, isRoot, b, e);
    if y.Some? {
      var j :| 0 <= j < |b| && Own(legal, isRoot, b[j], e) == y;
      var k := PlaceIn(a, b, j);
      assert Own(legal, isRoot, a[k], e) == y;
    }
    if x.Some? {
      var i :| 0 <= i < |a| && Own(legal, isRoot, a[i], e) == x;
      var k := PlaceIn(b, a, i);
      assert Own(legal, isRoot, b[k], e) == x;
    }
  }

  lemma PlaceIn(a: seq<Outcome>, b: seq<Outcome>, j: nat) returns (k: nat)
    requires multiset(a) == multiset(b) && j < |b|
    ensures k < |a| && a[k] == b[j]
  {
    assert b[j] in multiset(a);
    k :| 0 <= k < |a| && a[k] == b[j];
  }

  lemma FilesAlike(legal: bool, a: seq<Outcome>, b: seq<Outcome>)
    requires multiset(a) == multiset(b) && DistinctPaths(a)
    ensures Sorting.Sort(FileOrder(), Collect(ReportedBy(legal), a))
      == Sorting.Sort(FileOrder(), Collect(ReportedBy(legal), b))
  {
    var files := Collect(ReportedBy(legal), a);
    CollectPermuted(ReportedBy(legal), a, b);
    FileOrderIsTotal();
    forall x, y | x in files && y in files && FileOrder()(x, y) && FileOrder()(y, x) ensures x == y {
      var i := OutcomeOf(legal, a, x);
      var j := OutcomeOf(legal, a, y);
      StringsTie(x, y);
      assert i == j;
    }
    SortedAlike(FileOrder(), files, Collect(ReportedBy(legal), b));
  }

  lemma StringsTie(x: FileRecord, y: FileRecord)
    requires FileOrder()(x, y) && FileOrder()(y, x)
    ensures x.path == y.path
  {
    Strings.StringLeTotal(x.path, y.path);
  }

  /** A reported file is its outcome's own. */
  lemma OutcomeOf(legal: bool, outcomes: seq<Outcome>, x: FileRecord) returns (i: nat)
    requires x in Collect(ReportedBy(legal), outcomes)
    ensures i < |outcomes| && x == outcomes[i].file.(path := outcomes[i].path)
  {
    CollectMember(ReportedBy(legal), outcomes, x);
    var o :| o in outcomes && x in ReportedBy(legal)(o);
    i :| 0 <= i < |outcomes| && outcomes[i] == o;
  }

  lemma PathsAlike(record: Outcome -> seq<PathRecord>, before: seq<PathRecord>, a: seq<Outcome>, b: seq<Outcome>)
    requires multiset(a) == multiset(b)
    ensures Sorting.Sort(PathOrder(), before + Collect(record, a))
      == Sorting.Sort(PathOrder(), before + Collect(record, b))
  {
    CollectPermuted(record, a, b);
    PathOrderIsTotal();
    SortedAlike(PathOrder(), before + Collect(record, a), before + Collect(record, b));
  }

  lemma ExpressionListsAlike(m: map<string, ExpressionRecord>, a: seq<ExpressionRecord>, b: seq<ExpressionRecord>)
    requires Lists(m, a) && Lists(m, b)
    ensures Sorting.Sort(ExpressionOrder(), a) == Sorting.Sort(ExpressionOrder(), b)
  {
    ListsAlike(m, a, b);
    ExpressionOrderIsTotal();
    forall x, y | x in a && y in a && ExpressionOrder()(x, y) && ExpressionOrder()(y, x) ensures x == y {
      Strings.StringLeTotal(x.expression, y.expression);
      var i :| 0 <= i < |a| && a[i] == x;
      var j :| 0 <= j < |a| && a[j] == y;
    }
    SortedAlike(ExpressionOrder(), a, b);
  }

  lemma ExpressionReportsAlike(legal: bool, isRoot: FileRecord -> bool, a: seq<Outcome>, b: seq<Outcome>,
                               m: map<string, ExpressionRecord>, k: map<string, ExpressionRecord>,
                               x: seq<ExpressionRecord>, y: seq<ExpressionRecord>)
    requires multiset(a) == multiset(b) && Agree(legal, isRoot, a)
    requires ExpressionsOk(m, Collect(ContributionsBy(legal, isRoot), a)) && Lists(m, x)
    requires ExpressionsOk(k, Collect(ContributionsBy(legal, isRoot), b)) && Lists(k, y)
    ensures Sorting.Sort(ExpressionOrder(), x) == Sorting.Sort(ExpressionOrder(), y)
  {
    CollectPermuted(ContributionsBy(legal, isRoot), a, b);
    FirstsAlike(legal, isRoot, a, b);
    ExpressionsPermuted(m, k, Collect(ContributionsBy(legal, isRoot), a), Collect(ContributionsBy(legal, isRoot), b));
    ExpressionListsAlike(m, x, y);
  }

  lemma RecordCarriesOver(r: ExpressionRecord, a: seq<Contribution>, b: seq<Contribution>)
    requires RecordOk(r, a) && multiset(a) == multiset(b) && forall d :: d in a <==> d in b
    requires FirstIdentification(a, r.expression) == FirstIdentification(b, r.expression)
    ensures RecordOk(r, b)
  {
    SumPermuted(States(r.expression), a, b);
    SumPermuted(MatchesFor(r.expression), a, b);
  }

  lemma ExpressionsCarryOver(m: map<string, ExpressionRecord>, a: seq<Contribution>, b: seq<Contribution>)
    requires ExpressionsOk(m, a) && multiset(a) == multiset(b)
    requires forall e :: FirstIdentification(a, e) == FirstIdentification(b, e)
    ensures ExpressionsOk(m, b)
  {
    forall d ensures d in a <==> d in b { assert d in multiset(a) <==> d in multiset(b); }
    forall e | e in m ensures RecordOk(m[e], b) { RecordCarriesOver(m[e], a, b); }
  }

  lemma TotalsCarryOver(s: Summary, legal: bool, a: seq<Outcome>, b: seq<Outcome>)
    requires Totals(s, legal, a) && multiset(a) == multiset(b)
    ensures Totals(s, legal, b)
  {
    forall field ensures FieldOf(s, field) == Sum(Count(legal, field), b) { SumPermuted(Count(legal, field), a, b); }
  }

  /** A report of outcomes in one order is a report of them in any other. */
  lemma ReportOfAnyOrder(r: Report, legal: bool, isRoot: FileRecord -> bool, found: Discovery,
                         a: seq<Outcome>, b: seq<Outcome>)
    requires ReportOk(r, legal, isRoot, found, a) && multiset(a) == multiset(b) && DistinctPaths(a)
    requires Agree(legal, isRoot, a)
    ensures ReportOk(r, legal, isRoot, found, b)
  {
    TotalsCarryOver(r.summary, legal, a, b);
    FilesAlike(legal, a, b);
    PathsAlike(ErrorsBy(legal), found.errors, a, b);
    PathsAlike(SkipsBy(legal), found.skipped, a, b);
    var m, x :| ExpressionsOk(m, Collect(ContributionsBy(legal, isRoot), a)) && Lists(m, x)
      && r.expressions == Sorting.Sort(ExpressionOrder(), x);
    CollectPermuted(ContributionsBy(legal, isRoot), a, b);
    FirstsAlike(legal, isRoot, a, b);
    ExpressionsCarryOver(m, Collect(ContributionsBy(legal, isRoot), a), Collect(ContributionsBy(legal, isRoot), b));
  }

  lemma DistinctInAnyOrder(a: seq<Outcome>, b: seq<Outcome>)
    requires multiset(a) == multiset(b) && DistinctPaths(a)
    ensures DistinctPaths(b)
  {
    forall i, j | 0 <= i < j < |b| ensures b[i].path != b[j].path {
      assert b == b[..i] + [b[i]] + b[i + 1..j] + [b[j]] + b[j + 1..];
      assert b[i] in multiset(a) && b[j] in multiset(a);
      var x :| 0 <= x < |a| && a[x] == b[i];
      var y :| 0 <= y < |a| && a[y] == b[j];
      if x == y {
        assert multiset(b)[b[i]] >= 2;
        OnlyOnce(a, x);
      }
    }
  }

  lemma OnlyOnce(a: seq<Outcome>, x: nat)
    requires x < |a| && DistinctPaths(a)
    ensures multiset(a)[a[x]] == 1
  {
    assert a == a[..x] + [a[x]] + a[x + 1..];
    assert a[x] !in a[..x] && a[x] !in a[x + 1..];
  }

  /**
   * Scans all tasks with some workers and reports the outcomes as they arrived: when files agree, the report of task
   * order.
   */
  method ScanTasks<T>(tasks: seq<T>, scan: T -> Outcome, requested: nat, legal: bool, isRoot: FileRecord -> bool,
                      found: Discovery) returns (r: Report)
    requires requested > 0 && DistinctPaths(ScanWorkers.Outcomes(scan, tasks))
    ensures exists arrived :: multiset(arrived) == multiset(ScanWorkers.Outcomes(scan, tasks))
                              && ReportOk(r, legal, isRoot, found, arrived)
    ensures Agree(legal, isRoot, ScanWorkers.Outcomes(scan, tasks)) ==>
              ReportOk(r, legal, isRoot, found, ScanWorkers.Outcomes(scan, tasks))
  {
    var outcomes := ScanWorkers.ScanFiles(tasks, scan, requested);
    r := FoldOutcomes(outcomes, legal, isRoot, found);
    ghost var inOrder := ScanWorkers.Outcomes(scan, tasks);
    DistinctInAnyOrder(inOrder, outcomes);
    if Agree(legal, isRoot, inOrder) {
      AgreeInAnyOrder(legal, isRoot, inOrder, outcomes);
      ReportOfAnyOrder(r, legal, isRoot, found, outcomes, inOrder);
    }
  }

  lemma AgreeInAnyOrder(legal: bool, isRoot: FileRecord -> bool, a: seq<Outcome>, b: seq<Outcome>)
    requires multiset(a) == multiset(b) && Agree(legal, isRoot, a)
    ensures Agree(legal, isRoot, b)
  {
    forall i, j, e: string | 0 <= i < |b| && 0 <= j < |b| && Own(legal, isRoot, b[i], e).Some?
      && Own(legal, isRoot, b[j], e).Some?
      ensures Own(legal, isRoot, b[i], e) == Own(legal, isRoot, b[j], e)
    {
      var x := PlaceIn(a, b, i);
      var y := PlaceIn(a, b, j);
      assert Own(legal, isRoot, a[x], e) == Own(legal, isRoot, a[y], e);
    }
  }

  /** Whatever order outcomes arrive in, and however the records are listed, the report is the same. */
  lemma ReportIndependentOfOrder(r: Report, q: Report, legal: bool, isRoot: FileRecord -> bool,
                                 found: Discovery, a: seq<Outcome>, b: seq<Outcome>)
    requires ReportOk(r, legal, isRoot, found, a) && ReportOk(q, legal, isRoot, found, b)
    requires multiset(a) == multiset(b) && DistinctPaths(a)
    requires Agree(legal, isRoot, a)
    ensures r == q
  {
    TotalsPermuted(r.summary, q.summary, legal, a, b);
    FilesAlike(legal, a, b);
    PathsAlike(ErrorsBy(legal), found.errors, a, b);
    PathsAlike(SkipsBy(legal), found.skipped, a, b);
    var m, x :| ExpressionsOk(m, Collect(ContributionsBy(legal, isRoot), a)) && Lists(m, x)
      && r.expressions == Sorting.Sort(ExpressionOrder(), x);
    var k, y :| ExpressionsOk(k, Collect(ContributionsBy(legal, isRoot), b)) && Lists(k, y)
      && q.expressions == Sorting.Sort(ExpressionOrder(), y);
    ExpressionReportsAlike(legal, isRoot, a, b, m, k, x, y);
  }

  // Where the order shows -----------------------------------------------------------------------------

  lemma {:induction false} SomeTotals(legal: bool, outcomes: seq<Outcome>) returns (s: Summary)
    ensures Totals(s, legal, outcomes)
  {
    s := Summary(0, 0, 0, 0, 0, 0, 0, 0, 0);
    if outcomes == [] {
    } else {
      var n := |outcomes| - 1;
      s := SomeTotals(legal, outcomes[..n]);
      CountOne(s, legal, outcomes, n);
      s := CountOutcome(s, legal, outcomes[n]);
      assert outcomes[..n + 1] == outcomes;
    }
  }

  lemma {:induction false} SomeRecords(ds: seq<Contribution>) returns (m: map<string, ExpressionRecord>)
    ensures ExpressionsOk(m, ds)
  {
    m := map[];
    if ds == [] {
    } else {
      var n := |ds| - 1;
      var before := SomeRecords(ds[..n]);
      UpdateOne(before, ds[..n], ds[n]);
      m := Updated(before, ds[n]);
      assert ds[..n] + [ds[n]] == ds;
    }
  }

  lemma {:induction false} SomeList(m: map<string, ExpressionRecord>) returns (list: seq<ExpressionRecord>)
    requires forall e | e in m :: m[e].expression == e
    ensures Lists(m, list)
    decreases |m|
  {
    list := [];
    if e :| e in m {
      var rest := SomeList(m - {e});
      list := rest + [m[e]];
      forall x | x in m ensures m[x] in list {
        if x != e { assert (m - {e})[x] in rest; }
      }
    }
  }

  /** Outcomes in any order have a report. */
  lemma SomeReport(legal: bool, isRoot: FileRecord -> bool, found: Discovery, outcomes: seq<Outcome>)
    returns (r: Report)
    ensures ReportOk(r, legal, isRoot, found, outcomes)
  {
    var summary := SomeTotals(legal, outcomes);
    var m := SomeRecords(Collect(ContributionsBy(legal, isRoot), outcomes));
    var list := SomeList(m);
    var errors := Sorting.Sort(PathOrder(), found.errors + Collect(ErrorsBy(legal), outcomes));
    r := Report(summary, Sorting.Sort(DeclaredOrder(), found.declared),
                Sorting.Sort(FileOrder(), Collect(ReportedBy(legal), outcomes)), errors,
                Sorting.Sort(PathOrder(), found.skipped + Collect(SkipsBy(legal), outcomes)),
                Sorting.Sort(ExpressionOrder(), list), |errors|);
  }

  /** A report lists every stated expression with its first identification. */
  lemma ExpressionShows(r: Report, legal: bool, isRoot: FileRecord -> bool, found: Discovery,
                        outcomes: seq<Outcome>, e: string)
    requires ReportOk(r, legal, isRoot, found, outcomes)
    ensures var first := FirstIdentification(Collect(ContributionsBy(legal, isRoot), outcomes), e);
      && (first.Some? ==> exists x :: x in r.expressions && x.expression == e)
      && forall x | x in r.expressions && x.expression == e :: first == Some(x.identification)
  {
    var ds := Collect(ContributionsBy(legal, isRoot), outcomes);
    var m, list :| ExpressionsOk(m, ds) && Lists(m, list) && r.expressions == Sorting.Sort(ExpressionOrder(), list);
    ExpressionOrderIsTotal();
    Sorting.SortIsSortedPermutation(ExpressionOrder(), list);
    forall x ensures x in r.expressions <==> x in list { assert x in multiset(r.expressions) <==> x in multiset(list); }
    FirstStated(ds, e);
    if FirstIdentification(ds, e).Some? { assert e in m && m[e] in r.expressions; }
    forall x | x in r.expressions && x.expression == e ensures FirstIdentification(ds, e) == Some(x.identification) {
      var i :| 0 <= i < |list| && list[i] == x;
      assert RecordOk(m[e], ds);
    }
  }

  /** An outcome that arrives first identifies its expressions. */
  lemma {:induction false} FrontIdentifies(legal: bool, isRoot: FileRecord -> bool, o: Outcome, later: seq<Outcome>,
                                           e: string)
    requires Own(legal, isRoot, o, e).Some?
    ensures FirstIdentification(Collect(ContributionsBy(legal, isRoot), [o] + later), e) == Own(legal, isRoot, o, e)
  {
    var f := ContributionsBy(legal, isRoot);
    if later == [] {
      assert [o] + later == [o] && [o][..0] == [];
      assert Collect(f, [o]) == [] + f(o) == f(o);
    } else {
      var n := |later| - 1;
      assert ([o] + later)[..|later|] == [o] + later[..n] && ([o] + later)[|later|] == later[n];
      FrontIdentifies(legal, isRoot, o, later[..n], e);
      FirstConcat(Collect(f, [o] + later[..n]), f(later[n]), e);
    }
  }

  /** The outcomes with one of them first. */
  function Leading(outcomes: seq<Outcome>, i: nat): seq<Outcome>
    requires i < |outcomes|
  {
    [outcomes[i]] + Without(outcomes, i)
  }

  /** Two files that identify one expression differently show in the report which of them came first. */
  lemma DisagreementShows(legal: bool, isRoot: FileRecord -> bool, found: Discovery,
                          outcomes: seq<Outcome>, i: nat, j: nat, e: string) returns (r: Report, q: Report)
    requires i < |outcomes| && j < |outcomes| && Own(legal, isRoot, outcomes[i], e).Some?
      && Own(legal, isRoot, outcomes[j], e).Some?
    requires Own(legal, isRoot, outcomes[i], e) != Own(legal, isRoot, outcomes[j], e)
    ensures multiset(Leading(outcomes, i)) == multiset(outcomes) == multiset(Leading(outcomes, j))
    ensures ReportOk(r, legal, isRoot, found, Leading(outcomes, i))
    ensures ReportOk(q, legal, isRoot, found, Leading(outcomes, j))
    ensures r != q
  {
    LeadingPermutes(outcomes, i);
    LeadingPermutes(outcomes, j);
    r := SomeReport(legal, isRoot, found, Leading(outcomes, i));
    q := SomeReport(legal, isRoot, found, Leading(outcomes, j));
    var x := LeaderShows(r, legal, isRoot, found, outcomes, i, e);
    var y := LeaderShows(q, legal, isRoot, found, outcomes, j, e);
    DifferentReports(r, q, x, Own(legal, isRoot, outcomes[j], e));
  }

  lemma LeadingPermutes(outcomes: seq<Outcome>, i: nat)
    requires i < |outcomes|
    ensures multiset(Leading(outcomes, i)) == multiset(outcomes)
  {
    WithoutMultiset(outcomes, i);
  }

  lemma DifferentReports(r: Report, q: Report, x: ExpressionRecord, other: Option<Identification>)
    requires x in r.expressions && other != Some(x.identification)
    requires forall y | y in q.expressions && y.expression == x.expression :: other == Some(y.identification)
    ensures r != q
  {
    assert x !in q.expressions;
  }

  lemma LeaderShows(r: Report, legal: bool, isRoot: FileRecord -> bool, found: Discovery,
                    outcomes: seq<Outcome>, i: nat, e: string) returns (x: ExpressionRecord)
    requires i < |outcomes| && Own(legal, isRoot, outcomes[i], e).Some?
    requires ReportOk(r, legal, isRoot, found, Leading(outcomes, i))
    ensures x in r.expressions && x.expression == e
    ensures forall y | y in r.expressions && y.expression == e ::
      Own(legal, isRoot, outcomes[i], e) == Some(y.identification)
  {
    FrontIdentifies(legal, isRoot, outcomes[i], Without(outcomes, i), e);
    ExpressionShows(r, legal, isRoot, found, Leading(outcomes, i), e);
    x :| x in r.expressions && x.expression == e;
  }

  /** Every order of arrival gives the same report. */
  ghost predicate OneReport(legal: bool, isRoot: FileRecord -> bool, found: Discovery, outcomes: seq<Outcome>) {
    forall a, b, r, q {:trigger ReportOk(r, legal, isRoot, found, a), ReportOk(q, legal, isRoot, found, b)} |
        multiset(a) == multiset(outcomes) == multiset(b)
        && ReportOk(r, legal, isRoot, found, a) && ReportOk(q, legal, isRoot, found, b) ::
      r == q
  }

  /**
   * The report is the same for every order of arrival exactly when files that state one expression identify it alike.
   */
  lemma OneReportExactly(legal: bool, isRoot: FileRecord -> bool, found: Discovery, outcomes: seq<Outcome>)
    requires DistinctPaths(outcomes)
    ensures OneReport(legal, isRoot, found, outcomes) <==> Agree(legal, isRoot, outcomes)
  {
    if Agree(legal, isRoot, outcomes) {
      forall a, b, r, q | multiset(a) == multiset(outcomes) == multiset(b)
        && ReportOk(r, legal, isRoot, found, a) && ReportOk(q, legal, isRoot, found, b)
        ensures r == q
      {
        AgreeInAnyOrder(legal, isRoot, outcomes, a);
        DistinctInAnyOrder(outcomes, a);
        ReportIndependentOfOrder(r, q, legal, isRoot, found, a, b);
      }
    } else {
      var i, j, e :| 0 <= i < |outcomes| && 0 <= j < |outcomes|
        && Own(legal, isRoot, outcomes[i], e).Some? && Own(legal, isRoot, outcomes[j], e).Some?
        && Own(legal, isRoot, outcomes[i], e) != Own(legal, isRoot, outcomes[j], e);
      var r, q := DisagreementShows(legal, isRoot, found, outcomes, i, j, e);
    }
  }

  /** A scanned file with one detection of an expression. */
  function OneFile(path: string, expression: string, identification: Identification): Outcome {
    var content := Content(1, "", "", "", 0.0);
    var detection := DetectionRecord(expression, identification, [MatchRecord("rule", 0, 1)]);
    Outcome(path, true, 1, None, false, false, FileRecord(path, content, [], [detection], []))
  }

  lemma OneFileIdentifies(legal: bool, isRoot: FileRecord -> bool, path: string, e: string,
                          identification: Identification)
    ensures Own(legal, isRoot, OneFile(path, e, identification), e) == Some(identification)
  {
    var o := OneFile(path, e, identification);
    var file := o.file.(path := o.path);
    var d := Contribution(e, identification, isRoot(file), 1);
    assert |o.file.detections| == 1;
    assert CategoryOf(legal, o) == Reported(file);
    assert ContributionsOf(isRoot(file), file.detections) == [d];
    assert ContributionsBy(legal, isRoot)(o) == [d];
    assert FirstIdentification([d][..0], e) == None;
  }

  /** Two such files are reported differently in their two orders. */
  lemma TwoFilesDisagree(legal: bool, isRoot: FileRecord -> bool, found: Discovery)
    ensures !OneReport(legal, isRoot, found, [OneFile("a", "MIT", Identified), OneFile("b", "MIT", Partial)])
  {
    var outcomes := [OneFile("a", "MIT", Identified), OneFile("b", "MIT", Partial)];
    OneFileIdentifies(legal, isRoot, "a", "MIT", Identified);
    OneFileIdentifies(legal, isRoot, "b", "MIT", Partial);
    assert outcomes[0].path[0] != outcomes[1].path[0];
    OneReportExactly(legal, isRoot, found, outcomes);
    assert Own(legal, isRoot, outcomes[0], "MIT") != Own(legal, isRoot, outcomes[1], "MIT");
  }
}
