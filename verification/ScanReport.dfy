/** Folding outcomes into a report that does not depend on the order they arrive in. */
module ScanReport {
  import opened Options
  import opened Detections
  import opened Strings
  import opened Folds
  import Sorting

  datatype MatchRecord = MatchRecord(ruleId: string, start: nat, end: nat)

  datatype DetectionRecord = DetectionRecord(expression: string, identification: Identification,
                                             matches: seq<MatchRecord>)

  /** What a file record says about the file's bytes, which the report hands on. */
  datatype Content = Content(size: int, sha256: string, encoding: string, text: string, licenseTextCoverage: real)

  datatype FileRecord = FileRecord(path: string, content: Content, roles: seq<string>, detections: seq<DetectionRecord>,
                                   clues: seq<MatchRecord>)

  /** A license that a manifest declares. */
  datatype DeclaredRecord = DeclaredRecord(path: string, raw: seq<string>, licenseFile: string,
                                           normalizedExpression: string)

  /**
   * What a worker reports for one task. `file` is only meaningful for a scanned file without an error, has its matches
   * in report order, and takes its task's path.
   */
  datatype Outcome = Outcome(path: string, scanned: bool, bytes: nat, error: Option<string>, binary: bool,
                             tooLarge: bool, file: FileRecord)

  /** A path with an error or a reason for skipping it. */
  datatype PathRecord = PathRecord(path: string, text: string)

  datatype ExpressionRecord = ExpressionRecord(expression: string, identification: Identification, root: bool,
                                               files: nat, matches: nat)

  /** What one outcome counts towards. */
  datatype Category = Failed(error: string) | Binary | TooLarge | Reported(file: FileRecord) | Silent

  function CategoryOf(legal: bool, o: Outcome): Category {
    match o.error
    case Some(error) => Failed(error)
    case None =>
      if o.binary then Binary
      else if o.tooLarge then TooLarge
      else if !o.scanned then Silent
      else if o.file.detections == [] && o.file.clues == [] && (!legal || o.file.roles == []) then Silent
      else Reported(o.file.(path := o.path))
  }

  // Counters --------------------------------------------------------------------------------------

  datatype Field = FilesScanned | BytesScanned | SkippedBinary | SkippedSize | WithDetections | WithClues |
    With(identification: Identification)

  predicate Mentions(file: FileRecord, identification: Identification) {
    exists i :: 0 <= i < |file.detections| && file.detections[i].identification == identification
  }

  function One(b: bool): nat {
    if b then 1 else 0
  }

  function CountOf(legal: bool, field: Field, o: Outcome): nat {
    var category := CategoryOf(legal, o);
    match field
    case FilesScanned => One(o.scanned)
    case BytesScanned => if o.scanned then o.bytes else 0
    case SkippedBinary => One(category.Binary?)
    case SkippedSize => One(category.TooLarge?)
    case WithDetections => One(category.Reported? && category.file.detections != [])
    case WithClues => One(category.Reported? && category.file.clues != [])
    case With(identification) => One(category.Reported? && Mentions(category.file, identification))
  }

  function Count(legal: bool, field: Field): Outcome -> nat {
    (o: Outcome) => CountOf(legal, field, o)
  }

  datatype Summary = Summary(filesScanned: nat, bytesScanned: nat, skippedBinary: nat, skippedSize: nat,
                             withDetections: nat, withClues: nat, identified: nat, partially: nat, noAssertion: nat)

  function FieldOf(s: Summary, field: Field): nat {
    match field
    case FilesScanned => s.filesScanned
    case BytesScanned => s.bytesScanned
    case SkippedBinary => s.skippedBinary
    case SkippedSize => s.skippedSize
    case WithDetections => s.withDetections
    case WithClues => s.withClues
    case With(Identified) => s.identified
    case With(Partial) => s.partially
    case With(NoAssertion) => s.noAssertion
  }

  ghost predicate Totals(s: Summary, legal: bool, outcomes: seq<Outcome>) {
    forall field {:trigger FieldOf(s, field)} :: FieldOf(s, field) == Sum(Count(legal, field), outcomes)
  }

  /** The counters after one more outcome, in the order the loop updates them. */
  function CountOutcome(s: Summary, legal: bool, o: Outcome): Summary {
    var scanned := if o.scanned then s.(filesScanned := s.filesScanned + 1, bytesScanned := s.bytesScanned + o.bytes)
      else s;
    match CategoryOf(legal, o)
    case Failed(_) => scanned
    case Binary => scanned.(skippedBinary := s.skippedBinary + 1)
    case TooLarge => scanned.(skippedSize := s.skippedSize + 1)
    case Silent => scanned
    case Reported(file) =>
      scanned.(withDetections := s.withDetections + One(file.detections != []),
               withClues := s.withClues + One(file.clues != []),
               identified := s.identified + One(Mentions(file, Identified)),
               partially := s.partially + One(Mentions(file, Partial)),
               noAssertion := s.noAssertion + One(Mentions(file, NoAssertion)))
  }

  lemma CountsToward(s: Summary, legal: bool, o: Outcome, field: Field)
    ensures FieldOf(CountOutcome(s, legal, o), field) == FieldOf(s, field) + CountOf(legal, field, o)
  {
  }

  lemma CountOne(s: Summary, legal: bool, outcomes: seq<Outcome>, i: nat)
    requires i < |outcomes| && Totals(s, legal, outcomes[..i])
    ensures Totals(CountOutcome(s, legal, outcomes[i]), legal, outcomes[..i + 1])
  {
    var after := CountOutcome(s, legal, outcomes[i]);
    forall field ensures FieldOf(after, field) == Sum(Count(legal, field), outcomes[..i + 1]) {
      SumOne(Count(legal, field), outcomes, i);
      CountsToward(s, legal, outcomes[i], field);
      assert FieldOf(s, field) == Sum(Count(legal, field), outcomes[..i]);
    }
  }

  lemma TotalsPermuted(s: Summary, t: Summary, legal: bool, a: seq<Outcome>, b: seq<Outcome>)
    requires Totals(s, legal, a) && Totals(t, legal, b) && multiset(a) == multiset(b)
    ensures s == t
  {
    forall field ensures FieldOf(s, field) == FieldOf(t, field) { SumPermuted(Count(legal, field), a, b); }
    assert FieldOf(s, FilesScanned) == FieldOf(t, FilesScanned) && FieldOf(s, BytesScanned) == FieldOf(t, BytesScanned);
    assert FieldOf(s, SkippedBinary) == FieldOf(t, SkippedBinary) && FieldOf(s, SkippedSize) == FieldOf(t, SkippedSize);
    assert FieldOf(s, WithDetections) == FieldOf(t, WithDetections) && FieldOf(s, WithClues) == FieldOf(t, WithClues);
    assert FieldOf(s, With(Identified)) == FieldOf(t, With(Identified))
      && FieldOf(s, With(Partial)) == FieldOf(t, With(Partial));
    assert FieldOf(s, With(NoAssertion)) == FieldOf(t, With(NoAssertion));
  }

  // Records ---------------------------------------------------------------------------------------

  function ReportedBy(legal: bool): Outcome -> seq<FileRecord> {
    (o: Outcome) => match CategoryOf(legal, o) case Reported(file) => [file] case _ => []
  }

  function ErrorsBy(legal: bool): Outcome -> seq<PathRecord> {
    (o: Outcome) => match CategoryOf(legal, o) case Failed(error) => [PathRecord(o.path, error)] case _ => []
  }

  function SkipsBy(legal: bool): Outcome -> seq<PathRecord> {
    (o: Outcome) => match CategoryOf(legal, o)
      case Binary => [PathRecord(o.path, "binary")]
      case TooLarge => [PathRecord(o.path, "size")]
      case _ => []
  }

  function FileOrder(): (FileRecord, FileRecord) -> bool {
    (a: FileRecord, b: FileRecord) => StringLe(a.path, b.path)
  }

  function DeclaredOrder(): (DeclaredRecord, DeclaredRecord) -> bool {
    (a: DeclaredRecord, b: DeclaredRecord) => StringLe(a.path, b.path)
  }

  function PathOrder(): (PathRecord, PathRecord) -> bool {
    (a: PathRecord, b: PathRecord) => if a.path == b.path then StringLe(a.text, b.text) else StringLe(a.path, b.path)
  }

  function ExpressionOrder(): (ExpressionRecord, ExpressionRecord) -> bool {
    (a: ExpressionRecord, b: ExpressionRecord) => StringLe(a.expression, b.expression)
  }

  lemma FileOrderIsTotal()
    ensures Sorting.TotalOrder(FileOrder())
  {
    forall a: FileRecord, b: FileRecord ensures FileOrder()(a, b) || FileOrder()(b, a) {
      StringLeTotal(a.path, b.path);
    }
    forall a: FileRecord, b: FileRecord, c: FileRecord | FileOrder()(a, b) && FileOrder()(b, c)
      ensures FileOrder()(a, c) {
      StringLeTransitive(a.path, b.path, c.path);
    }
  }

  lemma DeclaredOrderIsTotal()
    ensures Sorting.TotalOrder(DeclaredOrder())
  {
    forall a: DeclaredRecord, b: DeclaredRecord ensures DeclaredOrder()(a, b) || DeclaredOrder()(b, a) {
      StringLeTotal(a.path, b.path);
    }
    forall a: DeclaredRecord, b: DeclaredRecord, c: DeclaredRecord | DeclaredOrder()(a, b) && DeclaredOrder()(b, c)
      ensures DeclaredOrder()(a, c) {
      StringLeTransitive(a.path, b.path, c.path);
    }
  }

  lemma ExpressionOrderIsTotal()
    ensures Sorting.TotalOrder(ExpressionOrder())
  {
    forall a: ExpressionRecord, b: ExpressionRecord ensures ExpressionOrder()(a, b) || ExpressionOrder()(b, a) {
      StringLeTotal(a.expression, b.expression);
    }
    forall a: ExpressionRecord, b: ExpressionRecord, c: ExpressionRecord | ExpressionOrder()(a, b)
      && ExpressionOrder()(b, c)
      ensures ExpressionOrder()(a, c)
    {
      StringLeTransitive(a.expression, b.expression, c.expression);
    }
  }

  lemma PathOrderIsTotal()
    ensures Sorting.TotalOrder(PathOrder())
    ensures forall a, b | PathOrder()(a, b) && PathOrder()(b, a) :: a == b
  {
    forall a: PathRecord, b: PathRecord
      ensures PathOrder()(a, b) || PathOrder()(b, a)
      ensures PathOrder()(a, b) && PathOrder()(b, a) ==> a == b
    {
      StringLeTotal(a.path, b.path);
      StringLeTotal(a.text, b.text);
    }
    forall a: PathRecord, b: PathRecord, c: PathRecord | PathOrder()(a, b) && PathOrder()(b, c)
      ensures PathOrder()(a, c) {
      PathOrderTransitive(a, b, c);
    }
  }

  lemma PathOrderTransitive(a: PathRecord, b: PathRecord, c: PathRecord)
    requires PathOrder()(a, b) && PathOrder()(b, c)
    ensures PathOrder()(a, c)
  {
    StringLeTotal(a.path, b.path);
    StringLeTotal(b.path, c.path);
    if a.path == b.path == c.path {
      StringLeTransitive(a.text, b.text, c.text);
    } else {
      StringLeTransitive(a.path, b.path, c.path);
      StringLeTotal(a.path, c.path);
    }
  }

  /** Sorting makes lists with the same elements the same list, when only equal elements tie. */
  lemma SortedAlike<T(!new)>(le: (T, T) -> bool, a: seq<T>, b: seq<T>)
    requires Sorting.TotalOrder(le) && multiset(a) == multiset(b)
    requires forall x, y | x in a && y in a && le(x, y) && le(y, x) :: x == y
    ensures Sorting.Sort(le, a) == Sorting.Sort(le, b)
  {
    var s, t := Sorting.Sort(le, a), Sorting.Sort(le, b);
    Sorting.SortIsSortedPermutation(le, a);
    Sorting.SortIsSortedPermutation(le, b);
    forall x, y | x in s && y in s && le(x, y) && le(y, x) ensures x == y {
      assert x in multiset(s) && y in multiset(s);
      assert x in multiset(a) && y in multiset(a);
    }
    Sorting.SortedUnique(le, s, t);
  }
}
