/** Token lists in terms of the words of the input: which words are known, and where the omitted ones stand. */
module TokenWords {
  import opened Suffixes
  import opened Picking
  import opened Tokenize
  import opened Tokens
  import opened ExactMatches
  import opened OmittedWords
  import Detections
  import FilterPipeline
  import LicenseLists
  import Matcher
  import Matching

  // Single words --------------------------------------------------------------------------------

  ghost predicate IsWordOf(input: Bytes, words: seq<Range>, i: nat) {
    i < |words| && words[i].start <= words[i].end <= |input|
  }

  /** The number the vocabulary has for the word's bytes, 0 for none. */
  ghost function NumberOf(v: Vocabulary, input: Bytes, words: seq<Range>, i: nat): nat {
    if IsWordOf(input, words, i) then v.lookup(input[words[i].start..words[i].end]) else v.lookup([])
  }

  ghost function UnknownAt(v: Vocabulary, input: Bytes, words: seq<Range>): nat -> bool {
    (i: nat) => i < |words| && NumberOf(v, input, words, i) == 0
  }

  ghost function StopwordAt(v: Vocabulary, input: Bytes, words: seq<Range>): nat -> bool {
    (i: nat) => i < |words| && NumberOf(v, input, words, i) != 0 && v.stopword(NumberOf(v, input, words, i))
  }

  ghost function KnownAt(v: Vocabulary, input: Bytes, words: seq<Range>): nat -> bool {
    (i: nat) => i < |words| && NumberOf(v, input, words, i) != 0 && !v.stopword(NumberOf(v, input, words, i))
  }

  ghost function NumberAt(v: Vocabulary, input: Bytes, words: seq<Range>): (nat, nat) -> bool {
    (i: nat, id: nat) => i < |words| && id == NumberOf(v, input, words, i)
  }

  /** How many known words stand before the word. */
  ghost function KnownBefore(v: Vocabulary, input: Bytes, words: seq<Range>): (nat, nat) -> bool {
    (i: nat, count: nat) => i < |words| && count == |Taken(0, i, KnownAt(v, input, words))|
  }

  ghost function RangeAt(words: seq<Range>): (nat, Range) -> bool {
    (i: nat, w: Range) => i < |words| && w == words[i]
  }

  lemma KindsAre(v: Vocabulary, input: Bytes, words: seq<Range>, i: nat)
    requires i < |words|
    ensures Kinds(v, input, words)[i].Known? <==> KnownAt(v, input, words)(i)
    ensures Kinds(v, input, words)[i].Known? ==> Kinds(v, input, words)[i].id == NumberOf(v, input, words, i)
    ensures Kinds(v, input, words)[i] == Unknown <==> UnknownAt(v, input, words)(i)
    ensures Kinds(v, input, words)[i] == Stopword <==> StopwordAt(v, input, words)(i)
  {
    assert Kinds(v, input, words)[i] == KindOf(v, Text(input, words[i]));
    assert NumberOf(v, input, words, i) == v.lookup(Text(input, words[i]));
  }

  lemma {:induction false} IdsOf(kinds: seq<WordKind>, known: nat -> bool, gives: (nat, nat) -> bool, n: nat)
    requires n <= |kinds|
    requires forall i: nat | i < |kinds| :: Gives(known, gives, i, if kinds[i].Known? then [kinds[i].id] else [])
    ensures Picks(0, n, known, gives, Ids(kinds[..n]))
  {
    if n == 0 {
      PicksNone(0, known, gives);
    } else {
      IdsOf(kinds, known, gives, n - 1);
      assert kinds[..n][..n - 1] == kinds[..n - 1];
      PicksNext(0, n - 1, known, gives, Ids(kinds[..n - 1]),
                if kinds[n - 1].Known? then [kinds[n - 1].id] else []);
    }
  }

  lemma IdsPick(v: Vocabulary, input: Bytes, words: seq<Range>, n: nat)
    requires n <= |words|
    ensures Picks(0, n, KnownAt(v, input, words), NumberAt(v, input, words), Ids(Kinds(v, input, words)[..n]))
  {
    forall i: nat | i < |words|
      ensures var kind := Kinds(v, input, words)[i];
        Gives(KnownAt(v, input, words), NumberAt(v, input, words), i, if kind.Known? then [kind.id] else [])
    {
      KnownGives(v, input, words, i);
    }
    IdsOf(Kinds(v, input, words), KnownAt(v, input, words), NumberAt(v, input, words), n);
  }

  lemma KnownGives(v: Vocabulary, input: Bytes, words: seq<Range>, i: nat)
    requires i < |words|
    ensures var kind := Kinds(v, input, words)[i];
      Gives(KnownAt(v, input, words), NumberAt(v, input, words), i, if kind.Known? then [kind.id] else [])
  {
    KindsAre(v, input, words, i);
  }

  lemma IdsCount(v: Vocabulary, input: Bytes, words: seq<Range>, n: nat)
    requires n <= |words|
    ensures |Ids(Kinds(v, input, words)[..n])| == |Taken(0, n, KnownAt(v, input, words))|
  {
    IdsPick(v, input, words, n);
    PicksCount(0, n, KnownAt(v, input, words), NumberAt(v, input, words), Ids(Kinds(v, input, words)[..n]));
  }

  lemma {:induction false} RangesPick(v: Vocabulary, input: Bytes, words: seq<Range>, n: nat)
    requires n <= |words|
    ensures Picks(0, n, KnownAt(v, input, words), RangeAt(words),
                  KnownRanges(words[..n], Kinds(v, input, words)[..n]))
  {
    var kinds, known := Kinds(v, input, words), KnownAt(v, input, words);
    if n == 0 {
      PicksNone(0, known, RangeAt(words));
    } else {
      RangesPick(v, input, words, n - 1);
      KindsAre(v, input, words, n - 1);
      KnownNext(words, kinds, n - 1);
      var before := KnownRanges(words[..n - 1], kinds[..n - 1]);
      PicksNext(0, n - 1, known, RangeAt(words), before,
                if kinds[n - 1].Known? then [words[n - 1]] else []);
    }
  }

  ghost function OmittedAt(v: Vocabulary, input: Bytes, words: seq<Range>, kind: WordKind): nat -> bool {
    if kind == Unknown then UnknownAt(v, input, words) else StopwordAt(v, input, words)
  }

  lemma {:induction false} PositionsPick(v: Vocabulary, input: Bytes, words: seq<Range>, kind: WordKind, n: nat)
    requires n <= |words| && (kind == Unknown || kind == Stopword)
    ensures Picks(0, n, OmittedAt(v, input, words, kind), KnownBefore(v, input, words),
                  Positions(Kinds(v, input, words)[..n], kind))
  {
    var kinds, omitted := Kinds(v, input, words), OmittedAt(v, input, words, kind);
    if n == 0 {
      PicksNone(0, omitted, KnownBefore(v, input, words));
    } else {
      PositionsPick(v, input, words, kind, n - 1);
      var before, count: nat := Positions(kinds[..n - 1], kind), |Ids(kinds[..n - 1])|;
      OmittedNext(v, input, words, kind, n - 1, count);
      PicksNext(0, n - 1, omitted, KnownBefore(v, input, words), before, if kinds[n - 1] == kind then [count] else []);
      PositionsLast(kinds, kind, n - 1);
    }
  }

  lemma OmittedNext(v: Vocabulary, input: Bytes, words: seq<Range>, kind: WordKind, i: nat, count: nat)
    requires i < |words| && (kind == Unknown || kind == Stopword) && count == |Ids(Kinds(v, input, words)[..i])|
    ensures OmittedAt(v, input, words, kind)(i) <==> Kinds(v, input, words)[i] == kind
    ensures KnownBefore(v, input, words)(i, count)
  {
    KindsAre(v, input, words, i);
    IdsCount(v, input, words, i);
  }

  lemma PositionsLast(kinds: seq<WordKind>, kind: WordKind, i: nat)
    requires i < |kinds|
    ensures Positions(kinds[..i + 1], kind)
      == Positions(kinds[..i], kind) + if kinds[i] == kind then [|Ids(kinds[..i])|] else []
  {
    assert kinds[..i + 1][..i] == kinds[..i];
  }

  /**
   * The tokens are the numbers of the known words, the omitted words are listed by how many known words stand before
   * them, and the span is that of the known words; each list in the order of the words.
   */
  ghost predicate TokensTell(v: Vocabulary, decode: Decoder, input: Bytes, r: IDTokens) {
    var words := AllWords(decode, input);
    && Picks(0, |words|, KnownAt(v, input, words), NumberAt(v, input, words), r.ids)
    && Picks(0, |words|, UnknownAt(v, input, words), KnownBefore(v, input, words), r.unknownAfter)
    && Picks(0, |words|, StopwordAt(v, input, words), KnownBefore(v, input, words), r.stopwordAfter)
    && exists ranges :: Picks(0, |words|, KnownAt(v, input, words), RangeAt(words), ranges)
                        && Spans(ranges, r.start, r.end)
  }

  lemma TokensAreTold(v: Vocabulary, decode: Decoder, input: Bytes, r: IDTokens)
    requires var words := AllWords(decode, input); Recorded(words, Kinds(v, input, words), |words|, r)
    ensures TokensTell(v, decode, input, r)
  {
    var words := AllWords(decode, input);
    var kinds := Kinds(v, input, words);
    assert words[..|words|] == words && kinds[..|words|] == kinds;
    IdsPick(v, input, words, |words|);
    RangesPick(v, input, words, |words|);
    PositionsPick(v, input, words, Unknown, |words|);
    PositionsPick(v, input, words, Stopword, |words|);
  }

  // Distances in words ----------------------------------------------------------------------------

  /** Word `p` is the `k`-th known token. */
  ghost predicate IsTokenWord(kinds: seq<WordKind>, k: nat, p: nat) {
    p < |kinds| && kinds[p].Known? && |Ids(kinds[..p])| == k
  }

  lemma BelowToken(kinds: seq<WordKind>, kind: WordKind, k: nat, p: nat)
    requires IsTokenWord(kinds, k, p) && kind != kinds[p]
    ensures LicenseLists.Below(Positions(kinds, kind), k + 1) == |Positions(kinds[..p], kind)|
  {
    PositionsSplit(kinds, kind, p);
    PositionsSplit(kinds, kind, p + 1);
    IdsBound(kinds, p);
    LicenseLists.PlaceIsCount(Positions(kinds, kind), k + 1, |Positions(kinds[..p], kind)|);
  }

  /** A known word's place among all words, from its place among the known ones. */
  lemma PlaceOfToken(kinds: seq<WordKind>, k: nat, p: nat)
    requires IsTokenWord(kinds, k, p)
    ensures p == k + LicenseLists.Below(Positions(kinds, Unknown), k + 1)
                 + LicenseLists.Below(Positions(kinds, Stopword), k + 1)
  {
    BelowToken(kinds, Unknown, k, p);
    BelowToken(kinds, Stopword, k, p);
    CountWords(kinds[..p]);
  }

  ghost predicate PositionsOf(kinds: seq<WordKind>, input: LicenseLists.Input) {
    input.unknownAfter == Positions(kinds, Unknown) && input.stopwordAfter == Positions(kinds, Stopword)
  }

  /** The distance counts words from the last of one match to the first of the next. */
  lemma DistanceInWords(kinds: seq<WordKind>, input: LicenseLists.Input, previous: Match, current: Match, p: nat,
                        q: nat)
    requires PositionsOf(kinds, input) && previous.end > 0
    requires IsTokenWord(kinds, previous.end - 1, p) && IsTokenWord(kinds, current.start, q)
    ensures LicenseLists.Distance(input, previous, current) == q - p
  {
    PlaceOfToken(kinds, previous.end - 1, p);
    PlaceOfToken(kinds, current.start, q);
  }

  /** The span counts words from the first of one match to the last of another, both included. */
  lemma SpanInWords(kinds: seq<WordKind>, input: LicenseLists.Input, first: Match, last: Match, p: nat, q: nat)
    requires PositionsOf(kinds, input) && last.end > 0
    requires IsTokenWord(kinds, first.start, p) && IsTokenWord(kinds, last.end - 1, q)
    ensures LicenseLists.SpanWords(input, first, last) == q - p + 1
  {
    PlaceOfToken(kinds, first.start, p);
    PlaceOfToken(kinds, last.end - 1, q);
  }

  /** A short match of a reference, a tag, an introduction or a clue. */
  ghost predicate IsShortName(rules: seq<MatchRule>, m: Match) {
    && m.end <= m.start + 20 && m.rule < |rules|
    && (rules[m.rule].flags.reference || rules[m.rule].flags.tag || rules[m.rule].flags.intro
        || rules[m.rule].flags.clue)
  }

  /** Two neighbouring short names belong together when the second begins at most ten words after the first ends. */
  lemma JoinedInWords(kinds: seq<WordKind>, input: LicenseLists.Input, ms: seq<Match>, i: nat, p: nat, q: nat)
    requires PositionsOf(kinds, input) && 0 < i < |ms| && ms[i - 1].end > 0
    requires IsTokenWord(kinds, ms[i - 1].end - 1, p) && IsTokenWord(kinds, ms[i].start, q)
    ensures LicenseLists.Joined(input, ms, i) <==>
      IsShortName(input.rules, ms[i - 1]) && IsShortName(input.rules, ms[i]) && q - p <= 10
  {
    DistanceInWords(kinds, input, ms[i - 1], ms[i], p, q);
  }

  /** Fifteen matches of five expressions that reach over at least half of the words. */
  lemma ListInWords(kinds: seq<WordKind>, input: LicenseLists.Input, group: seq<Match>, p: nat, q: nat)
    requires PositionsOf(kinds, input) && group != [] && group[|group| - 1].end > 0
    requires input.totalWordCount == |kinds| && forall i | 0 <= i < |group| :: group[i].rule < |input.rules|
    requires IsTokenWord(kinds, group[0].start, p) && IsTokenWord(kinds, group[|group| - 1].end - 1, q)
    ensures LicenseLists.IsList(input, group) <==>
      && |group| >= 15 && 2 * (q - p + 1) >= |kinds|
      && |set i | 0 <= i < |group| :: input.rules[group[i].rule].expression| >= 5
  {
    SpanInWords(kinds, input, group[0], group[|group| - 1], p, q);
    assert LicenseLists.ExpressionsOf(input, group)
      == set i | 0 <= i < |group| :: input.rules[group[i].rule].expression;
  }

  /** What the lists are looked for in: the positions and the number of all words. */
  lemma ListInputOfWords(rules: seq<MatchRule>, words: seq<Range>, kinds: seq<WordKind>, tokens: IDTokens)
    requires |words| == |kinds| && Recorded(words, kinds, |words|, tokens)
    ensures var input := Matching.ListInput(rules, tokens);
      PositionsOf(kinds, input) && input.totalWordCount == |kinds| && input.rules == rules
  {
    RecordedAll(words, kinds, tokens);
    CountWords(kinds);
  }

  // A matched range read again ------------------------------------------------------------------------

  ghost function Later(positions: seq<nat>, shift: nat): seq<nat> {
    seq(|positions|, i requires 0 <= i < |positions| => positions[i] + shift)
  }

  lemma {:induction false} PositionsConcat(a: seq<WordKind>, b: seq<WordKind>, kind: WordKind)
    ensures Positions(a + b, kind) == Positions(a, kind) + Later(Positions(b, kind), |Ids(a)|)
  {
    if b == [] {
      assert a + b == a;
    } else {
      var n := |b| - 1;
      assert (a + b)[..|a| + n] == a + b[..n] && (a + b)[|a| + n] == b[n];
      PositionsConcat(a, b[..n], kind);
      IdsConcat(a, b[..n]);
    }
  }

  lemma {:induction false} InsideConcat(a: seq<nat>, b: seq<nat>, start: nat, end: nat)
    ensures Inside(a + b, start, end) == Inside(a, start, end) + Inside(b, start, end)
  {
    if a == [] {
      assert a + b == b;
    } else {
      assert (a + b)[1..] == a[1..] + b;
      InsideConcat(a[1..], b, start, end);
    }
  }

  lemma {:induction false} AllInside(positions: seq<nat>, start: nat, end: nat)
    requires forall i | 0 <= i < |positions| :: 0 < positions[i] && start + positions[i] < end
    ensures Inside(Later(positions, start), start, end) == positions
  {
    if positions == [] {
    } else {
      AllInside(positions[1..], start, end);
      assert Later(positions, start)[1..] == Later(positions[1..], start);
      assert positions == [positions[0]] + positions[1..];
    }
  }

  /** Between two known words the positions count from the first of them. */
  lemma BetweenKnown(kinds: seq<WordKind>, kind: WordKind)
    requires kinds != [] && kinds[0].Known? && kinds[|kinds| - 1].Known? && !kind.Known?
    ensures forall i | 0 <= i < |Positions(kinds, kind)| :: 0 < Positions(kinds, kind)[i] < |Ids(kinds)|
  {
    var n := |kinds| - 1;
    PositionsSplit(kinds, kind, 1);
    PositionsSplit(kinds, kind, n);
    assert kinds[..1] == [kinds[0]] && kinds[..1][..0] == [];
    IdsBound(kinds, n);
    assert kinds[..n + 1] == kinds;
  }

  lemma InsideMiddle(a: seq<nat>, b: seq<nat>, c: seq<nat>, start: nat, end: nat)
    requires (forall i | 0 <= i < |a| :: a[i] <= start) && (forall i | 0 <= i < |c| :: end <= c[i])
    requires forall i | 0 <= i < |b| :: 0 < b[i] && start + b[i] < end
    ensures Inside((a + Later(b, start)) + c, start, end) == b
  {
    NothingInside(a, start, end);
    NothingInside(c, start, end);
    AllInside(b, start, end);
    InsideConcat(a + Later(b, start), c, start, end);
    InsideConcat(a, Later(b, start), start, end);
  }

  lemma PositionsAround(before: seq<WordKind>, between: seq<WordKind>, after: seq<WordKind>, kind: WordKind)
    requires between != [] && between[0].Known? && between[|between| - 1].Known? && !kind.Known?
    ensures Positions(between, kind) == Inside(Positions((before + between) + after, kind), |Ids(before)|,
                                               |Ids(before + between)|)
  {
    var start, end := |Ids(before)|, |Ids(before + between)|;
    PositionsConcat(before + between, after, kind);
    PositionsConcat(before, between, kind);
    IdsConcat(before, between);
    PositionsSplit(before, kind, |before|);
    assert before[..|before|] == before;
    BetweenKnown(between, kind);
    InsideMiddle(Positions(before, kind), Positions(between, kind), Later(Positions(after, kind), end), start, end);
  }

  /** The omitted words between two known ones are those strictly inside the range of tokens. */
  lemma PositionsBetween(kinds: seq<WordKind>, kind: WordKind, p: nat, q: nat)
    requires p < q <= |kinds| && kinds[p].Known? && kinds[q - 1].Known? && !kind.Known?
    ensures Positions(kinds[p..q], kind) == Inside(Positions(kinds, kind), |Ids(kinds[..p])|, |Ids(kinds[..q])|)
  {
    PositionsAround(kinds[..p], kinds[p..q], kinds[q..], kind);
    assert kinds == (kinds[..p] + kinds[p..q]) + kinds[q..] && kinds[..q] == kinds[..p] + kinds[p..q];
  }

  /** The words of the first and last of some tokens. */
  lemma WordsAround(words: seq<Range>, kinds: seq<WordKind>, start: nat, end: nat) returns (p: nat, q: nat)
    requires |words| == |kinds| && start < end <= |Ids(kinds)|
    ensures p < q <= |words| && KnownRanges(words, kinds)[start] == words[p]
      && KnownRanges(words, kinds)[end - 1] == words[q - 1]
    ensures kinds[p].Known? && kinds[q - 1].Known? && |Ids(kinds[..p])| == start && |Ids(kinds[..q])| == end
  {
    p := WordOfToken(words, kinds, start);
    var last := WordOfToken(words, kinds, end - 1);
    WordsInOrder(kinds, p, last);
    IdsBound(kinds, last);
    q := last + 1;
  }

  /** What the bytes from one known token to another hold of omitted words. */
  lemma RangePositions(v: Vocabulary, decode: Decoder, input: Bytes, words: seq<Range>, kinds: seq<WordKind>,
                       start: nat, end: nat, kind: WordKind)
    requires Local(decode) && Proper(decode) && words == AllWords(decode, input) && kinds == Kinds(v, input, words)
    requires start < end <= |Ids(kinds)| && !kind.Known?
    ensures var ranges := KnownRanges(words, kinds);
      var from, to := ranges[start].start, ranges[end - 1].end;
      && from <= to <= |input|
      && Positions(Kinds(v, input[from..to], AllWords(decode, input[from..to])), kind)
           == Inside(Positions(kinds, kind), start, end)
  {
    WordsAreDisjoint(Reading(decode, input), 0);
    var p, q := WordsAround(words, kinds, start, end);
    CutWords(decode, input, p, q);
    CutKinds(v, input, words, p, q);
    PositionsBetween(kinds, kind, p, q);
  }

  /** What the bytes `from..to`, read on their own, hold of omitted words. */
  ghost function OmittedIn(v: Vocabulary, decode: Decoder, input: Bytes, from: nat, to: nat, kind: WordKind): seq<nat>
    requires from <= to <= |input|
  {
    Positions(Kinds(v, input[from..to], AllWords(decode, input[from..to])), kind)
  }

  /**
   * The rule allows what its match holds: unknown words only in a license text or a notice of at least fifteen tokens
   * that is neither continuous nor a required phrase, and in such a phrase its own stopwords in their places.
   */
  ghost predicate Allows(rule: MatchRule, length: nat, unknown: seq<nat>, stopwords: seq<nat>) {
    && (unknown == [] || (!rule.flags.continuous && !rule.flags.requiredPhrase
                          && (rule.flags.text || (rule.flags.notice && length >= 15))))
    && (rule.flags.continuous || rule.flags.requiredPhrase ==> stopwords == rule.stopwordAfter)
  }

  lemma {:induction false} InsideEmpty(positions: seq<nat>, m: Match)
    ensures Inside(positions, m.start, m.end) == [] <==> !SpansOmittedWord(m, positions)
  {
    if positions == [] {
    } else {
      InsideEmpty(positions[1..], m);
      SpansFirstOrLater(positions, m);
    }
  }

  lemma SpansFirstOrLater(positions: seq<nat>, m: Match)
    requires positions != []
    ensures SpansOmittedWord(m, positions) <==>
      m.start < positions[0] < m.end || SpansOmittedWord(m, positions[1..])
  {
    if SpansOmittedWord(m, positions) {
      var p :| p in positions && m.start < p < m.end;
      if p != positions[0] { assert p in positions[1..]; }
    }
    if SpansOmittedWord(m, positions[1..]) {
      var p :| p in positions[1..] && m.start < p < m.end;
      assert p in positions;
    }
    assert positions[0] in positions;
  }

  /** A match survives exactly when its rule allows the omitted words of its bytes. */
  lemma SurvivesInWords(v: Vocabulary, decode: Decoder, input: Bytes, words: seq<Range>, kinds: seq<WordKind>,
                        rules: seq<MatchRule>, lengths: seq<nat>, m: Match)
    requires Local(decode) && Proper(decode) && words == AllWords(decode, input) && kinds == Kinds(v, input, words)
    requires m.start < m.end <= |Ids(kinds)| && m.rule < |rules| == |lengths|
    ensures var ranges := KnownRanges(words, kinds);
      var from, to := ranges[m.start].start, ranges[m.end - 1].end;
      && from <= to <= |input|
      && (Surviving(rules, lengths, Positions(kinds, Unknown), Positions(kinds, Stopword))(m) <==>
          Allows(rules[m.rule], lengths[m.rule], OmittedIn(v, decode, input, from, to, Unknown),
                 OmittedIn(v, decode, input, from, to, Stopword)))
  {
    RangePositions(v, decode, input, words, kinds, m.start, m.end, Unknown);
    RangePositions(v, decode, input, words, kinds, m.start, m.end, Stopword);
    InsideEmpty(Positions(kinds, Unknown), m);
  }

  // Every reported match --------------------------------------------------------------------------------

  /** The rule of a reported match allows the omitted words that its bytes hold. */
  ghost predicate AllowedAt(v: Vocabulary, decode: Decoder, input: Bytes, rules: seq<MatchRule>, ruleTokens: seq<Word>,
                            f: Matching.Reported) {
    && f.rule < |rules| == |ruleTokens| && f.start <= f.end <= |input|
    && Allows(rules[f.rule], |ruleTokens[f.rule]|, OmittedIn(v, decode, input, f.start, f.end, Unknown),
              OmittedIn(v, decode, input, f.start, f.end, Stopword))
  }

  /** However it was found, a match is placed from the first of its tokens' words to the last. */
  lemma PlaceIsRange(words: seq<Range>, kinds: seq<WordKind>, tokens: IDTokens, m: Match, how: Detections.Method)
    requires Recorded(words, kinds, |words|, tokens) && m.start < m.end <= |tokens.ids|
    requires how.Hash? ==> m.start == 0 && m.end == |tokens.ids|
    ensures var ranges := KnownRanges(words, kinds);
      |ranges| == |tokens.ids|
      && Matching.Place(m, how, tokens, ranges)
           == Matching.Reported(m.rule, ranges[m.start].start, ranges[m.end - 1].end)
  {
    RecordedAll(words, kinds, tokens);
    Matching.SpanOfAll(words, kinds, tokens);
  }

  lemma CandidateSurvives(engine: Matcher.MatchEngine, tokens: IDTokens, ms: seq<Match>, how: Detections.Method,
                          m: Match)
    requires Matching.CandidatesOf(engine, tokens, ms, how) && m in ms
    ensures Surviving(engine.rules, engine.ruleTokenLengths, tokens.unknownAfter, tokens.stopwordAfter)(m)
  {
    var keep := Surviving(engine.rules, engine.ruleTokenLengths, tokens.unknownAfter, tokens.stopwordAfter);
    match how
    case Exact =>
      FilterMembers(keep, engine.Found(tokens.ids), m);
    case Hash =>
      var whole :| engine.WholeInput(tokens.ids, whole) && ms == Matching.Kept(engine, tokens, whole);
      FilterMembers(keep, whole, m);
  }

  /** The rule of every match in an answer allows what it holds. */
  lemma AnswersAllowed(engine: Matcher.MatchEngine, options: FilterPipeline.FilterOptions, v: Vocabulary,
                       decode: Decoder, input: Bytes, tokens: IDTokens, placed: seq<Matching.Reported>,
                       run: Matching.Run, i: nat)
    requires engine.Valid() && Local(decode) && Proper(decode)
    requires var words := AllWords(decode, input); var kinds := Kinds(v, input, words);
      && Matching.Tokenized(v, decode, input, words, kinds, tokens)
      && Matching.Answers(engine, options, tokens, KnownRanges(words, kinds), placed, run)
    requires i < |placed|
    ensures AllowedAt(v, decode, input, engine.rules, engine.ruleTokens, placed[i])
  {
    var words := AllWords(decode, input);
    var kinds := Kinds(v, input, words);
    var m := run.reported[i];
    var candidates := run.candidates;
    ReportedIsCandidate(engine, options, tokens, run, m);
    CandidateSurvives(engine, tokens, candidates, run.how, m);
    Matching.CandidatesOccur(engine, tokens, candidates, run.how);
    RecordedAll(words, kinds, tokens);
    PlaceIsRange(words, kinds, tokens, m, run.how);
    SurvivesInWords(v, decode, input, words, kinds, engine.rules, engine.ruleTokenLengths, m);
  }

  lemma ReportedIsCandidate(engine: Matcher.MatchEngine, options: FilterPipeline.FilterOptions, tokens: IDTokens,
                            run: Matching.Run, m: Match)
    requires Matching.Ran(engine.rules, options, run) && m in run.reported
    requires run.reported == Matching.WithoutLists(engine.rules, tokens, run.how, options, run.kept)
    ensures m in run.candidates
  {
    LicenseLists.UnlistedMembers(Matching.ListInput(engine.rules, tokens), run.kept, |run.kept|);
    Matching.ReportedWasCandidate(engine.rules, run.candidates, run.ms, options, run.t.s5, run.kept, m);
  }
}
