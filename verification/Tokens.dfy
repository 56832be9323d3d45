/** Known tokens, omitted words, and the byte ranges recovered from the omitted-word positions alone. */
module Tokens {
  import opened Suffixes
  import opened Tokenize

  /** The number of a normalized word, 0 for a word nobody knows, and which numbers are stopwords. */
  datatype Vocabulary = Vocabulary(lookup: Bytes -> nat, stopword: nat -> bool)

  const UNKNOWN: nat := 0

  datatype WordKind = Unknown | Stopword | Known(id: nat)

  function KindOf(v: Vocabulary, word: Bytes): WordKind {
    var id := v.lookup(word);
    if id == UNKNOWN then Unknown else if v.stopword(id) then Stopword else Known(id)
  }

  function Text(input: Bytes, w: Range): Bytes {
    if w.start <= w.end <= |input| then input[w.start..w.end] else []
  }

  function Kinds(v: Vocabulary, input: Bytes, words: seq<Range>): seq<WordKind> {
    seq(|words|, i requires 0 <= i < |words| => KindOf(v, Text(input, words[i])))
  }

  /** The known tokens among the words. */
  function Ids(kinds: seq<WordKind>): Word {
    if kinds == [] then []
    else
      var last := kinds[|kinds| - 1];
      Ids(kinds[..|kinds| - 1]) + if last.Known? then [last.id] else []
  }

  /** For each word of a kind, how many known tokens come before it. */
  function Positions(kinds: seq<WordKind>, kind: WordKind): seq<nat> {
    if kinds == [] then []
    else
      var init := kinds[..|kinds| - 1];
      Positions(init, kind) + if kinds[|kinds| - 1] == kind then [|Ids(init)|] else []
  }

  /** The byte ranges of the known words. */
  function KnownRanges(words: seq<Range>, kinds: seq<WordKind>): (ranges: seq<Range>)
    requires |words| == |kinds|
    ensures |ranges| == |Ids(kinds)|
  {
    if kinds == [] then []
    else
      var n := |kinds| - 1;
      KnownRanges(words[..n], kinds[..n]) + if kinds[n].Known? then [words[n]] else []
  }

  datatype IDTokens = IDTokens(ids: Word, unknownAfter: seq<nat>, stopwordAfter: seq<nat>, start: nat, end: nat)

  function AllWords(decode: Decoder, input: Bytes): seq<Range> {
    Words(Reading(decode, input), 0)
  }

  /** Start and end of the known ranges, zero if there are none. */
  ghost predicate Spans(ranges: seq<Range>, start: nat, end: nat) {
    if ranges == [] then start == 0 && end == 0
    else start == ranges[0].start && end == ranges[|ranges| - 1].end
  }

  /** What has been recorded for the first `i` words. */
  ghost predicate Recorded(words: seq<Range>, kinds: seq<WordKind>, i: nat, r: IDTokens) {
    && i <= |words| == |kinds| && r.ids == Ids(kinds[..i])
    && r.unknownAfter == Positions(kinds[..i], Unknown) && r.stopwordAfter == Positions(kinds[..i], Stopword)
    && Spans(KnownRanges(words[..i], kinds[..i]), r.start, r.end)
  }

  /** Everything recorded, for all words. */
  lemma RecordedAll(words: seq<Range>, kinds: seq<WordKind>, r: IDTokens)
    requires Recorded(words, kinds, |words|, r)
    ensures r.ids == Ids(kinds) && r.unknownAfter == Positions(kinds, Unknown)
      && r.stopwordAfter == Positions(kinds, Stopword)
    ensures Spans(KnownRanges(words, kinds), r.start, r.end)
  {
    assert words[..|words|] == words && kinds[..|kinds|] == kinds;
  }

  /** What the words of an input must be recorded as. */
  ghost function TokensOf(words: seq<Range>, kinds: seq<WordKind>): IDTokens
    requires |words| == |kinds|
  {
    var ranges := KnownRanges(words, kinds);
    IDTokens(Ids(kinds), Positions(kinds, Unknown), Positions(kinds, Stopword),
             if ranges == [] then 0 else ranges[0].start, if ranges == [] then 0 else ranges[|ranges| - 1].end)
  }

  lemma RecordedOnce(words: seq<Range>, kinds: seq<WordKind>, r: IDTokens)
    requires Recorded(words, kinds, |words|, r)
    ensures r == TokensOf(words, kinds)
  {
    RecordedAll(words, kinds, r);
  }

  lemma RecordOne(words: seq<Range>, kinds: seq<WordKind>, i: nat, r: IDTokens)
    requires Recorded(words, kinds, i, r) && i < |words|
    ensures Recorded(words, kinds, i + 1, match kinds[i]
      case Unknown => r.(unknownAfter := r.unknownAfter + [|r.ids|])
      case Stopword => r.(stopwordAfter := r.stopwordAfter + [|r.ids|])
      case Known(id) => r.(ids := r.ids + [id], start := if |r.ids| == 0 then words[i].start else r.start,
                           end := words[i].end))
  {
    assert kinds[..i + 1][..i] == kinds[..i] && words[..i + 1][..i] == words[..i];
  }

  /** Known tokens with the positions of omitted words and the span of the known ones. */
  method TokenizeIDs(v: Vocabulary, decode: Decoder, input: Bytes) returns (r: IDTokens)
    ensures var words := AllWords(decode, input);
      Recorded(words, Kinds(v, input, words), |words|, r)
  {
    var words := Scan(decode, input);
    ghost var kinds := Kinds(v, input, words);
    WordsAreDisjoint(Reading(decode, input), 0);
    r := IDTokens([], [], [], 0, 0);
    for i := 0 to |words|
      invariant Recorded(words, kinds, i, r)
    {
      RecordOne(words, kinds, i, r);
      var word := words[i];
      var id := v.lookup(input[word.start..word.end]);
      if id == UNKNOWN {
        r := r.(unknownAfter := r.unknownAfter + [|r.ids|]);
      } else if v.stopword(id) {
        r := r.(stopwordAfter := r.stopwordAfter + [|r.ids|]);
      } else {
        if |r.ids| == 0 {
          r := r.(start := word.start);
        }
        r := r.(ids := r.ids + [id], end := word.end);
      }
    }
  }

  // Recovering the ranges ------------------------------------------------------------------

  lemma IdsBound(kinds: seq<WordKind>, i: nat)
    requires i < |kinds|
    ensures |Ids(kinds[..i + 1])| == |Ids(kinds[..i])| + if kinds[i].Known? then 1 else 0
    ensures forall kind :: |Positions(kinds[..i + 1], kind)| == |Positions(kinds[..i], kind)| + if kinds[i] == kind
      then 1 else 0
  {
    assert kinds[..i + 1][..i] == kinds[..i];
  }

  /** The positions recorded for the first `i` words come first, and later ones are no smaller. */
  lemma {:induction false} PositionsSplit(kinds: seq<WordKind>, kind: WordKind, i: nat)
    requires i <= |kinds|
    ensures |Positions(kinds[..i], kind)| <= |Positions(kinds, kind)|
    ensures forall j | 0 <= j < |Positions(kinds[..i], kind)| :: Positions(kinds, kind)[j] <= |Ids(kinds[..i])|
    ensures forall j | |Positions(kinds[..i], kind)| <= j < |Positions(kinds, kind)| ::
      Positions(kinds, kind)[j] >= |Ids(kinds[..i])|
    decreases |kinds|
  {
    var n := |kinds| - 1;
    if i == |kinds| {
      assert kinds[..i] == kinds;
      if i > 0 { PositionsSplit(kinds[..n], kind, n); }
      assert i > 0 ==> kinds[..n][..n] == kinds[..n];
    } else {
      PositionsSplit(kinds[..n], kind, i);
      assert kinds[..n][..i] == kinds[..i];
      IdsGrow(kinds[..n], i);
    }
  }

  lemma {:induction false} IdsGrow(kinds: seq<WordKind>, i: nat)
    requires i <= |kinds|
    ensures |Ids(kinds[..i])| <= |Ids(kinds)|
    decreases |kinds|
  {
    if i == |kinds| {
      assert kinds[..i] == kinds;
    } else {
      IdsGrow(kinds[..|kinds| - 1], i);
      assert kinds[..|kinds| - 1][..i] == kinds[..i];
    }
  }

  /** Of both lists the entries used so far are at most the known count, the others at least. */
  ghost predicate Used(positions: seq<nat>, index: nat, count: nat) {
    && index <= |positions|
    && (forall j | 0 <= j < index :: positions[j] <= count)
    && (forall j | index <= j < |positions| :: count <= positions[j])
  }

  lemma UsedAtMost(positions: seq<nat>, index: nat, split: nat, count: nat)
    requires Used(positions, index, count) && forall j | split <= j < |positions| :: count < positions[j]
    ensures index <= split
  {
    if split < |positions| { assert count < positions[split]; }
  }

  /** Whether the next word is omitted can be read off the two lists, though not of which kind it is. */
  lemma NextWordOmitted(kinds: seq<WordKind>, i: nat, unknownIndex: nat, stopwordIndex: nat)
    requires i < |kinds|
    requires Used(Positions(kinds, Unknown), unknownIndex, |Ids(kinds[..i])|)
    requires Used(Positions(kinds, Stopword), stopwordIndex, |Ids(kinds[..i])|)
    requires unknownIndex + stopwordIndex + |Ids(kinds[..i])| == i
    ensures var count := |Ids(kinds[..i])|;
      !kinds[i].Known? <==>
        || (unknownIndex < |Positions(kinds, Unknown)| && Positions(kinds, Unknown)[unknownIndex] == count)
        || (stopwordIndex < |Positions(kinds, Stopword)| && Positions(kinds, Stopword)[stopwordIndex] == count)
    ensures kinds[i].Known? ==>
      && Used(Positions(kinds, Unknown), unknownIndex, |Ids(kinds[..i])| + 1)
      && Used(Positions(kinds, Stopword), stopwordIndex, |Ids(kinds[..i])| + 1)
  {
    CountWords(kinds[..i]);
    IdsBound(kinds, i);
    PositionsSplit(kinds, Unknown, i);
    PositionsSplit(kinds, Stopword, i);
    if kinds[i].Known? {
      NothingPast(kinds, Unknown, i, unknownIndex, |Ids(kinds[..i])|);
      NothingPast(kinds, Stopword, i, stopwordIndex, |Ids(kinds[..i])|);
      NothingWaits(kinds, Unknown, i, unknownIndex, |Ids(kinds[..i])|);
      NothingWaits(kinds, Stopword, i, stopwordIndex, |Ids(kinds[..i])|);
    } else {
      PositionsSplit(kinds, Unknown, i + 1);
      PositionsSplit(kinds, Stopword, i + 1);
      if unknownIndex < |Positions(kinds[..i + 1], Unknown)| {
        assert Positions(kinds, Unknown)[unknownIndex] == |Ids(kinds[..i])|;
      } else {
        assert Positions(kinds, Stopword)[stopwordIndex] == |Ids(kinds[..i])|;
      }
    }
  }

  lemma NothingPast(kinds: seq<WordKind>, kind: WordKind, i: nat, index: nat, count: nat)
    requires i < |kinds| && kinds[i].Known? && kind != kinds[i] && count == |Ids(kinds[..i])|
    requires Used(Positions(kinds, kind), index, count)
    ensures index <= |Positions(kinds[..i], kind)|
  {
    IdsBound(kinds, i);
    PositionsSplit(kinds, kind, i + 1);
    UsedAtMost(Positions(kinds, kind), index, |Positions(kinds[..i], kind)|, count);
  }

  /** Before a known word no omitted word of a kind is left over. */
  lemma NothingWaits(kinds: seq<WordKind>, kind: WordKind, i: nat, index: nat, count: nat)
    requires i < |kinds| && kinds[i].Known? && kind != kinds[i] && count == |Ids(kinds[..i])|
    requires Used(Positions(kinds, kind), index, count) && |Positions(kinds[..i], kind)| <= index
    ensures Used(Positions(kinds, kind), index, count + 1)
    ensures index < |Positions(kinds, kind)| ==> Positions(kinds, kind)[index] != count
  {
    IdsBound(kinds, i);
    PositionsSplit(kinds, kind, i + 1);
  }

  /** Every word is known, unknown or a stopword. */
  lemma {:induction false} CountWords(kinds: seq<WordKind>)
    ensures |Ids(kinds)| + |Positions(kinds, Unknown)| + |Positions(kinds, Stopword)| == |kinds|
  {
    if kinds == [] {
    } else {
      CountWords(kinds[..|kinds| - 1]);
    }
  }

  lemma KnownNext(words: seq<Range>, kinds: seq<WordKind>, i: nat)
    requires i < |words| == |kinds|
    ensures KnownRanges(words[..i + 1], kinds[..i + 1]) ==
      KnownRanges(words[..i], kinds[..i]) + if kinds[i].Known? then [words[i]] else []
  {
    assert kinds[..i + 1][..i] == kinds[..i] && words[..i + 1][..i] == words[..i];
  }

  /** Where the recovery stands after `i` words. */
  ghost predicate Recovering(words: seq<Range>, kinds: seq<WordKind>, i: nat, offsets: seq<Range>, unknownIndex: nat,
                             stopwordIndex: nat) {
    && i <= |words| == |kinds| && offsets == KnownRanges(words[..i], kinds[..i])
    && unknownIndex + stopwordIndex + |offsets| == i
    && Used(Positions(kinds, Unknown), unknownIndex, |offsets|)
    && Used(Positions(kinds, Stopword), stopwordIndex, |offsets|)
  }

  lemma RecoverOne(words: seq<Range>, kinds: seq<WordKind>, i: nat, offsets: seq<Range>, unknownIndex: nat,
                   stopwordIndex: nat)
    requires Recovering(words, kinds, i, offsets, unknownIndex, stopwordIndex) && i < |words|
    ensures var unknownAfter, stopwordAfter := Positions(kinds, Unknown), Positions(kinds, Stopword);
      if unknownIndex < |unknownAfter| && unknownAfter[unknownIndex] == |offsets| then
        Recovering(words, kinds, i + 1, offsets, unknownIndex + 1, stopwordIndex)
      else if stopwordIndex < |stopwordAfter| && stopwordAfter[stopwordIndex] == |offsets| then
        Recovering(words, kinds, i + 1, offsets, unknownIndex, stopwordIndex + 1)
      else Recovering(words, kinds, i + 1, offsets + [words[i]], unknownIndex, stopwordIndex)
  {
    NextWordOmitted(kinds, i, unknownIndex, stopwordIndex);
    KnownNext(words, kinds, i);
  }

  /** The byte ranges of the known words, from the input and the two position lists, without a vocabulary. */
  method KnownTokenOffsets(decode: Decoder, input: Bytes, unknownAfter: seq<nat>, stopwordAfter: seq<nat>,
                           ghost v: Vocabulary)
    returns (offsets: seq<Range>)
    requires var kinds := Kinds(v, input, AllWords(decode, input));
      unknownAfter == Positions(kinds, Unknown) && stopwordAfter == Positions(kinds, Stopword)
    ensures var words := AllWords(decode, input); offsets == KnownRanges(words, Kinds(v, input, words))
  {
    var words := Scan(decode, input);
    offsets := Recover(words, unknownAfter, stopwordAfter, Kinds(v, input, words));
  }

  /** The scan's callback, word by word. */
  method Recover(words: seq<Range>, unknownAfter: seq<nat>, stopwordAfter: seq<nat>, ghost kinds: seq<WordKind>)
    returns (offsets: seq<Range>)
    requires |words| == |kinds| && unknownAfter == Positions(kinds, Unknown)
      && stopwordAfter == Positions(kinds, Stopword)
    ensures offsets == KnownRanges(words, kinds)
  {
    offsets := [];
    var unknownIndex, stopwordIndex := 0, 0;
    for i := 0 to |words|
      invariant Recovering(words, kinds, i, offsets, unknownIndex, stopwordIndex)
    {
      RecoverOne(words, kinds, i, offsets, unknownIndex, stopwordIndex);
      if unknownIndex < |unknownAfter| && unknownAfter[unknownIndex] == |offsets| {
        unknownIndex := unknownIndex + 1;
        continue;
      }
      if stopwordIndex < |stopwordAfter| && stopwordAfter[stopwordIndex] == |offsets| {
        stopwordIndex := stopwordIndex + 1;
        continue;
      }
      offsets := offsets + [words[i]];
    }
    assert words[..|words|] == words && kinds[..|words|] == kinds;
  }

  /** Every word's byte range; the known ones when no word is omitted. */
  method TokenOffsets(decode: Decoder, input: Bytes, ghost v: Vocabulary) returns (offsets: seq<Range>)
    ensures offsets == AllWords(decode, input)
    ensures var kinds := Kinds(v, input, offsets);
      Positions(kinds, Unknown) == [] && Positions(kinds, Stopword) == [] ==> offsets == KnownRanges(offsets, kinds)
  {
    offsets := Scan(decode, input);
    AllKnown(offsets, Kinds(v, input, offsets));
  }

  lemma {:induction false} AllKnown(words: seq<Range>, kinds: seq<WordKind>)
    requires |words| == |kinds|
    ensures Positions(kinds, Unknown) == [] && Positions(kinds, Stopword) == [] ==> KnownRanges(words, kinds) == words
  {
    if kinds == [] {
    } else {
      AllKnown(words[..|words| - 1], kinds[..|kinds| - 1]);
      assert words == words[..|words| - 1] + [words[|words| - 1]];
    }
  }

  // Reading a matched range again --------------------------------------------------------------

  lemma {:induction false} IdsConcat(a: seq<WordKind>, b: seq<WordKind>)
    ensures Ids(a + b) == Ids(a) + Ids(b)
  {
    if b == [] {
      assert a + b == a;
    } else {
      var n := |b| - 1;
      assert (a + b)[..|a + b| - 1] == a + b[..n] && (a + b)[|a + b| - 1] == b[n];
      IdsConcat(a, b[..n]);
    }
  }

  /** The word behind the `k`-th known token. */
  lemma {:induction false} WordOfToken(words: seq<Range>, kinds: seq<WordKind>, k: nat) returns (p: nat)
    requires |words| == |kinds| && k < |Ids(kinds)|
    ensures p < |words| && kinds[p].Known? && KnownRanges(words, kinds)[k] == words[p] && |Ids(kinds[..p])| == k
  {
    var n := |kinds| - 1;
    if k < |Ids(kinds[..n])| {
      p := WordOfToken(words[..n], kinds[..n], k);
      assert kinds[..n][..p] == kinds[..p];
    } else {
      p := n;
    }
  }

  /** Tokens between two words are the tokens of the words between. */
  lemma IdsBetween(kinds: seq<WordKind>, p: nat, q: nat)
    requires p <= q <= |kinds|
    ensures |Ids(kinds[..p])| <= |Ids(kinds[..q])| <= |Ids(kinds)|
    ensures Ids(kinds[p..q]) == Ids(kinds)[|Ids(kinds[..p])|..|Ids(kinds[..q])|]
  {
    assert kinds == kinds[..q] + kinds[q..] && kinds[..q] == kinds[..p] + kinds[p..q];
    IdsConcat(kinds[..p], kinds[p..q]);
    IdsConcat(kinds[..q], kinds[q..]);
  }

  lemma CutText(input: Bytes, w: Range, from: nat, to: nat)
    requires from <= w.start <= w.end <= to <= |input|
    ensures Text(input[from..to], ShiftedRange(w, from)) == Text(input, w)
  {
    var cut, word := input[from..to], input[w.start..w.end];
    assert forall k | 0 <= k < |word| :: cut[w.start - from + k] == word[k];
    assert cut[w.start - from..w.end - from] == word;
  }

  /** The same words, found in a cut of the input, are of the same kinds. */
  lemma CutKinds(v: Vocabulary, input: Bytes, words: seq<Range>, p: nat, q: nat)
    requires p < q <= |words| && WordsRise(words, 0, |input|)
    ensures var from, to := words[p].start, words[q - 1].end;
      from <= to <= |input| && Kinds(v, input[from..to], Shifted(words[p..q], from)) == Kinds(v, input, words)[p..q]
  {
    var from, to := words[p].start, words[q - 1].end;
    WordInside(words, p, q, p, |input|);
    KindsOfSlice(v, input, words, p, q);
    var text, own := input[from..to], words[p..q];
    forall i: nat | i < |own| ensures Text(text, Shifted(own, from)[i]) == Text(input, own[i]) {
      WordInside(words, p, q, p + i, |input|);
      CutText(input, own[i], from, to);
    }
    SameTexts(v, text, Shifted(own, from), input, own);
  }

  lemma KindsOfSlice(v: Vocabulary, input: Bytes, words: seq<Range>, p: nat, q: nat)
    requires p <= q <= |words|
    ensures Kinds(v, input, words)[p..q] == Kinds(v, input, words[p..q])
  {
  }

  lemma SameTexts(v: Vocabulary, a: Bytes, ranges: seq<Range>, b: Bytes, others: seq<Range>)
    requires |ranges| == |others| && forall i: nat | i < |ranges| :: Text(a, ranges[i]) == Text(b, others[i])
    ensures Kinds(v, a, ranges) == Kinds(v, b, others)
  {
  }

  lemma WordInside(words: seq<Range>, p: nat, q: nat, k: nat, to: nat)
    requires p <= k < q <= |words| && WordsRise(words, 0, to)
    ensures words[p].start <= words[k].start <= words[k].end <= words[q - 1].end <= to
  {
  }

  lemma IdsUpTo(kinds: seq<WordKind>, a: nat, b: nat)
    requires a <= b <= |kinds|
    ensures |Ids(kinds[..a])| <= |Ids(kinds[..b])|
  {
    IdsGrow(kinds[..b], a);
    assert kinds[..b][..a] == kinds[..a];
  }

  lemma WordsInOrder(kinds: seq<WordKind>, p: nat, q: nat)
    requires p < |kinds| && q < |kinds| && kinds[q].Known? && |Ids(kinds[..p])| <= |Ids(kinds[..q])|
    ensures p <= q
  {
    IdsBound(kinds, q);
    if q < p { IdsUpTo(kinds, q + 1, p); }
  }

  /** The words from one known token to another. */
  lemma WordsOfTokens(words: seq<Range>, kinds: seq<WordKind>, start: nat, end: nat) returns (p: nat, q: nat)
    requires |words| == |kinds| && start < end <= |Ids(kinds)|
    ensures p < q <= |words| && KnownRanges(words, kinds)[start] == words[p]
      && KnownRanges(words, kinds)[end - 1] == words[q - 1]
    ensures Ids(kinds[p..q]) == Ids(kinds)[start..end]
  {
    p := WordOfToken(words, kinds, start);
    var last := WordOfToken(words, kinds, end - 1);
    WordsInOrder(kinds, p, last);
    IdsBound(kinds, last);
    q := last + 1;
    IdsBetween(kinds, p, q);
  }

  /** On their own, the bytes `from..to` give these known tokens. */
  ghost predicate ReadsAs(v: Vocabulary, decode: Decoder, input: Bytes, from: nat, to: nat, ids: Word) {
    && from <= to <= |input|
    && Ids(Kinds(v, input[from..to], AllWords(decode, input[from..to]))) == ids
  }

  /** Tokenizing the bytes from one known token to another again gives just the known tokens between them. */
  lemma RangeTokens(v: Vocabulary, decode: Decoder, input: Bytes, words: seq<Range>, kinds: seq<WordKind>, start: nat,
                    end: nat)
    requires Local(decode) && Proper(decode) && words == AllWords(decode, input) && kinds == Kinds(v, input, words)
    requires start < end <= |Ids(kinds)|
    ensures var ranges := KnownRanges(words, kinds);
      ReadsAs(v, decode, input, ranges[start].start, ranges[end - 1].end, Ids(kinds)[start..end])
  {
    WordsAreDisjoint(Reading(decode, input), 0);
    var p, q := WordsOfTokens(words, kinds, start, end);
    CutWords(decode, input, p, q);
    CutKinds(v, input, words, p, q);
  }
}
