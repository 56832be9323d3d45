/** Words of a byte string: how they are scanned, what they are, and what a cut keeps. */
module Tokenize {
  import Packed

  type Bytes = seq<Packed.byte>

  datatype Kind = Letter | PlusSign | Other

  /** What stands at a byte offset, and how many bytes it takes. */
  datatype Character = Character(kind: Kind, width: nat)

  /** The decoder and character tables for bytes past ASCII: whether a word character starts here, and its width. */
  type Decoder = (Bytes, nat) -> (bool, nat)

  datatype Range = Range(start: nat, end: nat)

  predicate AsciiWord(c: Packed.byte) {
    'a' as int <= c <= 'z' as int || 'A' as int <= c <= 'Z' as int || '0' as int <= c <= '9' as int
  }

  function CharacterAt(decode: Decoder, input: Bytes, offset: nat): Character
    requires offset < |input|
  {
    if input[offset] < 0x80 then
      Character(if AsciiWord(input[offset]) then Letter else if input[offset] == '+' as int then PlusSign else Other, 1)
    else
      var (isWord, width) := decode(input, offset);
      Character(if isWord then Letter else Other, width)
  }

  /** The reading of every byte offset. */
  function Reading(decode: Decoder, input: Bytes): (cs: seq<Character>)
    ensures |cs| == |input|
  {
    seq(|input|, offset requires 0 <= offset < |input| => CharacterAt(decode, input, offset))
  }

  /** The offset after a character, which a decoder keeps inside the input. */
  function After(cs: seq<Character>, offset: nat): (next: nat)
    requires offset < |cs|
    ensures offset < next <= |cs|
  {
    if 1 <= cs[offset].width <= |cs| - offset then offset + cs[offset].width else offset + 1
  }

  /** Where a word that has reached `offset` ends: letters and at most one plus sign go on. */
  function WordEnd(cs: seq<Character>, offset: nat, plusSeen: bool): (end: nat)
    ensures offset <= end && (offset <= |cs| ==> end <= |cs|)
    decreases |cs| - offset
  {
    if offset >= |cs| || cs[offset].kind == Other || (cs[offset].kind == PlusSign && plusSeen) then offset
    else WordEnd(cs, After(cs, offset), plusSeen || cs[offset].kind == PlusSign)
  }

  /** The words from `offset` on. */
  function Words(cs: seq<Character>, offset: nat): seq<Range>
    decreases |cs| - offset
  {
    if offset >= |cs| then []
    else if cs[offset].kind != Letter then Words(cs, After(cs, offset))
    else
      var end := WordEnd(cs, After(cs, offset), false);
      [Range(offset, end)] + Words(cs, end)
  }

  // Scanning -----------------------------------------------------------------------------

  method Scan(decode: Decoder, input: Bytes) returns (words: seq<Range>)
    ensures words == Words(Reading(decode, input), 0) && IsWordList(Reading(decode, input), 0, words)
  {
    ghost var cs := Reading(decode, input);
    words := [];
    var offset: nat := 0;
    while offset < |input|
      invariant offset <= |input| && words + Words(cs, offset) == Words(cs, 0)
      decreases |input| - offset
    {
      var c := CharacterAt(decode, input, offset);
      var next := if 1 <= c.width <= |input| - offset then offset + c.width else offset + 1;
      assert next == After(cs, offset);
      if c.kind != Letter {
        offset := next;
        continue;
      }
      var start := offset;
      offset := ScanWord(decode, input, next);
      YieldOne(words, Range(start, offset), Words(cs, offset));
      words := words + [Range(start, offset)];
    }
    WordsAreWords(cs, 0);
  }

  lemma YieldOne(words: seq<Range>, word: Range, later: seq<Range>)
    ensures words + ([word] + later) == (words + [word]) + later
  {
  }

  method ScanWord(decode: Decoder, input: Bytes, offset0: nat) returns (offset: nat)
    requires offset0 <= |input|
    ensures offset == WordEnd(Reading(decode, input), offset0, false)
  {
    ghost var cs := Reading(decode, input);
    offset := offset0;
    var plusSeen := false;
    while offset < |input|
      invariant offset0 <= offset <= |input|
      invariant WordEnd(cs, offset, plusSeen) == WordEnd(cs, offset0, false)
      decreases |input| - offset
    {
      var c := CharacterAt(decode, input, offset);
      if c.kind == Other || (c.kind == PlusSign && plusSeen) {
        break;
      }
      plusSeen := plusSeen || c.kind == PlusSign;
      offset := if 1 <= c.width <= |input| - offset then offset + c.width else offset + 1;
    }
  }

  // What the words are ---------------------------------------------------------------------

  /** Reading character by character from `from` comes to `to`. */
  ghost predicate Reaches(cs: seq<Character>, from: nat, to: nat)
    decreases |cs| - from
  {
    from == to || (from < |cs| && Reaches(cs, After(cs, from), to))
  }

  lemma {:induction false} ReachesForward(cs: seq<Character>, from: nat, to: nat)
    requires Reaches(cs, from, to)
    ensures from <= to
    decreases |cs| - from
  {
    if from == to {
    } else {
      ReachesForward(cs, After(cs, from), to);
    }
  }

  ghost predicate WordsRise(words: seq<Range>, from: nat, to: nat) {
    && (forall i | 0 <= i < |words| :: from <= words[i].start < words[i].end <= to)
    && (forall i, j | 0 <= i < j < |words| :: words[i].end <= words[j].start)
  }

  /** Words are non-empty, disjoint and in order. */
  lemma {:induction false} WordsAreDisjoint(cs: seq<Character>, offset: nat)
    ensures WordsRise(Words(cs, offset), offset, |cs|)
    decreases |cs| - offset
  {
    if offset >= |cs| {
    } else {
      WordsAreDisjoint(cs, if cs[offset].kind != Letter then After(cs, offset)
                       else WordEnd(cs, After(cs, offset), false));
    }
  }

  /** The end of a word lies on the way to every later character. */
  lemma {:induction false} ThroughWordEnd(cs: seq<Character>, offset: nat, plusSeen: bool, at: nat)
    requires Reaches(cs, offset, at) && WordEnd(cs, offset, plusSeen) <= at
    ensures Reaches(cs, WordEnd(cs, offset, plusSeen), at)
    decreases |cs| - offset
  {
    if WordEnd(cs, offset, plusSeen) == offset {
    } else {
      ThroughWordEnd(cs, After(cs, offset), plusSeen || cs[offset].kind == PlusSign, at);
    }
  }

  lemma {:induction false} InsideWord(cs: seq<Character>, offset: nat, plusSeen: bool, at: nat)
    requires Reaches(cs, offset, at) && at < WordEnd(cs, offset, plusSeen) && offset < |cs|
    ensures at < |cs| && cs[at].kind != Other
    decreases |cs| - offset
  {
    if offset == at || After(cs, offset) == |cs| {
    } else {
      InsideWord(cs, After(cs, offset), plusSeen || cs[offset].kind == PlusSign, at);
    }
  }

  ghost predicate InSomeWord(words: seq<Range>, at: nat) {
    exists i :: 0 <= i < |words| && words[i].start <= at < words[i].end
  }

  /** Every letter lies in a word, and a word holds only letters and plus signs. */
  lemma {:induction false} WordsHoldLetters(cs: seq<Character>, offset: nat, at: nat)
    requires Reaches(cs, offset, at) && at < |cs|
    ensures cs[at].kind == Letter ==> InSomeWord(Words(cs, offset), at)
    ensures InSomeWord(Words(cs, offset), at) ==> cs[at].kind != Other
    decreases |cs| - offset
  {
    var next := After(cs, offset);
    if cs[offset].kind != Letter {
      WordsAreDisjoint(cs, next);
      if at != offset { WordsHoldLetters(cs, next, at); }
    } else {
      var end := WordEnd(cs, next, false);
      var later := Words(cs, end);
      WordsAreDisjoint(cs, end);
      assert Words(cs, offset) == [Range(offset, end)] + later;
      if at < end {
        ReachesForward(cs, offset, at);
        assert Words(cs, offset)[0] == Range(offset, end);
        if at != offset { InsideWord(cs, next, false, at); }
      } else {
        ThroughWordEnd(cs, next, false, at);
        WordsHoldLetters(cs, end, at);
        InLater(Range(offset, end), later, at);
      }
    }
  }

  lemma InLater(first: Range, later: seq<Range>, at: nat)
    requires first.end <= at
    ensures InSomeWord([first] + later, at) <==> InSomeWord(later, at)
  {
    if InSomeWord(later, at) {
      var i :| 0 <= i < |later| && later[i].start <= at < later[i].end;
      assert ([first] + later)[i + 1] == later[i];
    }
  }

  // Words by their characters alone ----------------------------------------------------------

  /** ASCII digits and letters are letters, code 43 is the plus sign, and past ASCII the decoder decides. */
  lemma ReadingsOfBytes(decode: Decoder, input: Bytes, offset: nat)
    requires offset < |input|
    ensures var c := Reading(decode, input)[offset];
      && (input[offset] < 128 ==>
            (c.kind == Letter <==> input[offset] in seq(10, i => 48 + i) + seq(26, i => 65 + i) + seq(26, i => 97 + i)))
      && (c.kind == PlusSign <==> input[offset] == 43)
      && (input[offset] >= 128 ==> (c.kind == Letter <==> decode(input, offset).0))
      && (input[offset] < 128 ==> After(Reading(decode, input), offset) == offset + 1)
      && (input[offset] >= 128 && 1 <= decode(input, offset).1 <= |input| - offset ==>
            After(Reading(decode, input), offset) == offset + decode(input, offset).1)
  {
    var digits, upper, lower := seq(10, i => 48 + i), seq(26, i => 65 + i), seq(26, i => 97 + i);
    var c := input[offset];
    if 48 <= c <= 57 { assert digits[c - 48] == c; }
    if 65 <= c <= 90 { assert upper[c - 65] == c; }
    if 97 <= c <= 122 { assert lower[c - 97] == c; }
  }

  /** A plus sign stands at `at`, on the way through a word. */
  ghost predicate PlusAt(cs: seq<Character>, w: Range, at: nat) {
    w.start <= at < w.end && at < |cs| && Reaches(cs, w.start, at) && cs[at].kind == PlusSign
  }

  /** From a letter on: letters and at most one plus sign, ending only where neither goes on. */
  ghost predicate IsWord(cs: seq<Character>, w: Range) {
    && w.start < w.end <= |cs| && cs[w.start].kind == Letter && Reaches(cs, w.start, w.end)
    && (forall at: nat | w.start <= at < w.end && Reaches(cs, w.start, at) :: cs[at].kind != Other)
    && (forall a: nat, b: nat | PlusAt(cs, w, a) && PlusAt(cs, w, b) :: a == b)
    && (w.end < |cs| ==> cs[w.end].kind != Letter
                         && (cs[w.end].kind == PlusSign ==> exists at: nat :: PlusAt(cs, w, at)))
  }

  /** Disjoint words in order, in one of which each letter lies. */
  ghost predicate IsWordList(cs: seq<Character>, offset: nat, words: seq<Range>) {
    && WordsRise(words, offset, |cs|)
    && (forall i | 0 <= i < |words| :: Reaches(cs, offset, words[i].start) && IsWord(cs, words[i]))
    && forall at: nat | at < |cs| && Reaches(cs, offset, at) && cs[at].kind == Letter :: InSomeWord(words, at)
  }

  /** From `offset` to the end of the word that has reached it. */
  lemma {:induction false} RestOfWord(cs: seq<Character>, offset: nat, plusSeen: bool)
    requires offset <= |cs|
    ensures var w := Range(offset, WordEnd(cs, offset, plusSeen));
      && Reaches(cs, offset, w.end)
      && (forall at: nat | offset <= at < w.end && Reaches(cs, offset, at) :: cs[at].kind != Other)
      && (forall a: nat, b: nat | PlusAt(cs, w, a) && PlusAt(cs, w, b) :: !plusSeen && a == b)
      && (w.end < |cs| ==> cs[w.end].kind != Letter
                           && (cs[w.end].kind == PlusSign ==> plusSeen || exists at: nat :: PlusAt(cs, w, at)))
    decreases |cs| - offset
  {
    var end := WordEnd(cs, offset, plusSeen);
    if end == offset {
    } else {
      var next, seen := After(cs, offset), plusSeen || cs[offset].kind == PlusSign;
      RestOfWord(cs, next, seen);
      var w, rest := Range(offset, end), Range(next, end);
      forall at: nat | at != offset ensures PlusAt(cs, w, at) <==> PlusAt(cs, rest, at) {
        if PlusAt(cs, w, at) { ReachesForward(cs, next, at); }
      }
      forall at: nat | offset <= at < end && Reaches(cs, offset, at) ensures cs[at].kind != Other {
        if at != offset { ReachesForward(cs, next, at); }
      }
      assert PlusAt(cs, w, offset) <==> cs[offset].kind == PlusSign;
    }
  }

  lemma WordFromLetter(cs: seq<Character>, offset: nat)
    requires offset < |cs| && cs[offset].kind == Letter
    ensures IsWord(cs, Range(offset, WordEnd(cs, After(cs, offset), false)))
  {
    var next := After(cs, offset);
    var end := WordEnd(cs, next, false);
    RestOfWord(cs, next, false);
    var w, rest := Range(offset, end), Range(next, end);
    forall at: nat ensures PlusAt(cs, w, at) <==> PlusAt(cs, rest, at) {
      if PlusAt(cs, w, at) { ReachesForward(cs, next, at); }
    }
    forall at: nat | offset <= at < end && Reaches(cs, offset, at) ensures cs[at].kind != Other {
      if at != offset { ReachesForward(cs, next, at); }
    }
  }

  /** The words of the scanner are those. */
  lemma {:induction false} WordsAreWords(cs: seq<Character>, offset: nat)
    requires offset <= |cs|
    ensures IsWordList(cs, offset, Words(cs, offset))
    decreases |cs| - offset
  {
    WordsAreDisjoint(cs, offset);
    forall at: nat | at < |cs| && Reaches(cs, offset, at) && cs[at].kind == Letter
      ensures InSomeWord(Words(cs, offset), at)
    {
      WordsHoldLetters(cs, offset, at);
    }
    if offset == |cs| {
    } else if cs[offset].kind != Letter {
      WordsAreWords(cs, After(cs, offset));
    } else {
      var end := WordEnd(cs, After(cs, offset), false);
      WordFromLetter(cs, offset);
      WordsAreWords(cs, end);
      forall i | 0 <= i < |Words(cs, end)| ensures Reaches(cs, offset, Words(cs, end)[i].start) {
        ReachesTransitive(cs, offset, end, Words(cs, end)[i].start);
      }
    }
  }

  lemma {:induction false} ReachesTransitive(cs: seq<Character>, a: nat, b: nat, c: nat)
    requires Reaches(cs, a, b) && Reaches(cs, b, c)
    ensures Reaches(cs, a, c)
    decreases |cs| - a
  {
    if a == b {
    } else {
      ReachesForward(cs, After(cs, a), b);
      ReachesForward(cs, b, c);
      ReachesTransitive(cs, After(cs, a), b, c);
    }
  }

  /** Of two offsets on one way, the later is reached from the earlier. */
  lemma {:induction false} ReachesBetween(cs: seq<Character>, a: nat, b: nat, c: nat)
    requires Reaches(cs, a, b) && Reaches(cs, a, c) && b <= c
    ensures Reaches(cs, b, c)
    decreases |cs| - a
  {
    if a == b {
    } else {
      ReachesForward(cs, After(cs, a), b);
      ReachesBetween(cs, After(cs, a), b, c);
    }
  }

  lemma WordEndsOnce(cs: seq<Character>, w: Range, other: Range)
    requires IsWord(cs, w) && IsWord(cs, other) && w.start == other.start
    ensures w.end >= other.end
  {
    if w.end < other.end {
      assert cs[w.end].kind == PlusSign;
      var at: nat :| PlusAt(cs, w, at);
      assert PlusAt(cs, other, at) && PlusAt(cs, other, w.end);
    }
  }

  lemma PastSeparator(cs: seq<Character>, offset: nat, words: seq<Range>)
    requires offset < |cs| && cs[offset].kind != Letter && IsWordList(cs, offset, words)
    ensures IsWordList(cs, After(cs, offset), words)
  {
    var next := After(cs, offset);
    forall i | 0 <= i < |words| ensures Reaches(cs, next, words[i].start) && next <= words[i].start {
      assert IsWord(cs, words[i]);
      ReachesForward(cs, next, words[i].start);
    }
  }

  lemma FirstIsHere(cs: seq<Character>, offset: nat, words: seq<Range>)
    requires offset < |cs| && cs[offset].kind == Letter && IsWordList(cs, offset, words)
    ensures words != [] && words[0] == Range(offset, WordEnd(cs, After(cs, offset), false))
  {
    assert Reaches(cs, offset, offset);
    var i :| 0 <= i < |words| && words[i].start <= offset < words[i].end;
    assert words[0].start <= words[i].start;
    WordFromLetter(cs, offset);
    var first := Range(offset, WordEnd(cs, After(cs, offset), false));
    assert IsWord(cs, words[0]);
    WordEndsOnce(cs, words[0], first);
    WordEndsOnce(cs, first, words[0]);
  }

  lemma RiseNeedsRoom(words: seq<Range>, from: nat, to: nat)
    requires WordsRise(words, from, to)
    ensures words == [] || from < to
  {
    if words != [] { assert from <= words[0].start < words[0].end; }
  }

  lemma RiseAfterFirst(words: seq<Range>, from: nat, to: nat)
    requires WordsRise(words, from, to) && words != []
    ensures WordsRise(words[1..], words[0].end, to)
  {
    forall i | 0 <= i < |words[1..]|
      ensures words[0].end <= words[1..][i].start < words[1..][i].end <= to
    {
      assert words[1..][i] == words[i + 1];
    }
  }

  lemma InRest(words: seq<Range>, at: nat)
    requires words != [] && words[0].end <= at && InSomeWord(words, at)
    ensures InSomeWord(words[1..], at)
  {
    var i :| 0 <= i < |words| && words[i].start <= at < words[i].end;
    assert words[1..][i - 1] == words[i];
  }

  lemma LetterPastFirst(cs: seq<Character>, offset: nat, words: seq<Range>, at: nat)
    requires IsWordList(cs, offset, words) && words != [] && Reaches(cs, offset, words[0].end)
    requires at < |cs| && Reaches(cs, words[0].end, at) && cs[at].kind == Letter
    ensures InSomeWord(words[1..], at)
  {
    ReachesForward(cs, words[0].end, at);
    ReachesTransitive(cs, offset, words[0].end, at);
    InRest(words, at);
  }

  lemma PastFirst(cs: seq<Character>, offset: nat, words: seq<Range>)
    requires IsWordList(cs, offset, words) && words != [] && words[0].start == offset
    ensures IsWordList(cs, words[0].end, words[1..])
  {
    var end, rest := words[0].end, words[1..];
    assert IsWord(cs, words[0]);
    forall i | 0 <= i < |rest| ensures Reaches(cs, end, rest[i].start) && IsWord(cs, rest[i]) {
      assert rest[i] == words[i + 1];
      ReachesBetween(cs, offset, end, words[i + 1].start);
    }
    forall at: nat | at < |cs| && Reaches(cs, end, at) && cs[at].kind == Letter ensures InSomeWord(rest, at) {
      LetterPastFirst(cs, offset, words, at);
    }
    RiseAfterFirst(words, offset, |cs|);
  }

  /** There is no other such list: the conditions determine the words. */
  lemma {:induction false} WordsDetermined(cs: seq<Character>, offset: nat, words: seq<Range>)
    requires offset <= |cs| && IsWordList(cs, offset, words)
    ensures words == Words(cs, offset)
    decreases |cs| - offset
  {
    if offset == |cs| {
      RiseNeedsRoom(words, offset, |cs|);
    } else if cs[offset].kind != Letter {
      PastSeparator(cs, offset, words);
      WordsDetermined(cs, After(cs, offset), words);
    } else {
      FirstIsHere(cs, offset, words);
      PastFirst(cs, offset, words);
      WordsDetermined(cs, words[0].end, words[1..]);
      FirstAndRest(cs, offset, words);
    }
  }

  lemma {:induction false} FirstAndRest(cs: seq<Character>, offset: nat, words: seq<Range>)
    requires offset < |cs| && cs[offset].kind == Letter && words != []
    requires words[0] == Range(offset, WordEnd(cs, After(cs, offset), false)) && words[1..] == Words(cs, words[0].end)
    ensures words == Words(cs, offset)
  {
    assert words == [words[0]] + words[1..];
  }

  // Cutting out some words -----------------------------------------------------------------

  /** Characters that end inside the cut read the same there. */
  ghost predicate Agrees(cs: seq<Character>, cut: seq<Character>, from: nat) {
    && from + |cut| <= |cs|
    && forall o: nat {:trigger cs[o]} | from <= o < from + |cut| && After(cs, o) <= from + |cut| ::
         cut[o - from].kind == cs[o].kind && After(cut, o - from) == After(cs, o) - from
  }

  lemma {:induction false} SameWordEnd(cs: seq<Character>, cut: seq<Character>, offset: nat, plusSeen: bool, from: nat)
    requires Agrees(cs, cut, from) && from <= offset <= from + |cut|
    requires var end := WordEnd(cs, offset, plusSeen);
      end == from + |cut| || (end < |cs| && After(cs, end) <= from + |cut|)
    ensures WordEnd(cut, offset - from, plusSeen) == WordEnd(cs, offset, plusSeen) - from
    decreases |cs| - offset
  {
    if WordEnd(cs, offset, plusSeen) == offset {
    } else {
      var seen := plusSeen || cs[offset].kind == PlusSign;
      SameWordEnd(cs, cut, After(cs, offset), seen, from);
      assert WordEnd(cut, offset - from, plusSeen) == WordEnd(cut, After(cut, offset - from), seen);
    }
  }

  lemma FirstWord(cs: seq<Character>, offset: nat)
    requires offset < |cs| && cs[offset].kind == Letter
    ensures var end := WordEnd(cs, After(cs, offset), false);
      && offset < end <= |cs| && Words(cs, offset) == [Range(offset, end)] + Words(cs, end)
      && Words(cs, offset)[1..] == Words(cs, end)
  {
  }

  /** The range counted from `back`, which comes before it. */
  function ShiftedRange(w: Range, back: nat): Range {
    if back <= w.start && back <= w.end then Range(w.start - back, w.end - back) else w
  }

  function Shifted(words: seq<Range>, back: nat): seq<Range> {
    seq(|words|, i requires 0 <= i < |words| => ShiftedRange(words[i], back))
  }

  /** A character that is no letter ends where the next word begins, or before. */
  lemma SeparatorBeforeWord(cs: seq<Character>, offset: nat)
    requires offset < |cs| && cs[offset].kind != Letter && Words(cs, offset) != []
    ensures After(cs, offset) <= Words(cs, offset)[0].start
  {
    WordsAreDisjoint(cs, After(cs, offset));
  }

  lemma {:induction false} StopsAtSeparator(cs: seq<Character>, offset: nat, plusSeen: bool)
    requires WordEnd(cs, offset, plusSeen) < |cs|
    ensures cs[WordEnd(cs, offset, plusSeen)].kind != Letter
    decreases |cs| - offset
  {
    if WordEnd(cs, offset, plusSeen) == offset {
    } else {
      StopsAtSeparator(cs, After(cs, offset), plusSeen || cs[offset].kind == PlusSign);
    }
  }

  /** A word is kept whole by a cut that ends with it or with a later word. */
  lemma CutKeepsWord(cs: seq<Character>, cut: seq<Character>, offset: nat, from: nat, end: nat)
    requires Agrees(cs, cut, from) && from <= offset < |cs| && cs[offset].kind == Letter
    requires end == WordEnd(cs, After(cs, offset), false)
    requires end == from + |cut| || (end < |cs| && Words(cs, end) != [] && Words(cs, end)[0].start <= from + |cut|)
    ensures from <= end <= from + |cut|
    ensures Words(cut, offset - from) == [Range(offset - from, end - from)] + Words(cut, end - from)
  {
    if end != from + |cut| {
      StopsAtSeparator(cs, After(cs, offset), false);
      SeparatorBeforeWord(cs, end);
    }
    SameWordEnd(cs, cut, After(cs, offset), false, from);
    FirstWord(cut, offset - from);
  }

  lemma CutKeepsSeparator(cs: seq<Character>, cut: seq<Character>, offset: nat, from: nat)
    requires Agrees(cs, cut, from) && from <= offset < |cs| && cs[offset].kind != Letter
    requires Words(cs, offset) != [] && Words(cs, offset)[0].start <= from + |cut|
    ensures from <= After(cs, offset) <= from + |cut| && Words(cs, offset) == Words(cs, After(cs, offset))
    ensures Words(cut, offset - from) == Words(cut, After(cs, offset) - from)
  {
    SeparatorBeforeWord(cs, offset);
  }

  lemma ShiftedCons(first: Range, later: seq<Range>, n: nat, from: nat)
    requires 0 < n <= |later| + 1
    ensures Shifted(([first] + later)[..n], from) == [ShiftedRange(first, from)] + Shifted(later[..n - 1], from)
  {
    assert ([first] + later)[..n] == [first] + later[..n - 1];
  }

  lemma LaterWord(first: Range, later: seq<Range>, n: nat, from: nat, to: nat)
    requires 1 < n <= |later| + 1 && WordsRise([first] + later, from, to)
    ensures ([first] + later)[n - 1] == later[n - 2] && later[0].start <= later[n - 2].end
  {
    assert ([first] + later)[1] == later[0] && ([first] + later)[n - 1] == later[n - 2];
  }

  /** Cut after the `n`-th word, the input has just the first `n` words. */
  lemma {:induction false} CutAfterWord(cs: seq<Character>, cut: seq<Character>, offset: nat, n: nat, from: nat)
    requires Agrees(cs, cut, from) && from <= offset
    requires 0 < n <= |Words(cs, offset)| && from + |cut| == Words(cs, offset)[n - 1].end
    ensures Words(cut, offset - from) == Shifted(Words(cs, offset)[..n], from)
    decreases |cs| - offset
  {
    if cs[offset].kind != Letter {
      FirstBeforeLast(cs, offset, n);
      CutKeepsSeparator(cs, cut, offset, from);
      CutAfterWord(cs, cut, After(cs, offset), n, from);
    } else {
      var end := WordEnd(cs, After(cs, offset), false);
      CutFromWord(cs, cut, offset, n, from);
      if n > 1 {
        CutAfterWord(cs, cut, end, n - 1, from);
      } else {
        assert Words(cut, end - from) == [] == Shifted(Words(cs, end)[..0], from);
      }
      JoinShifted(cs, offset, n, from, Words(cut, end - from));
    }
  }

  lemma JoinShifted(cs: seq<Character>, offset: nat, n: nat, from: nat, rest: seq<Range>)
    requires from <= offset < |cs| && cs[offset].kind == Letter && 0 < n <= |Words(cs, offset)|
    requires n - 1 <= |Words(cs, WordEnd(cs, After(cs, offset), false))|
    requires rest == Shifted(Words(cs, WordEnd(cs, After(cs, offset), false))[..n - 1], from)
    ensures var end := WordEnd(cs, After(cs, offset), false);
      from <= end && Shifted(Words(cs, offset)[..n], from) == [Range(offset - from, end - from)] + rest
  {
    var end := WordEnd(cs, After(cs, offset), false);
    FirstWord(cs, offset);
    ShiftedCons(Range(offset, end), Words(cs, end), n, from);
  }

  lemma FirstBeforeLast(cs: seq<Character>, offset: nat, n: nat)
    requires 0 < n <= |Words(cs, offset)|
    ensures offset < |cs| && Words(cs, offset)[0].start <= Words(cs, offset)[n - 1].end
  {
    WordsAreDisjoint(cs, offset);
  }

  lemma CutFromWord(cs: seq<Character>, cut: seq<Character>, offset: nat, n: nat, from: nat)
    requires Agrees(cs, cut, from) && from <= offset < |cs| && cs[offset].kind == Letter
    requires 0 < n <= |Words(cs, offset)| && from + |cut| == Words(cs, offset)[n - 1].end
    ensures var end := WordEnd(cs, After(cs, offset), false);
      && from <= end <= from + |cut| && (n == 1 ==> end == from + |cut|)
      && (n > 1 ==> n - 1 <= |Words(cs, end)| && Words(cs, end)[n - 2].end == from + |cut|)
      && Words(cut, offset - from) == [Range(offset - from, end - from)] + Words(cut, end - from)
  {
    var end := WordEnd(cs, After(cs, offset), false);
    FirstWord(cs, offset);
    if n > 1 {
      WordsAreDisjoint(cs, offset);
      LaterWord(Range(offset, end), Words(cs, end), n, offset, |cs|);
    }
    CutKeepsWord(cs, cut, offset, from, end);
  }

  /** Scanning from the `a`-th word on gives the words from there on. */
  lemma {:induction false} WordsFrom(cs: seq<Character>, offset: nat, a: nat)
    requires a < |Words(cs, offset)|
    ensures offset <= Words(cs, offset)[a].start < |cs|
    ensures Words(cs, Words(cs, offset)[a].start) == Words(cs, offset)[a..]
    decreases |cs| - offset
  {
    if cs[offset].kind != Letter {
      WordsFrom(cs, After(cs, offset), a);
    } else {
      FirstWord(cs, offset);
      if a > 0 {
        var end := WordEnd(cs, After(cs, offset), false);
        WordsFrom(cs, end, a - 1);
        assert Words(cs, offset)[a..] == Words(cs, end)[a - 1..];
      }
    }
  }

  /** Decoding looks no further than the character itself: a cut that keeps the character keeps its reading. */
  ghost predicate Local(decode: Decoder) {
    forall input: Bytes, o: nat, from: nat, to: nat {:trigger decode(input, o), input[from..to]} |
      from <= o && to <= |input| && o + decode(input, o).1 <= to ::
        decode(input[from..to], o - from) == decode(input, o)
  }

  /** Widths are positive and inside the input. */
  ghost predicate Proper(decode: Decoder) {
    forall input: Bytes, o: nat {:trigger decode(input, o)} | o < |input| :: 1 <= decode(input, o).1 <= |input| - o
  }

  lemma CutAgrees(decode: Decoder, input: Bytes, from: nat, to: nat)
    requires Local(decode) && Proper(decode) && from <= to <= |input|
    ensures Agrees(Reading(decode, input), Reading(decode, input[from..to]), from)
  {
    var cs, cut := Reading(decode, input), Reading(decode, input[from..to]);
    forall o: nat | from <= o < to && After(cs, o) <= to
      ensures cut[o - from].kind == cs[o].kind && After(cut, o - from) == After(cs, o) - from
    {
      assert input[from..to][o - from] == input[o];
      if input[o] >= 0x80 {
        assert 1 <= decode(input, o).1 <= |input| - o;
        assert decode(input[from..to], o - from) == decode(input, o);
      }
    }
  }

  /** Cut from the start of one word to the end of another, the input has just the words between. */
  lemma CutWords(decode: Decoder, input: Bytes, a: nat, b: nat)
    requires Local(decode) && Proper(decode) && a < b <= |Words(Reading(decode, input), 0)|
    ensures var words := Words(Reading(decode, input), 0);
      var from, to := words[a].start, words[b - 1].end;
      from <= to <= |input| && Words(Reading(decode, input[from..to]), 0) == Shifted(words[a..b], from)
  {
    var cs := Reading(decode, input);
    var words := Words(cs, 0);
    WordsAreDisjoint(cs, 0);
    WordsFrom(cs, 0, a);
    var from, to := words[a].start, words[b - 1].end;
    assert words[a..][b - a - 1] == words[b - 1] && words[a..][..b - a] == words[a..b];
    assert words[a].start <= words[b - 1].start;
    CutAgrees(decode, input, from, to);
    CutAfterWord(cs, Reading(decode, input[from..to]), from, b - a, from);
  }
}
