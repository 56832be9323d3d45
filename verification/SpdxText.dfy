/** SPDX-License-Identifier tags in a text: anchors, tag ends and the expression after the colon. */
module SpdxText {
  import Packed

  type Bytes = seq<Packed.byte>

  const TAG: string := "spdx-license-identifier"
  /** A common misspelling that counts as well. */
  const MISSPELT: string := "spdx-license-identifer"

  function Lower(c: Packed.byte): nat {
    if 'A' as int <= c <= 'Z' as int then c + 32 else c
  }

  predicate Matches(input: Bytes, at: nat, lower: string) {
    at + |lower| <= |input| && forall i | 0 <= i < |lower| :: Lower(input[at + i]) == lower[i] as int
  }

  /** The letters SPDX, in either case, begin here. */
  predicate AnchorAt(input: Bytes, at: nat) {
    && at + 4 <= |input|
    && Lower(input[at]) == 's' as int && Lower(input[at + 1]) == 'p' as int
    && Lower(input[at + 2]) == 'd' as int && Lower(input[at + 3]) == 'x' as int
  }

  predicate TagWith(input: Bytes, at: nat, tag: string) {
    at + |tag| < |input| && Matches(input, at, tag) && input[at + |tag|] == ':' as int
  }

  /** The offset after a tag's colon, or -1 where no tag begins. */
  function TagEnd(input: Bytes, at: nat): (end: int)
    ensures end == -1 || at < end <= |input|
  {
    if TagWith(input, at, TAG) then at + |TAG| + 1
    else if TagWith(input, at, MISSPELT) then at + |MISSPELT| + 1
    else -1
  }

  /** Every tag begins at an anchor. */
  lemma TagIsAnchor(input: Bytes, at: nat)
    requires TagEnd(input, at) >= 0
    ensures AnchorAt(input, at)
  {
    var tag := if TagWith(input, at, TAG) then TAG else MISSPELT;
    assert TagWith(input, at, tag);
    assert Lower(input[at + 0]) == tag[0] as int && Lower(input[at + 1]) == tag[1] as int;
    assert Lower(input[at + 2]) == tag[2] as int && Lower(input[at + 3]) == tag[3] as int;
  }

  ghost predicate NoAnchor(input: Bytes, from: nat, to: nat) {
    forall at: nat {:trigger AnchorAt(input, at)} | from <= at < to :: !AnchorAt(input, at)
  }

  /** The first anchor at or after `from`, or -1. */
  method IndexSPDXAnchor(input: Bytes, from: nat) returns (anchor: int)
    ensures anchor == -1 || from <= anchor
    ensures anchor == -1 ==> NoAnchor(input, from, |input|)
    ensures anchor >= 0 ==> AnchorAt(input, anchor) && NoAnchor(input, from, anchor)
  {
    var offset := from;
    while offset + 4 <= |input|
      invariant from <= offset && NoAnchor(input, from, offset)
      decreases |input| - offset
    {
      var candidate := IndexLetterS(input, offset);
      if candidate == |input| {
        return -1;
      }
      if AnchorAt(input, candidate) {
        return candidate;
      }
      offset := candidate + 1;
    }
    return -1;
  }

  /** The first `s` or `S` at or after `from`, or the input's length. */
  method IndexLetterS(input: Bytes, from: nat) returns (at: nat)
    requires from <= |input|
    ensures from <= at <= |input| && (at < |input| ==> Lower(input[at]) == 's' as int)
    ensures NoAnchor(input, from, at)
  {
    at := from;
    while at < |input| && Lower(input[at]) != 's' as int
      invariant from <= at <= |input| && NoAnchor(input, from, at)
    {
      at := at + 1;
    }
  }

  ghost predicate NoTag(input: Bytes, from: nat, to: nat) {
    forall at: nat {:trigger TagEnd(input, at)} | from <= at < to :: TagEnd(input, at) < 0
  }

  lemma NoAnchorNoTag(input: Bytes, from: nat, to: nat)
    requires NoAnchor(input, from, to)
    ensures NoTag(input, from, to)
  {
    forall at: nat | from <= at < to ensures TagEnd(input, at) < 0 {
      if TagEnd(input, at) >= 0 { TagIsAnchor(input, at); }
    }
  }

  /** The first tag at or after `from`, or the input's length. */
  method NextSPDXTag(input: Bytes, from: nat) returns (at: nat)
    requires from <= |input|
    ensures from <= at <= |input| && NoTag(input, from, at)
    ensures at < |input| ==> TagEnd(input, at) >= 0
  {
    var anchor := IndexSPDXAnchor(input, from);
    NoAnchorNoTag(input, from, if anchor >= 0 then anchor else |input|);
    while anchor >= 0
      invariant anchor == -1 || from <= anchor < |input|
      invariant NoTag(input, from, if anchor >= 0 then anchor else |input|)
      decreases if anchor >= 0 then |input| - anchor else 0
    {
      if TagEnd(input, anchor) >= 0 {
        return anchor;
      }
      var next := IndexSPDXAnchor(input, anchor + 1);
      NoAnchorNoTag(input, anchor + 1, if next >= 0 then next else |input|);
      anchor := next;
    }
    at := |input|;
  }

  // The expression after a tag --------------------------------------------------------------

  /** A line end or a closing comment marker begins here. */
  predicate EndsExpression(input: Bytes, at: nat) {
    && at < |input|
    && (|| input[at] == '\n' as int || input[at] == '\r' as int
        || (input[at] == '*' as int && at + 1 < |input| && input[at + 1] == '/' as int)
        || (input[at] == '-' as int && at + 2 < |input| && input[at + 1] == '-' as int && input[at + 2] == '>' as int))
  }

  predicate Blank(input: Bytes, at: nat) {
    at < |input| && (input[at] == ' ' as int || input[at] == '\t' as int)
  }

  ghost predicate AllBlank(input: Bytes, from: nat, to: nat) {
    forall at: nat {:trigger Blank(input, at)} | from <= at < to :: Blank(input, at)
  }

  /** Scanning from `from` stops at `stop`: at the first marker, or at the limit where nothing ended the expression. */
  ghost predicate StopsAt(input: Bytes, from: nat, limit: nat, stop: nat, complete: bool) {
    && from <= stop <= limit <= |input|
    && (forall at: nat {:trigger EndsExpression(input, at)} | from <= at < stop :: !EndsExpression(input, at))
    && (EndsExpression(input, stop) || stop == limit)
    && (complete <==> EndsExpression(input, stop) || limit == |input|)
  }

  /** Blanks are trimmed from both ends, and nothing else. */
  ghost predicate Trimmed(input: Bytes, from: nat, stop: nat, start: nat, end: nat) {
    && from <= start <= end <= stop && AllBlank(input, from, start) && AllBlank(input, end, stop)
    && if start < end then !Blank(input, start) && !Blank(input, end - 1) else end == stop
  }

  ghost predicate SpanOf(input: Bytes, from: nat, maxBytes: nat, start: nat, end: nat, complete: bool) {
    var limit := if |input| < from + maxBytes then |input| else from + maxBytes;
    exists stop: nat :: StopsAt(input, from, limit, stop, complete) && Trimmed(input, from, stop, start, end)
  }

  method FindStop(input: Bytes, from: nat, limit: nat) returns (stop: nat, complete: bool)
    requires from <= limit <= |input|
    ensures StopsAt(input, from, limit, stop, complete)
  {
    var offset := from;
    while offset <= limit && offset < |input|
      invariant from <= offset <= limit + 1 && offset <= |input|
      invariant forall at: nat {:trigger EndsExpression(input, at)} | from <= at < offset :: !EndsExpression(input, at)
    {
      if EndsExpression(input, offset) {
        return offset, true;
      }
      offset := offset + 1;
    }
    return limit, limit == |input|;
  }

  method Trim(input: Bytes, from: nat, stop: nat) returns (start: nat, end: nat)
    requires from <= stop <= |input|
    ensures Trimmed(input, from, stop, start, end)
  {
    start, end := from, stop;
    while start < end && Blank(input, start)
      invariant from <= start <= end && AllBlank(input, from, start)
    {
      start := start + 1;
    }
    while end > start && Blank(input, end - 1)
      invariant start <= end <= stop && AllBlank(input, end, stop)
      invariant if start < end then !Blank(input, start) else end == stop
    {
      end := end - 1;
    }
  }

  /** The trimmed expression within a number of bytes, and whether it ended there. */
  method ExpressionSpanWithin(input: Bytes, from: nat, maxBytes: nat) returns (start: nat, end: nat, complete: bool)
    requires from <= |input|
    ensures SpanOf(input, from, maxBytes, start, end, complete)
    ensures from <= start <= end <= |input|
  {
    var limit := if |input| < from + maxBytes then |input| else from + maxBytes;
    var stop;
    stop, complete := FindStop(input, from, limit);
    start, end := Trim(input, from, stop);
  }

  lemma StopOnce(input: Bytes, from: nat, limit: nat, s: nat, t: nat, whole: bool, complete: bool)
    requires StopsAt(input, from, limit, s, whole) && StopsAt(input, from, limit, t, complete)
    ensures s == t && whole == complete
  {
    assert s < t ==> !EndsExpression(input, s);
    assert t < s ==> !EndsExpression(input, t);
  }

  lemma TrimOnce(input: Bytes, from: nat, stop: nat, start: nat, end: nat, first: nat, last: nat)
    requires Trimmed(input, from, stop, start, end) && Trimmed(input, from, stop, first, last)
    ensures start == first && end == last
  {
    assert start < first ==> Blank(input, start);
    assert first < start ==> Blank(input, first);
  }

  /** The text determines the expression and whether it was cut off. */
  lemma SpanOnce(input: Bytes, from: nat, maxBytes: nat, start: nat, end: nat, whole: bool, first: nat, last: nat,
                 complete: bool)
    requires SpanOf(input, from, maxBytes, start, end, whole) && SpanOf(input, from, maxBytes, first, last, complete)
    ensures start == first && end == last && whole == complete
  {
    var limit := if |input| < from + maxBytes then |input| else from + maxBytes;
    var s: nat :| StopsAt(input, from, limit, s, whole) && Trimmed(input, from, s, start, end);
    var t: nat :| StopsAt(input, from, limit, t, complete) && Trimmed(input, from, t, first, last);
    StopOnce(input, from, limit, s, t, whole, complete);
    TrimOnce(input, from, s, start, end, first, last);
  }

  // By spelling -----------------------------------------------------------------------------

  /** The byte is the character, or its capital if it is a small letter. */
  ghost predicate EitherCase(b: Packed.byte, c: char) {
    b == c as int || ('a' <= c <= 'z' && b + 32 == c as int)
  }

  ghost predicate Spelled(input: Bytes, at: nat, text: string) {
    at + |text| <= |input| && forall i | 0 <= i < |text| :: EitherCase(input[at + i], text[i])
  }

  ghost predicate NoCapitals(text: string) {
    forall i | 0 <= i < |text| :: !('A' <= text[i] <= 'Z')
  }

  lemma MatchesIsSpelled(input: Bytes, at: nat, text: string)
    requires NoCapitals(text)
    ensures Matches(input, at, text) <==> Spelled(input, at, text)
  {
    if at + |text| <= |input| {
      forall i | 0 <= i < |text|
        ensures Lower(input[at + i]) == text[i] as int <==> EitherCase(input[at + i], text[i])
      {
      }
    }
  }

  /** A tag is one of two words, in either case, with a colon behind it. */
  lemma TagsSpelled(input: Bytes, at: nat)
    ensures var right := Spelled(input, at, "spdx-license-identifier:");
      var wrong := Spelled(input, at, "spdx-license-identifer:");
      TagEnd(input, at) == if right then at + 24 else if wrong then at + 23 else -1
  {
    assert NoCapitals(TAG) && NoCapitals(MISSPELT);
    MatchesIsSpelled(input, at, TAG);
    MatchesIsSpelled(input, at, MISSPELT);
    ColonBehind(input, at, TAG);
    ColonBehind(input, at, MISSPELT);
    assert TAG + ":" == "spdx-license-identifier:" && MISSPELT + ":" == "spdx-license-identifer:";
  }

  lemma ColonBehind(input: Bytes, at: nat, tag: string)
    ensures Spelled(input, at, tag + ":") <==>
      Spelled(input, at, tag) && at + |tag| < |input| && input[at + |tag|] == ':' as int
  {
    var text := tag + ":";
    if Spelled(input, at, text) {
      assert EitherCase(input[at + |tag|], text[|tag|]);
      forall i | 0 <= i < |tag| ensures EitherCase(input[at + i], tag[i]) { assert text[i] == tag[i]; }
    }
  }

  lemma AnchorsSpelled(input: Bytes, at: nat)
    ensures AnchorAt(input, at) <==> Spelled(input, at, "spdx")
  {
    var text := "spdx";
    if Spelled(input, at, text) {
      assert EitherCase(input[at + 0], text[0]) && EitherCase(input[at + 1], text[1]);
      assert EitherCase(input[at + 2], text[2]) && EitherCase(input[at + 3], text[3]);
    }
  }

  /** These characters stand here. */
  ghost predicate Stands(input: Bytes, at: nat, text: string) {
    at + |text| <= |input| && forall i | 0 <= i < |text| :: input[at + i] == text[i] as int
  }

  /** An expression ends at a line end or at the end of a comment; blanks are spaces and tabs. */
  lemma EndsSpelled(input: Bytes, at: nat)
    ensures EndsExpression(input, at) <==>
      Stands(input, at, "\n") || Stands(input, at, "\r") || Stands(input, at, "*/") || Stands(input, at, "-->")
    ensures Blank(input, at) <==> Stands(input, at, " ") || Stands(input, at, "\t")
  {
    StandsOne(input, at, "\n");
    StandsOne(input, at, "\r");
    StandsOne(input, at, " ");
    StandsOne(input, at, "\t");
    StandsTwo(input, at, "*/");
    StandsThree(input, at, "-->");
  }

  lemma StandsOne(input: Bytes, at: nat, text: string)
    requires |text| == 1
    ensures Stands(input, at, text) <==> at < |input| && input[at] == text[0] as int
  {
    if Stands(input, at, text) { assert input[at + 0] == text[0] as int; }
  }

  lemma StandsTwo(input: Bytes, at: nat, text: string)
    requires |text| == 2
    ensures Stands(input, at, text) <==>
      at + 1 < |input| && input[at] == text[0] as int && input[at + 1] == text[1] as int
  {
    if Stands(input, at, text) { assert input[at + 0] == text[0] as int && input[at + 1] == text[1] as int; }
  }

  lemma StandsThree(input: Bytes, at: nat, text: string)
    requires |text| == 3
    ensures Stands(input, at, text) <==>
      && at + 2 < |input| && input[at] == text[0] as int
      && input[at + 1] == text[1] as int && input[at + 2] == text[2] as int
  {
    if Stands(input, at, text) {
      assert input[at + 0] == text[0] as int && input[at + 1] == text[1] as int && input[at + 2] == text[2] as int;
    }
  }
}
