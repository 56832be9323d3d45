/** Saving an automaton and loading it again, although its links are never stored. */
module CorpusRoundTrip {
  import opened Options
  import opened Packed
  import opened Varint
  import opened Patterns
  import opened Suffixes
  import opened Tries
  import opened TrieRows
  import opened Renumber
  import opened Automata
  import opened EdgeCounts
  import opened EdgeTokens
  import opened TerminalCodec
  import opened CorpusFormat
  import opened CorpusReader
  import opened LinkWorkers
  import opened StoredSearch
  import Bits
  import LinkCells
  import Sparse

  /** An automaton the reader's limits admit. */
  ghost predicate WithinLimits(a: Automaton, maxToken: nat)
    reads a
  {
    && |a.shape.spell| <= MAX_NODE_COUNT && maxToken <= MAX_TOKEN32
    && forall e | 0 <= e < |a.Tokens()| :: a.Tokens()[e] <= maxToken
  }

  lemma TokensRise(a: Automaton, maxToken: nat)
    requires a.Valid() && WithinLimits(a, maxToken)
    ensures RisingTokens(a.Starts(), a.Tokens(), |a.shape.spell|, maxToken)
  {
    var starts, tokens := a.Starts(), a.Tokens();
    forall v: nat, e: nat | Owns(starts, v, e) && starts[v] < e < |tokens| ensures tokens[e - 1] < tokens[e] {
      TokensSorted(Implicit(starts, tokens), a.shape, v, e - 1, e);
    }
  }

  lemma HeadsWritable(a: Automaton)
    requires a.Valid() && |a.shape.spell| < LIMIT32
    ensures WritablePairs(TerminalsFrom(Sparse.Zip(a.links, a.heads), 0), 0, |a.shape.spell|)
  {
    var dense := Sparse.Zip(a.links, a.heads);
    var pairs := TerminalsFrom(dense, 0);
    TerminalsRise(dense, 0);
    forall i | 0 <= i < |pairs| ensures pairs[i].head < LIMIT32 {
      TerminalsAreHeads(dense, 0, i);
      assert Chain(a.outputNext, a.heads[pairs[i].node]) == ValuesOf(a.patterns, a.shape.spell[pairs[i].node]);
    }
  }

  lemma ValidIsStorable(a: Automaton, maxToken: nat)
    requires a.Valid() && WithinLimits(a, maxToken)
    ensures Storable(StoredForm(a), maxToken)
  {
    TokensRise(a, maxToken);
    HeadsWritable(a);
    PartsAreStorable(StoredForm(a), |a.shape.spell|, maxToken);
  }

  lemma PartsAreStorable(s: Stored, n: nat, maxToken: nat)
    requires RisingTokens(s.starts, s.tokens, n, maxToken) && n <= MAX_NODE_COUNT
    requires WritablePairs(s.terminals, 0, n) && Descends(s.next)
    ensures Storable(s, maxToken)
  {
  }

  lemma {:induction false} TerminalsAreHeads(dense: seq<Sparse.Entry>, k: nat, i: nat)
    requires i < |TerminalsFrom(dense, k)|
    ensures var t := TerminalsFrom(dense, k)[i]; t.node < |dense| && t.head == dense[t.node].head
    decreases |dense| - k
  {
    TerminalsUnfold(dense, k);
    if dense[k].head == NONE {
      TerminalsAreHeads(dense, k + 1, i);
    } else if i > 0 {
      TerminalsAreHeads(dense, k + 1, i - 1);
    }
  }

  /** What is stored describes the automaton's own trie and heads. */
  lemma StoredFormIsTrie(a: Automaton)
    requires a.Valid()
    ensures IsTrie(StoredForm(a), a.patterns, a.shape) && StoredHeads(StoredForm(a)) == a.heads
  {
    var dense := Sparse.Zip(a.links, a.heads);
    forall j: nat | j < |a.heads| ensures HeadAt(TerminalsFrom(dense, 0), j) == a.heads[j] {
      TableOfTerminals(dense, 0, j);
    }
    assert StoredHeads(StoredForm(a)) == a.heads;
  }

  /** Its chains end and stay in range. */
  lemma ChainsAreOk(s: Stored, ps: seq<Pattern>, sh: Shape)
    requires IsTrie(s, ps, sh)
    ensures ChainsOk(s)
  {
    TrieChainsEnd(ps, sh, StoredHeads(s), s.next);
  }

  lemma RootTokenFits(s: Stored, ps: seq<Pattern>, sh: Shape)
    requires IsTrie(s, ps, sh)
    ensures |s.starts| >= 2 && (0 < s.starts[1] <= |s.tokens| ==> s.tokens[s.starts[1] - 1] < NONE)
  {
  }

  function TangledForm(): Stored {
    Stored([0, 1, 1, 2], [], [5, 5], [])
  }

  lemma TangledIsStorable(s: Stored)
    requires s == TangledForm()
    ensures Storable(s, MAX_TOKEN16) && StoredHeads(s) == [NONE, NONE, NONE] && ChainsOk(s)
  {
    assert Grouped(s.starts, 3);
  }

  /** Some accepted stream holds arrays that are no trie. */
  lemma TangledAccepted() returns (stream: seq<byte>)
    ensures Accepted(stream, 0, MAX_TOKEN16)
    ensures var s := DecodeStored(stream, 0, MAX_TOKEN16).value;
      LinkCells.Arrays(s.starts, s.tokens, StoredHeads(s)) == Tangled()
  {
    var s := TangledForm();
    TangledIsStorable(s);
    TangledBits(s.starts);
    stream := TangledStream(s, [9]);
  }

  lemma TangledStream(s: Stored, edgeBits: seq<byte>) returns (stream: seq<byte>)
    requires Storable(s, MAX_TOKEN16) && |s.starts| >= 2 && Encodes(edgeBits, LevelBits(s.starts, 0, 0))
    ensures DecodeStored(stream, |s.next|, MAX_TOKEN16) == Got(s, [])
  {
    stream := Sections(|s.starts| - 1, edgeBits, TerminalBytes(s.terminals), TokenPart(s.starts, s.tokens),
                       OptionalBytes(s.next));
    assert stream + [] == stream;
    StoredRoundTrip(s, edgeBits, stream, [], MAX_TOKEN16);
  }

  lemma TangledBit(k: nat)
    requires k < 8
    ensures Bits.Bit(9, k) <==> k == 0 || k == 3
  {
    if k >= 4 {
      Bits.ZeroHasNoBits(k - 4);
      assert Bits.Bit(9, k) == Bits.Bit(4, k - 1) == Bits.Bit(2, k - 2) == Bits.Bit(1, k - 3) == Bits.Bit(0, k - 4);
    } else {
      assert Bits.Bit(9, 1) == Bits.Bit(4, 0) && Bits.Bit(9, 2) == Bits.Bit(4, 1) == Bits.Bit(2, 0);
      assert Bits.Bit(9, 3) == Bits.Bit(4, 2) == Bits.Bit(2, 1) == Bits.Bit(1, 0);
    }
  }

  lemma TangledBits(starts: seq<nat>)
    requires starts == [0, 1, 1, 2]
    ensures Encodes([9], LevelBits(starts, 0, 0))
  {
    assert LevelBits(starts, 3, 2) == [];
    assert LevelBits(starts, 2, 2) == [false];
    assert LevelBits(starts, 2, 1) == [true, false];
    assert LevelBits(starts, 1, 1) == [false, true, false];
    assert LevelBits(starts, 0, 1) == [false, false, true, false];
    var bits := [true, false, false, true, false];
    assert LevelBits(starts, 0, 0) == bits;
    forall k: nat ensures BitAt([9], k) <==> k < |bits| && bits[k] {
      if k < 8 { TangledBit(k); }
    }
  }

  /** A written automaton is read back as the trie it was. */
  lemma WrittenIsAccepted(a: Automaton, bytes: seq<byte>, rest: seq<byte>, maxToken: nat)
    requires a.Valid() && WithinLimits(a, maxToken) && EncodesStored(bytes, StoredForm(a))
    ensures DecodeStored(bytes + rest, |a.outputNext|, maxToken) == Got(StoredForm(a), rest)
    ensures Accepted(bytes + rest, |a.outputNext|, maxToken) && RootFits(bytes + rest, |a.outputNext|, maxToken)
    ensures IsTrie(StoredForm(a), a.patterns, a.shape) && StoredHeads(StoredForm(a)) == a.heads
  {
    ValidIsStorable(a, maxToken);
    StoredFormIsTrie(a);
    ChainsAreOk(StoredForm(a), a.patterns, a.shape);
    RootTokenFits(StoredForm(a), a.patterns, a.shape);
    var edgeBits :| EncodedAs(bytes, StoredForm(a), edgeBits);
    StoredRoundTrip(StoredForm(a), edgeBits, bytes, rest, maxToken);
  }

  /** Two automata over one trie with one set of heads carry the same links. */
  lemma SameLinks(a: Automaton, b: Automaton)
    requires a.Valid() && b.Valid() && a.shape == b.shape && a.heads == b.heads
    ensures a.Failures() == b.Failures() && a.links == b.links
    ensures forall v: nat | v < |a.shape.spell| :: Sparse.Get(a.outputs, v) == Sparse.Get(b.outputs, v)
  {
    LinksUnique(Implicit(a.Starts(), a.Tokens()), a.shape, a.heads, a.Failures(), a.links, b.Failures(), b.links);
  }

  ghost predicate IsNext(a: Automaton, state: nat, token: nat, next: nat)
    reads a
  {
    && state < |a.shape.spell| && next < |a.shape.spell|
    && LongestIn(Words(a.shape), a.shape.spell[state] + [token]) == Some(a.shape.spell[next])
  }

  /** They also take the same steps. */
  lemma SameNext(a: Automaton, b: Automaton, state: nat, token: nat, x: nat, y: nat)
    requires a.Valid() && b.Valid() && a.shape == b.shape && IsNext(a, state, token, x) && IsNext(b, state, token, y)
    ensures x == y
  {
    SpellsDistinct(Implicit(a.Starts(), a.Tokens()), a.shape, x, y);
  }

  /** Loading what was saved restores every array; the rest of the stream is left. */
  method SaveAndLoad(a: Automaton, following: seq<byte>, gomaxprocs: nat) returns (b: Automaton, rest: seq<byte>)
    requires a.Valid() && WithinLimits(a, MAX_TOKEN32) && gomaxprocs > 0
    ensures rest == following && fresh(b) && b.Valid()
    ensures b.patterns == a.patterns && b.shape == a.shape
    ensures b.edgeStarts == a.Starts() && b.edgeTokens == a.Tokens() && b.outputNext == a.outputNext
    ensures b.failures == a.Failures() && b.links == a.links && b.heads == a.heads
    ensures forall v: nat | v < |a.shape.spell| :: Sparse.Get(b.outputs, v) == Sparse.Get(a.outputs, v)
  {
    var bytes := WriteAutomaton(a);
    WrittenIsAccepted(a, bytes, following, MAX_TOKEN32);
    var read := ReadDense(bytes + following, |a.outputNext|, gomaxprocs, a.patterns, a.shape);
    b, rest := read.value, read.rest;
    SameLinks(a, b);
  }

  /** Loading into packed arrays restores the same node numbers, tokens and links. */
  method SaveAndLoadCompact(a: Automaton, following: seq<byte>, gomaxprocs: nat) returns (b: Automaton, rest: seq<byte>)
    requires a.Valid() && WithinLimits(a, MAX_TOKEN16) && gomaxprocs > 0
    ensures rest == following && fresh(b) && b.Valid()
    ensures b.patterns == a.patterns && b.shape == a.shape
    ensures Values(b.packedStarts) == a.Starts() && b.edgeTokens16 == a.Tokens() && b.outputNext == a.outputNext
    ensures b.Failures() == a.Failures() && b.links == a.links && b.heads == a.heads
    ensures forall v: nat | v < |a.shape.spell| :: Sparse.Get(b.outputs, v) == Sparse.Get(a.outputs, v)
  {
    var bytes := WriteAutomaton(a);
    WrittenIsAccepted(a, bytes, following, MAX_TOKEN16);
    var read := ReadCompact(bytes + following, |a.outputNext|, gomaxprocs, a.patterns, a.shape);
    b, rest := read.value, read.rest;
    SameLinks(a, b);
  }
}
