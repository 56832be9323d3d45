/** The stored automaton: everything but the links, which the reader derives again. */
module CorpusFormat {
  import opened Packed
  import opened Varint
  import opened Patterns
  import opened Tries
  import opened TrieRows
  import opened Renumber
  import opened Automata
  import opened EdgeCounts
  import opened EdgeTokens
  import opened TerminalCodec
  import OutputChains
  import Sparse

  const MAX_TOKEN16: nat := 0xFFFF
  const MAX_TOKEN32: nat := 0xFFFF_FFFF

  /** What the stream records of an automaton. */
  datatype Stored = Stored(starts: seq<nat>, terminals: seq<Terminal>, tokens: seq<nat>, next: seq<nat>)

  // The stream --------------------------------------------------------------------

  function TokenPart(starts: seq<nat>, tokens: seq<nat>): seq<byte> {
    var width := WidthFor(MaxDelta(starts, tokens, 0, 0));
    WriteUvarint(width) + TokenBytes(starts, tokens, 0, 0, width / 8)
  }

  /** The sections in order, `edgeBits` being the packed level-order string. */
  function Sections(nodeCount: nat, edgeBits: seq<byte>, terminals: seq<byte>, tokens: seq<byte>,
                    chains: seq<byte>): seq<byte> {
    WriteUvarint(nodeCount) + (edgeBits + (terminals + (tokens + chains)))
  }

  ghost predicate EncodedAs(bytes: seq<byte>, s: Stored, edgeBits: seq<byte>) {
    && |s.starts| >= 2 && Encodes(edgeBits, LevelBits(s.starts, 0, 0))
    && bytes == Sections(|s.starts| - 1, edgeBits, TerminalBytes(s.terminals), TokenPart(s.starts, s.tokens),
                         OptionalBytes(s.next))
  }

  function DecodeStored(stream: seq<byte>, valueCount: nat, maxToken: nat): Read<Stored> {
    match ReadCount(stream, MAX_NODE_COUNT)
    case Bad => Bad
    case Got(nodeCount, afterCount) => if nodeCount == 0 then Bad
      else DecodeTrie(afterCount, nodeCount, valueCount, maxToken)
  }

  function DecodeTrie(stream: seq<byte>, nodeCount: nat, valueCount: nat, maxToken: nat): Read<Stored>
    requires nodeCount > 0
  {
    match DecodeEdgeCounts(stream, nodeCount)
    case Bad => Bad
    case Got(starts, afterStarts) =>
      match DecodeTerminals(afterStarts, nodeCount)
      case Bad => Bad
      case Got(terminals, afterTerminals) =>
        if starts == [] then Bad
        else
          match DecodeEdgeTokens(afterTerminals, starts, maxToken)
          case Bad => Bad
          case Got(tokens, afterTokens) =>
            match OptionalsFrom(afterTokens, valueCount)
            case Bad => Bad
            case Got(next, rest) => Got(Stored(starts, terminals, tokens, next), rest)
  }

  ghost predicate Storable(s: Stored, maxToken: nat) {
    var n := |s.starts| - 1;
    && 1 <= n <= MAX_NODE_COUNT && RisingTokens(s.starts, s.tokens, n, maxToken)
    && WritablePairs(s.terminals, 0, n)
    && forall v | 0 <= v < |s.next| :: s.next[v] <= NONE
  }

  /** The sections after the node count are read back. */
  lemma TrieRoundTrip(s: Stored, edgeBits: seq<byte>, rest: seq<byte>, maxToken: nat)
    requires Storable(s, maxToken) && Encodes(edgeBits, LevelBits(s.starts, 0, 0))
    ensures DecodeTrie(edgeBits + (TerminalBytes(s.terminals)
                                   + (TokenPart(s.starts, s.tokens) + (OptionalBytes(s.next) + rest))),
                       |s.starts| - 1, |s.next|, maxToken) == Got(s, rest)
  {
    var n := |s.starts| - 1;
    var afterTokens := OptionalBytes(s.next) + rest;
    var afterTerminals := TokenPart(s.starts, s.tokens) + afterTokens;
    EdgeCountsRoundTrip(s.starts, n, edgeBits, TerminalBytes(s.terminals) + afterTerminals);
    TerminalsRoundTrip(s.terminals, n, afterTerminals);
    EdgeTokensRoundTrip(s.starts, s.tokens, n, maxToken, afterTokens);
    OptionalsRoundTrip(s.next, rest);
  }

  /** Whatever was written is read back, and the rest of the stream is left. */
  lemma StoredRoundTrip(s: Stored, edgeBits: seq<byte>, bytes: seq<byte>, rest: seq<byte>, maxToken: nat)
    requires EncodedAs(bytes, s, edgeBits) && Storable(s, maxToken)
    ensures DecodeStored(bytes + rest, |s.next|, maxToken) == Got(s, rest)
  {
    var n := |s.starts| - 1;
    var terminals, tokens, chains := TerminalBytes(s.terminals), TokenPart(s.starts, s.tokens), OptionalBytes(s.next);
    Flatten(WriteUvarint(n), edgeBits, terminals, tokens, chains, rest);
    TrieRoundTrip(s, edgeBits, rest, maxToken);
    CountInFront(n, edgeBits + (terminals + (tokens + (chains + rest))), |s.next|, maxToken);
  }

  lemma CountInFront(n: nat, later: seq<byte>, valueCount: nat, maxToken: nat)
    requires 0 < n <= MAX_NODE_COUNT
    ensures DecodeStored(WriteUvarint(n) + later, valueCount, maxToken) == DecodeTrie(later, n, valueCount, maxToken)
  {
    UvarintRoundTrip(n, later);
  }

  lemma Flatten(a: seq<byte>, b: seq<byte>, c: seq<byte>, d: seq<byte>, e: seq<byte>, rest: seq<byte>)
    ensures a + (b + (c + (d + e))) + rest == a + (b + (c + (d + (e + rest))))
  {
  }

  // Writing -------------------------------------------------------------------------

  /** The bytes encode what is stored of an automaton. */
  ghost predicate EncodesStored(bytes: seq<byte>, s: Stored) {
    exists edgeBits :: EncodedAs(bytes, s, edgeBits)
  }

  method WriteStored(nodeCount: nat, starts: seq<nat>, outputs: Sparse.SparseOutputs, tokens: seq<nat>, next: seq<nat>,
                     ghost dense: seq<Sparse.Entry>)
    returns (bytes: seq<byte>)
    requires nodeCount >= 1 && Grouped(starts, nodeCount) && |tokens| == nodeCount - 1 && Sparse.Holds(outputs, dense)
    ensures EncodesStored(bytes, Stored(starts, TerminalsFrom(dense, 0), tokens, next))
  {
    var edges := WriteEdgeCounts(starts);
    var terminals := WriteTerminalHeads(outputs, dense);
    var edgeTokens := WriteEdgeTokens(starts, tokens);
    var chains := WriteOptionals(next);
    bytes := Sections(nodeCount, edges, terminals, edgeTokens, chains);
    assert EncodedAs(bytes, Stored(starts, TerminalsFrom(dense, 0), tokens, next), edges);
  }

  method WriteAutomaton(automaton: Automaton) returns (bytes: seq<byte>)
    requires automaton.Valid()
    ensures EncodesStored(bytes, StoredForm(automaton))
  {
    var starts := automaton.DenseEdgeStarts();
    bytes := WriteStored(automaton.NodeCount(), starts, automaton.outputs, automaton.Tokens(), automaton.outputNext,
                         Sparse.Zip(automaton.links, automaton.heads));
  }

  ghost function StoredForm(automaton: Automaton): Stored
    requires |automaton.links| == |automaton.heads|
    reads automaton
  {
    Stored(automaton.Starts(), TerminalsFrom(Sparse.Zip(automaton.links, automaton.heads), 0),
           automaton.Tokens(), automaton.outputNext)
  }

  // Validation ----------------------------------------------------------------------

  ghost predicate RangeOk(starts: seq<nat>, tokens: seq<nat>, v: nat) {
    && v + 1 < |starts| && starts[v] <= starts[v + 1] <= |tokens|
    && forall e | starts[v] < e < starts[v + 1] :: tokens[e - 1] < tokens[e]
  }

  ghost predicate NodeSound(starts: seq<nat>, tokens: seq<nat>, failures: seq<nat>, outputs: Sparse.SparseOutputs,
                            valueCount: nat, v: nat) {
    && v < |failures| && failures[v] < |failures| && Sparse.Consistent(outputs) && v < outputs.length
    && (Sparse.Get(outputs, v).link == NONE || Sparse.Get(outputs, v).link < |failures|)
    && (Sparse.Get(outputs, v).head == NONE || Sparse.Get(outputs, v).head < valueCount)
    && RangeOk(starts, tokens, v)
  }

  /** Lengths agree, references stay in range, edges are sorted and every output chain ends. */
  ghost predicate Sound(starts: seq<nat>, tokens: seq<nat>, failures: seq<nat>, outputs: Sparse.SparseOutputs,
                        next: seq<nat>, valueCount: nat) {
    var n := |failures|;
    && n != 0 && |starts| == n + 1 && outputs.length == n && |tokens| == n - 1 && starts[n] == |tokens|
    && |next| == valueCount
    && (forall v: nat | v < n :: NodeSound(starts, tokens, failures, outputs, valueCount, v))
    && (forall v | 0 <= v < valueCount :: next[v] == NONE || next[v] < valueCount)
    && (forall v: nat | v < valueCount :: OutputChains.Ends(next, v))
  }

  method ValidateNode(starts: seq<nat>, tokens: seq<nat>, failures: seq<nat>, outputs: Sparse.SparseOutputs,
                      valueCount: nat, node: nat) returns (ok: bool)
    requires Sparse.Consistent(outputs) && node < |failures| == outputs.length && |starts| == |failures| + 1
    ensures ok <==> NodeSound(starts, tokens, failures, outputs, valueCount, node)
  {
    if failures[node] >= |failures| {
      return false;
    }
    var entry := Sparse.Get(outputs, node);
    if (entry.link != NONE && entry.link >= |failures|) || (entry.head != NONE && entry.head >= valueCount) {
      return false;
    }
    var start, end := starts[node], starts[node + 1];
    if start > end || end > |tokens| {
      return false;
    }
    var edge := start;
    while edge < end
      invariant start <= edge <= end
      invariant forall e | start < e < edge :: tokens[e - 1] < tokens[e]
    {
      if edge > start && tokens[edge - 1] >= tokens[edge] {
        return false;
      }
      edge := edge + 1;
    }
    return true;
  }

  /** Accepts exactly the sound arrays. */
  method Validate(starts: seq<nat>, tokens: seq<nat>, failures: seq<nat>, outputs: Sparse.SparseOutputs,
                  next: seq<nat>, valueCount: nat) returns (ok: bool)
    requires Sparse.Consistent(outputs) && valueCount <= NONE
    ensures ok <==> Sound(starts, tokens, failures, outputs, next, valueCount)
  {
    var nodeCount := |failures|;
    if nodeCount == 0 || |starts| != nodeCount + 1 || outputs.length != nodeCount {
      return false;
    }
    if |tokens| != nodeCount - 1 || starts[nodeCount] != |tokens| || |next| != valueCount {
      return false;
    }
    for node := 0 to nodeCount
      invariant forall v: nat | v < node :: NodeSound(starts, tokens, failures, outputs, valueCount, v)
    {
      var sound := ValidateNode(starts, tokens, failures, outputs, valueCount, node);
      if !sound {
        return false;
      }
    }
    for value := 0 to valueCount
      invariant forall v | 0 <= v < value :: next[v] == NONE || next[v] < valueCount
    {
      if next[value] != NONE && next[value] >= valueCount {
        return false;
      }
    }
    var cyclic := OutputChains.ValidateOutputChains(next);
    return cyclic.None?;
  }

  lemma {:induction false} DescendingEnds(next: seq<nat>, v: nat)
    requires Descends(next) && v < |next|
    ensures OutputChains.Ends(next, v)
  {
    if next[v] == NONE {
      assert OutputChains.EndsWithin(next, NONE, 0);
      assert OutputChains.EndsWithin(next, v, 1);
    } else {
      DescendingEnds(next, next[v]);
      var k: nat :| OutputChains.EndsWithin(next, next[v], k);
      assert OutputChains.EndsWithin(next, v, k + 1);
    }
  }

  /** No searchable automaton is turned away. */
  lemma SearchableIsSound(ps: seq<Pattern>, sh: Shape, links: seq<nat>, heads: seq<nat>, starts: seq<nat>,
                          tokens: seq<nat>, failures: seq<nat>, outputs: Sparse.SparseOutputs, next: seq<nat>)
    requires Searchable(ps, sh, links, heads, starts, tokens, failures, outputs, next)
    ensures Sound(starts, tokens, failures, outputs, next, |next|)
  {
    forall v: nat | v < |failures| ensures NodeSound(starts, tokens, failures, outputs, |next|, v) {
      NodeIsSound(ps, sh, links, heads, starts, tokens, failures, outputs, next, v);
    }
    forall v: nat | v < |next| ensures OutputChains.Ends(next, v) { DescendingEnds(next, v); }
  }

  lemma NodeIsSound(ps: seq<Pattern>, sh: Shape, links: seq<nat>, heads: seq<nat>, starts: seq<nat>, tokens: seq<nat>,
                    failures: seq<nat>, outputs: Sparse.SparseOutputs, next: seq<nat>, v: nat)
    requires Searchable(ps, sh, links, heads, starts, tokens, failures, outputs, next) && v < |failures|
    ensures NodeSound(starts, tokens, failures, outputs, |next|, v)
  {
    assert FailOk(sh, v, failures[v]) && LinkOk(sh, heads, v, links[v]);
    assert Sparse.Get(outputs, v) == Sparse.Zip(links, heads)[v];
    assert Chain(next, heads[v]) == ValuesOf(ps, sh.spell[v]);
    assert starts[v + 1] <= starts[|sh.spell|];
    forall e | starts[v] < e < starts[v + 1] ensures tokens[e - 1] < tokens[e] {
      TokensSorted(Implicit(starts, tokens), sh, v, e - 1, e);
    }
  }
}
