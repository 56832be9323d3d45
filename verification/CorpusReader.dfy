/** Reading a stored automaton: the links are derived afresh, in plain or in packed arrays. */
module CorpusReader {
  import opened Options
  import Bits
  import opened Packed
  import opened Varint
  import opened Patterns
  import opened Tries
  import opened TrieRows
  import opened Outputs
  import opened Renumber
  import opened Automata
  import opened EdgeCounts
  import opened EdgeTokens
  import opened TerminalCodec
  import opened CorpusFormat
  import opened LinkCells
  import opened LinkBuilder
  import opened LinkParallel
  import opened LinkWorkers
  import opened StoredSearch
  import opened Suffixes
  import OutputChains
  import Sparse

  /** The heads a stored form gives its nodes. */
  function StoredHeads(s: Stored): seq<nat>
    requires s.starts != []
  {
    seq(|s.starts| - 1, v requires 0 <= v => HeadAt(s.terminals, v))
  }

  /** The stored arrays are those of the trie `sh` of the patterns `ps`. */
  ghost predicate IsTrie(s: Stored, ps: seq<Pattern>, sh: Shape) {
    && s.starts != [] && TrieOk(Implicit(s.starts, s.tokens), sh) && TokensBounded(s.starts, s.tokens)
    && Terminated(sh, StoredHeads(s)) && HeadsOk(ps, sh.spell, StoredHeads(s), s.next) && WordsOk(ps, sh.spell)
  }

  /** Every section is well formed and there is one token for every node but the root. */
  ghost predicate Readable(stream: seq<byte>, valueCount: nat, maxToken: nat) {
    var decoded := DecodeStored(stream, valueCount, maxToken);
    decoded.Got? && |decoded.value.starts| == |decoded.value.tokens| + 2
  }

  /** Heads name values, and every chain of values ends. */
  ghost predicate ChainsOk(s: Stored)
    requires s.starts != []
  {
    ChainsEnd(StoredHeads(s), s.next)
  }

  ghost predicate Accepted(stream: seq<byte>, valueCount: nat, maxToken: nat) {
    Readable(stream, valueCount, maxToken) && ChainsOk(DecodeStored(stream, valueCount, maxToken).value)
  }

  /** The root's last token leaves room for the root table; sixteen-bit tokens always do. */
  ghost predicate RootFits(stream: seq<byte>, valueCount: nat, maxToken: nat) {
    Readable(stream, valueCount, maxToken) ==>
      var s := DecodeStored(stream, valueCount, maxToken).value;
      0 < s.starts[1] <= |s.tokens| ==> s.tokens[s.starts[1] - 1] < NONE
  }

  // What any readable stream satisfies ---------------------------------------------------

  /** Offsets that were accepted rise from zero, and reach the last edge unless set bits trail the last node. */
  lemma {:induction false} BoundariesRise(bits: seq<bool>, k: nat, n: nat, node: nat, edges: nat)
    requires node <= n && k <= |bits| && Boundaries(bits, k, n, node, edges).Some?
    ensures var all := [edges] + Boundaries(bits, k, n, node, edges).value;
      && |all| == n - node + 1
      && (forall i, j | 0 <= i <= j < |all| :: all[i] <= all[j])
      && (all[n - node] == n - 1 <==> k == |bits| || !bits[|bits| - 1])
    decreases |bits| - k
  {
    if k == |bits| {
    } else {
      if bits[k] {
        BoundariesRise(bits, k + 1, n, node, edges + 1);
        OffsetAhead(edges, edges + 1, Boundaries(bits, k, n, node, edges).value);
        EdgesBelow(bits, k, n, node, edges);
      } else {
        BoundariesRise(bits, k + 1, n, node + 1, edges);
        OffsetInFront(edges, [edges] + Boundaries(bits, k + 1, n, node + 1, edges).value);
      }
    }
  }

  /** Once every node is bounded only edges can follow. */
  lemma {:induction false} EdgesBelow(bits: seq<bool>, k: nat, n: nat, node: nat, edges: nat)
    requires node <= n && k < |bits| && Boundaries(bits, k, n, node, edges).Some?
    ensures edges < n && (node == n ==> bits[|bits| - 1])
    decreases |bits| - k
  {
    if k + 1 >= |bits| {
    } else {
      EdgesBelow(bits, k + 1, n, if bits[k] then node else node + 1, if bits[k] then edges + 1 else edges);
    }
  }

  lemma OffsetAhead(a: nat, b: nat, later: seq<nat>)
    requires a <= b && forall i, j | 0 <= i <= j <= |later| :: ([b] + later)[i] <= ([b] + later)[j]
    ensures |later| > 0 ==> ([b] + later)[|later|] == ([a] + later)[|later|]
    ensures forall i, j | 0 <= i <= j <= |later| :: ([a] + later)[i] <= ([a] + later)[j]
  {
    forall i, j | 0 <= i <= j <= |later| ensures ([a] + later)[i] <= ([a] + later)[j] {
      assert ([b] + later)[i] <= ([b] + later)[j];
    }
  }

  lemma OffsetInFront(a: nat, all: seq<nat>)
    requires all != [] && all[0] == a && forall i, j | 0 <= i <= j < |all| :: all[i] <= all[j]
    ensures forall i, j | 0 <= i <= j <= |all| :: ([a] + all)[i] <= ([a] + all)[j]
  {
  }

  /** The edge-count readers accept offsets that stop short of the last edge exactly when the last bit is set. */
  lemma OffsetsAccepted(stream: seq<byte>, nodeCount: nat)
    requires nodeCount > 0 && DecodeEdgeCounts(stream, nodeCount).Got?
    ensures var starts := DecodeEdgeCounts(stream, nodeCount).value;
      && RisingOffsets(starts) && |starts| == nodeCount + 1
      && (starts[nodeCount] == nodeCount - 1 <==> !BitAt(stream[..ByteCount(2 * nodeCount - 1)], 2 * nodeCount - 2))
  {
    var encoded := stream[..ByteCount(2 * nodeCount - 1)];
    BoundariesRise(BitsOf(encoded, 2 * nodeCount - 1), 0, nodeCount, 0, 0);
  }

  /** Two nodes and one edge that no node owns. */
  lemma TrailingEdgeAccepted()
    ensures DecodeEdgeCounts([4], 2) == Got([0, 0, 0], [])
  {
    var bits := BitsOf([4], 3);
    assert ByteCount(3) == 1 && [4][..1] == [4];
    assert bits == [false, false, true];
    assert Bits.ShiftRight(4, 3) == Bits.ShiftRight(2, 2) == Bits.ShiftRight(1, 1) == Bits.ShiftRight(0, 0) == 0;
    assert [0] + [0, 0] == [0, 0, 0];
    assert Boundaries(bits, 3, 2, 2, 1) == Some([]);
    assert Boundaries(bits, 2, 2, 2, 0) == Some([]);
    assert [0] + [] == [0] && Boundaries(bits, 1, 2, 1, 0) == Some([0]);
    assert [0] + [0] == [0, 0] && Boundaries(bits, 0, 2, 0, 0) == Some([0, 0]);
  }

  lemma {:induction false} OptionalsCount(stream: seq<byte>, count: nat)
    requires OptionalsFrom(stream, count).Got?
    ensures |OptionalsFrom(stream, count).value| == count
    decreases count
  {
    if count == 0 {
    } else {
      OptionalsCount(ReadUvarint(stream).rest, count - 1);
    }
  }

  // Any readable stream can be linked ----------------------------------------------------

  /** The sections read so far, with the terminals as a table. */
  datatype Parts = Parts(terminals: Sparse.SparseOutputs, tokens: seq<nat>, next: seq<nat>)

  /** The parts are what the stored form records. */
  ghost predicate PartsOf(s: Stored, starts: seq<nat>, p: Parts) {
    && |starts| >= 2 && s.starts == starts && s.tokens == p.tokens && s.next == p.next
    && Sparse.Holds(p.terminals, TableOf(s.terminals, |starts| - 1))
  }

  lemma PartsHeads(s: Stored, starts: seq<nat>, p: Parts)
    requires PartsOf(s, starts, p)
    ensures HeadsOf(p.terminals) == StoredHeads(s)
  {
    HeadsStay(TrieArrays(starts, p.tokens, p.terminals), TableOf(s.terminals, |starts| - 1));
  }

  /** Offsets and tokens as the readers accept them. */
  ghost predicate Ordered(starts: seq<nat>, tokens: seq<nat>) {
    && RisingOffsets(starts) && |tokens| == starts[|starts| - 1]
    && forall v: nat, e: nat {:trigger Owns(starts, v, e)} | Owns(starts, v, e) && starts[v] < e < |tokens| ::
         tokens[e - 1] < tokens[e]
  }

  lemma OrderedIsLoadable(s: Stored, starts: seq<nat>, p: Parts)
    requires PartsOf(s, starts, p) && Ordered(starts, p.tokens)
    requires 0 < starts[1] <= |p.tokens| ==> p.tokens[starts[1] - 1] < NONE
    ensures |starts| == |p.tokens| + 2 ==> Loadable(TrieArrays(starts, p.tokens, p.terminals))
  {
    if |starts| == |p.tokens| + 2 {
      var a := TrieArrays(starts, p.tokens, p.terminals);
      var t := StoreOf(a);
      assert Flat(t) && RisingEdges(t);
      assert starts[1] <= starts[|starts| - 1];
      forall e, f | 0 <= e < f < starts[1] ensures p.tokens[e] < p.tokens[f] { EdgesRise(t, 0, e, f); }
    }
  }

  lemma RestoredIsTrie(s: Stored, starts: seq<nat>, p: Parts, ps: seq<Pattern>, sh: Shape)
    requires PartsOf(s, starts, p) && IsTrie(s, ps, sh)
    ensures OfPatterns(TrieArrays(starts, p.tokens, p.terminals), p.next, ps, sh)
  {
    PartsHeads(s, starts, p);
  }

  /** The last check turns away just the streams whose chains do not end in range. */
  lemma CheckedIsSound(s: Stored, starts: seq<nat>, p: Parts, c: Cells, outputs: Sparse.SparseOutputs)
    requires PartsOf(s, starts, p) && Loadable(TrieArrays(starts, p.tokens, p.terminals))
    requires Fitting(StoreOf(TrieArrays(starts, p.tokens, p.terminals)), c)
    requires Sparse.Holds(outputs, Sparse.Zip(c.links, StoredHeads(s))) && |p.next| <= NONE
    ensures Sound(starts, p.tokens, c.failures, outputs, p.next, |p.next|) <==> ChainsOk(s)
  {
    forall v: nat | v < |p.next| && OutputChains.Ends(p.next, v) ensures p.next[v] == NONE || p.next[v] < |p.next| {
      ValuesStep(p.next, v);
    }
    var t := StoreOf(TrieArrays(starts, p.tokens, p.terminals));
    forall v: nat | v < |c.failures|
      ensures NodeSound(starts, p.tokens, c.failures, outputs, |p.next|, v) <==>
              (StoredHeads(s)[v] == NONE || StoredHeads(s)[v] < |p.next|)
    {
      OwnEdges(t, v);
      assert Sparse.Get(outputs, v) == Sparse.Zip(c.links, StoredHeads(s))[v];
      forall e | starts[v] < e < starts[v + 1] ensures p.tokens[e - 1] < p.tokens[e] { assert Owns(t.starts, v, e); }
    }
  }

  /** What an accepted stream becomes: its arrays, links rebuilt from them, and all references sound. */
  ghost predicate Loaded(r: Automaton, s: Stored, workers: nat)
    reads r
  {
    && |s.starts| >= 2 && r.Starts() == s.starts && r.Tokens() == s.tokens && r.outputNext == s.next
    && r.heads == StoredHeads(s)
    && Rebuilt(Arrays(s.starts, s.tokens, StoredHeads(s)), Cells(r.Failures(), r.links), workers)
    && Sparse.Holds(r.outputs, Sparse.Zip(r.links, r.heads)) && RootTableFor(s.tokens, s.starts[1], r.rootNext)
    && Sound(s.starts, s.tokens, r.Failures(), r.outputs, s.next, |s.next|)
  }

  lemma HoldingIsLoaded(r: Automaton, s: Stored, starts: seq<nat>, p: Parts, workers: nat)
    requires PartsOf(s, starts, p) && Holding(r, TrieArrays(starts, p.tokens, p.terminals), workers)
      && r.outputNext == p.next
    requires Sound(starts, p.tokens, r.Failures(), r.outputs, p.next, |p.next|)
    ensures Loaded(r, s, workers)
  {
    PartsHeads(s, starts, p);
  }

  /** Whatever an accepted stream describes, searching what was loaded stays in range and ends. */
  lemma LoadedIsSafe(r: Automaton, s: Stored, workers: nat)
    requires Loaded(r, s, workers)
    ensures r.Safe()
  {
    var t, c := r.Arrays(), Cells(r.Failures(), r.links);
    assert Fitting(t, c);
    forall v: nat, e: nat | Owns(t.starts, v, e) && t.starts[v] < e < |t.tokens| ensures t.tokens[e - 1] < t.tokens[e] {
      assert NodeSound(s.starts, s.tokens, r.Failures(), r.outputs, |s.next|, v);
    }
    forall v: nat | v < |r.heads| ensures r.heads[v] == NONE || r.heads[v] < |s.next| {
      assert NodeSound(s.starts, s.tokens, r.Failures(), r.outputs, |s.next|, v);
      assert Sparse.Get(r.outputs, v) == Sparse.Zip(r.links, r.heads)[v];
    }
  }

  /** Whatever the stream describes, every search reports the same with any numbers of workers. */
  lemma WorkersSearchAlike(a: Automaton, workers: nat, b: Automaton, others: nat, s: Stored, w: Word)
    requires Loaded(a, s, workers) && Loaded(b, s, others) && a.Safe() && b.Safe()
    ensures a.Arrays() == b.Arrays() && NodeAfter(a.Arrays(), a.Failures(), w) == NodeAfter(b.Arrays(), b.Failures(), w)
    ensures var node := NodeAfter(a.Arrays(), a.Failures(), w);
      OutputsFrom(a.heads, a.links, a.outputNext, node) == OutputsFrom(b.heads, b.links, b.outputNext, node)
  {
    var t, c, d := a.Arrays(), Cells(a.Failures(), a.links), Cells(b.Failures(), b.links);
    var count := SomeReached(t);
    WorkersAgree(t, c, workers, d, others, count);
    NodesAlike(t, c, d, count, w);
    OutputsAlike(t, c, d, s.next, count, NodeAfter(t, c.failures, w));
  }

  /** A loaded trie of patterns is a valid automaton. */
  ghost predicate Restored(a: Automaton, s: Stored, ps: seq<Pattern>, sh: Shape)
    reads a
  {
    IsTrie(s, ps, sh) ==> a.Valid() && a.patterns == ps && a.shape == sh
  }

  // Reading ---------------------------------------------------------------------------

  /** The stored parts in reading order, after the edge offsets. */
  method ReadSections(stream: seq<byte>, starts: seq<nat>, nodeCount: nat, valueCount: nat, maxToken: nat,
                      ghost before: seq<byte>)
    returns (r: Read<Parts>)
    requires nodeCount > 0 && DecodeEdgeCounts(before, nodeCount) == Got(starts, stream)
    requires RisingOffsets(starts) && |starts| == nodeCount + 1
    ensures var decoded := DecodeTrie(before, nodeCount, valueCount, maxToken);
      && (r.Bad? <==> decoded.Bad?)
      && (r.Got? ==> r.rest == decoded.rest && PartsOf(decoded.value, starts, r.value))
    ensures r.Got? ==> Ordered(starts, r.value.tokens) && |r.value.next| == valueCount
    ensures r.Got? ==> forall e | 0 <= e < |r.value.tokens| :: r.value.tokens[e] <= maxToken
  {
    var terminals := ReadTerminalHeads(stream, nodeCount);
    if terminals.Bad? {
      return Bad;
    }
    var tokens := ReadEdgeTokens(terminals.rest, starts, maxToken);
    if tokens.Bad? {
      return Bad;
    }
    DecodedTokensRise(terminals.rest, starts, maxToken);
    var next := ReadOptionals(tokens.rest, valueCount);
    if next.Bad? {
      return Bad;
    }
    OptionalsCount(tokens.rest, valueCount);
    r := Got(Parts(terminals.value, tokens.value, next.value), next.rest);
  }

  /** Restores an automaton on plain arrays, from any stream. */
  method ReadDense(stream: seq<byte>, valueCount: nat, gomaxprocs: nat, ghost ps: seq<Pattern>, ghost sh: Shape)
    returns (r: Read<Automaton>)
    requires gomaxprocs > 0 && valueCount <= NONE && RootFits(stream, valueCount, MAX_TOKEN32)
    ensures r.Got? <==> Accepted(stream, valueCount, MAX_TOKEN32)
    ensures r.Got? ==> fresh(r.value) && r.rest == DecodeStored(stream, valueCount, MAX_TOKEN32).rest
    ensures r.Got? ==> r.value.packedStarts == [] && r.value.edgeTokens16 == [] && r.value.failures24 == []
    ensures r.Got? ==> var s := DecodeStored(stream, valueCount, MAX_TOKEN32).value;
              Loaded(r.value, s, WorkerCount(gomaxprocs, |s.starts| - 1)) && Restored(r.value, s, ps, sh)
  {
    var count := ReadCount(stream, MAX_NODE_COUNT);
    if count.Bad? || count.value == 0 {
      return Bad;
    }
    var nodeCount := count.value;
    var starts := ReadEdgeCounts(count.rest, nodeCount);
    if starts.Bad? {
      return Bad;
    }
    OffsetsAccepted(count.rest, nodeCount);
    var sections := ReadSections(starts.rest, starts.value, nodeCount, valueCount, MAX_TOKEN32, count.rest);
    if sections.Bad? {
      return Bad;
    }
    r := LinkDense(starts.value, sections.value, sections.rest, gomaxprocs,
                   DecodeStored(stream, valueCount, MAX_TOKEN32).value, ps, sh);
  }

  method NewDense(starts: seq<nat>, tokens: seq<nat>, failures: seq<nat>, outputs: Sparse.SparseOutputs, next: seq<nat>,
                  ghost links: seq<nat>, ghost heads: seq<nat>, ghost ps: seq<Pattern>, ghost sh: Shape)
    returns (automaton: Automaton)
    requires |starts| >= 2 && RootReady(tokens, starts[1])
    ensures fresh(automaton) && automaton.patterns == ps && automaton.shape == sh
    ensures automaton.packedStarts == [] && automaton.edgeTokens16 == [] && automaton.failures24 == []
    ensures automaton.outputs == outputs && automaton.outputNext == next && automaton.links == links
      && automaton.heads == heads
    ensures automaton.Starts() == starts && automaton.Tokens() == tokens && automaton.Failures() == failures
      && StoredOnce(automaton)
    ensures RootTableFor(tokens, starts[1], automaton.rootNext)
  {
    automaton := new Automaton(starts, [], tokens, [], failures, [], outputs, next, ps, sh, links, heads);
    assert automaton.Starts() == starts && automaton.Tokens() == tokens && automaton.Failures() == failures;
    automaton.RootTable();
  }

  method AssembleDense(starts: seq<nat>, tokens: seq<nat>, failures: seq<nat>, outputs: Sparse.SparseOutputs,
                       next: seq<nat>,
                       ghost a: TrieArrays, ghost links: seq<nat>, ghost heads: seq<nat>, ghost workers: nat,
                       ghost ps: seq<Pattern>, ghost sh: Shape) returns (automaton: Automaton)
    requires RestoredArrays(a, starts, tokens, failures, links, heads, outputs, workers)
    ensures fresh(automaton) && automaton.patterns == ps && automaton.shape == sh
    ensures automaton.packedStarts == [] && automaton.edgeTokens16 == [] && automaton.failures24 == []
    ensures automaton.Failures() == failures && automaton.outputs == outputs && automaton.outputNext == next
    ensures Holding(automaton, a, workers)
    ensures OfPatterns(a, next, ps, sh) ==> automaton.Valid()
  {
    LoadableIsReady(a);
    automaton := NewDense(starts, tokens, failures, outputs, next, links, heads, ps, sh);
    HoldingIsValid(automaton, a, workers);
  }

  /** Derives the links of plain arrays and checks the result. */
  method LinkDense(starts: seq<nat>, p: Parts, rest: seq<byte>, gomaxprocs: nat, ghost s: Stored,
                   ghost ps: seq<Pattern>, ghost sh: Shape)
    returns (r: Read<Automaton>)
    requires gomaxprocs > 0 && |p.next| <= NONE && PartsOf(s, starts, p) && Ordered(starts, p.tokens)
    requires 0 < starts[1] <= |p.tokens| && |starts| == |p.tokens| + 2 ==> p.tokens[starts[1] - 1] < NONE
    ensures r.Got? <==> |starts| == |p.tokens| + 2 && ChainsOk(s)
    ensures r.Got? ==> fresh(r.value) && r.rest == rest
    ensures r.Got? ==> r.value.packedStarts == [] && r.value.edgeTokens16 == [] && r.value.failures24 == []
    ensures r.Got? ==> Loaded(r.value, s, WorkerCount(gomaxprocs, |starts| - 1)) && Restored(r.value, s, ps, sh)
  {
    var failures := new nat[p.terminals.length](_ => 0);
    var a := TrieArrays(starts, p.tokens, p.terminals);
    if |starts| == |p.tokens| + 2 { OrderedIsLoadable(s, starts, p); }
    var links := BuildFailureLinksInto(a, failures, gomaxprocs);
    if links.Err? {
      return Bad;
    }
    PartsHeads(s, starts, p);
    HeadsStay(a, TableOf(s.terminals, |starts| - 1));
    var outputs := Sparse.WithOutputLinks(p.terminals, links.value, TableOf(s.terminals, |starts| - 1));
    r := CheckDense(starts, p, failures[..], outputs, rest, WorkerCount(gomaxprocs, |starts| - 1), links.value, s, ps,
                    sh);
  }

  /** Assembles the automaton and turns it away if a reference is out of range or a chain does not end. */
  method CheckDense(starts: seq<nat>, p: Parts, failures: seq<nat>, outputs: Sparse.SparseOutputs, rest: seq<byte>,
                    ghost workers: nat, ghost links: seq<nat>, ghost s: Stored, ghost ps: seq<Pattern>, ghost sh: Shape)
    returns (r: Read<Automaton>)
    requires PartsOf(s, starts, p) && |p.next| <= NONE
    requires RestoredArrays(TrieArrays(starts, p.tokens, p.terminals), starts, p.tokens, failures, links,
                            StoredHeads(s), outputs, workers)
    ensures r.Got? <==> ChainsOk(s)
    ensures r.Got? ==> fresh(r.value) && r.rest == rest
    ensures r.Got? ==> r.value.packedStarts == [] && r.value.edgeTokens16 == [] && r.value.failures24 == []
    ensures r.Got? ==> Loaded(r.value, s, workers) && Restored(r.value, s, ps, sh)
  {
    ghost var a := TrieArrays(starts, p.tokens, p.terminals);
    CheckedIsSound(s, starts, p, Cells(failures, links), outputs);
    var automaton :=
      AssembleDense(starts, p.tokens, failures, outputs, p.next, a, links, StoredHeads(s), workers, ps, sh);
    if IsTrie(s, ps, sh) { RestoredIsTrie(s, starts, p, ps, sh); }
    var sound := Validate(starts, p.tokens, failures, outputs, p.next, |p.next|);
    if !sound {
      return Bad;
    }
    HoldingIsLoaded(automaton, s, starts, p, workers);
    r := Got(automaton, rest);
  }

  /** Restores an automaton on packed arrays, for tokens of at most 16 bits, from any stream. */
  method ReadCompact(stream: seq<byte>, valueCount: nat, gomaxprocs: nat, ghost ps: seq<Pattern>, ghost sh: Shape)
    returns (r: Read<Automaton>)
    requires gomaxprocs > 0 && valueCount <= NONE
    ensures r.Got? <==> Accepted(stream, valueCount, MAX_TOKEN16)
    ensures r.Got? ==> fresh(r.value) && r.rest == DecodeStored(stream, valueCount, MAX_TOKEN16).rest
    ensures r.Got? ==> var s := DecodeStored(stream, valueCount, MAX_TOKEN16).value;
              && Loaded(r.value, s, WorkerCount(gomaxprocs, |s.starts| - 1)) && Restored(r.value, s, ps, sh)
              && Values(r.value.packedStarts) == s.starts && r.value.edgeTokens16 == s.tokens
  {
    var count := ReadCount(stream, MAX_NODE_COUNT);
    if count.Bad? || count.value == 0 {
      return Bad;
    }
    var nodeCount := count.value;
    var packed := ReadCompactEdgeStarts(count.rest, nodeCount);
    if packed.Bad? {
      return Bad;
    }
    OffsetsAccepted(count.rest, nodeCount);
    var starts := Dense(packed.value);
    var sections := ReadSections(packed.rest, starts, nodeCount, valueCount, MAX_TOKEN16, count.rest);
    if sections.Bad? {
      return Bad;
    }
    r := LinkCompact(packed.value, sections.value, sections.rest, gomaxprocs,
                     DecodeStored(stream, valueCount, MAX_TOKEN16).value, ps, sh);
  }

  /** Derives the links of packed arrays and checks the result. */
  method LinkCompact(packed: seq<byte>, p: Parts, rest: seq<byte>, gomaxprocs: nat, ghost s: Stored,
                     ghost ps: seq<Pattern>, ghost sh: Shape)
    returns (r: Read<Automaton>)
    requires gomaxprocs > 0 && |p.next| <= NONE && |Values(packed)| <= LIMIT24
    requires PartsOf(s, Values(packed), p) && Ordered(Values(packed), p.tokens)
    requires forall e | 0 <= e < |p.tokens| :: p.tokens[e] < NONE
    ensures r.Got? <==> |Values(packed)| == |p.tokens| + 2 && ChainsOk(s)
    ensures r.Got? ==> fresh(r.value) && r.rest == rest
    ensures r.Got? ==> r.value.packedStarts == packed && r.value.edgeTokens16 == p.tokens
    ensures r.Got? ==> Loaded(r.value, s, WorkerCount(gomaxprocs, |Values(packed)| - 1)) && Restored(r.value, s, ps, sh)
  {
    ghost var all := Values(packed);
    ghost var dense := TableOf(s.terminals, |all| - 1);
    OrderedIsLoadable(s, all, p);
    var restored := RestoreCompact(packed, p.tokens, p.terminals, p.next, gomaxprocs, dense, ps, sh);
    if restored.Err? {
      return Bad;
    }
    var automaton := restored.value;
    var starts := automaton.DenseEdgeStarts();
    var failures := automaton.DenseFailures();
    PartsHeads(s, all, p);
    CheckedIsSound(s, all, p, Cells(failures, automaton.links), automaton.outputs);
    if IsTrie(s, ps, sh) { RestoredIsTrie(s, all, p, ps, sh); }
    var sound := Validate(starts, automaton.Tokens(), failures, automaton.outputs, automaton.outputNext, |p.next|);
    if !sound {
      return Bad;
    }
    HoldingIsLoaded(automaton, s, all, p, WorkerCount(gomaxprocs, |all| - 1));
    r := Got(automaton, rest);
  }
}
