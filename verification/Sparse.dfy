/** Node tables that store only the nodes with an output link or a terminal head. */
module Sparse {
  import opened Picking
  import opened Bits
  import opened Patterns

  datatype Entry = Entry(link: nat, head: nat)

  const ABSENT := Entry(NONE, NONE)

  /** Entry `rank` belongs to the set bit with that many set bits before it. */
  datatype SparseOutputs = SparseOutputs(length: nat, bits: seq<nat>, ranks: seq<nat>, values: seq<Entry>)

  predicate IsSet(bits: seq<nat>, k: nat) {
    k / 64 < |bits| && Bit(bits[k / 64], k % 64)
  }

  /** Set bits below position `k` of the whole bitmap. */
  function Rank(bits: seq<nat>, k: nat): nat {
    if k == 0 then 0 else Rank(bits, k - 1) + if IsSet(bits, k - 1) then 1 else 0
  }

  function WordCount(length: nat): nat {
    (length + 64 - 1) / 64
  }

  ghost predicate WordsBounded(bits: seq<nat>) {
    forall w | 0 <= w < |bits| :: bits[w] < Pow2(64)
  }

  ghost predicate Consistent(s: SparseOutputs) {
    && |s.bits| == |s.ranks| == WordCount(s.length)
    && WordsBounded(s.bits)
    && (forall w | 0 <= w < |s.ranks| :: s.ranks[w] == Rank(s.bits, 64 * w))
    && (forall k: nat | s.length <= k :: !IsSet(s.bits, k))
    && |s.values| == Rank(s.bits, s.length)
  }

  // Rank arithmetic ----------------------------------------------------------

  lemma {:induction false} RankInWord(bits: seq<nat>, w: nat, i: nat)
    requires w < |bits| && i <= 64
    ensures Rank(bits, 64 * w + i) == Rank(bits, 64 * w) + CountBelow(bits[w], i)
  {
    if i == 0 {
    } else {
      RankInWord(bits, w, i - 1);
      assert (64 * w + (i - 1)) / 64 == w && (64 * w + (i - 1)) % 64 == i - 1;
    }
  }

  lemma {:induction false} RankRises(bits: seq<nat>, j: nat, k: nat)
    requires j <= k
    ensures Rank(bits, j) <= Rank(bits, k)
    ensures j < k && IsSet(bits, j) ==> Rank(bits, j) < Rank(bits, k)
    decreases k
  {
    if j == k {
    } else {
      RankRises(bits, j, k - 1);
    }
  }

  lemma {:induction false} RankFrame(bits: seq<nat>, bits': seq<nat>, k: nat)
    requires forall j: nat | j < k :: IsSet(bits, j) == IsSet(bits', j)
    ensures Rank(bits, k) == Rank(bits', k)
  {
    if k == 0 {
    } else {
      RankFrame(bits, bits', k - 1);
    }
  }

  lemma PlaceInWord(index: nat, length: nat)
    requires index < length
    ensures index == 64 * (index / 64) + index % 64 && index / 64 < WordCount(length)
  {
  }

  /** The rank the lookup computes is the rank of the bit, and is a valid place. */
  lemma LookupRank(s: SparseOutputs, index: nat)
    requires Consistent(s) && index < s.length
    ensures index / 64 < |s.bits|
    ensures s.ranks[index / 64] + OnesCount(LowBits(s.bits[index / 64], index % 64)) == Rank(s.bits, index)
    ensures IsSet(s.bits, index) ==> Rank(s.bits, index) < |s.values|
  {
    PlaceInWord(index, s.length);
    RankOfPlace(s.bits, index, index / 64, index % 64);
    OnesUnderMask(s.bits[index / 64], index % 64);
    StoredPlace(s, index);
  }

  lemma RankOfPlace(bits: seq<nat>, index: nat, w: nat, i: nat)
    requires w < |bits| && i <= 64 && index == 64 * w + i
    ensures Rank(bits, index) == Rank(bits, 64 * w) + CountBelow(bits[w], i)
  {
    RankInWord(bits, w, i);
  }

  /** A set bit below the length has a stored entry. */
  lemma StoredPlace(s: SparseOutputs, index: nat)
    requires Consistent(s) && index < s.length
    ensures IsSet(s.bits, index) ==> Rank(s.bits, index) < |s.values|
  {
    RankRises(s.bits, index, s.length);
  }

  // Lookups ------------------------------------------------------------------

  function Get(s: SparseOutputs, index: nat): Entry
    requires Consistent(s) && index < s.length
  {
    LookupRank(s, index);
    var word := s.bits[index / 64];
    if !Bit(word, index % 64) then ABSENT
    else s.values[s.ranks[index / 64] + OnesCount(LowBits(word, index % 64))]
  }

  function TerminalHead(s: SparseOutputs, index: nat): nat
    requires Consistent(s) && index < s.length
  {
    Get(s, index).head
  }

  /** The table answers for every node what the dense arrays hold, and stores no empty entry. */
  ghost predicate Holds(s: SparseOutputs, dense: seq<Entry>) {
    && Consistent(s) && s.length == |dense|
    && forall i: nat {:trigger Get(s, i)} | i < |dense| ::
         Get(s, i) == dense[i] && (IsSet(s.bits, i) <==> dense[i] != ABSENT)
  }

  function Zip(links: seq<nat>, heads: seq<nat>): seq<Entry>
    requires |links| == |heads|
  {
    seq(|links|, i requires 0 <= i < |links| => Entry(links[i], heads[i]))
  }

  // Filling a table ----------------------------------------------------------

  /** The table under construction is right for the entries before `k`. */
  ghost predicate Filling(bits: seq<nat>, values: seq<Entry>, dense: seq<Entry>, k: nat) {
    && k <= |dense| && |bits| == WordCount(|dense|) && WordsBounded(bits)
    && |values| == Rank(bits, k)
    && (forall j: nat {:trigger IsSet(bits, j)} | k <= j :: !IsSet(bits, j))
    && (forall j: nat {:trigger EntryPlaced(bits, values, dense, j)} | j < k :: EntryPlaced(bits, values, dense, j))
  }

  ghost predicate EntryPlaced(bits: seq<nat>, values: seq<Entry>, dense: seq<Entry>, j: nat) {
    && j < |dense|
    && (IsSet(bits, j) <==> dense[j] != ABSENT)
    && (IsSet(bits, j) ==> Rank(bits, j) < |values| && values[Rank(bits, j)] == dense[j])
  }

  lemma SetsOneBit(bits: seq<nat>, k: nat, j: nat)
    requires k / 64 < |bits|
    ensures IsSet(bits[k / 64 := SetBit(bits[k / 64], k % 64)], j) <==> IsSet(bits, j) || j == k
  {
    SetBitBits(bits[k / 64], k % 64, j % 64);
    assert j == 64 * (j / 64) + j % 64 && k == 64 * (k / 64) + k % 64;
  }

  lemma FillEntry(bits: seq<nat>, values: seq<Entry>, dense: seq<Entry>, k: nat)
    requires Filling(bits, values, dense, k) && k < |dense| && dense[k] != ABSENT
    ensures k / 64 < |bits|
    ensures Filling(bits[k / 64 := SetBit(bits[k / 64], k % 64)], values + [dense[k]], dense, k + 1)
  {
    var bits' := bits[k / 64 := SetBit(bits[k / 64], k % 64)];
    SetBitBound(bits[k / 64], k % 64, 64);
    forall j: nat ensures IsSet(bits', j) <==> IsSet(bits, j) || j == k { SetsOneBit(bits, k, j); }
    RankFrame(bits, bits', k);
    forall j: nat | j < k + 1 ensures EntryPlaced(bits', values + [dense[k]], dense, j) {
      RankFrame(bits, bits', j);
      if j < k { assert EntryPlaced(bits, values, dense, j); }
    }
  }

  lemma {:induction false} SkipEntries(bits: seq<nat>, values: seq<Entry>, dense: seq<Entry>, k: nat, m: nat)
    requires Filling(bits, values, dense, k) && k <= m <= |dense|
    requires forall j | k <= j < m :: dense[j] == ABSENT
    ensures Filling(bits, values, dense, m)
    decreases m - k
  {
    if k >= m {
    } else {
      assert Filling(bits, values, dense, k + 1) by {
        forall j: nat | j < k + 1 ensures EntryPlaced(bits, values, dense, j) { }
      }
      SkipEntries(bits, values, dense, k + 1, m);
    }
  }

  method PopulateRanks(bits: seq<nat>) returns (ranks: seq<nat>)
    requires WordsBounded(bits)
    ensures |ranks| == |bits| && forall w | 0 <= w < |ranks| :: ranks[w] == Rank(bits, 64 * w)
  {
    ranks := [];
    var rank := 0;
    for index := 0 to |bits|
      invariant |ranks| == index && rank == Rank(bits, 64 * index)
      invariant forall w | 0 <= w < index :: ranks[w] == Rank(bits, 64 * w)
    {
      ranks := ranks + [rank];
      RankInWord(bits, index, 64);
      OnesInWord(bits[index], 64);
      assert 64 * index + 64 == 64 * (index + 1);
      rank := rank + OnesCount(bits[index]);
    }
  }

  lemma FilledHolds(bits: seq<nat>, values: seq<Entry>, ranks: seq<nat>, dense: seq<Entry>)
    requires Filling(bits, values, dense, |dense|)
    requires |ranks| == |bits| && forall w | 0 <= w < |ranks| :: ranks[w] == Rank(bits, 64 * w)
    ensures Holds(SparseOutputs(|dense|, bits, ranks, values), dense)
  {
    var s := SparseOutputs(|dense|, bits, ranks, values);
    assert Consistent(s);
    forall i: nat | i < |dense| ensures Get(s, i) == dense[i] && (IsSet(s.bits, i) <==> dense[i] != ABSENT) {
      assert EntryPlaced(bits, values, dense, i);
      LookupRank(s, i);
    }
  }

  lemma EmptyFilling(dense: seq<Entry>, bits: seq<nat>)
    requires |bits| == WordCount(|dense|) && forall w | 0 <= w < |bits| :: bits[w] == 0
    ensures Filling(bits, [], dense, 0)
  {
    forall j: nat ensures !IsSet(bits, j) { ZeroHasNoBits(j % 64); }
    assert Pow2(64) > 0 by { PowPositive(64); }
  }

  lemma {:induction false} PowPositive(n: nat)
    ensures Pow2(n) > 0
  {
    if n == 0 {
    } else {
      PowPositive(n - 1);
    }
  }

  method MarkNode(bits: array<nat>, node: nat)
    requires node / 64 < bits.Length
    modifies bits
    ensures bits[..] == old(bits[..])[node / 64 := SetBit(old(bits[node / 64]), node % 64)]
  {
    bits[node / 64] := SetBit(bits[node / 64], node % 64);
  }

  /** Marks a node and stores its entry. */
  method PlaceEntry(bits: array<nat>, values0: seq<Entry>, node: nat, entry: Entry, ghost dense: seq<Entry>)
    returns (values: seq<Entry>)
    requires Filling(bits[..], values0, dense, node) && node < |dense| && dense[node] == entry != ABSENT
    modifies bits
    ensures Filling(bits[..], values, dense, node + 1)
  {
    FillEntry(bits[..], values0, dense, node);
    MarkNode(bits, node);
    values := values0 + [entry];
  }

  /** Ranks the finished bits. */
  method Seal(length: nat, bits: array<nat>, values: seq<Entry>, ghost dense: seq<Entry>) returns (table: SparseOutputs)
    requires length == |dense| && Filling(bits[..], values, dense, length)
    ensures Holds(table, dense)
  {
    var ranks := PopulateRanks(bits[..]);
    FilledHolds(bits[..], values, ranks, dense);
    table := SparseOutputs(length, bits[..], ranks, values);
  }

  method NewSparseOutputs(outputLinks: seq<nat>, terminalHeads: seq<nat>) returns (table: SparseOutputs)
    requires |outputLinks| == |terminalHeads|
    ensures Holds(table, Zip(outputLinks, terminalHeads))
  {
    ghost var dense := Zip(outputLinks, terminalHeads);
    var bits := new nat[WordCount(|outputLinks|)](_ => 0);
    var values: seq<Entry> := [];
    EmptyFilling(dense, bits[..]);
    for index := 0 to |outputLinks|
      invariant Filling(bits[..], values, dense, index)
    {
      var link, head := outputLinks[index], terminalHeads[index];
      if link == NONE && head == NONE {
        SkipEntries(bits[..], values, dense, index, index + 1);
        continue;
      }
      values := PlaceEntry(bits, values, index, Entry(link, head), dense);
    }
    table := Seal(|outputLinks|, bits, values, dense);
  }

  ghost predicate StrictlyRising(nodes: seq<nat>, length: nat) {
    && (forall i, j | 0 <= i < j < |nodes| :: nodes[i] < nodes[j])
    && (forall i | 0 <= i < |nodes| :: nodes[i] < length)
  }

  /** The dense table with the given heads at the given nodes and no links. */
  ghost predicate Scattered(dense: seq<Entry>, nodes: seq<nat>, heads: seq<nat>) {
    && |nodes| == |heads| && StrictlyRising(nodes, |dense|)
    && (forall i | 0 <= i < |nodes| :: dense[nodes[i]] == Entry(NONE, heads[i]))
    && (forall k: nat | k < |dense| && k !in nodes :: dense[k] == ABSENT)
  }

  /** The node after the first `index` listed ones. */
  ghost function After(nodes: seq<nat>, index: nat): nat
    requires index <= |nodes|
  {
    if index == 0 then 0 else nodes[index - 1] + 1
  }

  lemma SkipToNode(bits: seq<nat>, values: seq<Entry>, dense: seq<Entry>, nodes: seq<nat>, heads: seq<nat>, index: nat)
    requires Scattered(dense, nodes, heads) && index < |nodes| && Filling(bits, values, dense, After(nodes, index))
    ensures Filling(bits, values, dense, nodes[index])
    ensures heads[index] == NONE ==> Filling(bits, values, dense, nodes[index] + 1)
  {
    var node := nodes[index];
    forall k: nat | After(nodes, index) <= k < node ensures dense[k] == ABSENT {
      assert k !in nodes;
    }
    SkipEntries(bits, values, dense, After(nodes, index), node);
    if heads[index] == NONE { SkipEntries(bits, values, dense, node, node + 1); }
  }

  lemma SkipToEnd(bits: seq<nat>, values: seq<Entry>, dense: seq<Entry>, nodes: seq<nat>, heads: seq<nat>)
    requires Scattered(dense, nodes, heads) && Filling(bits, values, dense, After(nodes, |nodes|))
    ensures Filling(bits, values, dense, |dense|)
  {
    forall k: nat | After(nodes, |nodes|) <= k < |dense| ensures dense[k] == ABSENT {
      assert k !in nodes;
    }
    SkipEntries(bits, values, dense, After(nodes, |nodes|), |dense|);
  }

  /** Stores the head of the next listed node. */
  method StoreHead(bits: array<nat>, values0: seq<Entry>, nodes: seq<nat>, heads: seq<nat>, index: nat,
                   ghost dense: seq<Entry>)
    returns (values: seq<Entry>)
    requires Scattered(dense, nodes, heads) && index < |nodes| && Filling(bits[..], values0, dense, After(nodes, index))
    modifies bits
    ensures Filling(bits[..], values, dense, After(nodes, index + 1))
  {
    SkipToNode(bits[..], values0, dense, nodes, heads, index);
    if heads[index] == NONE {
      return values0;
    }
    values := PlaceEntry(bits, values0, nodes[index], Entry(NONE, heads[index]), dense);
  }

  method NewSparseTerminalHeads(length: nat, nodes: seq<nat>, heads: seq<nat>, ghost dense: seq<Entry>)
    returns (table: SparseOutputs)
    requires length == |dense| && Scattered(dense, nodes, heads)
    ensures Holds(table, dense)
  {
    var bits := new nat[WordCount(length)](_ => 0);
    var values: seq<Entry> := [];
    EmptyFilling(dense, bits[..]);
    for index := 0 to |nodes|
      invariant Filling(bits[..], values, dense, After(nodes, index))
    {
      values := StoreHead(bits, values, nodes, heads, index, dense);
    }
    SkipToEnd(bits[..], values, dense, nodes, heads);
    table := Seal(length, bits, values, dense);
  }

  ghost function Heads(dense: seq<Entry>): seq<nat> {
    seq(|dense|, i requires 0 <= i < |dense| => dense[i].head)
  }

  /** Reading the stored values in order meets each node's head at its own turn. */
  lemma HeadOf(s: SparseOutputs, dense: seq<Entry>, index: nat, valueIndex: nat)
    requires Holds(s, dense) && index < s.length && valueIndex == Rank(s.bits, index)
    ensures index / 64 < |s.bits|
    ensures Bit(s.bits[index / 64], index % 64) ==>
      valueIndex < |s.values| && s.values[valueIndex].head == dense[index].head
        && Rank(s.bits, index + 1) == valueIndex + 1
    ensures !Bit(s.bits[index / 64], index % 64) ==> dense[index].head == NONE && Rank(s.bits, index + 1) == valueIndex
  {
    LookupRank(s, index);
    assert Get(s, index) == dense[index];
  }

  /** New links over the same heads. */
  method WithOutputLinks(s: SparseOutputs, outputLinks: seq<nat>, ghost dense: seq<Entry>)
    returns (table: SparseOutputs)
    requires Holds(s, dense) && |outputLinks| == s.length
    ensures Holds(table, Zip(outputLinks, Heads(dense)))
  {
    ghost var dense' := Zip(outputLinks, Heads(dense));
    var bits := new nat[WordCount(s.length)](_ => 0);
    var values: seq<Entry> := [];
    var valueIndex := 0;
    EmptyFilling(dense', bits[..]);
    for index := 0 to |outputLinks|
      invariant Filling(bits[..], values, dense', index)
      invariant valueIndex == Rank(s.bits, index)
    {
      var link, head := outputLinks[index], NONE;
      HeadOf(s, dense, index, valueIndex);
      var word := s.bits[index / 64];
      if Bit(word, index % 64) {
        head := s.values[valueIndex].head;
        valueIndex := valueIndex + 1;
      }
      assert dense'[index] == Entry(link, head);
      if link == NONE && head == NONE {
        SkipEntries(bits[..], values, dense', index, index + 1);
        continue;
      }
      values := PlaceEntry(bits, values, index, Entry(link, head), dense');
    }
    table := Seal(s.length, bits, values, dense');
  }

  // Ranging ------------------------------------------------------------------

  datatype Visited = Visited(index: nat, entry: Entry)

  /** The non-empty entries from `k` on, in node order. */
  function Present(dense: seq<Entry>, k: nat): seq<Visited>
    decreases |dense| - k
  {
    if k >= |dense| then []
    else (if dense[k] == ABSENT then [] else [Visited(k, dense[k])]) + Present(dense, k + 1)
  }

  lemma {:induction false} PresentSkips(dense: seq<Entry>, k: nat, m: nat)
    requires k <= m && forall j | k <= j < m && j < |dense| :: dense[j] == ABSENT
    ensures Present(dense, k) == Present(dense, m)
    decreases m - k
  {
    if k < m && k < |dense| { PresentSkips(dense, k + 1, m); }
  }

  ghost function NonEmptyAt(dense: seq<Entry>): nat -> bool {
    (i: nat) => i < |dense| && (dense[i].link != NONE || dense[i].head != NONE)
  }

  ghost function VisitedAt(dense: seq<Entry>): (nat, Visited) -> bool {
    (i: nat, v: Visited) => i < |dense| && v == Visited(i, dense[i])
  }

  /** These are the nodes with a link or a head, each once and in order. */
  lemma {:induction false} PresentPicks(dense: seq<Entry>, k: nat)
    requires k <= |dense|
    ensures Picks(k, |dense|, NonEmptyAt(dense), VisitedAt(dense), Present(dense, k))
    decreases |dense| - k
  {
    if k == |dense| {
      PicksNone(k, NonEmptyAt(dense), VisitedAt(dense));
    } else {
      PresentPicks(dense, k + 1);
      PicksFirst(k, |dense|, NonEmptyAt(dense), VisitedAt(dense), Present(dense, k + 1),
                 if dense[k].link != NONE || dense[k].head != NONE then [Visited(k, dense[k])] else []);
    }
  }

  /** The set bits of `word` that remain are those of the stored word from place `k` on. */
  ghost predicate Remaining(s: SparseOutputs, wordIndex: nat, word: nat, k: nat)
    requires wordIndex < |s.bits|
  {
    k <= 64 && forall j: nat :: Bit(word, j) <==> Bit(s.bits[wordIndex], j) && k <= j
  }

  ghost predicate NoBits(word: nat, from: nat, to: nat) {
    forall j: nat | from <= j < to :: !Bit(word, j)
  }

  lemma LowestRemaining(s: SparseOutputs, wordIndex: nat, word: nat, k: nat)
    requires Consistent(s) && wordIndex < |s.bits| && word != 0 && Remaining(s, wordIndex, word, k)
    ensures k <= TrailingZeros(word) < 64 && Bit(s.bits[wordIndex], TrailingZeros(word))
    ensures NoBits(s.bits[wordIndex], k, TrailingZeros(word))
    ensures Remaining(s, wordIndex, ClearLowest(word), TrailingZeros(word) + 1) && ClearLowest(word) < word
  {
    var bit := TrailingZeros(word);
    LowestBit(word, bit);
    if 64 <= bit { BitsBelowBound(s.bits[wordIndex], 64, bit); }
    forall j: nat ensures Bit(ClearLowest(word), j) <==> Bit(s.bits[wordIndex], j) && bit + 1 <= j {
      LowestBit(word, j);
    }
    forall j: nat | k <= j < bit ensures !Bit(s.bits[wordIndex], j) { LowestBit(word, j); }
  }

  lemma StoredEntry(s: SparseOutputs, dense: seq<Entry>, index: nat)
    requires Holds(s, dense) && IsSet(s.bits, index)
    ensures index < s.length && dense[index] != ABSENT
    ensures Rank(s.bits, index) < |s.values| && s.values[Rank(s.bits, index)] == dense[index]
    ensures Rank(s.bits, index + 1) == Rank(s.bits, index) + 1
    ensures Present(dense, index) == [Visited(index, dense[index])] + Present(dense, index + 1)
  {
    LookupRank(s, index);
    assert Get(s, index) == dense[index];
  }

  /** No bits from `k` to `bit` of a word: no rank is passed and no entry is skipped. */
  lemma GapInWord(s: SparseOutputs, dense: seq<Entry>, wordIndex: nat, k: nat, bit: nat, place: nat, index: nat)
    requires Holds(s, dense) && wordIndex < |s.bits| && k <= bit <= 64 && NoBits(s.bits[wordIndex], k, bit)
    requires place == 64 * wordIndex + k && index == 64 * wordIndex + bit
    ensures Rank(s.bits, place) == Rank(s.bits, index) && Present(dense, place) == Present(dense, index)
  {
    RankOfPlace(s.bits, place, wordIndex, k);
    RankOfPlace(s.bits, index, wordIndex, bit);
    CountNone(s.bits[wordIndex], k, bit);
    forall j: nat | place <= j < index && j < |dense| ensures dense[j] == ABSENT {
      NothingStored(s, dense, wordIndex, j - 64 * wordIndex);
    }
    PresentSkips(dense, place, index);
  }

  lemma NothingStored(s: SparseOutputs, dense: seq<Entry>, wordIndex: nat, i: nat)
    requires Holds(s, dense) && wordIndex < |s.bits| && i < 64 && !Bit(s.bits[wordIndex], i)
    requires 64 * wordIndex + i < |dense|
    ensures dense[64 * wordIndex + i] == ABSENT
  {
    var j := 64 * wordIndex + i;
    assert j / 64 == wordIndex && j % 64 == i;
    assert Get(s, j) == dense[j];
  }

  lemma {:induction false} CountNone(w: nat, i: nat, j: nat)
    requires i <= j && forall k | i <= k < j :: !Bit(w, k)
    ensures CountBelow(w, j) == CountBelow(w, i)
    decreases j
  {
    if i == j {
    } else {
      CountNone(w, i, j - 1);
    }
  }

  lemma VisitOne(visited: seq<Visited>, v: Visited, rest: seq<Visited>)
    ensures (visited + [v]) + rest == visited + ([v] + rest)
  {
  }

  /** The state of the word loop: what was visited, and what is still to come. */
  ghost predicate Ranging(s: SparseOutputs, dense: seq<Entry>, place: nat, visited: seq<Visited>, valueIndex: nat) {
    visited + Present(dense, place) == Present(dense, 0) && valueIndex == Rank(s.bits, place)
  }

  lemma VisitNext(s: SparseOutputs, dense: seq<Entry>, place: nat, index: nat, visited: seq<Visited>, valueIndex: nat)
    requires Holds(s, dense) && IsSet(s.bits, index) && Ranging(s, dense, place, visited, valueIndex)
    requires Rank(s.bits, place) == Rank(s.bits, index) && Present(dense, place) == Present(dense, index)
    ensures index < s.length && valueIndex < |s.values|
    ensures Ranging(s, dense, index + 1, visited + [Visited(index, s.values[valueIndex])], valueIndex + 1)
  {
    StoredEntry(s, dense, index);
    VisitOne(visited, Visited(index, dense[index]), Present(dense, index + 1));
  }

  /** One turn of the word loop: the lowest remaining bit is visited and cleared. */
  lemma RangeStep(s: SparseOutputs, dense: seq<Entry>, wordIndex: nat, word: nat, k: nat, place: nat, index: nat,
                  visited: seq<Visited>, valueIndex: nat)
    requires Holds(s, dense) && wordIndex < |s.bits| && word != 0 && Remaining(s, wordIndex, word, k)
    requires place == 64 * wordIndex + k && index == 64 * wordIndex + TrailingZeros(word)
    requires Ranging(s, dense, place, visited, valueIndex)
    ensures index < s.length && valueIndex < |s.values|
    ensures Ranging(s, dense, index + 1, visited + [Visited(index, s.values[valueIndex])], valueIndex + 1)
    ensures Remaining(s, wordIndex, ClearLowest(word), TrailingZeros(word) + 1) && ClearLowest(word) < word
  {
    LowestRemaining(s, wordIndex, word, k);
    SetInWord(s.bits, wordIndex, TrailingZeros(word), index);
    GapInWord(s, dense, wordIndex, k, TrailingZeros(word), place, index);
    VisitNext(s, dense, place, index, visited, valueIndex);
  }

  lemma SetInWord(bits: seq<nat>, wordIndex: nat, bit: nat, index: nat)
    requires wordIndex < |bits| && bit < 64 && Bit(bits[wordIndex], bit) && index == 64 * wordIndex + bit
    ensures IsSet(bits, index)
  {
    assert index / 64 == wordIndex && index % 64 == bit;
  }

  lemma WordDone(s: SparseOutputs, dense: seq<Entry>, wordIndex: nat, k: nat, place: nat, visited: seq<Visited>,
                 valueIndex: nat)
    requires Holds(s, dense) && wordIndex < |s.bits| && Remaining(s, wordIndex, 0, k) && place == 64 * wordIndex + k
    requires Ranging(s, dense, place, visited, valueIndex)
    ensures Ranging(s, dense, 64 * (wordIndex + 1), visited, valueIndex)
  {
    forall j: nat | k <= j ensures !Bit(s.bits[wordIndex], j) { ZeroHasNoBits(j); }
    GapInWord(s, dense, wordIndex, k, 64, place, 64 * (wordIndex + 1));
  }

  method RangeWord(s: SparseOutputs, wordIndex: nat, valueIndex0: nat, visited0: seq<Visited>, ghost dense: seq<Entry>)
    returns (visited: seq<Visited>, valueIndex: nat)
    requires Holds(s, dense) && wordIndex < |s.bits|
    requires Ranging(s, dense, 64 * wordIndex, visited0, valueIndex0)
    ensures Ranging(s, dense, 64 * (wordIndex + 1), visited, valueIndex)
  {
    visited, valueIndex := visited0, valueIndex0;
    var word := s.bits[wordIndex];
    ghost var k: nat, place: nat := 0, 64 * wordIndex;
    while word != 0
      invariant Remaining(s, wordIndex, word, k) && place == 64 * wordIndex + k
      invariant Ranging(s, dense, place, visited, valueIndex)
      decreases word
    {
      var bit := TrailingZeros(word);
      var index := 64 * wordIndex + bit;
      RangeStep(s, dense, wordIndex, word, k, place, index, visited, valueIndex);
      if index >= s.length {
        assert false;
        return;
      }
      visited := visited + [Visited(index, s.values[valueIndex])];
      valueIndex := valueIndex + 1;
      word := ClearLowest(word);
      k, place := bit + 1, index + 1;
    }
    WordDone(s, dense, wordIndex, k, place, visited, valueIndex);
  }

  /** Visits each non-empty node once, in increasing order. */
  method Range(s: SparseOutputs, ghost dense: seq<Entry>) returns (visited: seq<Visited>)
    requires Holds(s, dense)
    ensures visited == Present(dense, 0)
  {
    visited := [];
    var valueIndex := 0;
    for wordIndex := 0 to |s.bits|
      invariant Ranging(s, dense, 64 * wordIndex, visited, valueIndex)
    {
      visited, valueIndex := RangeWord(s, wordIndex, valueIndex, visited, dense);
    }
    assert Present(dense, 64 * |s.bits|) == [];
  }
}
