/** Terminal heads as node gaps with values, and output chains as optional integers. */
module TerminalCodec {
  import opened Packed
  import opened Varint
  import opened Patterns
  import opened Sparse
  import opened Sequences
  import opened Picking

  datatype Terminal = Terminal(node: nat, head: nat)

  /** The nodes from `k` on that end a pattern. */
  function TerminalsFrom(dense: seq<Entry>, k: nat): seq<Terminal>
    decreases |dense| - k
  {
    if k >= |dense| then []
    else (if dense[k].head == NONE then [] else [Terminal(k, dense[k].head)]) + TerminalsFrom(dense, k + 1)
  }

  function KeepHeads(visited: seq<Visited>): seq<Terminal> {
    if visited == [] then []
    else (if visited[0].entry.head == NONE then [] else [Terminal(visited[0].index, visited[0].entry.head)])
         + KeepHeads(visited[1..])
  }

  lemma KeepFirst(visited: seq<Visited>)
    requires visited != []
    ensures visited[0].entry.head == NONE ==> KeepHeads(visited) == KeepHeads(visited[1..])
    ensures visited[0].entry.head != NONE ==>
      KeepHeads(visited) == [Terminal(visited[0].index, visited[0].entry.head)] + KeepHeads(visited[1..])
  {
  }

  lemma TerminalsUnfold(dense: seq<Entry>, k: nat)
    requires k < |dense|
    ensures dense[k].head == NONE ==> TerminalsFrom(dense, k) == TerminalsFrom(dense, k + 1)
    ensures dense[k].head != NONE ==>
      TerminalsFrom(dense, k) == [Terminal(k, dense[k].head)] + TerminalsFrom(dense, k + 1)
  {
  }

  ghost function HeadedAt(dense: seq<Entry>): nat -> bool {
    (i: nat) => i < |dense| && dense[i].head != NONE
  }

  ghost function TerminalAt(dense: seq<Entry>): (nat, Terminal) -> bool {
    (i: nat, t: Terminal) => i < |dense| && t == Terminal(i, dense[i].head)
  }

  /** The terminals are the nodes with a head, each once and in order. */
  lemma {:induction false} TerminalsPicks(dense: seq<Entry>, k: nat)
    requires k <= |dense|
    ensures Picks(k, |dense|, HeadedAt(dense), TerminalAt(dense), TerminalsFrom(dense, k))
    decreases |dense| - k
  {
    if k == |dense| {
      PicksNone(k, HeadedAt(dense), TerminalAt(dense));
    } else {
      TerminalsPicks(dense, k + 1);
      TerminalsUnfold(dense, k);
      PicksFirst(k, |dense|, HeadedAt(dense), TerminalAt(dense), TerminalsFrom(dense, k + 1),
                 if dense[k].head != NONE then [Terminal(k, dense[k].head)] else []);
    }
  }

  /** Ranging over the table and skipping entries without a head lists exactly the terminals. */
  lemma {:induction false} HeadsOfPresent(dense: seq<Entry>, k: nat)
    ensures KeepHeads(Present(dense, k)) == TerminalsFrom(dense, k)
    decreases |dense| - k
  {
    if k >= |dense| {
    } else {
      HeadsOfPresent(dense, k + 1);
      TerminalsUnfold(dense, k);
      if dense[k] != ABSENT {
        KeepFirst(Present(dense, k));
        assert Present(dense, k)[1..] == Present(dense, k + 1);
      } else {
        assert Present(dense, k) == Present(dense, k + 1);
      }
    }
  }

  function CountHeads(values: seq<Entry>): nat {
    if values == [] then 0 else CountHeads(values[..|values| - 1]) + if values[|values| - 1].head != NONE then 1 else 0
  }

  method TerminalCount(s: SparseOutputs) returns (count: nat)
    ensures count == CountHeads(s.values)
  {
    count := 0;
    for i := 0 to |s.values|
      invariant count == CountHeads(s.values[..i])
    {
      assert s.values[..i + 1][..i] == s.values[..i];
      if s.values[i].head != NONE {
        count := count + 1;
      }
    }
    assert s.values[..|s.values|] == s.values;
  }

  /** The heads among the entries stored for the first `k` nodes. */
  function HeadsBefore(s: SparseOutputs, k: nat): nat {
    var r := Rank(s.bits, k);
    CountHeads(s.values[..if r <= |s.values| then r else |s.values|])
  }

  /** One more node: a stored entry adds its head, an empty one nothing. */
  lemma CountOneMore(s: SparseOutputs, dense: seq<Entry>, k: nat)
    requires Holds(s, dense) && k < |dense|
    ensures HeadsBefore(s, k + 1) + |TerminalsFrom(dense, k + 1)| == HeadsBefore(s, k) + |TerminalsFrom(dense, k)|
  {
    RankRises(s.bits, k + 1, s.length);
    TerminalsUnfold(dense, k);
    assert Sparse.Get(s, k) == dense[k];
    if IsSet(s.bits, k) {
      StoredEntry(s, dense, k);
      var r := Rank(s.bits, k);
      assert s.values[..r + 1][..r] == s.values[..r];
    }
  }

  // Writing ------------------------------------------------------------------------

  function Gap(node: nat, previous: nat): nat {
    if node + 1 < previous then 0 else node + 1 - previous
  }

  function Pair(pair: Terminal, previous: nat): seq<byte> {
    WriteUvarint(Gap(pair.node, previous)) + WriteUvarint(pair.head)
  }

  function PairBytes(pairs: seq<Terminal>, previous: nat): seq<byte> {
    if pairs == [] then [] else Pair(pairs[0], previous) + PairBytes(pairs[1..], pairs[0].node + 1)
  }

  function TerminalBytes(pairs: seq<Terminal>): seq<byte> {
    WriteUvarint(|pairs|) + PairBytes(pairs, 0)
  }

  lemma {:induction false} TerminalsRise(dense: seq<Entry>, k: nat)
    ensures forall i | 0 <= i < |TerminalsFrom(dense, k)| :: k <= TerminalsFrom(dense, k)[i].node < |dense|
    ensures forall i, j | 0 <= i < j < |TerminalsFrom(dense, k)| ::
              TerminalsFrom(dense, k)[i].node < TerminalsFrom(dense, k)[j].node
    decreases |dense| - k
  {
    if k >= |dense| {
    } else {
      TerminalsRise(dense, k + 1);
    }
  }

  /** What is written, and what the entries from `i` on still add to it. */
  ghost predicate Writing(all: seq<byte>, written: seq<byte>, visited: seq<Visited>, i: nat, previous: nat) {
    && i <= |visited| && all == written + PairBytes(KeepHeads(visited[i..]), previous)
    && forall j | i <= j < |visited| :: previous <= visited[j].index
  }

  lemma WriteOne(all: seq<byte>, written: seq<byte>, visited: seq<Visited>, i: nat, previous: nat)
    requires Writing(all, written, visited, i, previous) && i < |visited|
    requires forall j | i < j < |visited| :: visited[i].index < visited[j].index
    ensures visited[i].entry.head == NONE ==> Writing(all, written, visited, i + 1, previous)
    ensures visited[i].entry.head != NONE ==>
      Writing(all, written + Pair(Terminal(visited[i].index, visited[i].entry.head), previous), visited, i + 1,
              visited[i].index + 1)
  {
    assert visited[i..][1..] == visited[i + 1..];
    KeepFirst(visited[i..]);
    if visited[i].entry.head != NONE {
      var t, later := Terminal(visited[i].index, visited[i].entry.head), KeepHeads(visited[i + 1..]);
      assert ([t] + later)[1..] == later;
      Regroup(written, Pair(t, previous), PairBytes(later, t.node + 1));
    }
  }

  ghost predicate Steady(f: nat -> int, k: nat) {
    f(k) == f(k + 1)
  }

  lemma {:induction false} SteadyThroughout(f: nat -> int, n: nat)
    requires forall k: nat | k < n :: Steady(f, k)
    ensures f(0) == f(n)
  {
    if n == 0 {
    } else {
      SteadyThroughout(f, n - 1);
      assert Steady(f, n - 1);
    }
  }

  /** Heads counted so far and terminals still to come add up to the same at every node. */
  lemma AllTerminalsCounted(s: SparseOutputs, dense: seq<Entry>)
    requires Holds(s, dense)
    ensures CountHeads(s.values) == |TerminalsFrom(dense, 0)|
  {
    var f := (k: nat) => HeadsBefore(s, k) + |TerminalsFrom(dense, k)|;
    forall k: nat | k < |dense| ensures Steady(f, k) { CountOneMore(s, dense, k); }
    SteadyThroughout(f, |dense|);
    assert s.values[..|s.values|] == s.values && s.values[..0] == [];
  }

  method WriteTerminalHeads(outputs: SparseOutputs, ghost dense: seq<Entry>) returns (written: seq<byte>)
    requires Holds(outputs, dense)
    ensures written == TerminalBytes(TerminalsFrom(dense, 0))
  {
    var count := TerminalCount(outputs);
    AllTerminalsCounted(outputs, dense);
    var visited := Range(outputs, dense);
    HeadsOfPresent(dense, 0);
    PresentRises(dense, 0);
    var pairs := WritePairs(visited);
    written := WriteUvarint(count) + pairs;
  }

  method WritePairs(visited: seq<Visited>) returns (written: seq<byte>)
    requires forall i, j | 0 <= i < j < |visited| :: visited[i].index < visited[j].index
    ensures written == PairBytes(KeepHeads(visited), 0)
  {
    written := [];
    var previous: nat := 0;
    ghost var all := PairBytes(KeepHeads(visited), 0);
    assert visited[0..] == visited && [] + all == all;
    for i := 0 to |visited|
      invariant Writing(all, written, visited, i, previous)
    {
      WriteOne(all, written, visited, i, previous);
      var entry := visited[i].entry;
      if entry.head != NONE {
        written := written + Pair(Terminal(visited[i].index, entry.head), previous);
        previous := visited[i].index + 1;
      }
    }
    assert visited[|visited|..] == [];
  }

  lemma {:induction false} PresentRises(dense: seq<Entry>, k: nat)
    ensures forall i | 0 <= i < |Present(dense, k)| :: k <= Present(dense, k)[i].index
    ensures forall i, j | 0 <= i < j < |Present(dense, k)| :: Present(dense, k)[i].index < Present(dense, k)[j].index
    decreases |dense| - k
  {
    if k >= |dense| {
    } else {
      PresentRises(dense, k + 1);
    }
  }

  // Reading ------------------------------------------------------------------------

  /** One gap and value; a gap of zero or past the last node is malformed. */
  function ReadPair(stream: seq<byte>, previous: nat, nodeCount: nat): Read<Terminal> {
    match ReadUvarint(stream)
    case Bad => Bad
    case Got(gap, afterGap) =>
      if gap == 0 || gap + previous > nodeCount then Bad
      else
        match ReadUint32(afterGap)
        case Bad => Bad
        case Got(head, rest) => Got(Terminal(previous + gap - 1, head), rest)
  }

  function PairsFrom(stream: seq<byte>, count: nat, previous: nat, nodeCount: nat): Read<seq<Terminal>>
    decreases count
  {
    if count == 0 then Got([], stream)
    else
      match ReadPair(stream, previous, nodeCount)
      case Bad => Bad
      case Got(pair, afterPair) =>
        match PairsFrom(afterPair, count - 1, pair.node + 1, nodeCount)
        case Bad => Bad
        case Got(pairs, rest) => Got([pair] + pairs, rest)
  }

  function DecodeTerminals(stream: seq<byte>, nodeCount: nat): Read<seq<Terminal>> {
    match ReadCount(stream, nodeCount)
    case Bad => Bad
    case Got(count, rest) => PairsFrom(rest, count, 0, nodeCount)
  }

  function NodesOf(pairs: seq<Terminal>): seq<nat> {
    seq(|pairs|, i requires 0 <= i < |pairs| => pairs[i].node)
  }

  function HeadsIn(pairs: seq<Terminal>): seq<nat> {
    seq(|pairs|, i requires 0 <= i < |pairs| => pairs[i].head)
  }

  function HeadAt(pairs: seq<Terminal>, k: nat): nat {
    if pairs == [] then NONE else if pairs[0].node == k then pairs[0].head else HeadAt(pairs[1..], k)
  }

  /** The node table the pairs describe: their heads, and no links. */
  function TableOf(pairs: seq<Terminal>, nodeCount: nat): seq<Entry> {
    seq(nodeCount, k requires 0 <= k => Entry(NONE, HeadAt(pairs, k)))
  }

  ghost predicate PairsRise(pairs: seq<Terminal>, from: nat, nodeCount: nat) {
    && (forall i, j | 0 <= i < j < |pairs| :: pairs[i].node < pairs[j].node)
    && (forall i | 0 <= i < |pairs| :: from <= pairs[i].node < nodeCount)
  }

  lemma {:induction false} DecodedRise(stream: seq<byte>, count: nat, previous: nat, nodeCount: nat)
    requires PairsFrom(stream, count, previous, nodeCount).Got?
    ensures PairsRise(PairsFrom(stream, count, previous, nodeCount).value, previous, nodeCount)
    ensures |PairsFrom(stream, count, previous, nodeCount).value| == count
    decreases count
  {
    if count == 0 {
    } else {
      var pair := ReadPair(stream, previous, nodeCount);
      DecodedRise(pair.rest, count - 1, pair.value.node + 1, nodeCount);
    }
  }

  lemma {:induction false} HeadAtPlace(pairs: seq<Terminal>, from: nat, nodeCount: nat, k: nat)
    requires PairsRise(pairs, from, nodeCount)
    ensures forall i | 0 <= i < |pairs| && pairs[i].node == k :: HeadAt(pairs, k) == pairs[i].head
    ensures (forall i | 0 <= i < |pairs| :: pairs[i].node != k) ==> HeadAt(pairs, k) == NONE
  {
    if pairs == [] {
    } else {
      HeadAtPlace(pairs[1..], from, nodeCount, k);
    }
  }

  lemma TableIsScattered(pairs: seq<Terminal>, nodeCount: nat)
    requires PairsRise(pairs, 0, nodeCount)
    ensures Scattered(TableOf(pairs, nodeCount), NodesOf(pairs), HeadsIn(pairs))
  {
    var nodes := NodesOf(pairs);
    forall i | 0 <= i < |nodes| ensures TableOf(pairs, nodeCount)[nodes[i]] == Entry(NONE, HeadsIn(pairs)[i]) {
      HeadAtPlace(pairs, 0, nodeCount, nodes[i]);
    }
    forall k: nat | k < nodeCount && k !in nodes ensures TableOf(pairs, nodeCount)[k] == ABSENT {
      HeadAtPlace(pairs, 0, nodeCount, k);
      forall i | 0 <= i < |pairs| ensures pairs[i].node != k { assert nodes[i] in nodes; }
    }
  }

  method ReadTerminalHeads(stream: seq<byte>, nodeCount: nat) returns (r: Read<SparseOutputs>)
    ensures r.Bad? <==> DecodeTerminals(stream, nodeCount).Bad?
    ensures r.Got? ==> r.rest == DecodeTerminals(stream, nodeCount).rest
    ensures r.Got? ==> Holds(r.value, TableOf(DecodeTerminals(stream, nodeCount).value, nodeCount))
  {
    var count := ReadCount(stream, nodeCount);
    if count.Bad? {
      return Bad;
    }
    var pairs := ReadPairs(count.rest, count.value, nodeCount);
    if pairs.Bad? {
      return Bad;
    }
    DecodedRise(count.rest, count.value, 0, nodeCount);
    TableIsScattered(pairs.value, nodeCount);
    var table :=
      NewSparseTerminalHeads(nodeCount, NodesOf(pairs.value), HeadsIn(pairs.value), TableOf(pairs.value, nodeCount));
    r := Got(table, pairs.rest);
  }

  function Continue(done: seq<Terminal>, later: Read<seq<Terminal>>): Read<seq<Terminal>> {
    match later
    case Bad => Bad
    case Got(pairs, rest) => Got(done + pairs, rest)
  }

  method ReadPairs(stream: seq<byte>, count: nat, nodeCount: nat) returns (r: Read<seq<Terminal>>)
    ensures r == PairsFrom(stream, count, 0, nodeCount)
  {
    var pairs: seq<Terminal>, rest, previous: nat := [], stream, 0;
    ghost var all := PairsFrom(stream, count, 0, nodeCount);
    if all.Got? { assert [] + all.value == all.value; }
    for i := 0 to count
      invariant previous <= nodeCount
      invariant all == Continue(pairs, PairsFrom(rest, count - i, previous, nodeCount))
    {
      var gap := ReadUvarint(rest);
      if gap.Bad? || gap.value == 0 || gap.value > nodeCount - previous {
        return Bad;
      }
      var current := previous + gap.value;
      var head := ReadUint32(gap.rest);
      if head.Bad? {
        return Bad;
      }
      ContinueOne(pairs, Terminal(current - 1, head.value), PairsFrom(head.rest, count - i - 1, current, nodeCount));
      pairs := pairs + [Terminal(current - 1, head.value)];
      rest, previous := head.rest, current;
    }
    assert pairs + [] == pairs;
    r := Got(pairs, rest);
  }

  lemma ContinueOne(done: seq<Terminal>, t: Terminal, later: Read<seq<Terminal>>)
    ensures later.Got? ==> done + ([t] + later.value) == (done + [t]) + later.value
  {
  }

  // Round trip ---------------------------------------------------------------------

  ghost predicate WritablePairs(pairs: seq<Terminal>, previous: nat, nodeCount: nat) {
    && PairsRise(pairs, previous, nodeCount) && previous <= nodeCount < LIMIT32
    && forall i | 0 <= i < |pairs| :: pairs[i].head < LIMIT32
  }

  lemma PairRoundTrip(pair: Terminal, previous: nat, nodeCount: nat, later: seq<byte>)
    requires previous <= pair.node < nodeCount < LIMIT32 && pair.head < LIMIT32
    ensures ReadPair(Pair(pair, previous) + later, previous, nodeCount) == Got(pair, later)
  {
    var gap := Gap(pair.node, previous);
    Regroup(WriteUvarint(gap), WriteUvarint(pair.head), later);
    UvarintRoundTrip(gap, WriteUvarint(pair.head) + later);
    UvarintRoundTrip(pair.head, later);
  }

  lemma ConsPairs(stream: seq<byte>, pair: Terminal, later: seq<byte>, pairs: seq<Terminal>, rest: seq<byte>,
                  previous: nat, nodeCount: nat)
    requires ReadPair(stream, previous, nodeCount) == Got(pair, later)
    requires PairsFrom(later, |pairs|, pair.node + 1, nodeCount) == Got(pairs, rest)
    ensures PairsFrom(stream, |pairs| + 1, previous, nodeCount) == Got([pair] + pairs, rest)
  {
  }

  lemma FirstPair(pairs: seq<Terminal>, previous: nat, nodeCount: nat, rest: seq<byte>)
    requires pairs != [] && previous <= pairs[0].node < nodeCount < LIMIT32 && pairs[0].head < LIMIT32
    ensures ReadPair(PairBytes(pairs, previous) + rest, previous, nodeCount)
              == Got(pairs[0], PairBytes(pairs[1..], pairs[0].node + 1) + rest)
  {
    Regroup(Pair(pairs[0], previous), PairBytes(pairs[1..], pairs[0].node + 1), rest);
    PairRoundTrip(pairs[0], previous, nodeCount, PairBytes(pairs[1..], pairs[0].node + 1) + rest);
  }

  lemma WritableTail(pairs: seq<Terminal>, previous: nat, nodeCount: nat)
    requires WritablePairs(pairs, previous, nodeCount) && pairs != []
    ensures previous <= pairs[0].node < nodeCount && pairs[0].head < LIMIT32
    ensures WritablePairs(pairs[1..], pairs[0].node + 1, nodeCount) && [pairs[0]] + pairs[1..] == pairs
  {
  }

  lemma MorePairs(stream: seq<byte>, pairs: seq<Terminal>, tail: seq<Terminal>, later: seq<byte>, previous: nat,
                  nodeCount: nat, rest: seq<byte>)
    requires WritablePairs(pairs, previous, nodeCount) && stream == PairBytes(pairs, previous) + rest
    requires pairs != [] && tail == pairs[1..] && later == PairBytes(tail, pairs[0].node + 1) + rest
    requires PairsFrom(later, |tail|, pairs[0].node + 1, nodeCount) == Got(tail, rest)
    ensures PairsFrom(stream, |pairs|, previous, nodeCount) == Got(pairs, rest)
  {
    WritableTail(pairs, previous, nodeCount);
    FirstPair(pairs, previous, nodeCount, rest);
    ConsPairs(stream, pairs[0], later, tail, rest, previous, nodeCount);
  }

  lemma {:induction false} PairsRoundTrip(stream: seq<byte>, pairs: seq<Terminal>, previous: nat, nodeCount: nat,
                                          rest: seq<byte>)
    requires WritablePairs(pairs, previous, nodeCount) && stream == PairBytes(pairs, previous) + rest
    ensures PairsFrom(stream, |pairs|, previous, nodeCount) == Got(pairs, rest)
    decreases |pairs|
  {
    if pairs == [] {
    } else {
      WritableTail(pairs, previous, nodeCount);
      var tail, later := pairs[1..], PairBytes(pairs[1..], pairs[0].node + 1) + rest;
      PairsRoundTrip(later, tail, pairs[0].node + 1, nodeCount, rest);
      MorePairs(stream, pairs, tail, later, previous, nodeCount, rest);
    }
  }

  lemma {:induction false} PairsFew(pairs: seq<Terminal>, from: nat, nodeCount: nat)
    requires PairsRise(pairs, from, nodeCount) && from <= nodeCount
    ensures |pairs| <= nodeCount - from
  {
    if pairs == [] {
    } else {
      PairsFew(pairs[1..], pairs[0].node + 1, nodeCount);
    }
  }

  /** Any rising list of terminal nodes survives being written and read. */
  lemma TerminalsRoundTrip(pairs: seq<Terminal>, nodeCount: nat, rest: seq<byte>)
    requires WritablePairs(pairs, 0, nodeCount)
    ensures DecodeTerminals(TerminalBytes(pairs) + rest, nodeCount) == Got(pairs, rest)
  {
    PairsFew(pairs, 0, nodeCount);
    assert TerminalBytes(pairs) + rest == WriteUvarint(|pairs|) + (PairBytes(pairs, 0) + rest);
    UvarintRoundTrip(|pairs|, PairBytes(pairs, 0) + rest);
    PairsRoundTrip(PairBytes(pairs, 0) + rest, pairs, 0, nodeCount, rest);
  }

  /** The table read back holds every head where it was, without links. */
  lemma {:induction false} TableOfTerminals(dense: seq<Entry>, k: nat, j: nat)
    requires k <= j < |dense|
    ensures HeadAt(TerminalsFrom(dense, k), j) == dense[j].head
    decreases |dense| - k
  {
    TerminalsUnfold(dense, k);
    if k < j {
      TableOfTerminals(dense, k + 1, j);
      HeadPastFirst(dense, k, j);
    } else if dense[k].head == NONE {
      HeadAtAbsent(dense, k + 1, j);
    }
  }

  lemma HeadPastFirst(dense: seq<Entry>, k: nat, j: nat)
    requires k < |dense| && j != k
    ensures HeadAt(TerminalsFrom(dense, k), j) == HeadAt(TerminalsFrom(dense, k + 1), j)
  {
    TerminalsUnfold(dense, k);
    if dense[k].head != NONE { assert TerminalsFrom(dense, k)[1..] == TerminalsFrom(dense, k + 1); }
  }

  lemma {:induction false} HeadAtAbsent(dense: seq<Entry>, k: nat, j: nat)
    requires j < k
    ensures HeadAt(TerminalsFrom(dense, k), j) == NONE
    decreases |dense| - k
  {
    if k >= |dense| {
    } else {
      HeadAtAbsent(dense, k + 1, j);
      HeadPastFirst(dense, k, j);
    }
  }

  // Optional integers ----------------------------------------------------------------

  function OptionalBytes(values: seq<nat>): seq<byte> {
    if values == [] then []
    else Optional(values[0]) + OptionalBytes(values[1..])
  }

  function OptionalsFrom(stream: seq<byte>, count: nat): Read<seq<nat>>
    decreases count
  {
    if count == 0 then Got([], stream)
    else
      match ReadUvarint(stream)
      case Bad => Bad
      case Got(value, rest) =>
        if value > LIMIT32 then Bad
        else
          match OptionalsFrom(rest, count - 1)
          case Bad => Bad
          case Got(values, last) => Got([if value == 0 then NONE else value - 1] + values, last)
  }

  function Optional(value: nat): seq<byte> {
    WriteUvarint(if value == NONE then 0 else value + 1)
  }

  lemma OptionalsUnfold(written: seq<byte>, values: seq<nat>, i: nat)
    requires i < |values|
    ensures written + OptionalBytes(values[i..]) == written + Optional(values[i]) + OptionalBytes(values[i + 1..])
  {
    assert values[i..][1..] == values[i + 1..];
  }

  method WriteOptionals(values: seq<nat>) returns (written: seq<byte>)
    ensures written == OptionalBytes(values)
  {
    written := [];
    ghost var all := OptionalBytes(values);
    assert values[0..] == values;
    for i := 0 to |values|
      invariant all == written + OptionalBytes(values[i..])
    {
      OptionalsUnfold(written, values, i);
      written := written + Optional(values[i]);
    }
    assert values[|values|..] == [];
  }

  function ContinueValues(done: seq<nat>, later: Read<seq<nat>>): Read<seq<nat>> {
    match later
    case Bad => Bad
    case Got(values, rest) => Got(done + values, rest)
  }

  method ReadOptionals(stream: seq<byte>, count: nat) returns (r: Read<seq<nat>>)
    ensures r == OptionalsFrom(stream, count)
  {
    var values: seq<nat>, rest := [], stream;
    ghost var all := OptionalsFrom(stream, count);
    if all.Got? { assert [] + all.value == all.value; }
    for i := 0 to count
      invariant all == ContinueValues(values, OptionalsFrom(rest, count - i))
    {
      var value := ReadUvarint(rest);
      if value.Bad? || value.value > LIMIT32 {
        return Bad;
      }
      var next: nat := if value.value == 0 then NONE else value.value - 1;
      ContinueValue(values, next, OptionalsFrom(value.rest, count - i - 1));
      values := values + [next];
      rest := value.rest;
    }
    assert values + [] == values;
    r := Got(values, rest);
  }

  lemma ContinueValue(done: seq<nat>, value: nat, later: Read<seq<nat>>)
    ensures later.Got? ==> done + ([value] + later.value) == (done + [value]) + later.value
  {
  }

  lemma {:induction false} OptionalsRoundTrip(values: seq<nat>, rest: seq<byte>)
    requires forall i | 0 <= i < |values| :: values[i] <= NONE
    ensures OptionalsFrom(OptionalBytes(values) + rest, |values|) == Got(values, rest)
  {
    if values == [] {
      assert OptionalBytes([]) + rest == rest;
    } else {
      var value := if values[0] == NONE then 0 else values[0] + 1;
      Regroup(Optional(values[0]), OptionalBytes(values[1..]), rest);
      UvarintRoundTrip(value, OptionalBytes(values[1..]) + rest);
      OptionalsRoundTrip(values[1..], rest);
      assert values == [values[0]] + values[1..];
    }
  }
}
