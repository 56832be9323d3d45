/** The level-order bit string: a one for each edge of a node, then a zero. */
module EdgeCounts {
  import opened Options
  import opened Bits
  import opened Packed
  import opened Varint
  import opened Tries

  const MAX_NODE_COUNT: nat := 10_000_000

  predicate BitAt(encoded: seq<byte>, k: nat) {
    k / 8 < |encoded| && Bit(encoded[k / 8], k % 8)
  }

  function ByteCount(bitCount: nat): nat {
    (bitCount + 7) / 8
  }

  /** The bytes hold these bits from the low end up, and zeros after them. */
  ghost predicate Encodes(encoded: seq<byte>, bits: seq<bool>) {
    && |encoded| == ByteCount(|bits|)
    && forall k: nat :: BitAt(encoded, k) <==> k < |bits| && bits[k]
  }

  /** The bits from edge `edge` of node `node` on. */
  function LevelBits(starts: seq<nat>, node: nat, edge: nat): seq<bool>
    decreases |starts| - node, if node + 1 < |starts| && edge < starts[node + 1] then starts[node + 1] - edge else 0
  {
    if node + 1 >= |starts| then []
    else if edge < starts[node + 1] then [true] + LevelBits(starts, node, edge + 1)
    else [false] + LevelBits(starts, node + 1, edge)
  }

  lemma {:induction false} LevelBitsLength(starts: seq<nat>, n: nat, node: nat, edge: nat)
    requires Grouped(starts, n) && node <= n && starts[node] <= edge
    requires if node < n then edge <= starts[node + 1] else edge == n - 1
    ensures |LevelBits(starts, node, edge)| == (n - node) + (n - 1 - edge)
    decreases n - node, n - edge
  {
    if node == n {
    } else {
      assert starts[node + 1] <= starts[n];
      if edge < starts[node + 1] {
        LevelBitsLength(starts, n, node, edge + 1);
      } else {
        if node + 1 < n { assert starts[node + 1] <= starts[node + 2]; }
        LevelBitsLength(starts, n, node + 1, edge);
      }
    }
  }

  // Writing --------------------------------------------------------------------

  /** Bits set so far are those of the string up to `position`. */
  ghost predicate WrittenTo(encoded: seq<byte>, bits: seq<bool>, position: nat) {
    && |encoded| == ByteCount(|bits|) && position <= |bits|
    && forall k: nat :: BitAt(encoded, k) <==> k < position && bits[k]
  }

  lemma SetOne(encoded: seq<byte>, bits: seq<bool>, position: nat)
    requires WrittenTo(encoded, bits, position) && position < |bits| && bits[position]
    ensures position / 8 < |encoded| && SetBit(encoded[position / 8], position % 8) < 0x100
    ensures WrittenTo(encoded[position / 8 := SetBit(encoded[position / 8], position % 8)], bits, position + 1)
  {
    var w: nat := encoded[position / 8];
    assert Pow2(8) == 0x100;
    SetBitBound(w, position % 8, 8);
    var encoded' := encoded[position / 8 := SetBit(w, position % 8)];
    forall k: nat ensures BitAt(encoded', k) <==> k < position + 1 && bits[k] {
      SetBitBits(w, position % 8, k % 8);
      assert k == 8 * (k / 8) + k % 8 && position == 8 * (position / 8) + position % 8;
      assert BitAt(encoded, k) <==> k < position && bits[k];
    }
  }

  lemma SkipZero(encoded: seq<byte>, bits: seq<bool>, position: nat)
    requires WrittenTo(encoded, bits, position) && position < |bits| && !bits[position]
    ensures WrittenTo(encoded, bits, position + 1)
  {
  }

  method WriteEdgeCounts(starts: seq<nat>) returns (encoded: seq<byte>)
    requires |starts| >= 2 && Grouped(starts, |starts| - 1)
    ensures Encodes(encoded, LevelBits(starts, 0, 0))
  {
    var nodeCount := |starts| - 1;
    ghost var bits := LevelBits(starts, 0, 0);
    LevelBitsLength(starts, nodeCount, 0, 0);
    var bitCount := 2 * nodeCount - 1;
    var buffer := new byte[ByteCount(bitCount)](_ => 0);
    forall k: nat ensures !BitAt(buffer[..], k) { ZeroHasNoBits(k % 8); }
    var position: nat := 0;
    for node := 0 to nodeCount
      invariant position <= |bits| && bits[position..] == LevelBits(starts, node, starts[node])
      invariant WrittenTo(buffer[..], bits, position)
    {
      position := WriteNode(starts, node, buffer, position, bits);
    }
    assert bits[position..] == [];
    encoded := buffer[..];
  }

  /** An edge still to come is a one bit. */
  lemma EdgeBit(starts: seq<nat>, node: nat, edge: nat, bits: seq<bool>, position: nat)
    requires node + 1 < |starts| && edge < starts[node + 1]
    requires position <= |bits| && bits[position..] == LevelBits(starts, node, edge)
    ensures position < |bits| && bits[position] && bits[position + 1..] == LevelBits(starts, node, edge + 1)
  {
    assert bits[position..][0] && bits[position..][1..] == bits[position + 1..];
  }

  /** A node without further edges is a zero bit. */
  lemma NodeBit(starts: seq<nat>, node: nat, bits: seq<bool>, position: nat)
    requires node + 1 < |starts|
    requires position <= |bits| && bits[position..] == LevelBits(starts, node, starts[node + 1])
    ensures position < |bits| && !bits[position]
      && bits[position + 1..] == LevelBits(starts, node + 1, starts[node + 1])
  {
    assert !bits[position..][0] && bits[position..][1..] == bits[position + 1..];
  }

  method MarkBit(buffer: array<byte>, position: nat, ghost bits: seq<bool>)
    requires WrittenTo(buffer[..], bits, position) && position < |bits| && bits[position]
    modifies buffer
    ensures WrittenTo(buffer[..], bits, position + 1)
  {
    SetOne(buffer[..], bits, position);
    ghost var before := buffer[..];
    buffer[position / 8] := SetBit(buffer[position / 8], position % 8);
    assert buffer[..] == before[position / 8 := SetBit(before[position / 8], position % 8)];
  }

  method WriteNode(starts: seq<nat>, node: nat, buffer: array<byte>, position0: nat, ghost bits: seq<bool>)
    returns (position: nat)
    requires node + 1 < |starts| && starts[node] <= starts[node + 1]
    requires WrittenTo(buffer[..], bits, position0) && bits[position0..] == LevelBits(starts, node, starts[node])
    modifies buffer
    ensures position <= |bits| && bits[position..] == LevelBits(starts, node + 1, starts[node + 1])
    ensures WrittenTo(buffer[..], bits, position)
  {
    position := position0;
    for edge := starts[node] to starts[node + 1]
      invariant position <= |bits| && bits[position..] == LevelBits(starts, node, edge)
      invariant buffer.Length == ByteCount(|bits|) && WrittenTo(buffer[..], bits, position)
    {
      EdgeBit(starts, node, edge, bits, position);
      MarkBit(buffer, position, bits);
      position := position + 1;
    }
    NodeBit(starts, node, bits, position);
    SkipZero(buffer[..], bits, position);
    position := position + 1;
  }

  // Reading ----------------------------------------------------------------------

  /** The offsets at the boundaries after `node`, if the bits from `k` on complete a trie of `n` nodes. */
  function Boundaries(bits: seq<bool>, k: nat, n: nat, node: nat, edges: nat): Option<seq<nat>>
    decreases |bits| - k
  {
    if k >= |bits| then (if node == n && edges + 1 == n then Some([]) else None)
    else if bits[k] then (if edges + 1 >= n then None else Boundaries(bits, k + 1, n, node, edges + 1))
    else if node >= n then None
    else
      match Boundaries(bits, k + 1, n, node + 1, edges)
      case None => None
      case Some(later) => Some([edges] + later)
  }

  function BitsOf(encoded: seq<byte>, bitCount: nat): seq<bool> {
    seq(bitCount, k requires 0 <= k => BitAt(encoded, k))
  }

  function Offsets(encoded: seq<byte>, nodeCount: nat, rest: seq<byte>): Read<seq<nat>>
    requires nodeCount > 0
  {
    match Boundaries(BitsOf(encoded, 2 * nodeCount - 1), 0, nodeCount, 0, 0)
    case None => Bad
    case Some(later) => Got([0] + later, rest)
  }

  /** What both readers must answer for a stream. */
  function DecodeEdgeCounts(stream: seq<byte>, nodeCount: nat): Read<seq<nat>>
    requires nodeCount > 0
  {
    var bitCount := 2 * nodeCount - 1;
    var byteCount := ByteCount(bitCount);
    if |stream| < byteCount then Bad
    else
      var encoded := stream[..byteCount];
      if bitCount % 8 != 0 && ShiftRight(encoded[byteCount - 1], bitCount % 8) != 0 then Bad
      else
        Offsets(encoded, nodeCount, stream[byteCount..])
  }

  function Prepend(done: seq<nat>, later: Option<seq<nat>>): Option<seq<nat>> {
    match later
    case None => None
    case Some(s) => Some(done + s)
  }

  /** The dense reader's loop after `position` bits. */
  ghost predicate Decoding(bits: seq<bool>, position: nat, n: nat, done: seq<nat>, edges: nat) {
    && position <= |bits| && |done| <= n && edges < n
    && Boundaries(bits, 0, n, 0, 0) == Prepend(done, Boundaries(bits, position, n, |done|, edges))
    && (forall i | 0 <= i < |done| :: done[i] <= edges)
  }

  lemma DecodeStart(bits: seq<bool>, n: nat)
    requires n > 0
    ensures Decoding(bits, 0, n, [], 0)
  {
    var all := Boundaries(bits, 0, n, 0, 0);
    if all.Some? { assert [] + all.value == all.value; }
  }

  lemma DecodeStep(bits: seq<bool>, position: nat, n: nat, done: seq<nat>, edges: nat)
    requires Decoding(bits, position, n, done, edges) && position < |bits|
    ensures bits[position] && edges + 1 < n ==> Decoding(bits, position + 1, n, done, edges + 1)
    ensures bits[position] && edges + 1 >= n ==> Boundaries(bits, 0, n, 0, 0) == None
    ensures !bits[position] && |done| < n ==> Decoding(bits, position + 1, n, done + [edges], edges)
    ensures !bits[position] && |done| >= n ==> Boundaries(bits, 0, n, 0, 0) == None
  {
    if !bits[position] && |done| < n {
      var later := Boundaries(bits, position + 1, n, |done| + 1, edges);
      if later.Some? { assert done + ([edges] + later.value) == (done + [edges]) + later.value; }
    }
  }

  lemma DecodeEnd(bits: seq<bool>, n: nat, done: seq<nat>, edges: nat)
    requires Decoding(bits, |bits|, n, done, edges)
    ensures Boundaries(bits, 0, n, 0, 0) == if |done| == n && edges + 1 == n then Some(done) else None
  {
    assert done + [] == done;
  }

  /** Takes the packed bits off the stream, or rejects a short stream or non-zero padding. */
  method ReadBits(stream: seq<byte>, nodeCount: nat) returns (r: Option<seq<byte>>)
    requires nodeCount > 0
    ensures r.None? ==> DecodeEdgeCounts(stream, nodeCount) == Bad
    ensures r.Some? ==> |r.value| == ByteCount(2 * nodeCount - 1) <= |stream| && r.value == stream[..|r.value|]
    ensures r.Some? ==> DecodeEdgeCounts(stream, nodeCount) == Offsets(r.value, nodeCount, stream[|r.value|..])
  {
    var bitCount := 2 * nodeCount - 1;
    var byteCount := ByteCount(bitCount);
    if |stream| < byteCount {
      return None;
    }
    var encoded := stream[..byteCount];
    var padding := bitCount % 8;
    if padding != 0 && ShiftRight(encoded[byteCount - 1], padding) != 0 {
      return None;
    }
    r := Some(encoded);
  }

  method ReadEdgeCounts(stream: seq<byte>, nodeCount: nat) returns (r: Read<seq<nat>>)
    requires nodeCount > 0
    ensures r == DecodeEdgeCounts(stream, nodeCount)
  {
    var read := ReadBits(stream, nodeCount);
    if read.None? {
      return Bad;
    }
    var encoded := read.value;
    var bitCount := 2 * nodeCount - 1;
    ghost var bits := BitsOf(encoded, bitCount);
    DecodeStart(bits, nodeCount);
    var later: seq<nat> := [];
    var edgeCount := 0;
    for position := 0 to bitCount
      invariant Decoding(bits, position, nodeCount, later, edgeCount)
    {
      DecodeStep(bits, position, nodeCount, later, edgeCount);
      if BitAt(encoded, position) {
        edgeCount := edgeCount + 1;
        if edgeCount >= nodeCount {
          return Bad;
        }
        continue;
      }
      if |later| >= nodeCount {
        return Bad;
      }
      later := later + [edgeCount];
    }
    DecodeEnd(bits, nodeCount, later, edgeCount);
    if |later| != nodeCount || edgeCount + 1 != nodeCount {
      return Bad;
    }
    r := Got([0] + later, stream[|encoded|..]);
  }

  // The compact reader -------------------------------------------------------------

  /** Exceptions recorded so far put every boundary where the dense reader puts it. */
  ghost predicate Recorded(done: seq<nat>, nodes: seq<nat>, corrections: seq<int>) {
    && |nodes| == |corrections| && Rising(nodes)
    && (forall i | 0 <= i < |nodes| :: nodes[i] < |done|)
    && forall b: nat {:trigger CorrectionAt(nodes, corrections, b)} | b <= |done| ::
         b + CorrectionAt(nodes, corrections, b) == if b == 0 then 0 else done[b - 1]
  }

  lemma RecordRegular(done: seq<nat>, nodes: seq<nat>, corrections: seq<int>, edges: nat)
    requires Recorded(done, nodes, corrections)
    requires edges == (if done == [] then 0 else done[|done| - 1]) + 1
    ensures Recorded(done + [edges], nodes, corrections)
  {
    var m := |done|;
    assert m + CorrectionAt(nodes, corrections, m) == if m == 0 then 0 else done[m - 1];
    assert CorrectionAt(nodes, corrections, m + 1) == CorrectionAt(nodes, corrections, m);
    forall b: nat {:trigger CorrectionAt(nodes, corrections, b)} | b <= m + 1
      ensures b + CorrectionAt(nodes, corrections, b) == if b == 0 then 0 else (done + [edges])[b - 1] { }
  }

  lemma RecordException(done: seq<nat>, nodes: seq<nat>, corrections: seq<int>, edges: nat)
    requires Recorded(done, nodes, corrections)
    ensures Recorded(done + [edges], nodes + [|done|], corrections + [edges - (|done| + 1)])
  {
    var m := |done|;
    var nodes', corrections' := nodes + [m], corrections + [edges - (m + 1)];
    assert nodes'[..|nodes|] == nodes && corrections'[..|nodes|] == corrections;
    forall b: nat {:trigger CorrectionAt(nodes', corrections', b)} | b <= m + 1
      ensures b + CorrectionAt(nodes', corrections', b) == if b == 0 then 0 else (done + [edges])[b - 1]
    {
      if b <= m { assert CorrectionAt(nodes', corrections', b) == CorrectionAt(nodes, corrections, b); }
    }
  }

  /** Notes a node whose edge count is not one. */
  method RecordNode(nodes0: seq<nat>, corrections0: seq<int>, node: nat, edgeCount: nat, previousEdgeCount: nat,
                    ghost later: seq<nat>) returns (nodes: seq<nat>, corrections: seq<int>)
    requires Recorded(later, nodes0, corrections0) && node == |later|
    requires previousEdgeCount == if node == 0 then 0 else later[node - 1]
    ensures Recorded(later + [edgeCount], nodes, corrections)
  {
    nodes, corrections := nodes0, corrections0;
    if edgeCount - previousEdgeCount != 1 {
      RecordException(later, nodes, corrections, edgeCount);
      nodes := nodes + [node];
      corrections := corrections + [edgeCount - (node + 1)];
    } else {
      RecordRegular(later, nodes, corrections, edgeCount);
    }
  }

  /** The recorded exceptions always express a table. */
  method CorrectedStarts(nodeCount: nat, nodes: seq<nat>, corrections: seq<int>, ghost later: seq<nat>)
    returns (values: seq<byte>)
    requires 0 < nodeCount == |later| <= MAX_NODE_COUNT && Recorded(later, nodes, corrections)
    requires forall i | 0 <= i < |later| :: later[i] < nodeCount
    ensures |values| == 3 * (nodeCount + 1) && Values(values) == [0] + later
  {
    var table := NewCompactEdgeStartsFromCorrections(nodeCount, nodes, corrections);
    if table.Err? {
      assert !Expressible(nodeCount, nodes, corrections);
      forall b: nat | b <= nodeCount ensures 0 <= b + CorrectionAt(nodes, corrections, b) < LIMIT24 { }
      assert false;
    }
    values := table.value;
  }

  method ReadCompactEdgeStarts(stream: seq<byte>, nodeCount: nat) returns (r: Read<seq<byte>>)
    requires 0 < nodeCount <= MAX_NODE_COUNT
    ensures r.Bad? <==> DecodeEdgeCounts(stream, nodeCount).Bad?
    ensures r.Got? ==> Got(Values(r.value), r.rest) == DecodeEdgeCounts(stream, nodeCount)
    ensures r.Got? ==> |r.value| == 3 * (nodeCount + 1)
  {
    var read := ReadBits(stream, nodeCount);
    if read.None? {
      return Bad;
    }
    var encoded := read.value;
    var bitCount := 2 * nodeCount - 1;
    ghost var bits := BitsOf(encoded, bitCount);
    DecodeStart(bits, nodeCount);
    ghost var later: seq<nat> := [];
    var nodes: seq<nat>, corrections: seq<int> := [], [];
    var node, edgeCount, previousEdgeCount := 0, 0, 0;
    for position := 0 to bitCount
      invariant Decoding(bits, position, nodeCount, later, edgeCount) && node == |later|
      invariant previousEdgeCount == if node == 0 then 0 else later[node - 1]
      invariant previousEdgeCount <= edgeCount
      invariant Recorded(later, nodes, corrections)
    {
      DecodeStep(bits, position, nodeCount, later, edgeCount);
      if BitAt(encoded, position) {
        edgeCount := edgeCount + 1;
        if edgeCount >= nodeCount {
          return Bad;
        }
        continue;
      }
      if node >= nodeCount {
        return Bad;
      }
      nodes, corrections := RecordNode(nodes, corrections, node, edgeCount, previousEdgeCount, later);
      later := later + [edgeCount];
      previousEdgeCount := edgeCount;
      node := node + 1;
    }
    DecodeEnd(bits, nodeCount, later, edgeCount);
    if node != nodeCount || edgeCount + 1 != nodeCount {
      return Bad;
    }
    var table := CorrectedStarts(nodeCount, nodes, corrections, later);
    r := Got(table, stream[|encoded|..]);
  }

  // Round trip ------------------------------------------------------------------------

  lemma {:induction false} BoundariesOfLevelBits(starts: seq<nat>, n: nat, bits: seq<bool>, k: nat, node: nat,
                                                 edge: nat)
    requires Grouped(starts, n) && node <= n && starts[node] <= edge
    requires if node < n then edge <= starts[node + 1] else edge == n - 1
    requires k <= |bits| && bits[k..] == LevelBits(starts, node, edge)
    ensures Boundaries(bits, k, n, node, edge) == Some(starts[node + 1..]) || node == n
    ensures node == n ==> Boundaries(bits, k, n, node, edge) == Some([])
    decreases n - node, n - edge
  {
    if node == n {
    } else {
      assert bits[k..][0] == bits[k] && bits[k..][1..] == bits[k + 1..];
      assert starts[node + 1] <= starts[n];
      if edge < starts[node + 1] {
        BoundariesOfLevelBits(starts, n, bits, k + 1, node, edge + 1);
      } else {
        if node + 1 < n { assert starts[node + 1] <= starts[node + 2]; }
        BoundariesOfLevelBits(starts, n, bits, k + 1, node + 1, edge);
        assert starts[node + 1..] == [starts[node + 1]] + starts[node + 2..];
      }
    }
  }

  /** The bits of the last byte past the end are zero. */
  lemma PaddingClear(encoded: seq<byte>, bits: seq<bool>)
    requires Encodes(encoded, bits) && |bits| % 8 != 0
    ensures |encoded| > 0 && ShiftRight(encoded[|encoded| - 1], |bits| % 8) == 0
  {
    var last := |encoded| - 1;
    ShiftedClear(encoded[last], |bits| % 8);
    forall j: nat | |bits| % 8 <= j ensures !Bit(encoded[last], j) {
      if j < 8 {
        assert !BitAt(encoded, 8 * last + j);
      } else {
        assert Pow2(8) == 0x100;
        BitsBelowBound(encoded[last], 8, j);
      }
    }
  }

  /** Any monotone offsets from 0 to n-1 survive being written and read. */
  lemma EdgeCountsRoundTrip(starts: seq<nat>, n: nat, encoded: seq<byte>, rest: seq<byte>)
    requires Grouped(starts, n) && Encodes(encoded, LevelBits(starts, 0, 0))
    ensures DecodeEdgeCounts(encoded + rest, n) == Got(starts, rest)
  {
    var bits, bitCount := LevelBits(starts, 0, 0), 2 * n - 1;
    LevelBitsLength(starts, n, 0, 0);
    assert (encoded + rest)[..|encoded|] == encoded && (encoded + rest)[|encoded|..] == rest;
    assert BitsOf(encoded, bitCount) == bits;
    if bitCount % 8 != 0 { PaddingClear(encoded, bits); }
    assert bits[0..] == bits;
    BoundariesOfLevelBits(starts, n, bits, 0, 0, 0);
    assert [0] + starts[1..] == starts;
  }
}
