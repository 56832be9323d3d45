/** Edge tokens as differences along each node's edges, in two or four bytes. */
module EdgeTokens {
  import opened Options
  import opened Packed
  import opened Varint
  import opened Tries
  import opened Sequences

  const SHORT: nat := 16
  const FULL: nat := 32

  function LittleEndian(value: nat, bytes: nat): (b: seq<byte>)
    ensures |b| == bytes
  {
    if bytes == 0 then [] else [value % 0x100] + LittleEndian(value / 0x100, bytes - 1)
  }

  function FromLittleEndian(b: seq<byte>): nat {
    if b == [] then 0
    else
      var low: nat := b[0];
      low + 0x100 * FromLittleEndian(b[1..])
  }

  function Span(bytes: nat): nat {
    if bytes == 0 then 1 else 0x100 * Span(bytes - 1)
  }

  lemma {:induction false} LittleEndianRoundTrip(value: nat, bytes: nat)
    requires value < Span(bytes)
    ensures FromLittleEndian(LittleEndian(value, bytes)) == value
  {
    if bytes == 0 {
    } else {
      assert LittleEndian(value, bytes)[1..] == LittleEndian(value / 0x100, bytes - 1);
      LittleEndianRoundTrip(value / 0x100, bytes - 1);
    }
  }

  /** The 32-bit difference from the previous edge of the same node. */
  function DeltaAt(starts: seq<nat>, tokens: seq<nat>, node: nat, edge: nat): nat
    requires node < |starts| && edge < |tokens|
  {
    var previous := if edge == 0 || edge <= starts[node] then 0 else tokens[edge - 1];
    (tokens[edge] + LIMIT32 - previous % LIMIT32) % LIMIT32
  }

  function Left(starts: seq<nat>, node: nat, edge: nat): nat {
    if node + 1 < |starts| && edge < starts[node + 1] then starts[node + 1] - edge else 0
  }

  function MaxDelta(starts: seq<nat>, tokens: seq<nat>, node: nat, edge: nat): nat
    decreases |starts| - node, Left(starts, node, edge)
  {
    if node + 1 >= |starts| then 0
    else if edge < starts[node + 1] && edge < |tokens| then
      var later := MaxDelta(starts, tokens, node, edge + 1);
      var delta := DeltaAt(starts, tokens, node, edge);
      if delta < later then later else delta
    else MaxDelta(starts, tokens, node + 1, edge)
  }

  function WidthFor(maxDelta: nat): nat {
    if maxDelta == 0 then 0 else if maxDelta < 0x1_0000 then SHORT else FULL
  }

  /** The bytes of edge `edge` of node `node` and everything after it. */
  function TokenBytes(starts: seq<nat>, tokens: seq<nat>, node: nat, edge: nat, byteWidth: nat): seq<byte>
    decreases |starts| - node, Left(starts, node, edge)
  {
    if node + 1 >= |starts| then []
    else if edge < starts[node + 1] && edge < |tokens| then
      LittleEndian(DeltaAt(starts, tokens, node, edge), byteWidth)
        + TokenBytes(starts, tokens, node, edge + 1, byteWidth)
    else TokenBytes(starts, tokens, node + 1, edge, byteWidth)
  }

  ghost predicate At(starts: seq<nat>, n: nat, node: nat, edge: nat) {
    && Grouped(starts, n) && node <= n && starts[node] <= edge
    && if node < n then edge <= starts[node + 1] else edge == n - 1
  }

  lemma NextNode(starts: seq<nat>, n: nat, node: nat)
    requires Grouped(starts, n) && node < n
    ensures At(starts, n, node + 1, starts[node + 1]) && starts[node + 1] <= n - 1
  {
  }

  lemma {:induction false} TokenBytesLength(starts: seq<nat>, tokens: seq<nat>, n: nat, node: nat, edge: nat,
                                            byteWidth: nat)
    requires At(starts, n, node, edge) && |tokens| == n - 1 && KnownWidth(byteWidth)
    ensures |TokenBytes(starts, tokens, node, edge, byteWidth)| == Size(n - 1 - edge, byteWidth)
    decreases n - node, n - edge
  {
    if node == n {
    } else {
      NextNode(starts, n, node);
      if edge < starts[node + 1] {
        TokenBytesLength(starts, tokens, n, node, edge + 1, byteWidth);
        assert TokenBytes(starts, tokens, node, edge, byteWidth) ==
          LittleEndian(DeltaAt(starts, tokens, node, edge), byteWidth)
            + TokenBytes(starts, tokens, node, edge + 1, byteWidth);
      } else {
        TokenBytesLength(starts, tokens, n, node + 1, edge, byteWidth);
      }
    }
  }

  /** `count * byteWidth` for the widths in use. */
  function Size(count: nat, byteWidth: nat): nat {
    if byteWidth == 4 then 4 * count else if byteWidth == 2 then 2 * count else 0
  }

  predicate KnownWidth(byteWidth: nat) {
    byteWidth == 0 || byteWidth == 2 || byteWidth == 4
  }

  // Writing ----------------------------------------------------------------------

  method LargestDelta(starts: seq<nat>, tokens: seq<nat>) returns (maxDelta: nat)
    requires |starts| >= 2 && Grouped(starts, |starts| - 1) && |tokens| == |starts| - 2
    ensures maxDelta == MaxDelta(starts, tokens, 0, 0)
  {
    maxDelta := 0;
    for node := 0 to |starts| - 1
      invariant Max(maxDelta, MaxDelta(starts, tokens, node, starts[node])) == MaxDelta(starts, tokens, 0, 0)
    {
      var previous: nat := 0;
      NextNode(starts, |starts| - 1, node);
      for edge := starts[node] to starts[node + 1]
        invariant previous == if edge == starts[node] then 0 else tokens[edge - 1]
        invariant Max(maxDelta, MaxDelta(starts, tokens, node, edge)) == MaxDelta(starts, tokens, 0, 0)
      {
        var delta := (tokens[edge] + LIMIT32 - previous % LIMIT32) % LIMIT32;
        maxDelta := Max(maxDelta, delta);
        previous := tokens[edge];
      }
    }
  }

  function Max(a: nat, b: nat): nat {
    if a < b then b else a
  }

  /** Writes one number at a position of the buffer. */
  method PutDelta(buffer: array<byte>, position: nat, delta: nat, byteWidth: nat)
    requires position + byteWidth <= buffer.Length
    modifies buffer
    ensures buffer[..] == old(buffer[..position]) + LittleEndian(delta, byteWidth) + old(buffer[position + byteWidth..])
  {
    var value: nat := delta;
    ghost var all := LittleEndian(delta, byteWidth);
    for i := 0 to byteWidth
      invariant all == buffer[position..position + i] + LittleEndian(value, byteWidth - i)
      invariant buffer[..position] == old(buffer[..position])
      invariant buffer[position + i..] == old(buffer[position + i..])
    {
      ghost var before := buffer[position..position + i];
      buffer[position + i] := value % 0x100;
      assert buffer[position..position + i + 1] == before + [buffer[position + i]];
      value := value / 0x100;
    }
    assert buffer[..] == buffer[..position] + buffer[position..position + byteWidth] + buffer[position + byteWidth..];
  }

  method WriteEdgeTokens(starts: seq<nat>, tokens: seq<nat>) returns (written: seq<byte>)
    requires |starts| >= 2 && Grouped(starts, |starts| - 1) && |tokens| == |starts| - 2
    ensures var width := WidthFor(MaxDelta(starts, tokens, 0, 0));
      written == WriteUvarint(width) + TokenBytes(starts, tokens, 0, 0, width / 8)
  {
    var maxDelta := LargestDelta(starts, tokens);
    var width := WidthFor(maxDelta);
    var byteWidth := width / 8;
    ghost var all := TokenBytes(starts, tokens, 0, 0, byteWidth);
    TokenBytesLength(starts, tokens, |starts| - 1, 0, 0, byteWidth);
    var encoded := new byte[Size(|tokens|, byteWidth)](_ => 0);
    var position: nat := 0;
    for node := 0 to |starts| - 1
      invariant Written(starts, tokens, node, starts[node], byteWidth, encoded[..], position, all)
    {
      NextNode(starts, |starts| - 1, node);
      position := WriteNodeTokens(starts, tokens, node, encoded, position, byteWidth, all);
    }
    assert encoded[..position] == encoded[..];
    written := WriteUvarint(width) + encoded[..];
  }

  lemma NextToken(all: seq<byte>, before: seq<byte>, starts: seq<nat>, tokens: seq<nat>, node: nat, edge: nat,
                  byteWidth: nat)
    requires Owns(starts, node, edge) && edge < |tokens|
      && all == before + TokenBytes(starts, tokens, node, edge, byteWidth)
    ensures all == before + LittleEndian(DeltaAt(starts, tokens, node, edge), byteWidth)
                   + TokenBytes(starts, tokens, node, edge + 1, byteWidth)
    ensures |before| + byteWidth <= |all|
  {
    BytesInFront(starts, tokens, node, edge, byteWidth);
    Regroup(before, LittleEndian(DeltaAt(starts, tokens, node, edge), byteWidth),
            TokenBytes(starts, tokens, node, edge + 1, byteWidth));
  }

  /** The bytes before `position` and those of the edges still to come are the whole encoding. */
  ghost predicate Written(starts: seq<nat>, tokens: seq<nat>, node: nat, edge: nat, byteWidth: nat, encoded: seq<byte>,
                          position: nat, all: seq<byte>) {
    && |encoded| == |all| && position <= |all|
    && all == encoded[..position] + TokenBytes(starts, tokens, node, edge, byteWidth)
  }

  lemma NextNodeWritten(starts: seq<nat>, tokens: seq<nat>, node: nat, byteWidth: nat, encoded: seq<byte>,
                        position: nat, all: seq<byte>)
    requires node + 1 < |starts| && Written(starts, tokens, node, starts[node + 1], byteWidth, encoded, position, all)
    ensures Written(starts, tokens, node + 1, starts[node + 1], byteWidth, encoded, position, all)
  {
  }

  method WriteToken(starts: seq<nat>, tokens: seq<nat>, node: nat, edge: nat, delta: nat, encoded: array<byte>,
                    position: nat, byteWidth: nat, ghost all: seq<byte>)
    requires Owns(starts, node, edge) && edge < |tokens| && delta == DeltaAt(starts, tokens, node, edge)
    requires Written(starts, tokens, node, edge, byteWidth, encoded[..], position, all)
    modifies encoded
    ensures Written(starts, tokens, node, edge + 1, byteWidth, encoded[..], position + byteWidth, all)
  {
    ghost var before := encoded[..position];
    assert encoded[..][..position] == before;
    NextToken(all, before, starts, tokens, node, edge, byteWidth);
    PutDelta(encoded, position, delta, byteWidth);
    assert encoded[..][..position + byteWidth] == before + LittleEndian(delta, byteWidth);
  }

  method WriteNodeTokens(starts: seq<nat>, tokens: seq<nat>, node: nat, encoded: array<byte>, position0: nat,
                         byteWidth: nat, ghost all: seq<byte>) returns (position: nat)
    requires node + 1 < |starts| && starts[node] <= starts[node + 1] <= |tokens|
    requires Written(starts, tokens, node, starts[node], byteWidth, encoded[..], position0, all)
    modifies encoded
    ensures Written(starts, tokens, node + 1, starts[node + 1], byteWidth, encoded[..], position, all)
  {
    position := position0;
    var previous: nat := 0;
    for edge := starts[node] to starts[node + 1]
      invariant previous == if edge == starts[node] then 0 else tokens[edge - 1]
      invariant Written(starts, tokens, node, edge, byteWidth, encoded[..], position, all)
    {
      var delta := (tokens[edge] + LIMIT32 - previous % LIMIT32) % LIMIT32;
      WriteToken(starts, tokens, node, edge, delta, encoded, position, byteWidth, all);
      position := position + byteWidth;
      previous := tokens[edge];
    }
    NextNodeWritten(starts, tokens, node, byteWidth, encoded[..], position, all);
  }

  // Reading ------------------------------------------------------------------------

  /** Tokens from edge `edge` on, or nothing if a difference is zero or leads past the largest token. */
  function TokensFrom(encoded: seq<byte>, starts: seq<nat>, node: nat, edge: nat, previous: nat,
                      byteWidth: nat, maxToken: nat): Option<seq<nat>>
    decreases |starts| - node, Left(starts, node, edge)
  {
    if node + 1 >= |starts| then Some([])
    else if edge < starts[node + 1] then
      if |encoded| < byteWidth then None
      else
        var delta := FromLittleEndian(encoded[..byteWidth]);
        if delta == 0 || previous + delta > maxToken then None
        else
          match TokensFrom(encoded[byteWidth..], starts, node, edge + 1, previous + delta, byteWidth, maxToken)
          case None => None
          case Some(later) => Some([previous + delta] + later)
    else TokensFrom(encoded, starts, node + 1, edge, 0, byteWidth, maxToken)
  }

  function DecodeEdgeTokens(stream: seq<byte>, starts: seq<nat>, maxToken: nat): Read<seq<nat>>
    requires starts != []
  {
    var edgeCount := starts[|starts| - 1];
    match ReadUint32(stream)
    case Bad => Bad
    case Got(width, rest) =>
      if ((width != SHORT && width != FULL) || edgeCount == 0) && (edgeCount != 0 || width != 0) then Bad
      else
        var size := Size(edgeCount, width / 8);
        if |rest| < size then Bad
        else
          match TokensFrom(rest[..size], starts, 0, 0, 0, width / 8, maxToken)
          case None => Bad
          case Some(tokens) => Got(tokens, rest[size..])
  }

  /** Offsets as the readers of edge counts leave them: rising from zero, though perhaps not to the last edge. */
  ghost predicate RisingOffsets(starts: seq<nat>) {
    |starts| >= 2 && starts[0] == 0 && forall i, j | 0 <= i <= j < |starts| :: starts[i] <= starts[j]
  }

  function Joined(done: seq<nat>, later: Option<seq<nat>>): Option<seq<nat>> {
    match later
    case None => None
    case Some(s) => Some(done + s)
  }

  method ReadEdgeTokens(stream: seq<byte>, starts: seq<nat>, maxToken: nat) returns (r: Read<seq<nat>>)
    requires RisingOffsets(starts)
    ensures r == DecodeEdgeTokens(stream, starts, maxToken)
    ensures r.Got? ==> |r.value| == starts[|starts| - 1]
  {
    var edgeCount := starts[|starts| - 1];
    var read := ReadUint32(stream);
    if read.Bad? {
      return Bad;
    }
    var width := read.value;
    if (width != SHORT && width != FULL) || edgeCount == 0 {
      if edgeCount != 0 || width != 0 {
        return Bad;
      }
    }
    var byteWidth := width / 8;
    var size := Size(edgeCount, byteWidth);
    if |read.rest| < size {
      return Bad;
    }
    var tokens := ReadAllTokens(read.rest[..size], starts, byteWidth, maxToken);
    if tokens.None? {
      return Bad;
    }
    r := Got(tokens.value, read.rest[size..]);
  }

  method ReadAllTokens(encoded: seq<byte>, starts: seq<nat>, byteWidth: nat, maxToken: nat)
    returns (r: Option<seq<nat>>)
    requires RisingOffsets(starts) && KnownWidth(byteWidth)
    requires |encoded| == Size(starts[|starts| - 1], byteWidth)
    ensures r == TokensFrom(encoded, starts, 0, 0, 0, byteWidth, maxToken)
    ensures r.Some? ==> |r.value| == starts[|starts| - 1]
  {
    var tokens: seq<nat> := [];
    ghost var all := TokensFrom(encoded, starts, 0, 0, 0, byteWidth, maxToken);
    JoinNothing(all);
    assert encoded[0..] == encoded;
    for node := 0 to |starts| - 1
      invariant Size(starts[node], byteWidth) <= |encoded|
      invariant |tokens| == starts[node]
      invariant all == Joined(tokens, TokensFrom(encoded[Size(starts[node], byteWidth)..], starts, node, starts[node],
                                                 0, byteWidth, maxToken))
    {
      var more := ReadNodeTokens(encoded, starts, node, tokens, byteWidth, maxToken, all);
      if more.None? {
        return None;
      }
      tokens := more.value;
    }
    JoinNothing(Some(tokens));
    r := Some(tokens);
  }

  lemma JoinNothing(all: Option<seq<nat>>)
    ensures Joined([], all) == all
    ensures all.Some? ==> Joined(all.value, Some([])) == all
  {
    if all.Some? { assert [] + all.value == all.value && all.value + [] == all.value; }
  }

  method ReadNodeTokens(encoded: seq<byte>, starts: seq<nat>, node: nat, tokens0: seq<nat>,
                        byteWidth: nat, maxToken: nat, ghost all: Option<seq<nat>>) returns (r: Option<seq<nat>>)
    requires RisingOffsets(starts) && node < |starts| - 1 && KnownWidth(byteWidth)
    requires |encoded| == Size(starts[|starts| - 1], byteWidth) && |tokens0| == starts[node]
    requires Size(starts[node], byteWidth) <= |encoded|
    requires all == Joined(tokens0,
               TokensFrom(encoded[Size(starts[node], byteWidth)..], starts, node, starts[node], 0, byteWidth, maxToken))
    ensures r.None? ==> all == None
    ensures r.Some? ==> |r.value| == starts[node + 1] && Size(starts[node + 1], byteWidth) <= |encoded|
    ensures r.Some? ==> all == Joined(r.value,
              TokensFrom(encoded[Size(starts[node + 1], byteWidth)..], starts, node + 1, starts[node + 1], 0,
                         byteWidth, maxToken))
  {
    var tokens, position: nat, previous: nat := tokens0, Size(starts[node], byteWidth), 0;
    assert starts[node + 1] <= starts[|starts| - 1];
    for edge := starts[node] to starts[node + 1]
      invariant |tokens| == edge && position == Size(edge, byteWidth) <= |encoded|
      invariant all == Joined(tokens, TokensFrom(encoded[position..], starts, node, edge, previous, byteWidth,
                                                 maxToken))
    {
      assert Size(edge + 1, byteWidth) == position + byteWidth <= |encoded|;
      var delta := FromLittleEndian(encoded[position..position + byteWidth]);
      ReadOne(all, tokens, encoded, starts, node, edge, position, previous, byteWidth, maxToken);
      if delta == 0 || previous + delta > maxToken {
        return None;
      }
      previous := previous + delta;
      tokens := tokens + [previous];
      position := position + byteWidth;
    }
    r := Some(tokens);
  }

  lemma ReadOne(all: Option<seq<nat>>, tokens: seq<nat>, encoded: seq<byte>, starts: seq<nat>, node: nat, edge: nat,
                position: nat, previous: nat, byteWidth: nat, maxToken: nat)
    requires node + 1 < |starts| && edge < starts[node + 1] && position + byteWidth <= |encoded|
    requires all == Joined(tokens, TokensFrom(encoded[position..], starts, node, edge, previous, byteWidth, maxToken))
    ensures var token := previous + FromLittleEndian(encoded[position..position + byteWidth]);
      if token == previous || token > maxToken then all == None
      else all == Joined(tokens + [token],
                         TokensFrom(encoded[position + byteWidth..], starts, node, edge + 1, token, byteWidth,
                                    maxToken))
  {
    SliceAt(encoded, position, byteWidth);
    var token := previous + FromLittleEndian(encoded[position..position + byteWidth]);
    JoinOne(tokens, token, TokensFrom(encoded[position + byteWidth..], starts, node, edge + 1, token, byteWidth,
                                      maxToken));
  }

  lemma SliceAt(b: seq<byte>, position: nat, width: nat)
    requires position + width <= |b|
    ensures b[position..][..width] == b[position..position + width] && b[position..][width..] == b[position + width..]
  {
  }

  lemma JoinOne(done: seq<nat>, token: nat, later: Option<seq<nat>>)
    ensures later.Some? ==> done + ([token] + later.value) == (done + [token]) + later.value
  {
  }

  /** Tokens that are accepted are positive, in range, and rise along each node's edges, whatever the stream. */
  ghost predicate AcceptedFrom(starts: seq<nat>, s: seq<nat>, node: nat, edge: nat, previous: nat, maxToken: nat) {
    && RisingOffsets(starts) && edge <= starts[|starts| - 1] && |s| == starts[|starts| - 1] - edge
    && (forall k | 0 <= k < |s| :: 0 < s[k] <= maxToken)
    && (s != [] && Owns(starts, node, edge) ==> previous < s[0])
    && forall v: nat, e: nat {:trigger Owns(starts, v, e)} | Owns(starts, v, e) && starts[v] < e
    && edge < e < edge + |s| ::
         s[e - 1 - edge] < s[e - edge]
  }

  lemma AcceptOne(starts: seq<nat>, later: seq<nat>, node: nat, edge: nat, previous: nat, token: nat, maxToken: nat)
    requires RisingOffsets(starts) && Owns(starts, node, edge) && previous < token <= maxToken
    requires AcceptedFrom(starts, later, node, edge + 1, token, maxToken)
    ensures AcceptedFrom(starts, [token] + later, node, edge, previous, maxToken)
  {
    var s := [token] + later;
    forall v: nat, e: nat {:trigger Owns(starts, v, e)} | Owns(starts, v, e) && starts[v] < e && edge < e < edge + |s|
      ensures s[e - 1 - edge] < s[e - edge]
    {
      if e == edge + 1 {
        assert Owns(starts, node, edge + 1) && s[1] == later[0];
      } else {
        assert s[e - 1 - edge] == later[e - 1 - (edge + 1)] && s[e - edge] == later[e - (edge + 1)];
      }
    }
  }

  lemma {:induction false} TokensAccepted(encoded: seq<byte>, starts: seq<nat>, node: nat, edge: nat, previous: nat,
                                          byteWidth: nat, maxToken: nat)
    requires RisingOffsets(starts) && node < |starts| && starts[node] <= edge
    requires if node + 1 < |starts| then edge <= starts[node + 1] else edge == starts[node]
    requires TokensFrom(encoded, starts, node, edge, previous, byteWidth, maxToken).Some?
    ensures AcceptedFrom(starts, TokensFrom(encoded, starts, node, edge, previous, byteWidth, maxToken).value,
                         node, edge, previous, maxToken)
    decreases |starts| - node, Left(starts, node, edge)
  {
    if node + 1 >= |starts| {
    } else {
      if edge < starts[node + 1] {
        var token := previous + FromLittleEndian(encoded[..byteWidth]);
        TokensAccepted(encoded[byteWidth..], starts, node, edge + 1, token, byteWidth, maxToken);
        var later := TokensFrom(encoded[byteWidth..], starts, node, edge + 1, token, byteWidth, maxToken).value;
        AcceptOne(starts, later, node, edge, previous, token, maxToken);
      } else {
        TokensAccepted(encoded, starts, node + 1, edge, 0, byteWidth, maxToken);
      }
    }
  }

  /** So do the tokens of any stream that decodes. */
  lemma DecodedTokensRise(stream: seq<byte>, starts: seq<nat>, maxToken: nat)
    requires RisingOffsets(starts) && DecodeEdgeTokens(stream, starts, maxToken).Got?
    ensures var tokens := DecodeEdgeTokens(stream, starts, maxToken).value;
      && |tokens| == starts[|starts| - 1] && (forall e | 0 <= e < |tokens| :: 0 < tokens[e] <= maxToken)
      && forall v: nat, e: nat {:trigger Owns(starts, v, e)} | Owns(starts, v, e) && starts[v] < e < |tokens| ::
           tokens[e - 1] < tokens[e]
  {
    var width, rest := ReadUint32(stream).value, ReadUint32(stream).rest;
    var size := Size(starts[|starts| - 1], width / 8);
    TokensAccepted(rest[..size], starts, 0, 0, 0, width / 8, maxToken);
  }

  // Round trip --------------------------------------------------------------------------

  /** Tokens rise along each node's edges, from above zero to at most `maxToken`. */
  ghost predicate RisingTokens(starts: seq<nat>, tokens: seq<nat>, n: nat, maxToken: nat) {
    && Grouped(starts, n) && |tokens| == n - 1 && maxToken < LIMIT32
    && (forall e | 0 <= e < |tokens| :: 0 < tokens[e] <= maxToken)
    && (forall v: nat, e: nat {:trigger Owns(starts, v, e)} | Owns(starts, v, e) && starts[v] < e < |tokens| ::
          tokens[e - 1] < tokens[e])
  }

  ghost function Previous(starts: seq<nat>, tokens: seq<nat>, node: nat, edge: nat): nat {
    if node < |starts| && 0 < edge <= |tokens| && starts[node] < edge then tokens[edge - 1] else 0
  }

  lemma DeltaIsDifference(starts: seq<nat>, tokens: seq<nat>, n: nat, maxToken: nat, node: nat, edge: nat)
    requires RisingTokens(starts, tokens, n, maxToken) && Owns(starts, node, edge) && edge < |tokens|
    ensures Previous(starts, tokens, node, edge) + DeltaAt(starts, tokens, node, edge) == tokens[edge]
    ensures DeltaAt(starts, tokens, node, edge) > 0
  {
  }

  lemma {:induction false} DeltaBelowMax(starts: seq<nat>, tokens: seq<nat>, n: nat, node: nat, edge: nat, v: nat,
                                         e: nat)
    requires At(starts, n, node, edge) && |tokens| == n - 1
    requires node <= v && edge <= e && Owns(starts, v, e) && e < |tokens|
    ensures DeltaAt(starts, tokens, v, e) <= MaxDelta(starts, tokens, node, edge)
    decreases n - node, n - edge
  {
    NextNode(starts, n, node);
    if edge < starts[node + 1] {
      if v != node || e != edge {
        OwnerAfter(starts, n, node, edge, v, e);
        DeltaBelowMax(starts, tokens, n, node, edge + 1, v, e);
      }
    } else {
      OwnerAfter(starts, n, node, edge, v, e);
      DeltaBelowMax(starts, tokens, n, node + 1, edge, v, e);
    }
  }

  lemma OwnerAfter(starts: seq<nat>, n: nat, node: nat, edge: nat, v: nat, e: nat)
    requires At(starts, n, node, edge) && node < n && node <= v && edge <= e && Owns(starts, v, e)
    ensures edge == starts[node + 1] ==> node < v
    ensures e == edge && edge < starts[node + 1] ==> v == node
  {
    if node < v { assert starts[node + 1] <= starts[v]; }
  }

  /** Reading one difference in front of bytes that read back as the later tokens. */
  lemma TokenInFront(starts: seq<nat>, node: nat, edge: nat, previous: nat, delta: nat, later: seq<byte>,
                     byteWidth: nat, maxToken: nat, tokens: seq<nat>)
    requires node + 1 < |starts| && edge < starts[node + 1]
    requires 0 < delta < Span(byteWidth) && previous + delta <= maxToken
    requires TokensFrom(later, starts, node, edge + 1, previous + delta, byteWidth, maxToken) == Some(tokens)
    ensures TokensFrom(LittleEndian(delta, byteWidth) + later, starts, node, edge, previous, byteWidth, maxToken)
              == Some([previous + delta] + tokens)
  {
    LittleEndianRoundTrip(delta, byteWidth);
    var encoded := LittleEndian(delta, byteWidth) + later;
    assert encoded[..byteWidth] == LittleEndian(delta, byteWidth) && encoded[byteWidth..] == later;
  }

  lemma BytesInFront(starts: seq<nat>, tokens: seq<nat>, node: nat, edge: nat, byteWidth: nat)
    requires Owns(starts, node, edge) && edge < |tokens|
    ensures TokenBytes(starts, tokens, node, edge, byteWidth)
         == LittleEndian(DeltaAt(starts, tokens, node, edge), byteWidth)
           + TokenBytes(starts, tokens, node, edge + 1, byteWidth)
  {
  }

  lemma EdgeInFront(starts: seq<nat>, tokens: seq<nat>, n: nat, maxToken: nat, node: nat, edge: nat, byteWidth: nat)
    requires RisingTokens(starts, tokens, n, maxToken) && Owns(starts, node, edge) && edge < |tokens|
    requires DeltaAt(starts, tokens, node, edge) < Span(byteWidth)
    requires Restores(starts, tokens, node, edge + 1, byteWidth, maxToken)
    ensures Restores(starts, tokens, node, edge, byteWidth, maxToken)
  {
    var delta, later := DeltaAt(starts, tokens, node, edge), TokenBytes(starts, tokens, node, edge + 1, byteWidth);
    DeltaIsDifference(starts, tokens, n, maxToken, node, edge);
    BytesInFront(starts, tokens, node, edge, byteWidth);
    TokenInFront(starts, node, edge, Previous(starts, tokens, node, edge), delta, later, byteWidth, maxToken,
                 tokens[edge + 1..]);
    TokenThenRest(tokens, edge);
  }

  lemma TokenThenRest(tokens: seq<nat>, edge: nat)
    requires edge < |tokens|
    ensures tokens[edge..] == [tokens[edge]] + tokens[edge + 1..]
  {
  }

  /** Every difference fits the width. */
  ghost predicate DeltasFit(starts: seq<nat>, tokens: seq<nat>, byteWidth: nat) {
    forall v: nat, e: nat {:trigger DeltaAt(starts, tokens, v, e)} | Owns(starts, v, e) && e < |tokens| ::
      DeltaAt(starts, tokens, v, e) < Span(byteWidth)
  }

  /** The bytes from an edge on give back the tokens from there on. */
  ghost predicate Restores(starts: seq<nat>, tokens: seq<nat>, node: nat, edge: nat, byteWidth: nat, maxToken: nat) {
    edge <= |tokens| &&
    TokensFrom(TokenBytes(starts, tokens, node, edge, byteWidth), starts, node, edge,
               Previous(starts, tokens, node, edge), byteWidth, maxToken) == Some(tokens[edge..])
  }

  lemma NothingLeft(starts: seq<nat>, tokens: seq<nat>, n: nat, byteWidth: nat, maxToken: nat)
    requires |starts| == n + 1 && |tokens| == n - 1
    ensures Restores(starts, tokens, n, n - 1, byteWidth, maxToken)
  {
    assert tokens[n - 1..] == [];
  }

  lemma {:induction false} TokensFromBytes(starts: seq<nat>, tokens: seq<nat>, n: nat, maxToken: nat,
                                           node: nat, edge: nat, byteWidth: nat)
    requires RisingTokens(starts, tokens, n, maxToken) && At(starts, n, node, edge)
    requires DeltasFit(starts, tokens, byteWidth)
    ensures Restores(starts, tokens, node, edge, byteWidth, maxToken)
    decreases n - node, n - edge
  {
    if node == n {
      NothingLeft(starts, tokens, n, byteWidth, maxToken);
    } else {
      NextNode(starts, n, node);
      if edge < starts[node + 1] {
        TokensFromBytes(starts, tokens, n, maxToken, node, edge + 1, byteWidth);
        FittingEdge(starts, tokens, n, maxToken, node, edge, byteWidth);
      } else {
        TokensFromBytes(starts, tokens, n, maxToken, node + 1, edge, byteWidth);
        NextNodeInFront(starts, tokens, n, node, byteWidth, maxToken);
      }
    }
  }

  lemma FittingEdge(starts: seq<nat>, tokens: seq<nat>, n: nat, maxToken: nat, node: nat, edge: nat, byteWidth: nat)
    requires RisingTokens(starts, tokens, n, maxToken) && Owns(starts, node, edge) && edge < |tokens|
    requires DeltasFit(starts, tokens, byteWidth) && Restores(starts, tokens, node, edge + 1, byteWidth, maxToken)
    ensures Restores(starts, tokens, node, edge, byteWidth, maxToken)
  {
    EdgeInFront(starts, tokens, n, maxToken, node, edge, byteWidth);
  }

  lemma NextNodeInFront(starts: seq<nat>, tokens: seq<nat>, n: nat, node: nat, byteWidth: nat, maxToken: nat)
    requires Grouped(starts, n) && node < n && |tokens| == n - 1
    requires Restores(starts, tokens, node + 1, starts[node + 1], byteWidth, maxToken)
    ensures Restores(starts, tokens, node, starts[node + 1], byteWidth, maxToken)
  {
    EndOfNode(starts, tokens, n, node, Previous(starts, tokens, node, starts[node + 1]), byteWidth, maxToken);
  }

  lemma EndOfNode(starts: seq<nat>, tokens: seq<nat>, n: nat, node: nat, previous: nat, byteWidth: nat, maxToken: nat)
    requires Grouped(starts, n) && node < n && |tokens| == n - 1
    ensures var edge := starts[node + 1]; var bytes := TokenBytes(starts, tokens, node + 1, edge, byteWidth);
      && TokenBytes(starts, tokens, node, edge, byteWidth) == bytes
      && TokensFrom(bytes, starts, node, edge, previous, byteWidth, maxToken)
           == TokensFrom(bytes, starts, node + 1, edge, Previous(starts, tokens, node + 1, edge), byteWidth, maxToken)
  {
  }

  /** Any per-node rising tokens survive being written and read. */
  lemma EdgeTokensRoundTrip(starts: seq<nat>, tokens: seq<nat>, n: nat, maxToken: nat, rest: seq<byte>)
    requires RisingTokens(starts, tokens, n, maxToken)
    ensures var width := WidthFor(MaxDelta(starts, tokens, 0, 0));
      DecodeEdgeTokens(WriteUvarint(width) + TokenBytes(starts, tokens, 0, 0, width / 8) + rest, starts, maxToken)
        == Got(tokens, rest)
  {
    var maxDelta := MaxDelta(starts, tokens, 0, 0);
    var width := WidthFor(maxDelta);
    var bytes := TokenBytes(starts, tokens, 0, 0, width / 8);
    assert WriteUvarint(width) + bytes + rest == WriteUvarint(width) + (bytes + rest);
    UvarintRoundTrip(width, bytes + rest);
    TokenBytesLength(starts, tokens, n, 0, 0, width / 8);
    assert (bytes + rest)[..|bytes|] == bytes && (bytes + rest)[|bytes|..] == rest;
    if n > 1 {
      FirstEdge(starts, tokens, n, maxToken);
    } else {
      NoEdges(starts, tokens);
    }
    assert Span(2) == 0x1_0000 && Span(4) == LIMIT32;
    forall v: nat, e: nat | Owns(starts, v, e) && e < |tokens| ensures DeltaAt(starts, tokens, v, e) < Span(width / 8) {
      DeltaBelowMax(starts, tokens, n, 0, 0, v, e);
      assert n > 1;
    }
    TokensFromBytes(starts, tokens, n, maxToken, 0, 0, width / 8);
    assert tokens[0..] == tokens;
  }

  /** A trie with an edge has a positive largest difference. */
  lemma FirstEdge(starts: seq<nat>, tokens: seq<nat>, n: nat, maxToken: nat)
    requires RisingTokens(starts, tokens, n, maxToken) && n > 1
    ensures MaxDelta(starts, tokens, 0, 0) > 0
  {
    var v := 0;
    while starts[v + 1] == 0
      invariant v < n && starts[v] == 0
      decreases n - v
    {
      v := v + 1;
    }
    DeltaIsDifference(starts, tokens, n, maxToken, v, 0);
    DeltaBelowMax(starts, tokens, n, 0, 0, v, 0);
  }

  lemma NoEdges(starts: seq<nat>, tokens: seq<nat>)
    requires Grouped(starts, 1) && tokens == []
    ensures MaxDelta(starts, tokens, 0, 0) == 0
  {
  }
}
