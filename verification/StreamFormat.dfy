/** The stored stream byte by byte: what each section holds, stated by position and place value. */
module StreamFormat {
  import Bits
  import opened Options
  import opened Packed
  import opened Varint
  import opened Tries
  import opened EdgeCounts
  import opened EdgeTokens
  import opened TerminalCodec
  import opened CorpusFormat

  // Variable-length integers ----------------------------------------------------------------

  /** `128^i`. */
  ghost function Power(i: nat): (p: nat)
    ensures p > 0
  {
    if i == 0 then 1 else 0x80 * Power(i - 1)
  }

  lemma DivideTwice(x: nat, a: nat, b: nat)
    requires a > 0 && b > 0
    ensures a * b > 0 && x / a / b == x / (a * b)
  {
    var y, r1 := x / a, x % a;
    var q, r2 := y / b, y % b;
    Regrouped(x, a, b, y, q, r1, r2);
    QuotientUnique(x, a * b, q, a * r2 + r1);
  }

  lemma Regrouped(x: nat, a: nat, b: nat, y: nat, q: nat, r1: nat, r2: nat)
    requires x == a * y + r1 && y == b * q + r2 && r1 < a && r2 < b
    ensures x == (a * b) * q + (a * r2 + r1) && a * r2 + r1 < a * b
  {
    assert a * y == a * (b * q) + a * r2;
    assert a * (b - 1 - r2) >= 0;
  }

  lemma QuotientUnique(x: nat, d: nat, q: nat, r: nat)
    requires d > 0 && x == d * q + r && r < d
    ensures x / d == q
  {
    var e := x / d - q;
    assert x == d * (x / d) + x % d;
    assert d * (x / d) - d * q == d * e;
    ProductGrows(d, e);
  }

  lemma ProductGrows(d: nat, e: int)
    requires d > 0
    ensures (e >= 1 ==> d <= d * e) && (e <= -1 ==> d * e <= 0 - d)
  {
    if e >= 1 { assert d * (e - 1) >= 0; }
    if e <= -1 { assert d * (e + 1) <= 0; }
  }

  /** Seven bits to a byte from the low end, the high bit set on all bytes but the last, and no byte too many. */
  lemma {:induction false} UvarintBytes(value: nat)
    ensures var w := WriteUvarint(value);
      && w != [] && value < Power(|w|) && (|w| > 1 ==> Power(|w| - 1) <= value)
      && forall i: nat | i < |w| :: w[i] == value / Power(i) % 0x80 + if i + 1 < |w| then 0x80 else 0
  {
    var w := WriteUvarint(value);
    if value < 0x80 {
      assert Power(1) == 0x80 && Power(0) == 1;
    } else {
      var high := value / 0x80;
      var later := WriteUvarint(high);
      UvarintBytes(high);
      assert Power(|w|) == 0x80 * Power(|later|) && Power(|w| - 1) == 0x80 * Power(|later| - 1);
      forall i: nat | i < |w| ensures w[i] == value / Power(i) % 0x80 + if i + 1 < |w| then 0x80 else 0 {
        if i > 0 {
          assert w[i] == later[i - 1];
          DivideTwice(value, 0x80, Power(i - 1));
        }
      }
    }
  }

  /** The stream begins with an integer of `n` bytes: at most ten, of which the tenth is at most one. */
  ghost predicate UvarintAt(stream: seq<byte>, n: nat) {
    && 1 <= n <= |stream| && n <= 10 && stream[n - 1] < 0x80 && (n == 10 ==> stream[9] <= 1)
    && forall i: nat | i < n - 1 :: stream[i] >= 0x80
  }

  /** The low seven bits of each byte, lowest first. */
  ghost function Groups(b: seq<byte>): nat {
    if b == [] then 0 else Groups(b[..|b| - 1]) + b[|b| - 1] % 0x80 * Power(|b| - 1)
  }

  lemma {:induction false} GroupsFromLow(b: seq<byte>)
    requires b != []
    ensures Groups(b) == b[0] % 0x80 + 0x80 * Groups(b[1..])
  {
    var n := |b| - 1;
    if n == 0 {
      assert b[..0] == [] == b[1..] && Power(0) == 1;
    } else {
      GroupsFromLow(b[..n]);
      assert b[..n][1..] == b[1..][..n - 1] && b[1..][n - 1] == b[n];
      assert Power(n) == 0x80 * Power(n - 1);
      assert b[n] % 0x80 * (0x80 * Power(n - 1)) == 0x80 * (b[n] % 0x80 * Power(n - 1));
    }
  }

  lemma {:induction false} UvarintFromBytes(stream: seq<byte>, i: nat, n: nat)
    requires 1 <= n <= |stream| && i + n <= 10 && stream[n - 1] < 0x80 && (i + n == 10 ==> stream[n - 1] <= 1)
    requires forall k: nat | k < n - 1 :: stream[k] >= 0x80
    ensures ReadUvarintFrom(stream, i) == Got(Groups(stream[..n]), stream[n..])
    decreases n
  {
    GroupsFromLow(stream[..n]);
    assert stream[..n][1..] == stream[1..][..n - 1] && stream[n..] == stream[1..][n - 1..];
    if n == 1 {
      assert stream[1..][..0] == [];
    } else {
      assert stream[0] >= 0x80;
      UvarintFromBytes(stream[1..], i + 1, n - 1);
    }
  }

  lemma {:induction false} UvarintLength(stream: seq<byte>, i: nat) returns (n: nat)
    requires ReadUvarintFrom(stream, i).Got?
    ensures 1 <= n <= |stream| && i + n <= 10 && stream[n - 1] < 0x80 && (i + n == 10 ==> stream[n - 1] <= 1)
    ensures forall k: nat | k < n - 1 :: stream[k] >= 0x80
    decreases |stream|
  {
    if stream[0] < 0x80 {
      n := 1;
    } else {
      var m := UvarintLength(stream[1..], i + 1);
      n := m + 1;
    }
  }

  /** Reading succeeds exactly where such an integer stands, and gives its value and what follows. */
  lemma UvarintRead(stream: seq<byte>, value: nat, rest: seq<byte>)
    ensures ReadUvarint(stream) == Got(value, rest) <==>
      exists n: nat :: UvarintAt(stream, n) && value == Groups(stream[..n]) && rest == stream[n..]
  {
    if ReadUvarint(stream) == Got(value, rest) {
      var n := UvarintLength(stream, 0);
      UvarintFromBytes(stream, 0, n);
      assert UvarintAt(stream, n);
    }
    if n: nat :| UvarintAt(stream, n) && value == Groups(stream[..n]) && rest == stream[n..] {
      UvarintFromBytes(stream, 0, n);
    }
  }

  /** 300 is written as the two bytes 172 and 2. */
  lemma ThreeHundred()
    ensures WriteUvarint(300) == [172, 2]
  {
  }

  // Level-order bits --------------------------------------------------------------------------

  ghost predicate BitIs(bits: seq<bool>, k: nat, one: bool) {
    k < |bits| && bits[k] == one
  }

  lemma BitBehind(first: bool, bits: seq<bool>, k: nat, one: bool)
    requires k > 0 && BitIs(bits, k - 1, one)
    ensures BitIs([first] + bits, k, one)
  {
  }

  /** The bit of edge `e` of node `v`, or of the node's end if it has no such edge, `k` places on. */
  lemma {:induction false} BitOf(starts: seq<nat>, n: nat, node: nat, edge: nat, v: nat, e: nat, k: nat)
    requires At(starts, n, node, edge) && node <= v < n && edge <= e && starts[v] <= e <= starts[v + 1]
    requires k + node + edge == v + e
    ensures BitIs(LevelBits(starts, node, edge), k, e < starts[v + 1])
    decreases n - node, n - edge
  {
    NextNode(starts, n, node);
    assert v != node ==> starts[node + 1] <= starts[v];
    if edge < starts[node + 1] {
      if v != node || e != edge {
        BitOf(starts, n, node, edge + 1, v, e, k - 1);
        BitBehind(true, LevelBits(starts, node, edge + 1), k, e < starts[v + 1]);
      }
    } else if v > node {
      BitOf(starts, n, node + 1, edge, v, e, k - 1);
      BitBehind(false, LevelBits(starts, node + 1, edge), k, e < starts[v + 1]);
    }
  }

  /**
   * Edge `e` of node `v` is the one at place `v + e`, and the zero behind the node's last edge is at the place the
   * next edge would have.
   */
  lemma LevelBitsAre(starts: seq<nat>, n: nat, v: nat, e: nat)
    requires Grouped(starts, n) && v < n && starts[v] <= e <= starts[v + 1]
    ensures |LevelBits(starts, 0, 0)| == 2 * n - 1
    ensures BitIs(LevelBits(starts, 0, 0), v + e, e < starts[v + 1])
  {
    LevelBitsLength(starts, n, 0, 0);
    BitOf(starts, n, 0, 0, v, e, v + e);
  }

  // Edge tokens -----------------------------------------------------------------------------

  /** Little-endian numbers: byte `i` has the place value `256^i`. */
  lemma LittleEndianBytes(value: nat)
    ensures LittleEndian(value, 2) == [value % 0x100, value / 0x100 % 0x100]
    ensures LittleEndian(value, 4)
      == [value % 0x100, value / 0x100 % 0x100, value / 0x1_0000 % 0x100, value / 0x100_0000 % 0x100]
  {
    var second := value / 0x100;
    assert LittleEndian(second, 1) == [second % 0x100] + LittleEndian(second / 0x100, 0);
    var third := second / 0x100;
    var fourth := third / 0x100;
    assert LittleEndian(fourth, 1) == [fourth % 0x100] + LittleEndian(fourth / 0x100, 0);
    assert LittleEndian(third, 2) == [third % 0x100] + LittleEndian(fourth, 1);
    assert LittleEndian(second, 3) == [second % 0x100] + LittleEndian(third, 2);
    assert third == value / 0x1_0000 && fourth == value / 0x100_0000;
  }

  /** The number at place `k` of the edge bytes: two bytes or four, the low one first. */
  ghost function Number(b: seq<byte>, k: nat, byteWidth: nat): nat {
    if byteWidth == 2 && 2 * k + 2 <= |b| then
      var low: nat, high: nat := b[2 * k], b[2 * k + 1];
      low + 0x100 * high
    else if byteWidth == 4 && 4 * k + 4 <= |b| then
      var first: nat, second: nat, third: nat, fourth: nat := b[4 * k], b[4 * k + 1], b[4 * k + 2], b[4 * k + 3];
      first + 0x100 * second + 0x1_0000 * third + 0x100_0000 * fourth
    else 0
  }

  lemma FromLow(b: seq<byte>)
    requires b != []
    ensures FromLittleEndian(b) == (var low: nat := b[0]; low) + 0x100 * FromLittleEndian(b[1..])
  {
  }

  lemma LittleEndianValue(b: seq<byte>, byteWidth: nat)
    requires |b| == byteWidth && (byteWidth == 2 || byteWidth == 4)
    ensures FromLittleEndian(b) == Number(b, 0, byteWidth)
  {
    FromLow(b);
    FromLow(b[1..]);
    assert b[1..][1..] == b[2..];
    if byteWidth == 4 {
      FromLow(b[2..]);
      assert b[2..][1..] == b[3..];
      FromLow(b[3..]);
    }
  }

  /** The number of the edge `k` places on is `delta`, low byte first. */
  ghost predicate Stands(bytes: seq<byte>, k: nat, byteWidth: nat, delta: nat) {
    && Size(k, byteWidth) + byteWidth <= |bytes|
    && bytes[Size(k, byteWidth)..Size(k, byteWidth) + byteWidth] == LittleEndian(delta, byteWidth)
  }

  lemma StandsFirst(delta: nat, later: seq<byte>, byteWidth: nat)
    requires byteWidth == 2 || byteWidth == 4
    ensures Stands(LittleEndian(delta, byteWidth) + later, 0, byteWidth, delta)
  {
  }

  lemma StandsBehind(first: seq<byte>, later: seq<byte>, k: nat, byteWidth: nat, delta: nat)
    requires (byteWidth == 2 || byteWidth == 4) && |first| == byteWidth && Stands(later, k, byteWidth, delta)
    ensures Stands(first + later, k + 1, byteWidth, delta)
  {
    var at := Size(k, byteWidth);
    assert (first + later)[byteWidth + at..byteWidth + at + byteWidth] == later[at..at + byteWidth];
  }

  /** A written difference stands at the place of its edge. */
  lemma {:induction false} DeltaAtPlace(starts: seq<nat>, tokens: seq<nat>, n: nat, node: nat, edge: nat, v: nat,
                                        e: nat, byteWidth: nat)
    requires At(starts, n, node, edge) && |tokens| == n - 1 && (byteWidth == 2 || byteWidth == 4)
    requires node <= v && edge <= e < |tokens| && Owns(starts, v, e)
    ensures Stands(TokenBytes(starts, tokens, node, edge, byteWidth), e - edge, byteWidth,
                   DeltaAt(starts, tokens, v, e))
    decreases n - node, n - edge
  {
    NextNode(starts, n, node);
    OwnerAfter(starts, n, node, edge, v, e);
    if edge < starts[node + 1] {
      BytesInFront(starts, tokens, node, edge, byteWidth);
      var first, later :=
        LittleEndian(DeltaAt(starts, tokens, node, edge), byteWidth),
        TokenBytes(starts, tokens, node, edge + 1, byteWidth);
      if e != edge {
        DeltaAtPlace(starts, tokens, n, node, edge + 1, v, e, byteWidth);
        StandsBehind(first, later, e - edge - 1, byteWidth, DeltaAt(starts, tokens, v, e));
      } else {
        StandsFirst(DeltaAt(starts, tokens, node, edge), later, byteWidth);
      }
    } else {
      SameBytes(starts, tokens, node, byteWidth);
      DeltaAtPlace(starts, tokens, n, node + 1, edge, v, e, byteWidth);
    }
  }

  lemma SameBytes(starts: seq<nat>, tokens: seq<nat>, node: nat, byteWidth: nat)
    requires node + 1 < |starts|
    ensures TokenBytes(starts, tokens, node, starts[node + 1], byteWidth)
      == TokenBytes(starts, tokens, node + 1, starts[node + 1], byteWidth)
  {
  }

  /** Byte `i` of the difference of edge `e` is the one of place value `256^i`. */
  lemma WrittenBytes(starts: seq<nat>, tokens: seq<nat>, n: nat, v: nat, e: nat, byteWidth: nat)
    requires Grouped(starts, n) && |tokens| == n - 1 && Owns(starts, v, e) && e < |tokens|
    ensures var bytes, delta := TokenBytes(starts, tokens, 0, 0, byteWidth), DeltaAt(starts, tokens, v, e);
      && (byteWidth == 2 ==> 2 * e + 1 < |bytes| && bytes[2 * e] == delta % 0x100
                             && bytes[2 * e + 1] == delta / 0x100 % 0x100)
      && (byteWidth == 4 ==> 4 * e + 3 < |bytes| && bytes[4 * e] == delta % 0x100
                             && bytes[4 * e + 1] == delta / 0x100 % 0x100
                             && bytes[4 * e + 2] == delta / 0x1_0000 % 0x100
                             && bytes[4 * e + 3] == delta / 0x100_0000 % 0x100)
  {
    if byteWidth == 2 || byteWidth == 4 {
      DeltaAtPlace(starts, tokens, n, 0, 0, v, e, byteWidth);
      var bytes, delta := TokenBytes(starts, tokens, 0, 0, byteWidth), DeltaAt(starts, tokens, v, e);
      LittleEndianBytes(delta);
      ByPlace(bytes, Size(e, byteWidth), byteWidth, LittleEndian(delta, byteWidth));
    }
  }

  lemma ByPlace(bytes: seq<byte>, at: nat, width: nat, part: seq<byte>)
    requires at + width <= |bytes| && bytes[at..at + width] == part
    ensures forall i: nat | i < width :: bytes[at + i] == part[i]
  {
    var slice := bytes[at..at + width];
    assert forall i: nat | i < width :: slice[i] == bytes[at + i];
  }

  /** The width is 0 without edges, 16 bits if every difference is below 65536, and 32 bits otherwise. */
  lemma WidthOfDeltas(starts: seq<nat>, tokens: seq<nat>, n: nat, maxToken: nat)
    requires RisingTokens(starts, tokens, n, maxToken)
    ensures var width := WidthFor(MaxDelta(starts, tokens, 0, 0));
      && (width == 0 <==> tokens == []) && (width == 0 || width == 16 || width == 32)
      && (width == 32 <==> exists v: nat, e: nat ::
            Owns(starts, v, e) && e < |tokens| && DeltaAt(starts, tokens, v, e) >= 0x1_0000)
  {
    if n > 1 { FirstEdge(starts, tokens, n, maxToken); } else { NoEdges(starts, tokens); }
    forall v: nat, e: nat | Owns(starts, v, e) && e < |tokens|
      ensures DeltaAt(starts, tokens, v, e) <= MaxDelta(starts, tokens, 0, 0)
    {
      DeltaBelowMax(starts, tokens, n, 0, 0, v, e);
    }
    if MaxDelta(starts, tokens, 0, 0) > 0 {
      var v, e := SomeDelta(starts, tokens, n, 0, 0);
    }
  }

  lemma {:induction false} SomeDelta(starts: seq<nat>, tokens: seq<nat>, n: nat, node: nat, edge: nat)
    returns (v: nat, e: nat)
    requires At(starts, n, node, edge) && |tokens| == n - 1 && MaxDelta(starts, tokens, node, edge) > 0
    ensures Owns(starts, v, e) && e < |tokens| && DeltaAt(starts, tokens, v, e) == MaxDelta(starts, tokens, node, edge)
    decreases n - node, n - edge
  {
    if node < n { NextNode(starts, n, node); }
    if edge < starts[node + 1] && DeltaAt(starts, tokens, node, edge) == MaxDelta(starts, tokens, node, edge) {
      v, e := node, edge;
    } else if edge < starts[node + 1] {
      v, e := SomeDelta(starts, tokens, n, node, edge + 1);
    } else {
      v, e := SomeDelta(starts, tokens, n, node + 1, edge);
    }
  }

  /** The number of edge `e` is positive and leads from the token before to this one, which is not too large. */
  ghost predicate ReadAt(starts: seq<nat>, tokens: seq<nat>, encoded: seq<byte>, byteWidth: nat, maxToken: nat, v: nat,
                         e: nat) {
    && e < |tokens| && Number(encoded, e, byteWidth) > 0 && tokens[e] <= maxToken
    && tokens[e] == Previous(starts, tokens, v, e) + Number(encoded, e, byteWidth)
  }

  ghost predicate ReadFrom(starts: seq<nat>, tokens: seq<nat>, encoded: seq<byte>, byteWidth: nat, maxToken: nat,
                           edge: nat) {
    forall v: nat, e: nat {:trigger Owns(starts, v, e)} | Owns(starts, v, e) && edge <= e ::
      ReadAt(starts, tokens, encoded, byteWidth, maxToken, v, e)
  }

  /** The bytes behind those of the first `edge` edges decode to the tokens from there on. */
  ghost predicate DecodesFrom(starts: seq<nat>, tokens: seq<nat>, encoded: seq<byte>, byteWidth: nat, maxToken: nat,
                              node: nat, edge: nat) {
    && edge <= |tokens| && Size(edge, byteWidth) <= |encoded|
    && TokensFrom(encoded[Size(edge, byteWidth)..], starts, node, edge, Previous(starts, tokens, node, edge), byteWidth,
                  maxToken) == Some(tokens[edge..])
  }

  ghost predicate Reading(starts: seq<nat>, tokens: seq<nat>, encoded: seq<byte>, byteWidth: nat, node: nat,
                          edge: nat) {
    && RisingOffsets(starts) && (byteWidth == 2 || byteWidth == 4) && |tokens| == starts[|starts| - 1]
    && |encoded| == Size(|tokens|, byteWidth) && node < |starts| && starts[node] <= edge
    && if node + 1 < |starts| then edge <= starts[node + 1] else edge == starts[node]
  }

  lemma NumberAt(encoded: seq<byte>, edge: nat, byteWidth: nat)
    requires (byteWidth == 2 || byteWidth == 4) && Size(edge + 1, byteWidth) <= |encoded|
    ensures var later := encoded[Size(edge, byteWidth)..];
      && byteWidth <= |later| && later[byteWidth..] == encoded[Size(edge + 1, byteWidth)..]
      && FromLittleEndian(later[..byteWidth]) == Number(encoded, edge, byteWidth)
  {
    LittleEndianValue(encoded[Size(edge, byteWidth)..][..byteWidth], byteWidth);
  }

  /** One edge further: decoding goes on exactly where its number is as it should be. */
  lemma DecodeEdge(starts: seq<nat>, tokens: seq<nat>, encoded: seq<byte>, byteWidth: nat, maxToken: nat, node: nat,
                   edge: nat)
    requires Reading(starts, tokens, encoded, byteWidth, node, edge) && Owns(starts, node, edge) && edge < |tokens|
    ensures DecodesFrom(starts, tokens, encoded, byteWidth, maxToken, node, edge) <==>
      ReadAt(starts, tokens, encoded, byteWidth, maxToken, node, edge)
      && DecodesFrom(starts, tokens, encoded, byteWidth, maxToken, node, edge + 1)
  {
    NumberAt(encoded, edge, byteWidth);
    var token := Previous(starts, tokens, node, edge) + Number(encoded, edge, byteWidth);
    TokenThenRest(tokens, edge);
    var later := TokensFrom(encoded[Size(edge + 1, byteWidth)..], starts, node, edge + 1, token, byteWidth, maxToken);
    if later.Some? { FirstAndRest(tokens, edge, token, later.value); }
  }

  lemma FirstAndRest(tokens: seq<nat>, edge: nat, token: nat, later: seq<nat>)
    requires edge < |tokens|
    ensures [token] + later == tokens[edge..] <==> token == tokens[edge] && later == tokens[edge + 1..]
  {
    TokenThenRest(tokens, edge);
    if [token] + later == tokens[edge..] {
      assert later == ([token] + later)[1..] == tokens[edge..][1..] == tokens[edge + 1..];
      assert token == ([token] + later)[0] == tokens[edge];
    }
  }

  lemma DecodeNode(starts: seq<nat>, tokens: seq<nat>, encoded: seq<byte>, byteWidth: nat, maxToken: nat, node: nat)
    requires RisingOffsets(starts) && node + 1 < |starts|
    ensures DecodesFrom(starts, tokens, encoded, byteWidth, maxToken, node, starts[node + 1]) <==>
      DecodesFrom(starts, tokens, encoded, byteWidth, maxToken, node + 1, starts[node + 1])
  {
  }

  lemma OneMoreRead(starts: seq<nat>, tokens: seq<nat>, encoded: seq<byte>, byteWidth: nat, maxToken: nat, node: nat,
                    edge: nat)
    requires RisingOffsets(starts) && Owns(starts, node, edge)
    ensures ReadFrom(starts, tokens, encoded, byteWidth, maxToken, edge) <==>
      ReadAt(starts, tokens, encoded, byteWidth, maxToken, node, edge)
      && ReadFrom(starts, tokens, encoded, byteWidth, maxToken, edge + 1)
  {
    forall v: nat ensures Owns(starts, v, edge) ==> v == node { OneOwner(starts, node, edge, v); }
  }

  lemma OneOwner(starts: seq<nat>, node: nat, edge: nat, v: nat)
    requires RisingOffsets(starts) && Owns(starts, node, edge)
    ensures Owns(starts, v, edge) ==> v == node
  {
    if v + 1 < |starts| {
      assert v < node ==> starts[v + 1] <= starts[node];
      assert node < v ==> starts[node + 1] <= starts[v];
    }
  }

  lemma {:induction false} DecodesExactly(starts: seq<nat>, tokens: seq<nat>, encoded: seq<byte>, byteWidth: nat,
                                          maxToken: nat, node: nat, edge: nat)
    requires Reading(starts, tokens, encoded, byteWidth, node, edge)
    ensures DecodesFrom(starts, tokens, encoded, byteWidth, maxToken, node, edge)
      <==> ReadFrom(starts, tokens, encoded, byteWidth, maxToken, edge)
    decreases |starts| - node, Left(starts, node, edge)
  {
    assert starts[node] <= starts[|starts| - 1];
    if node + 1 >= |starts| {
      assert tokens[edge..] == [] && encoded[Size(edge, byteWidth)..] == [];
      forall v: nat, e: nat | Owns(starts, v, e) ensures e < edge { assert starts[v + 1] <= starts[node]; }
    } else {
      assert starts[node + 1] <= starts[|starts| - 1];
      if edge < starts[node + 1] {
        DecodesExactly(starts, tokens, encoded, byteWidth, maxToken, node, edge + 1);
        DecodeEdge(starts, tokens, encoded, byteWidth, maxToken, node, edge);
        OneMoreRead(starts, tokens, encoded, byteWidth, maxToken, node, edge);
      } else {
        DecodesExactly(starts, tokens, encoded, byteWidth, maxToken, node + 1, edge);
        DecodeNode(starts, tokens, encoded, byteWidth, maxToken, node);
      }
    }
  }

  /** What an accepted section of edge tokens holds. */
  ghost predicate TokensStand(stream: seq<byte>, starts: seq<nat>, maxToken: nat, tokens: seq<nat>, rest: seq<byte>) {
    && RisingOffsets(starts) && ReadUint32(stream).Got? && |tokens| == starts[|starts| - 1]
    && var width, body := ReadUint32(stream).value, ReadUint32(stream).rest;
      && (if tokens == [] then width == 0 else width == 16 || width == 32)
      && |tokens| * (width / 8) <= |body| && rest == body[|tokens| * (width / 8)..]
      && ReadFrom(starts, tokens, body[..|tokens| * (width / 8)], width / 8, maxToken, 0)
  }

  lemma SizeIsProduct(count: nat, byteWidth: nat)
    requires KnownWidth(byteWidth)
    ensures Size(count, byteWidth) == count * byteWidth
  {
  }

  /** The reader accepts exactly the sections in which every edge's number leads to its token. */
  lemma EdgeTokensRead(stream: seq<byte>, starts: seq<nat>, maxToken: nat, tokens: seq<nat>, rest: seq<byte>)
    requires RisingOffsets(starts)
    ensures DecodeEdgeTokens(stream, starts, maxToken) == Got(tokens, rest)
      <==> TokensStand(stream, starts, maxToken, tokens, rest)
  {
    var read := ReadUint32(stream);
    var edgeCount := starts[|starts| - 1];
    if DecodeEdgeTokens(stream, starts, maxToken).Got? { DecodedTokensRise(stream, starts, maxToken); }
    if read.Got? && |tokens| == edgeCount && KnownWidth(read.value / 8) {
      SizeIsProduct(edgeCount, read.value / 8);
      if edgeCount == 0 {
        NoEdgesRead(starts, read.value / 8, maxToken, 0);
      } else if (read.value == 16 || read.value == 32) && Size(edgeCount, read.value / 8) <= |read.rest| {
        var encoded := read.rest[..Size(edgeCount, read.value / 8)];
        DecodesExactly(starts, tokens, encoded, read.value / 8, maxToken, 0, 0);
        assert encoded[0..] == encoded && tokens[0..] == tokens;
      }
    }
  }

  lemma {:induction false} NoEdgesRead(starts: seq<nat>, byteWidth: nat, maxToken: nat, node: nat)
    requires RisingOffsets(starts) && starts[|starts| - 1] == 0 && node < |starts|
    ensures TokensFrom([], starts, node, 0, 0, byteWidth, maxToken) == Some([])
    ensures forall v: nat, e: nat :: !Owns(starts, v, e)
    decreases |starts| - node
  {
    if node + 1 < |starts| { NoEdgesRead(starts, byteWidth, maxToken, node + 1); }
  }

  /** One edge of 16 bits: the bytes 52 and 18 are token 4660. */
  lemma ShortToken()
    ensures DecodeEdgeTokens([16, 0x34, 0x12], [0, 1, 1], 0xFFFF) == Got([0x1234], [])
  {
    var stream, starts := [16, 0x34, 0x12], [0, 1, 1];
    assert ReadUint32(stream) == Got(16, stream[1..]);
    EdgeTokensRead(stream, starts, 0xFFFF, [0x1234], []);
    forall v: nat, e: nat | Owns(starts, v, e) ensures ReadAt(starts, [0x1234], stream[1..][..2], 2, 0xFFFF, v, e) {
    }
  }

  // Terminals and chains ----------------------------------------------------------------------

  /** The parts one after another. */
  ghost function Concat(parts: seq<seq<byte>>): seq<byte> {
    if parts == [] then [] else Concat(parts[..|parts| - 1]) + parts[|parts| - 1]
  }

  lemma {:induction false} ConcatFront(part: seq<byte>, parts: seq<seq<byte>>)
    ensures Concat([part] + parts) == part + Concat(parts)
  {
    if parts == [] {
      assert [part] + parts == [part] && [part][..0] == [] && [] + part == part == part + [];
    } else {
      var n := |parts| - 1;
      ConcatFront(part, parts[..n]);
      assert ([part] + parts)[..n + 1] == [part] + parts[..n] && ([part] + parts)[n + 1] == parts[n];
    }
  }

  /** How far a terminal's node is past the one before; the first counts from `before`. */
  ghost function Distance(pairs: seq<Terminal>, before: int, i: nat): nat
    requires i < |pairs|
  {
    var previous := if i == 0 then before else pairs[i - 1].node;
    if pairs[i].node < previous then 0 else pairs[i].node - previous
  }

  ghost function TerminalPart(pairs: seq<Terminal>, before: int, i: nat): seq<byte>
    requires i < |pairs|
  {
    WriteUvarint(Distance(pairs, before, i)) + WriteUvarint(pairs[i].head)
  }

  ghost function TerminalParts(pairs: seq<Terminal>, before: int): seq<seq<byte>> {
    seq(|pairs|, i requires 0 <= i < |pairs| => TerminalPart(pairs, before, i))
  }

  lemma {:induction false} PairsInOrder(pairs: seq<Terminal>, before: int)
    requires -1 <= before
    ensures PairBytes(pairs, before + 1) == Concat(TerminalParts(pairs, before))
    decreases pairs
  {
    var parts := TerminalParts(pairs, before);
    if pairs == [] {
    } else {
      var rest := pairs[1..];
      PairsInOrder(rest, pairs[0].node);
      assert parts == [parts[0]] + TerminalParts(rest, pairs[0].node);
      ConcatFront(parts[0], TerminalParts(rest, pairs[0].node));
    }
  }

  /** The terminals are their number, then for each the distance from the node before, counted from -1, and the head. */
  lemma TerminalsAre(pairs: seq<Terminal>)
    ensures TerminalBytes(pairs) == WriteUvarint(|pairs|) + Concat(TerminalParts(pairs, -1))
  {
    PairsInOrder(pairs, -1);
  }

  /** A chain's end is the byte 0, and any other value is written one larger. */
  lemma {:induction false} OptionalsAre(values: seq<nat>)
    ensures OptionalBytes(values) == Concat(seq(|values|, i requires 0 <= i < |values| =>
      if values[i] == 0xFFFF_FFFF then [0] else WriteUvarint(values[i] + 1)))
    decreases values
  {
    var parts := seq(|values|, i requires 0 <= i < |values| =>
      if values[i] == 0xFFFF_FFFF then [0] else WriteUvarint(values[i] + 1));
    if values == [] {
    } else {
      var rest := values[1..];
      OptionalsAre(rest);
      var later := seq(|rest|, i requires 0 <= i < |rest| =>
        if rest[i] == 0xFFFF_FFFF then [0] else WriteUvarint(rest[i] + 1));
      assert parts == [parts[0]] + later;
      ConcatFront(parts[0], later);
    }
  }

  // A whole stream ---------------------------------------------------------------------------

  /**
   * Three nodes in a row with tokens 300 and 5, heads 0 and 1 at the last two, and the chain of value 1 going on to
   * value 0.
   */
  ghost function SmallForm(): Stored {
    Stored([0, 1, 2, 2], [Terminal(1, 0), Terminal(2, 1)], [300, 5], [0xFFFF_FFFF, 0])
  }

  /** Node count, edge bits, terminals, edge tokens, chains. */
  ghost function SmallStream(): seq<byte> {
    [3, 5, 2, 2, 0, 1, 1, 16, 44, 1, 5, 0, 0, 1]
  }

  lemma SmallBits()
    ensures Encodes([5], LevelBits([0, 1, 2, 2], 0, 0))
  {
    var starts := [0, 1, 2, 2];
    assert LevelBits(starts, 3, 2) == [];
    assert LevelBits(starts, 2, 2) == [false];
    assert LevelBits(starts, 1, 2) == [false, false];
    assert LevelBits(starts, 1, 1) == [true, false, false];
    assert LevelBits(starts, 0, 1) == [false, true, false, false];
    var bits := [true, false, true, false, false];
    assert LevelBits(starts, 0, 0) == bits;
    forall k: nat ensures BitAt([5], k) <==> k < |bits| && bits[k] {
      if k < 8 { BitsOfFive(k); }
    }
  }

  lemma BitsOfFive(k: nat)
    ensures Bits.Bit(5, k) <==> k == 0 || k == 2
  {
    if k >= 3 {
      Bits.ZeroHasNoBits(k - 3);
      assert Bits.Bit(5, k) == Bits.Bit(2, k - 1) == Bits.Bit(1, k - 2) == Bits.Bit(0, k - 3);
    } else {
      assert Bits.Bit(5, 1) == Bits.Bit(2, 0) && Bits.Bit(5, 2) == Bits.Bit(2, 1) == Bits.Bit(1, 0);
    }
  }

  lemma SmallTerminals()
    ensures TerminalBytes(SmallForm().terminals) == [2, 2, 0, 1, 1]
  {
    var terminals := SmallForm().terminals;
    assert PairBytes(terminals[1..], 2) == [1, 1] + PairBytes(terminals[1..][1..], 3);
    assert PairBytes(terminals, 0) == [2, 0] + PairBytes(terminals[1..], 2);
  }

  lemma SmallChains()
    ensures OptionalBytes(SmallForm().next) == [0, 1]
  {
    var next := SmallForm().next;
    assert OptionalBytes(next[1..]) == [1] + OptionalBytes(next[1..][1..]);
    assert OptionalBytes(next) == [0] + OptionalBytes(next[1..]);
  }

  lemma SmallTokens()
    ensures TokenPart(SmallForm().starts, SmallForm().tokens) == [16, 44, 1, 5, 0]
  {
    var starts, tokens := SmallForm().starts, SmallForm().tokens;
    assert MaxDelta(starts, tokens, 3, 2) == 0 == MaxDelta(starts, tokens, 2, 2);
    assert MaxDelta(starts, tokens, 1, 2) == 0 && MaxDelta(starts, tokens, 1, 1) == 5;
    assert MaxDelta(starts, tokens, 0, 1) == 5 && MaxDelta(starts, tokens, 0, 0) == 300;
    SmallDeltas(starts, tokens);
  }

  lemma SmallDeltas(starts: seq<nat>, tokens: seq<nat>)
    requires starts == SmallForm().starts && tokens == SmallForm().tokens
    ensures TokenBytes(starts, tokens, 0, 0, 2) == [44, 1, 5, 0]
  {
    assert TokenBytes(starts, tokens, 3, 2, 2) == [] == TokenBytes(starts, tokens, 2, 2, 2);
    assert TokenBytes(starts, tokens, 1, 2, 2) == [];
    LittleEndianBytes(5);
    assert TokenBytes(starts, tokens, 1, 1, 2) == [5, 0] + TokenBytes(starts, tokens, 1, 2, 2);
    assert TokenBytes(starts, tokens, 0, 1, 2) == [5, 0];
    LittleEndianBytes(300);
    assert TokenBytes(starts, tokens, 0, 0, 2) == [44, 1] + TokenBytes(starts, tokens, 0, 1, 2);
  }

  /** These bytes, and in this order, are what is written and read. */
  lemma SmallStreamStored()
    ensures EncodesStored(SmallStream(), SmallForm())
    ensures DecodeStored(SmallStream(), 2, MAX_TOKEN16) == Got(SmallForm(), [])
  {
    SmallStreamEncoded();
    SmallIsStorable(SmallForm());
    assert SmallStream() + [] == SmallStream();
    StoredRoundTrip(SmallForm(), [5], SmallStream(), [], MAX_TOKEN16);
  }

  lemma SmallStreamEncoded()
    ensures EncodedAs(SmallStream(), SmallForm(), [5])
  {
    SmallBits();
    SmallTerminals();
    SmallTokens();
    SmallChains();
    SmallJoined();
  }

  lemma SmallJoined()
    ensures SmallStream() == Sections(3, [5], [2, 2, 0, 1, 1], [16, 44, 1, 5, 0], [0, 1])
  {
    assert WriteUvarint(3) == [3];
    assert SmallStream() == [3] + ([5] + ([2, 2, 0, 1, 1] + ([16, 44, 1, 5, 0] + [0, 1])));
  }

  lemma SmallIsStorable(s: Stored)
    requires s == SmallForm()
    ensures Storable(s, MAX_TOKEN16)
  {
    assert Grouped(s.starts, 3);
  }
}
