/** Node numbers in three bytes each, and edge offsets rebuilt from the exceptional nodes. */
module Packed {
  import opened Options

  type byte = x: nat | x < 0x100

  const LIMIT24: nat := 0x100_0000

  function Get(p: seq<byte>, index: nat): nat
    requires 3 * index + 2 < |p|
  {
    var low: nat, middle: nat, high: nat := p[3 * index], p[3 * index + 1], p[3 * index + 2];
    low + middle * 0x100 + high * 0x1_0000
  }

  /** The numbers a packed store holds. */
  function Values(p: seq<byte>): (values: seq<nat>)
    ensures |values| == |p| / 3
  {
    seq(|p| / 3, i requires 0 <= i < |p| / 3 => Get(p, i))
  }

  /** Stores the low 24 bits of `value`, leaving every other number alone. */
  method Set(p: array<byte>, index: nat, value: nat)
    requires 3 * index + 2 < p.Length
    modifies p
    ensures Values(p[..]) == Values(old(p[..]))[index := value % LIMIT24]
  {
    p[3 * index] := value % 0x100;
    p[3 * index + 1] := value / 0x100 % 0x100;
    p[3 * index + 2] := value / 0x1_0000 % 0x100;
    SplitBytes(value);
    assert Get(p[..], index) == value % LIMIT24;
    assert forall i | 0 <= i < p.Length / 3 && i != index :: Get(p[..], i) == Get(old(p[..]), i);
  }

  lemma SplitBytes(value: nat)
    ensures value % 0x100 + value / 0x100 % 0x100 * 0x100 + value / 0x1_0000 % 0x100 * 0x1_0000 == value % LIMIT24
  {
    var a, b := value / 0x100, value / 0x1_0000;
    assert value == 0x100 * a + value % 0x100;
    assert a == 0x100 * b + a % 0x100 by { assert b == a / 0x100; }
    assert b == 0x100 * (b / 0x100) + b % 0x100;
    assert value == 0x100_0000 * (b / 0x100) + (value % 0x100 + a % 0x100 * 0x100 + b % 0x100 * 0x1_0000);
  }

  method PackUint24(values: seq<nat>) returns (packed: seq<byte>)
    requires forall i | 0 <= i < |values| :: values[i] < LIMIT24
    ensures |packed| == 3 * |values| && Values(packed) == values
  {
    var p := new byte[3 * |values|](_ => 0);
    for index := 0 to |values|
      invariant forall i | 0 <= i < index :: Values(p[..])[i] == values[i]
    {
      Set(p, index, values[index]);
    }
    packed := p[..];
  }

  method Dense(p: seq<byte>) returns (values: seq<nat>)
    ensures values == Values(p)
  {
    values := [];
    for index := 0 to |p| / 3
      invariant |values| == index && forall i | 0 <= i < index :: values[i] == Get(p, i)
    {
      values := values + [Get(p, index)];
    }
  }

  // Edge offsets from corrections -----------------------------------------

  /** The correction in force at a boundary: that of the last exceptional node before it. */
  function CorrectionAt(nodes: seq<nat>, corrections: seq<int>, boundary: nat): int
    requires |nodes| == |corrections|
  {
    if nodes == [] then 0
    else if nodes[|nodes| - 1] < boundary then corrections[|nodes| - 1]
    else CorrectionAt(nodes[..|nodes| - 1], corrections[..|nodes| - 1], boundary)
  }

  ghost predicate Rising(nodes: seq<nat>) {
    forall i, j | 0 <= i < j < |nodes| :: nodes[i] < nodes[j]
  }

  ghost predicate Expressible(nodeCount: int, nodes: seq<nat>, corrections: seq<int>) {
    && 0 < nodeCount && |nodes| == |corrections| && Rising(nodes)
    && (forall i | 0 <= i < |nodes| :: nodes[i] < nodeCount)
    && forall b | 0 <= b <= nodeCount :: 0 <= b + CorrectionAt(nodes, corrections, b) < LIMIT24
  }

  lemma {:induction false} CorrectionInForce(nodes: seq<nat>, corrections: seq<int>, boundary: nat, k: nat)
    requires |nodes| == |corrections| && k <= |nodes|
    requires k < |nodes| ==> boundary <= nodes[k]
    requires Rising(nodes) || forall i | k <= i < |nodes| :: boundary <= nodes[i]
    requires 0 < k ==> nodes[k - 1] < boundary
    ensures CorrectionAt(nodes, corrections, boundary) == if k == 0 then 0 else corrections[k - 1]
    decreases |nodes|
  {
    if k >= |nodes| {
    } else {
      var m := |nodes| - 1;
      assert boundary <= nodes[m];
      CorrectionInForce(nodes[..m], corrections[..m], boundary, k);
    }
  }

  /** Builds packed offsets from the exceptional nodes, or rejects lists that express none. */
  method NewCompactEdgeStartsFromCorrections(nodeCount: int, nodes: seq<nat>, corrections: seq<int>)
    returns (r: Result<seq<byte>, string>)
    ensures r.Ok? <==> Expressible(nodeCount, nodes, corrections)
    ensures r.Ok? ==> |r.value| == 3 * (nodeCount + 1)
    ensures r.Ok? ==> forall b | 0 <= b <= nodeCount :: Values(r.value)[b] == b + CorrectionAt(nodes, corrections, b)
  {
    if nodeCount <= 0 || |nodes| != |corrections| {
      return Err("invalid compact edge offsets");
    }
    var values := new byte[3 * (nodeCount + 1)](_ => 0);
    var correction, exception := 0, 0;
    for boundary := 0 to nodeCount + 1
      invariant exception <= |nodes|
      invariant forall i | 0 <= i < exception :: nodes[i] < nodeCount && nodes[i] < boundary
      invariant forall i, j | 0 <= i < j < exception :: nodes[i] < nodes[j]
      invariant correction == if exception == 0 then 0 else corrections[exception - 1]
      invariant boundary > 0 && exception < |nodes| ==> boundary - 1 <= nodes[exception]
      invariant Rising(nodes) ==> forall b | 0 <= b < boundary ::
                  0 <= b + CorrectionAt(nodes, corrections, b) < LIMIT24
                  && Values(values[..])[b] == b + CorrectionAt(nodes, corrections, b)
    {
      while exception < |nodes| && nodes[exception] < boundary
        invariant exception <= |nodes|
        invariant forall i | 0 <= i < exception :: nodes[i] < nodeCount && nodes[i] < boundary
        invariant forall i, j | 0 <= i < j < exception :: nodes[i] < nodes[j]
        invariant correction == if exception == 0 then 0 else corrections[exception - 1]
      {
        if exception > 0 && nodes[exception] <= nodes[exception - 1] {
          return Err("invalid compact edge node");
        }
        correction := corrections[exception];
        exception := exception + 1;
      }
      var value := boundary + correction;
      if Rising(nodes) { CorrectionInForce(nodes, corrections, boundary, exception); }
      if value < 0 || value >= LIMIT24 {
        return Err("compact edge offset exceeds 24 bits");
      }
      Set(values, boundary, value);
    }
    if exception != |nodes| {
      return Err("invalid compact edge node");
    }
    r := Ok(values[..]);
  }
}
