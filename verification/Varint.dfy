/** The byte stream's variable-length integers. */
module Varint {
  import opened Packed

  /** What a reader took from the stream and what it left, or a malformed stream. */
  datatype Read<+T> = Got(value: T, rest: seq<byte>) | Bad

  const LIMIT32: nat := 0x1_0000_0000
  const LIMIT64: nat := 0x1_0000_0000_0000_0000
  const MAX_BYTES: nat := 10

  function WriteUvarint(value: nat): seq<byte> {
    if value < 0x80 then [value] else [value % 0x80 + 0x80] + WriteUvarint(value / 0x80)
  }

  /** Reads from the byte numbered `i` of an integer: at most ten bytes, the last at most one. */
  function ReadUvarintFrom(stream: seq<byte>, i: nat): Read<nat>
    decreases |stream|
  {
    if i >= MAX_BYTES || stream == [] then Bad
    else
      var b: nat := stream[0];
      if b < 0x80 then (if i == MAX_BYTES - 1 && b > 1 then Bad else Got(b, stream[1..]))
      else
        match ReadUvarintFrom(stream[1..], i + 1)
        case Got(high, rest) => Got(b - 0x80 + 0x80 * high, rest)
        case Bad => Bad
  }

  function ReadUvarint(stream: seq<byte>): Read<nat> {
    ReadUvarintFrom(stream, 0)
  }

  /** What the bytes from number `i` on can hold. */
  function Room(i: nat): nat
    decreases MAX_BYTES - i
  {
    if i >= MAX_BYTES then 0 else if i == MAX_BYTES - 1 then 2 else 0x80 * Room(i + 1)
  }

  lemma {:induction false} UvarintFrom(value: nat, i: nat, rest: seq<byte>)
    requires value < Room(i)
    ensures ReadUvarintFrom(WriteUvarint(value) + rest, i) == Got(value, rest)
    decreases MAX_BYTES - i
  {
    var written := WriteUvarint(value);
    if value < 0x80 {
      assert (written + rest)[1..] == rest;
    } else {
      assert i < MAX_BYTES - 1;
      UvarintFrom(value / 0x80, i + 1, rest);
      assert (written + rest)[1..] == WriteUvarint(value / 0x80) + rest;
    }
  }

  lemma RoomForWord()
    ensures Room(0) == LIMIT64
  {
    assert Room(9) == 2 && Room(8) == 0x100 && Room(7) == 0x8000;
    assert Room(6) == 0x40_0000 && Room(5) == 0x2000_0000 && Room(4) == 0x10_0000_0000;
    assert Room(3) == 0x800_0000_0000 && Room(2) == 0x4_0000_0000_0000;
  }

  /** Reading back an integer of up to 64 bits gives it and consumes just its bytes. */
  lemma UvarintRoundTrip(value: nat, rest: seq<byte>)
    requires value < LIMIT64
    ensures ReadUvarint(WriteUvarint(value) + rest) == Got(value, rest)
  {
    RoomForWord();
    UvarintFrom(value, 0, rest);
  }

  function ReadUint32(stream: seq<byte>): Read<nat> {
    match ReadUvarint(stream)
    case Got(value, rest) => if value >= LIMIT32 then Bad else Got(value, rest)
    case Bad => Bad
  }

  function ReadCount(stream: seq<byte>, limit: nat): Read<nat> {
    match ReadUvarint(stream)
    case Got(value, rest) => if value > limit then Bad else Got(value, rest)
    case Bad => Bad
  }
}
