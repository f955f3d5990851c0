/** Octets and the big-endian fields of the wire formats. */
module Bytes {
  type byte = x: int | 0 <= x < 0x100
  type uint16 = x: int | 0 <= x < 0x1_0000
  type uint32 = x: int | 0 <= x < 0x1_0000_0000
  type bytes = seq<byte>
  type Ipv4Address = a: bytes | |a| == 4 witness [0, 0, 0, 0]

  function U16(x: uint16): (b: bytes)
    ensures |b| == 2 && ReadU16(b, 0) == x
  {
    [x / 0x100, x % 0x100]
  }

  function U32(x: uint32): (b: bytes)
    ensures |b| == 4 && ReadU32(b, 0) == x
  {
    [x / 0x100_0000, x / 0x1_0000 % 0x100, x / 0x100 % 0x100, x % 0x100]
  }

  function ReadU16(data: bytes, at: nat): uint16
    requires at + 2 <= |data|
  {
    var high: int, low: int := data[at], data[at + 1];
    high * 0x100 + low
  }

  function ReadU32(data: bytes, at: nat): uint32
    requires at + 4 <= |data|
  {
    var high: int, low: int := ReadU16(data, at), ReadU16(data, at + 2);
    high * 0x1_0000 + low
  }

  lemma SubSlice(data: bytes, from: nat, to: nat, at: nat, end: nat)
    requires from <= to <= |data| && at <= end && from + end <= to
    ensures data[from..to][at..end] == data[from + at..from + end]
  {
    var whole := data[from..to];
    forall k | 0 <= k < end - at
      ensures whole[at..end][k] == data[from + at..from + end][k]
    {
      assert whole[at + k] == data[from + at + k];
    }
  }

  lemma SliceReads(data: bytes, from: nat, to: nat, at: nat)
    requires from <= to <= |data|
    ensures from + at + 2 <= to ==> ReadU16(data[from..to], at) == ReadU16(data, from + at)
    ensures from + at + 4 <= to ==> ReadU32(data[from..to], at) == ReadU32(data, from + at)
  {
  }

  lemma FieldsRead(first: uint16, second: uint16)
    ensures ReadU16(U16(first) + U16(second), 0) == first
    ensures ReadU16(U16(first) + U16(second), 2) == second
  {
  }

  function Zeros(n: nat): (b: bytes)
    ensures |b| == n && forall i :: 0 <= i < n ==> b[i] == 0
  {
    seq(n, _ => 0)
  }

  /** What a field keeps of a number: all of one that fits. */
  function Low16(x: nat): (low: uint16)
    ensures x <= 0xFFFF ==> low == x
  {
    x % 0x1_0000
  }

  function Low32(x: nat): (low: uint32)
    ensures x <= 0xFFFF_FFFF ==> low == x
  {
    x % 0x1_0000_0000
  }
}
