/** Bytes, and the little-endian integers of the packet and frame headers. */
module Bytes {

  type byte = bv8

  const U16: nat := 0x1_0000
  const U32: nat := 0x1_0000_0000

  type u16 = n: nat | n < U16
  type u32 = n: nat | n < U32

  /** An integer kept in 32 bits. */
  function Wrap32(v: int): u32 {
    v % U32
  }

  function Xor(a: byte, b: byte): byte {
    a ^ b
  }

  lemma XorTwice(a: byte, b: byte)
    ensures Xor(Xor(a, b), b) == a
  {}

  function ByteOf(n: nat): byte
    requires n < 256
  {
    n as byte
  }

  function NatOf(b: byte): nat {
    b as nat
  }

  lemma NatOfBound(b: byte)
    ensures NatOf(b) < 256
  {}

  lemma ByteOfNatOf(b: byte)
    ensures NatOf(b) < 256 && ByteOf(NatOf(b)) == b
  {}

  lemma SuccessorByte(b: byte)
    requires b != 255
    ensures NatOf(b + 1) == NatOf(b) + 1
  {}

  /** By counting up, which spares the solver the bits of an arbitrary n. */
  lemma {:induction false} NatOfByteOf(n: nat)
    requires n < 256
    ensures NatOf(ByteOf(n)) == n
  {
    hide ByteOf, NatOf;
    if n == 0 {
      ZeroByte();
    } else {
      NatOfByteOf(n - 1);
      var b := ByteOf(n - 1);
      ByteOfTop(b);
      SuccessorByte(b);
      ByteOfNatOf(b + 1);
    }
  }

  lemma ByteOfTop(b: byte)
    ensures NatOf(b) < 255 ==> b != 255
  {}

  lemma ZeroByte()
    ensures NatOf(ByteOf(0)) == 0
  {}

  function Le16(v: u16): (s: seq<byte>)
    ensures |s| == 2
  {
    [ByteOf(v % 256), ByteOf(v / 256)]
  }

  function FromLe16(s: seq<byte>): (v: u16)
    requires |s| >= 2
  {
    NatOfBound(s[0]);
    NatOfBound(s[1]);
    NatOf(s[0]) + 256 * NatOf(s[1])
  }

  function Le32(v: u32): (s: seq<byte>)
    ensures |s| == 4
  {
    [ByteOf(v % 256), ByteOf(v / 256 % 256), ByteOf(v / 0x1_0000 % 256), ByteOf(v / 0x100_0000)]
  }

  function FromLe32(s: seq<byte>): (v: u32)
    requires |s| >= 4
  {
    NatOfBound(s[0]);
    NatOfBound(s[1]);
    NatOfBound(s[2]);
    NatOfBound(s[3]);
    NatOf(s[0]) + 256 * NatOf(s[1]) + 0x1_0000 * NatOf(s[2]) + 0x100_0000 * NatOf(s[3])
  }

  lemma Le16RoundTrip(v: u16, tail: seq<byte>)
    ensures FromLe16(Le16(v) + tail) == v
  {
    hide ByteOf, NatOf;
    NatOfByteOf(v % 256);
    NatOfByteOf(v / 256);
  }

  lemma FourDigits(v: u32)
    ensures v == v % 256 + 256 * (v / 256 % 256) + 0x1_0000 * (v / 0x1_0000 % 256) + 0x100_0000 * (v / 0x100_0000)
    ensures v / 0x100_0000 < 256
  {
    assert v / 0x1_0000 == v / 256 / 256;
    assert v / 0x100_0000 == v / 0x1_0000 / 256;
  }

  lemma Le32RoundTrip(v: u32, tail: seq<byte>)
    ensures FromLe32(Le32(v) + tail) == v
  {
    hide ByteOf, NatOf;
    FourDigits(v);
    NatOfByteOf(v % 256);
    NatOfByteOf(v / 256 % 256);
    NatOfByteOf(v / 0x1_0000 % 256);
    NatOfByteOf(v / 0x100_0000);
  }

  /** The parts one after the other. */
  function Concat(parts: seq<seq<byte>>): seq<byte> {
    if parts == [] then [] else parts[0] + Concat(parts[1..])
  }

  lemma {:induction false} ConcatAppend(a: seq<seq<byte>>, b: seq<seq<byte>>)
    ensures Concat(a + b) == Concat(a) + Concat(b)
    decreases |a|
  {
    if a == [] {
      assert a + b == b;
    } else {
      assert (a + b)[1..] == a[1..] + b;
      ConcatAppend(a[1..], b);
    }
  }
}
