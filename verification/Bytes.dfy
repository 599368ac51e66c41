/** Bytes, fixed-width big-endian integers and the growable buffer all codecs share. */
module Bytes {

  type byte = b: int | 0 <= b < 256

  type bytes = seq<byte>

  type u16 = n: int | 0 <= n < 0x1_0000

  type u32 = n: int | 0 <= n < 0x1_0000_0000

  type u64 = n: int | 0 <= n < 0x1_0000_0000_0000_0000

  // ---------------------------------------------------------------- integers

  const U16_SIZE: nat := 0x1_0000
  const U24_SIZE: nat := 0x100_0000
  const U32_SIZE: nat := 0x1_0000_0000
  const U64_SIZE: nat := 0x1_0000_0000_0000_0000

  /** Two big-endian bytes. Like a cast to `u16`, it keeps the low 16 bits only. */
  function U16(n: nat): (s: bytes)
    ensures |s| == 2
  {
    [n / 256 % 256, n % 256]
  }

  function ReadU16(s: bytes): (n: nat)
    requires |s| >= 2
    ensures n < U16_SIZE
  {
    s[0] as int * 256 + s[1] as int
  }

  function U24(n: nat): (s: bytes)
    ensures |s| == 3
  {
    [n / U16_SIZE % 256] + U16(n % U16_SIZE)
  }

  function ReadU24(s: bytes): (n: nat)
    requires |s| >= 3
    ensures n < U24_SIZE
  {
    s[0] as int * U16_SIZE + ReadU16(s[1..])
  }

  function U32(n: nat): (s: bytes)
    ensures |s| == 4
  {
    U16(n / U16_SIZE) + U16(n % U16_SIZE)
  }

  function ReadU32(s: bytes): (n: nat)
    requires |s| >= 4
    ensures n < U32_SIZE
  {
    ReadU16(s) * U16_SIZE + ReadU16(s[2..])
  }

  function U64(n: nat): (s: bytes)
    ensures |s| == 8
  {
    U32(n / U32_SIZE) + U32(n % U32_SIZE)
  }

  function ReadU64(s: bytes): (n: nat)
    requires |s| >= 8
    ensures n < U64_SIZE
  {
    ReadU32(s) * U32_SIZE + ReadU32(s[4..])
  }

  /** Reading back a 16-bit field gives the value modulo 2^16, whatever follows the field. */
  lemma U16RoundTrip(n: nat, rest: bytes)
    ensures ReadU16(U16(n) + rest) == n % U16_SIZE
  {}

  /** Writing what was read gives the same bytes. */
  lemma U16Back(s: bytes)
    requires |s| == 2
    ensures U16(ReadU16(s)) == s
  {}

  lemma U32Back(s: bytes)
    requires |s| == 4
    ensures U32(ReadU32(s)) == s
  {
    U16Back(s[..2]);
    U16Back(s[2..]);
    assert ReadU32(s) / U16_SIZE == ReadU16(s) == ReadU16(s[..2]) && ReadU32(s) % U16_SIZE == ReadU16(s[2..]);
    assert s == s[..2] + s[2..];
  }

  lemma U32RoundTrip(n: nat, rest: bytes)
    requires n < U32_SIZE
    ensures ReadU32(U32(n) + rest) == n
  {}

  lemma U64RoundTrip(n: nat, rest: bytes)
    requires n < U64_SIZE
    ensures ReadU64(U64(n) + rest) == n
  {
    U32RoundTrip(n / U32_SIZE, U32(n % U32_SIZE) + rest);
    U32RoundTrip(n % U32_SIZE, rest);
    assert U64(n) + rest == U32(n / U32_SIZE) + (U32(n % U32_SIZE) + rest);
    assert (U64(n) + rest)[4..] == U32(n % U32_SIZE) + rest;
  }

  // ------------------------------------------------------------------ buffer

  /** The growable buffer: readers consume it from the front, writers append to it. */
  class BytesMut {
    var data: bytes

    constructor (initial: bytes)
      ensures data == initial
    {
      data := initial;
    }

    method Advance(n: nat)
      requires n <= |data|
      modifies this
      ensures data == old(data)[n..]
    {
      data := data[n..];
    }

    method SplitTo(n: nat) returns (front: bytes)
      requires n <= |data|
      modifies this
      ensures front == old(data)[..n]
      ensures data == old(data)[n..]
    {
      front := data[..n];
      data := data[n..];
    }

    method GetU8() returns (n: byte)
      requires |data| >= 1
      modifies this
      ensures n == old(data)[0] && data == old(data)[1..]
    {
      n := data[0];
      data := data[1..];
    }

    method GetU16() returns (n: nat)
      requires |data| >= 2
      modifies this
      ensures n == ReadU16(old(data)) && data == old(data)[2..]
    {
      n := ReadU16(data);
      data := data[2..];
    }

    method PutSlice(s: bytes)
      modifies this
      ensures data == old(data) + s
    {
      data := data + s;
    }
  }

  /** The 16-bit field at offset `p`. */
  function At16(s: bytes, p: nat): (n: nat)
    requires p + 2 <= |s|
    ensures n < U16_SIZE
  {
    ReadU16(s[p..p + 2])
  }

  /** Readers that keep track of where in the original bytes the cursor stands. */
  method TakeAt(buffer: BytesMut, n: nat, ghost s: bytes, ghost p: nat) returns (front: bytes)
    requires p + n <= |s| && buffer.data == s[p..]
    modifies buffer
    ensures front == s[p..p + n] && buffer.data == s[p + n..]
  {
    front := buffer.SplitTo(n);
  }

  method TakeU8At(buffer: BytesMut, ghost s: bytes, ghost p: nat) returns (n: byte)
    requires p + 1 <= |s| && buffer.data == s[p..]
    modifies buffer
    ensures n == s[p] && buffer.data == s[p + 1..]
  {
    n := buffer.GetU8();
  }

  method TakeU16At(buffer: BytesMut, ghost s: bytes, ghost p: nat) returns (n: nat)
    requires p + 2 <= |s| && buffer.data == s[p..]
    modifies buffer
    ensures n == At16(s, p) && buffer.data == s[p + 2..]
  {
    assert s[p..][..2] == s[p..p + 2];
    n := buffer.GetU16();
  }

  /** A source of random bytes. Callers know the length of what they get and nothing else. */
  method RandomBytes(n: nat) returns (r: bytes)
    ensures |r| == n
  {
    r := seq(n, _ => 0);
  }
}
