/**
 Bytes, big-endian integers, and the growable byte buffer (`BytesMut`) that every
 encoder appends to and patches.
 */
module Bytes {

  newtype byte = x: int | 0 <= x < 0x100
  type u16 = x: int | 0 <= x < 0x1_0000
  type u32 = x: int | 0 <= x < 0x1_0000_0000
  type i16 = x: int | -0x8000 <= x < 0x8000
  type i32 = x: int | -0x8000_0000 <= x < 0x8000_0000

  const U16_MAX: int := 0xffff
  const I16_MAX: int := 0x7fff
  const I32_MAX: int := 0x7fff_ffff
  const U32_MAX: int := 0xffff_ffff

  function U16Bytes(x: u16): (b: seq<byte>)
    ensures |b| == 2
  {
    [(x / 0x100) as byte, (x % 0x100) as byte]
  }

  function U16Of(b: seq<byte>): u16
    requires |b| == 2
  {
    b[0] as int * 0x100 + b[1] as int
  }

  function U32Bytes(x: u32): (b: seq<byte>)
    ensures |b| == 4
  {
    U16Bytes(x / 0x1_0000) + U16Bytes(x % 0x1_0000)
  }

  function U32Of(b: seq<byte>): u32
    requires |b| == 4
  {
    U16Of(b[..2]) * 0x1_0000 + U16Of(b[2..])
  }

  // Two's complement reinterpretation, as Rust's `as` does between equal widths.
  function I32FromU32(x: u32): i32 {
    if x <= I32_MAX then x else x - 0x1_0000_0000
  }

  function U32FromI32(x: i32): u32 {
    if x >= 0 then x else x + 0x1_0000_0000
  }

  function I16FromU16(x: u16): i16 {
    if x <= I16_MAX then x else x - 0x1_0000
  }

  function U16FromI16(x: i16): u16 {
    if x >= 0 then x else x + 0x1_0000
  }

  // `n as i32` and `n as i16` for an unsigned machine integer: the low bits.
  function WrapI32(n: nat): i32 {
    I32FromU32(n % 0x1_0000_0000)
  }

  function WrapI16(n: nat): i16 {
    I16FromU16(n % 0x1_0000)
  }

  function I32Bytes(x: i32): (b: seq<byte>)
    ensures |b| == 4
  {
    U32Bytes(U32FromI32(x))
  }

  function I32Of(b: seq<byte>): i32
    requires |b| == 4
  {
    I32FromU32(U32Of(b))
  }

  function I16Bytes(x: i16): (b: seq<byte>)
    ensures |b| == 2
  {
    U16Bytes(U16FromI16(x))
  }

  function I16Of(b: seq<byte>): i16
    requires |b| == 2
  {
    I16FromU16(U16Of(b))
  }

  lemma WrapFits(n: nat)
    ensures n <= I32_MAX ==> WrapI32(n) == n
    ensures n <= I16_MAX ==> WrapI16(n) == n
  {}

  lemma U16RoundTrip(x: u16)
    ensures U16Of(U16Bytes(x)) == x
  {}

  lemma U32RoundTrip(x: u32)
    ensures U32Of(U32Bytes(x)) == x
  {
    var hi, lo := U16Bytes(x / 0x1_0000), U16Bytes(x % 0x1_0000);
    assert (hi + lo)[..2] == hi && (hi + lo)[2..] == lo;
  }

  lemma I32RoundTrip(x: i32)
    ensures I32Of(I32Bytes(x)) == x
  {
    U32RoundTrip(U32FromI32(x));
  }

  lemma I16RoundTrip(x: i16)
    ensures I16Of(I16Bytes(x)) == x
  {}

  lemma U16Only(b: seq<byte>)
    requires |b| == 2
    ensures U16Bytes(U16Of(b)) == b
  {}

  lemma I32Only(b: seq<byte>)
    requires |b| == 4
    ensures I32Bytes(I32Of(b)) == b
  {
    var n := U32Of(b);
    assert U32FromI32(I32FromU32(n)) == n;
    U16Only(b[..2]);
    U16Only(b[2..]);
    assert U16Of(b[2..]) < 0x1_0000;
    assert n / 0x1_0000 == U16Of(b[..2]) && n % 0x1_0000 == U16Of(b[2..]);
    assert b == b[..2] + b[2..];
  }

  /** Overwrites the bytes of `s` from `at` on with `patch`. */
  function Patched(s: seq<byte>, at: nat, patch: seq<byte>): (r: seq<byte>)
    requires at + |patch| <= |s|
    ensures |r| == |s|
  {
    s[..at] + patch + s[at + |patch|..]
  }

  lemma PatchedMiddle(prefix: seq<byte>, hole: seq<byte>, suffix: seq<byte>, patch: seq<byte>)
    requires |hole| == |patch|
    ensures Patched(prefix + hole + suffix, |prefix|, patch) == prefix + patch + suffix
  {}

  /** The growable buffer. */
  class BytesMut {
    var data: seq<byte>

    constructor ()
      ensures data == []
    {
      data := [];
    }

    method Put(s: seq<byte>)
      modifies this
      ensures data == old(data) + s
    {
      data := data + s;
    }

    method Patch(at: nat, patch: seq<byte>)
      requires at + |patch| <= |data|
      modifies this
      ensures data == Patched(old(data), at, patch)
    {
      data := Patched(data, at, patch);
    }

    method Truncate(n: nat)
      requires n <= |data|
      modifies this
      ensures data == old(data)[..n]
    {
      data := data[..n];
    }

    /** Removes and returns the first `n` bytes. */
    method SplitTo(n: nat) returns (head: seq<byte>)
      requires n <= |data|
      modifies this
      ensures head == old(data)[..n] && data == old(data)[n..]
    {
      head := data[..n];
      data := data[n..];
    }

    /** Removes and returns everything. */
    method Split() returns (all: seq<byte>)
      modifies this
      ensures all == old(data) && data == []
    {
      all := data;
      data := [];
    }

    method Clear()
      modifies this
      ensures data == []
    {
      data := [];
    }
  }
}
