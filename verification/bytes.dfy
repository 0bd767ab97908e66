/**
  Fixed-width unsigned integers and their byte encodings, least significant
  byte first. The save stream writes primitives in the machine's native
  order; this model fixes little-endian.
 */
module Bytes {
  import opened Util

  /** One byte of the stream, as its value 0..255. */
  type byte = x: nat | x < 0x100

  const TWO8: nat := 0x100
  const TWO16: nat := 0x1_0000
  const TWO31: nat := 0x8000_0000
  const TWO32: nat := 0x1_0000_0000
  const TWO64: nat := 0x1_0000_0000_0000_0000

  type u8 = x: nat | x < TWO8
  type u16 = x: nat | x < TWO16
  type u32 = x: nat | x < TWO32
  type u64 = x: nat | x < TWO64

  /** The values an `int32_t` holds. */
  predicate IsI32(x: int) {
    -(TWO31 as int) <= x < TWO31
  }

  function WriteU8(x: u8): (r: seq<byte>)
    ensures |r| == 1
  {
    [x]
  }

  function ReadU8(s: seq<byte>): (r: Option<(u8, seq<byte>)>)
    ensures r.None? <==> |s| < 1
    ensures r.Some? ==> r.value.1 == s[1..]
  {
    if |s| < 1 then None else Some((s[0], s[1..]))
  }

  function WriteU16(x: u16): (r: seq<byte>)
    ensures |r| == 2
  {
    [x % 0x100, x / 0x100]
  }

  function ReadU16(s: seq<byte>): (r: Option<(u16, seq<byte>)>)
    ensures r.None? <==> |s| < 2
    ensures r.Some? ==> r.value.1 == s[2..]
  {
    if |s| < 2 then None
    else Some((s[0] as int + 0x100 * s[1] as int, s[2..]))
  }

  function WriteU32(x: u32): (r: seq<byte>)
    ensures |r| == 4
  {
    [x % 0x100, (x / 0x100) % 0x100, (x / 0x1_0000) % 0x100, x / 0x100_0000]
  }

  function ReadU32(s: seq<byte>): (r: Option<(u32, seq<byte>)>)
    ensures r.None? <==> |s| < 4
    ensures r.Some? ==> r.value.1 == s[4..]
  {
    if |s| < 4 then None
    else Some((s[0] as int + 0x100 * s[1] as int + 0x1_0000 * s[2] as int + 0x100_0000 * s[3] as int, s[4..]))
  }

  lemma {:induction false} U8RoundTrip(x: u8, rest: seq<byte>)
    ensures ReadU8(WriteU8(x) + rest) == Some((x, rest))
  {
    assert (WriteU8(x) + rest)[1..] == rest;
  }

  lemma {:induction false} U16RoundTrip(x: u16, rest: seq<byte>)
    ensures ReadU16(WriteU16(x) + rest) == Some((x, rest))
  {
    var s := WriteU16(x) + rest;
    assert s[2..] == rest;
    assert s[0] == x % 0x100;
    assert s[1] == x / 0x100;
  }

  /** Four base-256 digits put back together give the number. */
  lemma Digits4(x: u32)
    ensures x == x % 0x100 + 0x100 * ((x / 0x100) % 0x100)
                 + 0x1_0000 * ((x / 0x1_0000) % 0x100) + 0x100_0000 * (x / 0x100_0000)
  {
    var y := x / 0x100;
    var z := y / 0x100;
    assert x == x % 0x100 + 0x100 * y;
    assert y == y % 0x100 + 0x100 * z;
    assert z == z % 0x100 + 0x100 * (z / 0x100);
    assert x / 0x1_0000 == z;
    assert x / 0x100_0000 == z / 0x100;
  }

  lemma {:induction false} U32RoundTrip(x: u32, rest: seq<byte>)
    ensures ReadU32(WriteU32(x) + rest) == Some((x, rest))
  {
    var s := WriteU32(x) + rest;
    assert s[4..] == rest;
    Digits4(x);
  }

  /** `int32_t` through its two's complement bit pattern. */
  function WriteI32(x: int): (r: seq<byte>)
    requires IsI32(x)
    ensures |r| == 4
  {
    WriteU32(if x < 0 then x + TWO32 else x)
  }

  function ReadI32(s: seq<byte>): (r: Option<(int, seq<byte>)>)
    ensures r.None? <==> |s| < 4
    ensures r.Some? ==> IsI32(r.value.0) && r.value.1 == s[4..]
  {
    match ReadU32(s)
    case None => None
    case Some((v, rest)) => Some((if v >= TWO31 then v - TWO32 else v, rest))
  }

  lemma {:induction false} I32RoundTrip(x: int, rest: seq<byte>)
    requires IsI32(x)
    ensures ReadI32(WriteI32(x) + rest) == Some((x, rest))
  {
    U32RoundTrip(if x < 0 then x + TWO32 else x, rest);
  }
}
