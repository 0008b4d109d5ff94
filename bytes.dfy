/** Byte buffers and the little-endian integer fields read out of them. */
module Bytes {
  import opened Types

  type byte = b: int | 0 <= b < 256

  const UINT32_MOD: int := 0x1_0000_0000

  /** The uint32 stored little-endian at s[off..off + 4]. */
  function U32At(s: seq<byte>, off: int): (v: int)
    requires 0 <= off && off + 4 <= |s|
    ensures 0 <= v < UINT32_MOD
    ensures v % 256 == s[off] && v / 0x100_0000 == s[off + 3]
  {
    var b0, b1, b2, b3: int := s[off], s[off + 1], s[off + 2], s[off + 3];
    b0 + 0x100 * b1 + 0x1_0000 * b2 + 0x100_0000 * b3
  }

  /** The int32 stored little-endian (two's complement) at s[off..off + 4]. */
  function I32At(s: seq<byte>, off: int): (v: int)
    requires 0 <= off && off + 4 <= |s|
    ensures INT32_MIN <= v <= INT32_MAX
    ensures v < 0 <==> s[off + 3] >= 0x80
  {
    var u := U32At(s, off);
    if u <= INT32_MAX then u else u - UINT32_MOD
  }
}
