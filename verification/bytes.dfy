/**
 * Fixed-width integers as they appear in the bitstream, and their
 * little-endian byte encodings (the header is written and read with
 * native-endian fread/fwrite on a little-endian host).
 */
module Bytes {

  type byte = x: int | 0 <= x < 0x100
  type uint16 = x: int | 0 <= x < 0x1_0000
  type int32 = x: int | -0x8000_0000 <= x < 0x8000_0000

  /** Value of a little-endian uint16 from its two bytes. */
  function DecodeU16(s: seq<byte>): (x: uint16)
    requires |s| == 2
  {
    s[0] as int + 0x100 * s[1] as int
  }

  /** Unsigned value of four little-endian bytes. */
  function DecodeU32(s: seq<byte>): (u: int)
    requires |s| == 4
    ensures 0 <= u < 0x1_0000_0000
  {
    s[0] as int + 0x100 * (s[1] as int + 0x100 * (s[2] as int + 0x100 * s[3] as int))
  }

  /** Value of a little-endian two's-complement int32 from its four bytes. */
  function DecodeI32(s: seq<byte>): (x: int32)
    requires |s| == 4
  {
    var u := DecodeU32(s);
    if u < 0x8000_0000 then u else u - 0x1_0000_0000
  }

  function EncodeU16(x: uint16): (s: seq<byte>)
    ensures |s| == 2
  {
    [x % 0x100, x / 0x100]
  }

  function EncodeI32(x: int32): (s: seq<byte>)
    ensures |s| == 4
  {
    var u := if x < 0 then x as int + 0x1_0000_0000 else x as int;
    var q1 := u / 0x100;
    var q2 := q1 / 0x100;
    [u % 0x100, q1 % 0x100, q2 % 0x100, q2 / 0x100]
  }

  /** Splitting `d + 256 * k` by 256 gives back its low digit and the rest. */
  lemma DigitSplit(d: int, k: int)
    requires 0 <= d < 0x100
    ensures (d + 0x100 * k) % 0x100 == d
    ensures (d + 0x100 * k) / 0x100 == k
  {
  }

  lemma U16Encode(s: seq<byte>)
    requires |s| == 2
    ensures EncodeU16(DecodeU16(s)) == s
  {
  }

  lemma I32Encode(s: seq<byte>)
    requires |s| == 4
    ensures EncodeI32(DecodeI32(s)) == s
  {
    var u := DecodeU32(s);
    DigitSplit(s[0], s[1] as int + 0x100 * (s[2] as int + 0x100 * s[3] as int));
    DigitSplit(s[1], s[2] as int + 0x100 * s[3] as int);
    DigitSplit(s[2], s[3]);
    var x := DecodeI32(s);
    assert (if x < 0 then x as int + 0x1_0000_0000 else x as int) == u;
  }
}
