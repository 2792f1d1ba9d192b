/** Bytes, and machine words as little-endian byte sequences. */
module Bytes {

  newtype byte = x: int | 0 <= x < 256

  const U16: nat := 0x1_0000
  const U32: nat := 0x1_0000_0000

  function Le16(x: nat): (s: seq<byte>)
    ensures |s| == 2
  {
    [(x % 256) as byte, (x / 256 % 256) as byte]
  }

  function FromLe16(s: seq<byte>): nat
    requires |s| == 2
  {
    s[0] as int + 256 * s[1] as int
  }

  function Le32(x: nat): (s: seq<byte>)
    ensures |s| == 4
  {
    Le16(x % U16) + Le16(x / U16)
  }

  function FromLe32(s: seq<byte>): nat
    requires |s| == 4
  {
    FromLe16(s[..2]) + U16 * FromLe16(s[2..])
  }

  lemma Le16RoundTrip(x: nat)
    ensures x < U16 <==> FromLe16(Le16(x)) == x
  {
    assert x % 256 + 256 * (x / 256) == x;
  }

  lemma Le32RoundTrip(x: nat)
    ensures x < U32 ==> FromLe32(Le32(x)) == x
  {
    Le16RoundTrip(x % U16);
    Le16RoundTrip(x / U16);
    assert Le32(x)[..2] == Le16(x % U16) && Le32(x)[2..] == Le16(x / U16);
  }
}
