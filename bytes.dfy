/**
 * Bytes and the little-endian 32-bit integers that BSON uses for every length
 * prefix and for Int32 payloads.
 */
module Bytes {

  newtype byte = x: int | 0 <= x < 256

  const INT32_MIN: int := -0x8000_0000
  const INT32_MAX: int := 0x7FFF_FFFF
  const TWO_32: int := 0x1_0000_0000

  /** A .NET `int`: a two's-complement 32-bit integer. */
  type int32 = x: int | INT32_MIN <= x <= INT32_MAX

  /** 256^k, the number of distinct values of a k-byte unsigned integer. */
  function Pow256(k: nat): (r: nat)
    ensures r >= 1
  {
    if k == 0 then 1 else 256 * Pow256(k - 1)
  }

  /** The k least significant bytes of u, least significant first. */
  function LeBytes(u: nat, k: nat): (r: seq<byte>)
    ensures |r| == k
  {
    if k == 0 then [] else [(u % 256) as byte] + LeBytes(u / 256, k - 1)
  }

  /** The unsigned value of a little-endian byte string. */
  function LeValue(s: seq<byte>): (r: nat)
    ensures r < Pow256(|s|)
  {
    if s == [] then 0
    else
      var rest := LeValue(s[1..]);
      assert rest <= Pow256(|s| - 1) - 1;
      s[0] as nat + 256 * rest
  }

  /** Reading back k bytes written from a value that fits in k bytes gives the value. */
  lemma {:induction false} LeValueOfLeBytes(u: nat, k: nat)
    requires u < Pow256(k)
    ensures LeValue(LeBytes(u, k)) == u
  {
    if k > 0 {
      var s := LeBytes(u, k);
      assert s[1..] == LeBytes(u / 256, k - 1);
      LeValueOfLeBytes(u / 256, k - 1);
    }
  }

  /** Writing back the value of a byte string reproduces the byte string. */
  lemma {:induction false} LeBytesOfLeValue(s: seq<byte>)
    ensures LeBytes(LeValue(s), |s|) == s
  {
    if s != [] {
      var v := LeValue(s);
      assert v % 256 == s[0] as nat && v / 256 == LeValue(s[1..]);
      LeBytesOfLeValue(s[1..]);
    }
  }

  /** The four bytes a BSON writer emits for a 32-bit integer (two's complement, wrapping). */
  function Le32(x: int): (r: seq<byte>)
    ensures |r| == 4
  {
    LeBytes(x % TWO_32, 4)
  }

  /** The signed 32-bit integer stored little-endian in four bytes. */
  function Int32Of(s: seq<byte>): (r: int32)
    requires |s| == 4
  {
    assert Pow256(4) == TWO_32;
    var u := LeValue(s);
    if u <= INT32_MAX then u else u - TWO_32
  }

  /** Decoding an encoded int32 gives it back. */
  lemma Int32RoundTrip(x: int32)
    ensures Int32Of(Le32(x)) == x
  {
    assert Pow256(4) == TWO_32;
    LeValueOfLeBytes(x % TWO_32, 4);
  }

  /** Encoding a decoded int32 reproduces the four bytes: every 4-byte string is some int32. */
  lemma BytesRoundTrip(s: seq<byte>)
    requires |s| == 4
    ensures Le32(Int32Of(s)) == s
  {
    assert Pow256(4) == TWO_32;
    LeBytesOfLeValue(s);
  }

  /** The bytes of an ASCII string, one per character. */
  function Ascii(s: string): (r: seq<byte>)
    requires forall i :: 0 <= i < |s| ==> s[i] < 128 as char
    ensures |r| == |s| && forall i :: 0 <= i < |s| ==> r[i] as int == s[i] as int
  {
    seq(|s|, i requires 0 <= i < |s| => s[i] as int as byte)
  }
}
