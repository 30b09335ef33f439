/**
 * The hex text the tests use to state byte vectors: `HexToBytes` turns a hex
 * string into bytes (padding an odd-length string with a leading '0' and
 * turning any pair that is not two hex digits into byte 0), and the hex dump
 * (`BitConverter.ToString` with the dashes removed, optionally lower-cased)
 * turns bytes back into text.
 */
module Hex {
  import opened Bytes
  import opened Options

  /** The value of one hexadecimal digit, either case. */
  function HexDigit(c: char): (r: Option<nat>)
    ensures r.Some? ==> r.value < 16
  {
    if '0' <= c <= '9' then Some(c as int - '0' as int)
    else if 'a' <= c <= 'f' then Some(c as int - 'a' as int + 10)
    else if 'A' <= c <= 'F' then Some(c as int - 'A' as int + 10)
    else None
  }

  /** `Convert.ToByte(pair, 16)`, with a pair it cannot parse read as 0. */
  function PairByte(hi: char, lo: char): byte
  {
    match (HexDigit(hi), HexDigit(lo))
    case (Some(h), Some(l)) => (16 * h + l) as byte
    case _ => 0
  }

  /** An odd-length string gets a leading '0'. */
  function Padded(hex: string): (p: string)
    ensures |p| % 2 == 0
  {
    if |hex| % 2 == 1 then "0" + hex else hex
  }

  /** What `HexToBytes` returns: one byte per pair of the padded string. */
  function HexDecode(hex: string): (r: seq<byte>)
    ensures |r| == (|hex| + 1) / 2
  {
    var p := Padded(hex);
    seq(|p| / 2, k requires 0 <= k < |p| / 2 => PairByte(p[2 * k], p[2 * k + 1]))
  }

  /** `HexToBytes`: fills a fresh array pair by pair. */
  method HexToBytes(hex: string) returns (bytes: array<byte>)
    ensures fresh(bytes)
    ensures bytes[..] == HexDecode(hex)
  {
    var h := hex;
    if |h| % 2 == 1 {
      h := "0" + h;
    }
    var numberChars := |h|;
    bytes := new byte[numberChars / 2];
    var i := 0;
    while i < numberChars
      invariant 0 <= i <= numberChars && i % 2 == 0
      invariant h == Padded(hex)
      invariant forall k :: 0 <= k < i / 2 ==> bytes[k] == PairByte(h[2 * k], h[2 * k + 1])
    {
      var hi, lo := HexDigit(h[i]), HexDigit(h[i + 1]);
      if hi.Some? && lo.Some? {
        bytes[i / 2] := (16 * hi.value + lo.value) as byte;
      } else {
        bytes[i / 2] := 0;
      }
      i := i + 2;
    }
  }

  // ---------------------------------------------------------------- hex dump

  /** The digit for a value below 16, upper- or lower-case. */
  function DigitChar(d: nat, upper: bool): (c: char)
    requires d < 16
    ensures HexDigit(c) == Some(d)
  {
    if d < 10 then ('0' as int + d) as char
    else if upper then ('A' as int + d - 10) as char
    else ('a' as int + d - 10) as char
  }

  /** The hex dump of bytes, two digits per byte, most significant digit first. */
  function HexEncode(b: seq<byte>, upper: bool): (s: string)
    ensures |s| == 2 * |b|
  {
    if b == [] then ""
    else [DigitChar(b[0] as nat / 16, upper), DigitChar(b[0] as nat % 16, upper)] + HexEncode(b[1..], upper)
  }

  /** Byte k of the input occupies characters 2k and 2k+1 of the dump. */
  lemma {:induction false} HexEncodeAt(b: seq<byte>, upper: bool, k: nat)
    requires k < |b|
    ensures HexEncode(b, upper)[2 * k] == DigitChar(b[k] as nat / 16, upper)
    ensures HexEncode(b, upper)[2 * k + 1] == DigitChar(b[k] as nat % 16, upper)
  {
    if k > 0 {
      HexEncodeAt(b[1..], upper, k - 1);
    }
  }

  /** The two digits written for a byte read back as that byte. */
  lemma PairOfDigits(x: byte, upper: bool)
    ensures PairByte(DigitChar(x as nat / 16, upper), DigitChar(x as nat % 16, upper)) == x
  {
    var q, r := x as nat / 16, x as nat % 16;
    assert HexDigit(DigitChar(q, upper)) == Some(q) && HexDigit(DigitChar(r, upper)) == Some(r);
    assert 16 * q + r == x as nat;
  }

  /** Reading back a hex dump gives the bytes, whichever case the dump used. */
  lemma HexDecodeEncode(b: seq<byte>, upper: bool)
    ensures HexDecode(HexEncode(b, upper)) == b
  {
    var s := HexEncode(b, upper);
    assert Padded(s) == s;
    forall k | 0 <= k < |b|
      ensures HexDecode(s)[k] == b[k]
    {
      HexEncodeAt(b, upper, k);
      PairOfDigits(b[k], upper);
    }
  }

  /** A pair that is not two hex digits reads as 0; this is what happens to non-hex text. */
  lemma UnparsablePairIsZero(hex: string, k: nat)
    requires |hex| % 2 == 0 && 2 * k + 1 < |hex|
    requires HexDigit(hex[2 * k]).None? || HexDigit(hex[2 * k + 1]).None?
    ensures HexDecode(hex)[k] == 0
  {
  }

  /** An odd-length string reads exactly as the string with a leading '0'. */
  lemma OddLengthPadding(hex: string)
    requires |hex| % 2 == 1
    ensures HexDecode(hex) == HexDecode("0" + hex)
    ensures HexDecode(hex)[0] == PairByte('0', hex[0])
  {
  }
}
