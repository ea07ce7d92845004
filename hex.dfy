/**
 * Base16 text of byte strings, as `hex_encode` and `hex_decode` in
 * nextgen/src/main.rs produce and read it (the alphabet of section 8 of
 * RFC 4648, written in lower case).
 */
module Hex {
  import opened Wrappers
  import opened Rust

  predicate IsLowerHexDigit(c: char) {
    '0' <= c <= '9' || 'a' <= c <= 'f'
  }

  /** The lower-case digit for a nibble. */
  function NibbleDigit(d: nat): (c: char)
    requires d < 16
    ensures IsLowerHexDigit(c)
  {
    if d < 10 then ('0' as int + d) as char else ('a' as int + d - 10) as char
  }

  /** `format!("{:02x}", b)`: high nibble first, zero padded. */
  function EncodeByte(b: byte): string {
    [NibbleDigit(b / 16), NibbleDigit(b % 16)]
  }

  /** `hex_encode`: every byte becomes two lower-case hex digits, in order. */
  function HexEncode(bytes: seq<byte>): (s: string)
    ensures |s| == 2 * |bytes|
    ensures forall i :: 0 <= i < |s| ==> IsLowerHexDigit(s[i])
  {
    if bytes == [] then [] else EncodeByte(bytes[0]) + HexEncode(bytes[1..])
  }

  /** `char::to_digit(16)`: both cases of letters are accepted. */
  function DigitValue(c: char): (r: Option<byte>)
    ensures r.Some? ==> r.value < 16
    ensures r.Some? <==> ('0' <= c <= '9' || 'a' <= c <= 'f' || 'A' <= c <= 'F')
  {
    if '0' <= c <= '9' then Some(c as int - '0' as int)
    else if 'a' <= c <= 'f' then Some(c as int - 'a' as int + 10)
    else if 'A' <= c <= 'F' then Some(c as int - 'A' as int + 10)
    else None
  }

  /**
   * `u8::from_str_radix(pair, 16)` on a two-character ASCII text. Rust accepts
   * a leading `+` for unsigned types, so "+a" parses as 10.
   */
  function ParsePair(c0: char, c1: char): Option<byte> {
    if c0 == '+' then
      DigitValue(c1)
    else
      match (DigitValue(c0), DigitValue(c1))
      case (Some(hi), Some(lo)) => Some(16 * hi + lo)
      case _ => None
  }

  /**
   * How `hex_decode` fails: `u8::from_str_radix` returns an error, or the byte
   * slice `s[i..i + 2]` panics because it runs past the end of the text (odd
   * byte length) or cuts a multi-byte character.
   */
  datatype HexError = InvalidDigit | SlicePanic

  /**
   * `hex_decode`: the text is cut into two-byte slices from the front; the
   * first slice that cannot be cut or parsed decides the failure.
   */
  function HexDecode(s: string): (r: Result<seq<byte>, HexError>)
    ensures r.Ok? ==> |s| == 2 * |r.value|
    ensures r.Ok? ==> Utf8Len(s) == |s|
    decreases |s|
  {
    if s == [] then Ok([])
    // a two-byte character fills the whole slice, and its first byte is no digit
    else if CharLen(s[0]) == 2 then Err(InvalidDigit)
    // the slice ends past the text or inside a character
    else if CharLen(s[0]) > 2 || |s| == 1 || CharLen(s[1]) != 1 then Err(SlicePanic)
    else
      match ParsePair(s[0], s[1])
      case None => Err(InvalidDigit)
      case Some(b) =>
        match HexDecode(s[2..])
        case Ok(rest) => Ok([b] + rest)
        case Err(e) => Err(e)
  }

  /** Decoding undoes encoding. */
  lemma {:induction false} HexRoundTrip(bytes: seq<byte>)
    ensures HexDecode(HexEncode(bytes)) == Ok(bytes)
  {
    if bytes != [] {
      var s := HexEncode(bytes);
      var b := bytes[0];
      assert s == EncodeByte(b) + HexEncode(bytes[1..]);
      assert s[2..] == HexEncode(bytes[1..]);
      assert ParsePair(s[0], s[1]) == Some(b);
      HexRoundTrip(bytes[1..]);
      assert [b] + bytes[1..] == bytes;
    }
  }

  /** Two byte strings with the same hex text are equal. */
  lemma HexEncodeInjective(a: seq<byte>, b: seq<byte>)
    requires HexEncode(a) == HexEncode(b)
    ensures a == b
  {
    HexRoundTrip(a);
    HexRoundTrip(b);
  }

  /** Decoding is not canonical: a `+` sign followed by one digit is a byte. */
  lemma PlusSignedPairDecodes()
    ensures HexDecode("+a") == Ok([10])
    ensures HexDecode("0a") == Ok([10])
  {
    var plus: string := "+a";
    assert plus[0] == '+' && plus[2..] == [];
    assert ParsePair(plus[0], plus[1]) == Some(10);
    assert HexDecode(plus) == Ok([10] + []);
    assert [10] + [] == [10];
    assert HexDecode(plus) == Ok([10]);
    var zero: string := "0a";
    assert zero[2..] == [];
    assert HexDecode(zero) == Ok([10] + []);
    assert HexDecode(zero) == Ok([10]);
  }

  /** An odd-length text of lower-case hex digits ends in the slicing panic. */
  lemma {:induction false} OddLengthPanics(s: string)
    requires |s| % 2 == 1
    requires forall i :: 0 <= i < |s| ==> IsLowerHexDigit(s[i])
    ensures HexDecode(s) == Err(SlicePanic)
    decreases |s|
  {
    if |s| > 1 {
      OddLengthPanics(s[2..]);
    }
  }
}
