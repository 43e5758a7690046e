/** Text as ASCII bytes, and hexadecimal text over them. */
module Codec {
  import opened Outcomes
  import opened Objects

  const NEWLINE: Byte := 10

  function Ascii(s: string): (bytes: Bytes)
    requires forall i :: 0 <= i < |s| ==> s[i] as int < 128
    ensures |bytes| == |s|
  {
    seq(|s|, i requires 0 <= i < |s| => s[i] as int)
  }

  // A line without its line end, if it has one.
  function TrimLine(line: Bytes): Bytes {
    if line != [] && line[|line| - 1] == NEWLINE then line[..|line| - 1] else line
  }

  function HexDigit(n: nat): Byte
    requires n < 16
  {
    if n < 10 then '0' as int + n else 'a' as int + n - 10
  }

  function DecodeNibble(b: Byte, uppercase: bool): Option<nat> {
    if '0' as int <= b <= '9' as int then Some(b - '0' as int)
    else if 'a' as int <= b <= 'f' as int then Some(b - 'a' as int + 10)
    else if uppercase && 'A' as int <= b <= 'F' as int then Some(b - 'A' as int + 10)
    else None
  }

  // The lower-case form of a hexadecimal digit.
  function LowerDigit(b: Byte): Byte {
    if 'A' as int <= b <= 'F' as int then b + 32 else b
  }

  lemma NibbleRoundTrip(n: nat, b: Byte, uppercase: bool)
    requires n < 16
    ensures DecodeNibble(HexDigit(n), uppercase) == Some(n)
    ensures DecodeNibble(b, uppercase) == Some(n) ==> HexDigit(n) == LowerDigit(b)
  {
  }

  lemma NibbleRange(b: Byte, uppercase: bool)
    ensures DecodeNibble(b, uppercase).Some? ==> DecodeNibble(b, uppercase).value < 16
  {
  }

  function LowerHex(bytes: Bytes): Bytes {
    if bytes == [] then []
    else [HexDigit(bytes[0] / 16), HexDigit(bytes[0] % 16)] + LowerHex(bytes[1..])
  }

  method EncodeLowerHex(bytes: Bytes) returns (encoded: Bytes)
    ensures encoded == LowerHex(bytes)
  {
    encoded := [];
    for k := 0 to |bytes|
      invariant encoded + LowerHex(bytes[k..]) == LowerHex(bytes)
    {
      var high, low := HexDigit(bytes[k] / 16), HexDigit(bytes[k] % 16);
      assert bytes[k..][1..] == bytes[k + 1..];
      assert encoded + ([high, low] + LowerHex(bytes[k + 1..])) == encoded + [high] + [low] + LowerHex(bytes[k + 1..]);
      encoded := encoded + [high] + [low];
    }
  }

  function DecodeHex(encoded: Bytes, uppercase: bool): Option<Bytes> {
    if encoded == [] then Some([])
    else if |encoded| == 1 then None
    else
      var high := DecodeNibble(encoded[0], uppercase);
      var low := DecodeNibble(encoded[1], uppercase);
      var rest := DecodeHex(encoded[2..], uppercase);
      if high.None? || low.None? || rest.None? then None
      else Some([high.value * 16 + low.value] + rest.value)
  }

  lemma {:induction false} DecodeLowerHex(bytes: Bytes, uppercase: bool)
    ensures |LowerHex(bytes)| == 2 * |bytes|
    ensures DecodeHex(LowerHex(bytes), uppercase) == Some(bytes)
  {
    if bytes != [] {
      DecodeLowerHex(bytes[1..], uppercase);
      var text := LowerHex(bytes);
      assert text[2..] == LowerHex(bytes[1..]);
      NibbleRoundTrip(bytes[0] / 16, 0, uppercase);
      NibbleRoundTrip(bytes[0] % 16, 0, uppercase);
      assert [bytes[0]] + bytes[1..] == bytes;
    }
  }

  // Only lower-case text decodes strictly, and printing the result restores it.
  lemma {:induction false} StrictHexIsCanonical(encoded: Bytes)
    requires DecodeHex(encoded, false).Some?
    ensures LowerHex(DecodeHex(encoded, false).value) == encoded
  {
    if encoded != [] {
      StrictHexIsCanonical(encoded[2..]);
      var bytes := DecodeHex(encoded, false).value;
      NibbleRoundTrip(bytes[0] / 16, encoded[0], false);
      NibbleRoundTrip(bytes[0] % 16, encoded[1], false);
      assert encoded == [encoded[0], encoded[1]] + encoded[2..];
      assert bytes[1..] == DecodeHex(encoded[2..], false).value;
    }
  }

}
