/** The pkt-line framing of the Git wire protocol: encoder, decoder, and the boundary of a command list. */
module PacketLine {
  import opened Outcomes
  import opened Objects
  import opened Codec

  const MAX_PACKET_BYTES: nat := 65_520
  const MAX_REQUEST_BYTES: nat := 1024 * 1024

  datatype Packet = Data(payload: Bytes) | Flush | Delimiter | ResponseEnd

  datatype PacketError = RequestTooLarge | TruncatedHeader | InvalidLength | PacketTooLarge | TruncatedPacket

  // Four hexadecimal digits.
  function Header(length: nat): (h: Bytes)
    requires length < 0x1_0000
    ensures |h| == 4
  {
    [HexDigit(length / 4096), HexDigit(length / 256 % 16), HexDigit(length / 16 % 16), HexDigit(length % 16)]
  }

  function HeaderLength(h: Bytes): Option<nat>
    requires |h| == 4
  {
    var a, b, c, d := DecodeNibble(h[0], true), DecodeNibble(h[1], true), DecodeNibble(h[2], true), DecodeNibble(h[3], true);
    if a.None? || b.None? || c.None? || d.None? then None
    else Some(a.value * 4096 + b.value * 256 + c.value * 16 + d.value)
  }

  // Four base-16 digits and the number they denote.
  lemma Nibbles(length: nat)
    requires length < 0x1_0000
    ensures length / 4096 < 16
    ensures length == length / 4096 * 4096 + length / 256 % 16 * 256 + length / 16 % 16 * 16 + length % 16
  {
    var a := length / 16;
    var b := a / 16;
    assert b == length / 256;
    assert b / 16 == length / 4096;
    assert length == a * 16 + length % 16 && a == b * 16 + a % 16 && b == b / 16 * 16 + b % 16;
  }

  lemma NibblesBack(a: nat, b: nat, c: nat, d: nat)
    requires a < 16 && b < 16 && c < 16 && d < 16
    ensures var length := a * 4096 + b * 256 + c * 16 + d;
            length / 4096 == a && length / 256 % 16 == b && length / 16 % 16 == c && length % 16 == d && length < 0x1_0000
  {
    var length := a * 4096 + b * 256 + c * 16 + d;
    assert length / 16 == a * 256 + b * 16 + c;
    assert length / 256 == a * 16 + b;
  }

  lemma HeaderRoundTrip(length: nat)
    requires length < 0x1_0000
    ensures HeaderLength(Header(length)) == Some(length)
  {
    hide HexDigit, DecodeNibble;
    Nibbles(length);
    NibbleRoundTrip(length / 4096, 0, true);
    NibbleRoundTrip(length / 256 % 16, 0, true);
    NibbleRoundTrip(length / 16 % 16, 0, true);
    NibbleRoundTrip(length % 16, 0, true);
  }

  predicate Encodable(p: Packet) {
    p.Data? ==> 0 < |p.payload| <= MAX_PACKET_BYTES - 4
  }

  function EncodePacket(p: Packet): Bytes
    requires Encodable(p)
  {
    match p
    case Data(payload) => Header(|payload| + 4) + payload
    case Flush => Header(0)
    case Delimiter => Header(1)
    case ResponseEnd => Header(2)
  }

  predicate AllEncodable(ps: seq<Packet>) {
    forall i :: 0 <= i < |ps| ==> Encodable(ps[i])
  }

  function Encode(ps: seq<Packet>): Bytes
    requires AllEncodable(ps)
  {
    if ps == [] then [] else EncodePacket(ps[0]) + Encode(ps[1..])
  }

  // The packet at the front of the input and the bytes it takes.
  function First(input: Bytes): (r: Result<(Packet, nat), PacketError>)
    requires input != []
    ensures r.Success? ==> 4 <= r.value.1 <= |input| && Encodable(r.value.0)
  {
    if |input| < 4 then Failure(TruncatedHeader)
    else
      var length := HeaderLength(input[..4]);
      if length.None? then Failure(InvalidLength)
      else if length.value == 0 then Success((Flush, 4))
      else if length.value == 1 then Success((Delimiter, 4))
      else if length.value == 2 then Success((ResponseEnd, 4))
      else if length.value <= 4 then Failure(InvalidLength)
      else if length.value > MAX_PACKET_BYTES then Failure(PacketTooLarge)
      else if length.value > |input| then Failure(TruncatedPacket)
      else Success((Data(input[4..length.value]), length.value))
  }

  // All packets of the input, or the first error.
  function DecodeAll(input: Bytes): (r: Result<seq<Packet>, PacketError>)
    ensures r.Success? ==> AllEncodable(r.value)
  {
    if input == [] then Success([])
    else
      match First(input)
      case Failure(error) => Failure(error)
      case Success((packet, taken)) =>
        match DecodeAll(input[taken..])
        case Failure(error) => Failure(error)
        case Success(rest) => Success([packet] + rest)
  }

  function Prepend(ps: seq<Packet>, r: Result<seq<Packet>, PacketError>): Result<seq<Packet>, PacketError> {
    if r.Success? then Success(ps + r.value) else r
  }

  lemma PrependOne(ps: seq<Packet>, p: Packet, r: Result<seq<Packet>, PacketError>)
    ensures Prepend(ps, Prepend([p], r)) == Prepend(ps + [p], r)
  {
    if r.Success? {
      assert ps + ([p] + r.value) == ps + [p] + r.value;
    }
  }

  /** The decoder's loop over an offset. */
  method Decode(input: Bytes) returns (r: Result<seq<Packet>, PacketError>)
    ensures r == if |input| > MAX_REQUEST_BYTES then Failure(RequestTooLarge) else DecodeAll(input)
  {
    hide First;
    if |input| > MAX_REQUEST_BYTES {
      return Failure(RequestTooLarge);
    }
    var packets: seq<Packet> := [];
    var offset := 0;
    assert input[0..] == input;
    assert DecodeAll(input).Success? ==> [] + DecodeAll(input).value == DecodeAll(input).value;
    while offset < |input|
      invariant 0 <= offset <= |input|
      invariant Prepend(packets, DecodeAll(input[offset..])) == DecodeAll(input)
    {
      var suffix := input[offset..];
      var first := First(suffix);
      if first.Failure? {
        return Failure(first.error);
      }
      var (packet, taken) := first.value;
      assert suffix[taken..] == input[offset + taken..];
      PrependOne(packets, packet, DecodeAll(input[offset + taken..]));
      packets := packets + [packet];
      offset := offset + taken;
    }
    assert input[offset..] == [] && packets + [] == packets;
    r := Success(packets);
  }

  lemma FirstOfEncoded(p: Packet, rest: Bytes)
    requires Encodable(p)
    ensures EncodePacket(p) + rest != []
    ensures First(EncodePacket(p) + rest) == Success((p, |EncodePacket(p)|))
  {
    var input := EncodePacket(p) + rest;
    match p
    case Data(payload) =>
      HeaderRoundTrip(|payload| + 4);
      assert input[..4] == Header(|payload| + 4);
      assert input[4..|payload| + 4] == payload;
    case Flush =>
      HeaderRoundTrip(0);
      assert input[..4] == Header(0);
    case Delimiter =>
      HeaderRoundTrip(1);
      assert input[..4] == Header(1);
    case ResponseEnd =>
      HeaderRoundTrip(2);
      assert input[..4] == Header(2);
  }

  /** Decoding inverts encoding on every sequence of non-empty data packets and control packets. */
  lemma {:induction false} DecodeInvertsEncode(ps: seq<Packet>)
    requires AllEncodable(ps)
    ensures DecodeAll(Encode(ps)) == Success(ps)
  {
    hide EncodePacket, First;
    if ps != [] {
      var rest := Encode(ps[1..]);
      FirstOfEncoded(ps[0], rest);
      assert Encode(ps)[|EncodePacket(ps[0])|..] == rest;
      DecodeInvertsEncode(ps[1..]);
      assert [ps[0]] + ps[1..] == ps;
    }
  }

  // The first packet does not depend on what follows it.
  lemma FirstIsLocal(a: Bytes, b: Bytes)
    requires a != [] && First(a).Success?
    ensures First(a + b) == First(a)
  {
    assert (a + b)[..4] == a[..4];
    var taken := First(a).value.1;
    assert (a + b)[4..taken] == a[4..taken];
  }

  lemma {:induction false} EncodeConcat(a: seq<Packet>, b: seq<Packet>)
    requires AllEncodable(a) && AllEncodable(b)
    ensures Encode(a + b) == Encode(a) + Encode(b)
  {
    hide EncodePacket;
    if a == [] {
      assert a + b == b;
    } else {
      assert (a + b)[1..] == a[1..] + b;
      EncodeConcat(a[1..], b);
    }
  }

  lemma EncodeOne(p: Packet)
    requires Encodable(p)
    ensures Encode([p]) == EncodePacket(p)
  {
    assert [p][1..] == [];
    assert EncodePacket(p) + [] == EncodePacket(p);
  }

  lemma {:induction false} DecodeConcat(a: Bytes, b: Bytes)
    requires DecodeAll(a).Success?
    ensures DecodeAll(a + b) == Prepend(DecodeAll(a).value, DecodeAll(b))
    decreases |a|
  {
    hide First;
    if a == [] {
      assert a + b == b;
      assert DecodeAll(b).Success? ==> [] + DecodeAll(b).value == DecodeAll(b).value;
    } else {
      FirstIsLocal(a, b);
      var (packet, taken) := First(a).value;
      assert (a + b)[taken..] == a[taken..] + b;
      DecodeConcat(a[taken..], b);
      var rest := DecodeAll(a[taken..]).value;
      assert DecodeAll(b).Success? ==> [packet] + (rest + DecodeAll(b).value) == [packet] + rest + DecodeAll(b).value;
    }
  }

  // What no packet starts with.
  predicate Broken(input: Bytes, error: PacketError) {
    if |input| < 4 then error == TruncatedHeader
    else
      var length := HeaderLength(input[..4]);
      if length.None? || length.value == 3 || length.value == 4 then error == InvalidLength
      else if length.value > MAX_PACKET_BYTES then error == PacketTooLarge
      else length.value > |input| && length.value > 4 && error == TruncatedPacket
  }

  lemma BrokenIsFailure(input: Bytes, error: PacketError)
    requires input != []
    ensures First(input) == Failure(error) <==> Broken(input, error)
  {
    hide HeaderLength;
  }

  /** Decoding fails exactly behind whole packets that are followed by what no packet starts with. */
  lemma DecodeFailsExactly(input: Bytes, error: PacketError)
    ensures DecodeAll(input) == Failure(error) <==>
              exists k :: 0 <= k < |input| && DecodeAll(input[..k]).Success? && Broken(input[k..], error)
  {
    hide First, Broken, DecodeAll;
    if DecodeAll(input) == Failure(error) {
      var k := FailureIsSomewhere(input, error);
    }
    if k :| 0 <= k < |input| && DecodeAll(input[..k]).Success? && Broken(input[k..], error) {
      assert input == input[..k] + input[k..];
      DecodeConcat(input[..k], input[k..]);
      BrokenFails(input[k..], error);
    }
  }

  lemma BrokenFails(input: Bytes, error: PacketError)
    requires input != [] && Broken(input, error)
    ensures DecodeAll(input) == Failure(error)
  {
    hide First, Broken;
    BrokenIsFailure(input, error);
  }

  lemma {:induction false} FailureIsSomewhere(input: Bytes, error: PacketError) returns (k: nat)
    requires DecodeAll(input) == Failure(error)
    ensures k < |input| && DecodeAll(input[..k]).Success? && Broken(input[k..], error)
    decreases |input|
  {
    hide First, Broken;
    BrokenIsFailure(input, error);
    if First(input).Failure? {
      assert input[0..] == input && input[..0] == [];
      k := 0;
    } else {
      var taken := First(input).value.1;
      var more := FailureIsSomewhere(input[taken..], error);
      assert input[..taken + more] == input[..taken] + input[taken..][..more] && input[taken..][more..] == input[taken + more..];
      FirstOfWhole(input, taken);
      DecodeConcat(input[..taken], input[taken..][..more]);
      k := taken + more;
    }
  }

  lemma FirstOfWhole(input: Bytes, taken: nat)
    requires input != [] && First(input).Success? && taken == First(input).value.1
    ensures DecodeAll(input[..taken]).Success?
  {
    assert input[..taken][..4] == input[..4];
    assert input[..taken][taken..] == [];
  }

  // The input with the hexadecimal digits of every header in lower case.
  function LowerHeaders(input: Bytes): Bytes
    requires DecodeAll(input).Success?
  {
    if input == [] then []
    else
      var taken := First(input).value.1;
      [LowerDigit(input[0]), LowerDigit(input[1]), LowerDigit(input[2]), LowerDigit(input[3])]
      + input[4..taken] + LowerHeaders(input[taken..])
  }

  /**
   Appends one data packet.  A decoder of the whole output finds what it found
   before and then this packet; only data of no length, which the encoder lets
   through, makes the output undecodable.
   */
  method EncodeData(data: Bytes, output: Bytes) returns (r: Result<Bytes, PacketError>)
    ensures r.Failure? <==> |data| > MAX_PACKET_BYTES - 4
    ensures r.Failure? ==> r.error == PacketTooLarge
    ensures r.Success? && data != [] ==> Encodable(Data(data)) && r.value == output + EncodePacket(Data(data))
    ensures r.Success? && DecodeAll(output).Success? ==>
              DecodeAll(r.value) == if data == [] then Failure(InvalidLength) else Success(DecodeAll(output).value + [Data(data)])
  {
    var length := |data| + 4;
    if length > MAX_PACKET_BYTES {
      return Failure(PacketTooLarge);
    }
    AppendedDecodes(data, output);
    r := Success(output + Header(length) + data);
  }

  lemma AppendedDecodes(data: Bytes, output: Bytes)
    requires |data| + 4 <= MAX_PACKET_BYTES
    ensures data != [] ==> output + Header(|data| + 4) + data == output + EncodePacket(Data(data))
    ensures DecodeAll(output).Success? ==>
              DecodeAll(output + Header(|data| + 4) + data) ==
              if data == [] then Failure(InvalidLength) else Success(DecodeAll(output).value + [Data(data)])
  {
    hide DecodeAll, Header, First;
    var packet := Header(|data| + 4) + data;
    assert output + Header(|data| + 4) + data == output + packet;
    OneDataDecodes(data);
    if DecodeAll(output).Success? {
      DecodeConcat(output, packet);
    }
  }

  lemma OneDataDecodes(data: Bytes)
    requires |data| + 4 <= MAX_PACKET_BYTES
    ensures DecodeAll(Header(|data| + 4) + data) == if data == [] then Failure(InvalidLength) else Success([Data(data)])
  {
    hide Header, First, EncodePacket, DecodeAll, Encode;
    if data == [] {
      EmptyIsInvalid();
      assert Header(4) + [] == Header(4);
    } else {
      var p := Data(data);
      EncodeOne(p);
      EncodesAsHeader(data);
      assert AllEncodable([p]);
      DecodeInvertsEncode([p]);
    }
  }

  lemma EncodesAsHeader(data: Bytes)
    requires 0 < |data| <= MAX_PACKET_BYTES - 4
    ensures EncodePacket(Data(data)) == Header(|data| + 4) + data
  {
  }

  lemma EmptyIsInvalid()
    ensures DecodeAll(Header(4)) == Failure(InvalidLength)
  {
    hide Header, HeaderLength;
    HeaderRoundTrip(4);
    assert Header(4)[..4] == Header(4);
  }

  lemma HeaderIsLowered(h: Bytes)
    requires |h| == 4 && HeaderLength(h).Some?
    ensures HeaderLength(h).value < 0x1_0000
    ensures Header(HeaderLength(h).value) == [LowerDigit(h[0]), LowerDigit(h[1]), LowerDigit(h[2]), LowerDigit(h[3])]
  {
    hide HexDigit, DecodeNibble, LowerDigit;
    var a, b, c, d := DecodeNibble(h[0], true).value, DecodeNibble(h[1], true).value,
                      DecodeNibble(h[2], true).value, DecodeNibble(h[3], true).value;
    NibbleRange(h[0], true);
    NibbleRange(h[1], true);
    NibbleRange(h[2], true);
    NibbleRange(h[3], true);
    NibblesBack(a, b, c, d);
    NibbleRoundTrip(a, h[0], true);
    NibbleRoundTrip(b, h[1], true);
    NibbleRoundTrip(c, h[2], true);
    NibbleRoundTrip(d, h[3], true);
  }

  /** Encoding what was decoded restores the input, except that header digits come out in lower case. */
  lemma {:induction false} EncodeRestoresInput(input: Bytes)
    requires DecodeAll(input).Success?
    ensures Encode(DecodeAll(input).value) == LowerHeaders(input)
    decreases |input|
  {
    if input != [] {
      var (packet, taken) := First(input).value;
      HeaderIsLowered(input[..4]);
      assert EncodePacket(packet) == Header(HeaderLength(input[..4]).value) + input[4..taken];
      var ps := DecodeAll(input).value;
      assert ps[1..] == DecodeAll(input[taken..]).value;
      EncodeRestoresInput(input[taken..]);
    }
  }

}
