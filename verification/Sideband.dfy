/** The sideband writer: a pack cut into data packets, however the producer cuts its writes. */
module Sideband {
  import opened Outcomes
  import opened Objects
  import opened PacketLine
  import opened Collections

  const CHUNK: nat := MAX_PACKET_BYTES - 5

  // Channel 1 carries pack data.
  function SidebandPackets(data: Bytes): seq<Packet> {
    if data == [] then []
    else if |data| <= CHUNK then [Data([1] + data)]
    else [Data([1] + data[..CHUNK])] + SidebandPackets(data[CHUNK..])
  }

  lemma {:induction false} SidebandEncodable(data: Bytes)
    ensures AllEncodable(SidebandPackets(data))
  {
    if |data| > CHUNK {
      SidebandEncodable(data[CHUNK..]);
    }
  }

  // What a reader of channel 1 puts together.
  function Channel1(ps: seq<Packet>): Bytes {
    if ps == [] then []
    else (if ps[0].Data? && ps[0].payload != [] && ps[0].payload[0] == 1 then ps[0].payload[1..] else []) + Channel1(ps[1..])
  }

  predicate OnlyPackData(ps: seq<Packet>) {
    forall i :: 0 <= i < |ps| ==> ps[i].Data? && ps[i].payload != [] && ps[i].payload[0] == 1
  }

  lemma {:induction false} Channel1Concat(a: seq<Packet>, b: seq<Packet>)
    ensures Channel1(a + b) == Channel1(a) + Channel1(b)
  {
    if a == [] {
      assert a + b == b;
    } else {
      assert (a + b)[1..] == a[1..] + b;
      Channel1Concat(a[1..], b);
    }
  }

  lemma {:induction false} SidebandCarries(data: Bytes)
    ensures Channel1(SidebandPackets(data)) == data
    ensures OnlyPackData(SidebandPackets(data))
  {
    if data == [] {
    } else if |data| <= CHUNK {
      var p := Data([1] + data);
      assert SidebandPackets(data) == [p] && [p][1..] == [];
      assert p.payload[1..] == data;
    } else {
      var p := Data([1] + data[..CHUNK]);
      SidebandCarries(data[CHUNK..]);
      assert SidebandPackets(data)[1..] == SidebandPackets(data[CHUNK..]);
      assert p.payload[1..] == data[..CHUNK];
      assert data[..CHUNK] + data[CHUNK..] == data;
    }
  }

  function Flatten(parts: seq<Bytes>): Bytes {
    if parts == [] then [] else parts[0] + Flatten(parts[1..])
  }

  class SidebandWriter {
    var output: Bytes

    constructor ()
      ensures output == []
    {
      output := [];
    }

    /** Cuts one write into packets; no write is ever too large. */
    method Write(data: Bytes) returns (r: Result<nat, PacketError>)
      modifies this
      ensures AllEncodable(SidebandPackets(data))
      ensures output == old(output) + Encode(SidebandPackets(data)) && r == Success(|data|)
    {
      hide Encode, SidebandPackets, EncodePacket, DecodeAll;
      SidebandEncodable(data);
      EncodeNothing();
      var offset := 0;
      assert data[0..] == data;
      while offset < |data|
        invariant 0 <= offset <= |data|
        invariant AllEncodable(SidebandPackets(data[offset..]))
        invariant output + Encode(SidebandPackets(data[offset..])) == old(output) + Encode(SidebandPackets(data))
      {
        var taken := if |data| - offset < CHUNK then |data| - offset else CHUNK;
        ghost var suffix := data[offset..];
        assert suffix[..taken] == data[offset..offset + taken] && suffix[taken..] == data[offset + taken..];
        NextPacket(suffix, taken);
        assert |data[offset..offset + taken]| == taken;
        var encoded := EncodeData([1] + data[offset..offset + taken], output);
        output := encoded.value;
        offset := offset + taken;
      }
      assert data[offset..] == [];
      r := Success(|data|);
    }
  }

  lemma EncodeNothing()
    ensures SidebandPackets([]) == [] && WritePackets([]) == [] && Encode([]) == []
  {
  }

  lemma CutOne(data: Bytes, taken: nat)
    requires data != [] && taken == if |data| < CHUNK then |data| else CHUNK
    ensures SidebandPackets(data) == [Data([1] + data[..taken])] + SidebandPackets(data[taken..])
  {
    if |data| <= CHUNK {
      assert data[..taken] == data && data[taken..] == [];
    }
  }

  lemma NextPacket(data: Bytes, taken: nat)
    requires data != [] && taken == if |data| < CHUNK then |data| else CHUNK
    ensures AllEncodable(SidebandPackets(data)) && AllEncodable(SidebandPackets(data[taken..]))
    ensures |data[..taken]| <= CHUNK
    ensures Encode(SidebandPackets(data)) == EncodePacket(Data([1] + data[..taken])) + Encode(SidebandPackets(data[taken..]))
  {
    hide EncodePacket, Encode, SidebandPackets;
    SidebandEncodable(data);
    SidebandEncodable(data[taken..]);
    CutOne(data, taken);
    EncodeFirst(data[..taken], SidebandPackets(data[taken..]));
  }

  lemma EncodeFirst(part: Bytes, rest: seq<Packet>)
    requires |part| <= CHUNK && AllEncodable([Data([1] + part)] + rest) && AllEncodable(rest)
    ensures Encode([Data([1] + part)] + rest) == EncodePacket(Data([1] + part)) + Encode(rest)
  {
    hide EncodePacket, Encode;
    var p := Data([1] + part);
    EncodeConcat([p], rest);
    EncodeOne(p);
  }

  // The packets of a whole response, write by write.
  function WritePackets(writes: seq<Bytes>): seq<Packet> {
    if writes == [] then [] else SidebandPackets(writes[0]) + WritePackets(writes[1..])
  }

  /**
   However the writer splits a pack over its writes, a reader that decodes the
   output and joins the payloads of channel 1 gets the pack back.
   */
  lemma {:induction false} ReaderGetsThePack(writes: seq<Bytes>)
    ensures AllEncodable(WritePackets(writes))
    ensures DecodeAll(Encode(WritePackets(writes))) == Success(WritePackets(writes))
    ensures OnlyPackData(WritePackets(writes))
    ensures Channel1(WritePackets(writes)) == Flatten(writes)
  {
    if writes != [] {
      ReaderGetsThePack(writes[1..]);
      SidebandEncodable(writes[0]);
      SidebandCarries(writes[0]);
      Channel1Concat(SidebandPackets(writes[0]), WritePackets(writes[1..]));
    }
    DecodeInvertsEncode(WritePackets(writes));
  }

  lemma NextWrite(writes: seq<Bytes>, k: nat)
    requires k < |writes|
    ensures AllEncodable(WritePackets(writes[k..])) && AllEncodable(SidebandPackets(writes[k]))
    ensures AllEncodable(WritePackets(writes[k + 1..]))
    ensures Encode(WritePackets(writes[k..])) == Encode(SidebandPackets(writes[k])) + Encode(WritePackets(writes[k + 1..]))
  {
    hide Encode, SidebandPackets;
    SidebandEncodable(writes[k]);
    ReaderGetsThePack(writes[k..]);
    ReaderGetsThePack(writes[k + 1..]);
    assert writes[k..][1..] == writes[k + 1..];
    EncodeConcat(SidebandPackets(writes[k]), WritePackets(writes[k + 1..]));
  }

  /** All writes of a pack through one writer. */
  method WriteAll(writes: seq<Bytes>) returns (output: Bytes)
    ensures AllEncodable(WritePackets(writes)) && output == Encode(WritePackets(writes))
  {
    hide Encode, SidebandPackets, WritePackets, AllEncodable;
    EncodeNothing();
    var writer := new SidebandWriter();
    ReaderGetsThePack(writes);
    assert writes[0..] == writes;
    for k := 0 to |writes|
      invariant AllEncodable(WritePackets(writes[k..]))
      invariant writer.output + Encode(WritePackets(writes[k..])) == Encode(WritePackets(writes))
    {
      NextWrite(writes, k);
      Reassociate(writer.output, Encode(SidebandPackets(writes[k])), Encode(WritePackets(writes[k + 1..])));
      var _ := writer.Write(writes[k]);
    }
    assert writes[|writes|..] == [];
    output := writer.output;
  }

}
