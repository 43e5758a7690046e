/** A fetch from its negotiation to the response: what the client asks for, and the pack it reads out of the answer. */
module Fetch {
  import opened Outcomes
  import opened Objects
  import opened Walks
  import opened Codec
  import opened PacketLine
  import opened Collections
  import opened Sideband
  import PackContents

  const MAX_NEGOTIATION_IDS: nat := 256
  const MAX_PACK_BYTES: nat := 256 * 1024 * 1024

  datatype FetchError =
    | InvalidObjectId
    | UnsupportedRequest
    | NegotiationLimit
    | IncompleteNegotiation
    | Selection(error: PackContents.WalkError)
    | PackByteLimit

  datatype Line = Want(id: ObjectId) | Have(id: ObjectId) | Done | Capability | Pause

  // What one line of the request says.  `parseId` reads an identifier of the repository's object format.
  function ReadLine(line: Bytes, parseId: Bytes -> Option<ObjectId>): Result<Line, FetchError> {
    if Ascii("want ") <= line then
      (match parseId(line[5..]) case Some(id) => Success(Want(id)) case None => Failure(InvalidObjectId))
    else if Ascii("have ") <= line then
      (match parseId(line[5..]) case Some(id) => Success(Have(id)) case None => Failure(InvalidObjectId))
    else if line == Ascii("done") then Success(Done)
    else if line == Ascii("thin-pack") || line == Ascii("no-progress") || line == Ascii("include-tag") || line == Ascii("ofs-delta")
    then Success(Capability)
    else Failure(UnsupportedRequest)
  }

  function ReadPacket(p: Packet, parseId: Bytes -> Option<ObjectId>): Result<Line, FetchError> {
    match p
    case Flush => Success(Pause)
    case Delimiter => Failure(UnsupportedRequest)
    case ResponseEnd => Failure(UnsupportedRequest)
    case Data(payload) => ReadLine(TrimLine(payload), parseId)
  }

  // Everything the request asks for or offers, repetitions included.
  function Ids(ps: seq<Packet>, parseId: Bytes -> Option<ObjectId>, haves: bool): seq<ObjectId> {
    if ps == [] then []
    else
      var line := ReadPacket(ps[|ps| - 1], parseId);
      Ids(ps[..|ps| - 1], parseId, haves)
      + (if line.Success? && (if haves then line.value.Have? else line.value.Want?) then [line.value.id] else [])
  }

  function Unique(ids: seq<ObjectId>): seq<ObjectId> {
    if ids == [] then []
    else
      var front := Unique(ids[..|ids| - 1]);
      if ids[|ids| - 1] in front then front else front + [ids[|ids| - 1]]
  }

  // Dropping repetitions keeps every identifier once.
  lemma {:induction false} UniqueIsExact(ids: seq<ObjectId>)
    ensures forall id :: id in Unique(ids) <==> id in ids
    ensures forall i, j :: 0 <= i < j < |Unique(ids)| ==> Unique(ids)[i] != Unique(ids)[j]
  {
    if ids != [] {
      UniqueIsExact(ids[..|ids| - 1]);
      assert ids == ids[..|ids| - 1] + [ids[|ids| - 1]];
    }
  }

  /** Repetitions change nothing about what is reachable. */
  lemma UniqueKeepsClosure(e: Edges, ids: seq<ObjectId>)
    ensures Closure(e, Unique(ids)) == Closure(e, ids)
    ensures forall id :: FromRoots(e, Unique(ids), id) <==> FromRoots(e, ids, id)
  {
    UniqueIsExact(ids);
  }

  predicate AllRead(ps: seq<Packet>, parseId: Bytes -> Option<ObjectId>) {
    forall i :: 0 <= i < |ps| ==> ReadPacket(ps[i], parseId).Success?
  }

  predicate SaysDone(ps: seq<Packet>, parseId: Bytes -> Option<ObjectId>) {
    exists i :: 0 <= i < |ps| && ReadPacket(ps[i], parseId) == Success(Done)
  }

  predicate WithinLimits(ps: seq<Packet>, parseId: Bytes -> Option<ObjectId>) {
    |Unique(Ids(ps, parseId, false))| <= MAX_NEGOTIATION_IDS && |Unique(Ids(ps, parseId, true))| <= MAX_NEGOTIATION_IDS
  }

  datatype Negotiation = Negotiation(wants: seq<ObjectId>, haves: seq<ObjectId>, done: bool)

  lemma {:induction false} LongerAsksMore(ps: seq<Packet>, k: nat, parseId: Bytes -> Option<ObjectId>, haves: bool)
    requires k <= |ps|
    ensures |Unique(Ids(ps[..k], parseId, haves))| <= |Unique(Ids(ps, parseId, haves))|
    decreases |ps|
  {
    hide ReadPacket, Ids, Unique;
    if k == |ps| {
      assert ps[..k] == ps;
    } else {
      var front := ps[..|ps| - 1];
      assert ps[..k] == front[..k];
      LongerAsksMore(front, k, parseId, haves);
      OneMore(front, ps[|ps| - 1], parseId, haves);
      assert front + [ps[|ps| - 1]] == ps;
    }
  }

  lemma OneMore(front: seq<Packet>, p: Packet, parseId: Bytes -> Option<ObjectId>, haves: bool)
    ensures var line := ReadPacket(p, parseId);
            var before := Unique(Ids(front, parseId, haves));
            Unique(Ids(front + [p], parseId, haves)) ==
            if line.Success? && (if haves then line.value.Have? else line.value.Want?) && line.value.id !in before
            then before + [line.value.id] else before
  {
    hide ReadPacket;
    var ps := front + [p];
    assert ps[..|ps| - 1] == front;
    var ids := Ids(front, parseId, haves);
    var line := ReadPacket(p, parseId);
    if line.Success? && (if haves then line.value.Have? else line.value.Want?) {
      assert (ids + [line.value.id])[..|ids|] == ids;
    } else {
      assert ids + [] == ids;
    }
  }

  /** Reads a request; it is accepted exactly when every packet is understood, something is wanted and no list is too long. */
  method Negotiate(ps: seq<Packet>, parseId: Bytes -> Option<ObjectId>) returns (r: Result<Negotiation, FetchError>)
    ensures r.Success? <==> AllRead(ps, parseId) && WithinLimits(ps, parseId) && Ids(ps, parseId, false) != []
    ensures r.Success? ==>
              r.value == Negotiation(Unique(Ids(ps, parseId, false)), Unique(Ids(ps, parseId, true)), SaysDone(ps, parseId))
    ensures r == Failure(NegotiationLimit) ==> !WithinLimits(ps, parseId)
    ensures r == Failure(IncompleteNegotiation) ==> Ids(ps, parseId, false) == []
    ensures r.Failure? ==> r.error != PackByteLimit && !r.error.Selection?
    ensures r.Failure? && r.error != NegotiationLimit && r.error != IncompleteNegotiation ==>
              exists i :: 0 <= i < |ps| && ReadPacket(ps[i], parseId) == Failure(r.error)
  {
    hide ReadPacket, Ids, Unique;
    NothingAsked(parseId);
    var wants: seq<ObjectId>, haves: seq<ObjectId> := [], [];
    var uniqueWants: set<ObjectId>, uniqueHaves: set<ObjectId> := {}, {};
    var done := false;
    assert ps[..0] == [];
    for k := 0 to |ps|
      invariant AllRead(ps[..k], parseId) && WithinLimits(ps[..k], parseId)
      invariant wants == Unique(Ids(ps[..k], parseId, false)) && haves == Unique(Ids(ps[..k], parseId, true))
      invariant (forall id :: id in uniqueWants <==> id in wants) && forall id :: id in uniqueHaves <==> id in haves
      invariant done <==> SaysDone(ps[..k], parseId)
    {
      assert ps[..k + 1] == ps[..k] + [ps[k]];
      OneMore(ps[..k], ps[k], parseId, false);
      OneMore(ps[..k], ps[k], parseId, true);
      DoneGrows(ps[..k], ps[k], parseId);
      var line := ReadPacket(ps[k], parseId);
      if line.Failure? {
        ReadErrors(ps[k], parseId);
        return Failure(line.error);
      }
      match line.value {
        case Want(id) =>
          if id !in uniqueWants {
            uniqueWants := uniqueWants + {id};
            wants := wants + [id];
          }
        case Have(id) =>
          if id !in uniqueHaves {
            uniqueHaves := uniqueHaves + {id};
            haves := haves + [id];
          }
        case Done => done := true;
        case _ =>
      }
      LongerAsksMore(ps, k + 1, parseId, false);
      LongerAsksMore(ps, k + 1, parseId, true);
      if |wants| > MAX_NEGOTIATION_IDS || |haves| > MAX_NEGOTIATION_IDS {
        return Failure(NegotiationLimit);
      }
    }
    assert ps[..|ps|] == ps;
    NothingWanted(Ids(ps, parseId, false));
    if wants == [] {
      return Failure(IncompleteNegotiation);
    }
    r := Success(Negotiation(wants, haves, done));
  }

  lemma NothingAsked(parseId: Bytes -> Option<ObjectId>)
    ensures forall haves :: Unique(Ids([], parseId, haves)) == []
  {
  }

  lemma NothingWanted(ids: seq<ObjectId>)
    ensures Unique(ids) == [] <==> ids == []
  {
    UniqueIsExact(ids);
    if ids != [] {
      assert ids[0] in Unique(ids);
    }
  }

  lemma DoneGrows(front: seq<Packet>, p: Packet, parseId: Bytes -> Option<ObjectId>)
    ensures SaysDone(front + [p], parseId) <==> SaysDone(front, parseId) || ReadPacket(p, parseId) == Success(Done)
  {
    hide ReadPacket;
    var ps := front + [p];
    assert ps[|front|] == p;
    if SaysDone(front, parseId) {
      var i :| 0 <= i < |front| && ReadPacket(front[i], parseId) == Success(Done);
      assert ps[i] == front[i];
    }
  }

  lemma ReadErrors(p: Packet, parseId: Bytes -> Option<ObjectId>)
    ensures ReadPacket(p, parseId).Failure? ==>
              ReadPacket(p, parseId).error == InvalidObjectId || ReadPacket(p, parseId).error == UnsupportedRequest
  {
  }

  // The writer between the pack producer and the sideband, which counts what passes.
  class CountingWriter {
    const inner: SidebandWriter
    const limit: nat
    var written: nat

    constructor (inner: SidebandWriter, limit: nat)
      ensures this.inner == inner && this.limit == limit && written == 0
    {
      this.inner := inner;
      this.limit := limit;
      written := 0;
    }

    method Write(data: Bytes) returns (ok: bool)
      modifies this, inner
      ensures AllEncodable(SidebandPackets(data))
      ensures ok <==> old(written) + |data| <= limit
      ensures inner.output == if ok then old(inner.output) + Encode(SidebandPackets(data)) else old(inner.output)
      ensures written == if ok then old(written) + |data| else old(written)
    {
      SidebandEncodable(data);
      var total := written + |data|;
      if total > limit {
        return false;
      }
      var _ := inner.Write(data);
      written := total;
      ok := true;
    }
  }

  lemma {:induction false} FlattenParts(writes: seq<Bytes>, k: nat)
    requires k <= |writes|
    ensures |Flatten(writes)| == |Flatten(writes[..k])| + |Flatten(writes[k..])|
    ensures k < |writes| ==> |Flatten(writes[..k + 1])| == |Flatten(writes[..k])| + |writes[k]|
    decreases k
  {
    if k == 0 {
      assert writes[0..] == writes && writes[..0] == [];
      if writes != [] {
        assert writes[..1][1..] == [];
        assert Flatten(writes[..1]) == writes[0] + [];
      }
    } else {
      FlattenParts(writes[1..], k - 1);
      assert writes[..k][1..] == writes[1..][..k - 1] && writes[1..][k - 1..] == writes[k..];
      if k < |writes| {
        assert writes[..k + 1][1..] == writes[1..][..k];
      }
    }
  }

  /** Sends a pack through both writers; it fits exactly when the whole of it is within the limit, however it is cut. */
  method WritePack(writes: seq<Bytes>, start: Bytes) returns (r: Result<Bytes, FetchError>)
    ensures AllEncodable(WritePackets(writes))
    ensures r == if |Flatten(writes)| <= MAX_PACK_BYTES then Success(start + Encode(WritePackets(writes))) else Failure(PackByteLimit)
  {
    hide Encode, SidebandPackets, WritePackets, AllEncodable, Flatten;
    EncodeNothing();
    ReaderGetsThePack(writes);
    var sideband := new SidebandWriter();
    sideband.output := start;
    var writer := new CountingWriter(sideband, MAX_PACK_BYTES);
    assert writes[0..] == writes && writes[..0] == [];
    EmptyFlatten();
    for k := 0 to |writes|
      invariant writer.inner == sideband && writer.limit == MAX_PACK_BYTES
      invariant AllEncodable(WritePackets(writes[k..]))
      invariant sideband.output + Encode(WritePackets(writes[k..])) == start + Encode(WritePackets(writes))
      invariant writer.written == |Flatten(writes[..k])| <= MAX_PACK_BYTES
    {
      NextWrite(writes, k);
      Reassociate(sideband.output, Encode(SidebandPackets(writes[k])), Encode(WritePackets(writes[k + 1..])));
      FlattenParts(writes, k);
      FlattenParts(writes, k + 1);
      var ok := writer.Write(writes[k]);
      if !ok {
        return Failure(PackByteLimit);
      }
    }
    assert writes[|writes|..] == [] && writes[..|writes|] == writes;
    assert sideband.output + [] == sideband.output;
    r := Success(sideband.output);
  }

  lemma EmptyFlatten()
    ensures Flatten([]) == []
  {
  }

  const HEADLINE: Packet := Data(Ascii("packfile\n"))
  const ACKNOWLEDGE: seq<Packet> := [Data(Ascii("acknowledgments\n")), Data(Ascii("NAK\n")), Flush]

  // What the client finds in a finished response.
  predicate CarriesPack(output: Bytes, pack: Bytes) {
    && DecodeAll(output).Success?
    && var ps := DecodeAll(output).value;
       && |ps| >= 2 && ps[0] == HEADLINE && ps[|ps| - 1] == Flush
       && OnlyPackData(ps[1..|ps| - 1]) && Channel1(ps[1..|ps| - 1]) == pack
  }

  // Why a pack cannot be chosen.
  ghost predicate SelectionFails(repo: Repository, advertised: set<ObjectId>, wants: seq<ObjectId>, haves: seq<ObjectId>,
                                 error: PackContents.WalkError) {
    if error == PackContents.UnadvertisedWant then exists want :: want in wants && want !in advertised
    else
      && (forall want :: want in wants ==> want in advertised)
      && (PackContents.Justified(repo, haves, (set have | have in haves), error) || PackContents.Justified(repo, wants, {}, error))
  }

  lemma SelectionFailsForAll(repo: Repository, advertised: set<ObjectId>, wants: seq<ObjectId>, haves: seq<ObjectId>,
                             error: PackContents.WalkError)
    requires SelectionFails(repo, advertised, Unique(wants), Unique(haves), error)
    ensures SelectionFails(repo, advertised, wants, haves, error)
  {
    hide Unique, FromRoots, Closure;
    UniqueKeepsClosure(Links(repo), wants);
    UniqueKeepsClosure(Links(repo), haves);
    UniqueIsExact(wants);
    UniqueIsExact(haves);
    assert (set have | have in Unique(haves)) == set have | have in haves;
  }

  // How a fetch that asks for these wants and offers these haves ends once the
  // client has said that it is done.
  ghost predicate PackAnswer(repo: Repository, advertised: set<ObjectId>, wants: seq<ObjectId>, haves: seq<ObjectId>,
                             produce: set<ObjectId> -> seq<Bytes>, r: Result<Bytes, FetchError>) {
    var pack := Flatten(produce(Closure(Links(repo), wants) - Closure(Links(repo), haves)));
    if r.Success? then
      && (forall want :: want in wants ==> want in advertised)
      && (forall id :: FromRoots(Links(repo), wants, id) ==> id in repo)
      && |pack| <= MAX_PACK_BYTES && CarriesPack(r.value, pack)
    else
      || (r.error == PackByteLimit && |pack| > MAX_PACK_BYTES)
      || (r.error.Selection? && SelectionFails(repo, advertised, wants, haves, r.error.error))
  }

  predicate Understood(ps: seq<Packet>, parseId: Bytes -> Option<ObjectId>) {
    AllRead(ps, parseId) && WithinLimits(ps, parseId) && Ids(ps, parseId, false) != []
  }

  // How a request that is not understood is refused.
  predicate Refusal(ps: seq<Packet>, parseId: Bytes -> Option<ObjectId>, error: FetchError) {
    if error == NegotiationLimit then !WithinLimits(ps, parseId)
    else if error == IncompleteNegotiation then Ids(ps, parseId, false) == []
    else exists i :: 0 <= i < |ps| && ReadPacket(ps[i], parseId) == Failure(error)
  }

  ghost predicate FetchAnswer(repo: Repository, advertised: set<ObjectId>, ps: seq<Packet>, parseId: Bytes -> Option<ObjectId>,
                              produce: set<ObjectId> -> seq<Bytes>, r: Result<Bytes, FetchError>) {
    if !Understood(ps, parseId) then r.Failure? && Refusal(ps, parseId, r.error)
    else if SaysDone(ps, parseId) then PackAnswer(repo, advertised, Ids(ps, parseId, false), Ids(ps, parseId, true), produce, r)
    else r.Success? && DecodeAll(r.value) == Success(ACKNOWLEDGE)
  }

  /**
   A whole fetch.  `produce` stands for the pack library: the bytes of a pack of
   the given objects, cut into writes in any way.  The client reads back those
   bytes for exactly the objects below its wants and not below its haves.
   */
  method RespondFetch(repo: Repository, advertised: set<ObjectId>, ps: seq<Packet>, parseId: Bytes -> Option<ObjectId>,
                      produce: set<ObjectId> -> seq<Bytes>) returns (r: Result<Bytes, FetchError>)
    ensures FetchAnswer(repo, advertised, ps, parseId, produce, r)
  {
    hide Ids, Unique, Closure, FromRoots, CarriesPack, Encode, DecodeAll, ReadPacket;
    var negotiated := Negotiate(ps, parseId);
    if negotiated.Failure? {
      return Failure(negotiated.error);
    }
    var Negotiation(wants, haves, done) := negotiated.value;
    NothingWanted(Ids(ps, parseId, false));
    UniqueKeepsClosure(Links(repo), Ids(ps, parseId, false));
    UniqueKeepsClosure(Links(repo), Ids(ps, parseId, true));
    UniqueIsExact(Ids(ps, parseId, false));
    if !done {
      DecodeInvertsEncode(ACKNOWLEDGE);
      return Success(Encode(ACKNOWLEDGE));
    }
    var selected := PackContents.SelectPack(repo, advertised, wants, haves);
    if selected.Failure? {
      SelectionFailsForAll(repo, advertised, Ids(ps, parseId, false), Ids(ps, parseId, true), selected.error);
      return Failure(Selection(selected.error));
    }
    var writes := produce(selected.value);
    ResponseDecodes(writes);
    var written := WritePack(writes, Encode([HEADLINE]));
    if written.Failure? {
      return Failure(written.error);
    }
    r := Success(written.value + Encode([Flush]));
  }

  lemma ResponseDecodes(writes: seq<Bytes>)
    ensures AllEncodable([HEADLINE]) && AllEncodable([Flush]) && AllEncodable(WritePackets(writes))
    ensures CarriesPack(Encode([HEADLINE]) + Encode(WritePackets(writes)) + Encode([Flush]), Flatten(writes))
  {
    hide Encode, DecodeAll, WritePackets;
    var body := WritePackets(writes);
    ReaderGetsThePack(writes);
    var ps := [HEADLINE] + body + [Flush];
    EncodeConcat([HEADLINE], body);
    EncodeConcat([HEADLINE] + body, [Flush]);
    DecodeInvertsEncode(ps);
    assert ps[1..|ps| - 1] == body;
  }

}
