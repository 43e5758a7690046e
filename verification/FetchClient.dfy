/** The request of a fetch as a client writes it, and what the server makes of it. */
module FetchClient {
  import opened Outcomes
  import opened Objects
  import opened Walks
  import opened Codec
  import opened PacketLine
  import opened Fetch
  import PushCommands
  import PackContents
  import Sideband
  import ObjectLinks

  // What a client says in one packet.
  datatype Say = Wants(id: ObjectId) | Offers(id: ObjectId) | Finishes | Asks(capability: Bytes) | Pauses

  // A line may end with a newline or without one.
  datatype Sent = Sent(say: Say, ended: bool)

  type Writer = ObjectId -> Bytes
  type Parser = Bytes -> Option<ObjectId>

  function Capabilities(): seq<Bytes> {
    [Ascii("thin-pack"), Ascii("no-progress"), Ascii("include-tag"), Ascii("ofs-delta")]
  }

  function Line(say: Say, write: Writer): Bytes
    requires !say.Pauses?
  {
    match say
    case Wants(id) => Ascii("want ") + write(id)
    case Offers(id) => Ascii("have ") + write(id)
    case Finishes => Ascii("done")
    case Asks(capability) => capability
  }

  function Wire(sent: Sent, write: Writer): Packet {
    if sent.say.Pauses? then Flush
    else Data(Line(sent.say, write) + if sent.ended then [NEWLINE] else [])
  }

  function Request(sents: seq<Sent>, write: Writer): seq<Packet> {
    seq(|sents|, i requires 0 <= i < |sents| => Wire(sents[i], write))
  }

  // Identifiers read back, and no capability is asked for that does not exist.
  predicate Sayable(say: Say, write: Writer, parse: Parser) {
    match say
    case Wants(id) => parse(write(id)) == Some(id) && NEWLINE !in write(id)
    case Offers(id) => parse(write(id)) == Some(id) && NEWLINE !in write(id)
    case Asks(capability) => capability in Capabilities()
    case _ => true
  }

  predicate AllSayable(sents: seq<Sent>, write: Writer, parse: Parser) {
    forall i :: 0 <= i < |sents| ==> Sayable(sents[i].say, write, parse)
  }

  function Wanted(sents: seq<Sent>): seq<ObjectId> {
    if sents == [] then []
    else
      var last := sents[|sents| - 1].say;
      Wanted(sents[..|sents| - 1]) + if last.Wants? then [last.id] else []
  }

  function Offered(sents: seq<Sent>): seq<ObjectId> {
    if sents == [] then []
    else
      var last := sents[|sents| - 1].say;
      Offered(sents[..|sents| - 1]) + if last.Offers? then [last.id] else []
  }

  predicate Finished(sents: seq<Sent>) {
    exists i :: 0 <= i < |sents| && sents[i].say == Finishes
  }

  // A packet that holds a line, with its line end or without.
  predicate Holds(p: Packet, line: Bytes) {
    p == Data(line + [NEWLINE]) || (p == Data(line) && (line == [] || line[|line| - 1] != NEWLINE))
  }

  lemma TrimmedLine(payload: Bytes, line: Bytes)
    ensures Holds(Data(payload), line) <==> TrimLine(payload) == line
  {
    if payload != [] {
      assert payload == payload[..|payload| - 1] + [payload[|payload| - 1]];
    }
    assert TrimLine(line + [NEWLINE]) == line;
  }

  lemma KeywordsDiffer()
    ensures |Ascii("want ")| == 5 && |Ascii("have ")| == 5 && Ascii("want ")[0] == 119 && Ascii("have ")[0] == 104
    ensures |Ascii("done")| == 4 && Ascii("done")[0] == 100
    ensures forall c :: c in Capabilities() ==> c != [] && c[0] != 119 && c[0] != 104 && c[0] != 100 && NEWLINE !in c
    ensures NEWLINE !in Ascii("want ") && NEWLINE !in Ascii("have ") && NEWLINE !in Ascii("done")
  {
  }

  lemma WordAndRest(line: Bytes, word: Bytes)
    ensures word <= line <==> exists text :: line == word + text
    ensures forall text :: line == word + text ==> text == line[|word|..]
  {
    if word <= line {
      assert line == word + line[|word|..];
    }
  }

  ghost predicate LineMeans(line: Bytes, parse: Parser, heard: Fetch.Line) {
    match heard
    case Want(id) => exists text :: line == Ascii("want ") + text && parse(text) == Some(id)
    case Have(id) => exists text :: line == Ascii("have ") + text && parse(text) == Some(id)
    case Done => line == Ascii("done")
    case Capability => line in Capabilities()
    case Pause => false
  }

  ghost predicate NoId(line: Bytes, parse: Parser) {
    exists text :: (line == Ascii("want ") + text || line == Ascii("have ") + text) && parse(text) == None
  }

  lemma LinesMean(line: Bytes, parse: Parser, heard: Fetch.Line)
    ensures ReadLine(line, parse) == Success(heard) <==> LineMeans(line, parse, heard)
    ensures ReadLine(line, parse) == Failure(InvalidObjectId) <==> NoId(line, parse)
  {
    KeywordsDiffer();
    hide Ascii;
    WordAndRest(line, Ascii("want "));
    WordAndRest(line, Ascii("have "));
  }

  ghost predicate PacketMeans(p: Packet, parse: Parser, heard: Fetch.Line) {
    if p == Flush then heard == Pause else exists line :: Holds(p, line) && LineMeans(line, parse, heard)
  }

  /** Which packets mean what, and which are refused: a line of each kind, with or without its line end, and a flush. */
  lemma PacketsMean(p: Packet, parse: Parser, heard: Fetch.Line)
    ensures ReadPacket(p, parse) == Success(heard) <==> PacketMeans(p, parse, heard)
    ensures ReadPacket(p, parse) == Failure(InvalidObjectId) <==> exists line :: Holds(p, line) && NoId(line, parse)
    ensures ReadPacket(p, parse).Failure? ==>
              ReadPacket(p, parse).error == InvalidObjectId || ReadPacket(p, parse).error == UnsupportedRequest
  {
    hide Holds, ReadLine, LineMeans, NoId;
    ReadErrors(p, parse);
    if p.Data? {
      var line := TrimLine(p.payload);
      TrimmedLine(p.payload, line);
      LinesMean(line, parse, heard);
      forall other
        ensures Holds(p, other) <==> line == other
      {
        TrimmedLine(p.payload, other);
      }
    } else {
      NoLine(p);
    }
  }

  lemma NoLine(p: Packet)
    requires !p.Data?
    ensures forall line :: !Holds(p, line)
  {
  }

  function Heard(say: Say): Fetch.Line {
    match say
    case Wants(id) => Want(id)
    case Offers(id) => Have(id)
    case Finishes => Done
    case Asks(_) => Capability
    case Pauses => Pause
  }

  lemma WireIsRead(sent: Sent, write: Writer, parse: Parser)
    requires Sayable(sent.say, write, parse)
    ensures ReadPacket(Wire(sent, write), parse) == Success(Heard(sent.say))
  {
    hide ReadPacket;
    KeywordsDiffer();
    var p := Wire(sent, write);
    PacketsMean(p, parse, Heard(sent.say));
    if !sent.say.Pauses? {
      var line := Line(sent.say, write);
      assert NEWLINE !in line;
      assert Holds(p, line) && LineMeans(line, parse, Heard(sent.say));
    }
  }

  /** A client's request is read as it was meant: the wants, the haves, and whether the client is done. */
  lemma {:induction false} RequestIsRead(sents: seq<Sent>, write: Writer, parse: Parser)
    requires AllSayable(sents, write, parse)
    ensures var ps := Request(sents, write);
            && AllRead(ps, parse)
            && Ids(ps, parse, false) == Wanted(sents) && Ids(ps, parse, true) == Offered(sents)
            && (SaysDone(ps, parse) <==> Finished(sents))
  {
    hide ReadPacket, Wire, Sayable;
    var ps := Request(sents, write);
    forall i | 0 <= i < |sents|
      ensures ReadPacket(ps[i], parse) == Success(Heard(sents[i].say))
    {
      WireIsRead(sents[i], write, parse);
    }
    if sents != [] {
      var front := sents[..|sents| - 1];
      assert ps[..|ps| - 1] == Request(front, write);
      RequestIsRead(front, write, parse);
    }
  }

  /** Identifiers in the digits of the object format read back. */
  lemma DigitsReadBack(id: ObjectId, digits: nat)
    requires 0 < id < PushCommands.Pow16(digits)
    ensures var text := PushCommands.IdText(id, digits);
            PushCommands.ParseId(text, digits) == Some(Some(id)) && NEWLINE !in text
  {
    PushCommands.IdReadsBack(id, digits);
    PushCommands.ParseIdReadsBack(Some(id), digits);
  }

  predicate InLimits(sents: seq<Sent>) {
    && 0 < |Unique(Wanted(sents))| <= MAX_NEGOTIATION_IDS
    && |Unique(Offered(sents))| <= MAX_NEGOTIATION_IDS
  }

  /**
   What a client gets.  It is refused exactly when it wants nothing or names too
   many different objects; done, it reads a pack of what is below its wants and
   not below its haves; otherwise it reads an acknowledgement.
   */
  lemma ClientIsAnswered(repo: Repository, advertised: set<ObjectId>, sents: seq<Sent>, write: Writer, parse: Parser,
                         produce: set<ObjectId> -> seq<Bytes>, r: Result<Bytes, FetchError>)
    requires AllSayable(sents, write, parse)
    requires FetchAnswer(repo, advertised, Request(sents, write), parse, produce, r)
    ensures !InLimits(sents) <==> r == Failure(NegotiationLimit) || r == Failure(IncompleteNegotiation)
    ensures InLimits(sents) && Finished(sents) ==> PackAnswer(repo, advertised, Wanted(sents), Offered(sents), produce, r)
    ensures InLimits(sents) && !Finished(sents) ==> r.Success? && DecodeAll(r.value) == Success(ACKNOWLEDGE)
  {
    hide DecodeAll, Unique, Ids, ReadPacket;
    RequestIsRead(sents, write, parse);
    NothingWanted(Wanted(sents));
  }

  /**
   A client that holds everything below its haves, and unpacks the answer, holds
   the whole history and every file of each commit it asked for.
   */
  lemma ClientHoldsItsFiles(universe: Repository, repo: Repository, advertised: set<ObjectId>, sents: seq<Sent>,
                            write: Writer, parse: Parser, produce: set<ObjectId> -> seq<Bytes>, r: Result<Bytes, FetchError>,
                            client: set<ObjectId>, want: ObjectId)
    requires AllSayable(sents, write, parse) && Finished(sents) && want in Wanted(sents)
    requires FetchAnswer(repo, advertised, Request(sents, write), parse, produce, r) && r.Success?
    requires PartOf(repo, universe) && PackContents.HoldsAllBelow(universe, client, Offered(sents))
    ensures exists sent: set<ObjectId> ::
              CarriesPack(r.value, Sideband.Flatten(produce(sent))) && ObjectLinks.HoldsHistory(universe, client + sent, want)
  {
    hide FetchAnswer, Closure, FromRoots, CarriesPack, ObjectLinks.HoldsHistory, PackContents.HoldsAllBelow;
    ClientIsAnswered(repo, advertised, sents, write, parse, produce, r);
    var sent := Closure(Links(repo), Wanted(sents)) - Closure(Links(repo), Offered(sents));
    ObjectLinks.FetchedCommitsAreWhole(universe, repo, Wanted(sents), Offered(sents), client, sent, want);
    assert CarriesPack(r.value, Sideband.Flatten(produce(sent)));
  }

}
