/** Splitting a push stream into its command list and its pack, as the data arrives in pieces. */
module ReceiveStream {
  import opened Outcomes
  import opened Objects
  import opened PacketLine
  import Sideband

  const MAX_RECEIVE_PACK_BYTES: nat := 128 * 1024 * 1024

  // What the packet at an offset says about the search for the first flush.
  datatype Look = Stop(r: Result<Option<nat>, PacketError>) | Skip(next: nat)

  function LookAt(input: Bytes, offset: nat): (l: Look)
    requires offset < |input|
    ensures l.Skip? ==> offset < l.next <= |input| && l.next < MAX_REQUEST_BYTES + 4
  {
    if offset >= MAX_REQUEST_BYTES then Stop(Failure(RequestTooLarge))
    else if |input| < offset + 4 then Stop(Success(None))
    else
      var length := HeaderLength(input[offset..offset + 4]);
      if length.None? then Stop(Failure(InvalidLength))
      else if length.value == 0 then
        if offset + 4 <= MAX_REQUEST_BYTES then Stop(Success(Some(offset + 4))) else Stop(Failure(RequestTooLarge))
      else if length.value <= 2 then Skip(offset + 4)
      else if length.value <= 4 then Stop(Failure(InvalidLength))
      else if length.value > MAX_PACKET_BYTES then Stop(Failure(PacketTooLarge))
      else if offset + length.value > |input| then Stop(Success(None))
      else if offset + length.value > MAX_REQUEST_BYTES then Stop(Failure(RequestTooLarge))
      else Skip(offset + length.value)
  }

  function FlushFrom(input: Bytes, offset: nat): Result<Option<nat>, PacketError>
    requires offset <= |input|
    decreases |input| - offset
  {
    if offset == |input| then Success(None)
    else
      match LookAt(input, offset)
      case Stop(r) => r
      case Skip(next) => FlushFrom(input, next)
  }

  method FirstFlushEnd(input: Bytes) returns (r: Result<Option<nat>, PacketError>)
    ensures r == FlushFrom(input, 0)
  {
    var offset := 0;
    while offset < |input|
      invariant 0 <= offset <= |input|
      invariant FlushFrom(input, offset) == FlushFrom(input, 0)
    {
      match LookAt(input, offset) {
        case Stop(answer) =>
          return answer;
        case Skip(next) =>
          offset := next;
      }
    }
    r := Success(None);
  }

  lemma LookIsLocal(a: Bytes, b: Bytes, offset: nat)
    requires offset < |a|
    ensures LookAt(a, offset) != Stop(Success(None)) ==> LookAt(a + b, offset) == LookAt(a, offset)
  {
    if offset + 4 <= |a| {
      assert (a + b)[offset..offset + 4] == a[offset..offset + 4];
    }
  }

  /** A boundary or an error, once found, is not changed by more data. */
  lemma {:induction false} BoundaryIsStable(a: Bytes, b: Bytes, offset: nat)
    requires offset <= |a|
    ensures FlushFrom(a, offset) != Success(None) ==> FlushFrom(a + b, offset) == FlushFrom(a, offset)
    decreases |a| - offset
  {
    hide LookAt;
    if offset < |a| {
      LookIsLocal(a, b, offset);
      if LookAt(a, offset).Skip? {
        BoundaryIsStable(a, b, LookAt(a, offset).next);
      }
    }
  }

  lemma LookBounds(input: Bytes, offset: nat)
    requires offset < |input|
    ensures LookAt(input, offset) == Stop(Success(None)) ==> |input| < MAX_REQUEST_BYTES + MAX_PACKET_BYTES
    ensures forall n: nat :: LookAt(input, offset) == Stop(Success(Some(n))) ==>
              n == offset + 4 <= |input| && n <= MAX_REQUEST_BYTES && HeaderLength(input[offset..n]) == Some(0)
  {
    hide HeaderLength;
  }

  /** While no boundary is found, the buffer is bounded. */
  lemma {:induction false} UndecidedIsBounded(input: Bytes, offset: nat)
    requires offset <= |input| && offset < MAX_REQUEST_BYTES + 4
    requires FlushFrom(input, offset) == Success(None)
    ensures |input| < MAX_REQUEST_BYTES + MAX_PACKET_BYTES
    decreases |input| - offset
  {
    hide LookAt;
    if offset < |input| {
      LookBounds(input, offset);
      if LookAt(input, offset).Skip? {
        UndecidedIsBounded(input, LookAt(input, offset).next);
      }
    }
  }

  // Packets that end with a flush and hold no other.
  predicate EndsWithOnlyFlush(ps: seq<Packet>) {
    ps != [] && ps[|ps| - 1] == Flush && forall i :: 0 <= i < |ps| - 1 ==> ps[i] != Flush
  }

  // A packet the search skips decodes to the same packet.
  lemma SkipIsFirst(input: Bytes, offset: nat, end: nat)
    requires offset < end <= |input|
    requires LookAt(input, offset).Skip? && LookAt(input, offset).next <= end
    ensures First(input[offset..end]).Success?
    ensures First(input[offset..end]).value.1 == LookAt(input, offset).next - offset
    ensures First(input[offset..end]).value.0 != Flush
  {
    var part := input[offset..end];
    assert part[..4] == input[offset..offset + 4];
  }

  lemma FlushIsFirst(input: Bytes, offset: nat, end: nat)
    requires offset < |input| && LookAt(input, offset) == Stop(Success(Some(end)))
    ensures offset + 4 == end <= |input| && First(input[offset..end]) == Success((Flush, 4))
  {
    var part := input[offset..offset + 4];
    assert part[..4] == part;
  }

  /** The command part decodes, within the request limit, with its only flush last. */
  lemma {:induction false} CommandsDecode(input: Bytes, offset: nat, end: nat)
    requires offset <= |input| && FlushFrom(input, offset) == Success(Some(end))
    ensures offset < end <= |input| && end <= MAX_REQUEST_BYTES
    ensures DecodeAll(input[offset..end]).Success? && EndsWithOnlyFlush(DecodeAll(input[offset..end]).value)
    decreases |input| - offset
  {
    hide LookAt, First;
    LookBounds(input, offset);
    if LookAt(input, offset).Stop? {
      FlushIsFirst(input, offset, end);
      assert input[offset..end][4..] == [];
    } else {
      var next := LookAt(input, offset).next;
      CommandsDecode(input, next, end);
      SkipIsFirst(input, offset, end);
      assert input[offset..end][next - offset..] == input[next..end];
    }
  }

  // A part of the stream that is whole packets, none of them a flush.
  ghost predicate PlainPackets(input: Bytes, offset: nat, k: nat) {
    && offset <= k <= |input|
    && DecodeAll(input[offset..k]).Success? && Flush !in DecodeAll(input[offset..k]).value
  }

  // The command part: packets up to the only flush, within the limit.
  ghost predicate CommandPart(input: Bytes, offset: nat, end: nat) {
    && offset < end <= |input| && end <= MAX_REQUEST_BYTES
    && DecodeAll(input[offset..end]).Success? && EndsWithOnlyFlush(DecodeAll(input[offset..end]).value)
  }

  // What cannot go on at k: no packet has such a header, or the packet, or what follows it, is beyond the limit.
  ghost predicate Offends(input: Bytes, k: nat, error: PacketError) {
    && k < |input|
    && if k == MAX_REQUEST_BYTES then error == RequestTooLarge
       else k + 4 <= |input| &&
            var length := HeaderLength(input[k..k + 4]);
            if length.None? || length.value == 3 || length.value == 4 then error == InvalidLength
            else if length.value > MAX_PACKET_BYTES then error == PacketTooLarge
            else
              && error == RequestTooLarge
              && (if length.value <= 2 then k + 4 else k + length.value) > MAX_REQUEST_BYTES
              && (if length.value == 0 then true else if length.value <= 2 then k + 4 < |input| else k + length.value <= |input|)
  }

  // Whole packets, and behind them what cannot go on.
  ghost predicate CannotGoOn(input: Bytes, error: PacketError) {
    exists k: nat :: k <= MAX_REQUEST_BYTES && PlainPackets(input, 0, k) && Offends(input, k, error)
  }

  // A pack beyond the limit behind the command part.
  ghost predicate PackTooLong(input: Bytes) {
    exists end: nat :: CommandPart(input, 0, end) && |input| - end > MAX_RECEIVE_PACK_BYTES
  }

  // A whole packet within the limit is skipped, and a flush is the boundary.
  lemma WholeIsSkipped(input: Bytes, offset: nat, k: nat)
    requires offset < k <= |input| && k <= MAX_REQUEST_BYTES && First(input[offset..k]).Success?
    ensures var (packet, taken) := First(input[offset..k]).value;
            LookAt(input, offset) == if packet == Flush then Stop(Success(Some(offset + 4))) else Skip(offset + taken)
    ensures First(input[offset..k]).value.0 == Flush ==> First(input[offset..k]).value.1 == 4
    ensures forall error :: !Offends(input, offset, error)
  {
    assert input[offset..k][..4] == input[offset..offset + 4];
  }

  lemma OnePlainMore(input: Bytes, offset: nat, k: nat)
    requires offset < k <= |input| && First(input[offset..k]).Success?
    ensures var (packet, taken) := First(input[offset..k]).value;
            PlainPackets(input, offset, k) <==> packet != Flush && PlainPackets(input, offset + taken, k)
  {
    hide First;
    var (packet, taken) := First(input[offset..k]).value;
    assert input[offset..k][taken..] == input[offset + taken..k];
  }

  lemma {:induction false} CommandPartIsFound(input: Bytes, offset: nat, end: nat)
    requires CommandPart(input, offset, end)
    ensures FlushFrom(input, offset) == Success(Some(end))
    decreases end - offset
  {
    hide LookAt, First;
    var part := input[offset..end];
    var (packet, taken) := First(part).value;
    WholeIsSkipped(input, offset, end);
    assert part[taken..] == input[offset + taken..end];
    var ps, rest := DecodeAll(part).value, DecodeAll(part[taken..]).value;
    assert ps == [packet] + rest;
    if packet == Flush {
      assert ps[0] == Flush && |ps| == 1;
      DecodesToNothing(part[taken..]);
    } else {
      assert rest != [] && rest[|rest| - 1] == ps[|ps| - 1];
      assert forall i :: 0 <= i < |rest| ==> rest[i] == ps[i + 1];
      DecodesToNothing(part[taken..]);
      CommandPartIsFound(input, offset + taken, end);
    }
  }

  lemma DecodesToNothing(input: Bytes)
    requires DecodeAll(input).Success?
    ensures DecodeAll(input).value == [] <==> input == []
  {
  }

  // The search stops at what offends, and where it fails something does.
  lemma OffenceStops(input: Bytes, k: nat, error: PacketError)
    requires k <= MAX_REQUEST_BYTES && Offends(input, k, error)
    ensures FlushFrom(input, k) == Failure(error)
  {
    hide HeaderLength;
    if LookAt(input, k).Skip? {
      assert LookAt(input, LookAt(input, k).next) == Stop(Failure(RequestTooLarge));
    }
  }

  lemma {:induction false} OffenceIsFound(input: Bytes, offset: nat, k: nat, error: PacketError)
    requires PlainPackets(input, offset, k) && k <= MAX_REQUEST_BYTES && Offends(input, k, error)
    ensures FlushFrom(input, offset) == Failure(error)
    decreases k - offset
  {
    hide LookAt, First, Offends;
    if offset == k {
      OffenceStops(input, k, error);
    } else {
      WholeIsSkipped(input, offset, k);
      OnePlainMore(input, offset, k);
      OffenceIsFound(input, offset + First(input[offset..k]).value.1, k, error);
    }
  }

  lemma StopOffends(input: Bytes, offset: nat, error: PacketError)
    requires offset < |input| && offset <= MAX_REQUEST_BYTES
    requires LookAt(input, offset) == Stop(Failure(error)) || (LookAt(input, offset).Skip? && LookAt(input, offset).next > MAX_REQUEST_BYTES)
    requires FlushFrom(input, offset) == Failure(error)
    ensures Offends(input, offset, error)
  {
    hide HeaderLength;
  }

  lemma {:induction false} FailureOffends(input: Bytes, offset: nat, error: PacketError) returns (k: nat)
    requires offset <= |input| && offset <= MAX_REQUEST_BYTES && FlushFrom(input, offset) == Failure(error)
    ensures k <= MAX_REQUEST_BYTES && PlainPackets(input, offset, k) && Offends(input, k, error)
    decreases |input| - offset
  {
    hide LookAt, First, Offends, DecodeAll;
    if LookAt(input, offset).Skip? && LookAt(input, offset).next <= MAX_REQUEST_BYTES {
      k := FailureOffends(input, LookAt(input, offset).next, error);
      SkipIsFirst(input, offset, k);
      OnePlainMore(input, offset, k);
    } else {
      StopOffends(input, offset, error);
      k := offset;
      NothingIsPlain(input, offset);
    }
  }

  lemma NothingIsPlain(input: Bytes, offset: nat)
    requires offset <= |input|
    ensures PlainPackets(input, offset, offset)
  {
    assert input[offset..offset] == [];
  }

  /**
   Where the search ends, exactly.  It finds the end of a command part whenever
   there is one; it fails exactly behind whole packets that are followed by
   what no packet can be or by too much; otherwise it waits for more.
   */
  lemma SearchIsExact(input: Bytes)
    ensures forall end: nat :: FlushFrom(input, 0) == Success(Some(end)) <==> CommandPart(input, 0, end)
    ensures forall error :: FlushFrom(input, 0) == Failure(error) <==> CannotGoOn(input, error)
  {
    hide CommandPart, PlainPackets, Offends;
    forall end: nat
      ensures FlushFrom(input, 0) == Success(Some(end)) <==> CommandPart(input, 0, end)
    {
      if FlushFrom(input, 0) == Success(Some(end)) {
        CommandsAreCommandPart(input, end);
      }
      if CommandPart(input, 0, end) {
        CommandPartIsFound(input, 0, end);
      }
    }
    forall error
      ensures FlushFrom(input, 0) == Failure(error) <==> CannotGoOn(input, error)
    {
      if FlushFrom(input, 0) == Failure(error) {
        var k := FailureOffends(input, 0, error);
      }
      if k: nat :| k <= MAX_REQUEST_BYTES && PlainPackets(input, 0, k) && Offends(input, k, error) {
        OffenceIsFound(input, 0, k, error);
      }
    }
  }

  lemma CommandsAreCommandPart(input: Bytes, end: nat)
    requires FlushFrom(input, 0) == Success(Some(end))
    ensures CommandPart(input, 0, end)
  {
    CommandsDecode(input, 0, end);
  }

  // The receiving side of a channel: what is known of the commands, whether they are complete, and the pack so far.
  datatype Channel = Channel(commands: Bytes, complete: bool, pack: Bytes)

  function WritePack(ch: Channel, data: Bytes): Option<Channel> {
    if |ch.pack| + |data| > MAX_RECEIVE_PACK_BYTES then None else Some(ch.(pack := ch.pack + data))
  }

  function Feed(ch: Channel, data: Bytes): Option<Channel> {
    if ch.complete then WritePack(ch, data)
    else
      var commands := ch.commands + data;
      match FlushFrom(commands, 0)
      case Failure(_) => None
      case Success(None) => Some(ch.(commands := commands))
      case Success(Some(end)) =>
        if end > |commands| then None
        else WritePack(ch.(commands := commands[..end], complete := true), commands[end..])
  }

  class ReceiveChannel {
    var commands: Bytes
    var commandsComplete: bool
    var pack: Bytes
    var packBytes: nat

    ghost predicate Valid()
      reads this
    {
      packBytes == |pack| && (!commandsComplete ==> pack == [])
    }

    function View(): Channel
      reads this
    {
      Channel(commands, commandsComplete, pack)
    }

    constructor ()
      ensures Valid() && View() == Channel([], false, [])
    {
      commands, commandsComplete, pack, packBytes := [], false, [], 0;
    }

    method WriteReceivePack(data: Bytes) returns (ok: bool)
      requires Valid() && commandsComplete
      modifies this`pack, this`packBytes
      ensures ok <==> WritePack(old(View()), data).Some?
      ensures ok ==> Valid() && View() == WritePack(old(View()), data).value
    {
      packBytes := packBytes + |data|;
      if packBytes > MAX_RECEIVE_PACK_BYTES {
        return false;
      }
      pack := pack + data;
      ok := true;
    }

    /** One piece of the stream; after a failure the channel is closed. */
    method ReceiveData(data: Bytes) returns (ok: bool)
      requires Valid()
      modifies this
      ensures ok <==> Feed(old(View()), data).Some?
      ensures ok ==> Valid() && View() == Feed(old(View()), data).value
    {
      if commandsComplete {
        ok := WriteReceivePack(data);
        return;
      }
      commands := commands + data;
      var boundary := FirstFlushEnd(commands);
      if boundary.Failure? {
        return false;
      }
      if boundary.value.None? {
        return true;
      }
      CommandsDecode(commands, 0, boundary.value.value);
      var rest := commands[boundary.value.value..];
      commands := commands[..boundary.value.value];
      commandsComplete := true;
      ok := WriteReceivePack(rest);
    }
  }

  function FeedAll(chunks: seq<Bytes>): Option<Channel> {
    if chunks == [] then Some(Channel([], false, []))
    else
      var before := FeedAll(chunks[..|chunks| - 1]);
      if before.None? then None else Feed(before.value, chunks[|chunks| - 1])
  }

  // The split of a whole stream.
  function SplitStream(stream: Bytes): Option<Channel> {
    match FlushFrom(stream, 0)
    case Failure(_) => None
    case Success(None) => Some(Channel(stream, false, []))
    case Success(Some(end)) =>
      if end > |stream| || |stream| - end > MAX_RECEIVE_PACK_BYTES then None
      else Some(Channel(stream[..end], true, stream[end..]))
  }

  // Feeding a piece to the split of a stream gives the split of the longer stream.
  lemma SplitGrows(stream: Bytes, data: Bytes)
    ensures SplitStream(stream).None? ==> SplitStream(stream + data).None?
    ensures SplitStream(stream).Some? ==> Feed(SplitStream(stream).value, data) == SplitStream(stream + data)
  {
    hide FlushFrom;
    BoundaryIsStable(stream, data, 0);
    match FlushFrom(stream, 0)
    case Failure(_) =>
    case Success(None) =>
      assert forall x: Bytes {:trigger [] + x} :: [] + x == x;
    case Success(Some(end)) =>
      CommandsDecode(stream, 0, end);
      assert (stream + data)[..end] == stream[..end];
      assert (stream + data)[end..] == stream[end..] + data;
  }

  /**
   However the stream is cut into pieces, the channel ends up exactly as if the
   whole stream had arrived at once.
   */
  lemma {:induction false} ChunkingDoesNotMatter(chunks: seq<Bytes>)
    ensures FeedAll(chunks) == SplitStream(Sideband.Flatten(chunks))
  {
    if chunks != [] {
      var front, last := chunks[..|chunks| - 1], chunks[|chunks| - 1];
      ChunkingDoesNotMatter(front);
      FlattenAppend(front, last);
      assert front + [last] == chunks;
      SplitGrows(Sideband.Flatten(front), last);
    }
  }

  lemma {:induction false} FlattenAppend(parts: seq<Bytes>, last: Bytes)
    ensures Sideband.Flatten(parts + [last]) == Sideband.Flatten(parts) + last
  {
    if parts == [] {
      assert parts + [last] == [last] && [last][1..] == [];
    } else {
      assert (parts + [last])[1..] == parts[1..] + [last];
      FlattenAppend(parts[1..], last);
    }
  }

  /** What a channel holds after any accepted pieces. */
  lemma ChannelHoldsTheStream(chunks: seq<Bytes>)
    requires FeedAll(chunks).Some?
    ensures var ch := FeedAll(chunks).value;
            && ch.commands + ch.pack == Sideband.Flatten(chunks)
            && (ch.complete ==>
                  && |ch.commands| <= MAX_REQUEST_BYTES
                  && DecodeAll(ch.commands).Success? && EndsWithOnlyFlush(DecodeAll(ch.commands).value))
            && (!ch.complete ==> ch.pack == [] && |ch.commands| < MAX_REQUEST_BYTES + MAX_PACKET_BYTES)
  {
    ChunkingDoesNotMatter(chunks);
    var stream := Sideband.Flatten(chunks);
    if FlushFrom(stream, 0) == Success(None) {
      UndecidedIsBounded(stream, 0);
    } else {
      var end := FlushFrom(stream, 0).value.value;
      CommandsDecode(stream, 0, end);
      assert stream[0..end] == stream[..end];
    }
  }

  /** Every stream of commands within the limits gets through whole, however it is cut. */
  lemma StreamIsAccepted(ps: seq<Packet>, pack: Bytes, chunks: seq<Bytes>)
    requires AllEncodable(ps) && EndsWithOnlyFlush(ps) && |Encode(ps)| <= MAX_REQUEST_BYTES && |pack| <= MAX_RECEIVE_PACK_BYTES
    requires Sideband.Flatten(chunks) == Encode(ps) + pack
    ensures FeedAll(chunks) == Some(Channel(Encode(ps), true, pack))
  {
    hide DecodeAll, Encode;
    ChunkingDoesNotMatter(chunks);
    DecodeInvertsEncode(ps);
    var stream := Encode(ps) + pack;
    var end := |Encode(ps)|;
    assert stream[0..end] == Encode(ps) && stream[..end] == Encode(ps) && stream[end..] == pack;
    CommandNotEmpty(ps);
    CommandPartIsFound(stream, 0, end);
  }

  lemma CommandNotEmpty(ps: seq<Packet>)
    requires AllEncodable(ps) && EndsWithOnlyFlush(ps)
    ensures Encode(ps) != []
  {
  }

  /** When a stream is refused: its commands cannot go on, or its pack is too long. */
  lemma StreamIsRefused(chunks: seq<Bytes>)
    ensures var stream := Sideband.Flatten(chunks);
            FeedAll(chunks) == None <==> (exists error :: CannotGoOn(stream, error)) || PackTooLong(stream)
  {
    hide FlushFrom, CannotGoOn, CommandPart, Sideband.Flatten;
    var stream := Sideband.Flatten(chunks);
    ChunkingDoesNotMatter(chunks);
    SearchIsExact(stream);
    match FlushFrom(stream, 0)
    case Failure(error) =>
      assert CannotGoOn(stream, error);
    case Success(None) =>
    case Success(Some(end)) =>
      CommandsDecode(stream, 0, end);
      assert CommandPart(stream, 0, end);
  }

}
