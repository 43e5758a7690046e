/** The command list of a push, and the snapshots of it an intent stores as text. */
module PushCommands {
  import opened Outcomes
  import opened Objects
  import opened Codec
  import opened Collections
  import opened PacketLine
  import opened Refs
  import PullRequestRefs
  import ReceiveStream
  import Sideband

  const BLANK: Byte := 32

  datatype CommandError = Framing(error: PacketError) | BadCommand | BadRefName | CommandLimit

  // Reference names are bytes; each stands for the character with its number.
  function Chars(bytes: Bytes): (s: string)
    ensures |s| == |bytes|
  {
    seq(|bytes|, i requires 0 <= i < |bytes| => bytes[i] as char)
  }

  function Pow16(n: nat): nat {
    if n == 0 then 1 else 16 * Pow16(n - 1)
  }

  // An identifier in exactly n lower-case digits; the null identifier is all zeros.
  function IdText(id: nat, n: nat): (text: Bytes)
    ensures |text| == n
  {
    if n == 0 then [] else IdText(id / 16, n - 1) + [HexDigit(id % 16)]
  }

  function HexValue(text: Bytes): Option<nat> {
    if text == [] then Some(0)
    else
      var digit := DecodeNibble(text[|text| - 1], true);
      var rest := HexValue(text[..|text| - 1]);
      if digit.None? || rest.None? then None else Some(rest.value * 16 + digit.value)
  }

  lemma {:induction false} IdReadsBack(id: nat, n: nat)
    requires id < Pow16(n)
    ensures HexValue(IdText(id, n)) == Some(id)
    ensures BLANK !in IdText(id, n) && NEWLINE !in IdText(id, n) && 0 !in IdText(id, n)
  {
    if n > 0 {
      IdReadsBack(id / 16, n - 1);
      NibbleRoundTrip(id % 16, 0, true);
      assert IdText(id, n)[..n - 1] == IdText(id / 16, n - 1);
    }
  }

  // The object format fixes the number of digits; zero is the null identifier.
  function ParseId(text: Bytes, digits: nat): Option<Option<ObjectId>> {
    if |text| != digits || HexValue(text).None? then None
    else if HexValue(text).value == 0 then Some(None)
    else Some(Some(HexValue(text).value))
  }

  function WireId(target: Option<ObjectId>): nat {
    if target.Some? then target.value else 0
  }

  function Lowered(text: Bytes): (lower: Bytes)
    ensures |lower| == |text|
  {
    seq(|text|, i requires 0 <= i < |text| => LowerDigit(text[i]))
  }

  predicate AllHex(text: Bytes) {
    forall i :: 0 <= i < |text| ==> DecodeNibble(text[i], true).Some?
  }

  lemma {:induction false} HexValueMeans(text: Bytes)
    ensures HexValue(text).Some? <==> AllHex(text)
    ensures HexValue(text).Some? ==> HexValue(text).value < Pow16(|text|) && IdText(HexValue(text).value, |text|) == Lowered(text)
  {
    if text != [] {
      hide DecodeNibble, HexDigit, LowerDigit;
      var front, last := text[..|text| - 1], text[|text| - 1];
      HexValueMeans(front);
      assert text == front + [last];
      NibbleRange(last, true);
      if HexValue(text).Some? {
        var digit := DecodeNibble(last, true).value;
        NibbleRoundTrip(digit, last, true);
        assert HexValue(text).value / 16 == HexValue(front).value && HexValue(text).value % 16 == digit;
        assert Lowered(text) == Lowered(front) + [LowerDigit(last)];
      }
    }
  }

  /** An identifier is exactly so many hexadecimal digits, and printing it gives them back in lower case. */
  lemma IdMeans(text: Bytes, digits: nat)
    ensures ParseId(text, digits).Some? <==> |text| == digits && AllHex(text)
    ensures ParseId(text, digits).Some? ==>
              var target := ParseId(text, digits).value;
              FitsFormat(target, digits) && IdText(WireId(target), digits) == Lowered(text)
  {
    hide IdText, AllHex;
    HexValueMeans(text);
  }

  // What follows the first occurrence of a byte.
  function After(s: Bytes, stop: Byte): Option<Bytes> {
    var part := Before(s, stop);
    if |part| == |s| then None else Some(s[|part| + 1..])
  }

  lemma AfterOf(part: Bytes, stop: Byte, rest: Bytes)
    requires stop !in part
    ensures Before(part + [stop] + rest, stop) == part && After(part + [stop] + rest, stop) == Some(rest)
  {
    BeforeOf(part, stop, rest);
    assert (part + [stop] + rest)[|part| + 1..] == rest;
  }

  // Three fields: the old identifier, the new one, the name.
  function ParseCommand(payload: Bytes, first: bool, digits: nat, validName: Bytes -> bool): Result<RefEdit, CommandError> {
    var line := TrimLine(payload);
    if !first && 0 in line then Failure(BadCommand)
    else
      var command := Before(line, 0);
      var oldText := Before(command, BLANK);
      var rest := After(command, BLANK);
      if ParseId(oldText, digits).None? || rest.None? then Failure(BadCommand)
      else
        var newText := Before(rest.value, BLANK);
        var name := After(rest.value, BLANK);
        if ParseId(newText, digits).None? || name.None? || BLANK in name.value then Failure(BadCommand)
        else
          var before, after := ParseId(oldText, digits).value, ParseId(newText, digits).value;
          if before == after then Failure(BadCommand)
          else if !validName(name.value) then Failure(BadRefName)
          else
            var refName := Chars(name.value);
            if IsBranch(refName) || IsTag(refName) then Success(RefEdit(refName, before, after)) else Failure(BadRefName)
  }

  // The edits a packet list stands for: one data packet each, then the closing flush.
  predicate Accepts(ps: seq<Packet>, edits: seq<RefEdit>, digits: nat, validName: Bytes -> bool) {
    && |ps| == |edits| + 1 && ps[|edits|] == Flush
    && 0 < |edits| <= MAX_COMMANDS
    && (forall i :: 0 <= i < |edits| ==> ps[i].Data? && ParseCommand(ps[i].payload, i == 0, digits, validName) == Success(edits[i]))
    && forall i, j :: 0 <= i < j < |edits| ==> edits[i].name != edits[j].name
  }

  /** The parser succeeds exactly on the inputs that stand for a list of edits, and returns that list. */
  method ParseCommands(input: Bytes, digits: nat, validName: Bytes -> bool) returns (r: Result<seq<RefEdit>, CommandError>)
    ensures r.Success? ==> WellFormed(r.value)
    ensures r.Success? ==> |input| <= MAX_REQUEST_BYTES && DecodeAll(input).Success? && Accepts(DecodeAll(input).value, r.value, digits, validName)
    ensures forall edits ::
              |input| <= MAX_REQUEST_BYTES && DecodeAll(input).Success? && Accepts(DecodeAll(input).value, edits, digits, validName)
              ==> r == Success(edits)
  {
    hide ParseCommand, DecodeAll;
    var packets := Decode(input);
    if packets.Failure? {
      return Failure(Framing(packets.error));
    }
    var ps := packets.value;
    if ps == [] || ps[|ps| - 1] != Flush {
      return Failure(BadCommand);
    }
    var edits: seq<RefEdit> := [];
    var names: set<RefName> := {};
    for k := 0 to |ps| - 1
      invariant |edits| == k
      invariant forall i :: 0 <= i < k ==> ps[i].Data? && ParseCommand(ps[i].payload, i == 0, digits, validName) == Success(edits[i])
      invariant forall name :: name in names <==> exists i :: 0 <= i < k && edits[i].name == name
      invariant forall i, j :: 0 <= i < j < k ==> edits[i].name != edits[j].name
    {
      if !ps[k].Data? {
        return Failure(BadCommand);
      }
      var edit := ParseCommand(ps[k].payload, k == 0, digits, validName);
      if edit.Failure? {
        return Failure(edit.error);
      }
      if edit.value.name in names {
        return Failure(BadRefName);
      }
      names := names + {edit.value.name};
      edits := edits + [edit.value];
    }
    forall es | Accepts(ps, es, digits, validName)
      ensures es == edits
    {
      assert forall i :: 0 <= i < |es| ==> es[i] == edits[i];
    }
    if edits == [] || |edits| > MAX_COMMANDS {
      return Failure(CommandLimit);
    }
    forall i | 0 <= i < |edits|
      ensures (IsBranch(edits[i].name) || IsTag(edits[i].name)) && edits[i].before != edits[i].after
    {
      CommandIsSound(ps[i].payload, i == 0, digits, validName);
    }
    r := Success(edits);
  }

  lemma CommandIsSound(payload: Bytes, first: bool, digits: nat, validName: Bytes -> bool)
    requires ParseCommand(payload, first, digits, validName).Success?
    ensures var edit := ParseCommand(payload, first, digits, validName).value;
            (IsBranch(edit.name) || IsTag(edit.name)) && edit.before != edit.after
  {
  }

  // A command line and its parts: two identifiers and a name, blanks between
  // them, and behind a zero byte, on the first line only, the capabilities.
  predicate StandsFor(line: Bytes, first: bool, digits: nat, validName: Bytes -> bool, edit: RefEdit,
                      before: Bytes, after: Bytes, name: Bytes, rest: Bytes) {
    && line == before + [BLANK] + (after + [BLANK] + name) + rest
    && (rest == [] || (first && rest[0] == 0))
    && Plain(before) && Plain(after) && Plain(name)
    && ParseId(before, digits) == Some(edit.before) && ParseId(after, digits) == Some(edit.after) && edit.before != edit.after
    && validName(name) && edit.name == Chars(name) && (IsBranch(edit.name) || IsTag(edit.name))
  }

  predicate Plain(text: Bytes) {
    BLANK !in text && 0 !in text
  }

  lemma SplitAt(s: Bytes, stop: Byte)
    ensures stop !in Before(s, stop) && (forall b :: b in Before(s, stop) ==> b in s)
    ensures After(s, stop).None? ==> Before(s, stop) == s
    ensures After(s, stop).Some? ==>
              s == Before(s, stop) + [stop] + After(s, stop).value && forall b :: b in After(s, stop).value ==> b in s
  {
    var part := Before(s, stop);
    assert |part| < |s| ==> s == s[..|part|] + [stop] + s[|part| + 1..];
  }

  /** What a command line stands for, in both directions. */
  lemma CommandMeans(payload: Bytes, first: bool, digits: nat, validName: Bytes -> bool, edit: RefEdit)
    ensures ParseCommand(payload, first, digits, validName) == Success(edit) <==>
              exists before, after, name, rest :: StandsFor(TrimLine(payload), first, digits, validName, edit, before, after, name, rest)
  {
    var line := TrimLine(payload);
    if ParseCommand(payload, first, digits, validName) == Success(edit) {
      var before, after, name, rest := PartsOf(line, first, digits, validName, edit, payload);
    }
    if before, after, name, rest :| StandsFor(line, first, digits, validName, edit, before, after, name, rest) {
      PartsParse(payload, first, digits, validName, edit, before, after, name, rest);
    }
  }

  lemma PartsOf(line: Bytes, first: bool, digits: nat, validName: Bytes -> bool, edit: RefEdit, payload: Bytes)
    returns (before: Bytes, after: Bytes, name: Bytes, rest: Bytes)
    requires line == TrimLine(payload) && ParseCommand(payload, first, digits, validName) == Success(edit)
    ensures StandsFor(line, first, digits, validName, edit, before, after, name, rest)
  {
    hide Before, After, ParseId, Chars, TrimLine;
    var command := Before(line, 0);
    SplitAt(line, 0);
    SplitAt(command, BLANK);
    before := Before(command, BLANK);
    var two := After(command, BLANK).value;
    SplitAt(two, BLANK);
    after, name := Before(two, BLANK), After(two, BLANK).value;
    rest := if After(line, 0).None? then [] else [0] + After(line, 0).value;
    assert line == command + rest;
  }

  lemma PartsParse(payload: Bytes, first: bool, digits: nat, validName: Bytes -> bool, edit: RefEdit,
                   before: Bytes, after: Bytes, name: Bytes, rest: Bytes)
    requires StandsFor(TrimLine(payload), first, digits, validName, edit, before, after, name, rest)
    ensures ParseCommand(payload, first, digits, validName) == Success(edit)
  {
    hide Before, After, ParseId, Chars, TrimLine;
    var line := TrimLine(payload);
    var command := before + [BLANK] + (after + [BLANK] + name);
    assert 0 !in command;
    assert line == command + rest;
    if rest == [] {
      BeforeOf(command, 0, []);
      assert line == command && 0 !in line;
    } else {
      assert rest == [0] + rest[1..];
      BeforeOf(command, 0, rest[1..]);
      assert line == command + [0] + rest[1..];
    }
    assert Before(line, 0) == command;
    AfterOf(before, BLANK, after + [BLANK] + name);
    AfterOf(after, BLANK, name);
  }

  /** No push can name the reference of a pull request. */
  lemma PushesCannotNamePullRefs(edits: seq<RefEdit>, i: nat, number: nat)
    requires WellFormed(edits) && i < |edits|
    ensures edits[i].name != PullRequestRefs.PullRef(number)
  {
    PullRequestRefs.PullRefsAreApart(number, edits[i].name);
  }

  // A command as a client writes it.
  datatype Command = Command(before: Option<ObjectId>, after: Option<ObjectId>, name: Bytes)

  function CommandLine(c: Command, digits: nat): Bytes {
    IdText(WireId(c.before), digits) + [BLANK] + (IdText(WireId(c.after), digits) + [BLANK] + c.name)
  }

  // A real identifier is neither null nor too long for the object format.
  predicate FitsFormat(target: Option<ObjectId>, digits: nat) {
    (target.Some? ==> 0 < target.value) && WireId(target) < Pow16(digits)
  }

  predicate Sendable(c: Command, digits: nat, validName: Bytes -> bool) {
    && FitsFormat(c.before, digits) && FitsFormat(c.after, digits) && c.before != c.after
    && validName(c.name) && BLANK !in c.name && NEWLINE !in c.name && 0 !in c.name
    && (IsBranch(Chars(c.name)) || IsTag(Chars(c.name)))
  }

  lemma ParseIdReadsBack(target: Option<ObjectId>, digits: nat)
    requires FitsFormat(target, digits)
    ensures ParseId(IdText(WireId(target), digits), digits) == Some(target)
  {
    IdReadsBack(WireId(target), digits);
  }

  lemma LineIsPlain(c: Command, digits: nat, validName: Bytes -> bool)
    requires Sendable(c, digits, validName)
    ensures 0 !in CommandLine(c, digits) && NEWLINE !in CommandLine(c, digits) && CommandLine(c, digits) != []
  {
    hide IdText;
    IdReadsBack(WireId(c.before), digits);
    IdReadsBack(WireId(c.after), digits);
  }

  /** Parsing a printed command gives it back; the first may carry capabilities behind a zero byte. */
  lemma CommandReadsBack(c: Command, digits: nat, validName: Bytes -> bool, first: bool, capabilities: Bytes)
    requires Sendable(c, digits, validName)
    ensures ParseCommand(CommandLine(c, digits) + [NEWLINE], first, digits, validName) == Success(RefEdit(Chars(c.name), c.before, c.after))
    ensures ParseCommand(CommandLine(c, digits) + [0] + capabilities + [NEWLINE], true, digits, validName) == Success(RefEdit(Chars(c.name), c.before, c.after))
  {
    hide IdText, ParseId, Before, Chars;
    var line := CommandLine(c, digits);
    LineIsPlain(c, digits, validName);
    BeforeOf(line, 0, []);
    AfterOf(line, 0, capabilities);
    assert TrimLine(line + [NEWLINE]) == line;
    assert TrimLine(line + [0] + capabilities + [NEWLINE]) == line + [0] + capabilities;
    ParseIdReadsBack(c.before, digits);
    ParseIdReadsBack(c.after, digits);
    IdReadsBack(WireId(c.before), digits);
    IdReadsBack(WireId(c.after), digits);
    AfterOf(IdText(WireId(c.before), digits), BLANK, IdText(WireId(c.after), digits) + [BLANK] + c.name);
    AfterOf(IdText(WireId(c.after), digits), BLANK, c.name);
  }

  lemma {:induction false} CharsInjective(a: Bytes, b: Bytes)
    requires Chars(a) == Chars(b)
    ensures a == b
  {
    forall i | 0 <= i < |a|
      ensures a[i] == b[i]
    {
      assert Chars(a)[i] == Chars(b)[i];
    }
  }

  // The packets of a push: a line for each command, capabilities behind the first, and a flush.
  function CommandPacket(cs: seq<Command>, i: nat, digits: nat, capabilities: Bytes): Packet
    requires i < |cs|
  {
    Data(CommandLine(cs[i], digits) + (if i == 0 then [0] + capabilities else []) + [NEWLINE])
  }

  function CommandPackets(cs: seq<Command>, digits: nat, capabilities: Bytes): seq<Packet> {
    seq(|cs|, i requires 0 <= i < |cs| => CommandPacket(cs, i, digits, capabilities)) + [Flush]
  }

  function EditOf(c: Command): RefEdit {
    RefEdit(Chars(c.name), c.before, c.after)
  }

  lemma PacketReadsBack(cs: seq<Command>, i: nat, digits: nat, validName: Bytes -> bool, capabilities: Bytes)
    requires i < |cs| && Sendable(cs[i], digits, validName)
    ensures var p := CommandPacket(cs, i, digits, capabilities);
            p.Data? && ParseCommand(p.payload, i == 0, digits, validName) == Success(EditOf(cs[i]))
  {
    hide ParseCommand, CommandLine, Sendable, Chars;
    CommandReadsBack(cs[i], digits, validName, i == 0, capabilities);
    var line := CommandLine(cs[i], digits);
    assert line + [0] + capabilities + [NEWLINE] == line + ([0] + capabilities) + [NEWLINE];
    assert line + [] + [NEWLINE] == line + [NEWLINE];
  }

  /**
   A push gets through: whatever way its stream is cut, the channel ends up with
   its commands and its pack, and the commands are parsed into its edits.
   */
  lemma PushArrives(cs: seq<Command>, digits: nat, validName: Bytes -> bool, capabilities: Bytes, pack: Bytes, chunks: seq<Bytes>)
    requires 0 < |cs| <= MAX_COMMANDS && forall i :: 0 <= i < |cs| ==> Sendable(cs[i], digits, validName)
    requires forall i, j :: 0 <= i < j < |cs| ==> cs[i].name != cs[j].name
    requires var ps := CommandPackets(cs, digits, capabilities);
             && AllEncodable(ps) && |Encode(ps)| <= MAX_REQUEST_BYTES && |pack| <= ReceiveStream.MAX_RECEIVE_PACK_BYTES
             && Sideband.Flatten(chunks) == Encode(ps) + pack
    ensures var ps := CommandPackets(cs, digits, capabilities);
            && ReceiveStream.FeedAll(chunks) == Some(ReceiveStream.Channel(Encode(ps), true, pack))
            && DecodeAll(Encode(ps)) == Success(ps)
            && Accepts(ps, seq(|cs|, i requires 0 <= i < |cs| => EditOf(cs[i])), digits, validName)
  {
    hide ParseCommand, CommandPacket, Sendable, Chars, Encode, DecodeAll, ReceiveStream.FeedAll;
    var ps := CommandPackets(cs, digits, capabilities);
    var edits := seq(|cs|, i requires 0 <= i < |cs| => EditOf(cs[i]));
    forall i | 0 <= i < |cs|
      ensures ps[i].Data? && ParseCommand(ps[i].payload, i == 0, digits, validName) == Success(edits[i])
    {
      PacketReadsBack(cs, i, digits, validName, capabilities);
    }
    forall i, j | 0 <= i < j < |cs|
      ensures edits[i].name != edits[j].name
    {
      if Chars(cs[i].name) == Chars(cs[j].name) {
        CharsInjective(cs[i].name, cs[j].name);
      }
    }
    DecodeInvertsEncode(ps);
    ReceiveStream.StreamIsAccepted(ps, pack, chunks);
  }

  // A snapshot entry: a name and the identifier it has or shall have.
  datatype RefAt = RefAt(name: Bytes, target: Option<ObjectId>)

  function SnapshotLine(e: RefAt, digits: nat): Bytes {
    IdText(WireId(e.target), digits) + [BLANK] + e.name + [NEWLINE]
  }

  function Snapshot(entries: seq<RefAt>, digits: nat): Bytes {
    if entries == [] then [] else SnapshotLine(entries[0], digits) + Snapshot(entries[1..], digits)
  }

  function ParseEntry(line: Bytes, digits: nat, validName: Bytes -> bool): Option<RefAt> {
    var name := After(line, BLANK);
    var id := ParseId(Before(line, BLANK), digits);
    if id.None? || name.None? || !validName(name.value) then None else Some(RefAt(name.value, id.value))
  }

  // Lines between line ends, empty ones skipped.
  function ParseSnapshot(text: Bytes, digits: nat, validName: Bytes -> bool): Option<seq<RefAt>>
    decreases |text|
  {
    var line := Before(text, NEWLINE);
    var rest := After(text, NEWLINE);
    var entry := if line == [] then Some([]) else match ParseEntry(line, digits, validName) case None => None case Some(e) => Some([e]);
    if entry.None? then None
    else if rest.None? then entry
    else
      match ParseSnapshot(rest.value, digits, validName)
      case None => None
      case Some(more) => Some(entry.value + more)
  }

  predicate Storable(e: RefAt, digits: nat, validName: Bytes -> bool) {
    && validName(e.name) && NEWLINE !in e.name
    && FitsFormat(e.target, digits)
  }

  lemma EntryReadsBack(e: RefAt, digits: nat, validName: Bytes -> bool)
    requires Storable(e, digits, validName)
    ensures var line := IdText(WireId(e.target), digits) + [BLANK] + e.name;
            NEWLINE !in line && line != [] && ParseEntry(line, digits, validName) == Some(e)
  {
    IdReadsBack(WireId(e.target), digits);
    ParseIdReadsBack(e.target, digits);
    AfterOf(IdText(WireId(e.target), digits), BLANK, e.name);
  }

  /** What an intent stores about its references is what recovery reads. */
  lemma {:induction false} SnapshotReadsBack(entries: seq<RefAt>, digits: nat, validName: Bytes -> bool)
    requires forall i :: 0 <= i < |entries| ==> Storable(entries[i], digits, validName)
    ensures ParseSnapshot(Snapshot(entries, digits), digits, validName) == Some(entries)
  {
    hide ParseEntry, IdText;
    if entries != [] {
      var e := entries[0];
      var line := IdText(WireId(e.target), digits) + [BLANK] + e.name;
      var rest := Snapshot(entries[1..], digits);
      EntryReadsBack(e, digits, validName);
      SnapshotReadsBack(entries[1..], digits, validName);
      assert Snapshot(entries, digits) == line + [NEWLINE] + rest;
      AfterOf(line, NEWLINE, rest);
      assert [e] + entries[1..] == entries;
    }
  }

}
