/** A whole archive: members one after the other in 512-byte blocks, closed by two empty blocks. */
module TarStream {
  import opened Outcomes
  import opened Objects
  import opened Ustar

  // A member with its content; the header's size is the content's length.
  datatype Item = Item(path: Bytes, mode: nat, modified: nat, kind: Byte, data: Bytes)

  function HeaderOf(item: Item): Member {
    Member(item.path, item.mode, |item.data|, item.modified, item.kind)
  }

  predicate Writable(item: Item) {
    0 !in item.path && SplitPath(item.path).Some? && Fits(HeaderOf(item))
  }

  predicate AllWritable(items: seq<Item>) {
    forall i :: 0 <= i < |items| ==> Writable(items[i])
  }

  // The fewest bytes up to the next block.
  function Padding(n: nat): (padding: nat)
    ensures padding < 512 && (n + padding) % 512 == 0
  {
    (512 - n % 512) % 512
  }

  function ItemBytes(item: Item): (bytes: Bytes)
    requires Writable(item)
    ensures |bytes| == 512 + |item.data| + Padding(|item.data|)
  {
    SplitIsExact(item.path);
    var (name, prefix) := SplitPath(item.path).value;
    Header(name, prefix, HeaderOf(item)) + item.data + Zeros(Padding(|item.data|))
  }

  function Members(items: seq<Item>): Bytes
    requires AllWritable(items)
  {
    if items == [] then [] else Members(items[..|items| - 1]) + ItemBytes(items[|items| - 1])
  }

  function Archive(items: seq<Item>): Bytes
    requires AllWritable(items)
  {
    Members(items) + Zeros(1024)
  }

  // The reader of an archive.
  function ReadArchive(input: Bytes): Option<seq<Item>> {
    if |input| < 512 then None
    else if input[..512] == Zeros(512) then
      if input == Zeros(1024) then Some([]) else None
    else
      match ParseHeader(input[..512])
      case None => None
      case Some(m) =>
        var length := 512 + m.size + Padding(m.size);
        if |input| < length then None
        else
          var item := Item(m.path, m.mode, m.modified, m.kind, input[512..512 + m.size]);
          match ReadArchive(input[length..])
          case None => None
          case Some(rest) => Some([item] + rest)
  }

  lemma PaddingAligns(n: nat)
    ensures (512 + n + Padding(n)) % 512 == 0
  {
  }

  lemma {:induction false} MembersAligned(items: seq<Item>)
    requires AllWritable(items)
    ensures |Members(items)| % 512 == 0
  {
    hide ItemBytes, Padding;
    if items != [] {
      MembersAligned(items[..|items| - 1]);
      PaddingAligns(|items[|items| - 1].data|);
    }
  }

  lemma HeaderIsNotEmpty(item: Item)
    requires Writable(item)
    ensures ItemBytes(item)[..512] != Zeros(512)
    ensures ParseHeader(ItemBytes(item)[..512]) == Some(HeaderOf(item))
  {
    SplitIsExact(item.path);
    var (name, prefix) := SplitPath(item.path).value;
    NoZeroInParts(item.path, name, prefix);
    HeaderParses(name, prefix, HeaderOf(item));
    var h := ItemBytes(item)[..512];
    assert h == Header(name, prefix, HeaderOf(item));
    assert h[257..263] == MAGIC;
    assert h[257] == MAGIC[0];
  }

  lemma NoZeroInParts(path: Bytes, name: Bytes, prefix: Bytes)
    requires 0 !in path && JoinPath(name, prefix) == path
    ensures 0 !in name && 0 !in prefix
  {
    if prefix != [] {
      assert forall x :: x in prefix ==> x in path;
      assert forall x :: x in name ==> x in path;
    }
  }

  lemma ReadOneItem(item: Item, after: Bytes)
    requires Writable(item)
    ensures ReadArchive(ItemBytes(item) + after) ==
            match ReadArchive(after)
            case None => None
            case Some(rest) => Some([item] + rest)
  {
    hide ParseHeader, Header, SplitPath;
    var input := ItemBytes(item) + after;
    var n := |item.data|;
    HeaderIsNotEmpty(item);
    assert input[..512] == ItemBytes(item)[..512];
    assert input[512..512 + n] == item.data by {
      SplitIsExact(item.path);
    }
    assert input[512 + n + Padding(n)..] == after;
  }

  lemma {:induction false} ReadMembers(items: seq<Item>, after: Bytes)
    requires AllWritable(items)
    ensures ReadArchive(Members(items) + after) ==
            match ReadArchive(after)
            case None => None
            case Some(rest) => Some(items + rest)
  {
    hide ReadArchive, ItemBytes;
    if items == [] {
      assert Members(items) + after == after;
      if ReadArchive(after).Some? {
        assert items + ReadArchive(after).value == ReadArchive(after).value;
      }
    } else {
      var front, last := items[..|items| - 1], items[|items| - 1];
      assert Members(items) + after == Members(front) + (ItemBytes(last) + after);
      ReadMembers(front, ItemBytes(last) + after);
      ReadOneItem(last, after);
      if ReadArchive(after).Some? {
        assert front + ([last] + ReadArchive(after).value) == items + ReadArchive(after).value;
      }
    }
  }

  /** Every archive reads back as the members it was written from. */
  lemma ArchiveReadsBack(items: seq<Item>)
    requires AllWritable(items)
    ensures ReadArchive(Archive(items)) == Some(items)
  {
    ReadMembers(items, Zeros(1024));
    assert Zeros(1024)[..512] == Zeros(512);
    assert items + [] == items;
  }

  /** An output that never exceeds its limit. */
  class BoundedWriter {
    const maximum: nat
    var output: Bytes
    var written: nat

    ghost predicate Valid()
      reads this
    {
      written == |output| <= maximum
    }

    constructor (maximum: nat)
      ensures Valid() && output == [] && this.maximum == maximum
    {
      this.maximum := maximum;
      output, written := [], 0;
    }

    method Write(buffer: Bytes) returns (ok: bool)
      requires Valid()
      modifies this
      ensures Valid()
      ensures ok <==> old(|output|) + |buffer| <= maximum
      ensures output == if ok then old(output) + buffer else old(output)
    {
      if |buffer| > maximum - written {
        return false;
      }
      output := output + buffer;
      written := written + |buffer|;
      ok := true;
    }
  }

  datatype WriteError = Tar(error: TarError) | ByteLimit

  /** Header, content and padding of one member. */
  method WriteItem(writer: BoundedWriter, item: Item) returns (r: Result<(), WriteError>)
    requires writer.Valid() && 0 !in item.path
    modifies writer
    ensures writer.Valid()
    ensures r.Success? ==> Writable(item) && writer.output == old(writer.output) + ItemBytes(item)
    ensures r.Failure? && r.error.Tar? ==> !Writable(item)
    ensures r == Failure(ByteLimit) ==> Writable(item) && old(|writer.output|) + |ItemBytes(item)| > writer.maximum
  {
    hide Header, SplitPath;
    var header := WriteTarHeader(HeaderOf(item));
    if header.Failure? {
      return Failure(Tar(header.error));
    }
    ghost var start := writer.output;
    var ok := writer.Write(header.value);
    if !ok {
      return Failure(ByteLimit);
    }
    ok := writer.Write(item.data);
    if !ok {
      return Failure(ByteLimit);
    }
    var padding := Padding(|item.data|);
    if padding != 0 {
      ok := writer.Write(Zeros(padding));
      if !ok {
        return Failure(ByteLimit);
      }
    }
    assert start + (header.value + item.data + Zeros(padding)) == start + header.value + item.data + Zeros(padding);
    r := Success(());
  }

}
