/**
 A zlib stream of stored blocks: the format of RFC 1950, section 2.2, around
 the stored blocks of RFC 1951, section 3.2.4.
 */
module ZlibStore {
  import opened Outcomes
  import opened Objects
  import opened Base85
  import opened Collections

  const BLOCK: nat := 65_535
  const MODULUS: nat := 65_521

  // The first running sum of the checksum, not reduced: one plus all bytes.
  function SumOfBytes(data: Bytes): nat {
    if data == [] then 1 else SumOfBytes(data[..|data| - 1]) + data[|data| - 1]
  }

  // The second: the sum of the first over all non-empty prefixes.
  function SumOfSums(data: Bytes): nat {
    if data == [] then 0 else SumOfSums(data[..|data| - 1]) + SumOfBytes(data)
  }

  function Adler32(data: Bytes): (sum: nat)
    ensures sum < 0x1_0000_0000
  {
    SumOfSums(data) % MODULUS * 0x1_0000 + SumOfBytes(data) % MODULUS
  }

  // All bytes, and all bytes each times its distance from the end, as RFC 1950, section 8.2, lets both sums be read.
  function Plus(data: Bytes): nat {
    if data == [] then 0 else data[0] + Plus(data[1..])
  }

  function Weighted(data: Bytes): nat {
    if data == [] then 0 else |data| * data[0] + Weighted(data[1..])
  }

  lemma {:induction false} OneByteMore(data: Bytes, b: Byte)
    ensures Plus(data + [b]) == Plus(data) + b
    ensures Weighted(data + [b]) == Weighted(data) + Plus(data) + b
  {
    if data == [] {
      assert data + [b] == [b] && [b][1..] == [];
    } else {
      assert (data + [b])[1..] == data[1..] + [b];
      OneByteMore(data[1..], b);
      assert (|data| + 1) * data[0] == |data| * data[0] + data[0];
    }
  }

  lemma {:induction false} SumsUnrolled(data: Bytes)
    ensures SumOfBytes(data) == 1 + Plus(data)
    ensures SumOfSums(data) == |data| + Weighted(data)
  {
    if data != [] {
      var front := data[..|data| - 1];
      SumsUnrolled(front);
      OneByteMore(front, data[|data| - 1]);
      assert data == front + [data[|data| - 1]];
    }
  }

  /** The checksum in closed form: the weighted sum in the high half, one plus the sum of the bytes in the low one. */
  lemma AdlerHalves(data: Bytes)
    ensures Adler32(data) / 0x1_0000 == (|data| + Weighted(data)) % MODULUS
    ensures Adler32(data) % 0x1_0000 == (1 + Plus(data)) % MODULUS
  {
    SumsUnrolled(data);
  }

  lemma ModAdd(a: nat, b: nat)
    ensures (a % MODULUS + b) % MODULUS == (a + b) % MODULUS
  {
  }

  /** Both sums are reduced at every byte, so neither comes near 32 bits. */
  method ComputeAdler32(data: Bytes) returns (sum: nat)
    ensures sum == Adler32(data)
  {
    var first, second := 1, 0;
    for k := 0 to |data|
      invariant first == SumOfBytes(data[..k]) % MODULUS && second == SumOfSums(data[..k]) % MODULUS
    {
      assert data[..k + 1][..k] == data[..k];
      ModAdd(SumOfBytes(data[..k]), data[k]);
      assert first + data[k] < 0x1_0000_0000;
      first := (first + data[k]) % MODULUS;
      ModAdd(SumOfSums(data[..k]), first);
      ModAdd(SumOfBytes(data[..k + 1]), SumOfSums(data[..k]));
      assert second + first < 0x1_0000_0000;
      second := (second + first) % MODULUS;
    }
    assert data[..|data|] == data;
    sum := second * 0x1_0000 + first;
  }

  function LittleEndian16(n: nat): (bytes: Bytes)
    requires n < 0x1_0000
    ensures |bytes| == 2
  {
    [n % 256, n / 256]
  }

  function Uint16(bytes: Bytes): nat
    requires |bytes| == 2
  {
    var low: int, high: int := bytes[0], bytes[1];
    low + high * 256
  }

  // A block: the final flag, the length, its complement, the content.
  function Block(final: bool, content: Bytes): Bytes
    requires |content| <= BLOCK
  {
    [if final then 1 else 0] + LittleEndian16(|content|) + LittleEndian16(BLOCK - |content|) + content
  }

  function Blocks(data: Bytes): Bytes {
    if |data| <= BLOCK then Block(true, data) else Block(false, data[..BLOCK]) + Blocks(data[BLOCK..])
  }

  function Store(data: Bytes): Bytes {
    [0x78, 0x01] + Blocks(data) + BigEndian32(Adler32(data))
  }

  lemma FullBlocks(k: nat, n: nat)
    requires n > k * BLOCK
    ensures (k + 1 == (n + BLOCK - 1) / BLOCK) <==> n - k * BLOCK <= BLOCK
  {
    var m := n - k * BLOCK;
    assert (n + BLOCK - 1) / BLOCK == k + (m + BLOCK - 1) / BLOCK by {
      assert n + BLOCK - 1 == m + BLOCK - 1 + k * BLOCK;
    }
  }

  /** Writes the blocks one after the other; the last one is the one whose number is the number of blocks. */
  method StoreBlocks(data: Bytes) returns (output: Bytes)
    ensures output == Store(data)
  {
    hide Block, Blocks, Adler32;
    output := [0x78, 0x01];
    ghost var start := output;
    if data == [] {
      output := output + [1, 0, 0, 0xff, 0xff];
      EmptyBlock();
    } else {
      var index := 0;
      assert data[0..] == data;
      while index * BLOCK < |data|
        invariant 0 <= index
        invariant if index * BLOCK < |data| then output + Blocks(data[index * BLOCK..]) == start + Blocks(data)
                  else output == start + Blocks(data)
        decreases |data| - index * BLOCK
      {
        var from := index * BLOCK;
        var to := if |data| - from < BLOCK then |data| else from + BLOCK;
        var chunk := data[from..to];
        FullBlocks(index, |data|);
        var final := index + 1 == (|data| + BLOCK - 1) / BLOCK;
        assert chunk == data[from..][..to - from];
        BlocksStep(data[from..], chunk, final);
        assert data[from..][|chunk|..] == data[to..];
        Reassociate(output, Block(final, chunk), Blocks(data[to..]));
        output := output + Block(final, chunk);
        index := index + 1;
      }
    }
    var sum := ComputeAdler32(data);
    output := output + BigEndian32(sum);
  }

  lemma EmptyBlock()
    ensures Blocks([]) == [1, 0, 0, 0xff, 0xff]
  {
  }

  lemma BlocksStep(data: Bytes, chunk: Bytes, final: bool)
    requires data != [] && chunk == data[..if |data| < BLOCK then |data| else BLOCK]
    requires final <==> |data| <= BLOCK
    ensures Blocks(data) == if final then Block(true, chunk) else Block(false, chunk) + Blocks(data[|chunk|..])
  {
    if final {
      assert chunk == data;
    }
  }

  // The reader: content up to the final block, and what follows it.
  function ReadBlocks(input: Bytes): Option<(Bytes, Bytes)> {
    if |input| < 5 || input[0] > 1 then None
    else
      var length := Uint16(input[1..3]);
      if length + Uint16(input[3..5]) != BLOCK || |input| < 5 + length then None
      else
        var content, rest := input[5..5 + length], input[5 + length..];
        if input[0] == 1 then Some((content, rest))
        else
          match ReadBlocks(rest)
          case None => None
          case Some((more, after)) => Some((content + more, after))
  }

  function Inflate(input: Bytes): Option<Bytes> {
    if |input| < 2 || input[..2] != [0x78, 0x01] then None
    else
      match ReadBlocks(input[2..])
      case None => None
      case Some((data, check)) =>
        if |check| == 4 && Uint32(check) == Adler32(data) then Some(data) else None
  }

  lemma LittleEndianRoundTrip(n: nat)
    requires n < 0x1_0000
    ensures Uint16(LittleEndian16(n)) == n
  {
  }

  lemma ReadOneBlock(final: bool, content: Bytes, rest: Bytes)
    requires |content| <= BLOCK
    ensures var input := Block(final, content) + rest;
            && |input| >= 5 + |content| && input[0] == (if final then 1 else 0)
            && Uint16(input[1..3]) == |content| && Uint16(input[3..5]) == BLOCK - |content|
            && input[5..5 + |content|] == content && input[5 + |content|..] == rest
  {
    hide LittleEndian16, Uint16;
    var input := Block(final, content) + rest;
    assert input[1..3] == LittleEndian16(|content|);
    assert input[3..5] == LittleEndian16(BLOCK - |content|);
    LittleEndianRoundTrip(|content|);
    LittleEndianRoundTrip(BLOCK - |content|);
  }

  /** Exactly one block is final, and it is the last one. */
  lemma {:induction false} ReadInvertsBlocks(data: Bytes, rest: Bytes)
    ensures ReadBlocks(Blocks(data) + rest) == Some((data, rest))
    decreases |data|
  {
    hide Block, Uint16;
    if |data| <= BLOCK {
      ReadOneBlock(true, data, rest);
    } else {
      var content := data[..BLOCK];
      ReadOneBlock(false, content, Blocks(data[BLOCK..]) + rest);
      assert Blocks(data) + rest == Block(false, content) + (Blocks(data[BLOCK..]) + rest);
      ReadInvertsBlocks(data[BLOCK..], rest);
      assert content + data[BLOCK..] == data;
    }
  }

  lemma InflateInvertsStore(data: Bytes)
    ensures Inflate(Store(data)) == Some(data)
  {
    hide Blocks, ReadBlocks, Adler32, BigEndian32;
    var check := BigEndian32(Adler32(data));
    ReadInvertsBlocks(data, check);
    assert Store(data)[..2] == [0x78, 0x01];
    assert Store(data)[2..] == Blocks(data) + check;
    BigEndianRoundTrip([0, 0, 0, 0], Adler32(data));
  }

}
