/** The binary literal of a Git patch: a deflated stream as lines of base-85 words. */
module BinaryLiteral {
  import opened Outcomes
  import opened Objects
  import opened Base85
  import opened Codec
  import opened Collections
  import ZlibStore
  import Decimals

  const MAX_PATCH_BYTES: nat := 32 * 1024 * 1024
  const LINE: nat := 52

  // 'A' to 'Z' for lengths 1 to 26, 'a' to 'z' for 27 to 52.
  function LengthChar(n: nat): Byte
    requires 1 <= n <= LINE
  {
    if n <= 26 then 65 + n - 1 else 97 + n - 27
  }

  function LengthOf(b: Byte): Option<nat> {
    if 65 <= b <= 90 then Some(b - 64)
    else if 97 <= b <= 122 then Some(b - 70)
    else None
  }

  // The chunk as whole words, zeros filling the last one.
  function Padded(chunk: Bytes): (p: Bytes)
    ensures |p| % 4 == 0 && |chunk| <= |p| < |chunk| + 4 && p[..|chunk|] == chunk
    ensures forall k :: |chunk| <= k < |p| ==> p[k] == 0
  {
    chunk + seq((4 - |chunk| % 4) % 4, i => 0)
  }

  function Words(padded: Bytes): (text: Bytes)
    requires |padded| % 4 == 0
    ensures |text| == |padded| / 4 * 5
  {
    if padded == [] then [] else Word(Uint32(padded[..4])) + Words(padded[4..])
  }

  function Unwords(text: Bytes): Option<Bytes>
    requires |text| % 5 == 0
  {
    if text == [] then Some([])
    else
      var value := Unword(text[..5]);
      var rest := Unwords(text[5..]);
      if value.None? || rest.None? then None else Some(BigEndian32(value.value) + rest.value)
  }

  lemma {:induction false} UnwordsWords(padded: Bytes)
    requires |padded| % 4 == 0
    ensures Unwords(Words(padded)) == Some(padded)
  {
    hide Word, Unword, Uint32, BigEndian32;
    if padded != [] {
      UnwordsWords(padded[4..]);
      var value := Uint32(padded[..4]);
      UnwordWord(value);
      BigEndianRoundTrip(padded[..4], 0);
      assert Words(padded)[..5] == Word(value);
      assert Words(padded)[5..] == Words(padded[4..]);
      assert padded[..4] + padded[4..] == padded;
    }
  }

  function Line(chunk: Bytes): Bytes
    requires 1 <= |chunk| <= LINE
  {
    [LengthChar(|chunk|)] + Words(Padded(chunk)) + [NEWLINE]
  }

  function Lines(stream: Bytes): Bytes {
    if stream == [] then []
    else if |stream| <= LINE then Line(stream)
    else Line(stream[..LINE]) + Lines(stream[LINE..])
  }

  // The reader: lines until an empty one, then what follows it.
  function ReadLines(text: Bytes): Option<(Bytes, Bytes)> {
    if text == [] then None
    else if text[0] == NEWLINE then Some(([], text[1..]))
    else if LengthOf(text[0]).None? then None
    else
      var n := LengthOf(text[0]).value;
      var size := (n + 3) / 4 * 5;
      if |text| < size + 2 || text[size + 1] != NEWLINE then None
      else
        var bytes := Unwords(text[1..size + 1]);
        if bytes.None? || |bytes.value| < n then None
        else
          match ReadLines(text[size + 2..])
          case None => None
          case Some((more, rest)) => Some((bytes.value[..n] + more, rest))
  }

  lemma LengthReadsBack(n: nat)
    requires 1 <= n <= LINE
    ensures LengthOf(LengthChar(n)) == Some(n) && LengthChar(n) != NEWLINE
  {
  }

  // Where the parts of a line are.
  lemma LineParts(first: Byte, words: Bytes, after: Bytes)
    ensures var text := [first] + words + [NEWLINE] + after;
            && text[0] == first && text[1..|words| + 1] == words
            && text[|words| + 1] == NEWLINE && text[|words| + 2..] == after
  {
  }

  lemma ReadOneLine(chunk: Bytes, after: Bytes)
    requires 1 <= |chunk| <= LINE
    ensures |Line(chunk)| == (|chunk| + 3) / 4 * 5 + 2
    ensures ReadLines(Line(chunk) + after) ==
            match ReadLines(after)
            case None => None
            case Some((more, rest)) => Some((chunk + more, rest))
  {
    hide Words, Unwords, LengthOf, LengthChar, Padded;
    var padded := Padded(chunk);
    var size := (|chunk| + 3) / 4 * 5;
    assert |padded| / 4 * 5 == size;
    LengthReadsBack(|chunk|);
    UnwordsWords(padded);
    LineParts(LengthChar(|chunk|), Words(padded), after);
  }

  lemma ReadEnd(rest: Bytes)
    ensures ReadLines([NEWLINE] + rest) == Some(([], rest))
  {
    assert ([NEWLINE] + rest)[1..] == rest;
  }

  lemma {:induction false} ReadInvertsLines(stream: Bytes, rest: Bytes)
    ensures ReadLines(Lines(stream) + [NEWLINE] + rest) == Some((stream, rest))
    decreases |stream|
  {
    hide ReadLines, Line;
    var after := [NEWLINE] + rest;
    ReadEnd(rest);
    if stream == [] {
      assert Lines(stream) + [NEWLINE] + rest == after;
    } else if |stream| <= LINE {
      ReadOneLine(stream, after);
      assert Lines(stream) + [NEWLINE] + rest == Line(stream) + after;
      assert stream + [] == stream;
    } else {
      var head, tail := stream[..LINE], stream[LINE..];
      ReadInvertsLines(tail, rest);
      ReadOneLine(head, Lines(tail) + [NEWLINE] + rest);
      assert Lines(stream) + [NEWLINE] + rest == Line(head) + (Lines(tail) + [NEWLINE] + rest);
      assert head + tail == stream;
    }
  }

  const LITERAL: Bytes := [108, 105, 116, 101, 114, 97, 108, 32] // "literal "

  function Literal(data: Bytes): Bytes {
    Decimals.TextIsCanonical(|data|);
    LITERAL + Ascii(Decimals.Text(|data|)) + [NEWLINE] + Lines(ZlibStore.Store(data)) + [NEWLINE]
  }

  // The digits at the front of a text.
  function Digits(text: Bytes): (digits: string)
    ensures |digits| <= |text| && Decimals.AllDigits(digits)
  {
    if text != [] && 48 <= text[0] <= 57 then [text[0] as char] + Digits(text[1..]) else []
  }

  /** What Git does with such a literal: read the size, decode the lines, inflate, compare the size. */
  function ReadLiteral(text: Bytes): Option<Bytes> {
    if !(LITERAL <= text) then None
    else
      var digits := Digits(text[8..]);
      var body := text[8 + |digits|..];
      if digits == [] || body == [] || body[0] != NEWLINE then None
      else
        match ReadLines(body[1..])
        case None => None
        case Some((stream, rest)) =>
          match ZlibStore.Inflate(stream)
          case None => None
          case Some(data) => if rest == [] && |data| == Decimals.Value(digits) then Some(data) else None
  }

  lemma {:induction false} DigitsOfText(s: string, rest: Bytes)
    requires Decimals.AllDigits(s) && rest != [] && rest[0] == NEWLINE
    ensures forall i :: 0 <= i < |s| ==> s[i] as int < 128
    ensures Digits(Ascii(s) + rest) == s
  {
    if s == [] {
      assert Ascii(s) + rest == rest;
    } else {
      DigitsOfText(s[1..], rest);
      assert (Ascii(s) + rest)[1..] == Ascii(s[1..]) + rest;
      assert (Ascii(s) + rest)[0] == s[0] as int;
      assert [s[0]] + s[1..] == s;
    }
  }

  /** Reading gives back every byte string that was written. */
  lemma LiteralRoundTrip(data: Bytes)
    ensures ReadLiteral(Literal(data)) == Some(data)
  {
    hide Lines, ZlibStore.Inflate, ZlibStore.Store, ReadLines, Digits, Ascii;
    Decimals.TextIsCanonical(|data|);
    var size := Decimals.Text(|data|);
    var stream := ZlibStore.Store(data);
    var body := [NEWLINE] + (Lines(stream) + [NEWLINE]);
    var text := Literal(data);
    DigitsOfText(size, body);
    assert text == LITERAL + (Ascii(size) + body);
    assert text[8..] == Ascii(size) + body;
    assert text[8 + |size|..] == body;
    assert body[1..] == Lines(stream) + [NEWLINE] + [];
    ReadInvertsLines(stream, []);
    ZlibStore.InflateInvertsStore(data);
  }

  /** An output that refuses to grow beyond the patch limit. */
  class PatchWriter {
    var output: Bytes
    var written: nat

    ghost predicate Valid()
      reads this
    {
      written == |output| <= MAX_PATCH_BYTES
    }

    constructor ()
      ensures Valid() && output == []
    {
      output, written := [], 0;
    }

    method Write(buffer: Bytes) returns (ok: bool)
      requires Valid()
      modifies this
      ensures Valid()
      ensures ok <==> old(|output|) + |buffer| <= MAX_PATCH_BYTES
      ensures output == if ok then old(output) + buffer else old(output)
    {
      var next := written + |buffer|;
      if next > MAX_PATCH_BYTES {
        return false;
      }
      output := output + buffer;
      written := next;
      ok := true;
    }

    method WriteWords(padded: Bytes) returns (ok: bool)
      requires Valid() && |padded| % 4 == 0
      modifies this
      ensures Valid()
      ensures ok <==> old(|output|) + |Words(padded)| <= MAX_PATCH_BYTES
      ensures ok ==> output == old(output) + Words(padded)
    {
      hide Word, Words, Uint32;
      ghost var whole := output + Words(padded);
      var k := 0;
      assert padded[0..] == padded;
      while k < |padded|
        invariant 0 <= k <= |padded| && k % 4 == 0 && Valid()
        invariant output + Words(padded[k..]) == whole
      {
        assert padded[k..][..4] == padded[k..k + 4] && padded[k..][4..] == padded[k + 4..];
        WordsStep(padded[k..]);
        var encoded := EncodeWord(Uint32(padded[k..k + 4]));
        Reassociate(output, encoded, Words(padded[k + 4..]));
        ok := Write(encoded);
        if !ok {
          assert |output + encoded + Words(padded[k + 4..])| == |whole|;
          return;
        }
        k := k + 4;
      }
      assert padded[k..] == [];
      WordsStep([]);
      ok := true;
    }

    // One line: the length character, the words, the end of line.
    method WriteLine(chunk: Bytes) returns (ok: bool)
      requires Valid() && 1 <= |chunk| <= LINE
      modifies this
      ensures Valid()
      ensures ok <==> old(|output|) + |Line(chunk)| <= MAX_PATCH_BYTES
      ensures ok ==> output == old(output) + Line(chunk)
    {
      hide Words;
      ghost var start := output;
      var padded := Padded(chunk);
      ok := Write([LengthChar(|chunk|)]);
      if ok {
        ok := WriteWords(padded);
        if ok {
          ok := Write([NEWLINE]);
          Reassociate4(start, [LengthChar(|chunk|)], Words(padded), [NEWLINE]);
        }
      }
    }

    method WriteLines(stream: Bytes) returns (ok: bool)
      requires Valid()
      modifies this
      ensures Valid()
      ensures ok <==> old(|output|) + |Lines(stream)| <= MAX_PATCH_BYTES
      ensures ok ==> output == old(output) + Lines(stream)
    {
      hide Lines, Line;
      ghost var whole := output + Lines(stream);
      var k := 0;
      assert stream[0..] == stream;
      while k < |stream|
        invariant 0 <= k <= |stream| && Valid()
        invariant output + Lines(stream[k..]) == whole
      {
        var taken := if |stream| - k < LINE then |stream| - k else LINE;
        var chunk := stream[k..k + taken];
        assert chunk == stream[k..][..taken];
        LinesStep(stream[k..], chunk);
        assert stream[k..][taken..] == stream[k + taken..];
        Reassociate(output, Line(chunk), Lines(stream[k + taken..]));
        ghost var before := output;
        ok := WriteLine(chunk);
        if !ok {
          assert |before + Line(chunk) + Lines(stream[k + taken..])| == |whole|;
          return;
        }
        k := k + taken;
      }
      assert stream[k..] == [];
      LinesEnd();
      ok := true;
    }

    /**
     Writes the whole literal, or stops at the limit exactly when the literal
     would not fit.
     */
    method WriteBinaryLiteral(data: Bytes) returns (ok: bool)
      requires Valid()
      modifies this
      ensures Valid()
      ensures ok <==> old(|output|) + |Literal(data)| <= MAX_PATCH_BYTES
      ensures ok ==> output == old(output) + Literal(data)
    {
      hide Lines, Ascii, ZlibStore.Store;
      Decimals.TextIsCanonical(|data|);
      ghost var start := output;
      var heading := LITERAL + Ascii(Decimals.Text(|data|)) + [NEWLINE];
      var stream := ZlibStore.StoreBlocks(data);
      assert Literal(data) == heading + Lines(stream) + [NEWLINE];
      ok := Write(heading);
      if ok {
        ok := WriteLines(stream);
        if ok {
          ok := Write([NEWLINE]);
          Reassociate4(start, heading, Lines(stream), [NEWLINE]);
        }
      }
    }
  }

  lemma Reassociate4(a: Bytes, b: Bytes, c: Bytes, d: Bytes)
    ensures a + (b + c + d) == a + b + c + d
  {
  }

  lemma WordsStep(padded: Bytes)
    requires |padded| % 4 == 0
    ensures padded == [] ==> Words(padded) == []
    ensures padded != [] ==> Words(padded) == Word(Uint32(padded[..4])) + Words(padded[4..])
  {
  }

  lemma LinesEnd()
    ensures Lines([]) == []
  {
  }

  lemma LinesStep(stream: Bytes, chunk: Bytes)
    requires stream != [] && chunk == stream[..if |stream| < LINE then |stream| else LINE]
    ensures Lines(stream) == Line(chunk) + Lines(stream[|chunk|..])
  {
    hide Line;
    if |stream| <= LINE {
      assert chunk == stream && stream[|chunk|..] == [];
      assert Line(chunk) + [] == Line(chunk);
    }
  }

}
