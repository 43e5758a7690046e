/**
 Headers of the ustar interchange format of pax (IEEE Std 1003.1): the writer's
 512-byte array, and the reader that gets the member back from it.
 */
module Ustar {
  import opened Outcomes
  import opened Objects
  import opened Collections

  const SLASH: Byte := 47
  const SPACE: Byte := 32

  datatype TarError = ArchivePath | ArchiveMetadata

  datatype Member = Member(path: Bytes, mode: nat, size: nat, modified: nat, kind: Byte)

  function Zeros(n: nat): (z: Bytes)
    ensures |z| == n
  {
    seq(n, _ => 0)
  }

  // A legal place to cut a long path: the name fits, the prefix fits, neither is empty.
  predicate LegalSplit(path: Bytes, split: nat) {
    && 1 <= split < |path| && path[split] == SLASH
    && split + 1 < |path| && |path| - split - 1 <= 100 && split <= 155
  }

  // The last legal place at or before an index.
  function LastSplit(path: Bytes, from: nat): Option<nat>
    requires from <= |path|
  {
    if from <= 1 then None
    else if LegalSplit(path, from - 1) then Some(from - 1)
    else LastSplit(path, from - 1)
  }

  // Name and prefix.
  function SplitPath(path: Bytes): Option<(Bytes, Bytes)> {
    if |path| <= 100 then Some((path, []))
    else
      match LastSplit(path, |path|)
      case None => None
      case Some(split) => if LegalSplit(path, split) then Some((path[split + 1..], path[..split])) else None
  }

  method SplitTarPath(path: Bytes) returns (r: Result<(Bytes, Bytes), TarError>)
    ensures r.Success? <==> SplitPath(path).Some?
    ensures r.Success? ==> SplitPath(path) == Some(r.value)
    ensures r.Failure? ==> r.error == ArchivePath
  {
    if |path| <= 100 {
      return Success((path, []));
    }
    var split := |path|;
    while split > 1
      invariant 1 <= split <= |path|
      invariant LastSplit(path, split) == LastSplit(path, |path|)
    {
      split := split - 1;
      if path[split] == SLASH && split + 1 < |path| && |path| - split - 1 <= 100 && split <= 155 {
        return Success((path[split + 1..], path[..split]));
      }
    }
    r := Failure(ArchivePath);
  }

  lemma {:induction false} LastSplitFinds(path: Bytes, from: nat)
    requires from <= |path|
    ensures LastSplit(path, from).Some? ==> LegalSplit(path, LastSplit(path, from).value)
    ensures LastSplit(path, from).None? <==> forall i :: 0 <= i < from ==> !LegalSplit(path, i)
  {
    if from > 1 {
      LastSplitFinds(path, from - 1);
    }
  }

  function JoinPath(name: Bytes, prefix: Bytes): Bytes {
    if prefix == [] then name else prefix + [SLASH] + name
  }

  /** A path is refused only when no legal split exists, and a split joins back to the path. */
  lemma SplitIsExact(path: Bytes)
    ensures SplitPath(path).None? <==> |path| > 100 && forall i :: 0 <= i < |path| ==> !LegalSplit(path, i)
    ensures SplitPath(path).Some? ==>
              var (name, prefix) := SplitPath(path).value;
              |name| <= 100 && |prefix| <= 155 && JoinPath(name, prefix) == path
  {
    LastSplitFinds(path, |path|);
    if |path| > 100 && LastSplit(path, |path|).Some? {
      var split := LastSplit(path, |path|).value;
      assert path == path[..split] + [SLASH] + path[split + 1..];
    }
  }

  function Pow8(n: nat): nat {
    if n == 0 then 1 else 8 * Pow8(n - 1)
  }

  // Exactly n octal digits.
  function Octal(value: nat, n: nat): (digits: Bytes)
    ensures |digits| == n
  {
    if n == 0 then [] else Octal(value / 8, n - 1) + [48 + value % 8]
  }

  function ReadOctal(digits: Bytes): Option<nat> {
    if digits == [] then Some(0)
    else
      var last := digits[|digits| - 1];
      var rest := ReadOctal(digits[..|digits| - 1]);
      if rest.None? || !(48 <= last <= 55) then None else Some(rest.value * 8 + (last - 48))
  }

  lemma {:induction false} OctalReadsBack(value: nat, n: nat)
    requires value < Pow8(n)
    ensures ReadOctal(Octal(value, n)) == Some(value)
  {
    if n > 0 {
      OctalReadsBack(value / 8, n - 1);
      assert Octal(value, n)[..n - 1] == Octal(value / 8, n - 1);
    }
  }

  // The shortest octal text, as the formatter prints it.
  function OctalText(value: nat): (text: Bytes)
    ensures |text| > 0
  {
    if value < 8 then [48 + value] else OctalText(value / 8) + [48 + value % 8]
  }

  lemma {:induction false} OctalTextFits(value: nat, n: nat)
    requires n > 0
    ensures |OctalText(value)| <= n <==> value < Pow8(n)
  {
    if value >= 8 {
      if n > 1 {
        OctalTextFits(value / 8, n - 1);
      }
    } else {
      PowGrows(n);
    }
  }

  lemma {:induction false} PowGrows(n: nat)
    requires n > 0
    ensures Pow8(n) >= 8
  {
    if n > 1 {
      PowGrows(n - 1);
    }
  }

  // Right-aligned in zeros, the shortest text is the fixed-width one.
  lemma {:induction false} OctalTextPads(value: nat, n: nat)
    requires |OctalText(value)| <= n
    ensures seq(n - |OctalText(value)|, _ => 48) + OctalText(value) == Octal(value, n)
  {
    if value < 8 {
      OctalZero(n - 1);
      assert Octal(value, n) == Octal(0, n - 1) + [48 + value];
    } else {
      OctalTextPads(value / 8, n - 1);
    }
  }

  lemma {:induction false} OctalZero(n: nat)
    ensures Octal(0, n) == seq(n, _ => 48)
  {
    if n > 0 {
      OctalZero(n - 1);
    }
  }

  function Splice(s: Bytes, at: nat, part: Bytes): (t: Bytes)
    requires at + |part| <= |s|
    ensures |t| == |s|
    ensures forall k :: 0 <= k < |s| ==> t[k] == if at <= k < at + |part| then part[k - at] else s[k]
  {
    s[..at] + part + s[at + |part|..]
  }

  function Sum(s: Bytes): nat {
    if s == [] then 0 else Sum(s[..|s| - 1]) + s[|s| - 1]
  }

  lemma {:induction false} SumBound(s: Bytes)
    ensures Sum(s) <= 255 * |s|
  {
    if s != [] {
      SumBound(s[..|s| - 1]);
    }
  }

  // An octal field of a given width: digits and a terminating zero.
  function Field(value: nat, width: nat): (f: Bytes)
    requires width > 0
    ensures |f| == width
  {
    Octal(value, width - 1) + [0]
  }

  const BLANKS: Bytes := [32, 32, 32, 32, 32, 32, 32, 32]
  const MAGIC: Bytes := [117, 115, 116, 97, 114, 0] // "ustar" and a zero
  const VERSION: Bytes := [48, 48]

  // The layers of the header, from the first splice to the last.
  function Layers(name: Bytes, prefix: Bytes, m: Member): (parts: seq<(nat, Bytes)>)
    requires |name| <= 100 && |prefix| <= 155
    ensures |parts| == 11 && InRange(parts)
  {
    [(0, name), (345, prefix), (100, Field(m.mode, 8)), (108, Field(0, 8)), (116, Field(0, 8)),
     (124, Field(m.size, 12)), (136, Field(m.modified, 12)), (148, BLANKS), (156, [m.kind]), (257, MAGIC), (263, VERSION)]
  }

  predicate InRange(parts: seq<(nat, Bytes)>) {
    forall i :: 0 <= i < |parts| ==> parts[i].0 + |parts[i].1| <= 512
  }

  function Stack(parts: seq<(nat, Bytes)>): (h: Bytes)
    requires InRange(parts)
    ensures |h| == 512
  {
    if parts == [] then Zeros(512)
    else
      var last := parts[|parts| - 1];
      assert InRange(parts[..|parts| - 1]);
      Splice(Stack(parts[..|parts| - 1]), last.0, last.1)
  }

  // The header with blanks for its checksum.
  function Unsigned(name: Bytes, prefix: Bytes, m: Member): (h: Bytes)
    requires |name| <= 100 && |prefix| <= 155
    ensures |h| == 512
  {
    Stack(Layers(name, prefix, m))
  }

  function Header(name: Bytes, prefix: Bytes, m: Member): (h: Bytes)
    requires |name| <= 100 && |prefix| <= 155
    ensures |h| == 512
  {
    var h := Unsigned(name, prefix, m);
    Splice(h, 148, Octal(Sum(h), 6) + [0, SPACE])
  }

  predicate Fits(m: Member) {
    m.mode < Pow8(7) && m.size < Pow8(11) && m.modified < Pow8(11)
  }

  // A text field ends at its first zero.
  lemma BeforePadding(text: Bytes, n: nat)
    requires 0 !in text
    ensures Before(text + Zeros(n), 0) == text
  {
    BeforeOf(text, 0, Zeros(if n == 0 then 0 else n - 1));
    if n == 0 {
      assert text + Zeros(0) == text;
    } else {
      assert text + Zeros(n) == text + [0] + Zeros(n - 1);
    }
  }

  // A reader of headers: checks the magic and the checksum, then reads the fields.
  function ParseHeader(h: Bytes): Option<Member>
    requires |h| == 512
  {
    var sum := ReadOctal(h[148..154]);
    var mode, size, modified := ReadOctal(h[100..107]), ReadOctal(h[124..135]), ReadOctal(h[136..147]);
    if h[257..263] != MAGIC || h[263..265] != VERSION then None
    else if sum != Some(Sum(Splice(h, 148, BLANKS))) then None
    else if mode.None? || size.None? || modified.None? then None
    else Some(Member(JoinPath(Before(h[..100], 0), Before(h[345..500], 0)), mode.value, size.value, modified.value, h[156]))
  }

  // A splice leaves every range outside it alone, and its own range is the part.
  lemma SpliceElsewhere(s: Bytes, at: nat, part: Bytes, i: nat, j: nat)
    requires at + |part| <= |s| && i <= j <= |s| && (j <= at || at + |part| <= i)
    ensures Splice(s, at, part)[i..j] == s[i..j]
  {
  }

  lemma SpliceHere(s: Bytes, at: nat, part: Bytes)
    requires at + |part| <= |s|
    ensures Splice(s, at, part)[at..at + |part|] == part
  {
  }

  predicate Apart(part: (nat, Bytes), i: nat, j: nat) {
    j <= part.0 || part.0 + |part.1| <= i
  }

  // A range no later layer touches shows the layer below.
  lemma {:induction false} StackShows(parts: seq<(nat, Bytes)>, n: nat, i: nat, j: nat)
    requires InRange(parts) && n <= |parts| && i <= j <= 512
    requires forall k :: n <= k < |parts| ==> Apart(parts[k], i, j)
    ensures InRange(parts[..n]) && Stack(parts)[i..j] == Stack(parts[..n])[i..j]
    decreases |parts|
  {
    if n < |parts| {
      var front := parts[..|parts| - 1];
      var last := parts[|parts| - 1];
      assert Apart(parts[|parts| - 1], i, j);
      SpliceElsewhere(Stack(front), last.0, last.1, i, j);
      assert front[..n] == parts[..n];
      StackShows(front, n, i, j);
    } else {
      assert parts[..n] == parts;
    }
  }

  // The range of one layer that no later one touches.
  lemma LayerShows(parts: seq<(nat, Bytes)>, n: nat)
    requires InRange(parts) && n < |parts|
    requires forall k :: n < k < |parts| ==> Apart(parts[k], parts[n].0, parts[n].0 + |parts[n].1|)
    ensures Stack(parts)[parts[n].0..parts[n].0 + |parts[n].1|] == parts[n].1
  {
    var upto := parts[..n + 1];
    StackShows(parts, n + 1, parts[n].0, parts[n].0 + |parts[n].1|);
    assert upto[..|upto| - 1] == parts[..n] && upto[|upto| - 1] == parts[n];
    SpliceHere(Stack(parts[..n]), parts[n].0, parts[n].1);
  }

  // The two halves of the path, padded with zeros.
  lemma UnsignedPaths(name: Bytes, prefix: Bytes, m: Member)
    requires |name| <= 100 && |prefix| <= 155
    ensures var h := Unsigned(name, prefix, m);
            && h[..|name|] == name && h[|name|..100] == Zeros(100 - |name|)
            && h[345..345 + |prefix|] == prefix && h[345 + |prefix|..500] == Zeros(155 - |prefix|)
  {
    hide Stack, Octal, Field, Zeros;
    var parts := Layers(name, prefix, m);
    LayerShows(parts, 0);
    LayerShows(parts, 1);
    StackShows(parts, 0, |name|, 100);
    StackShows(parts, 0, 345 + |prefix|, 500);
    EmptyStack(|name|, 100);
    EmptyStack(345 + |prefix|, 500);
    assert parts[..0] == [];
  }

  // What each of the other ranges holds.
  lemma UnsignedFields(name: Bytes, prefix: Bytes, m: Member)
    requires |name| <= 100 && |prefix| <= 155
    ensures var h := Unsigned(name, prefix, m);
            && h[100..108] == Field(m.mode, 8) && h[124..136] == Field(m.size, 12) && h[136..148] == Field(m.modified, 12)
            && h[148..156] == BLANKS && h[156..157] == [m.kind]
            && h[257..263] == MAGIC && h[263..265] == VERSION
  {
    hide Stack, Octal, Field, Zeros;
    var parts := Layers(name, prefix, m);
    LayerShows(parts, 2);
    LayerShows(parts, 5);
    LayerShows(parts, 6);
    LayerShows(parts, 7);
    LayerShows(parts, 8);
    LayerShows(parts, 9);
    LayerShows(parts, 10);
  }

  lemma EmptyStack(i: nat, j: nat)
    requires i <= j <= 512
    ensures Stack([])[i..j] == Zeros(j - i)
  {
  }

  /** Every header reads back as the member it was written for. */
  lemma HeaderParses(name: Bytes, prefix: Bytes, m: Member)
    requires |name| <= 100 && |prefix| <= 155 && 0 !in name && 0 !in prefix
    requires m.path == JoinPath(name, prefix) && Fits(m)
    ensures ParseHeader(Header(name, prefix, m)) == Some(m)
  {
    hide Unsigned, Octal, Splice, Zeros, Before, ReadOctal;
    var plain := Unsigned(name, prefix, m);
    var sum := Sum(plain);
    var tag := Octal(sum, 6) + [0, SPACE];
    var h := Header(name, prefix, m);
    UnsignedFields(name, prefix, m);
    SumBound(plain);
    PowValues();
    OctalReadsBack(sum, 6);
    SpliceHere(plain, 148, tag);
    assert h[148..154] == h[148..156][..6] == Octal(sum, 6);
    SpliceTwice(plain, 148, tag, BLANKS);
    SpliceElsewhere(plain, 148, tag, 0, 148);
    SpliceElsewhere(plain, 148, tag, 156, 512);
    FieldsAround(plain, h, name, prefix, m);
    BeforePadding(name, 100 - |name|);
    BeforePadding(prefix, 155 - |prefix|);
    OctalReadsBack(m.mode, 7);
    OctalReadsBack(m.size, 11);
    OctalReadsBack(m.modified, 11);
  }

  lemma PowValues()
    ensures Pow8(6) == 262_144 && Pow8(7) == 2_097_152
  {
    assert Pow8(1) == 8;
    assert Pow8(2) == 64;
    assert Pow8(3) == 512;
    assert Pow8(4) == 4096;
    assert Pow8(5) == 32_768;
  }

  // Replacing the checksum by blanks again restores the unsigned header.
  lemma SpliceTwice(s: Bytes, at: nat, part: Bytes, again: Bytes)
    requires at + |part| <= |s| && |part| == |again| && s[at..at + |part|] == again
    ensures Splice(Splice(s, at, part), at, again) == s
  {
  }

  lemma FieldsAround(plain: Bytes, h: Bytes, name: Bytes, prefix: Bytes, m: Member)
    requires |name| <= 100 && |prefix| <= 155 && |plain| == |h| == 512
    requires plain == Unsigned(name, prefix, m) && h[0..148] == plain[0..148] && h[156..512] == plain[156..512]
    ensures h[..100] == name + Zeros(100 - |name|) && h[345..500] == prefix + Zeros(155 - |prefix|)
    ensures h[100..107] == Octal(m.mode, 7) && h[124..135] == Octal(m.size, 11) && h[136..147] == Octal(m.modified, 11)
    ensures h[156] == m.kind && h[257..263] == MAGIC && h[263..265] == VERSION
  {
    hide Unsigned, Octal, Zeros;
    UnsignedPaths(name, prefix, m);
    UnsignedFields(name, prefix, m);
    assert forall k :: 0 <= k < 148 ==> h[k] == h[0..148][k] && plain[k] == plain[0..148][k];
    assert forall k :: 156 <= k < 512 ==> h[k] == h[156..512][k - 156] && plain[k] == plain[156..512][k - 156];
    assert h[..100] == plain[..|name|] + plain[|name|..100];
    assert h[345..500] == plain[345..345 + |prefix|] + plain[345 + |prefix|..500];
    assert h[100..107] == plain[100..108][..7];
    assert h[124..135] == plain[124..136][..11];
    assert h[136..147] == plain[136..148][..11];
    assert h[156] == plain[156..157][0];
    assert h[257..263] == plain[257..263] && h[263..265] == plain[263..265];
  }

  method Place(a: array<Byte>, at: nat, part: Bytes)
    requires at + |part| <= a.Length
    modifies a
    ensures a[..] == Splice(old(a[..]), at, part)
  {
    forall k | 0 <= k < |part| {
      a[at + k] := part[k];
    }
  }

  // Filling with zero digits, then placing the text and the final zero.
  lemma FieldLayers(s: Bytes, at: nat, width: nat, text: Bytes)
    requires at + width <= |s| && |text| + 1 <= width
    ensures Splice(Splice(Splice(s, at, seq(width, _ => 48)), at + width - |text| - 1, text), at + width - 1, [0])
         == Splice(s, at, seq(width - 1 - |text|, _ => 48) + text + [0])
  {
    hide Splice;
  }

  /** Right-aligned octal digits with a final zero, or an error when they do not fit. */
  method WriteTarOctal(a: array<Byte>, at: nat, width: nat, value: nat) returns (ok: bool)
    requires at + width <= a.Length && width >= 2
    modifies a
    ensures ok <==> value < Pow8(width - 1)
    ensures a[..] == if ok then Splice(old(a[..]), at, Field(value, width)) else old(a[..])
  {
    hide Octal, OctalText, Splice, Pow8;
    var text := OctalText(value);
    OctalTextFits(value, width - 1);
    if |text| + 1 > width {
      return false;
    }
    OctalTextPads(value, width - 1);
    Place(a, at, seq(width, _ => 48));
    var start := at + width - |text| - 1;
    Place(a, start, text);
    Place(a, at + width - 1, [0]);
    FieldLayers(old(a[..]), at, width, text);
    ok := true;
  }

  method Checksum(a: array<Byte>) returns (sum: nat)
    ensures sum == Sum(a[..])
  {
    sum := 0;
    for k := 0 to a.Length
      invariant sum == Sum(a[..k])
    {
      assert a[..k + 1][..k] == a[..k];
      sum := sum + a[k];
    }
    assert a[..a.Length] == a[..];
  }

  // One more layer on the stack.
  lemma StackGrows(parts: seq<(nat, Bytes)>, k: nat)
    requires InRange(parts) && k < |parts|
    ensures InRange(parts[..k]) && InRange(parts[..k + 1])
    ensures Stack(parts[..k + 1]) == Splice(Stack(parts[..k]), parts[k].0, parts[k].1)
  {
    assert parts[..k + 1][..k] == parts[..k];
  }

  /**
   Fills the header array field by field.  The path or a number may not fit;
   the checksum always does.
   */
  method WriteTarHeader(m: Member) returns (r: Result<Bytes, TarError>)
    ensures r.Success? <==> SplitPath(m.path).Some? && Fits(m)
    ensures r.Success? ==> |SplitPath(m.path).value.0| <= 100 && |SplitPath(m.path).value.1| <= 155
    ensures r.Success? ==> r.value == Header(SplitPath(m.path).value.0, SplitPath(m.path).value.1, m)
    ensures r.Failure? ==> r.error == if SplitPath(m.path).None? then ArchivePath else ArchiveMetadata
  {
    hide Octal, Splice, Stack, SplitPath, Pow8;
    var split := SplitTarPath(m.path);
    if split.Failure? {
      return Failure(split.error);
    }
    var (name, prefix) := split.value;
    SplitIsExact(m.path);
    var header := new Byte[512](_ => 0);
    ghost var parts := Layers(name, prefix, m);
    StackStart();
    assert parts[..0] == [] && header[..] == Stack(parts[..0]);
    StackGrows(parts, 0);
    Place(header, 0, name);
    StackGrows(parts, 1);
    Place(header, 345, prefix);
    var filled := FillNumbers(header, parts, m);
    if filled.Failure? {
      return Failure(filled.error);
    }
    FillMarks(header, parts, m.kind);
    var sum := Checksum(header);
    Place(header, 148, Octal(sum, 6) + [0, SPACE]);
    r := Success(header[..]);
  }

  method FillMarks(header: array<Byte>, ghost parts: seq<(nat, Bytes)>, kind: Byte)
    requires header.Length == 512 && |parts| == 11 && InRange(parts) && InRange(parts[..7])
    requires parts[7..] == [(148, BLANKS), (156, [kind]), (257, MAGIC), (263, VERSION)]
    requires header[..] == Stack(parts[..7])
    modifies header
    ensures header[..] == Stack(parts)
  {
    hide Splice, Stack;
    assert forall k :: 7 <= k < 11 ==> parts[k] == parts[7..][k - 7];
    StackGrows(parts, 7);
    Place(header, 148, BLANKS);
    StackGrows(parts, 8);
    Place(header, 156, [kind]);
    StackGrows(parts, 9);
    Place(header, 257, MAGIC);
    StackGrows(parts, 10);
    Place(header, 263, VERSION);
    assert parts[..11] == parts;
  }

  lemma StackStart()
    ensures InRange([]) && Stack([]) == Zeros(512)
  {
  }

  method FillNumbers(header: array<Byte>, ghost parts: seq<(nat, Bytes)>, m: Member) returns (r: Result<(), TarError>)
    requires header.Length == 512 && |parts| == 11 && InRange(parts) && InRange(parts[..2])
    requires parts[2..7] == [(100, Field(m.mode, 8)), (108, Field(0, 8)), (116, Field(0, 8)),
                             (124, Field(m.size, 12)), (136, Field(m.modified, 12))]
    requires header[..] == Stack(parts[..2])
    modifies header
    ensures r.Success? <==> Fits(m)
    ensures r.Success? ==> InRange(parts[..7]) && header[..] == Stack(parts[..7])
    ensures r.Failure? ==> r.error == ArchiveMetadata
  {
    hide Octal, Splice, Stack;
    ZeroFits();
    assert forall k :: 2 <= k < 7 ==> parts[k] == parts[2..7][k - 2];
    StackGrows(parts, 2);
    var ok := WriteTarOctal(header, 100, 8, m.mode);
    if !ok {
      return Failure(ArchiveMetadata);
    }
    StackGrows(parts, 3);
    ok := WriteTarOctal(header, 108, 8, 0);
    StackGrows(parts, 4);
    ok := WriteTarOctal(header, 116, 8, 0);
    StackGrows(parts, 5);
    ok := WriteTarOctal(header, 124, 12, m.size);
    if !ok {
      return Failure(ArchiveMetadata);
    }
    StackGrows(parts, 6);
    ok := WriteTarOctal(header, 136, 12, m.modified);
    if !ok {
      return Failure(ArchiveMetadata);
    }
    r := Success(());
  }

  lemma ZeroFits()
    ensures 0 < Pow8(7)
  {
    PowValues();
  }

}
