/** Git's base-85 words: five digits for four bytes, most significant first. */
module Base85 {
  import opened Outcomes
  import opened Objects

  const DIGITS: string := "0123456789"
  const UPPER: string := "ABCDEFGHIJKLMNOPQRSTUVWXYZ"
  const LOWER: string := "abcdefghijklmnopqrstuvwxyz"
  const MARKS: string := "!#$%&()*+-;<=>?@^_`{|}~"
  const ALPHABET: string := DIGITS + UPPER + LOWER + MARKS

  function Digit(n: nat): Byte
    requires n < 85
  {
    AlphabetIsAscii(n);
    ALPHABET[n] as int
  }

  // The reader's table, range by range.
  function Undigit(b: Byte): Option<nat> {
    if 48 <= b <= 57 then Some(b - 48)
    else if 65 <= b <= 90 then Some(b - 55)
    else if 97 <= b <= 122 then Some(b - 61)
    else if b == 33 then Some(62)
    else if 35 <= b <= 38 then Some(b + 28)
    else if 40 <= b <= 43 then Some(b + 27)
    else if b == 45 then Some(71)
    else if 59 <= b <= 64 then Some(b + 13)
    else if 94 <= b <= 96 then Some(b - 16)
    else if 123 <= b <= 126 then Some(b - 42)
    else None
  }

  lemma DigitSegment(k: nat)
    requires k < 10
    ensures |DIGITS| == 10 && DIGITS[k] as int == 48 + k
  {
  }

  lemma UpperSegment(k: nat)
    requires k < 26
    ensures |UPPER| == 26 && UPPER[k] as int == 65 + k
  {
  }

  lemma LowerSegment(k: nat)
    requires k < 26
    ensures |LOWER| == 26 && LOWER[k] as int == 97 + k
  {
  }

  lemma MarkSegment(k: nat)
    requires k < 23
    ensures |MARKS| == 23 && MARKS[k] as int < 127 && Undigit(MARKS[k] as int) == Some(62 + k)
  {
  }

  lemma AlphabetIsAscii(n: nat)
    requires n < 85
    ensures |ALPHABET| == 85
    ensures ALPHABET[n] as int < 127 && Undigit(ALPHABET[n] as int) == Some(n)
  {
    hide DIGITS, UPPER, LOWER, MARKS;
    DigitSegment(if n < 10 then n else 0);
    UpperSegment(if 10 <= n < 36 then n - 10 else 0);
    LowerSegment(if 36 <= n < 62 then n - 36 else 0);
    MarkSegment(if 62 <= n then n - 62 else 0);
    if n < 10 {
      assert ALPHABET[n] == DIGITS[n];
    } else if n < 36 {
      assert ALPHABET[n] == UPPER[n - 10];
    } else if n < 62 {
      assert ALPHABET[n] == LOWER[n - 36];
    } else {
      assert ALPHABET[n] == MARKS[n - 62];
    }
  }

  lemma UndigitDigit(n: nat)
    requires n < 85
    ensures Undigit(Digit(n)) == Some(n)
  {
    AlphabetIsAscii(n);
  }

  // 85 to the fifth power exceeds 32 bits, so five digits always suffice.
  function Word(value: nat): (digits: Bytes)
    requires value < 0x1_0000_0000
    ensures |digits| == 5
  {
    var q1 := value / 85;
    var q2 := q1 / 85;
    var q3 := q2 / 85;
    var q4 := q3 / 85;
    [Digit(q4), Digit(q3 % 85), Digit(q2 % 85), Digit(q1 % 85), Digit(value % 85)]
  }

  function Unword(digits: Bytes): Option<nat>
    requires |digits| == 5
  {
    var a, b, c, d, e := Undigit(digits[0]), Undigit(digits[1]), Undigit(digits[2]), Undigit(digits[3]), Undigit(digits[4]);
    if a.None? || b.None? || c.None? || d.None? || e.None? then None
    else
      var value := (((a.value * 85 + b.value) * 85 + c.value) * 85 + d.value) * 85 + e.value;
      if value < 0x1_0000_0000 then Some(value) else None
  }

  lemma UnwordWord(value: nat)
    requires value < 0x1_0000_0000
    ensures Unword(Word(value)) == Some(value)
  {
    hide Digit, Undigit;
    var q1 := value / 85;
    var q2 := q1 / 85;
    var q3 := q2 / 85;
    var q4 := q3 / 85;
    UndigitDigit(q4);
    UndigitDigit(q3 % 85);
    UndigitDigit(q2 % 85);
    UndigitDigit(q1 % 85);
    UndigitDigit(value % 85);
    assert q4 * 85 + q3 % 85 == q3;
    assert q3 * 85 + q2 % 85 == q2;
    assert q2 * 85 + q1 % 85 == q1;
    assert q1 * 85 + value % 85 == value;
  }

  // The value after dividing by 85 a number of times.
  function Quotient(value: nat, times: nat): nat {
    if times == 0 then value else Quotient(value, times - 1) / 85
  }

  lemma WordByQuotients(value: nat)
    requires value < 0x1_0000_0000
    ensures forall k :: 0 <= k < 5 ==> Word(value)[k] == Digit(Quotient(value, 4 - k) % 85)
  {
    hide Digit;
    assert Quotient(value, 1) == value / 85;
    assert Quotient(value, 2) == value / 85 / 85;
    assert Quotient(value, 3) == value / 85 / 85 / 85;
    assert Quotient(value, 4) == value / 85 / 85 / 85 / 85;
  }

  /** Fills the five places from the last to the first. */
  method EncodeWord(value: nat) returns (digits: Bytes)
    requires value < 0x1_0000_0000
    ensures digits == Word(value)
  {
    hide Digit, Word;
    var encoded := new Byte[5];
    var rest := value;
    var i := 5;
    while i > 0
      invariant 0 <= i <= 5 && encoded.Length == 5
      invariant rest == Quotient(value, 5 - i)
      invariant forall k :: i <= k < 5 ==> encoded[k] == Digit(Quotient(value, 4 - k) % 85)
    {
      i := i - 1;
      encoded[i] := Digit(rest % 85);
      rest := rest / 85;
    }
    digits := encoded[..];
    WordByQuotients(value);
  }

  function Uint32(bytes: Bytes): (value: nat)
    requires |bytes| == 4
    ensures value < 0x1_0000_0000
  {
    var a: int, b: int, c: int, d: int := bytes[0], bytes[1], bytes[2], bytes[3];
    ((a * 256 + b) * 256 + c) * 256 + d
  }

  function BigEndian32(value: nat): (bytes: Bytes)
    requires value < 0x1_0000_0000
    ensures |bytes| == 4
  {
    [value / 0x100_0000, value / 0x1_0000 % 256, value / 256 % 256, value % 256]
  }

  lemma BigEndianRoundTrip(bytes: Bytes, value: nat)
    requires |bytes| == 4 && value < 0x1_0000_0000
    ensures BigEndian32(Uint32(bytes)) == bytes
    ensures Uint32(BigEndian32(value)) == value
  {
    var v := Uint32(bytes);
    var a: int, b: int, c: int := bytes[0], bytes[1], bytes[2];
    assert v / 256 == (a * 256 + b) * 256 + c;
    assert v / 0x1_0000 == a * 256 + b;
    assert v / 0x100_0000 == a;
    assert bytes == [bytes[0], bytes[1], bytes[2], bytes[3]];
    var q1 := value / 256;
    var q2 := q1 / 256;
    assert q2 == value / 0x1_0000 && q2 / 256 == value / 0x100_0000;
  }

}
