/** The text a client signs to log in: its printer, its parser, and that each accepts exactly the other's texts. */
module LoginChallenge {
  import opened Outcomes
  import opened Objects
  import opened Codec
  import opened Collections
  import Decimals

  const NONCE_BYTES: nat := 32
  const TIME_LIMIT: nat := 0x1_0000_0000_0000_0000

  datatype Challenge = Challenge(origin: string, username: string, nonce: Bytes, issuedAt: nat, expiresAt: nat)

  datatype AuthError = MalformedChallenge | InvalidUsername

  predicate UsernameChar(ch: char) {
    'a' <= ch <= 'z' || '0' <= ch <= '9'
  }

  predicate ValidUsername(s: string) {
    && 1 <= |s| <= 40
    && UsernameChar(s[0]) && UsernameChar(s[|s| - 1])
    && (forall i :: 0 <= i < |s| ==> UsernameChar(s[i]) || s[i] == '-')
    && s !in {"admin", "api", "assets", "feeds", "issues", "setup"}
  }

  predicate WellFormed(c: Challenge) {
    && c.origin != "" && '\n' !in c.origin && '\r' !in c.origin
    && ValidUsername(c.username)
    && |c.nonce| == NONCE_BYTES
    && c.issuedAt < TIME_LIMIT && c.expiresAt < TIME_LIMIT
  }

  function HexText(nonce: Bytes): string {
    var hex := LowerHex(nonce);
    seq(|hex|, i requires 0 <= i < |hex| => hex[i] as char)
  }

  function Lines(c: Challenge): (lines: seq<string>)
    ensures |lines| == 7
  {
    ["tit-auth-v2", "purpose=web-login", "origin=" + c.origin, "username=" + c.username,
     "nonce=" + HexText(c.nonce), "issued-at=" + Decimals.Text(c.issuedAt), "expires-at=" + Decimals.Text(c.expiresAt)]
  }

  // Each line with its line end.
  function Unlines(lines: seq<string>): string {
    if lines == [] then "" else lines[0] + "\n" + Unlines(lines[1..])
  }

  function Format(c: Challenge): string {
    Unlines(Lines(c))
  }

  function Split(s: string): (lines: seq<string>)
    ensures |lines| > 0
  {
    var line := Before(s, '\n');
    if |line| == |s| then [line] else [line] + Split(s[|line| + 1..])
  }

  function Field(line: string, prefix: string): Option<string> {
    if prefix <= line then Some(line[|prefix|..]) else None
  }

  function ParseTime(value: string): Option<nat> {
    if value == "" || !Decimals.AllDigits(value) || (|value| > 1 && value[0] == '0') then None
    else if Decimals.Value(value) >= TIME_LIMIT then None
    else Some(Decimals.Value(value))
  }

  // Text outside ASCII holds no hexadecimal digit.
  function ParseNonce(value: string): Option<Bytes> {
    if exists i :: 0 <= i < |value| && value[i] as int >= 128 then None
    else
      var decoded := DecodeHex(seq(|value|, i requires 0 <= i < |value| => value[i] as int), false);
      if decoded.None? || |decoded.value| != NONCE_BYTES then None else decoded
  }

  function LineAt(lines: seq<string>, i: nat, prefix: string): Option<string> {
    if i < |lines| then Field(lines[i], prefix) else None
  }

  function Parse(text: string): Result<Challenge, AuthError> {
    if text == "" || text[|text| - 1] != '\n' then Failure(MalformedChallenge)
    else
      var lines := Split(text[..|text| - 1]);
      if lines[0] != "tit-auth-v2" || |lines| < 2 || lines[1] != "purpose=web-login" then Failure(MalformedChallenge)
      else
        var origin, username := LineAt(lines, 2, "origin="), LineAt(lines, 3, "username=");
        if origin.None? || username.None? then Failure(MalformedChallenge)
        else if !ValidUsername(username.value) then Failure(InvalidUsername)
        else
          var nonceText, issuedText, expiresText :=
            LineAt(lines, 4, "nonce="), LineAt(lines, 5, "issued-at="), LineAt(lines, 6, "expires-at=");
          if nonceText.None? || issuedText.None? || expiresText.None? then Failure(MalformedChallenge)
          else
            var nonce, issuedAt, expiresAt := ParseNonce(nonceText.value), ParseTime(issuedText.value), ParseTime(expiresText.value);
            if nonce.None? || issuedAt.None? || expiresAt.None? then Failure(MalformedChallenge)
            else if |lines| > 7 || origin.value == "" || '\r' in origin.value || '\n' in origin.value then Failure(MalformedChallenge)
            else Success(Challenge(origin.value, username.value, nonce.value, issuedAt.value, expiresAt.value))
  }

  predicate NoLineEnds(lines: seq<string>) {
    forall i :: 0 <= i < |lines| ==> '\n' !in lines[i]
  }

  // Splitting undoes the joining of lines.
  lemma {:induction false} SplitUnlines(lines: seq<string>)
    requires lines != [] && NoLineEnds(lines)
    ensures var text := Unlines(lines); text != "" && text[|text| - 1] == '\n' && Split(text[..|text| - 1]) == lines
  {
    hide Split, Before;
    var line, tail := lines[0], lines[1..];
    assert lines == [line] + tail;
    if tail == [] {
      SplitLast(line);
      assert Unlines(tail) == "";
      assert Unlines(lines)[..|line|] == line;
    } else {
      SplitUnlines(tail);
      var rest := Unlines(tail);
      var body := rest[..|rest| - 1];
      SplitOne(line, body);
      assert Unlines(lines) == line + "\n" + rest;
      assert (line + "\n" + rest)[..|line| + |rest|] == line + "\n" + body;
    }
  }

  lemma SplitLast(line: string)
    requires '\n' !in line
    ensures Split(line) == [line]
  {
    BeforeOf(line, '\n', "");
  }

  lemma SplitOne(line: string, rest: string)
    requires '\n' !in line
    ensures Split(line + "\n" + rest) == [line] + Split(rest)
  {
    hide Before;
    BeforeOf(line, '\n', rest);
    assert (line + "\n" + rest)[|line| + 1..] == rest;
  }

  // Joining undoes the splitting.
  lemma {:induction false} UnlinesSplit(body: string)
    ensures Unlines(Split(body)) == body + "\n" && NoLineEnds(Split(body))
    decreases |body|
  {
    var line := Before(body, '\n');
    if |line| == |body| {
      assert Split(body) == [line] && [line][1..] == [];
    } else {
      var rest := body[|line| + 1..];
      UnlinesSplit(rest);
      assert Split(body)[1..] == Split(rest);
      assert body == line + "\n" + rest;
    }
  }

  lemma HexTextParses(nonce: Bytes)
    requires |nonce| == NONCE_BYTES
    ensures ParseNonce(HexText(nonce)) == Some(nonce) && '\n' !in HexText(nonce)
  {
    var hex, text := LowerHex(nonce), HexText(nonce);
    HexIsAscii(nonce);
    DecodeLowerHex(nonce, false);
    assert seq(|text|, i requires 0 <= i < |text| => text[i] as int) == hex;
  }

  lemma {:induction false} HexIsAscii(bytes: Bytes)
    ensures forall i :: 0 <= i < |LowerHex(bytes)| ==> 48 <= LowerHex(bytes)[i] < 128
  {
    if bytes != [] {
      HexIsAscii(bytes[1..]);
    }
  }

  lemma NonceIsHexText(value: string)
    requires ParseNonce(value).Some?
    ensures HexText(ParseNonce(value).value) == value
  {
    var bytes: Bytes := seq(|value|, i requires 0 <= i < |value| => value[i] as int);
    StrictHexIsCanonical(bytes);
    assert LowerHex(ParseNonce(value).value) == bytes;
    assert forall i :: 0 <= i < |value| ==> bytes[i] as char == value[i];
  }

  lemma TimeParses(n: nat)
    requires n < TIME_LIMIT
    ensures ParseTime(Decimals.Text(n)) == Some(n) && '\n' !in Decimals.Text(n)
  {
    Decimals.TextIsCanonical(n);
  }

  lemma TimeIsText(value: string)
    requires ParseTime(value).Some?
    ensures Decimals.Text(ParseTime(value).value) == value
  {
    Decimals.CanonicalIsText(value);
  }

  lemma FieldOf(prefix: string, value: string)
    ensures Field(prefix + value, prefix) == Some(value)
  {
  }

  lemma FieldBack(line: string, prefix: string)
    requires Field(line, prefix).Some?
    ensures prefix + Field(line, prefix).value == line
  {
  }

  lemma LinesHaveNoLineEnds(c: Challenge)
    requires WellFormed(c)
    ensures NoLineEnds(Lines(c))
  {
    HexTextParses(c.nonce);
    TimeParses(c.issuedAt);
    TimeParses(c.expiresAt);
    assert '\n' !in c.username;
  }

  /** Parsing a formatted well-formed challenge returns its fields. */
  lemma ParseInvertsFormat(c: Challenge)
    requires WellFormed(c)
    ensures Parse(Format(c)) == Success(c)
  {
    hide HexText, ParseNonce, ParseTime, Unlines, Split, Field, ValidUsername;
    LinesHaveNoLineEnds(c);
    SplitUnlines(Lines(c));
    FieldOf("origin=", c.origin);
    FieldOf("username=", c.username);
    FieldOf("nonce=", HexText(c.nonce));
    FieldOf("issued-at=", Decimals.Text(c.issuedAt));
    FieldOf("expires-at=", Decimals.Text(c.expiresAt));
    HexTextParses(c.nonce);
    TimeParses(c.issuedAt);
    TimeParses(c.expiresAt);
  }

  /** Formatting any successfully parsed challenge returns the very same text, and what was parsed is well formed. */
  lemma FormatInvertsParse(text: string)
    requires Parse(text).Success?
    ensures WellFormed(Parse(text).value) && Format(Parse(text).value) == text
  {
    hide HexText, ParseNonce, ParseTime, Unlines, Split, Field, ValidUsername;
    var body := text[..|text| - 1];
    var lines := Split(body);
    var c := Parse(text).value;
    UnlinesSplit(body);
    assert |lines| == 7;
    FieldBack(lines[2], "origin=");
    FieldBack(lines[3], "username=");
    FieldBack(lines[4], "nonce=");
    FieldBack(lines[5], "issued-at=");
    FieldBack(lines[6], "expires-at=");
    var nonceText, issuedText, expiresText := Field(lines[4], "nonce=").value, Field(lines[5], "issued-at=").value, Field(lines[6], "expires-at=").value;
    NonceIsHexText(nonceText);
    TimeIsText(issuedText);
    TimeIsText(expiresText);
    ParsedLimits(nonceText, issuedText, expiresText);
    assert Lines(c) == lines;
    assert body + "\n" == text;
  }

  // The lines before the nonce, with whatever follows them.
  function Opening(origin: string, username: string, rest: seq<string>): seq<string> {
    ["tit-auth-v2", "purpose=web-login", "origin=" + origin, "username=" + username] + rest
  }

  ghost predicate NamesBadUser(text: string) {
    exists origin, username, rest ::
      NoLineEnds(Opening(origin, username, rest)) && text == Unlines(Opening(origin, username, rest)) && !ValidUsername(username)
  }

  /** The username is blamed exactly when the text is right up to it and names no valid one. */
  lemma UsernameIsBlamed(text: string)
    ensures Parse(text) == Failure(InvalidUsername) <==> NamesBadUser(text)
  {
    hide HexText, ParseNonce, ParseTime, Unlines, Split, Field, ValidUsername;
    if Parse(text) == Failure(InvalidUsername) {
      var body := text[..|text| - 1];
      var lines := Split(body);
      UnlinesSplit(body);
      FieldBack(lines[2], "origin=");
      FieldBack(lines[3], "username=");
      var origin, username := Field(lines[2], "origin=").value, Field(lines[3], "username=").value;
      assert lines == Opening(origin, username, lines[4..]);
      assert body + "\n" == text;
    }
    if origin, username, rest :|
      NoLineEnds(Opening(origin, username, rest)) && text == Unlines(Opening(origin, username, rest)) && !ValidUsername(username) {
      SplitUnlines(Opening(origin, username, rest));
      FieldOf("origin=", origin);
      FieldOf("username=", username);
    }
  }

  lemma ParsedLimits(nonce: string, issued: string, expires: string)
    ensures ParseNonce(nonce).Some? ==> |ParseNonce(nonce).value| == NONCE_BYTES
    ensures ParseTime(issued).Some? ==> ParseTime(issued).value < TIME_LIMIT
    ensures ParseTime(expires).Some? ==> ParseTime(expires).value < TIME_LIMIT
  {
  }

}
