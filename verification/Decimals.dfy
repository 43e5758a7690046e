/** Canonical decimal text: what the formatter prints and the only text the parsers accept for a number. */
module Decimals {

  predicate IsDigit(ch: char) {
    '0' <= ch <= '9'
  }

  predicate AllDigits(s: string) {
    forall i :: 0 <= i < |s| ==> IsDigit(s[i])
  }

  // No sign, no blank, no leading zero except for zero itself.
  predicate Canonical(s: string) {
    s != [] && AllDigits(s) && (|s| > 1 ==> s[0] != '0')
  }

  function DigitChar(d: nat): char
    requires d < 10
  {
    '0' + d as char
  }

  function Text(n: nat): string {
    if n < 10 then [DigitChar(n)] else Text(n / 10) + [DigitChar(n % 10)]
  }

  function Value(s: string): nat
    requires AllDigits(s)
  {
    if s == [] then 0
    else Value(s[..|s| - 1]) * 10 + (s[|s| - 1] as nat - '0' as nat)
  }

  lemma {:induction false} TextIsCanonical(n: nat)
    ensures Canonical(Text(n)) && Value(Text(n)) == n
    ensures n > 0 ==> Text(n)[0] != '0'
  {
    if n >= 10 {
      TextIsCanonical(n / 10);
      assert Text(n)[..|Text(n)| - 1] == Text(n / 10);
    }
  }

  lemma {:induction false} CanonicalIsText(s: string)
    requires Canonical(s)
    ensures Text(Value(s)) == s
    ensures |s| > 1 ==> Value(s) >= 10
  {
    var last := s[|s| - 1] as nat - '0' as nat;
    if |s| > 1 {
      var rest := s[..|s| - 1];
      assert AllDigits(rest) && rest[0] == s[0];
      CanonicalIsText(rest);
      if |rest| == 1 {
        assert Value(rest) == Value(rest[..0]) * 10 + (rest[0] as nat - '0' as nat);
      }
      assert Value(s) / 10 == Value(rest) && Value(s) % 10 == last;
      assert s == rest + [s[|s| - 1]];
    } else {
      assert s == [s[0]];
      assert Value(s[..0]) == 0;
    }
  }

  lemma TextInjective(m: nat, n: nat)
    requires Text(m) == Text(n)
    ensures m == n
  {
    TextIsCanonical(m);
    TextIsCanonical(n);
  }

}
