/** Facts about sets and sequences that several modules use. */
module Collections {

  lemma SubsetSize<T>(a: set<T>, b: set<T>)
    requires a <= b
    ensures |a| <= |b|
  {
    assert b == a + (b - a);
    assert |b| == |a| + |b - a|;
  }

  lemma Reassociate<T>(a: seq<T>, b: seq<T>, c: seq<T>)
    ensures a + (b + c) == a + b + c
  {
  }

  // The part of a sequence before the first occurrence of an element.
  function Before<T(==)>(s: seq<T>, stop: T): (part: seq<T>)
    ensures |part| <= |s| && part == s[..|part|] && stop !in part
    ensures |part| < |s| ==> s[|part|] == stop
  {
    if s == [] || s[0] == stop then [] else [s[0]] + Before(s[1..], stop)
  }

  lemma {:induction false} BeforeOf<T>(part: seq<T>, stop: T, rest: seq<T>)
    requires stop !in part
    ensures Before(part, stop) == part && Before(part + [stop] + rest, stop) == part
  {
    if part != [] {
      BeforeOf(part[1..], stop, rest);
      assert (part + [stop] + rest)[1..] == part[1..] + [stop] + rest;
      assert [part[0]] + part[1..] == part;
    }
  }

}
