/**
 The limit on delta chains in an incoming pack: a memoised walk from each
 entry to the end of its chain.
 */
module DeltaDepth {
  import opened Outcomes
  import opened Objects

  const MAX_DELTA_DEPTH: nat := 64

  datatype Header = Plain | OfsDelta(baseDistance: nat) | RefDelta(baseId: ObjectId)

  // The entries of a pack by offset, and the offsets of its objects.
  datatype Pack = Pack(headers: map<nat, Header>, offsets: map<ObjectId, nat>)

  datatype DepthError = DeltaDepthLimit | RecoveryData

  // Where a chain goes on from an entry: nowhere, to an offset, or before the pack.
  datatype Link = Ends | Continues(base: nat) | Underflows

  function BaseOf(pack: Pack, offset: nat): Link
    requires offset in pack.headers
  {
    match pack.headers[offset]
    case Plain => Ends
    case OfsDelta(distance) => if distance <= offset then Continues(offset - distance) else Underflows
    case RefDelta(id) => if id in pack.offsets then Continues(pack.offsets[id]) else Ends
  }

  predicate IsDelta(header: Header) {
    !header.Plain?
  }

  // The chain from the offset ends soundly after exactly n deltas.
  ghost predicate EndsAfter(pack: Pack, offset: nat, n: nat)
    decreases n
  {
    && offset in pack.headers
    && match BaseOf(pack, offset)
       case Ends => n == if IsDelta(pack.headers[offset]) then 1 else 0
       case Continues(base) => n > 0 && EndsAfter(pack, base, n - 1)
       case Underflows => false
  }

  // After exactly n deltas the chain leads to an offset without an entry.
  ghost predicate BreaksAfter(pack: Pack, offset: nat, n: nat)
    decreases n
  {
    if offset !in pack.headers then n == 0
    else
      match BaseOf(pack, offset)
      case Ends => false
      case Continues(base) => n > 0 && BreaksAfter(pack, base, n - 1)
      case Underflows => false
  }

  /**
   What a delta builds on: an offset delta on the entry so far before it, a
   reference delta on the entry of that object, and an object outside the pack
   ends the chain.
   */
  lemma DeltasBuildOn(pack: Pack, offset: nat, n: nat)
    requires offset in pack.headers
    ensures pack.headers[offset] == Plain ==> (EndsAfter(pack, offset, n) <==> n == 0)
    ensures forall distance: nat :: pack.headers[offset] == OfsDelta(distance) ==>
              (EndsAfter(pack, offset, n + 1) <==> distance <= offset && EndsAfter(pack, offset - distance, n))
    ensures forall id :: pack.headers[offset] == RefDelta(id) ==>
              if id in pack.offsets then EndsAfter(pack, offset, n + 1) <==> EndsAfter(pack, pack.offsets[id], n)
              else EndsAfter(pack, offset, n) <==> n == 1
  {
  }

  lemma {:induction false} DepthUnique(pack: Pack, offset: nat, m: nat, n: nat)
    requires EndsAfter(pack, offset, m)
    ensures EndsAfter(pack, offset, n) ==> m == n
    ensures !BreaksAfter(pack, offset, n)
    decreases m
  {
    if BaseOf(pack, offset).Continues? && n > 0 {
      DepthUnique(pack, BaseOf(pack, offset).base, m - 1, n - 1);
    }
  }

  lemma {:induction false} BreakUnique(pack: Pack, offset: nat, m: nat, n: nat)
    requires BreaksAfter(pack, offset, m)
    ensures BreaksAfter(pack, offset, n) ==> m == n
    decreases m
  {
    if offset in pack.headers && n > 0 {
      BreakUnique(pack, BaseOf(pack, offset).base, m - 1, n - 1);
    }
  }

  predicate LeadsTo(pack: Pack, offset: nat, base: nat) {
    offset in pack.headers && BaseOf(pack, offset) == Continues(base)
  }

  // Deltas that follow each other along a chain and lead to `next`.
  ghost predicate Chain(pack: Pack, path: seq<nat>, next: nat) {
    forall i :: 0 <= i < |path| ==> LeadsTo(pack, path[i], (path + [next])[i + 1])
  }

  // The depth of an entry is the depth of a later one plus the deltas in between.
  lemma {:induction false} ChainShifts(pack: Pack, path: seq<nat>, next: nat, n: nat)
    requires path != [] && Chain(pack, path, next)
    ensures EndsAfter(pack, path[0], n) <==> n >= |path| && EndsAfter(pack, next, n - |path|)
    ensures BreaksAfter(pack, path[0], n) <==> n >= |path| && BreaksAfter(pack, next, n - |path|)
    decreases |path|
  {
    assert LeadsTo(pack, path[0], (path + [next])[1]);
    if |path| > 1 && n > 0 {
      var rest := path[1..];
      assert Chain(pack, rest, next) by {
        forall i | 0 <= i < |rest|
          ensures LeadsTo(pack, rest[i], (rest + [next])[i + 1])
        {
          assert LeadsTo(pack, path[i + 1], (path + [next])[i + 1 + 1]);
        }
      }
      ChainShifts(pack, rest, next, n - 1);
    }
  }

  // A chain that comes back to itself neither ends nor breaks.
  lemma CyclesNeverEnd(pack: Pack, path: seq<nat>, next: nat, k: nat, n: nat)
    requires Chain(pack, path, next) && k < |path| && path[k] == next
    ensures !EndsAfter(pack, path[0], n) && !BreaksAfter(pack, path[0], n)
  {
    var loop := path[k..];
    assert Chain(pack, loop, next) by {
      forall i | 0 <= i < |loop|
        ensures LeadsTo(pack, loop[i], (loop + [next])[i + 1])
      {
        assert LeadsTo(pack, path[k + i], (path + [next])[k + i + 1]);
      }
    }
    ChainShifts(pack, path, next, n);
    if n >= |path| {
      var m := n - |path|;
      ChainShifts(pack, loop, next, m);
      if EndsAfter(pack, next, m) {
        DepthUnique(pack, next, m, m - |loop|);
      }
      if BreaksAfter(pack, next, m) {
        BreakUnique(pack, next, m, m - |loop|);
      }
    }
  }

  // Every remembered depth is the depth of its chain, and within the limit.
  ghost predicate SoundCache(pack: Pack, depths: map<nat, nat>) {
    forall o :: o in depths ==> depths[o] <= MAX_DELTA_DEPTH && EndsAfter(pack, o, depths[o])
  }

  // An acyclic chain of at most the permitted number of deltas.
  ghost predicate Shallow(pack: Pack, offset: nat) {
    exists n: nat :: n <= MAX_DELTA_DEPTH && EndsAfter(pack, offset, n)
  }

  // The one right answer for an entry.
  ghost predicate RightAnswer(pack: Pack, offset: nat, r: Result<nat, DepthError>) {
    match r
    case Success(depth) => depth <= MAX_DELTA_DEPTH && EndsAfter(pack, offset, depth)
    case Failure(RecoveryData) => exists n: nat :: n <= MAX_DELTA_DEPTH && BreaksAfter(pack, offset, n)
    case Failure(DeltaDepthLimit) =>
      forall n: nat :: n <= MAX_DELTA_DEPTH ==> !EndsAfter(pack, offset, n) && !BreaksAfter(pack, offset, n)
  }

  /** There is exactly one right answer, so a memoised walk cannot depend on what was visited before. */
  lemma AnswerUnique(pack: Pack, offset: nat, r: Result<nat, DepthError>, r': Result<nat, DepthError>)
    requires RightAnswer(pack, offset, r) && RightAnswer(pack, offset, r')
    ensures r == r'
  {
    if r.Success? {
      forall n: nat
        ensures (EndsAfter(pack, offset, n) ==> r.value == n) && !BreaksAfter(pack, offset, n)
      {
        DepthUnique(pack, offset, r.value, n);
      }
    } else if r'.Success? {
      forall n: nat
        ensures (EndsAfter(pack, offset, n) ==> r'.value == n) && !BreaksAfter(pack, offset, n)
      {
        DepthUnique(pack, offset, r'.value, n);
      }
    }
  }

  // Where the search for a known depth stopped: at a remembered entry, or at
  // the end of the chain, which is then the last entry of the path.
  ghost predicate Settled(pack: Pack, path: seq<nat>, stop: Option<nat>, base: nat) {
    match stop
    case Some(next) => Chain(pack, path, next) && EndsAfter(pack, next, base)
    case None =>
      && path != [] && Chain(pack, path[..|path| - 1], path[|path| - 1])
      && path[|path| - 1] in pack.headers && BaseOf(pack, path[|path| - 1]).Ends? && base == 0
  }

  // Going back along the path adds one for each delta.
  lemma DepthOfItem(pack: Pack, path: seq<nat>, stop: Option<nat>, base: nat, i: nat, below: nat)
    requires Settled(pack, path, stop, base) && i < |path|
    requires if i + 1 < |path| then EndsAfter(pack, path[i + 1], below) else below == base
    ensures path[i] in pack.headers
    ensures EndsAfter(pack, path[i], below + if IsDelta(pack.headers[path[i]]) then 1 else 0)
  {
    if stop.Some? {
      assert LeadsTo(pack, path[i], (path + [stop.value])[i + 1]);
    } else if i + 1 < |path| {
      var q := path[..|path| - 1];
      assert LeadsTo(pack, q[i], (q + [path[|path| - 1]])[i + 1]);
    }
  }

  lemma PrefixIsChain(pack: Pack, path: seq<nat>, stop: Option<nat>, base: nat, i: nat)
    requires Settled(pack, path, stop, base) && i < |path|
    ensures Chain(pack, path[..i], path[i])
  {
    var prefix := path[..i];
    forall k | 0 <= k < i
      ensures LeadsTo(pack, prefix[k], (prefix + [path[i]])[k + 1])
    {
      if stop.Some? {
        assert LeadsTo(pack, path[k], (path + [stop.value])[k + 1]);
      } else {
        var q := path[..|path| - 1];
        assert LeadsTo(pack, q[k], (q + [path[|path| - 1]])[k + 1]);
      }
    }
  }

  // An entry above one that is too deep is too deep itself.
  lemma TooDeep(pack: Pack, path: seq<nat>, stop: Option<nat>, base: nat, i: nat, depth: nat)
    requires Settled(pack, path, stop, base) && i < |path|
    requires EndsAfter(pack, path[i], depth) && depth > MAX_DELTA_DEPTH
    ensures RightAnswer(pack, path[0], Failure(DeltaDepthLimit))
  {
    PrefixIsChain(pack, path, stop, base, i);
    forall n: nat | n <= MAX_DELTA_DEPTH
      ensures !EndsAfter(pack, path[0], n) && !BreaksAfter(pack, path[0], n)
    {
      if i == 0 {
        DepthUnique(pack, path[0], depth, n);
      } else {
        ChainShifts(pack, path[..i], path[i], n);
        if n >= i {
          DepthUnique(pack, path[i], depth, n - i);
        }
      }
    }
  }

  // Why the search gives up at an entry it reached along a chain.
  lemma SearchFails(pack: Pack, path: seq<nat>, current: nat, offset: nat)
    requires Chain(pack, path, current) && offset == (path + [current])[0]
    ensures current in path || |path| > MAX_DELTA_DEPTH ==> RightAnswer(pack, offset, Failure(DeltaDepthLimit))
    ensures current !in pack.headers && |path| <= MAX_DELTA_DEPTH ==> RightAnswer(pack, offset, Failure(RecoveryData))
    ensures current in pack.headers && BaseOf(pack, current).Underflows? ==> RightAnswer(pack, offset, Failure(DeltaDepthLimit))
  {
    if current in path {
      var k :| 0 <= k < |path| && path[k] == current;
      forall n: nat | n <= MAX_DELTA_DEPTH
        ensures !EndsAfter(pack, offset, n) && !BreaksAfter(pack, offset, n)
      {
        CyclesNeverEnd(pack, path, current, k, n);
      }
    } else if path == [] {
      assert current !in pack.headers ==> BreaksAfter(pack, offset, 0);
    } else {
      forall n: nat
        ensures EndsAfter(pack, offset, n) <==> n >= |path| && EndsAfter(pack, current, n - |path|)
        ensures BreaksAfter(pack, offset, n) <==> n >= |path| && BreaksAfter(pack, current, n - |path|)
      {
        ChainShifts(pack, path, current, n);
      }
      assert current !in pack.headers ==> BreaksAfter(pack, offset, |path|);
    }
  }

  // The first loop: follow the chain until a depth is known.
  method FollowChain(pack: Pack, offset: nat, depths: map<nat, nat>)
    returns (r: Result<(seq<nat>, nat), DepthError>, ghost stop: Option<nat>)
    requires SoundCache(pack, depths) && offset !in depths
    ensures r.Success? ==> r.value.0 != [] && r.value.0[0] == offset && Settled(pack, r.value.0, stop, r.value.1)
    ensures r.Failure? ==> RightAnswer(pack, offset, Failure(r.error))
  {
    hide RightAnswer, EndsAfter, BreaksAfter;
    var path: seq<nat> := [];
    var current := offset;
    stop := None;
    while current !in depths
      invariant Chain(pack, path, current) && offset == (path + [current])[0]
      invariant |path| <= MAX_DELTA_DEPTH + 1
      decreases MAX_DELTA_DEPTH + 1 - |path|
    {
      SearchFails(pack, path, current, offset);
      if current in path || |path| > MAX_DELTA_DEPTH {
        return Failure(DeltaDepthLimit), None;
      }
      if current !in pack.headers {
        return Failure(RecoveryData), None;
      }
      match BaseOf(pack, current) {
        case Underflows =>
          return Failure(DeltaDepthLimit), None;
        case Ends =>
          assert (path + [current])[..|path|] == path;
          return Success((path + [current], 0)), None;
        case Continues(base) =>
          ExtendChain(pack, path, current, base);
          path, current := path + [current], base;
      }
    }
    r, stop := Success((path, depths[current])), Some(current);
  }

  lemma ExtendChain(pack: Pack, path: seq<nat>, current: nat, base: nat)
    requires Chain(pack, path, current) && LeadsTo(pack, current, base)
    ensures Chain(pack, path + [current], base)
  {
    var longer := path + [current];
    forall i | 0 <= i < |longer|
      ensures LeadsTo(pack, longer[i], (longer + [base])[i + 1])
    {
      if i < |path| {
        assert LeadsTo(pack, path[i], (path + [current])[i + 1]);
      }
    }
  }

  /**
   The depth of one entry.  Whatever sound cache it is given, the answer is the
   one right answer, and what it remembers stays sound.
   */
  method ChainDepth(pack: Pack, offset: nat, depths: map<nat, nat>)
    returns (r: Result<nat, DepthError>, depths': map<nat, nat>)
    requires SoundCache(pack, depths)
    ensures RightAnswer(pack, offset, r)
    ensures SoundCache(pack, depths')
  {
    depths' := depths;
    if offset in depths {
      return Success(depths[offset]), depths;
    }
    var found, stop := FollowChain(pack, offset, depths);
    if found.Failure? {
      return Failure(found.error), depths;
    }
    var path, base := found.value.0, found.value.1;
    var depth: nat := base;
    var i := |path|;
    while i > 0
      invariant 0 <= i <= |path|
      invariant SoundCache(pack, depths')
      invariant if i < |path| then depth <= MAX_DELTA_DEPTH && EndsAfter(pack, path[i], depth) else depth == base
      decreases i
    {
      i := i - 1;
      DepthOfItem(pack, path, stop, base, i, depth);
      if IsDelta(pack.headers[path[i]]) {
        depth := depth + 1;
      }
      if depth > MAX_DELTA_DEPTH {
        TooDeep(pack, path, stop, base, i, depth);
        return Failure(DeltaDepthLimit), depths';
      }
      depths' := depths'[path[i] := depth];
    }
    r := Success(depth);
  }

  /** All entries of a pack, in any order: accepted exactly when every chain ends within the limit. */
  method ValidateDeltaDepth(pack: Pack) returns (r: Result<(), DepthError>)
    ensures r.Success? <==> forall o :: o in pack.headers ==> Shallow(pack, o)
    ensures r.Failure? ==> exists o :: o in pack.headers && RightAnswer(pack, o, Failure(r.error))
  {
    var depths: map<nat, nat> := map[];
    var left := pack.headers.Keys;
    while left != {}
      invariant left <= pack.headers.Keys && SoundCache(pack, depths)
      invariant forall o :: o in pack.headers && o !in left ==> Shallow(pack, o)
      decreases left
    {
      var offset :| offset in left;
      var depth;
      depth, depths := ChainDepth(pack, offset, depths);
      if depth.Failure? {
        forall n: nat | n <= MAX_DELTA_DEPTH && EndsAfter(pack, offset, n)
          ensures false
        {
          AnswerUnique(pack, offset, depth, Success(n));
        }
        return Failure(depth.error);
      }
      assert Shallow(pack, offset);
      left := left - {offset};
    }
    r := Success(());
  }

}
