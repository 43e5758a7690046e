/**
 Which objects a fetch sends: the reachability walk of the repository and the
 choice of pack contents built on it.
 */
module PackContents {
  import opened Outcomes
  import opened Objects
  import opened Walks

  const MAX_OBJECTS_PER_PACK: nat := 100_000

  datatype WalkError =
    | ObjectLimit
    | MissingObject(id: ObjectId)
    | DamagedObject(id: ObjectId)
    | UnadvertisedWant

  // Why a walk may fail: together with the success case, exactly when it does.
  ghost predicate Justified(repo: Repository, roots: seq<ObjectId>, permitted: set<ObjectId>, error: WalkError) {
    match error
    case MissingObject(id) =>
      FromRoots(Links(repo), roots, id) && id !in repo && id !in permitted
    case DamagedObject(id) =>
      FromRoots(Links(repo), roots, id) && id in repo && repo[id] == Damaged
    case ObjectLimit =>
      || |Closure(Links(repo), roots)| > MAX_OBJECTS_PER_PACK
      || (|Closure(Links(repo), roots)| == MAX_OBJECTS_PER_PACK
          && exists id :: id !in repo && FromRoots(Links(repo), roots, id))
    case UnadvertisedWant => false
  }

  // The stack takes the last root first, and a root that is absent is counted
  // for a moment: with everything the roots after it reach, one too many.
  ghost predicate CountedOver(repo: Repository, roots: seq<ObjectId>) {
    || |Closure(Links(repo), roots)| > MAX_OBJECTS_PER_PACK
    || exists i :: 0 <= i < |roots| && roots[i] !in repo && |Closure(Links(repo), roots[i + 1..])| >= MAX_OBJECTS_PER_PACK
  }

  // Objects that are there link only to objects that are there.
  ghost predicate LinksHold(repo: Repository, roots: seq<ObjectId>) {
    forall x, y :: x in Closure(Links(repo), roots) && y in Links(repo)[x] ==> y in repo
  }

  // Nothing below the roots is damaged, and what is absent may be.
  ghost predicate SoundRoots(repo: Repository, roots: seq<ObjectId>, permitted: set<ObjectId>) {
    forall id :: FromRoots(Links(repo), roots, id) ==> if id in repo then repo[id] != Damaged else id in permitted
  }

  // Where the stack stands: the first i roots below, and above them what the
  // walk from the other roots still has to visit.  At a root means that the last
  // of those roots has just been reached, with everything after it done.
  ghost predicate Stacked(repo: Repository, roots: seq<ObjectId>, permitted: set<ObjectId>, seen: set<ObjectId>,
                          i: nat, above: seq<ObjectId>, atRoot: bool) {
    && i <= |roots| && Walking(Links(repo), roots[i..], permitted, seen, above)
    && (if atRoot then i < |roots| && above == [roots[i]] && Walking(Links(repo), roots[i + 1..], permitted, seen, [])
        else forall y :: y in above ==> LinkedFrom(repo, seen, y))
    && forall j :: (if atRoot then i + 1 else i) <= j < |roots| && roots[j] !in repo ==>
         |Closure(Links(repo), roots[j + 1..])| < MAX_OBJECTS_PER_PACK
  }

  ghost predicate LinkedFrom(repo: Repository, seen: set<ObjectId>, y: ObjectId) {
    exists x :: x in seen && x in repo && y in Links(repo)[x]
  }

  lemma StackStarts(repo: Repository, roots: seq<ObjectId>, permitted: set<ObjectId>)
    ensures Stacked(repo, roots, permitted, {}, |roots|, [], false)
  {
    StartWalk(Links(repo), [], permitted);
    assert roots[|roots|..] == [];
  }

  lemma StackNextRoot(repo: Repository, roots: seq<ObjectId>, permitted: set<ObjectId>, seen: set<ObjectId>, i: nat)
    requires Stacked(repo, roots, permitted, seen, i, [], false) && i > 0
    ensures Stacked(repo, roots, permitted, seen, i - 1, [roots[i - 1]], true)
  {
    hide Walking;
    NextRoot(Links(repo), roots[i..], permitted, seen, roots[i - 1]);
    assert roots[i - 1..] == [roots[i - 1]] + roots[i..];
  }

  // The whole stack is a walk from all roots.
  lemma StackWalks(repo: Repository, roots: seq<ObjectId>, permitted: set<ObjectId>, seen: set<ObjectId>,
                   i: nat, above: seq<ObjectId>, atRoot: bool)
    requires Stacked(repo, roots, permitted, seen, i, above, atRoot)
    ensures Walking(Links(repo), roots, permitted, seen, roots[..i] + above)
  {
    hide Walking;
    WholeWalk(Links(repo), roots[..i], roots[i..], permitted, seen, above);
    assert roots[..i] + roots[i..] == roots;
  }

  // Dropping what has been seen, or is absent and was not too many.
  lemma StackSkips(repo: Repository, roots: seq<ObjectId>, permitted: set<ObjectId>, seen: set<ObjectId>,
                   i: nat, above: seq<ObjectId>, atRoot: bool)
    requires Stacked(repo, roots, permitted, seen, i, above, atRoot) && above != [] && seen <= repo.Keys
    requires Last(above) in seen || (Last(above) !in repo && Last(above) in permitted && |seen| < MAX_OBJECTS_PER_PACK)
    ensures Stacked(repo, roots, permitted, seen, i, ButLast(above), false)
  {
    hide Walking, LinkedFrom, Closure;
    SkipLast(Links(repo), roots[i..], permitted, seen, above);
    if atRoot {
      WalkComplete(Links(repo), roots[i + 1..], permitted, seen);
    }
    assert forall y :: y in ButLast(above) ==> y in above;
  }

  lemma StackVisits(repo: Repository, roots: seq<ObjectId>, permitted: set<ObjectId>, seen: set<ObjectId>,
                    i: nat, above: seq<ObjectId>, atRoot: bool)
    requires Stacked(repo, roots, permitted, seen, i, above, atRoot) && above != [] && Last(above) in repo
    ensures Stacked(repo, roots, permitted, seen + {Last(above)}, i, ButLast(above) + LinksOf(repo[Last(above)]), false)
  {
    hide Walking, Closure;
    var id := Last(above);
    VisitLast(Links(repo), roots[i..], permitted, seen, above);
    forall y | y in ButLast(above) + LinksOf(repo[id])
      ensures LinkedFrom(repo, seen + {id}, y)
    {
      if y in LinksOf(repo[id]) {
        assert id in seen + {id} && y in Links(repo)[id];
      } else {
        assert y in above && LinkedFrom(repo, seen, y);
      }
    }
  }

  // One object more than the limit: too many, or an absent root.
  lemma StackOverflows(repo: Repository, roots: seq<ObjectId>, permitted: set<ObjectId>, seen: set<ObjectId>,
                       i: nat, above: seq<ObjectId>, atRoot: bool)
    requires Stacked(repo, roots, permitted, seen, i, above, atRoot) && above != [] && seen <= repo.Keys
    requires Last(above) !in seen && |seen| >= MAX_OBJECTS_PER_PACK
    ensures Justified(repo, roots, permitted, ObjectLimit)
    ensures LinksHold(repo, roots) ==> CountedOver(repo, roots)
  {
    hide Walking, FromRoots, Closure;
    var id := Last(above);
    StackWalks(repo, roots, permitted, seen, i, above, atRoot);
    var pending := roots[..i] + above;
    assert Last(pending) == id;
    TakeLast(Links(repo), roots, permitted, seen, pending);
    LimitReached(Links(repo), roots, permitted, seen, pending, id, MAX_OBJECTS_PER_PACK);
    if id !in repo {
      if atRoot {
        WalkComplete(Links(repo), roots[i + 1..], permitted, seen);
      } else {
        assert LinkedFrom(repo, seen, id);
        SeenIsReached(Links(repo), roots, permitted, seen, pending);
      }
    }
  }

  lemma SeenIsReached(e: Edges, roots: seq<ObjectId>, absent: set<ObjectId>, seen: set<ObjectId>, pending: seq<ObjectId>)
    requires Walking(e, roots, absent, seen, pending)
    ensures seen <= Closure(e, roots)
  {
  }

  lemma StackEnds(repo: Repository, roots: seq<ObjectId>, permitted: set<ObjectId>, seen: set<ObjectId>)
    requires Stacked(repo, roots, permitted, seen, 0, [], false) && |seen| <= MAX_OBJECTS_PER_PACK
    ensures seen == Closure(Links(repo), roots) && !CountedOver(repo, roots)
    ensures forall id :: FromRoots(Links(repo), roots, id) && id !in repo ==> id in permitted
  {
    assert roots[0..] == roots;
    WalkComplete(Links(repo), roots, permitted, seen);
  }

  /**
   The walk with its stack of pending objects and its set of seen ones.  A
   permitted root that is absent is taken out of the seen set again, and the
   walk still ends: only held objects can be pushed more than once.  Where links
   hold and nothing is damaged, it is refused exactly when it counts too many.
   */
  method WalkReachable(repo: Repository, roots: seq<ObjectId>, permitted: set<ObjectId>)
    returns (r: Result<set<ObjectId>, WalkError>)
    ensures r.Success? ==>
              && r.value == Closure(Links(repo), roots)
              && |r.value| <= MAX_OBJECTS_PER_PACK
              && (forall id :: id in r.value ==> repo[id] != Damaged)
              && forall id :: FromRoots(Links(repo), roots, id) && id !in repo ==> id in permitted
    ensures r.Failure? ==> Justified(repo, roots, permitted, r.error)
    ensures LinksHold(repo, roots) && SoundRoots(repo, roots, permitted) ==> (r == Failure(ObjectLimit) <==> CountedOver(repo, roots))
  {
    hide Walking, Takes, Reaches, FromRoots, Stacked, LinksHold, CountedOver;
    var seen: set<ObjectId> := {};
    var pending := roots;
    ghost var i: nat, above: seq<ObjectId>, atRoot := |roots|, [], false;
    StackStarts(repo, roots, permitted);
    while pending != []
      invariant i <= |roots| && pending == roots[..i] + above
      invariant Stacked(repo, roots, permitted, seen, i, above, atRoot) && (above == [] ==> !atRoot)
      invariant |seen| <= MAX_OBJECTS_PER_PACK && seen <= repo.Keys
      invariant forall id :: id in seen ==> repo[id] != Damaged
      decreases repo.Keys - seen, |pending|
    {
      if above == [] {
        StackNextRoot(repo, roots, permitted, seen, i);
        assert roots[..i] == roots[..i - 1] + [roots[i - 1]];
        i, above, atRoot := i - 1, [roots[i - 1]], true;
      }
      var id := Last(pending);
      var rest := ButLast(pending);
      assert id == Last(above) && rest == roots[..i] + ButLast(above);
      ghost var held := seen;
      ReachedByStack(repo, roots, permitted, seen, i, above, atRoot);
      if id in seen {
        StackSkips(repo, roots, permitted, seen, i, above, atRoot);
        above, atRoot := ButLast(above), false;
        pending := rest;
        continue;
      }
      seen := seen + {id};
      if |seen| > MAX_OBJECTS_PER_PACK {
        StackOverflows(repo, roots, permitted, held, i, above, atRoot);
        return Failure(ObjectLimit);
      }
      if id !in repo {
        if id !in permitted {
          return Failure(MissingObject(id));
        }
        seen := seen - {id};
        assert seen == held;
        StackSkips(repo, roots, permitted, held, i, above, atRoot);
        above, atRoot := ButLast(above), false;
        pending := rest;
        continue;
      }
      if repo[id] == Damaged {
        return Failure(DamagedObject(id));
      }
      StackVisits(repo, roots, permitted, held, i, above, atRoot);
      above, atRoot := ButLast(above) + LinksOf(repo[id]), false;
      pending := rest + LinksOf(repo[id]);
    }
    StackEnds(repo, roots, permitted, seen);
    r := Success(seen);
  }

  lemma ReachedByStack(repo: Repository, roots: seq<ObjectId>, permitted: set<ObjectId>, seen: set<ObjectId>,
                       i: nat, above: seq<ObjectId>, atRoot: bool)
    requires Stacked(repo, roots, permitted, seen, i, above, atRoot) && above != []
    ensures FromRoots(Links(repo), roots, Last(above))
  {
    StackWalks(repo, roots, permitted, seen, i, above, atRoot);
    assert Last(above) in roots[..i] + above;
  }

  /** A walk over exactly the permitted number of objects is refused when its first root, which the stack takes last, is absent. */
  lemma AbsentFirstRootIsOneTooMany(repo: Repository, roots: seq<ObjectId>)
    requires roots != [] && roots[0] !in repo && |Closure(Links(repo), roots)| == MAX_OBJECTS_PER_PACK
    ensures CountedOver(repo, roots)
  {
    assert roots == [roots[0]] + roots[1..];
    AbsentRootAddsNothing(Links(repo), roots[0], roots[1..]);
    assert roots[0 + 1..] == roots[1..];
  }

  /** Without absent roots the limit counts exactly what is reachable. */
  lemma PresentRootsAreCountedRight(repo: Repository, roots: seq<ObjectId>)
    requires forall root :: root in roots ==> root in repo
    ensures CountedOver(repo, roots) <==> |Closure(Links(repo), roots)| > MAX_OBJECTS_PER_PACK
  {
  }

  /**
   The objects of the pack that answers a fetch.  Missing haves are skipped,
   a missing object below a want is an error.
   */
  method SelectPack(repo: Repository, advertised: set<ObjectId>, wants: seq<ObjectId>, haves: seq<ObjectId>)
    returns (r: Result<set<ObjectId>, WalkError>)
    ensures r.Success? ==>
              && r.value == Closure(Links(repo), wants) - Closure(Links(repo), haves)
              && forall id :: FromRoots(Links(repo), wants, id) ==> id in repo
    ensures r == Failure(UnadvertisedWant) <==> wants == [] || exists want :: want in wants && want !in advertised
    ensures r.Failure? && r.error != UnadvertisedWant ==>
              Justified(repo, haves, (set have | have in haves), r.error) || Justified(repo, wants, {}, r.error)
  {
    if wants == [] || exists want :: want in wants && want !in advertised {
      return Failure(UnadvertisedWant);
    }
    var excluded := WalkReachable(repo, haves, set have | have in haves);
    if excluded.Failure? {
      return Failure(excluded.error);
    }
    var objects := WalkReachable(repo, wants, {});
    if objects.Failure? {
      return Failure(objects.error);
    }
    r := Success(set id | id in objects.value && id !in excluded.value);
  }

  // A store that holds everything below each of the given objects.
  ghost predicate HoldsAllBelow(universe: Repository, store: set<ObjectId>, roots: seq<ObjectId>) {
    forall id :: FromRoots(Links(universe), roots, id) ==> id in store
  }

  /**
   A client that has everything below its haves ends up with everything below
   its wants, and receives nothing that a have already reaches.
   */
  lemma FetchCompletesClient(universe: Repository, repo: Repository, wants: seq<ObjectId>, haves: seq<ObjectId>,
                             client: set<ObjectId>, pack: set<ObjectId>)
    requires PartOf(repo, universe)
    requires forall id :: FromRoots(Links(repo), wants, id) ==> id in repo
    requires pack == Closure(Links(repo), wants) - Closure(Links(repo), haves)
    requires HoldsAllBelow(universe, client, haves)
    ensures HoldsAllBelow(universe, client + pack, wants)
    ensures forall id, have :: id in pack && have in haves ==> !Reaches(Links(repo), have, id)
  {
    forall id | FromRoots(Links(universe), wants, id)
      ensures id in client + pack
    {
      var want :| want in wants && Reaches(Links(universe), want, id);
      CompleteShowsAll(repo, universe, want, id);
      assert id in Closure(Links(repo), wants);
      if id in Closure(Links(repo), haves) {
        var have :| have in haves && Reaches(Links(repo), have, id);
        ReachesMonotone(Links(repo), Links(universe), have, id);
      }
    }
  }

}
