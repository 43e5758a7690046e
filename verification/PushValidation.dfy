/**
 What a push must show about its objects before any reference moves: everything
 below each new target is present, branches point to commits, and each edit is
 classified for the policy.
 */
module PushValidation {
  import opened Outcomes
  import opened Objects
  import opened Walks
  import opened Refs
  import opened Policy

  const MAX_WALK_OBJECTS: nat := 500_000

  datatype PushError =
    | ObjectLimit
    | MissingObject(id: ObjectId)
    | MalformedObject(id: ObjectId)
    | BranchNotCommit
    | NonFastForward
    | RefPolicy
    | PolicyFailure(error: PolicyError)

  function Find(objects: Repository, id: ObjectId): Result<Object, PushError> {
    if id !in objects then Failure(MissingObject(id))
    else if objects[id] == Damaged then Failure(MalformedObject(id))
    else Success(objects[id])
  }

  // Everything reachable from the root is there and sound.
  ghost predicate SoundBelow(objects: Repository, root: ObjectId) {
    forall id :: Reaches(Links(objects), root, id) ==> Find(objects, id).Success?
  }

  lemma RootsOfOne(e: Edges, root: ObjectId, id: ObjectId)
    ensures FromRoots(e, [root], id) <==> Reaches(e, root, id)
  {
    assert root in [root];
  }

  // Why a walk below an object fails.
  ghost predicate WalkFails(objects: Repository, root: ObjectId, error: PushError) {
    match error
    case ObjectLimit =>
      || |Closure(Links(objects), [root])| > MAX_WALK_OBJECTS
      || (|Closure(Links(objects), [root])| == MAX_WALK_OBJECTS && exists id :: Reaches(Links(objects), root, id) && id !in objects)
    case MissingObject(id) => Reaches(Links(objects), root, id) && id !in objects
    case MalformedObject(id) => Reaches(Links(objects), root, id) && id in objects && objects[id] == Damaged
    case _ => false
  }

  method ValidateReachable(objects: Repository, root: ObjectId) returns (r: Result<(), PushError>)
    ensures r.Success? ==> SoundBelow(objects, root) && |Closure(Links(objects), [root])| <= MAX_WALK_OBJECTS
    ensures r.Failure? ==> WalkFails(objects, root, r.error)
  {
    hide Walking, Takes, Reaches, FromRoots;
    var seen: set<ObjectId> := {};
    var pending := [root];
    ghost var e, roots := Links(objects), [root];
    StartWalk(e, roots, {});
    while pending != []
      invariant Walking(e, roots, {}, seen, pending)
      invariant |seen| <= MAX_WALK_OBJECTS && seen <= objects.Keys
      invariant forall id :: id in seen ==> objects[id] != Damaged
      decreases objects.Keys - seen, |pending|
    {
      var id := Last(pending);
      var rest := ButLast(pending);
      TakeLast(e, roots, {}, seen, pending);
      if id in seen {
        SkipNode(e, roots, {}, seen, pending, rest, id);
        pending := rest;
        continue;
      }
      if |seen| + 1 > MAX_WALK_OBJECTS {
        LimitReached(e, roots, {}, seen, pending, id, MAX_WALK_OBJECTS);
        return Failure(ObjectLimit);
      }
      var found := Find(objects, id);
      if found.Failure? {
        RootsOfOne(e, root, id);
        return Failure(found.error);
      }
      VisitNode(e, roots, {}, seen, pending, rest, id);
      seen := seen + {id};
      pending := rest + LinksOf(found.value);
    }
    WalkComplete(e, roots, {}, seen);
    SeenAllIsSound(objects, root, seen);
    r := Success(());
  }

  lemma SeenAllIsSound(objects: Repository, root: ObjectId, seen: set<ObjectId>)
    requires seen == Closure(Links(objects), [root])
    requires forall id :: FromRoots(Links(objects), [root], id) ==> id in objects
    requires forall id :: id in seen ==> objects[id] != Damaged
    ensures SoundBelow(objects, root)
  {
    forall id | Reaches(Links(objects), root, id)
      ensures Find(objects, id).Success?
    {
      RootsOfOne(Links(objects), root, id);
    }
  }

  // Why a walk over ancestors fails.
  ghost predicate AncestryFails(objects: Repository, descendant: ObjectId, error: PushError) {
    match error
    case ObjectLimit =>
      || |Closure(Parents(objects), [descendant])| > MAX_WALK_OBJECTS
      || (|Closure(Parents(objects), [descendant])| == MAX_WALK_OBJECTS
          && exists id :: Ancestor(objects, id, descendant) && id !in Parents(objects))
    case MissingObject(id) => Ancestor(objects, id, descendant) && id !in objects
    case MalformedObject(id) => Ancestor(objects, id, descendant) && id in objects && objects[id] == Damaged
    case BranchNotCommit =>
      exists id :: Ancestor(objects, id, descendant) && id in objects && objects[id] != Damaged && !objects[id].Commit?
    case _ => false
  }

  /** Walks parents only; any non-commit on the way is an error. */
  method IsAncestor(objects: Repository, ancestor: ObjectId, descendant: ObjectId) returns (r: Result<bool, PushError>)
    ensures r.Success? ==> (r.value <==> Ancestor(objects, ancestor, descendant))
    ensures r.Failure? ==> AncestryFails(objects, descendant, r.error)
  {
    hide Walking, Takes, Reaches, FromRoots;
    var seen: set<ObjectId> := {};
    var pending := [descendant];
    ghost var e, roots := Parents(objects), [descendant];
    StartWalk(e, roots, {});
    while pending != []
      invariant Walking(e, roots, {}, seen, pending)
      invariant ancestor !in seen && |seen| <= MAX_WALK_OBJECTS
      decreases objects.Keys - seen, |pending|
    {
      var id := Last(pending);
      var rest := ButLast(pending);
      TakeLast(e, roots, {}, seen, pending);
      if id == ancestor {
        RootsOfOne(e, descendant, id);
        return Success(true);
      }
      if id in seen {
        SkipNode(e, roots, {}, seen, pending, rest, id);
        pending := rest;
        continue;
      }
      RootsOfOne(e, descendant, id);
      if |seen| + 1 > MAX_WALK_OBJECTS {
        LimitReached(e, roots, {}, seen, pending, id, MAX_WALK_OBJECTS);
        return Failure(ObjectLimit);
      }
      var found := Find(objects, id);
      if found.Failure? {
        return Failure(found.error);
      }
      if !found.value.Commit? {
        return Failure(BranchNotCommit);
      }
      VisitNode(e, roots, {}, seen, pending, rest, id);
      seen := seen + {id};
      pending := rest + found.value.parents;
    }
    WalkComplete(e, roots, {}, seen);
    RootsOfOne(e, descendant, ancestor);
    r := Success(false);
  }

  ghost function Classify(objects: Repository, edit: RefEdit): RefChange {
    if edit.after.None? then Delete
    else if edit.before.None? then Create
    else if IsTag(edit.name) then TagUpdate
    else if Ancestor(objects, edit.before.value, edit.after.value) then FastForward
    else Force
  }

  // What validation establishes about one edit.
  ghost predicate SoundEdit(objects: Repository, edit: RefEdit, change: RefChange) {
    && change == Classify(objects, edit)
    && (edit.after.Some? ==>
          && SoundBelow(objects, edit.after.value)
          && edit.after.value in objects
          && (IsBranch(edit.name) ==> objects[edit.after.value].Commit?))
  }

  // Why validation refuses an edit.
  ghost predicate EditFails(objects: Repository, edit: RefEdit, error: PushError) {
    && edit.after.Some?
    && var id := edit.after.value;
       || WalkFails(objects, id, error)
       || (error == BranchNotCommit && IsBranch(edit.name) && id in objects && !objects[id].Commit?)
       || (edit.before.Some? && !IsTag(edit.name) && AncestryFails(objects, id, error))
  }

  /** Success proves every edit sound and classifies it; a refusal has its cause in one of the edits. */
  method ValidateProposedObjects(objects: Repository, edits: seq<RefEdit>) returns (r: Result<seq<RefChange>, PushError>)
    ensures r.Success? ==>
              && |r.value| == |edits|
              && forall i :: 0 <= i < |edits| ==> SoundEdit(objects, edits[i], r.value[i])
    ensures r.Failure? ==> exists i :: 0 <= i < |edits| && EditFails(objects, edits[i], r.error)
  {
    hide SoundBelow, Closure, Ancestor;
    var changes := [];
    for k := 0 to |edits|
      invariant |changes| == k
      invariant forall i :: 0 <= i < k ==> SoundEdit(objects, edits[i], changes[i])
    {
      var edit := edits[k];
      if edit.after.None? {
        changes := changes + [Delete];
        continue;
      }
      var found := Find(objects, edit.after.value);
      ReachesSelf(Links(objects), edit.after.value);
      if found.Failure? {
        return Failure(found.error);
      }
      if IsBranch(edit.name) && !found.value.Commit? {
        return Failure(BranchNotCommit);
      }
      var walked := ValidateReachable(objects, edit.after.value);
      if walked.Failure? {
        return Failure(walked.error);
      }
      var change;
      if edit.before.None? {
        change := Create;
      } else if IsTag(edit.name) {
        change := TagUpdate;
      } else {
        var forward := IsAncestor(objects, edit.before.value, edit.after.value);
        if forward.Failure? {
          return Failure(forward.error);
        }
        change := if forward.value then FastForward else Force;
      }
      changes := changes + [change];
    }
    r := Success(changes);
  }

  // The policy in force: none for a server without accounts, else the actor's
  // access and the stored default branch.
  datatype Context = Open | Managed(access: Access, defaultBranch: RefName)

  predicate Permitted(context: Context, name: RefName, change: RefChange) {
    match context
    case Open => change != Force
    case Managed(access, defaultBranch) => AuthorizeRefChange(access, defaultBranch, name, change).Success?
  }

  // A forced update has its own error, unless the role is not even known.
  predicate Denies(context: Context, name: RefName, change: RefChange, error: PushError) {
    && !Permitted(context, name, change)
    && if context.Managed? && AuthorizeRefChange(context.access, context.defaultBranch, name, change) == Failure(InvalidRole)
       then error == PolicyFailure(InvalidRole)
       else error == if change == Force then NonFastForward else RefPolicy
  }

  // The first edit that is not permitted decides the error.
  ghost predicate FirstDenial(context: Context, edits: seq<RefEdit>, changes: seq<RefChange>, error: PushError)
    requires |edits| == |changes|
  {
    exists k :: DeniedAt(context, edits, changes, k, error)
  }

  predicate DeniedAt(context: Context, edits: seq<RefEdit>, changes: seq<RefChange>, k: int, error: PushError)
    requires |edits| == |changes|
  {
    && 0 <= k < |edits|
    && (forall i :: 0 <= i < k ==> Permitted(context, edits[i].name, changes[i]))
    && Denies(context, edits[k].name, changes[k], error)
  }

  lemma FirstForce(edits: seq<RefEdit>, changes: seq<RefChange>)
    requires |edits| == |changes| && Force in changes
    ensures FirstDenial(Open, edits, changes, NonFastForward)
  {
    if changes[0] == Force {
      assert DeniedAt(Open, edits, changes, 0, NonFastForward);
    } else {
      FirstForce(edits[1..], changes[1..]);
      var k :| DeniedAt(Open, edits[1..], changes[1..], k, NonFastForward);
      forall i | 0 <= i < k + 1
        ensures Permitted(Open, edits[i].name, changes[i])
      {
        assert i > 0 ==> Permitted(Open, edits[1..][i - 1].name, changes[1..][i - 1]);
      }
      assert DeniedAt(Open, edits, changes, k + 1, NonFastForward);
    }
  }

  method ValidatePolicy(context: Context, edits: seq<RefEdit>, changes: seq<RefChange>) returns (r: Result<(), PushError>)
    requires |edits| == |changes|
    ensures r.Success? <==> forall i :: 0 <= i < |edits| ==> Permitted(context, edits[i].name, changes[i])
    ensures r.Failure? ==> FirstDenial(context, edits, changes, r.error)
  {
    if context.Open? {
      if Force in changes {
        FirstForce(edits, changes);
        return Failure(NonFastForward);
      }
      return Success(());
    }
    for k := 0 to |edits|
      invariant forall i :: 0 <= i < k ==> Permitted(context, edits[i].name, changes[i])
    {
      var decision := AuthorizeRefChange(context.access, context.defaultBranch, edits[k].name, changes[k]);
      if decision.Failure? {
        assert !Permitted(context, edits[k].name, changes[k]);
        assert DeniedAt(context, edits, changes, k, if decision.error != Denied then PolicyFailure(decision.error)
                        else if changes[k] == Force then NonFastForward else RefPolicy);
        if decision.error == Denied {
          return Failure(if changes[k] == Force then NonFastForward else RefPolicy);
        }
        return Failure(PolicyFailure(decision.error));
      }
    }
    r := Success(());
  }

  /**
   No policy lets a branch move to a commit that does not descend from its
   current one, and a managed default branch cannot be deleted.
   */
  lemma PermittedBranchesDescend(objects: Repository, context: Context, edit: RefEdit, change: RefChange)
    requires SoundEdit(objects, edit, change) && Permitted(context, edit.name, change)
    requires IsBranch(edit.name)
    ensures edit.before.Some? && edit.after.Some? ==> Ancestor(objects, edit.before.value, edit.after.value)
    ensures context.Managed? && edit.name == context.defaultBranch ==> edit.after.Some?
  {
    assert edit.name[5] == 'h';
    assert "refs/tags/"[5] == 't';
  }

}
