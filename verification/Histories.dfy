/** Commit history and the comparison of two branches that decides how they may merge. */
module Histories {
  import opened Outcomes
  import opened Objects
  import opened Walks

  datatype ReadError =
    | ObjectNotFound(id: ObjectId)
    | WrongObjectKind(id: ObjectId)
    | DamagedCommit(id: ObjectId)
    | HistoryLimit
    | ComparisonLimit

  function ReadCommit(repo: Repository, id: ObjectId): Result<Object, ReadError> {
    if id !in repo then Failure(ObjectNotFound(id))
    else if repo[id] == Damaged then Failure(DamagedCommit(id))
    else if !repo[id].Commit? then Failure(WrongObjectKind(id))
    else Success(repo[id])
  }

  ghost predicate Distinct<T(!new)>(s: seq<T>) {
    forall i, j :: 0 <= i < j < |s| ==> s[i] != s[j]
  }

  // Lists the start first, then each of its ancestors once and nothing else.
  ghost predicate ListsAncestors(repo: Repository, start: ObjectId, history: seq<ObjectId>) {
    && history != [] && history[0] == start
    && Distinct(history)
    && forall id :: id in history <==> Ancestor(repo, id, start)
  }

  lemma AncestorsAreRooted(repo: Repository, start: ObjectId, id: ObjectId)
    ensures FromRoots(Parents(repo), [start], id) <==> Ancestor(repo, id, start)
  {
    assert start in [start];
  }

  // Why a history cannot be listed: some ancestor cannot be read, or there are too many.
  ghost predicate HistoryFails(repo: Repository, start: ObjectId, maximum: nat, error: ReadError) {
    if error == HistoryLimit then
      || |Closure(Parents(repo), [start])| > maximum
      || (|Closure(Parents(repo), [start])| == maximum && exists id :: Ancestor(repo, id, start) && id !in Parents(repo))
    else
      && (error.ObjectNotFound? || error.WrongObjectKind? || error.DamagedCommit?)
      && Ancestor(repo, error.id, start)
      && if error.ObjectNotFound? then error.id !in repo
         else error.id in repo && if error.DamagedCommit? then repo[error.id] == Damaged else repo[error.id] != Damaged && !repo[error.id].Commit?
  }

  /** Breadth-first history, cut off or refused beyond the maximum. */
  method History(repo: Repository, start: ObjectId, maximum: nat, truncate: bool) returns (r: Result<seq<ObjectId>, ReadError>)
    ensures r.Success? ==> |r.value| <= maximum && Distinct(r.value)
    ensures r.Success? && maximum > 0 ==> r.value != [] && r.value[0] == start
    ensures r.Success? && (!truncate || |r.value| < maximum) ==> ListsAncestors(repo, start, r.value)
    ensures r.Success? ==> forall id :: id in r.value ==> Ancestor(repo, id, start) && ReadCommit(repo, id).Success?
    ensures r.Failure? ==> HistoryFails(repo, start, maximum, r.error)
    ensures r == Failure(HistoryLimit) ==> !truncate
  {
    hide Walking, Takes, Reaches, FromRoots, Ancestor;
    var pending := [start];
    var seen: set<ObjectId> := {};
    var history: seq<ObjectId> := [];
    ghost var e, roots := Parents(repo), [start];
    StartWalk(e, roots, {});
    while pending != []
      invariant Walking(e, roots, {}, seen, pending)
      invariant seen <= e.Keys && |seen| == |history| <= maximum
      invariant Distinct(history) && forall id :: id in history <==> id in seen
      invariant forall id :: id in history ==> Ancestor(repo, id, start)
      invariant if history == [] then pending == [start] else history[0] == start
      decreases repo.Keys - seen, |pending|
    {
      var id := pending[0];
      var rest := pending[1..];
      TakeFirst(e, roots, {}, seen, pending);
      AncestorsAreRooted(repo, start, id);
      if id in seen {
        SkipNode(e, roots, {}, seen, pending, rest, id);
        pending := rest;
        continue;
      }
      if |history| >= maximum {
        if truncate {
          return Success(history);
        }
        LimitReached(e, roots, {}, seen, pending, id, maximum);
        return Failure(HistoryLimit);
      }
      var commit := ReadCommit(repo, id);
      if commit.Failure? {
        return Failure(commit.error);
      }
      VisitNode(e, roots, {}, seen, pending, rest, id);
      seen := seen + {id};
      pending := rest + commit.value.parents;
      history := history + [id];
    }
    WalkComplete(e, roots, {}, seen);
    HistoryComplete(repo, start, seen, history);
    r := Success(history);
  }

  lemma HistoryComplete(repo: Repository, start: ObjectId, seen: set<ObjectId>, history: seq<ObjectId>)
    requires seen == Closure(Parents(repo), [start])
    requires forall id :: FromRoots(Parents(repo), [start], id) ==> id in Parents(repo)
    requires forall id :: id in history <==> id in seen
    ensures history != []
    ensures forall id :: id in history <==> Ancestor(repo, id, start)
  {
    forall id
      ensures id in history <==> Ancestor(repo, id, start)
    {
      AncestorsAreRooted(repo, start, id);
    }
    ReachesSelf(Parents(repo), start);
    assert start in history;
  }

  lemma HistorySize(repo: Repository, start: ObjectId, history: seq<ObjectId>)
    requires ListsAncestors(repo, start, history) && forall id :: id in history ==> id in Parents(repo)
    ensures |history| == |Closure(Parents(repo), [start])|
  {
    DistinctSize(history);
    forall id
      ensures id in Closure(Parents(repo), [start]) <==> id in history
    {
      AncestorsAreRooted(repo, start, id);
    }
    assert Closure(Parents(repo), [start]) == Members(history);
  }

  function Members(s: seq<ObjectId>): set<ObjectId> {
    set x | x in s
  }

  lemma {:induction false} DistinctSize(s: seq<ObjectId>)
    requires Distinct(s)
    ensures |Members(s)| == |s|
  {
    if s == [] {
      assert Members(s) == {};
    } else {
      var front, last := s[..|s| - 1], s[|s| - 1];
      DistinctSize(front);
      assert s == front + [last];
      assert last !in front;
      assert Members(s) == Members(front) + {last};
    }
  }

  datatype Mergeability = Unrelated | AlreadyMerged | FastForward | Clean | Conflicting

  datatype Comparison = Comparison(commits: seq<ObjectId>, mergeability: Mergeability)

  ghost predicate Related(repo: Repository, base: ObjectId, head: ObjectId) {
    exists id :: Ancestor(repo, id, base) && Ancestor(repo, id, head)
  }

  // Why two branches cannot be compared.
  ghost predicate ComparisonFails(repo: Repository, base: ObjectId, head: ObjectId, maximum: nat, error: ReadError) {
    || HistoryFails(repo, base, maximum, error)
    || HistoryFails(repo, head, maximum, error)
    || (error == ComparisonLimit && |Closure(Parents(repo), [base])| + |Closure(Parents(repo), [head])| > maximum)
  }

  /**
   Compares a head branch with its base.  The merge base and the outcome of the
   tree merge come from the Git library: a merge base is found exactly for
   related commits.
   */
  method Compare(repo: Repository, base: ObjectId, head: ObjectId, maximum: nat,
                 mergeBase: Option<ObjectId>, conflicts: bool) returns (r: Result<Comparison, ReadError>)
    requires mergeBase.Some? <==> Related(repo, base, head)
    ensures r.Success? ==>
              var Comparison(commits, mergeability) := r.value;
              && Distinct(commits)
              && (forall id :: id in commits <==> Ancestor(repo, id, head) && !Ancestor(repo, id, base))
              && (mergeability == AlreadyMerged <==> Ancestor(repo, head, base))
              && (mergeability == FastForward <==> Ancestor(repo, base, head) && !Ancestor(repo, head, base))
              && (mergeability == Unrelated <==> !Related(repo, base, head))
              && (mergeability == Conflicting ==> conflicts) && (mergeability == Clean ==> !conflicts)
    ensures r.Success? ==> |Closure(Parents(repo), [base])| + |Closure(Parents(repo), [head])| <= maximum
    ensures r.Failure? ==> ComparisonFails(repo, base, head, maximum, r.error)
  {
    var baseHistory := History(repo, base, maximum, false);
    if baseHistory.Failure? {
      return Failure(baseHistory.error);
    }
    var headHistory := History(repo, head, maximum, false);
    if headHistory.Failure? {
      return Failure(headHistory.error);
    }
    HistorySize(repo, base, baseHistory.value);
    HistorySize(repo, head, headHistory.value);
    if |baseHistory.value| + |headHistory.value| > maximum {
      return Failure(ComparisonLimit);
    }
    var baseIds := set id | id in baseHistory.value;
    var commits: seq<ObjectId> := [];
    for k := 0 to |headHistory.value|
      invariant Distinct(commits)
      invariant forall id :: id in commits <==> id in headHistory.value[..k] && id !in baseIds
    {
      if headHistory.value[k] !in baseIds {
        commits := commits + [headHistory.value[k]];
      }
    }
    RelatedWhenAncestor(repo, base, head);
    var mergeability :=
      if mergeBase.None? then Unrelated
      else if head in baseIds then AlreadyMerged
      else if base in headHistory.value then FastForward
      else if conflicts then Conflicting
      else Clean;
    r := Success(Comparison(commits, mergeability));
  }

  lemma RelatedWhenAncestor(repo: Repository, base: ObjectId, head: ObjectId)
    ensures Ancestor(repo, head, base) || Ancestor(repo, base, head) ==> Related(repo, base, head)
  {
    ReachesSelf(Parents(repo), head);
    ReachesSelf(Parents(repo), base);
  }

  // The target a merge request moves its base branch to, if the requested
  // method fits the comparison; `prepared` is the merge commit built from both.
  function MergeTarget(fastForward: bool, mergeability: Mergeability, head: ObjectId, prepared: ObjectId): Option<ObjectId> {
    if fastForward && mergeability == FastForward then Some(head)
    else if !fastForward && mergeability == Clean then Some(prepared)
    else None
  }

}
