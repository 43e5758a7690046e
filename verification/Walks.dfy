/**
 The worklist walks all graph traversals of the server share: a set of seen
 nodes, a list of pending ones, and the facts every step of such a walk keeps.
 Nodes the walk may legitimately find absent are given as `absent`.
 */
module Walks {
  import opened Objects
  import opened Collections

  // The nodes of the graph among those the roots reach.
  ghost function Closure(e: Edges, roots: seq<ObjectId>): set<ObjectId> {
    set id | id in e && FromRoots(e, roots, id)
  }

  // Seen, still to be visited, or an absent node the walk tolerates.
  ghost predicate Accounted(e: Edges, absent: set<ObjectId>, seen: set<ObjectId>, pending: seq<ObjectId>, id: ObjectId) {
    id in seen || id in pending || (id !in e && id in absent)
  }

  // Only reachable nodes have been seen or scheduled, and nothing that the
  // roots or a seen node link to has been forgotten.
  ghost predicate Walking(e: Edges, roots: seq<ObjectId>, absent: set<ObjectId>, seen: set<ObjectId>, pending: seq<ObjectId>) {
    && seen <= Closure(e, roots)
    && (forall id :: id in pending ==> FromRoots(e, roots, id))
    && (forall id :: id in roots ==> Accounted(e, absent, seen, pending, id))
    && (forall x, y :: x in seen && y in e[x] ==> Accounted(e, absent, seen, pending, y))
  }

  lemma StartWalk(e: Edges, roots: seq<ObjectId>, absent: set<ObjectId>)
    ensures Walking(e, roots, absent, {}, roots)
  {
    forall id | id in roots
      ensures FromRoots(e, roots, id)
    {
      ReachesSelf(e, id);
    }
  }

  // `pending` is `rest` with one occurrence of `id` at either end.
  ghost predicate Takes(pending: seq<ObjectId>, rest: seq<ObjectId>, id: ObjectId) {
    pending == rest + [id] || pending == [id] + rest
  }

  // Dropping a node that is seen already, or absent and tolerated.
  lemma SkipNode(e: Edges, roots: seq<ObjectId>, absent: set<ObjectId>, seen: set<ObjectId>,
                 pending: seq<ObjectId>, rest: seq<ObjectId>, id: ObjectId)
    requires Walking(e, roots, absent, seen, pending) && Takes(pending, rest, id)
    requires id in seen || (id !in e && id in absent)
    ensures Walking(e, roots, absent, seen, rest)
  {
    assert forall x :: x in pending <==> x in rest || x == id;
    assert forall x :: Accounted(e, absent, seen, pending, x) ==> Accounted(e, absent, seen, rest, x);
  }

  lemma VisitNode(e: Edges, roots: seq<ObjectId>, absent: set<ObjectId>, seen: set<ObjectId>,
                  pending: seq<ObjectId>, rest: seq<ObjectId>, id: ObjectId)
    requires Walking(e, roots, absent, seen, pending) && Takes(pending, rest, id)
    requires id in e
    ensures Walking(e, roots, absent, seen + {id}, rest + e[id])
  {
    var next := rest + e[id];
    assert forall x :: x in pending <==> x in rest || x == id;
    assert forall x :: Accounted(e, absent, seen, pending, x) ==> Accounted(e, absent, seen + {id}, next, x);
    assert id in pending;
    forall y | y in next
      ensures FromRoots(e, roots, y)
    {
      if y !in rest {
        var a :| a in roots && Reaches(e, a, id);
        ReachesStep(e, a, id, y);
      }
    }
    forall x, y | x in seen + {id} && y in e[x]
      ensures Accounted(e, absent, seen + {id}, next, y)
    {
      if x in seen {
        assert Accounted(e, absent, seen, pending, y);
      }
    }
  }

  function Last(pending: seq<ObjectId>): ObjectId
    requires pending != []
  {
    pending[|pending| - 1]
  }

  function ButLast(pending: seq<ObjectId>): seq<ObjectId>
    requires pending != []
  {
    pending[..|pending| - 1]
  }

  // The node at either end of a walk's list is reachable.
  lemma TakeLast(e: Edges, roots: seq<ObjectId>, absent: set<ObjectId>, seen: set<ObjectId>, pending: seq<ObjectId>)
    requires Walking(e, roots, absent, seen, pending) && pending != []
    ensures Takes(pending, ButLast(pending), Last(pending))
    ensures FromRoots(e, roots, Last(pending))
  {
    assert pending == ButLast(pending) + [Last(pending)];
    assert Last(pending) in pending;
  }

  lemma SkipLast(e: Edges, roots: seq<ObjectId>, absent: set<ObjectId>, seen: set<ObjectId>, pending: seq<ObjectId>)
    requires Walking(e, roots, absent, seen, pending) && pending != []
    requires Last(pending) in seen || (Last(pending) !in e && Last(pending) in absent)
    ensures Walking(e, roots, absent, seen, ButLast(pending))
  {
    hide Walking;
    TakeLast(e, roots, absent, seen, pending);
    SkipNode(e, roots, absent, seen, pending, ButLast(pending), Last(pending));
  }

  lemma VisitLast(e: Edges, roots: seq<ObjectId>, absent: set<ObjectId>, seen: set<ObjectId>, pending: seq<ObjectId>)
    requires Walking(e, roots, absent, seen, pending) && pending != [] && Last(pending) in e
    ensures Walking(e, roots, absent, seen + {Last(pending)}, ButLast(pending) + e[Last(pending)])
  {
    hide Walking;
    TakeLast(e, roots, absent, seen, pending);
    VisitNode(e, roots, absent, seen, pending, ButLast(pending), Last(pending));
  }

  lemma TakeFirst(e: Edges, roots: seq<ObjectId>, absent: set<ObjectId>, seen: set<ObjectId>, pending: seq<ObjectId>)
    requires Walking(e, roots, absent, seen, pending) && pending != []
    ensures Takes(pending, pending[1..], pending[0])
    ensures FromRoots(e, roots, pending[0])
  {
    assert pending == [pending[0]] + pending[1..];
    assert pending[0] in pending;
  }

  // A walk with nothing pending has seen exactly the closure of its roots.
  lemma WalkComplete(e: Edges, roots: seq<ObjectId>, absent: set<ObjectId>, seen: set<ObjectId>)
    requires Walking(e, roots, absent, seen, [])
    ensures seen == Closure(e, roots)
    ensures forall id :: FromRoots(e, roots, id) && id !in e ==> id in absent
  {
    var s := iset id | Accounted(e, absent, seen, [], id);
    forall id | FromRoots(e, roots, id)
      ensures id in s
    {
      var a :| a in roots && Reaches(e, a, id);
      ClosedUnderEdges(e, s, a, id);
    }
    assert forall id :: id in s && id in e ==> id in seen;
  }

  // A finished walk goes on with one more root.
  lemma NextRoot(e: Edges, roots: seq<ObjectId>, absent: set<ObjectId>, seen: set<ObjectId>, root: ObjectId)
    requires Walking(e, roots, absent, seen, [])
    ensures Walking(e, [root] + roots, absent, seen, [root])
  {
    ReachesSelf(e, root);
    assert forall id :: FromRoots(e, roots, id) ==> FromRoots(e, [root] + roots, id);
    assert root in [root] + roots;
    assert forall id :: Accounted(e, absent, seen, [], id) ==> Accounted(e, absent, seen, [root], id);
  }

  // A walk from the last roots, with the others still to come, is a walk from all of them.
  lemma WholeWalk(e: Edges, first: seq<ObjectId>, last: seq<ObjectId>, absent: set<ObjectId>, seen: set<ObjectId>, pending: seq<ObjectId>)
    requires Walking(e, last, absent, seen, pending)
    ensures Walking(e, first + last, absent, seen, first + pending)
  {
    forall id | FromRoots(e, last, id)
      ensures FromRoots(e, first + last, id)
    {
      var a :| a in last && Reaches(e, a, id);
      assert a in first + last;
    }
    forall id | id in first
      ensures FromRoots(e, first + last, id)
    {
      ReachesSelf(e, id);
      assert id in first + last;
    }
    assert forall id :: Accounted(e, absent, seen, pending, id) ==> Accounted(e, absent, seen, first + pending, id);
  }

  // A root that is not there reaches nothing.
  lemma AbsentRootAddsNothing(e: Edges, root: ObjectId, roots: seq<ObjectId>)
    requires root !in e
    ensures Closure(e, [root] + roots) == Closure(e, roots)
  {
    forall id | id in e && FromRoots(e, [root] + roots, id)
      ensures FromRoots(e, roots, id)
    {
      var a :| a in [root] + roots && Reaches(e, a, id);
      ReachesFirst(e, a, id);
      assert a in roots;
    }
    forall id | FromRoots(e, roots, id)
      ensures FromRoots(e, [root] + roots, id)
    {
      var a :| a in roots && Reaches(e, a, id);
      assert a in [root] + roots;
    }
  }

  // A walk that has seen `limit` nodes and holds one more candidate cannot stay
  // within the limit, unless that candidate is absent.
  lemma LimitReached(e: Edges, roots: seq<ObjectId>, absent: set<ObjectId>, seen: set<ObjectId>, pending: seq<ObjectId>,
                     id: ObjectId, limit: nat)
    requires Walking(e, roots, absent, seen, pending)
    requires id !in seen && FromRoots(e, roots, id)
    requires |seen| >= limit
    ensures |Closure(e, roots)| > limit || (|Closure(e, roots)| == limit && id !in e)
  {
    var closure := Closure(e, roots);
    SubsetSize(seen, closure);
    if id in e {
      SubsetSize(seen + {id}, closure);
    }
  }

}
