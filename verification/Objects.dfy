/**
 Git objects as a content-addressed graph: what an object links to, and which
 objects can be reached from which.  An object's identifier fixes its content,
 so a repository is a finite map from identifiers to objects and two
 repositories agree wherever both hold an identifier.
 */
module Objects {

  type Byte = b: int | 0 <= b < 256
  type Bytes = seq<Byte>

  type ObjectId = nat

  datatype Mode = Directory | Regular | Executable | Symlink | Submodule

  datatype Entry = Entry(name: Bytes, mode: Mode, oid: ObjectId)

  // Damaged stands for content that does not parse as its kind.
  datatype Object =
    | Blob(data: Bytes)
    | Commit(tree: ObjectId, parents: seq<ObjectId>)
    | Tree(entries: seq<Entry>)
    | Tag(target: ObjectId)
    | Damaged

  type Repository = map<ObjectId, Object>

  // The outgoing edges of every node of a graph; a node outside the map has none.
  type Edges = map<ObjectId, seq<ObjectId>>

  // The objects a tree's entries name; a submodule's commit lives elsewhere.
  function EntryLinks(entries: seq<Entry>): seq<ObjectId> {
    if entries == [] then []
    else if entries[0].mode == Submodule then EntryLinks(entries[1..])
    else [entries[0].oid] + EntryLinks(entries[1..])
  }

  function LinksOf(o: Object): seq<ObjectId> {
    match o
    case Blob(_) => []
    case Commit(tree, parents) => [tree] + parents
    case Tree(entries) => EntryLinks(entries)
    case Tag(target) => [target]
    case Damaged => []
  }

  function Links(repo: Repository): Edges {
    map id | id in repo :: LinksOf(repo[id])
  }

  // The commit graph: parents only, and only out of commits.
  function Parents(repo: Repository): Edges {
    map id | id in repo && repo[id].Commit? :: repo[id].parents
  }

  ghost predicate IsPath(e: Edges, p: seq<ObjectId>) {
    && |p| > 0
    && forall i :: 0 <= i < |p| - 1 ==> p[i] in e && p[i + 1] in e[p[i]]
  }

  ghost predicate Reaches(e: Edges, a: ObjectId, b: ObjectId) {
    exists p :: IsPath(e, p) && p[0] == a && p[|p| - 1] == b
  }

  ghost predicate FromRoots(e: Edges, roots: seq<ObjectId>, b: ObjectId) {
    exists a :: a in roots && Reaches(e, a, b)
  }

  // `descendant` reaches `ancestor` by following parents; a commit is its own ancestor.
  ghost predicate Ancestor(repo: Repository, ancestor: ObjectId, descendant: ObjectId) {
    Reaches(Parents(repo), descendant, ancestor)
  }

  lemma ReachesSelf(e: Edges, a: ObjectId)
    ensures Reaches(e, a, a)
  {
    assert IsPath(e, [a]);
  }

  lemma ReachesStep(e: Edges, a: ObjectId, b: ObjectId, c: ObjectId)
    requires Reaches(e, a, b) && b in e && c in e[b]
    ensures Reaches(e, a, c)
  {
    var p :| IsPath(e, p) && p[0] == a && p[|p| - 1] == b;
    assert IsPath(e, p + [c]);
  }

  lemma ReachesTransitive(e: Edges, a: ObjectId, b: ObjectId, c: ObjectId)
    requires Reaches(e, a, b) && Reaches(e, b, c)
    ensures Reaches(e, a, c)
  {
    var p :| IsPath(e, p) && p[0] == a && p[|p| - 1] == b;
    var q :| IsPath(e, q) && q[0] == b && q[|q| - 1] == c;
    var r := p + q[1..];
    assert IsPath(e, r) by {
      forall i | 0 <= i < |r| - 1
        ensures r[i] in e && r[i + 1] in e[r[i]]
      {
        if i >= |p| - 1 {
          var j := i - (|p| - 1);
          assert r[i] == q[j] && r[i + 1] == q[j + 1];
        }
      }
    }
  }

  // A set that holds a and is closed under the edges holds everything a reaches.
  lemma {:induction false} ClosedHoldsReach(e: Edges, s: iset<ObjectId>, p: seq<ObjectId>)
    requires IsPath(e, p) && p[0] in s
    requires forall x, y :: x in s && x in e && y in e[x] ==> y in s
    ensures p[|p| - 1] in s
  {
    if |p| > 1 {
      assert p[1] in e[p[0]];
      assert IsPath(e, p[1..]) by {
        forall i | 0 <= i < |p[1..]| - 1
          ensures p[1..][i] in e && p[1..][i + 1] in e[p[1..][i]]
        {
          assert p[i + 1] in e && p[i + 1 + 1] in e[p[i + 1]];
        }
      }
      ClosedHoldsReach(e, s, p[1..]);
    }
  }

  lemma ClosedUnderEdges(e: Edges, s: iset<ObjectId>, a: ObjectId, b: ObjectId)
    requires a in s && Reaches(e, a, b)
    requires forall x, y :: x in s && x in e && y in e[x] ==> y in s
    ensures b in s
  {
    var p :| IsPath(e, p) && p[0] == a && p[|p| - 1] == b;
    ClosedHoldsReach(e, s, p);
  }

  // The first edge of a path that is not trivial.
  lemma ReachesFirst(e: Edges, a: ObjectId, b: ObjectId)
    requires Reaches(e, a, b)
    ensures a == b || (a in e && exists c :: c in e[a] && Reaches(e, c, b))
  {
    var p :| IsPath(e, p) && p[0] == a && p[|p| - 1] == b;
    if |p| > 1 {
      var q := p[1..];
      assert IsPath(e, q) by {
        forall i | 0 <= i < |q| - 1
          ensures q[i] in e && q[i + 1] in e[q[i]]
        {
          assert p[i + 1] in e && p[i + 1 + 1] in e[p[i + 1]];
        }
      }
      assert p[1] in e[a] && q[0] == p[1] && q[|q| - 1] == b;
      assert Reaches(e, p[1], b);
    }
  }

  // More edges only add reachable objects.
  lemma ReachesMonotone(small: Edges, large: Edges, a: ObjectId, b: ObjectId)
    requires forall x :: x in small ==> x in large && small[x] == large[x]
    requires Reaches(small, a, b)
    ensures Reaches(large, a, b)
  {
    var p :| IsPath(small, p) && p[0] == a && p[|p| - 1] == b;
    assert IsPath(large, p);
  }

  // `repo` holds part of what `universe` describes, and says the same about it.
  ghost predicate PartOf(repo: Repository, universe: Repository) {
    forall id :: id in repo ==> id in universe && repo[id] == universe[id]
  }

  // When everything reachable inside a part is present there, the part already
  // shows everything reachable in the whole.
  lemma CompleteShowsAll(repo: Repository, universe: Repository, a: ObjectId, b: ObjectId)
    requires PartOf(repo, universe)
    requires forall x :: Reaches(Links(repo), a, x) ==> x in repo
    requires Reaches(Links(universe), a, b)
    ensures Reaches(Links(repo), a, b)
  {
    var s := iset x | Reaches(Links(repo), a, x);
    ReachesSelf(Links(repo), a);
    forall x, y | x in s && x in Links(universe) && y in Links(universe)[x]
      ensures y in s
    {
      ReachesStep(Links(repo), a, x, y);
    }
    ClosedUnderEdges(Links(universe), s, a, b);
  }

}
