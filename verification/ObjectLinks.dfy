/**
 What an object needs: the relation is stated here from the kinds of objects and
 from paths, independently of the lists the walks push, and then carried to
 what a push and a fetch guarantee about the files of a commit.
 */
module ObjectLinks {
  import opened Outcomes
  import opened Objects
  import opened Walks
  import opened TreePaths
  import opened PushValidation
  import PackContents

  // One object needs another: a commit its tree and its parents, a tag its
  // target, a tree its entries but for submodules.
  ghost predicate Needs(o: Object, id: ObjectId) {
    match o
    case Blob(_) => false
    case Commit(tree, parents) => id == tree || id in parents
    case Tree(entries) => exists k :: 0 <= k < |entries| && entries[k].mode != Submodule && entries[k].oid == id
    case Tag(target) => id == target
    case Damaged => false
  }

  lemma {:induction false} EntriesNeeded(entries: seq<Entry>, id: ObjectId)
    ensures id in EntryLinks(entries) <==> Needs(Tree(entries), id)
  {
    if entries != [] {
      EntriesNeeded(entries[1..], id);
      if Needs(Tree(entries[1..]), id) {
        var k :| 0 <= k < |entries| - 1 && entries[1..][k].mode != Submodule && entries[1..][k].oid == id;
        assert entries[k + 1].mode != Submodule && entries[k + 1].oid == id;
      }
      if k :| 0 <= k < |entries| && entries[k].mode != Submodule && entries[k].oid == id {
        assert k > 0 ==> entries[1..][k - 1] == entries[k];
      }
    }
  }

  // What a walk pushes for an object is what the object needs.
  lemma LinksAreNeeds(repo: Repository, x: ObjectId, id: ObjectId)
    requires x in repo
    ensures id in Links(repo)[x] <==> Needs(repo[x], id)
  {
    if repo[x].Tree? {
      EntriesNeeded(repo[x].entries, id);
    }
  }

  ghost predicate NeedPath(repo: Repository, p: seq<ObjectId>) {
    |p| > 0 && forall i :: 0 <= i < |p| - 1 ==> p[i] in repo && Needs(repo[p[i]], p[i + 1])
  }

  // Following needs, however far.
  ghost predicate NeedsBelow(repo: Repository, a: ObjectId, b: ObjectId) {
    exists p :: NeedPath(repo, p) && p[0] == a && p[|p| - 1] == b
  }

  /** An object is reached exactly along needs: so the commit of a submodule is never required through its entry. */
  lemma ReachedByNeeds(repo: Repository, a: ObjectId, b: ObjectId)
    ensures Reaches(Links(repo), a, b) <==> NeedsBelow(repo, a, b)
  {
    hide Needs, LinksOf;
    forall p: seq<ObjectId>
      ensures NeedPath(repo, p) <==> IsPath(Links(repo), p)
    {
      PathsAreNeeds(repo, p);
    }
  }

  lemma PathsAreNeeds(repo: Repository, p: seq<ObjectId>)
    ensures NeedPath(repo, p) <==> IsPath(Links(repo), p)
  {
    hide Needs, LinksOf;
    forall i | 0 <= i < |p| - 1 && p[i] in repo
      ensures p[i + 1] in Links(repo)[p[i]] <==> Needs(repo[p[i]], p[i + 1])
    {
      LinksAreNeeds(repo, p[i], p[i + 1]);
    }
  }

  lemma ReachesNeed(repo: Repository, a: ObjectId, x: ObjectId, id: ObjectId)
    requires Reaches(Links(repo), a, x) && x in repo && Needs(repo[x], id)
    ensures Reaches(Links(repo), a, id)
  {
    hide Needs, LinksOf;
    LinksAreNeeds(repo, x, id);
    ReachesStep(Links(repo), a, x, id);
  }

  /** A tree reaches what every path in it names, but for submodules, and every directory on the way. */
  lemma {:induction false} PathsAreReached(repo: Repository, root: ObjectId, path: Bytes)
    ensures Lookup(repo, root, path).Some? && Lookup(repo, root, path).value.mode != Submodule ==>
              Reaches(Links(repo), root, Lookup(repo, root, path).value.id)
    ensures Subtree(repo, root, path).Some? ==> Reaches(Links(repo), root, Subtree(repo, root, path).value)
    decreases |path|
  {
    hide LinksOf, Reaches;
    ReachesSelf(Links(repo), root);
    if ReadTree(repo, root).Success? && FindEntry(ReadTree(repo, root).value, Head(path)).Some? {
      var entries := ReadTree(repo, root).value;
      var entry := FindEntry(entries, Head(path)).value;
      FindIsMember(entries, Head(path));
      if entry.mode != Submodule {
        var k :| 0 <= k < |entries| && entries[k] == entry;
        assert Needs(repo[root], entry.oid);
        ReachesNeed(repo, root, root, entry.oid);
      }
      if entry.mode == Directory && !LastComponent(path) {
        var inner := Tail(path);
        PathsAreReached(repo, entry.oid, inner);
        if Lookup(repo, entry.oid, inner).Some? && Lookup(repo, entry.oid, inner).value.mode != Submodule {
          ReachesTransitive(Links(repo), root, entry.oid, Lookup(repo, entry.oid, inner).value.id);
        }
        if Subtree(repo, entry.oid, inner).Some? {
          ReachesTransitive(Links(repo), root, entry.oid, Subtree(repo, entry.oid, inner).value);
        }
      }
    }
  }

  /** A commit reaches its ancestors, and of each its tree and every file and directory in it; a tag reaches its target. */
  lemma HistoryIsReached(repo: Repository, commit: ObjectId, ancestor: ObjectId, path: Bytes)
    requires Ancestor(repo, ancestor, commit) && ancestor in repo && repo[ancestor].Commit?
    ensures var tree := repo[ancestor].tree;
            && Reaches(Links(repo), commit, ancestor) && Reaches(Links(repo), commit, tree)
            && (Lookup(repo, tree, path).Some? && Lookup(repo, tree, path).value.mode != Submodule ==>
                  Reaches(Links(repo), commit, Lookup(repo, tree, path).value.id))
            && (Subtree(repo, tree, path).Some? ==> Reaches(Links(repo), commit, Subtree(repo, tree, path).value))
  {
    hide LinksOf, Lookup, Subtree;
    var tree := repo[ancestor].tree;
    AncestorsAreReached(repo, commit, ancestor);
    ReachesNeed(repo, commit, ancestor, tree);
    PathsAreReached(repo, tree, path);
    if Lookup(repo, tree, path).Some? && Lookup(repo, tree, path).value.mode != Submodule {
      ReachesTransitive(Links(repo), commit, tree, Lookup(repo, tree, path).value.id);
    }
    if Subtree(repo, tree, path).Some? {
      ReachesTransitive(Links(repo), commit, tree, Subtree(repo, tree, path).value);
    }
  }

  lemma AncestorsAreReached(repo: Repository, commit: ObjectId, ancestor: ObjectId)
    requires Ancestor(repo, ancestor, commit)
    ensures Reaches(Links(repo), commit, ancestor)
  {
    hide LinksOf;
    var p :| IsPath(Parents(repo), p) && p[0] == commit && p[|p| - 1] == ancestor;
    forall i | 0 <= i < |p| - 1
      ensures p[i] in repo && Needs(repo[p[i]], p[i + 1])
    {
      assert p[i] in Parents(repo) && p[i + 1] in Parents(repo)[p[i]];
    }
    PathsAreNeeds(repo, p);
  }

  /** A tag reaches what its target reaches. */
  lemma TagsAreFollowed(repo: Repository, tag: ObjectId, id: ObjectId)
    requires tag in repo && repo[tag].Tag? && Reaches(Links(repo), repo[tag].target, id)
    ensures Reaches(Links(repo), tag, id)
  {
    hide LinksOf;
    ReachesSelf(Links(repo), tag);
    ReachesNeed(repo, tag, tag, repo[tag].target);
    ReachesTransitive(Links(repo), tag, repo[tag].target, id);
  }

  // A store that holds a commit's history: every ancestor, and of each its tree with all files and directories.
  ghost predicate HoldsHistory(universe: Repository, store: set<ObjectId>, commit: ObjectId) {
    forall ancestor :: Ancestor(universe, ancestor, commit) && ancestor in universe && universe[ancestor].Commit? ==>
      && ancestor in store
      && HoldsFiles(universe, store, universe[ancestor].tree)
  }

  ghost predicate HoldsFiles(universe: Repository, store: set<ObjectId>, tree: ObjectId) {
    && tree in store
    && (forall path :: Lookup(universe, tree, path).Some? && Lookup(universe, tree, path).value.mode != Submodule ==>
          Lookup(universe, tree, path).value.id in store)
    && forall path :: Subtree(universe, tree, path).Some? ==> Subtree(universe, tree, path).value in store
  }

  lemma AllBelowHoldsHistory(universe: Repository, store: set<ObjectId>, commit: ObjectId)
    requires forall id :: Reaches(Links(universe), commit, id) ==> id in store
    ensures HoldsHistory(universe, store, commit)
  {
    hide Reaches, Lookup, Subtree, LinksOf, Ancestor;
    forall ancestor | Ancestor(universe, ancestor, commit) && ancestor in universe && universe[ancestor].Commit?
      ensures ancestor in store && HoldsFiles(universe, store, universe[ancestor].tree)
    {
      var tree := universe[ancestor].tree;
      HistoryIsReached(universe, commit, ancestor, []);
      forall path
        ensures Lookup(universe, tree, path).Some? && Lookup(universe, tree, path).value.mode != Submodule ==>
                  Lookup(universe, tree, path).value.id in store
        ensures Subtree(universe, tree, path).Some? ==> Subtree(universe, tree, path).value in store
      {
        HistoryIsReached(universe, commit, ancestor, path);
      }
    }
  }

  /**
   A push that validates a commit against the objects it can read has the
   commit's whole history with all its files, as the content behind every
   identifier defines them.
   */
  lemma ValidatedCommitsAreWhole(universe: Repository, objects: Repository, commit: ObjectId)
    requires PartOf(objects, universe) && SoundBelow(objects, commit)
    ensures HoldsHistory(universe, objects.Keys, commit)
  {
    hide Reaches;
    forall id | Reaches(Links(universe), commit, id)
      ensures id in objects
    {
      assert forall x :: Reaches(Links(objects), commit, x) ==> Find(objects, x).Success?;
      CompleteShowsAll(objects, universe, commit, id);
    }
    AllBelowHoldsHistory(universe, objects.Keys, commit);
  }

  /** A client closed under its haves that gets the selected pack holds the history and the files of every wanted commit. */
  lemma FetchedCommitsAreWhole(universe: Repository, repo: Repository, wants: seq<ObjectId>, haves: seq<ObjectId>,
                               client: set<ObjectId>, pack: set<ObjectId>, want: ObjectId)
    requires PartOf(repo, universe) && want in wants
    requires forall id :: FromRoots(Links(repo), wants, id) ==> id in repo
    requires pack == Closure(Links(repo), wants) - Closure(Links(repo), haves)
    requires PackContents.HoldsAllBelow(universe, client, haves)
    ensures HoldsHistory(universe, client + pack, want)
  {
    hide Reaches;
    PackContents.FetchCompletesClient(universe, repo, wants, haves, client, pack);
    forall id | Reaches(Links(universe), want, id)
      ensures id in client + pack
    {
      assert FromRoots(Links(universe), wants, id);
    }
    AllBelowHoldsHistory(universe, client + pack, want);
  }

  /** A push's walk accepts a root exactly when everything the root needs, however far below, is there and sound. */
  lemma SoundIffNeedsAreMet(objects: Repository, root: ObjectId)
    ensures SoundBelow(objects, root) <==> forall id :: NeedsBelow(objects, root, id) ==> Find(objects, id).Success?
  {
    hide Reaches, NeedsBelow;
    forall id
      ensures Reaches(Links(objects), root, id) <==> NeedsBelow(objects, root, id)
    {
      ReachedByNeeds(objects, root, id);
    }
  }

}
