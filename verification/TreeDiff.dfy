/** Flattening a tree into its files, and the difference of two flat trees. */
module TreeDiff {
  import opened Outcomes
  import opened Objects
  import opened TreePaths

  datatype Pending = Pending(prefix: Bytes, id: ObjectId)

  // A directory still to be visited, at the place where its path leads.
  ghost predicate Placed(repo: Repository, root: ObjectId, p: Pending) {
    Subtree(repo, root, p.prefix) == Some(p.id) && (p.prefix == [] || SafePath(p.prefix))
  }

  ghost predicate AllPlaced(repo: Repository, root: ObjectId, pending: seq<Pending>) {
    forall i :: 0 <= i < |pending| ==> Placed(repo, root, pending[i])
  }

  // What has been collected is right.
  ghost predicate Sound(repo: Repository, root: ObjectId, files: map<Bytes, File>) {
    forall path :: path in files ==> Lookup(repo, root, path) == Some(files[path]) && SafePath(path)
  }

  // A path below a pending directory.
  ghost predicate Covers(repo: Repository, p: Pending, path: Bytes) {
    exists rest :: path == Under(p.prefix, rest) && Lookup(repo, p.id, rest).Some?
  }

  // A path collected already, or below some pending directory.
  ghost predicate Accounted(repo: Repository, files: map<Bytes, File>, pending: seq<Pending>, path: Bytes) {
    path in files || exists p :: p in pending && Covers(repo, p, path)
  }

  ghost predicate Exhaustive(repo: Repository, root: ObjectId, files: map<Bytes, File>, pending: seq<Pending>) {
    forall path :: Lookup(repo, root, path).Some? ==> Accounted(repo, files, pending, path)
  }

  // One entry of a visited tree has been dealt with.
  ghost predicate Handled(files: map<Bytes, File>, pending: seq<Pending>, prefix: Bytes, entry: Entry) {
    && SafeName(entry.name)
    && (entry.mode == Directory ==> Pending(Under(prefix, entry.name), entry.oid) in pending)
    && (entry.mode != Directory ==> Under(prefix, entry.name) in files)
  }

  lemma PlaceEntry(repo: Repository, root: ObjectId, prefix: Bytes, id: ObjectId, k: nat)
    requires WellFormedTrees(repo, root) && Placed(repo, root, Pending(prefix, id))
    requires ReadTree(repo, id).Success? && k < |ReadTree(repo, id).value|
    requires SafeName(ReadTree(repo, id).value[k].name)
    ensures var entry := ReadTree(repo, id).value[k];
            var path := Under(prefix, entry.name);
            if entry.mode == Directory then Placed(repo, root, Pending(path, entry.oid))
            else Lookup(repo, root, path) == Some(File(entry.oid, entry.mode)) && SafePath(path)
  {
    var entry := ReadTree(repo, id).value[k];
    JoinedIsSafe(prefix, entry.name);
    FindDistinct(repo[id].entries, k);
    HeadOfJoined(entry.name, []);
    if entry.mode == Directory {
      SubtreeComposes(repo, root, prefix, entry.name);
    } else {
      LookupComposes(repo, root, prefix, entry.name);
    }
  }

  // A tree all of whose entries are handled covers nothing else.
  lemma VisitedIsAccounted(repo: Repository, files: map<Bytes, File>, pending: seq<Pending>, prefix: Bytes, id: ObjectId, path: Bytes)
    requires ReadTree(repo, id).Success?
    requires forall e :: e in ReadTree(repo, id).value ==> Handled(files, pending, prefix, e)
    requires Covers(repo, Pending(prefix, id), path)
    ensures Accounted(repo, files, pending, path)
  {
    var rest :| path == Under(prefix, rest) && Lookup(repo, id, rest).Some?;
    var entries := ReadTree(repo, id).value;
    FindIsMember(entries, Head(rest));
    var entry := FindEntry(entries, Head(rest)).value;
    assert Handled(files, pending, prefix, entry);
    if LastComponent(rest) {
      assert rest == entry.name;
    } else {
      JoinSplits(rest);
      var p := Pending(Under(prefix, entry.name), entry.oid);
      assert path == Under(p.prefix, Tail(rest));
      assert Covers(repo, p, path);
    }
  }

  // A tree found at a path has an entry of the given name.
  ghost predicate IsEntry(repo: Repository, root: ObjectId, prefix: Bytes, name: Bytes) {
    exists id, k :: Subtree(repo, root, prefix) == Some(id) && ReadTree(repo, id).Success?
                    && 0 <= k < |ReadTree(repo, id).value| && ReadTree(repo, id).value[k].name == name
  }

  // Why a tree cannot be flattened: something below it is unreadable or badly
  // named, a path is too long, or there really are too many entries.
  ghost predicate FlattenFails(repo: Repository, root: ObjectId, maxEntries: nat, maxPath: nat, error: TreeError) {
    match error
    case EntryLimit =>
      exists listed: set<(Bytes, Bytes)> ::
        |listed| > maxEntries && forall e :: e in listed ==> IsEntry(repo, root, e.0, e.1)
    case PathLimit => exists prefix, name :: IsEntry(repo, root, prefix, name) && |Under(prefix, name)| > maxPath
    case UnsafeTreeEntry(name) => !SafeName(name) && exists prefix :: IsEntry(repo, root, prefix, name)
    case ObjectNotFound(id) => id !in repo && exists prefix :: Subtree(repo, root, prefix) == Some(id)
    case DamagedTree(id) => id in repo && repo[id] == Damaged && exists prefix :: Subtree(repo, root, prefix) == Some(id)
    case WrongObjectKind(id) =>
      id in repo && repo[id] != Damaged && !repo[id].Tree? && exists prefix :: Subtree(repo, root, prefix) == Some(id)
    case _ => false
  }

  // The entries counted so far, each by its directory and name, and the directories they are in.
  datatype Tally = Tally(listed: set<(Bytes, Bytes)>, visited: set<Bytes>)

  ghost predicate Known(t: Tally, prefix: Bytes) {
    prefix == [] || exists e :: e in t.listed && SafeName(e.1) && prefix == Under(e.0, e.1)
  }

  // No directory is visited twice, so no entry is counted twice.
  ghost predicate Counted(repo: Repository, root: ObjectId, t: Tally) {
    forall e :: e in t.listed ==> e.0 in t.visited && IsEntry(repo, root, e.0, e.1)
  }

  ghost predicate Waiting(t: Tally, pending: seq<Pending>) {
    && (forall prefix :: prefix in t.visited ==> Known(t, prefix))
    && (forall i :: 0 <= i < |pending| ==> Known(t, pending[i].prefix) && pending[i].prefix !in t.visited)
    && (forall i, j :: 0 <= i < j < |pending| ==> pending[i].prefix != pending[j].prefix)
  }

  // No directory is visited twice, so no entry is counted twice.
  ghost predicate Tallied(repo: Repository, root: ObjectId, t: Tally, pending: seq<Pending>) {
    Counted(repo, root, t) && Waiting(t, pending)
  }

  // The last component is the longest end of a path without a slash.
  lemma NameIsLast(p: Bytes, a: Bytes, q: Bytes, b: Bytes)
    requires SLASH !in a && Under(p, a) == Under(q, b)
    ensures |a| <= |b|
  {
    var path := Under(p, a);
    var m := |path| - |a|;
    assert forall i :: m <= i < |path| ==> path[i] == a[i - m] && path[i] in a;
    if q != [] {
      assert path[|q|] == SLASH;
    }
  }

  lemma UnderDetermines(p: Bytes, a: Bytes, q: Bytes, b: Bytes)
    requires SafeName(a) && SafeName(b) && Under(p, a) == Under(q, b)
    ensures p == q && a == b
  {
    NameIsLast(p, a, q, b);
    NameIsLast(q, b, p, a);
    var path := Under(p, a);
    var m := |path| - |a|;
    assert path[m..] == a && path[m..] == b;
    if p != [] {
      assert p == path[..m - 1] == q;
    }
  }

  // An entry not counted yet makes a path not known yet.
  lemma NewEntryNewPath(t: Tally, prefix: Bytes, name: Bytes, p: Bytes)
    requires (prefix, name) !in t.listed && SafeName(name) && Known(t, p)
    ensures p != Under(prefix, name) && Known(t.(listed := t.listed + {(prefix, name)}), p)
  {
    if p != [] {
      var e :| e in t.listed && SafeName(e.1) && p == Under(e.0, e.1);
      if p == Under(prefix, name) {
        UnderDetermines(e.0, e.1, prefix, name);
        assert false;
      }
      assert e in t.(listed := t.listed + {(prefix, name)}).listed;
    }
  }

  lemma CountOneMore(repo: Repository, root: ObjectId, t: Tally, prefix: Bytes, name: Bytes)
    requires Counted(repo, root, t) && prefix in t.visited && IsEntry(repo, root, prefix, name)
    ensures Counted(repo, root, t.(listed := t.listed + {(prefix, name)}))
  {
    hide IsEntry;
    var t' := t.(listed := t.listed + {(prefix, name)});
    forall e | e in t'.listed
      ensures e.0 in t'.visited && IsEntry(repo, root, e.0, e.1)
    {
      assert e in t.listed || e == (prefix, name);
    }
  }

  lemma StillWaiting(t: Tally, pending: seq<Pending>, prefix: Bytes, name: Bytes)
    requires Waiting(t, pending) && (prefix, name) !in t.listed && SafeName(name)
    ensures var t', path := t.(listed := t.listed + {(prefix, name)}), Under(prefix, name);
            && Waiting(t', pending) && Known(t', path) && path !in t.visited
            && forall i :: 0 <= i < |pending| ==> pending[i].prefix != path
  {
    var t', path := t.(listed := t.listed + {(prefix, name)}), Under(prefix, name);
    assert Known(t', path) by {
      assert (prefix, name) in t'.listed;
    }
    hide Known, Under, SafeName;
    forall p | p in t.visited
      ensures Known(t', p) && p != path
    {
      NewEntryNewPath(t, prefix, name, p);
    }
    forall i | 0 <= i < |pending|
      ensures Known(t', pending[i].prefix) && pending[i].prefix != path
    {
      NewEntryNewPath(t, prefix, name, pending[i].prefix);
    }
  }

  // The next entry of the directory being visited is new, and so is the directory it may name.
  lemma TallyEntry(repo: Repository, root: ObjectId, t: Tally, pending: seq<Pending>, prefix: Bytes, name: Bytes, child: ObjectId)
    requires Tallied(repo, root, t, pending) && prefix in t.visited
    requires IsEntry(repo, root, prefix, name) && (prefix, name) !in t.listed && SafeName(name)
    ensures var t' := t.(listed := t.listed + {(prefix, name)});
            && Tallied(repo, root, t', pending)
            && Tallied(repo, root, t', pending + [Pending(Under(prefix, name), child)])
  {
    hide IsEntry, Known, Under, Counted, SafeName;
    CountOneMore(repo, root, t, prefix, name);
    StillWaiting(t, pending, prefix, name);
  }

  lemma EntryAt(repo: Repository, root: ObjectId, prefix: Bytes, id: ObjectId, k: nat)
    requires Placed(repo, root, Pending(prefix, id)) && ReadTree(repo, id).Success? && k < |ReadTree(repo, id).value|
    ensures IsEntry(repo, root, prefix, ReadTree(repo, id).value[k].name)
  {
  }

  lemma TooManyEntries(repo: Repository, root: ObjectId, t: Tally, pending: seq<Pending>, prefix: Bytes, name: Bytes,
                       maxEntries: nat, maxPath: nat)
    requires Tallied(repo, root, t, pending) && IsEntry(repo, root, prefix, name) && (prefix, name) !in t.listed
    requires |t.listed| >= maxEntries
    ensures FlattenFails(repo, root, maxEntries, maxPath, EntryLimit)
  {
    hide IsEntry, Known;
    var listed := t.listed + {(prefix, name)};
    assert |listed| > maxEntries && forall e :: e in listed ==> IsEntry(repo, root, e.0, e.1);
  }

  // The files with those of a list of entries; of several with one name the last stays.
  function Collected(files: map<Bytes, File>, prefix: Bytes, entries: seq<Entry>): map<Bytes, File> {
    if entries == [] then files
    else
      var front, last := Collected(files, prefix, entries[..|entries| - 1]), entries[|entries| - 1];
      if last.mode == Directory then front else front[Under(prefix, last.name) := File(last.oid, last.mode)]
  }

  /** Why names must be distinct: of two entries with one name, resolution finds the first and the flat view keeps the last. */
  lemma RepeatedNamesDiffer(repo: Repository, root: ObjectId, name: Bytes, mode: Mode, a: ObjectId, b: ObjectId)
    requires root in repo && repo[root] == Tree([Entry(name, mode, a), Entry(name, mode, b)])
    requires SafeName(name) && mode != Directory && a != b
    ensures Lookup(repo, root, name) == Some(File(a, mode))
    ensures var files := Collected(map[], [], repo[root].entries);
            name in files && files[name] == File(b, mode) && files[name] != File(a, mode)
  {
    HeadOfJoined(name, []);
    var entries := repo[root].entries;
    assert entries[..1] == [entries[0]] && entries[..1][..0] == [];
  }

  lemma BadPath(repo: Repository, root: ObjectId, prefix: Bytes, name: Bytes, maxEntries: nat, maxPath: nat)
    requires IsEntry(repo, root, prefix, name) && JoinGitPath(prefix, name, maxPath).Failure?
    ensures FlattenFails(repo, root, maxEntries, maxPath, JoinGitPath(prefix, name, maxPath).error)
  {
    hide IsEntry;
  }

  lemma CollectsNext(files: map<Bytes, File>, prefix: Bytes, entries: seq<Entry>, k: nat)
    requires k < |entries|
    ensures var front := Collected(files, prefix, entries[..k]);
            Collected(files, prefix, entries[..k + 1]) ==
            if entries[k].mode == Directory then front else front[Under(prefix, entries[k].name) := File(entries[k].oid, entries[k].mode)]
  {
    assert entries[..k + 1][..k] == entries[..k];
  }

  lemma CollectsAll(files: map<Bytes, File>, prefix: Bytes, entries: seq<Entry>)
    ensures Collected(files, prefix, entries[..0]) == files
    ensures Collected(files, prefix, entries[..|entries|]) == Collected(files, prefix, entries)
  {
    assert entries[..|entries|] == entries;
  }

  // Entries of one tree: files are collected, directories put on the list.
  method VisitTree(repo: Repository, ghost root: ObjectId, prefix: Bytes, id: ObjectId, files: map<Bytes, File>,
                   pending: seq<Pending>, counted: nat, maxEntries: nat, maxPath: nat, ghost tally: Tally)
    returns (r: Result<(map<Bytes, File>, seq<Pending>), TreeError>, counted': nat, ghost tally': Tally)
    requires WellFormedTrees(repo, root) && Placed(repo, root, Pending(prefix, id)) && ReadTree(repo, id).Success?
    requires AllPlaced(repo, root, pending) && Sound(repo, root, files)
    requires counted == |tally.listed| <= maxEntries
    requires Tallied(repo, root, tally, pending) && prefix in tally.visited && forall name :: (prefix, name) !in tally.listed
    ensures counted <= counted'
    ensures r.Failure? ==> FlattenFails(repo, root, maxEntries, maxPath, r.error)
    ensures r.Success? ==> Tallied(repo, root, tally', r.value.1) && counted' == |tally'.listed|
    ensures r.Success? ==> r.value.0 == Collected(files, prefix, ReadTree(repo, id).value)
    ensures r.Success? ==>
              && AllPlaced(repo, root, r.value.1) && Sound(repo, root, r.value.0)
              && counted' <= maxEntries
              && (counted' == counted ==> r.value.1 == pending)
              && files.Keys <= r.value.0.Keys
              && (forall p :: p in pending ==> p in r.value.1)
              && (forall e :: e in ReadTree(repo, id).value ==> Handled(r.value.0, r.value.1, prefix, e))
  {
    hide SafePath, Lookup, Subtree, FindEntry, Tallied, IsEntry, Collected, FlattenFails;
    var entries := ReadTree(repo, id).value;
    CollectsAll(files, prefix, entries);
    var collected, todo := files, pending;
    counted', tally' := counted, tally;
    for k := 0 to |entries|
      invariant AllPlaced(repo, root, todo) && Sound(repo, root, collected)
      invariant collected == Collected(files, prefix, entries[..k])
      invariant counted' == counted + k == |tally'.listed| <= maxEntries
      invariant Tallied(repo, root, tally', todo) && prefix in tally'.visited
      invariant forall e :: e in tally'.listed && e.0 == prefix ==> exists i :: 0 <= i < k && e.1 == entries[i].name
      invariant k == 0 ==> todo == pending
      invariant files.Keys <= collected.Keys && forall p :: p in pending ==> p in todo
      invariant forall i :: 0 <= i < k ==> Handled(collected, todo, prefix, entries[i])
    {
      counted' := counted' + 1;
      var entry := entries[k];
      ghost var longer := tally'.listed + {(prefix, entry.name)};
      EntryAt(repo, root, prefix, id, k);
      assert (prefix, entry.name) !in tally'.listed;
      if counted' > maxEntries {
        TooManyEntries(repo, root, tally', todo, prefix, entry.name, maxEntries, maxPath);
        return Failure(EntryLimit), counted', tally';
      }
      var path := JoinGitPath(prefix, entry.name, maxPath);
      if path.Failure? {
        BadPath(repo, root, prefix, entry.name, maxEntries, maxPath);
        return Failure(path.error), counted', tally';
      }
      PlaceEntry(repo, root, prefix, id, k);
      CollectsNext(files, prefix, entries, k);
      TallyEntry(repo, root, tally', todo, prefix, entry.name, entry.oid);
      tally' := tally'.(listed := longer);
      if entry.mode == Directory {
        todo := todo + [Pending(path.value, entry.oid)];
      } else {
        collected := collected[path.value := File(entry.oid, entry.mode)];
      }
    }
    r := Success((collected, todo));
  }

  /**
   All files of a tree by path, without recursion.  The walk ends because every
   directory it puts on its list costs an entry of the budget, also when a
   damaged repository makes trees cyclic.
   */
  method FlattenTree(repo: Repository, root: ObjectId, maxEntries: nat, maxPath: nat)
    returns (r: Result<map<Bytes, File>, TreeError>)
    requires WellFormedTrees(repo, root)
    ensures r.Success? ==> forall path :: path in r.value <==> Lookup(repo, root, path).Some?
    ensures r.Success? ==> forall path :: path in r.value ==> Lookup(repo, root, path) == Some(r.value[path])
    ensures r.Success? ==> forall path :: path in r.value ==> SafePath(path)
    ensures r.Failure? ==> FlattenFails(repo, root, maxEntries, maxPath, r.error)
  {
    hide SafePath, Lookup, Subtree, Accounted, Covers, Tallied, IsEntry;
    var files: map<Bytes, File> := map[];
    var pending := [Pending([], root)];
    var counted: nat := 0;
    ghost var tally := Tally({}, {});
    StartFlatten(repo, root);
    while pending != []
      invariant AllPlaced(repo, root, pending) && Sound(repo, root, files) && Exhaustive(repo, root, files, pending)
      invariant counted == |tally.listed| <= maxEntries && Tallied(repo, root, tally, pending)
      decreases maxEntries - counted, |pending|
    {
      var Pending(prefix, id) := pending[|pending| - 1];
      var rest := pending[..|pending| - 1];
      var entries := ReadTree(repo, id);
      if entries.Failure? {
        return Failure(entries.error);
      }
      EnterDirectory(repo, root, tally, pending);
      ghost var entered := tally.(visited := tally.visited + {prefix});
      var visited, counted', tally' := VisitTree(repo, root, prefix, id, files, rest, counted, maxEntries, maxPath, entered);
      if visited.Failure? {
        return Failure(visited.error);
      }
      KeepExhaustive(repo, root, files, pending, prefix, id, visited.value.0, visited.value.1);
      files, pending, counted, tally := visited.value.0, visited.value.1, counted', tally';
    }
    FlattenDone(repo, root, files);
    r := Success(files);
  }

  lemma StartFlatten(repo: Repository, root: ObjectId)
    ensures AllPlaced(repo, root, [Pending([], root)])
    ensures Exhaustive(repo, root, map[], [Pending([], root)])
    ensures Tallied(repo, root, Tally({}, {}), [Pending([], root)])
  {
    forall path | Lookup(repo, root, path).Some?
      ensures Accounted(repo, map[], [Pending([], root)], path)
    {
      assert path == Under([], path);
      assert Covers(repo, Pending([], root), path);
      assert Pending([], root) in [Pending([], root)];
    }
  }

  lemma EnterDirectory(repo: Repository, root: ObjectId, t: Tally, pending: seq<Pending>)
    requires pending != [] && Tallied(repo, root, t, pending)
    ensures var prefix := pending[|pending| - 1].prefix;
            && Tallied(repo, root, t.(visited := t.visited + {prefix}), pending[..|pending| - 1])
            && forall name :: (prefix, name) !in t.listed
  {
    var prefix := pending[|pending| - 1].prefix;
    var t' := t.(visited := t.visited + {prefix});
    assert forall p :: Known(t, p) ==> Known(t', p);
    assert forall name :: (prefix, name) in t.listed ==> (prefix, name).0 in t.visited;
  }

  lemma KeepExhaustive(repo: Repository, root: ObjectId, files: map<Bytes, File>, pending: seq<Pending>, prefix: Bytes, id: ObjectId,
                       files': map<Bytes, File>, pending': seq<Pending>)
    requires pending != [] && pending[|pending| - 1] == Pending(prefix, id)
    requires Exhaustive(repo, root, files, pending) && ReadTree(repo, id).Success?
    requires files.Keys <= files'.Keys && forall p :: p in pending[..|pending| - 1] ==> p in pending'
    requires forall e :: e in ReadTree(repo, id).value ==> Handled(files', pending', prefix, e)
    ensures Exhaustive(repo, root, files', pending')
  {
    forall path | Lookup(repo, root, path).Some?
      ensures Accounted(repo, files', pending', path)
    {
      assert Accounted(repo, files, pending, path);
      if path !in files {
        var p :| p in pending && Covers(repo, p, path);
        if p in pending[..|pending| - 1] {
          assert p in pending';
        } else {
          assert p == Pending(prefix, id);
          VisitedIsAccounted(repo, files', pending', prefix, id, path);
        }
      }
    }
  }

  lemma FlattenDone(repo: Repository, root: ObjectId, files: map<Bytes, File>)
    requires Sound(repo, root, files) && Exhaustive(repo, root, files, [])
    ensures forall path :: path in files <==> Lookup(repo, root, path).Some?
  {
    forall path | Lookup(repo, root, path).Some?
      ensures path in files
    {
      assert Accounted(repo, files, [], path);
    }
  }

  // A path that differs, with what it is on each side.
  datatype Change = Change(path: Bytes, before: Option<File>, after: Option<File>)

  function At(files: map<Bytes, File>, path: Bytes): Option<File> {
    if path in files then Some(files[path]) else None
  }

  function ApplyChange(files: map<Bytes, File>, change: Change): map<Bytes, File> {
    match change.after
    case Some(file) => files[change.path := file]
    case None => files - {change.path}
  }

  function ApplyDiff(files: map<Bytes, File>, diff: seq<Change>): map<Bytes, File>
    decreases |diff|
  {
    if diff == [] then files else ApplyDiff(ApplyChange(files, diff[0]), diff[1..])
  }

  predicate Mentions(diff: seq<Change>, path: Bytes) {
    exists i :: 0 <= i < |diff| && diff[i].path == path
  }

  // One entry for every path that differs, and for no other.
  ghost predicate IsDiff(before: map<Bytes, File>, after: map<Bytes, File>, diff: seq<Change>) {
    && (forall i :: 0 <= i < |diff| ==>
          diff[i].before == At(before, diff[i].path) && diff[i].after == At(after, diff[i].path))
    && (forall i, j :: 0 <= i < j < |diff| ==> diff[i].path != diff[j].path)
    && (forall path :: Mentions(diff, path) <==> At(before, path) != At(after, path))
  }

  /** Compares the union of paths; equal files are left out. */
  method DiffFiles(before: map<Bytes, File>, after: map<Bytes, File>) returns (diff: seq<Change>)
    ensures IsDiff(before, after, diff)
  {
    diff := [];
    var paths := before.Keys + after.Keys;
    while paths != {}
      invariant paths <= before.Keys + after.Keys
      invariant forall i :: 0 <= i < |diff| ==>
                  diff[i].before == At(before, diff[i].path) && diff[i].after == At(after, diff[i].path)
      invariant forall i, j :: 0 <= i < j < |diff| ==> diff[i].path != diff[j].path
      invariant forall path :: Mentions(diff, path) <==> At(before, path) != At(after, path) && path !in paths
      decreases paths
    {
      var path :| path in paths;
      if At(before, path) != At(after, path) {
        MentionsOneMore(diff, Change(path, At(before, path), At(after, path)));
        diff := diff + [Change(path, At(before, path), At(after, path))];
      }
      paths := paths - {path};
    }
  }

  lemma MentionsOneMore(diff: seq<Change>, change: Change)
    ensures forall path :: Mentions(diff + [change], path) <==> Mentions(diff, path) || path == change.path
  {
    var longer := diff + [change];
    forall path
      ensures Mentions(longer, path) <==> Mentions(diff, path) || path == change.path
    {
      if Mentions(diff, path) {
        var i :| 0 <= i < |diff| && diff[i].path == path;
        assert longer[i].path == path;
      }
      assert longer[|diff|].path == change.path;
    }
  }

  lemma {:induction false} ApplyDiffAt(files: map<Bytes, File>, diff: seq<Change>, path: Bytes)
    requires forall i, j :: 0 <= i < j < |diff| ==> diff[i].path != diff[j].path
    ensures !Mentions(diff, path) ==> At(ApplyDiff(files, diff), path) == At(files, path)
    ensures forall i :: 0 <= i < |diff| && diff[i].path == path ==> At(ApplyDiff(files, diff), path) == diff[i].after
    decreases |diff|
  {
    if diff != [] {
      var next, rest := ApplyChange(files, diff[0]), diff[1..];
      ApplyDiffAt(next, rest, path);
      assert At(next, path) == if diff[0].path == path then diff[0].after else At(files, path);
      if Mentions(rest, path) {
        var i :| 0 <= i < |rest| && rest[i].path == path;
        assert diff[i + 1].path == path;
      }
      forall i | 0 <= i < |diff| && diff[i].path == path
        ensures At(ApplyDiff(files, diff), path) == diff[i].after
      {
        if i > 0 {
          assert rest[i - 1].path == path;
        }
      }
    }
  }

  /** Applying the difference to the old files gives the new ones. */
  lemma DiffApplies(before: map<Bytes, File>, after: map<Bytes, File>, diff: seq<Change>)
    requires IsDiff(before, after, diff)
    ensures ApplyDiff(before, diff) == after
  {
    var result := ApplyDiff(before, diff);
    forall path
      ensures At(result, path) == At(after, path)
    {
      ApplyDiffAt(before, diff, path);
      if Mentions(diff, path) {
        var i :| 0 <= i < |diff| && diff[i].path == path;
      }
    }
    forall path
      ensures path in result <==> path in after
      ensures path in after ==> result[path] == after[path]
    {
      assert At(result, path) == At(after, path);
    }
  }

  /** The difference of two trees: a path is listed exactly when it resolves differently in them. */
  method DiffTrees(repo: Repository, before: ObjectId, after: ObjectId, maxEntries: nat, maxPath: nat)
    returns (r: Result<seq<Change>, TreeError>)
    requires WellFormedTrees(repo, before) && WellFormedTrees(repo, after)
    ensures r.Success? ==>
              && (forall path :: Mentions(r.value, path) <==> Lookup(repo, before, path) != Lookup(repo, after, path))
              && forall i :: 0 <= i < |r.value| ==>
                   && r.value[i].before == Lookup(repo, before, r.value[i].path)
                   && r.value[i].after == Lookup(repo, after, r.value[i].path)
    ensures r.Failure? ==>
              FlattenFails(repo, before, maxEntries, maxPath, r.error) || FlattenFails(repo, after, maxEntries, maxPath, r.error)
  {
    hide Lookup, FlattenFails;
    var was := FlattenTree(repo, before, maxEntries, maxPath);
    if was.Failure? {
      return Failure(was.error);
    }
    var now := FlattenTree(repo, after, maxEntries, maxPath);
    if now.Failure? {
      return Failure(now.error);
    }
    var diff := DiffFiles(was.value, now.value);
    forall path
      ensures At(was.value, path) == Lookup(repo, before, path) && At(now.value, path) == Lookup(repo, after, path)
    {
    }
    r := Success(diff);
  }

}
