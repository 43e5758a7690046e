/** Paths inside Git trees: how a path resolves, and the flat view of a whole tree that diffs are made from. */
module TreePaths {
  import opened Outcomes
  import opened Objects
  import opened Collections

  const SLASH: Byte := 47

  datatype File = File(id: ObjectId, mode: Mode)

  datatype TreeError =
    | ObjectNotFound(id: ObjectId)
    | WrongObjectKind(id: ObjectId)
    | DamagedTree(id: ObjectId)
    | EntryLimit
    | PathLimit
    | UnsafeTreeEntry(name: Bytes)
    | PathNotFound
    | NotTree
    | NotBlob

  function ReadTree(repo: Repository, id: ObjectId): Result<seq<Entry>, TreeError> {
    if id !in repo then Failure(ObjectNotFound(id))
    else if repo[id] == Damaged then Failure(DamagedTree(id))
    else if !repo[id].Tree? then Failure(WrongObjectKind(id))
    else Success(repo[id].entries)
  }

  // The part before the first slash.
  function Head(path: Bytes): (h: Bytes)
    ensures |h| <= |path| && h == path[..|h|] && SLASH !in h
    ensures |h| < |path| ==> path[|h|] == SLASH
  {
    Before(path, SLASH)
  }

  predicate LastComponent(path: Bytes) {
    |Head(path)| == |path|
  }

  // The part after the first slash.
  function Tail(path: Bytes): Bytes
    requires !LastComponent(path)
  {
    path[|Head(path)| + 1..]
  }

  function FindEntry(entries: seq<Entry>, name: Bytes): Option<Entry> {
    if entries == [] then None
    else if entries[0].name == name then Some(entries[0])
    else FindEntry(entries[1..], name)
  }

  // The file, link or submodule a path names below a tree.
  function Lookup(repo: Repository, tree: ObjectId, path: Bytes): Option<File>
    decreases |path|
  {
    if ReadTree(repo, tree).Failure? then None
    else
      var entry := FindEntry(ReadTree(repo, tree).value, Head(path));
      if entry.None? then None
      else if LastComponent(path) then
        if entry.value.mode == Directory then None else Some(File(entry.value.oid, entry.value.mode))
      else if entry.value.mode == Directory then Lookup(repo, entry.value.oid, Tail(path))
      else None
  }

  // Following the components of a path: the file or link at its end, or why there is none.
  function Resolve(repo: Repository, tree: ObjectId, path: Bytes): Result<File, TreeError>
    decreases |path|
  {
    if ReadTree(repo, tree).Failure? then Failure(ReadTree(repo, tree).error)
    else
      var entry := FindEntry(ReadTree(repo, tree).value, Head(path));
      if entry.None? then Failure(PathNotFound)
      else if LastComponent(path) then
        if entry.value.mode == Directory || entry.value.mode == Submodule then Failure(NotBlob)
        else Success(File(entry.value.oid, entry.value.mode))
      else if entry.value.mode != Directory then Failure(NotTree)
      else Resolve(repo, entry.value.oid, Tail(path))
  }

  /** Follows the components of a path; only files and links are blobs. */
  method ResolveBlob(repo: Repository, root: ObjectId, path: Bytes) returns (r: Result<File, TreeError>)
    ensures r == Resolve(repo, root, path)
  {
    var tree, rest := root, path;
    while true
      invariant Resolve(repo, tree, rest) == Resolve(repo, root, path)
      decreases |rest|
    {
      var entries := ReadTree(repo, tree);
      if entries.Failure? {
        return Failure(entries.error);
      }
      var entry := FindEntry(entries.value, Head(rest));
      if entry.None? {
        return Failure(PathNotFound);
      }
      if LastComponent(rest) {
        if entry.value.mode == Directory || entry.value.mode == Submodule {
          return Failure(NotBlob);
        }
        return Success(File(entry.value.oid, entry.value.mode));
      }
      if entry.value.mode != Directory {
        return Failure(NotTree);
      }
      tree, rest := entry.value.oid, Tail(rest);
    }
  }

  predicate SafeName(name: Bytes) {
    name != [] && name != [46] && name != [46, 46] && SLASH !in name && 0 !in name
  }

  function Under(prefix: Bytes, name: Bytes): Bytes {
    if prefix == [] then name else prefix + [SLASH] + name
  }

  function JoinGitPath(prefix: Bytes, name: Bytes, maximum: nat): Result<Bytes, TreeError> {
    if !SafeName(name) then Failure(UnsafeTreeEntry(name))
    else if |Under(prefix, name)| > maximum then Failure(PathLimit)
    else Success(Under(prefix, name))
  }

  // The parts of a path between its slashes.
  function Components(path: Bytes): seq<Bytes>
    decreases |path|
  {
    if LastComponent(path) then [path] else [Head(path)] + Components(Tail(path))
  }

  // A path that stays inside the directory it is unpacked into: no part is
  // empty, the directory itself or the one above, and no zero ends it early.
  predicate SafePath(path: Bytes) {
    0 !in path && forall c :: c in Components(path) ==> c != [] && c != [46] && c != [46, 46]
  }

  lemma {:induction false} ComponentsJoin(prefix: Bytes, name: Bytes)
    requires SLASH !in name
    ensures Components(prefix + [SLASH] + name) == Components(prefix) + [name]
    decreases |prefix|
  {
    var path := prefix + [SLASH] + name;
    HeadOfJoined(name, []);
    if LastComponent(prefix) {
      HeadOfJoined(prefix, name);
      assert Components(path) == [prefix] + [name];
    } else {
      var inner := Tail(prefix) + [SLASH] + name;
      JoinSplits(prefix);
      assert path == Head(prefix) + [SLASH] + inner;
      HeadOfJoined(Head(prefix), inner);
      ComponentsJoin(Tail(prefix), name);
      assert Components(path) == [Head(prefix)] + (Components(Tail(prefix)) + [name]);
    }
  }

  /** Joining safe names gives safe paths. */
  lemma JoinedIsSafe(prefix: Bytes, name: Bytes)
    requires (prefix == [] || SafePath(prefix)) && SafeName(name)
    ensures SafePath(Under(prefix, name))
  {
    hide Head, Components;
    NameIsComponent(name);
    if prefix != [] {
      ComponentsJoin(prefix, name);
    }
  }

  lemma NameIsComponent(name: Bytes)
    requires SLASH !in name
    ensures Components(name) == [name]
  {
    HeadOfJoined(name, []);
  }

  ghost predicate DistinctNames(entries: seq<Entry>) {
    forall i, j :: 0 <= i < j < |entries| ==> entries[i].name != entries[j].name
  }

  lemma {:induction false} FindDistinct(entries: seq<Entry>, k: nat)
    requires DistinctNames(entries) && k < |entries|
    ensures FindEntry(entries, entries[k].name) == Some(entries[k])
  {
    if k > 0 {
      assert entries[0].name != entries[k].name;
      FindDistinct(entries[1..], k - 1);
    }
  }

  lemma {:induction false} FindIsMember(entries: seq<Entry>, name: Bytes)
    requires FindEntry(entries, name).Some?
    ensures FindEntry(entries, name).value in entries && FindEntry(entries, name).value.name == name
  {
    if entries[0].name != name {
      FindIsMember(entries[1..], name);
    }
  }

  lemma HeadOfJoined(name: Bytes, rest: Bytes)
    requires SLASH !in name
    ensures Head(name) == name && LastComponent(name)
    ensures Head(name + [SLASH] + rest) == name
    ensures !LastComponent(name + [SLASH] + rest) && Tail(name + [SLASH] + rest) == rest
  {
    BeforeOf(name, SLASH, rest);
  }

  // The directory a path leads to; the empty path leads to the tree itself.
  function Subtree(repo: Repository, tree: ObjectId, path: Bytes): Option<ObjectId>
    decreases |path|
  {
    if path == [] then Some(tree)
    else if ReadTree(repo, tree).Failure? then None
    else
      var entry := FindEntry(ReadTree(repo, tree).value, Head(path));
      if entry.None? || entry.value.mode != Directory then None
      else if LastComponent(path) then Some(entry.value.oid)
      else if Tail(path) == [] then None
      else Subtree(repo, entry.value.oid, Tail(path))
  }

  // In every tree below the root that can be read, names are distinct.
  ghost predicate WellFormedTrees(repo: Repository, root: ObjectId) {
    forall path :: Subtree(repo, root, path).Some? && ReadTree(repo, Subtree(repo, root, path).value).Success? ==>
      DistinctNames(repo[Subtree(repo, root, path).value].entries)
  }

  lemma JoinSplits(path: Bytes)
    requires !LastComponent(path)
    ensures path == Head(path) + [SLASH] + Tail(path)
  {
  }

  // The first component of a path below a directory.
  lemma UnderUnfolds(prefix: Bytes, rest: Bytes)
    requires prefix != []
    ensures !LastComponent(Under(prefix, rest)) && Head(Under(prefix, rest)) == Head(prefix)
    ensures Tail(Under(prefix, rest)) == if LastComponent(prefix) then rest else Tail(prefix) + [SLASH] + rest
    ensures !LastComponent(prefix) && Tail(prefix) != [] ==> Tail(Under(prefix, rest)) == Under(Tail(prefix), rest)
  {
    var name := Head(prefix);
    if LastComponent(prefix) {
      assert name == prefix;
      HeadOfJoined(prefix, rest);
    } else {
      JoinSplits(prefix);
      var inner := Tail(prefix) + [SLASH] + rest;
      assert Under(prefix, rest) == name + [SLASH] + inner;
      HeadOfJoined(name, inner);
    }
  }

  // Looking up below a directory is looking up the joined path from above.
  lemma {:induction false} LookupComposes(repo: Repository, root: ObjectId, prefix: Bytes, rest: Bytes)
    requires Subtree(repo, root, prefix).Some?
    ensures Lookup(repo, root, Under(prefix, rest)) == Lookup(repo, Subtree(repo, root, prefix).value, rest)
    decreases |prefix|
  {
    if prefix != [] {
      UnderUnfolds(prefix, rest);
      hide Head, Under, FindEntry;
      if !LastComponent(prefix) {
        LookupComposes(repo, FindEntry(ReadTree(repo, root).value, Head(prefix)).value.oid, Tail(prefix), rest);
      }
    }
  }

  lemma {:induction false} SubtreeComposes(repo: Repository, root: ObjectId, prefix: Bytes, name: Bytes)
    requires Subtree(repo, root, prefix).Some? && SafeName(name)
    ensures Subtree(repo, root, Under(prefix, name)) == Subtree(repo, Subtree(repo, root, prefix).value, name)
    decreases |prefix|
  {
    if prefix != [] {
      UnderUnfolds(prefix, name);
      hide Head, Under, FindEntry;
      if !LastComponent(prefix) {
        SubtreeComposes(repo, FindEntry(ReadTree(repo, root).value, Head(prefix)).value.oid, Tail(prefix), name);
      }
    }
  }

  /** A path resolves exactly when it names a file or a link, to what it names; a directory or a submodule is no blob. */
  lemma {:induction false} ResolveMeaning(repo: Repository, root: ObjectId, path: Bytes)
    ensures Resolve(repo, root, path).Success? <==> Lookup(repo, root, path).Some? && Lookup(repo, root, path).value.mode != Submodule
    ensures Resolve(repo, root, path).Success? ==> Lookup(repo, root, path) == Some(Resolve(repo, root, path).value)
    ensures Lookup(repo, root, path).Some? && Lookup(repo, root, path).value.mode == Submodule ==> Resolve(repo, root, path) == Failure(NotBlob)
    ensures path != [] && Subtree(repo, root, path).Some? ==> Resolve(repo, root, path) == Failure(NotBlob)
    decreases |path|
  {
    if ReadTree(repo, root).Success? && !LastComponent(path) {
      var entry := FindEntry(ReadTree(repo, root).value, Head(path));
      if entry.Some? && entry.value.mode == Directory {
        ResolveMeaning(repo, entry.value.oid, Tail(path));
      }
    }
  }

  /** When a component is not a tree, the path leads through something that names a file. */
  lemma {:induction false} NotTreeMeaning(repo: Repository, root: ObjectId, path: Bytes) returns (file: Bytes)
    requires Resolve(repo, root, path) == Failure(NotTree)
    ensures file + [SLASH] <= path && Lookup(repo, root, file).Some?
    decreases |path|
  {
    var name := Head(path);
    var entry := FindEntry(ReadTree(repo, root).value, name).value;
    JoinSplits(path);
    if entry.mode != Directory {
      HeadOfJoined(name, []);
      file := name;
    } else {
      var inner := NotTreeMeaning(repo, entry.oid, Tail(path));
      file := name + [SLASH] + inner;
      HeadOfJoined(name, inner);
    }
  }

}
