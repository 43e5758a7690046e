/** Archiving a tree: which members are written, in which order, and how they read back. */
module ArchiveTree {
  import opened Outcomes
  import opened Objects
  import opened TreePaths
  import opened TarStream
  import opened TreeDiff
  import Ustar
  import Codec

  const FILE_KIND: Byte := 48
  const DIRECTORY_KIND: Byte := 53

  datatype ArchiveError = Unreadable(error: TreeError) | DepthLimit | NotABlob(id: ObjectId) | Unwritable(reason: WriteError)

  datatype Limits = Limits(entries: nat, path: nat, depth: nat)

  // How many directories lie on the way to a directory; the source carries this number along.
  function Depth(prefix: Bytes): nat {
    if prefix == [] then 0
    else if LastComponent(prefix) then 1
    else 1 + Depth(Tail(prefix))
  }

  function DirectoryPath(d: Bytes): Bytes {
    d + [SLASH]
  }

  function FileMode(mode: Mode): nat {
    if mode == Executable then 0x1ED else 0x1A4 // 0755 and 0644
  }

  /** Magic, version and kinds are those of the format, and the modes read as octal numbers are the customary ones. */
  lemma KindsAndModes()
    ensures Ustar.MAGIC == Codec.Ascii("ustar") + [0] && Ustar.VERSION == Codec.Ascii("00")
    ensures [FILE_KIND] == Codec.Ascii("0") && [DIRECTORY_KIND] == Codec.Ascii("5")
    ensures forall d, modified :: Ustar.Octal(DirectoryItem(d, modified).mode, 7) == Codec.Ascii("0000755")
    ensures Ustar.Octal(FileMode(Executable), 7) == Codec.Ascii("0000755")
    ensures forall mode :: mode != Executable ==> Ustar.Octal(FileMode(mode), 7) == Codec.Ascii("0000644")
  {
    assert Ustar.Octal(0x1ED, 7) == Codec.Ascii("0000755");
    assert Ustar.Octal(0x1A4, 7) == Codec.Ascii("0000644");
  }

  // A member for a directory; a submodule is an empty one.
  function DirectoryItem(d: Bytes, modified: nat): Item {
    Item(DirectoryPath(d), 0x1ED, modified, DIRECTORY_KIND, [])
  }

  ghost predicate NamesDirectory(repo: Repository, root: ObjectId, d: Bytes) {
    || (d != [] && Subtree(repo, root, d).Some?)
    || (Lookup(repo, root, d).Some? && Lookup(repo, root, d).value.mode == Submodule)
  }

  ghost predicate NamesFile(repo: Repository, root: ObjectId, path: Bytes) {
    Lookup(repo, root, path).Some? && Lookup(repo, root, path).value.mode != Submodule
  }

  // The member stands for something in the tree, with its content.
  ghost predicate Right(repo: Repository, root: ObjectId, modified: nat, item: Item) {
    || (exists d :: item == DirectoryItem(d, modified) && NamesDirectory(repo, root, d) && SafePath(d))
    || (&& NamesFile(repo, root, item.path) && SafePath(item.path)
        && var file := Lookup(repo, root, item.path).value;
           && file.id in repo && repo[file.id].Blob?
           && item == Item(item.path, FileMode(file.mode), modified, FILE_KIND, repo[file.id].data))
  }

  predicate Lists(items: seq<Item>, path: Bytes) {
    exists i :: 0 <= i < |items| && items[i].path == path
  }

  // `path` lies strictly inside directory `d`.
  predicate Inside(d: Bytes, path: Bytes) {
    DirectoryPath(d) < path
  }

  // The directories on the way to a path are listed.
  ghost predicate ParentsListed(items: seq<Item>, path: Bytes) {
    forall d :: d != [] && Inside(d, path) ==> Lists(items, DirectoryPath(d))
  }

  // Every directory comes before its contents.
  ghost predicate ParentsFirst(items: seq<Item>) {
    forall i :: 0 <= i < |items| ==> ParentsListed(items[..i], items[i].path)
  }

  // Below a directory, at any depth.
  ghost predicate Below(prefix: Bytes, path: Bytes) {
    exists rest :: rest != [] && path == Under(prefix, rest)
  }

  lemma ListsMore(items: seq<Item>, item: Item, path: Bytes)
    ensures Lists(items + [item], path) <==> Lists(items, path) || path == item.path
  {
    var longer := items + [item];
    if Lists(items, path) {
      var i :| 0 <= i < |items| && items[i].path == path;
      assert longer[i].path == path;
    }
    assert longer[|items|].path == item.path;
  }

  lemma ParentsFirstGrows(items: seq<Item>, item: Item)
    requires ParentsFirst(items) && ParentsListed(items, item.path)
    ensures ParentsFirst(items + [item])
  {
    var longer := items + [item];
    forall i | 0 <= i < |longer|
      ensures ParentsListed(longer[..i], longer[i].path)
    {
      if i < |items| {
        assert longer[..i] == items[..i];
        assert ParentsListed(items[..i], items[i].path);
      } else {
        assert longer[..i] == items;
      }
    }
  }

  // The parents of an entry are its directory and that directory's parents.
  lemma ParentsOfEntry(items: seq<Item>, prefix: Bytes, name: Bytes)
    requires SafeName(name)
    requires prefix != [] ==> ParentsListed(items, DirectoryPath(prefix)) && Lists(items, DirectoryPath(prefix))
    ensures ParentsListed(items, Under(prefix, name))
    ensures ParentsListed(items, DirectoryPath(Under(prefix, name)))
  {
    var path := Under(prefix, name);
    forall d | d != [] && (Inside(d, path) || Inside(d, DirectoryPath(path)))
      ensures Lists(items, DirectoryPath(d))
    {
      ParentIsOnTheWay(d, prefix, name);
    }
  }

  lemma ParentIsOnTheWay(d: Bytes, prefix: Bytes, name: Bytes)
    requires SafeName(name) && d != []
    requires Inside(d, Under(prefix, name)) || Inside(d, DirectoryPath(Under(prefix, name)))
    ensures prefix != [] && (d == prefix || Inside(d, DirectoryPath(prefix)))
  {
    var full := DirectoryPath(Under(prefix, name));
    assert DirectoryPath(d) < full by {
      if Inside(d, Under(prefix, name)) {
        assert Under(prefix, name) < full;
      }
    }
    assert full[|d|] == DirectoryPath(d)[|d|] == SLASH;
    var start := |full| - 1 - |name|;
    assert full[start..|full| - 1] == name;
    assert |d| < start;
    assert prefix != [] && start == |prefix| + 1;
    assert full[..|d|] == d;
    assert full[..|prefix|] == prefix;
    if |d| < |prefix| {
      assert DirectoryPath(prefix) == full[..start];
      assert DirectoryPath(d) == full[..|d| + 1];
    }
  }

  ghost predicate DistinctPaths(items: seq<Item>) {
    forall i, j :: 0 <= i < j < |items| ==> items[i].path != items[j].path
  }

  ghost predicate AllRight(repo: Repository, root: ObjectId, modified: nat, items: seq<Item>) {
    forall i :: 0 <= i < |items| ==> Right(repo, root, modified, items[i])
  }

  // Every collected file has its member; a submodule has a directory.
  ghost predicate FilesListed(items: seq<Item>, files: map<Bytes, File>) {
    forall path :: path in files ==> Lists(items, if files[path].mode == Submodule then DirectoryPath(path) else path)
  }

  predicate HasDirectory(entry: Entry) {
    entry.mode == Directory || entry.mode == Submodule
  }

  // The path of the member an entry is written as.
  function EntryPath(prefix: Bytes, entry: Entry): Bytes {
    if HasDirectory(entry) then DirectoryPath(Under(prefix, entry.name)) else Under(prefix, entry.name)
  }

  lemma UnderInjective(prefix: Bytes, a: Bytes, b: Bytes)
    requires Under(prefix, a) == Under(prefix, b)
    ensures a == b
  {
    if prefix != [] {
      assert a == Under(prefix, a)[|prefix| + 1..];
      assert b == Under(prefix, b)[|prefix| + 1..];
    }
  }

  // What an entry's member adds to the prefix starts with the entry's name.
  lemma EntryTail(prefix: Bytes, entry: Entry)
    requires SafeName(entry.name)
    ensures var tail := if HasDirectory(entry) then entry.name + [SLASH] else entry.name;
            && EntryPath(prefix, entry) == Under(prefix, tail)
            && tail != [] && Head(tail) == entry.name
            && Below(prefix, EntryPath(prefix, entry))
  {
    var tail := if HasDirectory(entry) then entry.name + [SLASH] else entry.name;
    HeadOfJoined(entry.name, []);
    assert entry.name + [SLASH] + [] == entry.name + [SLASH];
    assert EntryPath(prefix, entry) == Under(prefix, tail);
  }

  // Members of entries with different names are different.
  lemma EntryPathsDiffer(prefix: Bytes, a: Entry, b: Entry)
    requires SafeName(a.name) && SafeName(b.name) && a.name != b.name
    ensures EntryPath(prefix, a) != EntryPath(prefix, b)
  {
    EntryTail(prefix, a);
    EntryTail(prefix, b);
    if EntryPath(prefix, a) == EntryPath(prefix, b) {
      UnderInjective(prefix, if HasDirectory(a) then a.name + [SLASH] else a.name,
                     if HasDirectory(b) then b.name + [SLASH] else b.name);
    }
  }

  // What is below a child is below its parent, behind the child's name.
  lemma BelowChild(prefix: Bytes, name: Bytes, path: Bytes)
    requires SafeName(name) && Below(Under(prefix, name), path)
    ensures exists rest :: rest != [] && path == Under(prefix, name + [SLASH] + rest)
    ensures Below(prefix, path)
  {
    var rest :| rest != [] && path == Under(Under(prefix, name), rest);
    assert path == Under(prefix, name + [SLASH] + rest);
    assert name + [SLASH] + rest != [];
  }

  // No entry's member lies below a sibling directory.
  lemma EntriesNotBelowChildren(prefix: Bytes, name: Bytes, entry: Entry)
    requires SafeName(name) && SafeName(entry.name)
    ensures !Below(Under(prefix, name), EntryPath(prefix, entry))
  {
    if Below(Under(prefix, name), EntryPath(prefix, entry)) {
      BelowChild(prefix, name, EntryPath(prefix, entry));
      var rest :| rest != [] && EntryPath(prefix, entry) == Under(prefix, name + [SLASH] + rest);
      EntryTail(prefix, entry);
      var tail := if HasDirectory(entry) then entry.name + [SLASH] else entry.name;
      UnderInjective(prefix, tail, name + [SLASH] + rest);
      HeadOfJoined(name, rest);
    }
  }

  // Two directories with nothing below both.
  ghost predicate Apart(a: Bytes, b: Bytes) {
    forall path :: !(Below(a, path) && Below(b, path))
  }

  lemma SiblingsApart(prefix: Bytes, a: Bytes, b: Bytes)
    requires SafeName(a) && SafeName(b) && a != b
    ensures Apart(Under(prefix, a), Under(prefix, b))
  {
    forall path | Below(Under(prefix, a), path) && Below(Under(prefix, b), path)
      ensures false
    {
      BelowChild(prefix, a, path);
      BelowChild(prefix, b, path);
      var r :| r != [] && path == Under(prefix, a + [SLASH] + r);
      var q :| q != [] && path == Under(prefix, b + [SLASH] + q);
      UnderInjective(prefix, a + [SLASH] + r, b + [SLASH] + q);
      HeadOfJoined(a, r);
      HeadOfJoined(b, q);
    }
  }

  lemma ChildrenApartFromOthers(prefix: Bytes, name: Bytes, other: Bytes)
    requires SafeName(name) && Apart(prefix, other)
    ensures Apart(Under(prefix, name), other)
  {
    forall path | Below(Under(prefix, name), path)
      ensures !Below(other, path)
    {
      BelowChild(prefix, name, path);
    }
  }

  // A directory to visit later: it is where its path says, and listed after its parents.
  ghost predicate Scheduled(repo: Repository, root: ObjectId, items: seq<Item>, p: Pending) {
    && Placed(repo, root, p) && 0 !in p.prefix
    && (p.prefix != [] ==> Lists(items, DirectoryPath(p.prefix)) && ParentsListed(items, DirectoryPath(p.prefix)))
  }

  ghost predicate Listing(repo: Repository, root: ObjectId, modified: nat, items: seq<Item>, files: map<Bytes, File>) {
    && AllRight(repo, root, modified, items) && ParentsFirst(items) && DistinctPaths(items)
    && Sound(repo, root, files) && FilesListed(items, files)
  }

  // Nothing listed yet lies below a directory still to be visited.
  ghost predicate Untouched(items: seq<Item>, prefix: Bytes) {
    forall i :: 0 <= i < |items| ==> !Below(prefix, items[i].path)
  }

  // What lies below the directory being visited is one of its first k entries.
  ghost predicate OnlyEntries(items: seq<Item>, prefix: Bytes, entries: seq<Entry>, k: nat)
    requires k <= |entries|
  {
    forall i :: 0 <= i < |items| && Below(prefix, items[i].path) ==>
      exists j :: 0 <= j < k && SafeName(entries[j].name) && items[i].path == EntryPath(prefix, entries[j])
  }

  // One entry is written and remembered.
  ghost predicate Done(items: seq<Item>, files: map<Bytes, File>, children: seq<Pending>, prefix: Bytes, entry: Entry) {
    && Handled(files, children, prefix, entry)
    && (entry.mode == Directory ==> Lists(items, DirectoryPath(Under(prefix, entry.name))))
  }

  // The member an entry is written as.
  function EntryItem(prefix: Bytes, entry: Entry, modified: nat, data: Bytes): Item {
    if HasDirectory(entry) then DirectoryItem(Under(prefix, entry.name), modified)
    else Item(Under(prefix, entry.name), FileMode(entry.mode), modified, FILE_KIND, data)
  }

  lemma EntryIsRight(repo: Repository, root: ObjectId, modified: nat, prefix: Bytes, id: ObjectId, k: nat, data: Bytes)
    requires WellFormedTrees(repo, root) && Placed(repo, root, Pending(prefix, id))
    requires ReadTree(repo, id).Success? && k < |ReadTree(repo, id).value|
    requires SafeName(ReadTree(repo, id).value[k].name)
    requires var entry := ReadTree(repo, id).value[k];
             HasDirectory(entry) || (entry.oid in repo && repo[entry.oid] == Blob(data))
    ensures Right(repo, root, modified, EntryItem(prefix, ReadTree(repo, id).value[k], modified, data))
  {
    PlaceEntry(repo, root, prefix, id, k);
  }

  // The new member differs from all earlier ones.
  lemma EntryIsNew(items: seq<Item>, prefix: Bytes, entries: seq<Entry>, k: nat, path: Bytes)
    requires DistinctNames(entries) && k < |entries| && SafeName(entries[k].name)
    requires OnlyEntries(items, prefix, entries, k) && path == EntryPath(prefix, entries[k])
    ensures !Lists(items, path)
  {
    if Lists(items, path) {
      var i :| 0 <= i < |items| && items[i].path == path;
      EntryTail(prefix, entries[k]);
      var j :| 0 <= j < k && SafeName(entries[j].name) && items[i].path == EntryPath(prefix, entries[j]);
      EntryPathsDiffer(prefix, entries[j], entries[k]);
    }
  }

  // Adding the member of the next entry keeps the listing in order.
  lemma ListingGrows(repo: Repository, root: ObjectId, modified: nat, items: seq<Item>, files: map<Bytes, File>, item: Item)
    requires Listing(repo, root, modified, items, files)
    requires Right(repo, root, modified, item) && ParentsListed(items, item.path) && !Lists(items, item.path)
    ensures Listing(repo, root, modified, items + [item], files)
  {
    ParentsFirstGrows(items, item);
    var longer := items + [item];
    forall i, j | 0 <= i < j < |longer|
      ensures longer[i].path != longer[j].path
    {
      if j == |items| {
        assert items[i].path != item.path;
      }
    }
    forall path | path in files
      ensures Lists(longer, if files[path].mode == Submodule then DirectoryPath(path) else path)
    {
      ListsMore(items, item, if files[path].mode == Submodule then DirectoryPath(path) else path);
    }
  }

  // Remembering a file whose member is listed.
  lemma ListingRemembers(repo: Repository, root: ObjectId, modified: nat, items: seq<Item>, files: map<Bytes, File>, path: Bytes, file: File)
    requires Listing(repo, root, modified, items, files)
    requires Lookup(repo, root, path) == Some(file) && SafePath(path)
    requires Lists(items, if file.mode == Submodule then DirectoryPath(path) else path)
    ensures Listing(repo, root, modified, items, files[path := file])
  {
    hide Right, ParentsFirst, DistinctPaths, Lookup, SafePath, Lists;
  }

  lemma ScheduledGrows(repo: Repository, root: ObjectId, items: seq<Item>, item: Item, p: Pending)
    requires Scheduled(repo, root, items, p)
    ensures Scheduled(repo, root, items + [item], p)
  {
    if p.prefix != [] {
      ListsMore(items, item, DirectoryPath(p.prefix));
      forall d | d != [] && Inside(d, DirectoryPath(p.prefix))
        ensures Lists(items + [item], DirectoryPath(d))
      {
        ListsMore(items, item, DirectoryPath(d));
      }
    }
  }

  lemma OnlyEntriesGrows(items: seq<Item>, prefix: Bytes, entries: seq<Entry>, k: nat, item: Item)
    requires k < |entries| && OnlyEntries(items, prefix, entries, k)
    requires SafeName(entries[k].name) && item.path == EntryPath(prefix, entries[k])
    ensures OnlyEntries(items + [item], prefix, entries, k + 1)
  {
    var longer := items + [item];
    forall i | 0 <= i < |longer| && Below(prefix, longer[i].path)
      ensures exists j :: 0 <= j < k + 1 && SafeName(entries[j].name) && longer[i].path == EntryPath(prefix, entries[j])
    {
      if i < |items| {
        assert longer[i] == items[i];
        var j :| 0 <= j < k && SafeName(entries[j].name) && items[i].path == EntryPath(prefix, entries[j]);
      } else {
        assert longer[i].path == EntryPath(prefix, entries[k]);
      }
    }
  }

  lemma UntouchedGrows(items: seq<Item>, other: Bytes, prefix: Bytes, item: Item)
    requires Untouched(items, other) && Apart(prefix, other) && Below(prefix, item.path)
    ensures Untouched(items + [item], other)
  {
  }

  // A child comes from an entry among the first k.
  ghost predicate ChildOf(prefix: Bytes, entries: seq<Entry>, k: nat, c: Pending)
    requires k <= |entries|
  {
    exists j :: 0 <= j < k && SafeName(entries[j].name) && c == Pending(Under(prefix, entries[j].name), entries[j].oid)
  }

  ghost predicate DistinctChildren(children: seq<Pending>) {
    forall a, b :: 0 <= a < b < |children| ==> children[a].prefix != children[b].prefix
  }

  ghost predicate AllScheduled(repo: Repository, root: ObjectId, items: seq<Item>, ps: seq<Pending>) {
    forall p :: p in ps ==> Scheduled(repo, root, items, p)
  }

  // Directories elsewhere that wait for their visit.
  ghost predicate OthersWait(items: seq<Item>, prefix: Bytes, others: seq<Pending>) {
    forall p :: p in others ==> Untouched(items, p.prefix) && Apart(prefix, p.prefix)
  }

  // The state after the first k entries of a directory.
  ghost predicate Midway(repo: Repository, root: ObjectId, modified: nat, here: Pending, entries: seq<Entry>, k: nat,
                         items: seq<Item>, files: map<Bytes, File>, children: seq<Pending>, others: seq<Pending>) {
    && k <= |entries|
    && Listing(repo, root, modified, items, files)
    && Scheduled(repo, root, items, here) && AllScheduled(repo, root, items, children) && AllScheduled(repo, root, items, others)
    && (forall j :: 0 <= j < k ==> Done(items, files, children, here.prefix, entries[j]))
    && (forall c :: c in children ==> ChildOf(here.prefix, entries, k, c))
    && DistinctChildren(children)
    && OnlyEntries(items, here.prefix, entries, k)
    && OthersWait(items, here.prefix, others)
  }

  function NextFiles(files: map<Bytes, File>, prefix: Bytes, entry: Entry): map<Bytes, File> {
    if entry.mode == Directory then files else files[Under(prefix, entry.name) := File(entry.oid, entry.mode)]
  }

  function NextChildren(children: seq<Pending>, prefix: Bytes, entry: Entry): seq<Pending> {
    if entry.mode == Directory then children + [Pending(Under(prefix, entry.name), entry.oid)] else children
  }

  lemma DoneGrows(items: seq<Item>, files: map<Bytes, File>, children: seq<Pending>, prefix: Bytes, e: Entry,
                  item: Item, entry: Entry)
    requires Done(items, files, children, prefix, e)
    ensures Done(items + [item], NextFiles(files, prefix, entry), NextChildren(children, prefix, entry), prefix, e)
  {
    if e.mode == Directory {
      ListsMore(items, item, DirectoryPath(Under(prefix, e.name)));
    }
  }

  lemma ChildrenGrow(prefix: Bytes, entries: seq<Entry>, k: nat, children: seq<Pending>)
    requires DistinctNames(entries) && k < |entries| && SafeName(entries[k].name)
    requires (forall c :: c in children ==> ChildOf(prefix, entries, k, c)) && DistinctChildren(children)
    ensures forall c :: c in NextChildren(children, prefix, entries[k]) ==> ChildOf(prefix, entries, k + 1, c)
    ensures DistinctChildren(NextChildren(children, prefix, entries[k]))
  {
    var child := Pending(Under(prefix, entries[k].name), entries[k].oid);
    assert ChildOf(prefix, entries, k + 1, child);
    forall c | c in children
      ensures ChildOf(prefix, entries, k + 1, c) && c.prefix != child.prefix
    {
      var j :| 0 <= j < k && SafeName(entries[j].name) && c == Pending(Under(prefix, entries[j].name), entries[j].oid);
      if c.prefix == child.prefix {
        UnderInjective(prefix, entries[j].name, entries[k].name);
      }
    }
  }

  // The facts about the member of entry k that the step needs.
  lemma EntryFits(repo: Repository, root: ObjectId, modified: nat, here: Pending, entries: seq<Entry>, k: nat,
                  items: seq<Item>, data: Bytes)
    requires WellFormedTrees(repo, root) && ReadTree(repo, here.id) == Success(entries) && k < |entries| && SafeName(entries[k].name)
    requires HasDirectory(entries[k]) || (entries[k].oid in repo && repo[entries[k].oid] == Blob(data))
    requires Scheduled(repo, root, items, here) && OnlyEntries(items, here.prefix, entries, k)
    ensures var item := EntryItem(here.prefix, entries[k], modified, data);
            && item.path == EntryPath(here.prefix, entries[k])
            && Right(repo, root, modified, item) && ParentsListed(items, item.path) && !Lists(items, item.path)
            && Below(here.prefix, item.path)
  {
    hide Right, ParentsListed, Below;
    EntryIsRight(repo, root, modified, here.prefix, here.id, k, data);
    EntryIsNew(items, here.prefix, entries, k, EntryPath(here.prefix, entries[k]));
    ParentsOfEntry(items, here.prefix, entries[k].name);
    EntryTail(here.prefix, entries[k]);
  }

  lemma NamesDiffer(repo: Repository, root: ObjectId, items: seq<Item>, here: Pending, entries: seq<Entry>)
    requires WellFormedTrees(repo, root) && ReadTree(repo, here.id) == Success(entries) && Scheduled(repo, root, items, here)
    ensures DistinctNames(entries)
  {
  }

  lemma MidwayStep(repo: Repository, root: ObjectId, modified: nat, here: Pending, entries: seq<Entry>, k: nat,
                   items: seq<Item>, files: map<Bytes, File>, children: seq<Pending>, others: seq<Pending>, data: Bytes)
    requires WellFormedTrees(repo, root) && ReadTree(repo, here.id) == Success(entries) && k < |entries| && SafeName(entries[k].name)
    requires HasDirectory(entries[k]) || (entries[k].oid in repo && repo[entries[k].oid] == Blob(data))
    requires Midway(repo, root, modified, here, entries, k, items, files, children, others)
    ensures Midway(repo, root, modified, here, entries, k + 1, items + [EntryItem(here.prefix, entries[k], modified, data)],
                   NextFiles(files, here.prefix, entries[k]), NextChildren(children, here.prefix, entries[k]), others)
  {
    hide Listing, Scheduled, OnlyEntries, Apart, Below, Right, ParentsListed, Untouched, ChildOf, Done, DistinctChildren, Lists;
    var entry := entries[k];
    var item := EntryItem(here.prefix, entry, modified, data);
    var items', files', children' := items + [item], NextFiles(files, here.prefix, entry), NextChildren(children, here.prefix, entry);
    EntryFits(repo, root, modified, here, entries, k, items, data);
    ListingGrows(repo, root, modified, items, files, item);
    ItemIsListed(items, item);
    OnlyEntriesGrows(items, here.prefix, entries, k, item);
    NamesDiffer(repo, root, items, here, entries);
    ChildrenGrow(here.prefix, entries, k, children);
    forall p | p == here || p in children || p in others
      ensures Scheduled(repo, root, items', p)
    {
      ScheduledGrows(repo, root, items, item, p);
    }
    RememberEntry(repo, root, modified, here, entries, k, items', files);
    forall p | p in others
      ensures Untouched(items', p.prefix)
    {
      UntouchedGrows(items, p.prefix, here.prefix, item);
    }
    forall j | 0 <= j < k
      ensures Done(items', files', children', here.prefix, entries[j])
    {
      DoneGrows(items, files, children, here.prefix, entries[j], item, entry);
    }
    EntryDone(repo, root, here, entries, k, items, item, files, children);
  }

  lemma ItemIsListed(items: seq<Item>, item: Item)
    ensures Lists(items + [item], item.path)
  {
    ListsMore(items, item, item.path);
  }

  lemma RememberEntry(repo: Repository, root: ObjectId, modified: nat, here: Pending, entries: seq<Entry>, k: nat,
                      items: seq<Item>, files: map<Bytes, File>)
    requires WellFormedTrees(repo, root) && ReadTree(repo, here.id) == Success(entries) && k < |entries| && SafeName(entries[k].name)
    requires Scheduled(repo, root, items, here) && Listing(repo, root, modified, items, files)
    requires Lists(items, EntryPath(here.prefix, entries[k]))
    ensures Listing(repo, root, modified, items, NextFiles(files, here.prefix, entries[k]))
  {
    hide Listing;
    if entries[k].mode != Directory {
      PlaceEntry(repo, root, here.prefix, here.id, k);
      ListingRemembers(repo, root, modified, items, files, Under(here.prefix, entries[k].name), File(entries[k].oid, entries[k].mode));
    }
  }

  // The entry itself is done, and a directory among the children is scheduled.
  lemma EntryDone(repo: Repository, root: ObjectId, here: Pending, entries: seq<Entry>, k: nat, items: seq<Item>, item: Item,
                  files: map<Bytes, File>, children: seq<Pending>)
    requires WellFormedTrees(repo, root) && ReadTree(repo, here.id) == Success(entries) && k < |entries| && SafeName(entries[k].name)
    requires Scheduled(repo, root, items, here) && item.path == EntryPath(here.prefix, entries[k]) && ParentsListed(items, item.path)
    ensures Done(items + [item], NextFiles(files, here.prefix, entries[k]), NextChildren(children, here.prefix, entries[k]), here.prefix, entries[k])
    ensures entries[k].mode == Directory ==> Scheduled(repo, root, items + [item], Pending(Under(here.prefix, entries[k].name), entries[k].oid))
  {
    ItemIsListed(items, item);
    if entries[k].mode == Directory {
      PlaceEntry(repo, root, here.prefix, here.id, k);
      var d := Under(here.prefix, entries[k].name);
      forall b | b != [] && Inside(b, DirectoryPath(d))
        ensures Lists(items + [item], DirectoryPath(b))
      {
        ListsMore(items, item, DirectoryPath(b));
      }
    }
  }

  // A directory on the way to a pending one's contents.
  ghost predicate Leads(repo: Repository, p: Pending, d: Bytes) {
    exists rest :: rest != [] && d == Under(p.prefix, rest) && Subtree(repo, p.id, rest).Some?
  }

  ghost predicate DirectoryKnown(repo: Repository, items: seq<Item>, pending: seq<Pending>, d: Bytes) {
    Lists(items, DirectoryPath(d)) || exists p :: p in pending && Leads(repo, p, d)
  }

  ghost predicate DirectoriesKnown(repo: Repository, root: ObjectId, items: seq<Item>, pending: seq<Pending>) {
    forall d :: d != [] && Subtree(repo, root, d).Some? ==> DirectoryKnown(repo, items, pending, d)
  }

  // Directories that wait for their visit have nothing in common.
  ghost predicate AllApart(pending: seq<Pending>) {
    forall i, j :: 0 <= i < j < |pending| ==> Apart(pending[i].prefix, pending[j].prefix)
  }

  ghost predicate AllUntouched(items: seq<Item>, pending: seq<Pending>) {
    forall i :: 0 <= i < |pending| ==> Untouched(items, pending[i].prefix)
  }

  // What the whole walk keeps.
  ghost predicate Archiving(repo: Repository, root: ObjectId, modified: nat, items: seq<Item>, files: map<Bytes, File>, pending: seq<Pending>) {
    && Listing(repo, root, modified, items, files)
    && AllScheduled(repo, root, items, pending) && AllUntouched(items, pending) && AllApart(pending)
    && Exhaustive(repo, root, files, pending)
    && DirectoriesKnown(repo, root, items, pending)
  }

  lemma StartArchive(repo: Repository, root: ObjectId, modified: nat)
    ensures Archiving(repo, root, modified, [], map[], [Pending([], root)])
  {
    StartFlatten(repo, root);
    var start := Pending([], root);
    forall d | d != [] && Subtree(repo, root, d).Some?
      ensures DirectoryKnown(repo, [], [start], d)
    {
      assert d == Under([], d);
      assert Leads(repo, start, d);
      assert start in [start];
    }
  }

  // Taking the last directory off the list starts its visit.
  lemma BeginVisit(repo: Repository, root: ObjectId, modified: nat, items: seq<Item>, files: map<Bytes, File>, pending: seq<Pending>,
                   entries: seq<Entry>)
    requires pending != [] && Archiving(repo, root, modified, items, files, pending)
    ensures Midway(repo, root, modified, pending[|pending| - 1], entries, 0, items, files, [], pending[..|pending| - 1])
  {
    var here, others := pending[|pending| - 1], pending[..|pending| - 1];
    assert Untouched(items, here.prefix);
    forall p | p in others
      ensures Untouched(items, p.prefix) && Apart(here.prefix, p.prefix)
    {
      var i :| 0 <= i < |others| && others[i] == p;
      assert Apart(pending[i].prefix, pending[|pending| - 1].prefix);
    }
  }

  function Reversed(ps: seq<Pending>): (r: seq<Pending>)
    ensures |r| == |ps| && forall i :: 0 <= i < |ps| ==> r[i] == ps[|ps| - 1 - i]
  {
    if ps == [] then [] else [ps[|ps| - 1]] + Reversed(ps[..|ps| - 1])
  }

  lemma ReversedMembers(ps: seq<Pending>)
    ensures forall p :: p in Reversed(ps) <==> p in ps
  {
    forall p | p in ps
      ensures p in Reversed(ps)
    {
      var i :| 0 <= i < |ps| && ps[i] == p;
      assert Reversed(ps)[|ps| - 1 - i] == p;
    }
  }

  // Children are untouched and apart, from each other and from the others.
  lemma ChildrenWait(repo: Repository, root: ObjectId, modified: nat, here: Pending, entries: seq<Entry>,
                     items: seq<Item>, files: map<Bytes, File>, children: seq<Pending>, others: seq<Pending>, c: Pending)
    requires Midway(repo, root, modified, here, entries, |entries|, items, files, children, others) && c in children
    ensures Untouched(items, c.prefix)
    ensures forall p :: p in others ==> Apart(c.prefix, p.prefix)
    ensures forall b :: b in children && b.prefix != c.prefix ==> Apart(c.prefix, b.prefix)
  {
    hide Listing, Scheduled, Done, Apart, Below;
    assert ChildOf(here.prefix, entries, |entries|, c);
    var j :| 0 <= j < |entries| && SafeName(entries[j].name) && c == Pending(Under(here.prefix, entries[j].name), entries[j].oid);
    forall i | 0 <= i < |items|
      ensures !Below(c.prefix, items[i].path)
    {
      if Below(c.prefix, items[i].path) {
        BelowChild(here.prefix, entries[j].name, items[i].path);
        var k :| 0 <= k < |entries| && SafeName(entries[k].name) && items[i].path == EntryPath(here.prefix, entries[k]);
        EntriesNotBelowChildren(here.prefix, entries[j].name, entries[k]);
      }
    }
    forall p | p in others
      ensures Apart(c.prefix, p.prefix)
    {
      ChildrenApartFromOthers(here.prefix, entries[j].name, p.prefix);
    }
    forall b | b in children && b.prefix != c.prefix
      ensures Apart(c.prefix, b.prefix)
    {
      assert ChildOf(here.prefix, entries, |entries|, b);
      var k :| 0 <= k < |entries| && SafeName(entries[k].name) && b == Pending(Under(here.prefix, entries[k].name), entries[k].oid);
      SiblingsApart(here.prefix, entries[j].name, entries[k].name);
    }
  }

  lemma ApartSymmetric(a: Bytes, b: Bytes)
    requires Apart(a, b)
    ensures Apart(b, a)
  {
  }

  lemma StillApart(repo: Repository, root: ObjectId, modified: nat, here: Pending, entries: seq<Entry>,
                   items: seq<Item>, files: map<Bytes, File>, children: seq<Pending>, others: seq<Pending>)
    requires Midway(repo, root, modified, here, entries, |entries|, items, files, children, others) && AllApart(others)
    ensures AllApart(others + Reversed(children)) && AllUntouched(items, others + Reversed(children))
  {
    hide Midway, Apart, Untouched;
    var next := others + Reversed(children);
    MidwayParts(repo, root, modified, here, entries, items, files, children, others);
    forall i | 0 <= i < |next|
      ensures Untouched(items, next[i].prefix)
    {
      if i >= |others| {
        ChildrenWait(repo, root, modified, here, entries, items, files, children, others, children[|children| - 1 - (i - |others|)]);
      } else {
        assert others[i] in others;
      }
    }
    forall i, j | 0 <= i < j < |next|
      ensures Apart(next[i].prefix, next[j].prefix)
    {
      if j >= |others| {
        var b := |children| - 1 - (j - |others|);
        ChildrenWait(repo, root, modified, here, entries, items, files, children, others, children[b]);
        if i < |others| {
          assert next[i] in others;
        } else {
          var a := |children| - 1 - (i - |others|);
          assert children[b].prefix != children[a].prefix && children[a] in children;
        }
        ApartSymmetric(next[j].prefix, next[i].prefix);
      }
    }
  }

  lemma MidwayParts(repo: Repository, root: ObjectId, modified: nat, here: Pending, entries: seq<Entry>,
                    items: seq<Item>, files: map<Bytes, File>, children: seq<Pending>, others: seq<Pending>)
    requires Midway(repo, root, modified, here, entries, |entries|, items, files, children, others)
    ensures DistinctChildren(children) && forall p :: p in others ==> Untouched(items, p.prefix)
  {
  }

  lemma ListsPrefix(items: seq<Item>, longer: seq<Item>, path: Bytes)
    requires items <= longer && Lists(items, path)
    ensures Lists(longer, path)
  {
    var i :| 0 <= i < |items| && items[i].path == path;
    assert longer[i].path == path;
  }

  lemma DoneWaits(items: seq<Item>, files: map<Bytes, File>, children: seq<Pending>, prefix: Bytes, entry: Entry)
    requires Done(items, files, children, prefix, entry) && entry.mode == Directory
    ensures Pending(Under(prefix, entry.name), entry.oid) in children && entry.name != []
  {
  }

  lemma UnderTwice(prefix: Bytes, name: Bytes, rest: Bytes)
    requires name != []
    ensures Under(prefix, name + [SLASH] + rest) == Under(Under(prefix, name), rest)
  {
  }

  // A directory that led through the visited one is listed now, or leads through a child.
  lemma VisitedLeads(repo: Repository, items: seq<Item>, files: map<Bytes, File>, children: seq<Pending>, pending: seq<Pending>,
                     here: Pending, entries: seq<Entry>, d: Bytes)
    requires ReadTree(repo, here.id) == Success(entries) && Leads(repo, here, d)
    requires forall j :: 0 <= j < |entries| ==> Done(items, files, children, here.prefix, entries[j])
    requires forall c :: c in children ==> c in pending
    ensures DirectoryKnown(repo, items, pending, d)
  {
    hide Handled, FindEntry, Head;
    var rest :| rest != [] && d == Under(here.prefix, rest) && Subtree(repo, here.id, rest).Some?;
    FindIsMember(entries, Head(rest));
    var entry := FindEntry(entries, Head(rest)).value;
    var j :| 0 <= j < |entries| && entries[j] == entry;
    assert Done(items, files, children, here.prefix, entries[j]);
    DoneWaits(items, files, children, here.prefix, entry);
    if LastComponent(rest) {
      assert rest == entry.name;
    } else {
      JoinSplits(rest);
      var c := Pending(Under(here.prefix, entry.name), entry.oid);
      UnderTwice(here.prefix, entry.name, Tail(rest));
      assert Leads(repo, c, d);
    }
  }

  // After its last entry a directory has been visited.
  lemma EndVisit(repo: Repository, root: ObjectId, modified: nat, items: seq<Item>, files: map<Bytes, File>, pending: seq<Pending>,
                 entries: seq<Entry>, items': seq<Item>, files': map<Bytes, File>, children: seq<Pending>)
    requires pending != [] && Archiving(repo, root, modified, items, files, pending)
    requires var here := pending[|pending| - 1];
             ReadTree(repo, here.id) == Success(entries)
             && Midway(repo, root, modified, here, entries, |entries|, items', files', children, pending[..|pending| - 1])
    requires items <= items' && files.Keys <= files'.Keys
    ensures Archiving(repo, root, modified, items', files', pending[..|pending| - 1] + Reversed(children))
  {
    hide Apart, Untouched, Below, ParentsListed, Lists, Listing, Leads, Done, Handled, Covers, Scheduled, OnlyEntries, ChildOf;
    var here, others := pending[|pending| - 1], pending[..|pending| - 1];
    var next := others + Reversed(children);
    ReversedMembers(children);
    StillApart(repo, root, modified, here, entries, items', files', children, others);
    EndHandled(files', children, next, items', here.prefix, entries);
    KeepExhaustive(repo, root, files, pending, here.prefix, here.id, files', next);
    forall d | d != [] && Subtree(repo, root, d).Some?
      ensures DirectoryKnown(repo, items', next, d)
    {
      assert DirectoryKnown(repo, items, pending, d);
      if Lists(items, DirectoryPath(d)) {
        ListsPrefix(items, items', DirectoryPath(d));
      } else {
        var p :| p in pending && Leads(repo, p, d);
        if p in others {
          assert p in next;
        } else {
          assert p == here;
          VisitedLeads(repo, items', files', children, next, here, entries, d);
        }
      }
    }
  }

  lemma EndHandled(files: map<Bytes, File>, children: seq<Pending>, next: seq<Pending>, items: seq<Item>, prefix: Bytes, entries: seq<Entry>)
    requires forall j :: 0 <= j < |entries| ==> Done(items, files, children, prefix, entries[j])
    requires forall c :: c in children ==> c in next
    ensures forall e :: e in entries ==> Handled(files, next, prefix, e)
  {
    forall e | e in entries
      ensures Handled(files, next, prefix, e)
    {
      var j :| 0 <= j < |entries| && entries[j] == e;
      assert Done(items, files, children, prefix, entries[j]);
    }
  }

  /**
   Writes the members of one directory.  What is written is the next part of
   the listing; its subdirectories are returned for later.
   */
  method VisitDirectory(repo: Repository, ghost root: ObjectId, modified: nat, here: Pending, limits: Limits, counted: nat,
                        writer: BoundedWriter, items: seq<Item>, ghost files: map<Bytes, File>, ghost others: seq<Pending>)
    returns (r: Result<(seq<Item>, seq<Pending>), ArchiveError>, counted': nat, ghost files': map<Bytes, File>)
    requires writer.Valid() && WellFormedTrees(repo, root) && ReadTree(repo, here.id).Success?
    requires AllWritable(items) && writer.output == Members(items) && counted == |items| <= limits.entries
    requires Midway(repo, root, modified, here, ReadTree(repo, here.id).value, 0, items, files, [], others)
    modifies writer
    ensures writer.Valid() && counted <= counted'
    ensures r.Failure? ==> ArchiveFails(repo, root, modified, limits, writer.maximum, r.error)
    ensures r.Success? ==>
              && |r.value.0| == counted'
              && AllWritable(r.value.0) && writer.output == Members(r.value.0) && counted' <= limits.entries
              && items <= r.value.0 && files.Keys <= files'.Keys
              && (counted' == counted ==> r.value.1 == [])
              && Midway(repo, root, modified, here, ReadTree(repo, here.id).value, |ReadTree(repo, here.id).value|,
                        r.value.0, files', r.value.1, others)
  {
    hide Midway, Writable, ItemBytes, Members, ArchiveFails, WellFormedTrees;
    var entries := ReadTree(repo, here.id).value;
    var listed, children: seq<Pending> := items, [];
    counted', files' := counted, files;
    for k := 0 to |entries|
      invariant writer.Valid() && AllWritable(listed) && writer.output == Members(listed)
      invariant counted' == counted + k == |listed| <= limits.entries
      invariant items <= listed && files.Keys <= files'.Keys
      invariant k == 0 ==> children == []
      invariant Midway(repo, root, modified, here, entries, k, listed, files', children, others)
    {
      counted' := counted' + 1;
      if counted' > limits.entries {
        NoRoomForEntry(repo, root, modified, here, entries, k, listed, files', children, others, limits, writer.maximum);
        return Failure(Unreadable(EntryLimit)), counted', files';
      }
      var entry := entries[k];
      var path := JoinGitPath(here.prefix, entry.name, limits.path);
      if path.Failure? {
        BadEntry(repo, root, modified, here, entries, k, listed, files', children, others, limits, writer.maximum);
        return Failure(Unreadable(path.error)), counted', files';
      }
      var data: Bytes := [];
      if !HasDirectory(entry) {
        if entry.oid !in repo || !repo[entry.oid].Blob? {
          NoBlob(repo, root, modified, here, entries, k, listed, files', children, others, limits, writer.maximum);
          return Failure(NotABlob(entry.oid)), counted', files';
        }
        data := repo[entry.oid].data;
      }
      var item := EntryItem(here.prefix, entry, modified, data);
      PathHasNoZero(repo, root, modified, here, entries, k, listed, files', children, others, data);
      var wrote := WriteItem(writer, item);
      if wrote.Failure? {
        NoRoomForItem(repo, root, modified, here, entries, k, listed, files', children, others, data, limits, writer.maximum, wrote.error);
        return Failure(Unwritable(wrote.error)), counted', files';
      }
      MidwayStep(repo, root, modified, here, entries, k, listed, files', children, others, data);
      MembersGrow(listed, item);
      listed := listed + [item];
      files' := NextFiles(files', here.prefix, entry);
      children := NextChildren(children, here.prefix, entry);
    }
    r := Success((listed, children));
  }

  lemma PathHasNoZero(repo: Repository, root: ObjectId, modified: nat, here: Pending, entries: seq<Entry>, k: nat,
                      items: seq<Item>, files: map<Bytes, File>, children: seq<Pending>, others: seq<Pending>, data: Bytes)
    requires Midway(repo, root, modified, here, entries, k, items, files, children, others)
    requires k < |entries| && SafeName(entries[k].name)
    ensures 0 !in EntryItem(here.prefix, entries[k], modified, data).path
  {
    assert Scheduled(repo, root, items, here);
  }

  lemma MembersGrow(items: seq<Item>, item: Item)
    requires AllWritable(items) && Writable(item)
    ensures AllWritable(items + [item]) && Members(items + [item]) == Members(items) + ItemBytes(item)
  {
    assert (items + [item])[..|items|] == items;
  }

  // Some members an archive of the tree has.
  ghost predicate SomeMembers(repo: Repository, root: ObjectId, modified: nat, items: seq<Item>) {
    AllRight(repo, root, modified, items) && DistinctPaths(items) && AllWritable(items)
  }

  ghost predicate HasEntry(repo: Repository, root: ObjectId, prefix: Bytes, entry: Entry) {
    exists id :: Subtree(repo, root, prefix) == Some(id) && ReadTree(repo, id).Success? && entry in ReadTree(repo, id).value
  }

  // Why a tree cannot be archived.
  ghost predicate ArchiveFails(repo: Repository, root: ObjectId, modified: nat, limits: Limits, maximum: nat, error: ArchiveError) {
    match error
    case Unreadable(EntryLimit) =>
      exists items, prefix, entry ::
        && SomeMembers(repo, root, modified, items) && |items| == limits.entries
        && HasEntry(repo, root, prefix, entry) && (SafeName(entry.name) ==> !Lists(items, EntryPath(prefix, entry)))
    case Unreadable(e) => FlattenFails(repo, root, limits.entries, limits.path, e)
    case DepthLimit => exists d :: Subtree(repo, root, d).Some? && Depth(d) > limits.depth
    case NotABlob(id) =>
      && (id !in repo || !repo[id].Blob?)
      && exists path :: Lookup(repo, root, path).Some? && Lookup(repo, root, path).value.mode != Submodule
                        && Lookup(repo, root, path).value.id == id
    case Unwritable(Tar(_)) => exists item :: Right(repo, root, modified, item) && !Writable(item)
    case Unwritable(ByteLimit) => exists items :: SomeMembers(repo, root, modified, items) && |Archive(items)| > maximum
  }

  lemma NoRoomForEntry(repo: Repository, root: ObjectId, modified: nat, here: Pending, entries: seq<Entry>, k: nat,
                       items: seq<Item>, files: map<Bytes, File>, children: seq<Pending>, others: seq<Pending>,
                       limits: Limits, maximum: nat)
    requires WellFormedTrees(repo, root) && ReadTree(repo, here.id) == Success(entries) && k < |entries|
    requires Midway(repo, root, modified, here, entries, k, items, files, children, others)
    requires AllWritable(items) && |items| == limits.entries
    ensures ArchiveFails(repo, root, modified, limits, maximum, Unreadable(EntryLimit))
  {
    hide Right, Lists, Done, ParentsFirst;
    var entry := entries[k];
    assert SomeMembers(repo, root, modified, items);
    assert HasEntry(repo, root, here.prefix, entry);
    if SafeName(entry.name) {
      EntryIsNew(items, here.prefix, entries, k, EntryPath(here.prefix, entry));
    }
  }

  lemma BadEntry(repo: Repository, root: ObjectId, modified: nat, here: Pending, entries: seq<Entry>, k: nat,
                 items: seq<Item>, files: map<Bytes, File>, children: seq<Pending>, others: seq<Pending>,
                 limits: Limits, maximum: nat)
    requires ReadTree(repo, here.id) == Success(entries) && k < |entries|
    requires Midway(repo, root, modified, here, entries, k, items, files, children, others)
    requires JoinGitPath(here.prefix, entries[k].name, limits.path).Failure?
    ensures ArchiveFails(repo, root, modified, limits, maximum, Unreadable(JoinGitPath(here.prefix, entries[k].name, limits.path).error))
  {
    hide IsEntry;
    EntryAt(repo, root, here.prefix, here.id, k);
  }

  lemma NoBlob(repo: Repository, root: ObjectId, modified: nat, here: Pending, entries: seq<Entry>, k: nat,
               items: seq<Item>, files: map<Bytes, File>, children: seq<Pending>, others: seq<Pending>,
               limits: Limits, maximum: nat)
    requires WellFormedTrees(repo, root) && ReadTree(repo, here.id) == Success(entries) && k < |entries| && SafeName(entries[k].name)
    requires Midway(repo, root, modified, here, entries, k, items, files, children, others)
    requires !HasDirectory(entries[k]) && (entries[k].oid !in repo || !repo[entries[k].oid].Blob?)
    ensures ArchiveFails(repo, root, modified, limits, maximum, NotABlob(entries[k].oid))
  {
    hide Lookup, Subtree;
    PlaceEntry(repo, root, here.prefix, here.id, k);
    assert Lookup(repo, root, Under(here.prefix, entries[k].name)).Some?;
  }

  lemma NoRoomForItem(repo: Repository, root: ObjectId, modified: nat, here: Pending, entries: seq<Entry>, k: nat,
                      items: seq<Item>, files: map<Bytes, File>, children: seq<Pending>, others: seq<Pending>, data: Bytes,
                      limits: Limits, maximum: nat, reason: WriteError)
    requires WellFormedTrees(repo, root) && ReadTree(repo, here.id) == Success(entries) && k < |entries| && SafeName(entries[k].name)
    requires HasDirectory(entries[k]) || (entries[k].oid in repo && repo[entries[k].oid] == Blob(data))
    requires Midway(repo, root, modified, here, entries, k, items, files, children, others) && AllWritable(items)
    requires var item := EntryItem(here.prefix, entries[k], modified, data);
             if reason.Tar? then !Writable(item) else Writable(item) && |Members(items)| + |ItemBytes(item)| > maximum
    ensures ArchiveFails(repo, root, modified, limits, maximum, Unwritable(reason))
  {
    hide Right, Writable, ItemBytes, Members, ParentsListed;
    var item := EntryItem(here.prefix, entries[k], modified, data);
    EntryFits(repo, root, modified, here, entries, k, items, data);
    if Writable(item) {
      MembersGrow(items, item);
      ListingGrows(repo, root, modified, items, files, item);
      assert SomeMembers(repo, root, modified, items + [item]);
    }
  }

  // What an archive of a tree is.
  ghost predicate IsArchiveOf(repo: Repository, root: ObjectId, modified: nat, items: seq<Item>) {
    // Every member stands for something in the tree, and no path comes twice.
    && AllRight(repo, root, modified, items) && DistinctPaths(items)
    // Every file and every directory of the tree has its member.
    && (forall path :: NamesFile(repo, root, path) ==> Lists(items, path))
    && (forall d :: NamesDirectory(repo, root, d) ==> Lists(items, DirectoryPath(d)))
    // Directories come before their contents.
    && ParentsFirst(items)
  }

  lemma ArchiveDone(repo: Repository, root: ObjectId, modified: nat, items: seq<Item>, files: map<Bytes, File>)
    requires Archiving(repo, root, modified, items, files, [])
    ensures IsArchiveOf(repo, root, modified, items)
  {
    FlattenDone(repo, root, files);
    forall path | Lookup(repo, root, path).Some?
      ensures Lists(items, if Lookup(repo, root, path).value.mode == Submodule then DirectoryPath(path) else path)
    {
      assert path in files;
    }
    forall d | d != [] && Subtree(repo, root, d).Some?
      ensures Lists(items, DirectoryPath(d))
    {
      assert DirectoryKnown(repo, items, [], d);
    }
  }

  /**
   The archive of a tree.  On success the output is a block-aligned archive
   within the byte limit that reads back as exactly the members of the tree.
   */
  method WriteArchive(repo: Repository, root: ObjectId, modified: nat, limits: Limits, maximum: nat)
    returns (r: Result<Bytes, ArchiveError>, ghost items: seq<Item>)
    requires WellFormedTrees(repo, root)
    ensures r.Success? ==>
              && |r.value| % 512 == 0 && |r.value| <= maximum
              && IsArchiveOf(repo, root, modified, items)
              && ReadArchive(r.value) == Some(items)
    ensures r.Failure? ==> ArchiveFails(repo, root, modified, limits, maximum, r.error)
  {
    hide Archiving, Midway, ReadArchive, Members, AllWritable, IsArchiveOf, Reversed, ArchiveFails;
    var writer := new BoundedWriter(maximum);
    var listed: seq<Item> := [];
    ghost var files: map<Bytes, File> := map[];
    var pending := [Pending([], root)];
    var counted: nat := 0;
    items := [];
    StartArchive(repo, root, modified);
    NoMembers();
    while pending != []
      invariant writer.Valid() && fresh(writer) && AllWritable(listed) && writer.output == Members(listed)
      invariant Archiving(repo, root, modified, listed, files, pending)
      invariant writer.maximum == maximum && counted == |listed| <= limits.entries
      decreases limits.entries - counted, |pending|
    {
      var here := pending[|pending| - 1];
      NoWayIn(repo, root, modified, listed, files, pending, limits, maximum);
      if Depth(here.prefix) > limits.depth {
        return Failure(DepthLimit), [];
      }
      var entries := ReadTree(repo, here.id);
      if entries.Failure? {
        return Failure(Unreadable(entries.error)), [];
      }
      BeginVisit(repo, root, modified, listed, files, pending, entries.value);
      var visited, counted', files' :=
        VisitDirectory(repo, root, modified, here, limits, counted, writer, listed, files, pending[..|pending| - 1]);
      if visited.Failure? {
        return Failure(visited.error), [];
      }
      EndVisit(repo, root, modified, listed, files, pending, entries.value, visited.value.0, files', visited.value.1);
      listed, files := visited.value.0, files';
      pending := pending[..|pending| - 1] + Reversed(visited.value.1);
      counted := counted';
    }
    ArchiveDone(repo, root, modified, listed, files);
    var ok := writer.Write(seq(1024, _ => 0));
    CloseArchive(listed);
    if !ok {
      NoRoomToClose(repo, root, modified, listed, limits, maximum);
      return Failure(Unwritable(ByteLimit)), [];
    }
    items := listed;
    r := Success(writer.output);
  }

  lemma NoWayIn(repo: Repository, root: ObjectId, modified: nat, items: seq<Item>, files: map<Bytes, File>, pending: seq<Pending>,
                limits: Limits, maximum: nat)
    requires pending != [] && Archiving(repo, root, modified, items, files, pending)
    ensures var here := pending[|pending| - 1];
            && (Depth(here.prefix) > limits.depth ==> ArchiveFails(repo, root, modified, limits, maximum, DepthLimit))
            && (ReadTree(repo, here.id).Failure? ==>
                  ArchiveFails(repo, root, modified, limits, maximum, Unreadable(ReadTree(repo, here.id).error)))
  {
    hide Subtree, Listing, Depth;
    var here := pending[|pending| - 1];
    assert Scheduled(repo, root, items, here);
    assert Subtree(repo, root, here.prefix) == Some(here.id);
  }

  lemma NoRoomToClose(repo: Repository, root: ObjectId, modified: nat, items: seq<Item>, limits: Limits, maximum: nat)
    requires IsArchiveOf(repo, root, modified, items) && AllWritable(items) && |Members(items)| + 1024 > maximum
    ensures ArchiveFails(repo, root, modified, limits, maximum, Unwritable(ByteLimit))
  {
    hide Right, Members, Writable;
    assert SomeMembers(repo, root, modified, items) && |Archive(items)| > maximum;
  }

  lemma NoMembers()
    ensures AllWritable([]) && Members([]) == []
  {
  }

  lemma CloseArchive(items: seq<Item>)
    requires AllWritable(items)
    ensures |Members(items) + seq(1024, _ => 0)| % 512 == 0
    ensures ReadArchive(Members(items) + seq(1024, _ => 0)) == Some(items)
  {
    hide ReadArchive, Members;
    MembersAligned(items);
    ArchiveReadsBack(items);
    assert Members(items) + seq(1024, _ => 0) == Archive(items);
  }

}
