/**
 Content-addressed checkpoints: src/execution/workspace-store.ts.

 A workspace is a map from relative paths to items; the object directory is a
 map keyed by hash. SHA-256 is a parameter, and nothing assumes that it has no
 collisions: the theorems say which contents must not collide.
 */
module WorkspaceStore {
  import opened Prelude

  type Bytes(==, !new)
  type Hash(==, !new)
  type WorkspaceId(==, !new)
  type CheckpointId(==, !new)
  type Name = string
  type Path = seq<Name>

  const GIT: Name := ".git"

  datatype Digest = Digest(hash: Bytes -> Hash, size: Bytes -> nat)

  datatype Item = File(content: Bytes) | Directory | Symlink | Special
  type FileTree = map<Path, Item>
  type Objects = map<Hash, Bytes>

  /** Every item lies in a directory of the tree, or in the root. */
  predicate WellFormed(tree: FileTree) {
    [] !in tree
    && forall p, n :: p in tree && 0 < n < |p| ==> p[..n] in tree && tree[p[..n]] == Directory
  }

  predicate Visible(p: Path) {
    ".git" !in p
  }

  /** The tree without its `.git` entries and what is below them. */
  function Stripped(tree: FileTree): FileTree {
    map p | p in tree && Visible(p) :: tree[p]
  }

  predicate Refused(item: Item) {
    item == Symlink || item == Special
  }

  function FileContents(tree: FileTree, paths: set<Path>): set<Bytes> {
    set p | p in paths && p in tree && tree[p].File? :: tree[p].content
  }

  datatype Entry = Entry(path: Path, isDirectory: bool, size: nat, hash: Option<Hash>)
  datatype Manifest = Manifest(workspace: WorkspaceId, entries: seq<Entry>)

  function EntryOf(digest: Digest, p: Path, item: Item): Entry {
    if item.File? then Entry(p, false, digest.size(item.content), Some(digest.hash(item.content)))
    else Entry(p, true, 0, None)
  }

  /** The entries describe exactly these paths of the tree, each once. */
  ghost predicate Covers(digest: Digest, tree: FileTree, entries: seq<Entry>, paths: set<Path>) {
    && (forall k :: 0 <= k < |entries| ==>
          && entries[k].path in paths && entries[k].path in tree
          && match tree[entries[k].path]
             case File(content) =>
               entries[k] == Entry(entries[k].path, false, digest.size(content), Some(digest.hash(content)))
             case Directory => entries[k] == Entry(entries[k].path, true, 0, None)
             case _ => false)
    && (forall p :: p in paths ==> exists k :: 0 <= k < |entries| && entries[k].path == p)
    && (forall i, j :: 0 <= i < j < |entries| ==> entries[i].path != entries[j].path)
  }

  lemma CoversJoin(digest: Digest, tree: FileTree, a: seq<Entry>, ps: set<Path>, b: seq<Entry>, qs: set<Path>)
    requires Covers(digest, tree, a, ps) && Covers(digest, tree, b, qs) && ps !! qs
    ensures Covers(digest, tree, a + b, ps + qs)
  {
    forall p | p in ps + qs
      ensures exists k :: 0 <= k < |a + b| && (a + b)[k].path == p
    {
      if p in ps {
        var k :| 0 <= k < |a| && a[k].path == p;
        assert (a + b)[k].path == p;
      } else {
        var k :| 0 <= k < |b| && b[k].path == p;
        assert (a + b)[|a| + k].path == p;
      }
    }
  }

  // --------------------------------------------------------------- objects

  /** `after` is `before` with every one of the contents stored under its hash;
      of contents that collide, one of them is there. */
  ghost predicate Stored(digest: Digest, before: Objects, after: Objects, contents: set<Bytes>) {
    && (forall b :: b in contents ==> digest.hash(b) in after)
    && (forall h :: h in before ==> h in after)
    && (forall h :: h in after ==>
          || (h in before && after[h] == before[h])
          || (after[h] in contents && digest.hash(after[h]) == h))
    && (forall b :: b in contents ==>
          after[digest.hash(b)] in contents && digest.hash(after[digest.hash(b)]) == digest.hash(b))
  }

  lemma StoredMore(digest: Digest, a: Objects, b: Objects, c: Objects, first: set<Bytes>, second: set<Bytes>)
    requires Stored(digest, a, b, first) && Stored(digest, b, c, second)
    ensures Stored(digest, a, c, first + second)
  {
  }

  /** Every visible file of the tree is in the object store, under its hash. */
  ghost predicate Keeps(digest: Digest, objects: Objects, tree: FileTree) {
    forall p :: p in tree && Visible(p) && tree[p].File? ==>
      digest.hash(tree[p].content) in objects && objects[digest.hash(tree[p].content)] == tree[p].content
  }

  ghost predicate NoCollision(digest: Digest, some: set<Bytes>, others: set<Bytes>) {
    forall a, b :: a in some && b in others && digest.hash(a) == digest.hash(b) ==> a == b
  }

  // --------------------------------------------------------------- restore

  datatype Fault = Foreign | NoHash(path: Path) | BadObject(path: Path) | Blocked(path: Path)

  function Prefixes(path: Path): set<Path> {
    set n: nat | 0 < n <= |path| :: path[..n]
  }

  /** `mkdir` with `recursive`. */
  function MakeDirectories(tree: FileTree, path: Path): Option<FileTree> {
    if exists p :: p in Prefixes(path) && p in tree && tree[p] != Directory then None
    else Some(map p | p in tree.Keys + Prefixes(path) :: if p in tree then tree[p] else Directory)
  }

  function CopyInto(tree: FileTree, path: Path, content: Bytes): Option<FileTree> {
    if path == [] || (path in tree && tree[path] == Directory) then None
    else
      var parents := MakeDirectories(tree, path[..|path| - 1]);
      if parents.None? then None else Some(parents.value[path := File(content)])
  }

  function PlaceEntry(digest: Digest, objects: Objects, tree: FileTree, entry: Entry): Result<FileTree, Fault> {
    if entry.isDirectory then
      var made := MakeDirectories(tree, entry.path);
      if made.Some? then Success(made.value) else Failure(Blocked(entry.path))
    else if entry.hash.None? then Failure(NoHash(entry.path))
    else if entry.hash.value !in objects then Failure(BadObject(entry.path))
    else
      var content := objects[entry.hash.value];
      if digest.hash(content) != entry.hash.value || digest.size(content) != entry.size
      then Failure(BadObject(entry.path))
      else
        var placed := CopyInto(tree, entry.path, content);
        if placed.Some? then Success(placed.value) else Failure(Blocked(entry.path))
  }

  /** Something in the way of a directory at this path. */
  ghost predicate IsBlocked(tree: FileTree, path: Path) {
    exists n :: 0 < n <= |path| && path[..n] in tree && tree[path[..n]] != Directory
  }

  /** The tree with directories at this path and above it, where none were. */
  ghost predicate HasDirectories(tree: FileTree, path: Path, after: FileTree) {
    && (forall p :: p in after <==> p in tree || (p != [] && p <= path))
    && (forall p :: p in tree && p in after ==> after[p] == tree[p])
    && (forall p :: p in after && p !in tree ==> after[p] == Directory)
  }

  /** The tree with this file, and directories above it where none were. */
  ghost predicate HasFile(tree: FileTree, path: Path, content: Bytes, after: FileTree) {
    && (forall p :: p in after <==> p in tree || (p != [] && p <= path))
    && path in after && after[path] == File(content)
    && (forall p :: p in tree && p in after && p != path ==> after[p] == tree[p])
    && (forall p :: p in after && p !in tree && p != path ==> after[p] == Directory)
  }

  lemma MakesDirectories(tree: FileTree, path: Path)
    ensures MakeDirectories(tree, path).None? <==> IsBlocked(tree, path)
    ensures MakeDirectories(tree, path).Some? ==> HasDirectories(tree, path, MakeDirectories(tree, path).value)
  {
    forall p | true
      ensures p in Prefixes(path) <==> p != [] && p <= path
    {
      if p != [] && p <= path {
        assert path[..|p|] == p;
      }
    }
    if MakeDirectories(tree, path).None? {
      var p :| p in Prefixes(path) && p in tree && tree[p] != Directory;
      assert path[..|p|] == p;
    }
    forall n | 0 < n <= |path|
      ensures path[..n] in Prefixes(path)
    {
    }
  }

  lemma CopiesInto(tree: FileTree, path: Path, content: Bytes)
    ensures CopyInto(tree, path, content).None? <==>
              path == [] || Lookup(tree, path) == Some(Directory) || IsBlocked(tree, path[..|path| - 1])
    ensures CopyInto(tree, path, content).Some? ==> HasFile(tree, path, content, CopyInto(tree, path, content).value)
  {
    if path != [] {
      var parent := path[..|path| - 1];
      MakesDirectories(tree, parent);
      var after := CopyInto(tree, path, content);
      if after.Some? {
        forall p | true
          ensures p in after.value <==> p in tree || (p != [] && p <= path)
        {
          if p <= path && p != path {
            assert p == path[..|p|] == parent[..|p|];
          }
        }
      }
    }
  }

  /** The object of a file's entry is there, and it is what the entry says. */
  ghost predicate IsIntact(digest: Digest, objects: Objects, entry: Entry) {
    && entry.hash.Some? && entry.hash.value in objects
    && digest.hash(objects[entry.hash.value]) == entry.hash.value
    && digest.size(objects[entry.hash.value]) == entry.size
  }

  /** When an entry can be placed, what it leaves, and what it reports if not. */
  lemma PlacesIff(digest: Digest, objects: Objects, tree: FileTree, entry: Entry)
    ensures var result := PlaceEntry(digest, objects, tree, entry); var path := entry.path;
            if entry.isDirectory then
              if IsBlocked(tree, path) then result == Failure(Blocked(path))
              else result.Success? && HasDirectories(tree, path, result.value)
            else if entry.hash == None then result == Failure(NoHash(path))
            else if !IsIntact(digest, objects, entry) then result == Failure(BadObject(path))
            else if path == [] || Lookup(tree, path) == Some(Directory) || IsBlocked(tree, path[..|path| - 1])
            then result == Failure(Blocked(path))
            else
              result.Success? && HasFile(tree, path, objects[entry.hash.value], result.value)
  {
    MakesDirectories(tree, entry.path);
    if IsIntact(digest, objects, entry) {
      CopiesInto(tree, entry.path, objects[entry.hash.value]);
    }
  }

  /** The trees that placing entries one after the other leads through. */
  ghost predicate LeadsThrough(digest: Digest, objects: Objects, entries: seq<Entry>, trees: seq<FileTree>) {
    && 0 < |trees| <= |entries| + 1
    && forall k :: 0 <= k < |trees| - 1 ==>
         PlaceEntry(digest, objects, trees[k], entries[k]) == Success(trees[k + 1])
  }

  /** What the restore loop leaves behind: the tree, and why it stopped early. */
  function Rebuilt(digest: Digest, objects: Objects, tree: FileTree, entries: seq<Entry>): (FileTree, Option<Fault>)
    decreases |entries|
  {
    if entries == [] then (tree, None)
    else
      match PlaceEntry(digest, objects, tree, entries[0])
      case Failure(fault) => (tree, Some(fault))
      case Success(more) => Rebuilt(digest, objects, more, entries[1..])
  }

  /** The restore takes the entries in order and stops at the first that cannot
      be placed. */
  lemma {:induction false} RebuiltInOrder(digest: Digest, objects: Objects, tree: FileTree, entries: seq<Entry>)
    returns (trees: seq<FileTree>)
    ensures LeadsThrough(digest, objects, entries, trees) && trees[0] == tree
    ensures var (rebuilt, fault) := Rebuilt(digest, objects, tree, entries); var done := |trees| - 1;
            && rebuilt == trees[done]
            && (fault == None <==> done == |entries|)
            && (fault.Some? ==> PlaceEntry(digest, objects, rebuilt, entries[done]) == Failure(fault.value))
    decreases |entries|
  {
    if entries == [] {
      trees := [tree];
    } else {
      match PlaceEntry(digest, objects, tree, entries[0])
      case Failure(_) => trees := [tree];
      case Success(more) =>
        var rest := RebuiltInOrder(digest, objects, more, entries[1..]);
        trees := [tree] + rest;
    }
  }

  // ----------------------------------------------------------------- store

  /** Visible paths strictly below a directory. */
  function Below(tree: FileTree, directory: Path): set<Path> {
    set p | p in tree && directory < p && Visible(p)
  }

  function Children(tree: FileTree, directory: Path): set<Name> {
    set p | p in tree && directory < p && |p| == |directory| + 1 :: p[|directory|]
  }

  function Under(tree: FileTree, directory: Path): set<Path> {
    set p | p in tree && directory < p
  }

  /** The part of `Below` that goes through one child. */
  function Through(tree: FileTree, directory: Path, name: Name): set<Path> {
    set p | p in Below(tree, directory) && p[|directory|] == name
  }

  lemma ThroughChild(tree: FileTree, directory: Path, name: Name)
    requires WellFormed(tree) && Visible(directory) && directory + [name] in tree
    ensures name == GIT ==> Through(tree, directory, name) == {}
    ensures name != GIT && tree[directory + [name]] == Directory ==>
              Through(tree, directory, name) == {directory + [name]} + Below(tree, directory + [name])
    ensures name != GIT && tree[directory + [name]] != Directory ==>
              Through(tree, directory, name) == {directory + [name]}
    ensures name != GIT ==> Visible(directory + [name])
  {
    var child := directory + [name];
    forall p | p in Through(tree, directory, name)
      ensures p == child || child < p
      ensures p != child ==> tree[child] == Directory
      ensures name != GIT
    {
      assert p[..|directory|] == directory;
      assert p[..|child|] == child;
      assert p[|directory|] in p;
    }
    forall p | p in Below(tree, child)
      ensures p in Below(tree, directory) && p[|directory|] == name
    {
      assert p[..|child|] == child;
      assert directory <= child <= p;
    }
    if name != GIT {
      assert Visible(child);
      assert child in Below(tree, directory);
    }
  }

  lemma BelowIsThroughChildren(tree: FileTree, directory: Path, p: Path)
    requires WellFormed(tree) && p in Below(tree, directory)
    ensures p[|directory|] in Children(tree, directory)
    ensures directory + [p[|directory|]] in tree
  {
    var n := |directory| + 1;
    assert p[..|directory|] == directory;
    assert p[..n] == directory + [p[|directory|]];
    if n < |p| {
      assert p[..n] in tree;
    } else {
      assert p[..n] == p;
    }
    assert directory < p[..n];
  }

  function Visited(tree: FileTree, directory: Path, rest: set<Name>): set<Path> {
    set p | p in Below(tree, directory) && p[|directory|] !in rest
  }

  lemma AllThroughChildren(tree: FileTree, directory: Path)
    requires WellFormed(tree)
    ensures Visited(tree, directory, Children(tree, directory)) == {}
    ensures Visited(tree, directory, {}) == Below(tree, directory)
  {
    forall p | p in Below(tree, directory)
      ensures p !in Visited(tree, directory, Children(tree, directory))
    {
      BelowIsThroughChildren(tree, directory, p);
    }
  }

  lemma VisitedGrows(tree: FileTree, directory: Path, rest: set<Name>, name: Name)
    requires name in rest
    ensures Visited(tree, directory, rest) !! Through(tree, directory, name)
    ensures Visited(tree, directory, rest - {name})
         == Visited(tree, directory, rest) + Through(tree, directory, name)
    ensures Visited(tree, directory, rest) <= Below(tree, directory)
    ensures Through(tree, directory, name) <= Below(tree, directory)
  {
  }

  lemma UnderShrinks(tree: FileTree, directory: Path, child: Path)
    requires directory < child && child in tree
    ensures Under(tree, child) < Under(tree, directory)
  {
    assert child in Under(tree, directory) && child !in Under(tree, child);
  }

  lemma CoversOne(digest: Digest, tree: FileTree, p: Path)
    requires p in tree && !Refused(tree[p])
    ensures Covers(digest, tree, [EntryOf(digest, p, tree[p])], {p})
  {
    assert [EntryOf(digest, p, tree[p])][0].path == p;
  }

  lemma ChildInTree(tree: FileTree, directory: Path, name: Name)
    requires name in Children(tree, directory)
    ensures directory + [name] in tree
  {
    var p :| p in tree && directory < p && |p| == |directory| + 1 && p[|directory|] == name;
    assert p == directory + [name];
  }

  class WorkspaceStore {
    const digest: Digest
    var objects: Objects
    var trees: map<WorkspaceId, FileTree>
    var manifests: map<CheckpointId, Manifest>

    constructor (digest: Digest, trees: map<WorkspaceId, FileTree>)
      ensures this.digest == digest && this.trees == trees && objects == map[] && manifests == map[]
    {
      this.digest := digest;
      this.trees := trees;
      objects := map[];
      manifests := map[];
    }

    method StoreObject(content: Bytes) returns (hash: Hash)
      modifies this`objects
      ensures hash == digest.hash(content)
      ensures objects == old(objects)[hash := content]
      ensures Stored(digest, old(objects), objects, {content})
    {
      hash := digest.hash(content);
      objects := objects[hash := content];
    }

    /** One child of a directory; a fault is the path of a symlink or of a
        special file. */
    method VisitChild(tree: FileTree, directory: Path, name: Name)
      returns (entries: seq<Entry>, fault: Option<Path>, ghost stored: set<Bytes>)
      requires WellFormed(tree) && Visible(directory) && name in Children(tree, directory)
      modifies this`objects
      ensures fault.None? ==>
                && Covers(digest, tree, entries, Through(tree, directory, name))
                && stored == FileContents(tree, Through(tree, directory, name))
      ensures fault.Some? ==> fault.value in Through(tree, directory, name) && Refused(tree[fault.value])
      ensures Stored(digest, old(objects), objects, stored)
      ensures stored <= FileContents(tree, Through(tree, directory, name))
      decreases Under(tree, directory), 0
    {
      ChildInTree(tree, directory, name);
      ThroughChild(tree, directory, name);
      if name == GIT { return [], None, {}; }
      var absolute := directory + [name];
      var item := tree[absolute];
      if item == Symlink { return [], Some(absolute), {}; }
      if item == Directory {
        UnderShrinks(tree, directory, absolute);
        entries, fault, stored := Visit(tree, absolute);
        if fault.None? {
          CoversOne(digest, tree, absolute);
          CoversJoin(digest, tree, [EntryOf(digest, absolute, item)], {absolute}, entries, Below(tree, absolute));
        }
        entries := [Entry(absolute, true, 0, None)] + entries;
        return;
      }
      if item == Special { return [], Some(absolute), {}; }
      var hash := StoreObject(item.content);
      CoversOne(digest, tree, absolute);
      return [Entry(absolute, false, digest.size(item.content), Some(hash))], None, {item.content};
    }

    /** All that is visible below a directory. */
    method Visit(tree: FileTree, directory: Path)
      returns (entries: seq<Entry>, fault: Option<Path>, ghost stored: set<Bytes>)
      requires WellFormed(tree) && Visible(directory)
      modifies this`objects
      ensures fault.None? ==>
                && Covers(digest, tree, entries, Below(tree, directory))
                && stored == FileContents(tree, Below(tree, directory))
      ensures fault.Some? ==> fault.value in Below(tree, directory) && Refused(tree[fault.value])
      ensures Stored(digest, old(objects), objects, stored)
      ensures stored <= FileContents(tree, Below(tree, directory))
      decreases Under(tree, directory), 1
    {
      entries, fault, stored := [], None, {};
      var rest := Children(tree, directory);
      ghost var done := Visited(tree, directory, rest);
      AllThroughChildren(tree, directory);
      while rest != {}
        invariant rest <= Children(tree, directory)
        invariant done == Visited(tree, directory, rest)
        invariant Covers(digest, tree, entries, done)
        invariant Stored(digest, old(objects), objects, stored)
        invariant stored == FileContents(tree, done)
        decreases |rest|
      {
        PickOne(rest);
        var name :| name in rest;
        VisitedGrows(tree, directory, rest, name);
        rest := rest - {name};
        ghost var before := objects;
        var found, childFault, childStored := VisitChild(tree, directory, name);
        StoredMore(digest, old(objects), before, objects, stored, childStored);
        if childFault.Some? { return entries, childFault, stored + childStored; }
        CoversJoin(digest, tree, entries, done, found, Through(tree, directory, name));
        entries := entries + found;
        stored := stored + childStored;
        done := done + Through(tree, directory, name);
      }
    }

    /** Scans the tree into the object store and writes a manifest, unless the
        tree holds a visible symlink or special file. */
    method CreateCheckpoint(w: WorkspaceId, id: CheckpointId)
      returns (fault: Option<Path>, ghost stored: set<Bytes>)
      requires w in trees && WellFormed(trees[w]) && id !in manifests
      modifies this`objects, this`manifests
      ensures fault.Some? <==> exists p :: p in Stripped(trees[w]) && Refused(trees[w][p])
      ensures fault.Some? ==> manifests == old(manifests)
      ensures fault.None? ==>
                && id in manifests && manifests == old(manifests)[id := manifests[id]]
                && manifests[id].workspace == w
                && Covers(digest, trees[w], manifests[id].entries, Stripped(trees[w]).Keys)
                && stored == FileContents(trees[w], Stripped(trees[w]).Keys)
      ensures Stored(digest, old(objects), objects, stored)
      ensures stored <= FileContents(trees[w], Stripped(trees[w]).Keys)
    {
      var entries;
      assert Below(trees[w], []) == Stripped(trees[w]).Keys;
      entries, fault, stored := Visit(trees[w], []);
      if fault.Some? {
        assert fault.value in Stripped(trees[w]);
        return;
      }
      forall p | p in Stripped(trees[w]) ensures !Refused(trees[w][p]) {
        var k :| 0 <= k < |entries| && entries[k].path == p;
      }
      manifests := manifests[id := Manifest(w, entries)];
    }

    /** Empties the workspace and places the entries of a manifest one by one;
        a fault leaves the workspace as far as the loop came. */
    method RestoreCheckpoint(w: WorkspaceId, id: CheckpointId) returns (fault: Option<Fault>)
      requires w in trees && id in manifests
      modifies this`trees
      ensures manifests[id].workspace != w ==> fault == Some(Foreign) && trees == old(trees)
      ensures manifests[id].workspace == w ==>
                && w in trees && trees == old(trees)[w := trees[w]]
                && (trees[w], fault) == Rebuilt(digest, objects, map[], manifests[id].entries)
    {
      var manifest := manifests[id];
      if manifest.workspace != w { return Some(Foreign); }
      trees := trees[w := map[]];
      var i := 0;
      while i < |manifest.entries|
        invariant 0 <= i <= |manifest.entries|
        invariant w in trees && trees == old(trees)[w := trees[w]]
        invariant Rebuilt(digest, objects, map[], manifest.entries)
               == Rebuilt(digest, objects, trees[w], manifest.entries[i..])
      {
        match PlaceEntry(digest, objects, trees[w], manifest.entries[i]) {
          case Failure(placing) => return Some(placing);
          case Success(tree) => trees := trees[w := tree];
        }
        i := i + 1;
      }
      return None;
    }
  }

  lemma PickOne(s: set<Name>)
    requires s != {}
    ensures exists name :: name in s
  {
    if forall name: Name :: name !in s {
      EmptyWithoutMembers(s);
    }
  }

  // ----------------------------------------------------------- round trip

  predicate PartOf(some: FileTree, tree: FileTree) {
    forall p :: p in some ==> p in tree && some[p] == tree[p]
  }

  lemma DirectoriesOfPart(tree: FileTree, some: FileTree, path: Path)
    requires WellFormed(tree) && PartOf(some, Stripped(tree))
    requires path == [] || (path in Stripped(tree) && tree[path] == Directory)
    ensures MakeDirectories(some, path).Some?
    ensures PartOf(MakeDirectories(some, path).value, Stripped(tree))
    ensures forall p :: p in some ==> p in MakeDirectories(some, path).value
    ensures path != [] ==> path in MakeDirectories(some, path).value
  {
    forall p | p in Prefixes(path)
      ensures p in Stripped(tree) && tree[p] == Directory
    {
      var n: nat :| 0 < n <= |path| && p == path[..n];
      assert path[..|path|] == path;
      forall name | name in p ensures name in path {}
    }
    assert path[..|path|] == path;
    assert path != [] ==> path in Prefixes(path);
  }

  /** Placing an entry of a checkpoint whose object is intact. */
  lemma PlacesPart(digest: Digest, objects: Objects, tree: FileTree, some: FileTree, path: Path)
    requires WellFormed(tree) && PartOf(some, Stripped(tree)) && Keeps(digest, objects, tree)
    requires path in Stripped(tree) && !Refused(tree[path])
    ensures var placed := PlaceEntry(digest, objects, some, EntryOf(digest, path, tree[path]));
            && placed.Success? && PartOf(placed.value, Stripped(tree))
            && path in placed.value && forall p :: p in some ==> p in placed.value
  {
    if tree[path] == Directory {
      DirectoriesOfPart(tree, some, path);
    } else {
      var parent := path[..|path| - 1];
      if parent != [] {
        assert parent in tree && tree[parent] == Directory;
        forall name | name in parent ensures name in path {}
      }
      DirectoriesOfPart(tree, some, parent);
    }
  }

  /** The entries, taken one by one, describe visible items of the tree. */
  ghost predicate Describes(digest: Digest, tree: FileTree, entries: seq<Entry>) {
    forall k :: 0 <= k < |entries| ==>
      && entries[k].path in Stripped(tree) && !Refused(tree[entries[k].path])
      && entries[k] == EntryOf(digest, entries[k].path, tree[entries[k].path])
  }

  lemma {:induction false} IntactRebuilds(digest: Digest, objects: Objects, tree: FileTree,
                                          some: FileTree, entries: seq<Entry>)
    requires WellFormed(tree) && PartOf(some, Stripped(tree)) && Keeps(digest, objects, tree)
    requires Describes(digest, tree, entries)
    ensures var (rebuilt, fault) := Rebuilt(digest, objects, some, entries);
            && fault == None && PartOf(rebuilt, Stripped(tree))
            && (forall p :: p in some ==> p in rebuilt)
            && (forall k :: 0 <= k < |entries| ==> entries[k].path in rebuilt)
    decreases |entries|
  {
    if entries != [] {
      PlacesPart(digest, objects, tree, some, entries[0].path);
      var more := PlaceEntry(digest, objects, some, entries[0]).value;
      IntactRebuilds(digest, objects, tree, more, entries[1..]);
      forall k | 0 <= k < |entries|
        ensures entries[k].path in Rebuilt(digest, objects, some, entries).0
      {
        if k > 0 {
          assert entries[k] == entries[1..][k - 1];
        }
      }
    }
  }

  lemma {:induction false} PlacedStays(digest: Digest, objects: Objects, some: FileTree,
                                       entries: seq<Entry>, p: Path)
    requires p in some && forall k :: 0 <= k < |entries| ==> entries[k].path != p
    requires Rebuilt(digest, objects, some, entries).1 == None
    ensures p in Rebuilt(digest, objects, some, entries).0
    ensures Rebuilt(digest, objects, some, entries).0[p] == some[p]
    decreases |entries|
  {
    if entries != [] {
      PlacedStays(digest, objects, PlaceEntry(digest, objects, some, entries[0]).value, entries[1..], p);
    }
  }

  /** A restored file has the content its object has. */
  lemma {:induction false} RebuiltFromObjects(digest: Digest, objects: Objects, some: FileTree,
                                              entries: seq<Entry>, k: nat)
    requires k < |entries| && !entries[k].isDirectory
    requires forall i, j :: 0 <= i < j < |entries| ==> entries[i].path != entries[j].path
    requires Rebuilt(digest, objects, some, entries).1 == None
    ensures entries[k].hash.Some? && entries[k].hash.value in objects
    ensures entries[k].path in Rebuilt(digest, objects, some, entries).0
    ensures Rebuilt(digest, objects, some, entries).0[entries[k].path] == File(objects[entries[k].hash.value])
    decreases |entries|
  {
    var more := PlaceEntry(digest, objects, some, entries[0]).value;
    if k == 0 {
      PlacedStays(digest, objects, more, entries[1..], entries[0].path);
    } else {
      RebuiltFromObjects(digest, objects, more, entries[1..], k - 1);
    }
  }

  /** Restoring a checkpoint yields the scanned tree without its `.git`
      entries exactly when the store still holds every scanned content. */
  lemma RestoreYieldsTreeIffKept(digest: Digest, objects: Objects, tree: FileTree, entries: seq<Entry>)
    requires WellFormed(tree) && Covers(digest, tree, entries, Stripped(tree).Keys)
    ensures Rebuilt(digest, objects, map[], entries) == (Stripped(tree), None) <==> Keeps(digest, objects, tree)
  {
    var (rebuilt, fault) := Rebuilt(digest, objects, map[], entries);
    if Keeps(digest, objects, tree) {
      IntactRebuilds(digest, objects, tree, map[], entries);
      forall p | p in Stripped(tree)
        ensures p in rebuilt
      {
        var k :| 0 <= k < |entries| && entries[k].path == p;
      }
      assert rebuilt == Stripped(tree);
    }
    if rebuilt == Stripped(tree) && fault == None {
      forall p | p in tree && Visible(p) && tree[p].File?
        ensures digest.hash(tree[p].content) in objects
        ensures objects[digest.hash(tree[p].content)] == tree[p].content
      {
        assert p in Stripped(tree).Keys;
        var k :| 0 <= k < |entries| && entries[k].path == p;
        RebuiltFromObjects(digest, objects, map[], entries, k);
      }
    }
  }

  // ---------------------------------------------------------------- history

  function TreeContents(tree: FileTree): set<Bytes> {
    FileContents(tree, Stripped(tree).Keys)
  }

  /** One change of the shared object directory. */
  datatype Change = Checkpointed(contents: set<Bytes>) | Removed(hash: Hash)

  ghost predicate Changes(digest: Digest, before: Objects, after: Objects, change: Change) {
    match change
    case Checkpointed(contents) => Stored(digest, before, after, contents)
    case Removed(hash) => after == before - {hash}
  }

  /** A change that cannot hurt the tree's checkpoint. */
  ghost predicate Harmless(digest: Digest, tree: FileTree, change: Change) {
    match change
    case Checkpointed(contents) => NoCollision(digest, TreeContents(tree), contents)
    case Removed(hash) => forall b :: b in TreeContents(tree) ==> digest.hash(b) != hash
  }

  lemma HarmlessKeeps(digest: Digest, before: Objects, after: Objects, change: Change, tree: FileTree)
    requires Changes(digest, before, after, change) && Harmless(digest, tree, change)
    requires Keeps(digest, before, tree)
    ensures Keeps(digest, after, tree)
  {
    forall p | p in tree && Visible(p) && tree[p].File?
      ensures digest.hash(tree[p].content) in after
      ensures after[digest.hash(tree[p].content)] == tree[p].content
    {
      assert tree[p].content in TreeContents(tree) by {
        assert p in Stripped(tree).Keys;
      }
    }
  }

  lemma CheckpointKeeps(digest: Digest, before: Objects, after: Objects, tree: FileTree)
    requires Stored(digest, before, after, TreeContents(tree))
    requires NoCollision(digest, TreeContents(tree), TreeContents(tree))
    ensures Keeps(digest, after, tree)
  {
    forall p | p in tree && Visible(p) && tree[p].File?
      ensures digest.hash(tree[p].content) in after
      ensures after[digest.hash(tree[p].content)] == tree[p].content
    {
      assert tree[p].content in TreeContents(tree) by {
        assert p in Stripped(tree).Keys;
      }
    }
  }

  /** After a checkpoint, and then any number of checkpoints of any workspace
      and removals of other objects, restoring yields the tree without its
      `.git` entries, as long as no scanned content collides with it. */
  lemma {:induction false} RestoreAfterHistory(digest: Digest, tree: FileTree, entries: seq<Entry>,
                                               before: Objects, history: seq<Objects>, changes: seq<Change>)
    requires WellFormed(tree) && Covers(digest, tree, entries, Stripped(tree).Keys)
    requires |history| == |changes| + 1
    requires Stored(digest, before, history[0], TreeContents(tree))
    requires NoCollision(digest, TreeContents(tree), TreeContents(tree))
    requires forall k :: 0 <= k < |changes| ==>
               Changes(digest, history[k], history[k + 1], changes[k]) && Harmless(digest, tree, changes[k])
    ensures Rebuilt(digest, history[|changes|], map[], entries) == (Stripped(tree), None)
  {
    CheckpointKeeps(digest, before, history[0], tree);
    var k := 0;
    while k < |changes|
      invariant 0 <= k <= |changes|
      invariant Keeps(digest, history[k], tree)
    {
      HarmlessKeeps(digest, history[k], history[k + 1], changes[k], tree);
      k := k + 1;
    }
    RestoreYieldsTreeIffKept(digest, history[|changes|], tree, entries);
  }
}
