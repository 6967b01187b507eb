/** The nested file tree: insertFileEntry in internal/torrent/torrent.go, walkFileTree and safeJoin in internal/torrent/parse.go. */
module FileTree {
  import opened Common

  /** Decoded bencode. A string holds one char for each byte. */
  datatype Value = Int(i: int) | Text(s: string) | List(items: seq<Value>) | Dict(entries: Entries)

  type Entries = map<string, Value>
  type Path = seq<string>

  const MAX_DEPTH: nat := 64

  datatype FileEntry = FileEntry(path: Path, length: int)

  // ---- safeJoin ----

  predicate SafeComponent(p: string) {
    p != "" && p != "." && p != ".." && '/' !in p && '\\' !in p && '\0' !in p
  }

  predicate SafePath(parts: Path) {
    parts != [] && forall i :: 0 <= i < |parts| ==> SafeComponent(parts[i])
  }

  function Join(parts: Path): string {
    if parts == [] then "" else if |parts| == 1 then parts[0] else parts[0] + "/" + Join(parts[1..])
  }

  method SafeJoin(parts: Path) returns (path: Option<string>)
    ensures path == if SafePath(parts) then Some(Join(parts)) else None
  {
    if |parts| == 0 {
      return None;
    }
    for i := 0 to |parts|
      invariant forall k :: 0 <= k < i ==> SafeComponent(parts[k])
    {
      if !SafeComponent(parts[i]) {
        return None;
      }
    }
    path := Some(Join(parts));
  }

  lemma SplitAtSlash(a: string, b: string, x: string, y: string)
    requires '/' !in a && '/' !in b && a + "/" + x == b + "/" + y
    ensures a == b && x == y
  {
    var s := a + "/" + x;
    assert s == b + "/" + y;
    assert s[|a|] == '/' && s[|b|] == '/';
    assert forall i :: 0 <= i < |a| ==> s[i] == a[i];
    assert forall i :: 0 <= i < |b| ==> s[i] == b[i];
    assert |a| == |b|;
    assert a == s[..|a|] && b == s[..|b|];
    assert x == s[|a| + 1..] && y == s[|b| + 1..];
  }

  lemma SlashInJoin(p: Path)
    requires SafePath(p)
    ensures '/' in Join(p) <==> |p| > 1
  {
    if |p| > 1 {
      assert Join(p)[|p[0]|] == '/';
    }
  }

  /** Different safe component lists join to different paths. */
  lemma {:induction false} JoinIsInjective(p: Path, q: Path)
    requires SafePath(p) && SafePath(q) && Join(p) == Join(q)
    ensures p == q
  {
    SlashInJoin(p);
    SlashInJoin(q);
    if |p| > 1 {
      SplitAtSlash(p[0], q[0], Join(p[1..]), Join(q[1..]));
      JoinIsInjective(p[1..], q[1..]);
      assert p == [p[0]] + p[1..] && q == [q[0]] + q[1..];
    }
  }

  /** A path cut at its separators. */
  function Split(path: string): Path {
    if '/' !in path then [path]
    else
      var i := FirstSlash(path);
      [path[..i]] + Split(path[i + 1..])
  }

  function FirstSlash(path: string): (i: nat)
    requires '/' in path
    ensures i < |path| && path[i] == '/' && '/' !in path[..i]
  {
    if path[0] == '/' then 0 else FirstSlash(path[1..]) + 1
  }

  /** How deep below the directory a path leads, as the operating system resolves it; nothing if it climbs out on the way. */
  function Resolve(parts: Path, depth: nat): Option<nat> {
    if parts == [] then Some(depth)
    else if parts[0] == "" || parts[0] == "." then Resolve(parts[1..], depth)
    else if parts[0] == ".." then if depth == 0 then None else Resolve(parts[1..], depth - 1)
    else Resolve(parts[1..], depth + 1)
  }

  lemma {:induction false} SplitUndoesJoin(parts: Path)
    requires SafePath(parts)
    ensures Split(Join(parts)) == parts
  {
    if |parts| > 1 {
      var path := Join(parts);
      assert path[|parts[0]|] == '/';
      var i := FirstSlash(path);
      assert path == path[..i] + "/" + path[i + 1..];
      SplitAtSlash(path[..i], parts[0], path[i + 1..], Join(parts[1..]));
      SplitUndoesJoin(parts[1..]);
    }
  }

  lemma {:induction false} SafeGoesDown(parts: Path, depth: nat)
    requires forall i :: 0 <= i < |parts| ==> SafeComponent(parts[i])
    ensures Resolve(parts, depth) == Some(depth + |parts|)
    decreases |parts|
  {
    if parts != [] {
      SafeGoesDown(parts[1..], depth + 1);
    }
  }

  /**
   * A joined path is taken apart into the very components it was made of, goes down one directory with each of
   * them and never climbs, and holds neither a backslash nor NUL.
   */
  lemma JoinStaysInside(parts: Path)
    requires SafePath(parts)
    ensures Split(Join(parts)) == parts && Resolve(Split(Join(parts)), 0) == Some(|parts|)
    ensures '\\' !in Join(parts) && '\0' !in Join(parts)
  {
    SplitUndoesJoin(parts);
    AllTheWayDown(parts, Split(Join(parts)));
    JoinIsPlain(parts);
  }

  lemma AllTheWayDown(parts: Path, split: Path)
    requires SafePath(parts) && split == parts
    ensures Resolve(split, 0) == Some(|parts|)
  {
    SafeGoesDown(parts, 0);
  }

  lemma {:induction false} JoinIsPlain(parts: Path)
    requires forall i :: 0 <= i < |parts| ==> SafeComponent(parts[i])
    ensures '\\' !in Join(parts) && '\0' !in Join(parts)
  {
    if |parts| > 1 {
      JoinIsPlain(parts[1..]);
    }
  }

  /** Nothing more is refused: a component without separators and NUL that leads one directory down is safe. */
  lemma SafeIffPlainAndDown(p: string)
    ensures SafeComponent(p) <==> Resolve([p], 1) == Some(2) && '/' !in p && '\\' !in p && '\0' !in p
  {
    assert Resolve([], 1) == Some(1) && Resolve([], 2) == Some(2) && Resolve([], 0) == Some(0);
    assert [p][1..] == [];
  }

  // ---- Reading a tree ----

  predicate IsLeaf(node: Entries) {
    "" in node && node[""].Dict?
  }

  /** The `length` of an entry; 0 when it is missing or not an integer. */
  function EntryLength(entry: Entries): int {
    if "length" in entry && entry["length"].Int? then entry["length"].i else 0
  }

  function LeafLength(node: Entries): int
    requires IsLeaf(node)
  {
    EntryLength(node[""].entries)
  }

  predicate HasNode(tree: Entries, name: string) {
    name in tree && tree[name].Dict?
  }

  /** The entry of the file at `path`, at most `fuel` components deep. */
  function LeafAt(tree: Entries, path: Path, fuel: nat): Option<Entries>
    decreases fuel
  {
    if fuel == 0 || path == [] || !HasNode(tree, path[0]) then None
    else
      var node := tree[path[0]].entries;
      if !IsLeaf(node) then LeafAt(node, path[1..], fuel - 1)
      else if |path| == 1 then Some(node[""].entries)
      else None
  }

  /** The length of the file at `path`. */
  function Lookup(tree: Entries, path: Path, fuel: nat): Option<int> {
    match LeafAt(tree, path, fuel)
    case None => None
    case Some(entry) => Some(EntryLength(entry))
  }

  /** `path` leads to a leaf or directory, at most `fuel` deep, whose own name is refused. */
  predicate BadName(tree: Entries, path: Path, fuel: nat)
    decreases fuel
  {
    fuel > 0 && path != [] && HasNode(tree, path[0]) &&
    if |path| == 1 then !SafeComponent(path[0])
    else !IsLeaf(tree[path[0]].entries) && BadName(tree[path[0]].entries, path[1..], fuel - 1)
  }

  ghost predicate HasBadName(tree: Entries, fuel: nat) {
    exists path :: BadName(tree, path, fuel)
  }

  /** `f` is a file of the tree found under `prefix`. */
  predicate IsFileOf(tree: Entries, prefix: Path, fuel: nat, f: FileEntry) {
    prefix <= f.path && Lookup(tree, f.path[|prefix|..], fuel) == Some(f.length)
  }

  /** Every file once, in any order; nothing at all if some name is refused. */
  ghost predicate IsWalk(tree: Entries, prefix: Path, fuel: nat, r: Option<seq<FileEntry>>) {
    match r
    case None => HasBadName(tree, fuel)
    case Some(files) =>
      && !HasBadName(tree, fuel) && NoDup(files)
      && forall f :: f in files <==> IsFileOf(tree, prefix, fuel, f)
  }

  // ---- walkFileTree ----

  /** The files found so far: those whose name in this tree is no longer in `todo`. */
  ghost predicate Walked(tree: Entries, prefix: Path, fuel: nat, todo: set<string>, files: seq<FileEntry>) {
    && NoDup(files)
    && forall f :: f in files <==> IsFileOf(tree, prefix, fuel, f) && f.path[|prefix|] !in todo
  }

  /** The files below one name. */
  ghost predicate Below(tree: Entries, prefix: Path, fuel: nat, name: string, files: seq<FileEntry>) {
    && NoDup(files)
    && forall f :: f in files <==> IsFileOf(tree, prefix, fuel, f) && f.path[|prefix|] == name
  }

  ghost predicate NoneBad(tree: Entries, fuel: nat, todo: set<string>) {
    forall path :: BadName(tree, path, fuel) ==> path[0] in todo
  }

  lemma WalkName(tree: Entries, prefix: Path, fuel: nat, todo: set<string>, name: string, files: seq<FileEntry>, more: seq<FileEntry>)
    requires Walked(tree, prefix, fuel, todo, files) && name in todo
    requires Below(tree, prefix, fuel, name, more)
    ensures Walked(tree, prefix, fuel, todo - {name}, files + more)
  {
    assert forall f :: f in files + more <==> f in files || f in more;
    assert forall f :: f in files ==> f !in more;
  }

  lemma NothingBelow(tree: Entries, prefix: Path, fuel: nat, name: string)
    requires !HasNode(tree, name)
    ensures Below(tree, prefix, fuel, name, [])
  {
  }

  lemma LeafBelow(tree: Entries, prefix: Path, fuel: nat, name: string)
    requires fuel > 0 && HasNode(tree, name) && IsLeaf(tree[name].entries)
    ensures Below(tree, prefix, fuel, name, [FileEntry(prefix + [name], LeafLength(tree[name].entries))])
  {
    var leaf := FileEntry(prefix + [name], LeafLength(tree[name].entries));
    assert leaf.path[|prefix|..] == [name];
    forall f | IsFileOf(tree, prefix, fuel, f) && f.path[|prefix|] == name
      ensures f == leaf
    {
      assert f.path[|prefix|..] == [name];
      assert f.path == prefix + f.path[|prefix|..];
    }
  }

  lemma DirectoryBelow(tree: Entries, prefix: Path, fuel: nat, name: string, files: seq<FileEntry>)
    requires fuel > 0 && HasNode(tree, name) && !IsLeaf(tree[name].entries)
    requires NoDup(files)
    requires forall f :: f in files <==> IsFileOf(tree[name].entries, prefix + [name], fuel - 1, f)
    ensures Below(tree, prefix, fuel, name, files)
  {
    var node, inner := tree[name].entries, prefix + [name];
    forall f: FileEntry
      ensures IsFileOf(node, inner, fuel - 1, f) <==> IsFileOf(tree, prefix, fuel, f) && f.path[|prefix|] == name
    {
      FileInside(tree, prefix, fuel, name, f);
    }
  }

  lemma FileInside(tree: Entries, prefix: Path, fuel: nat, name: string, f: FileEntry)
    requires fuel > 0 && HasNode(tree, name) && !IsLeaf(tree[name].entries)
    ensures IsFileOf(tree[name].entries, prefix + [name], fuel - 1, f)
            <==> IsFileOf(tree, prefix, fuel, f) && f.path[|prefix|] == name
  {
    if prefix <= f.path && |f.path| > |prefix| {
      var rest := f.path[|prefix|..];
      assert rest[1..] == f.path[|prefix + [name]|..];
      assert prefix + [name] <= f.path <==> f.path[|prefix|] == name;
    }
  }

  /** walkFileTree: whatever order the map is iterated in, the result is a walk of the tree. */
  method Walk(tree: Entries, prefix: Path, depth: nat) returns (r: Option<seq<FileEntry>>)
    requires forall i :: 0 <= i < |prefix| ==> SafeComponent(prefix[i])
    ensures IsWalk(tree, prefix, if depth > MAX_DEPTH then 0 else MAX_DEPTH + 1 - depth, r)
    decreases if depth > MAX_DEPTH then 0 else MAX_DEPTH + 1 - depth
  {
    if depth > MAX_DEPTH {
      return Some([]);
    }
    ghost var fuel := MAX_DEPTH + 1 - depth;
    var files: seq<FileEntry> := [];
    var todo := tree.Keys;
    while todo != {}
      invariant todo <= tree.Keys
      invariant Walked(tree, prefix, fuel, todo, files) && NoneBad(tree, fuel, todo)
    {
      var name :| name in todo;
      if tree[name].Dict? {
        var node := tree[name].entries;
        var path := SafeJoin(prefix + [name]);
        if path.None? {
          UnsafeHere(tree, prefix, fuel, name);
          return None;
        }
        assert SafeComponent((prefix + [name])[|prefix|]);
        if IsLeaf(node) {
          LeafBelow(tree, prefix, fuel, name);
          WalkName(tree, prefix, fuel, todo, name, files, [FileEntry(prefix + [name], LeafLength(node))]);
          files := files + [FileEntry(prefix + [name], LeafLength(node))];
        } else {
          var sub := Walk(node, prefix + [name], depth + 1);
          if sub.None? {
            UnsafeInside(tree, fuel, name);
            return None;
          }
          DirectoryBelow(tree, prefix, fuel, name, sub.value);
          WalkName(tree, prefix, fuel, todo, name, files, sub.value);
          files := files + sub.value;
        }
      } else {
        NothingBelow(tree, prefix, fuel, name);
        WalkName(tree, prefix, fuel, todo, name, files, []);
        assert files + [] == files;
      }
      SafeName(tree, fuel, name, todo);
      todo := todo - {name};
    }
    r := Some(files);
  }

  lemma UnsafeHere(tree: Entries, prefix: Path, fuel: nat, name: string)
    requires fuel > 0 && HasNode(tree, name) && !SafePath(prefix + [name])
    requires forall i :: 0 <= i < |prefix| ==> SafeComponent(prefix[i])
    ensures HasBadName(tree, fuel)
  {
    assert BadName(tree, [name], fuel);
  }

  lemma UnsafeInside(tree: Entries, fuel: nat, name: string)
    requires fuel > 0 && HasNode(tree, name) && !IsLeaf(tree[name].entries)
    requires HasBadName(tree[name].entries, fuel - 1)
    ensures HasBadName(tree, fuel)
  {
    var path :| BadName(tree[name].entries, path, fuel - 1);
    assert ([name] + path)[1..] == path;
    assert BadName(tree, [name] + path, fuel);
  }

  lemma SafeName(tree: Entries, fuel: nat, name: string, todo: set<string>)
    requires fuel > 0 && NoneBad(tree, fuel, todo) && name in todo
    requires HasNode(tree, name) ==>
               SafeComponent(name) && (IsLeaf(tree[name].entries) || !HasBadName(tree[name].entries, fuel - 1))
    ensures NoneBad(tree, fuel, todo - {name})
  {
    forall path | BadName(tree, path, fuel)
      ensures path[0] in todo - {name}
    {
      assert |path| > 1 ==> BadName(tree[path[0]].entries, path[1..], fuel - 1);
    }
  }

  // ---- insertFileEntry ----

  function Leaf(entry: Entries): Value {
    Dict(map["" := Dict(entry)])
  }

  /** The directory that a name leads to; a new one if the name is free. */
  function SubTree(tree: Entries, name: string): Entries {
    if HasNode(tree, name) then tree[name].entries else map[]
  }

  function Insert(tree: Entries, parts: Path, entry: Entries): Entries
    decreases |parts|
  {
    if parts == [] then tree
    else if |parts| == 1 then tree[parts[0] := Leaf(entry)]
    else tree[parts[0] := Dict(Insert(SubTree(tree, parts[0]), parts[1..], entry))]
  }

  /** No file stands on the way to `parts`, and the place itself is free. */
  predicate Fits(tree: Entries, parts: Path)
    decreases |parts|
  {
    parts != [] && (parts[0] in tree ==>
      HasNode(tree, parts[0]) && !IsLeaf(tree[parts[0]].entries) && Fits(tree[parts[0]].entries, parts[1..]))
  }

  /** Neither path leads to or through the other. */
  predicate Apart(p: Path, q: Path) {
    !(p <= q) && !(q <= p)
  }

  lemma InnerFits(tree: Entries, parts: Path)
    requires Fits(tree, parts) && |parts| > 1
    ensures Fits(SubTree(tree, parts[0]), parts[1..]) && !IsLeaf(SubTree(tree, parts[0]))
  {
  }

  lemma {:induction false} InsertKeepsFit(tree: Entries, parts: Path, entry: Entries, next: Path)
    requires SafePath(parts) && Fits(tree, parts) && Fits(tree, next) && Apart(parts, next)
    ensures Fits(Insert(tree, parts, entry), next)
    decreases |parts|
  {
    if parts[0] == next[0] {
      assert |parts| > 1 && |next| > 1;
      InnerFits(tree, parts);
      InnerFits(tree, next);
      assert parts == [parts[0]] + parts[1..] && next == [next[0]] + next[1..];
      InsertKeepsFit(SubTree(tree, parts[0]), parts[1..], entry, next[1..]);
      InsertNoLeaf(SubTree(tree, parts[0]), parts[1..], entry);
    }
  }

  lemma InsertNoLeaf(tree: Entries, parts: Path, entry: Entries)
    requires SafePath(parts)
    ensures IsLeaf(Insert(tree, parts, entry)) == IsLeaf(tree)
  {
  }

  /** An insertion adds its own file and changes no other. */
  lemma {:induction false} InsertThenLookup(tree: Entries, parts: Path, entry: Entries, path: Path, fuel: nat)
    requires SafePath(parts) && Fits(tree, parts) && |parts| <= fuel
    ensures LeafAt(Insert(tree, parts, entry), path, fuel) == if path == parts then Some(entry) else LeafAt(tree, path, fuel)
    decreases |parts|
  {
    if path != [] && path[0] == parts[0] {
      assert parts == [parts[0]] + parts[1..] && path == [path[0]] + path[1..];
      if |parts| > 1 {
        InnerFits(tree, parts);
        InsertNoLeaf(SubTree(tree, parts[0]), parts[1..], entry);
        InsertThenLookup(SubTree(tree, parts[0]), parts[1..], entry, path[1..], fuel - 1);
      }
    }
  }

  lemma {:induction false} InsertNoBadName(tree: Entries, parts: Path, entry: Entries, path: Path, fuel: nat)
    requires SafePath(parts) && Fits(tree, parts) && BadName(Insert(tree, parts, entry), path, fuel)
    ensures BadName(tree, path, fuel)
    decreases |parts|
  {
    if path[0] == parts[0] && |parts| > 1 {
      InnerFits(tree, parts);
      InsertNoLeaf(SubTree(tree, parts[0]), parts[1..], entry);
      InsertNoBadName(SubTree(tree, parts[0]), parts[1..], entry, path[1..], fuel - 1);
    }
  }

  // ---- Round trip ----

  datatype Placed = Placed(path: Path, entry: Entries)

  function InsertAll(tree: Entries, files: seq<Placed>): Entries
    decreases |files|
  {
    if files == [] then tree else InsertAll(Insert(tree, files[0].path, files[0].entry), files[1..])
  }

  function Listing(files: seq<Placed>): (r: seq<FileEntry>)
    ensures |r| == |files|
    ensures forall i :: 0 <= i < |r| ==> r[i] == FileEntry(files[i].path, EntryLength(files[i].entry))
  {
    if files == [] then []
    else [FileEntry(files[0].path, EntryLength(files[0].entry))] + Listing(files[1..])
  }

  /** Safe paths of bounded depth, none leading to or through another. */
  ghost predicate Placeable(files: seq<Placed>) {
    && (forall i :: 0 <= i < |files| ==> SafePath(files[i].path) && |files[i].path| <= MAX_DEPTH + 1)
    && forall i, j :: 0 <= i < j < |files| ==> Apart(files[i].path, files[j].path)
  }

  ghost predicate AllFit(tree: Entries, files: seq<Placed>) {
    forall i :: 0 <= i < |files| ==> Fits(tree, files[i].path)
  }

  lemma StillFit(tree: Entries, files: seq<Placed>)
    requires files != [] && Placeable(files) && AllFit(tree, files)
    ensures Placeable(files[1..])
    ensures AllFit(Insert(tree, files[0].path, files[0].entry), files[1..])
  {
    forall i | 0 < i < |files|
      ensures Fits(Insert(tree, files[0].path, files[0].entry), files[i].path)
    {
      InsertKeepsFit(tree, files[0].path, files[0].entry, files[i].path);
    }
  }

  lemma {:induction false} OthersUnchanged(tree: Entries, files: seq<Placed>, path: Path)
    requires Placeable(files) && AllFit(tree, files)
    requires forall i :: 0 <= i < |files| ==> files[i].path != path
    ensures LeafAt(InsertAll(tree, files), path, MAX_DEPTH + 1) == LeafAt(tree, path, MAX_DEPTH + 1)
    decreases |files|
  {
    if files != [] {
      StillFit(tree, files);
      InsertThenLookup(tree, files[0].path, files[0].entry, path, MAX_DEPTH + 1);
      OthersUnchanged(Insert(tree, files[0].path, files[0].entry), files[1..], path);
    }
  }

  lemma {:induction false} EachIsFound(tree: Entries, files: seq<Placed>, i: nat)
    requires Placeable(files) && AllFit(tree, files) && i < |files|
    ensures LeafAt(InsertAll(tree, files), files[i].path, MAX_DEPTH + 1) == Some(files[i].entry)
    decreases |files|
  {
    var next := Insert(tree, files[0].path, files[0].entry);
    StillFit(tree, files);
    if i == 0 {
      InsertThenLookup(tree, files[0].path, files[0].entry, files[0].path, MAX_DEPTH + 1);
      OthersUnchanged(next, files[1..], files[0].path);
    } else {
      EachIsFound(next, files[1..], i - 1);
    }
  }

  lemma {:induction false} NoBadNames(tree: Entries, files: seq<Placed>, path: Path)
    requires Placeable(files) && AllFit(tree, files) && BadName(InsertAll(tree, files), path, MAX_DEPTH + 1)
    ensures BadName(tree, path, MAX_DEPTH + 1)
    decreases |files|
  {
    if files != [] {
      StillFit(tree, files);
      NoBadNames(Insert(tree, files[0].path, files[0].entry), files[1..], path);
      InsertNoBadName(tree, files[0].path, files[0].entry, path, MAX_DEPTH + 1);
    }
  }

  lemma {:induction false} SingleCount<T>(s: seq<T>, x: T)
    requires NoDup(s)
    ensures multiset(s)[x] == if x in s then 1 else 0
  {
    if s != [] {
      SingleCount(s[1..], x);
      assert s == [s[0]] + s[1..];
    }
  }

  /** Two lists without repetition and with the same members are permutations of each other. */
  lemma SameMembers<T>(a: seq<T>, b: seq<T>)
    requires NoDup(a) && NoDup(b) && forall x :: x in a <==> x in b
    ensures multiset(a) == multiset(b)
  {
    forall x: T
      ensures multiset(a)[x] == multiset(b)[x]
    {
      SingleCount(a, x);
      SingleCount(b, x);
    }
  }

  lemma PlacedOnce(files: seq<Placed>)
    requires Placeable(files)
    ensures NoDup(Listing(files))
  {
  }

  /** A found file has a safe path of bounded depth, and no other file lies below it. */
  lemma {:induction false} FoundIsSafe(tree: Entries, path: Path, fuel: nat)
    requires Lookup(tree, path, fuel).Some? && !HasBadName(tree, fuel)
    ensures SafePath(path) && |path| <= fuel
    decreases fuel
  {
    var node := tree[path[0]].entries;
    assert BadName(tree, [path[0]], fuel) <==> !SafeComponent(path[0]);
    if !IsLeaf(node) {
      assert HasBadName(node, fuel - 1) ==> HasBadName(tree, fuel) by {
        if HasBadName(node, fuel - 1) {
          UnsafeInside(tree, fuel, path[0]);
        }
      }
      FoundIsSafe(node, path[1..], fuel - 1);
    }
  }

  lemma {:induction false} FoundAreApart(tree: Entries, p: Path, q: Path, fuel: nat)
    requires Lookup(tree, p, fuel).Some? && Lookup(tree, q, fuel).Some? && p <= q
    ensures p == q
    decreases fuel
  {
    assert p[0] == q[0] && p == [p[0]] + p[1..] && q == [q[0]] + q[1..];
    if !IsLeaf(tree[p[0]].entries) {
      FoundAreApart(tree[p[0]].entries, p[1..], q[1..], fuel - 1);
    }
  }

  lemma RoundTripWhenPlaceable(files: seq<Placed>, r: Option<seq<FileEntry>>)
    requires Placeable(files) && IsWalk(InsertAll(map[], files), [], MAX_DEPTH + 1, r)
    ensures r.Some? && multiset(r.value) == multiset(Listing(files))
  {
    var tree := InsertAll(map[], files);
    assert !HasBadName(tree, MAX_DEPTH + 1) by {
      if HasBadName(tree, MAX_DEPTH + 1) {
        var path :| BadName(tree, path, MAX_DEPTH + 1);
        NoBadNames(map[], files, path);
      }
    }
    PlacedOnce(files);
    forall f: FileEntry
      ensures IsFileOf(tree, [], MAX_DEPTH + 1, f) <==> f in Listing(files)
    {
      assert f.path[0..] == f.path;
      if i :| 0 <= i < |files| && files[i].path == f.path {
        EachIsFound(map[], files, i);
        assert Listing(files)[i] == f || f !in Listing(files);
      } else {
        OthersUnchanged(map[], files, f.path);
      }
    }
    SameMembers(r.value, Listing(files));
  }

  lemma ListedIsFound(files: seq<Placed>, tree: Entries, r: seq<FileEntry>, i: nat)
    requires IsWalk(tree, [], MAX_DEPTH + 1, Some(r)) && i < |files|
    requires multiset(r) == multiset(Listing(files))
    ensures Lookup(tree, files[i].path, MAX_DEPTH + 1) == Some(EntryLength(files[i].entry))
  {
    var f := Listing(files)[i];
    assert f in multiset(r);
    assert IsFileOf(tree, [], MAX_DEPTH + 1, f) && f.path[0..] == f.path;
  }

  lemma {:induction false} TwoCopies<T>(s: seq<T>, i: nat, j: nat)
    requires i < j < |s| && s[i] == s[j]
    ensures multiset(s)[s[i]] >= 2
  {
    assert s == s[..j] + s[j..];
    assert s[..j][i] in multiset(s[..j]) && s[j..][0] in multiset(s[j..]);
  }

  lemma PlaceableWhenRoundTrip(files: seq<Placed>, tree: Entries, r: seq<FileEntry>)
    requires IsWalk(tree, [], MAX_DEPTH + 1, Some(r)) && multiset(r) == multiset(Listing(files))
    ensures Placeable(files)
  {
    forall i | 0 <= i < |files|
      ensures SafePath(files[i].path) && |files[i].path| <= MAX_DEPTH + 1
    {
      ListedIsFound(files, tree, r, i);
      FoundIsSafe(tree, files[i].path, MAX_DEPTH + 1);
    }
    forall i, j | 0 <= i < j < |files|
      ensures Apart(files[i].path, files[j].path)
    {
      var p, q := files[i].path, files[j].path;
      ListedIsFound(files, tree, r, i);
      ListedIsFound(files, tree, r, j);
      if p <= q || q <= p {
        if p <= q {
          FoundAreApart(tree, p, q, MAX_DEPTH + 1);
        } else {
          FoundAreApart(tree, q, p, MAX_DEPTH + 1);
        }
        TwoCopies(Listing(files), i, j);
        SingleCount(r, Listing(files)[i]);
        assert false;
      }
    }
  }

  /**
   * Reading back what was inserted returns exactly those paths and lengths, for any map iteration
   * order, if and only if the paths are safe, at most 65 components long, and none is another or a prefix of another.
   */
  lemma FileTreeRoundTrip(files: seq<Placed>, r: Option<seq<FileEntry>>)
    requires IsWalk(InsertAll(map[], files), [], MAX_DEPTH + 1, r)
    ensures Placeable(files) <==> r.Some? && multiset(r.value) == multiset(Listing(files))
  {
    if Placeable(files) {
      RoundTripWhenPlaceable(files, r);
    } else if r.Some? && multiset(r.value) == multiset(Listing(files)) {
      PlaceableWhenRoundTrip(files, InsertAll(map[], files), r.value);
    }
  }
}
