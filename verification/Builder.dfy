/** Building an info dict, and that the parser accepts it: internal/torrent/torrent.go and internal/torrent/parse.go. */
module Builder {
  import opened Common
  import opened Merkle
  import opened Hashing
  import opened FileTree
  import opened ParseInfo

  /** Bytes as a Go string and back. */
  function AsString(b: Bytes): (s: string)
    ensures |s| == |b|
    ensures forall i :: 0 <= i < |s| ==> s[i] as int == b[i]
  {
    seq(|b|, i requires 0 <= i < |b| => b[i] as char)
  }

  function AsBytes(s: string): (b: Bytes)
    ensures |b| == |s|
  {
    seq(|s|, i requires 0 <= i < |s| => s[i] as int % 256)
  }

  lemma StringRoundTrip(b: Bytes)
    ensures AsBytes(AsString(b)) == b
  {
  }

  /** A file found by the directory walk. It is read twice: once on its own and once for the running v1 hash. */
  datatype DiskFile = DiskFile(path: Path, size: nat, alone: Source, running: Source)

  datatype Built = Built(tree: Entries, v1Files: seq<Value>, pieces: Bytes, layers: map<string, string>)

  predicate Unreadable(f: DiskFile) {
    (f.size > 0 && f.alone.fails) || f.running.fails
  }

  function EntryOf(r: FileResult): Entries {
    match r.root
    case None => map["length" := Int(r.size)]
    case Some(root) => map["length" := Int(r.size), "pieces root" := Text(AsString(root))]
  }

  function AsTexts(path: Path): (r: seq<Value>)
    ensures |r| == |path| && forall k :: 0 <= k < |r| ==> r[k] == Text(path[k])
  {
    if path == [] then [] else [Text(path[0])] + AsTexts(path[1..])
  }

  function V1Item(f: DiskFile): Value {
    Dict(map["length" := Int(f.size), "path" := List(AsTexts(f.path))])
  }

  function AddLayer(layers: map<string, string>, r: FileResult): map<string, string> {
    if r.layer != [] && r.root.Some? then layers[AsString(r.root.value) := AsString(Flatten(r.layer))] else layers
  }

  function LayersOf(results: seq<FileResult>): map<string, string> {
    if results == [] then map[] else AddLayer(LayersOf(results[..|results| - 1]), results[|results| - 1])
  }

  /** The concatenation of all files, as the running hash saw it. */
  function AllContent(files: seq<DiskFile>): Bytes {
    if files == [] then [] else files[0].running.Content() + AllContent(files[1..])
  }

  lemma {:induction false} AllContentNext(files: seq<DiskFile>, i: nat)
    requires i < |files|
    ensures AllContent(files[..i + 1]) == AllContent(files[..i]) + files[i].running.Content()
  {
    if i == 0 {
      assert files[..1][1..] == [];
    } else {
      AllContentNext(files[1..], i - 1);
      assert files[..i + 1][1..] == files[1..][..i] && files[..i][1..] == files[1..][..i - 1];
    }
  }

  ghost predicate AllHashed(sha1: Hasher, h: Hasher, files: seq<DiskFile>, len: nat, results: seq<FileResult>)
    requires BlockSized(len)
  {
    && |results| <= |files|
    && forall i :: 0 <= i < |results| ==>
                     IsHashed(sha1, h, files[i].alone.Content(), files[i].size, len, results[i])
  }

  function Placements(files: seq<DiskFile>, results: seq<FileResult>): (r: seq<Placed>)
    requires |results| <= |files|
    ensures |r| == |results|
  {
    seq(|results|, i requires 0 <= i < |results| => Placed(files[i].path, EntryOf(results[i])))
  }

  function V1Items(files: seq<DiskFile>): (r: seq<Value>)
    ensures |r| == |files|
  {
    seq(|files|, i requires 0 <= i < |files| => V1Item(files[i]))
  }

  lemma {:induction false} InsertNext(tree: Entries, placed: seq<Placed>, next: Placed)
    ensures InsertAll(tree, placed + [next]) == Insert(InsertAll(tree, placed), next.path, next.entry)
    decreases |placed|
  {
    if placed == [] {
      assert ([] + [next])[1..] == [];
      assert InsertAll(Insert(tree, next.path, next.entry), []) == Insert(tree, next.path, next.entry);
    } else {
      assert (placed + [next])[1..] == placed[1..] + [next];
      InsertNext(Insert(tree, placed[0].path, placed[0].entry), placed[1..], next);
    }
  }

  ghost predicate IsBuilt(sha1: Hasher, files: seq<DiskFile>, len: nat, results: seq<FileResult>, built: Built)
    requires len > 0 && |results| <= |files|
  {
    && built.tree == InsertAll(map[], Placements(files, results))
    && built.v1Files == V1Items(files)
    && built.pieces == V1Pieces(sha1, AllContent(files), len)
    && built.layers == LayersOf(results)
  }

  /** The per-file part of what is built. */
  ghost predicate SoFar(files: seq<DiskFile>, results: seq<FileResult>, built: Built) {
    && |results| <= |files|
    && built.tree == InsertAll(map[], Placements(files, results))
    && built.v1Files == V1Items(files[..|results|])
    && built.layers == LayersOf(results)
  }

  function AddFile(built: Built, f: DiskFile, fr: FileResult): Built {
    Built(Insert(built.tree, f.path, EntryOf(fr)), built.v1Files + [V1Item(f)], built.pieces, AddLayer(built.layers, fr))
  }

  lemma ListNext(files: seq<DiskFile>, results: seq<FileResult>, built: Built, fr: FileResult)
    requires SoFar(files, results, built) && |results| < |files|
    ensures SoFar(files, results + [fr], AddFile(built, files[|results|], fr))
  {
    var i, next := |results|, results + [fr];
    InsertNext(map[], Placements(files, results), Placed(files[i].path, EntryOf(fr)));
    assert Placements(files, next) == Placements(files, results) + [Placed(files[i].path, EntryOf(fr))];
    assert next[..i] == results;
    assert V1Items(files[..i + 1]) == V1Items(files[..i]) + [V1Item(files[i])];
  }

  lemma HashedNext(sha1: Hasher, h: Hasher, files: seq<DiskFile>, len: nat, results: seq<FileResult>, fr: FileResult)
    requires BlockSized(len) && AllHashed(sha1, h, files, len, results) && |results| < |files|
    requires IsHashed(sha1, h, files[|results|].alone.Content(), files[|results|].size, len, fr)
    ensures AllHashed(sha1, h, files, len, results + [fr])
  {
  }

  ghost predicate Readable(files: seq<DiskFile>, n: nat) {
    n <= |files| && forall k :: 0 <= k < n ==> !Unreadable(files[k])
  }

  lemma ReadableNext(files: seq<DiskFile>, n: nat)
    requires Readable(files, n) && n < |files| && !Unreadable(files[n])
    ensures Readable(files, n + 1)
  {
  }

  /** buildDirHybrid over the files of the walk, in the order of their paths. */
  method BuildDirectory(sha1: Hasher, h: Hasher, files: seq<DiskFile>, len: nat)
    returns (r: Option<Built>, ghost results: seq<FileResult>)
    requires IsPowerOfTwo(len) && len >= BLOCK_SIZE
    ensures BlockSized(len)
    ensures r == None <==> files == [] || exists i :: 0 <= i < |files| && Unreadable(files[i])
    ensures r.Some? ==> |results| == |files| && AllHashed(sha1, h, files, len, results)
    ensures r.Some? ==> IsBuilt(sha1, files, len, results, r.value)
  {
    ghost var e := PowerOfTwoExponent(len);
    ghost var j := BlocksPerPiece(len, e);
    results := [];
    if |files| == 0 {
      return None, [];
    }
    var built := Built(map[], [], [], map[]);
    var pieces, pending, inPiece := [], [], 0;
    ghost var done: seq<Bytes> := [];
    var i := 0;
    while i < |files|
      invariant 0 <= i <= |files| && |results| == i && Readable(files, i)
      invariant AllHashed(sha1, h, files, len, results) && SoFar(files, results, built)
      invariant Streaming(sha1, AllContent(files[..i]), len, done, pieces, pending) && inPiece == |pending| < len
    {
      var fr := HashReader(sha1, h, files[i].alone, files[i].size, len);
      if fr.None? {
        return None, [];
      }
      HashedNext(sha1, h, files, len, results, fr.value);
      ListNext(files, results, built, fr.value);
      built := AddFile(built, files[i], fr.value);
      results := results + [fr.value];
      var ok;
      ok, pieces, pending, inPiece, done :=
        FeedFile(sha1, len, files[i].running, pieces, pending, inPiece, AllContent(files[..i]), done);
      if !ok {
        return None, [];
      }
      ReadableNext(files, i);
      AllContentNext(files, i);
      i := i + 1;
    }
    assert files[..i] == files;
    StreamFlush(sha1, AllContent(files), len, done, pieces, pending);
    if inPiece > 0 {
      pieces := pieces + sha1(pending);
    }
    r := Some(built.(pieces := pieces));
  }

  /** The v2 entry of a file: its length, and a root exactly if it is not empty. */
  ghost predicate DescribesFile(h: Hasher, content: Bytes, size: nat, root: Option<Bytes>, entry: Entries) {
    && (root.Some? <==> size > 0) && (root.Some? ==> IsPiecesRoot(h, content, root.value))
    && "length" in entry && entry["length"] == Int(size)
    && ("pieces root" in entry <==> root.Some?)
    && (root.Some? ==> entry["pieces root"] == Text(AsString(root.value)))
    && entry.Keys <= {"length", "pieces root"}
  }

  lemma EntryDescribesFile(sha1: Hasher, h: Hasher, content: Bytes, size: nat, len: nat, r: FileResult)
    requires BlockSized(len) && IsHashed(sha1, h, content, size, len, r)
    ensures DescribesFile(h, content, size, r.root, EntryOf(r))
  {
  }

  /**
   * Looking a file's path up in the built tree gives its length and, unless it is empty, the `pieces root` of its
   * content; a file of more than one piece whose size was right has a piece layer under that root.
   */
  lemma TreeHoldsRoots(sha1: Hasher, h: Hasher, files: seq<DiskFile>, len: nat, results: seq<FileResult>, built: Built, i: nat)
    requires BlockSized(len) && |results| == |files| && AllHashed(sha1, h, files, len, results) && i < |files|
    requires IsBuilt(sha1, files, len, results, built) && Placeable(Placements(files, results))
    ensures var entry := LeafAt(built.tree, files[i].path, MAX_DEPTH + 1);
            entry.Some? && DescribesFile(h, files[i].alone.Content(), files[i].size, results[i].root, entry.value)
    ensures CeilDiv(files[i].size, len) > 1 && files[i].size == |files[i].alone.Content()| ==>
              results[i].root.Some? && AsString(results[i].root.value) in built.layers
  {
    var content := files[i].alone.Content();
    assert IsHashed(sha1, h, content, files[i].size, len, results[i]);
    EntryDescribesFile(sha1, h, content, files[i].size, len, results[i]);
    EachIsFound(map[], Placements(files, results), i);
    if CeilDiv(files[i].size, len) > 1 && files[i].size == |content| {
      assert results[i].layer != [];
      var j := LayerIsStored(results, i);
    }
  }

  /** A root is a key of the layers exactly if some file with a piece layer has it; files of one piece or none add no key. */
  lemma {:induction false} LayerKeys(results: seq<FileResult>, key: string)
    ensures key in LayersOf(results) <==>
              exists i :: 0 <= i < |results| && results[i].layer != [] && results[i].root.Some? && key == AsString(results[i].root.value)
  {
    if results != [] {
      var n := |results| - 1;
      LayerKeys(results[..n], key);
      assert forall i :: 0 <= i < n ==> results[..n][i] == results[i];
    }
  }

  /** The same for one file: the tree of its info dict holds one name. */
  lemma SingleHoldsRoot(sha1: Hasher, h: Hasher, name: string, content: Bytes, size: nat, len: nat, fr: FileResult)
    requires BlockSized(len) && IsHashed(sha1, h, content, size, len, fr) && name != ""
    ensures var tree := SingleInfo(name, len, fr)["file tree"];
            && tree.Dict? && LeafAt(tree.entries, [name], MAX_DEPTH + 1).Some?
            && DescribesFile(h, content, size, fr.root, LeafAt(tree.entries, [name], MAX_DEPTH + 1).value)
  {
    EntryDescribesFile(sha1, h, content, size, len, fr);
  }

  /** Every file of more than one piece has its layer under its root; files with the same root share the entry. */
  lemma {:induction false} LayerIsStored(results: seq<FileResult>, i: nat) returns (j: nat)
    requires i < |results| && results[i].layer != [] && results[i].root.Some?
    ensures i <= j < |results| && results[j].root == results[i].root
    ensures AsString(results[i].root.value) in LayersOf(results)
    ensures LayersOf(results)[AsString(results[i].root.value)] == AsString(Flatten(results[j].layer))
  {
    var last := |results| - 1;
    if i == last {
      return i;
    }
    j := LayerIsStored(results[..last], i);
    if results[last].layer != [] && results[last].root.Some? &&
       AsString(results[last].root.value) == AsString(results[i].root.value) {
      StringRoundTrip(results[last].root.value);
      StringRoundTrip(results[i].root.value);
      j := last;
    }
  }

  // ---- The info dicts ----

  function DirectoryInfo(name: string, len: nat, built: Built): Entries {
    map["file tree" := Dict(built.tree), "files" := List(built.v1Files), "meta version" := Int(2),
        "name" := Text(name), "piece length" := Int(len), "pieces" := Text(AsString(built.pieces))]
  }

  function SingleInfo(name: string, len: nat, r: FileResult): Entries {
    map["file tree" := Dict(map[name := Leaf(EntryOf(r))]), "length" := Int(r.size), "meta version" := Int(2),
        "name" := Text(name), "piece length" := Int(len), "pieces" := Text(AsString(r.v1))]
  }

  datatype BuiltFile = BuiltFile(info: Entries, layers: map<string, string>)

  /** buildSingleFileHybrid: the info dict of one file, and its piece layer if it has more than one piece. */
  method BuildFile(sha1: Hasher, h: Hasher, name: string, source: Source, size: nat, len: nat)
    returns (r: Option<BuiltFile>, ghost fr: FileResult)
    requires IsPowerOfTwo(len) && len >= BLOCK_SIZE
    ensures BlockSized(len)
    ensures r == None <==> size > 0 && source.fails
    ensures r.Some? ==> IsHashed(sha1, h, source.Content(), size, len, fr)
    ensures r.Some? ==> r.value.info == SingleInfo(name, len, fr) && r.value.layers == LayersOf([fr])
    ensures r.Some? && CeilDiv(size, len) <= 1 ==> r.value.layers == map[]
    ensures r.Some? && CeilDiv(size, len) > 1 && size == |source.Content()| ==>
              fr.root.Some? && r.value.layers == map[AsString(fr.root.value) := AsString(Flatten(fr.layer))]
  {
    var hashed := HashReader(sha1, h, source, size, len);
    if hashed.None? {
      return None, FileResult(0, None, [], []);
    }
    fr := hashed.value;
    var info: Entries := map[];
    info := info["file tree" := Dict(map[name := Leaf(EntryOf(hashed.value))])];
    info := info["length" := Int(hashed.value.size)];
    info := info["meta version" := Int(2)];
    info := info["name" := Text(name)];
    info := info["piece length" := Int(len)];
    info := info["pieces" := Text(AsString(hashed.value.v1))];
    var layers := map[];
    if |hashed.value.layer| > 0 && hashed.value.root.Some? {
      layers := layers[AsString(hashed.value.root.value) := AsString(Flatten(hashed.value.layer))];
    }
    assert [fr][..0] == [] && LayersOf([]) == map[];
    return Some(BuiltFile(info, layers)), fr;
  }

  function FilesOf(files: seq<DiskFile>): (r: seq<FileEntry>)
    ensures |r| == |files|
    ensures forall i :: 0 <= i < |r| ==> r[i] == FileEntry(files[i].path, files[i].size)
  {
    if files == [] then [] else [FileEntry(files[0].path, files[0].size)] + FilesOf(files[1..])
  }

  function Sizes(files: seq<DiskFile>): nat {
    if files == [] then 0 else files[0].size + Sizes(files[1..])
  }

  lemma DirectoryFields(name: string, len: nat, built: Built, info: Entries)
    requires info == DirectoryInfo(name, len, built)
    ensures !HasInt(info, "length") && ListItems(info) == built.v1Files
    ensures HasInt(info, "piece length") && info["piece length"].i == len
    ensures HasText(info, "pieces") && info["pieces"].s == AsString(built.pieces)
    ensures Name(info) == name
  {
  }

  lemma {:induction false} TextsOfPath(path: Path)
    ensures Texts(AsTexts(path)) == path
  {
    if path != [] {
      TextsOfPath(path[1..]);
    }
  }

  lemma ItemIsRead(f: DiskFile)
    ensures ReadListed(V1Item(f)) == if SafePath(f.path) then Kept(FileEntry(f.path, f.size)) else Refused
  {
    TextsOfPath(f.path);
  }

  lemma {:induction false} ItemsAreRead(files: seq<DiskFile>)
    requires forall i :: 0 <= i < |files| ==> SafePath(files[i].path)
    ensures ListedFiles(V1Items(files)) == FilesOf(files) && Total(FilesOf(files)) == Sizes(files)
  {
    if files != [] {
      assert V1Items(files)[1..] == V1Items(files[1..]);
      ItemIsRead(files[0]);
      ItemsAreRead(files[1..]);
    }
  }

  lemma {:induction false} HashCount(sha1: Hasher, content: Bytes, len: nat)
    requires len > 0 && SizedHash(sha1, 20)
    ensures |AsString(V1Pieces(sha1, content, len))| % 20 == 0
    ensures |AsString(V1Pieces(sha1, content, len))| / 20 == CeilDiv(|content|, len)
  {
    V1PiecesLength(sha1, content, len);
  }

  /** The parser's cross-check is the builder's chunk count. */
  lemma TruncIsCeil(size: nat, len: nat)
    requires len > 0
    ensures TruncDiv(size + len - 1, len) == CeilDiv(size, len)
  {
  }

  /**
   * The parser accepts a built directory exactly when every path is safe and as many pieces were
   * hashed as the sizes announce, and reads back the same files.
   */
  lemma BuiltDirectoryParses(sha1: Hasher, name: string, files: seq<DiskFile>, len: nat, results: seq<FileResult>,
                             built: Built, r: Option<Meta>)
    requires len > 0 && SizedHash(sha1, 20) && files != [] && |results| == |files|
    requires IsBuilt(sha1, files, len, results, built)
    requires IsParse(DirectoryInfo(name, len, built), r)
    ensures r.Some? <==> (forall i :: 0 <= i < |files| ==> SafePath(files[i].path))
                         && CeilDiv(Sizes(files), len) == CeilDiv(|AllContent(files)|, len)
    ensures r.Some? ==> r.value.files == FilesOf(files) && r.value.totalSize == Sizes(files) && r.value.name == name
    ensures r.Some? ==> r.value.pieceLength == len && r.value.pieces == Some(AsString(V1Pieces(sha1, AllContent(files), len)))
  {
    var info := DirectoryInfo(name, len, built);
    DirectoryFields(name, len, built, info);
    HashCount(sha1, AllContent(files), len);
    if forall i :: 0 <= i < |files| ==> SafePath(files[i].path) {
      ItemsAreRead(files);
      DirectoryLayout(info, files);
      DecidedByCount(info, FilesOf(files), len, Sizes(files), r);
    } else {
      DirectoryRefused(info, files);
    }
  }

  /** With v1 files in good order, the hash count alone decides. */
  lemma DecidedByCount(info: Entries, files: seq<FileEntry>, len: nat, size: nat, r: Option<Meta>)
    requires IsParse(info, r) && V1Safe(info) && V1Files(info) == files != [] && Total(files) == size
    requires HeaderOk(info) && HasText(info, "pieces") && info["piece length"].i == len
    ensures r.Some? <==> |info["pieces"].s| / 20 == CeilDiv(size, len)
    ensures r.Some? ==> r.value.files == files && r.value.totalSize == size
    ensures r.Some? ==> r.value.pieceLength == len && r.value.pieces == Some(info["pieces"].s)
    ensures r.Some? ==> r.value.name == Name(info)
  {
    TruncIsCeil(size, len);
    assert IsLayout(info, files);
    assert r.None? ==> !Acceptable(info, files);
  }

  /** A file whose name holds a backslash can be built, but not parsed back. */
  lemma BackslashIsRefused(sha1: Hasher, name: string, files: seq<DiskFile>, len: nat, results: seq<FileResult>,
                           built: Built, r: Option<Meta>, i: nat)
    requires len > 0 && SizedHash(sha1, 20) && |results| == |files| && i < |files| && files[i].path == ["a\\b"]
    requires IsBuilt(sha1, files, len, results, built) && IsParse(DirectoryInfo(name, len, built), r)
    ensures r == None
  {
    BuiltDirectoryParses(sha1, name, files, len, results, built, r);
    BackslashIsUnsafe();
    assert !SafePath(files[i].path);
  }

  lemma BackslashIsUnsafe()
    ensures !SafePath(["a\\b"])
  {
    var parts := ["a\\b"];
    assert parts[0][1] == '\\';
    assert !SafeComponent(parts[0]);
  }

  lemma DirectoryLayout(info: Entries, files: seq<DiskFile>)
    requires files != [] && !HasInt(info, "length") && ListItems(info) == V1Items(files)
    requires forall i :: 0 <= i < |files| ==> SafePath(files[i].path)
    ensures V1Safe(info) && V1Files(info) == FilesOf(files)
  {
    ItemsAreRead(files);
    forall i | 0 <= i < |files|
      ensures !ReadListed(ListItems(info)[i]).Refused?
    {
      ItemIsRead(files[i]);
    }
  }

  lemma DirectoryRefused(info: Entries, files: seq<DiskFile>)
    requires ListItems(info) == V1Items(files)
    requires exists i :: 0 <= i < |files| && !SafePath(files[i].path)
    ensures !V1Safe(info)
  {
    var i :| 0 <= i < |files| && !SafePath(files[i].path);
    ItemIsRead(files[i]);
    assert ReadListed(ListItems(info)[i]).Refused?;
  }

  /** The same for one file, whose name becomes its path. */
  lemma BuiltFileParses(sha1: Hasher, h: Hasher, name: string, content: Bytes, size: nat, len: nat, fr: FileResult, r: Option<Meta>)
    requires BlockSized(len) && SizedHash(sha1, 20) && IsHashed(sha1, h, content, size, len, fr)
    requires IsParse(SingleInfo(name, len, fr), r)
    ensures r.Some? <==> SafeComponent(name) && (size > 0 ==> CeilDiv(size, len) == CeilDiv(|content|, len))
    ensures r.Some? ==> r.value.files == [FileEntry([name], size)] && r.value.totalSize == size
  {
    var info, files := SingleInfo(name, len, fr), [FileEntry([name], size)];
    HashCount(sha1, content, len);
    if size == 0 {
      SameQuotient(len - 1, len, 0);
    }
    assert ListItems(info) == [] && V1Files(info) == files;
    assert Total(files) == size + Total([]);
    if SafeComponent(name) {
      DecidedByCount(info, files, len, size, r);
    }
  }

  /**
   * The v2 file tree names the same files as the v1 list, for any map iteration order, exactly when the
   * paths are safe, at most 65 components long, and none is another or a prefix of another.
   */
  lemma TreeAgreesWithList(sha1: Hasher, h: Hasher, files: seq<DiskFile>, len: nat, results: seq<FileResult>, built: Built,
                           walk: Option<seq<FileEntry>>)
    requires BlockSized(len) && |results| == |files| && AllHashed(sha1, h, files, len, results)
    requires IsBuilt(sha1, files, len, results, built)
    requires IsWalk(built.tree, [], MAX_DEPTH + 1, walk)
    ensures Placeable(Placements(files, results)) <==> walk.Some? && multiset(walk.value) == multiset(FilesOf(files))
  {
    FileTreeRoundTrip(Placements(files, results), walk);
    SizesAgree(sha1, h, files, len, results);
    SameListing(files, results);
  }

  lemma EntryHasSize(r: FileResult)
    ensures EntryLength(EntryOf(r)) == r.size
  {
  }

  lemma SizesAgree(sha1: Hasher, h: Hasher, files: seq<DiskFile>, len: nat, results: seq<FileResult>)
    requires BlockSized(len) && AllHashed(sha1, h, files, len, results)
    ensures forall i :: 0 <= i < |results| ==> results[i].size == files[i].size
  {
  }

  lemma SameListing(files: seq<DiskFile>, results: seq<FileResult>)
    requires |results| == |files| && forall i :: 0 <= i < |results| ==> results[i].size == files[i].size
    ensures Listing(Placements(files, results)) == FilesOf(files)
  {
    forall i | 0 <= i < |results| {
      EntryHasSize(results[i]);
    }
  }
}
