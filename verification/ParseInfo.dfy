/** Reading an info dict: parseInfoMap in internal/torrent/parse.go. */
module ParseInfo {
  import opened Common
  import opened FileTree

  datatype Meta = Meta(name: string, pieceLength: int, pieces: Option<string>, pieceCount: int,
                       files: seq<FileEntry>, totalSize: int)

  /** Go's integer division by a positive number: toward zero. */
  function TruncDiv(a: int, b: int): int
    requires b > 0
  {
    if a >= 0 then a / b else -((-a) / b)
  }

  function Total(files: seq<FileEntry>): int {
    if files == [] then 0 else files[0].length + Total(files[1..])
  }

  lemma {:induction false} TotalAppend(a: seq<FileEntry>, b: seq<FileEntry>)
    ensures Total(a + b) == Total(a) + Total(b)
  {
    if a == [] {
      assert a + b == b;
    } else {
      assert (a + b)[1..] == a[1..] + b;
      TotalAppend(a[1..], b);
    }
  }

  lemma TotalNext(files: seq<FileEntry>, file: FileEntry)
    ensures Total(files + [file]) == Total(files) + file.length
  {
    TotalAppend(files, [file]);
    assert Total([file]) == file.length + Total([]);
  }

  lemma WithoutOne<T>(s: seq<T>, i: nat)
    requires i < |s|
    ensures multiset(s[..i] + s[i + 1..]) == multiset(s) - multiset{s[i]}
  {
    assert s == s[..i] + ([s[i]] + s[i + 1..]);
  }

  lemma WithoutFirst<T>(s: seq<T>)
    requires s != []
    ensures multiset(s[1..]) == multiset(s) - multiset{s[0]}
  {
    assert s == [s[0]] + s[1..];
  }

  lemma SplitAt<T>(s: seq<T>, i: nat)
    requires i < |s|
    ensures s == (s[..i] + [s[i]]) + s[i + 1..]
  {
  }

  lemma TotalWithout(s: seq<FileEntry>, i: nat)
    requires i < |s|
    ensures Total(s) == s[i].length + Total(s[..i] + s[i + 1..])
  {
    var before, after := s[..i], s[i + 1..];
    SplitAt(s, i);
    TotalAppend(before + [s[i]], after);
    TotalNext(before, s[i]);
    TotalAppend(before, after);
  }

  /** The total does not depend on the order of the walk. */
  lemma {:induction false} TotalOfPermutation(a: seq<FileEntry>, b: seq<FileEntry>)
    requires multiset(a) == multiset(b)
    ensures Total(a) == Total(b)
    decreases |a|
  {
    assert |a| == |multiset(a)| == |multiset(b)| == |b|;
    if a != [] {
      assert a[0] in multiset(b);
      var i :| 0 <= i < |b| && b[i] == a[0];
      WithoutFirst(a);
      WithoutOne(b, i);
      TotalOfPermutation(a[1..], b[..i] + b[i + 1..]);
      TotalWithout(b, i);
    }
  }

  // ---- The v1 layout ----

  function Texts(items: seq<Value>): Path {
    if items == [] then [] else (if items[0].Text? then [items[0].s] else []) + Texts(items[1..])
  }

  datatype Listed = Ignored | Refused | Kept(file: FileEntry)

  /** One item of the `files` list. */
  function ReadListed(item: Value): Listed {
    if !item.Dict? then Ignored
    else
      var length := EntryLength(item.entries);
      if "path" in item.entries && item.entries["path"].List? then
        var parts := Texts(item.entries["path"].items);
        if SafePath(parts) then Kept(FileEntry(parts, length)) else Refused
      else Kept(FileEntry([], length))
  }

  function ListedFiles(items: seq<Value>): seq<FileEntry> {
    if items == [] then []
    else (if ReadListed(items[0]).Kept? then [ReadListed(items[0]).file] else []) + ListedFiles(items[1..])
  }

  lemma {:induction false} ListedNext(items: seq<Value>, i: nat)
    requires i < |items|
    ensures ReadListed(items[i]).Kept? ==> ListedFiles(items[..i + 1]) == ListedFiles(items[..i]) + [ReadListed(items[i]).file]
    ensures !ReadListed(items[i]).Kept? ==> ListedFiles(items[..i + 1]) == ListedFiles(items[..i])
  {
    if i == 0 {
      assert items[..1][1..] == [];
    } else {
      ListedNext(items[1..], i - 1);
      assert items[..i + 1][1..] == items[1..][..i] && items[..i][1..] == items[1..][..i - 1];
    }
  }

  lemma {:induction false} TextsNext(items: seq<Value>, i: nat)
    requires i < |items|
    ensures Texts(items[..i + 1]) == Texts(items[..i]) + (if items[i].Text? then [items[i].s] else [])
  {
    if i == 0 {
      assert items[..1][1..] == [];
    } else {
      TextsNext(items[1..], i - 1);
      assert items[..i + 1][1..] == items[1..][..i] && items[..i][1..] == items[1..][..i - 1];
    }
  }

  predicate HasText(info: Entries, key: string) {
    key in info && info[key].Text?
  }

  predicate HasInt(info: Entries, key: string) {
    key in info && info[key].Int?
  }

  function Name(info: Entries): string {
    if HasText(info, "name") then info["name"].s else ""
  }

  function ListItems(info: Entries): seq<Value> {
    if "files" in info && info["files"].List? then info["files"].items else []
  }

  /** A `length` gives one file called by the name, a `files` list adds its own. */
  function V1Files(info: Entries): seq<FileEntry> {
    (if HasInt(info, "length") then [FileEntry([Name(info)], info["length"].i)] else []) + ListedFiles(ListItems(info))
  }

  ghost predicate V1Safe(info: Entries) {
    && (HasInt(info, "length") ==> SafeComponent(Name(info)))
    && forall i :: 0 <= i < |ListItems(info)| ==> !ReadListed(ListItems(info)[i]).Refused?
  }

  // ---- What an info dict says ----

  predicate HeaderOk(info: Entries) {
    && HasInt(info, "piece length") && info["piece length"].i > 0
    && (HasText(info, "pieces") ==> |info["pieces"].s| % 20 == 0)
  }

  /** The files an info dict describes; the file tree speaks only when the v1 fields name no file. */
  ghost predicate IsLayout(info: Entries, files: seq<FileEntry>) {
    && V1Safe(info)
    && if V1Files(info) != [] then files == V1Files(info)
       else if HasNode(info, "file tree") then IsWalk(info["file tree"].entries, [], MAX_DEPTH + 1, Some(files))
       else files == []
  }

  /** The hash count is the number of pieces of the total size. */
  predicate CountOk(info: Entries, files: seq<FileEntry>)
    requires HeaderOk(info)
  {
    var len := info["piece length"].i;
    HasText(info, "pieces") && files != [] ==> |info["pieces"].s| / 20 == TruncDiv(Total(files) + len - 1, len)
  }

  ghost predicate Acceptable(info: Entries, files: seq<FileEntry>) {
    HeaderOk(info) && IsLayout(info, files) && CountOk(info, files)
  }

  ghost predicate Describes(info: Entries, meta: Meta)
    requires HeaderOk(info)
  {
    && meta.name == Name(info) && meta.pieceLength == info["piece length"].i
    && meta.pieces == (if HasText(info, "pieces") then Some(info["pieces"].s) else None)
    && meta.totalSize == Total(meta.files)
    && meta.pieceCount == FinalCount(meta)
  }

  /** The hashes decide, unless there are none. */
  function FinalCount(meta: Meta): int
  {
    var hashes := if meta.pieces.Some? then |meta.pieces.value| / 20 else 0;
    if hashes == 0 && meta.totalSize > 0 && meta.pieceLength > 0
    then TruncDiv(meta.totalSize + meta.pieceLength - 1, meta.pieceLength)
    else hashes
  }

  /** The answer that the info dict determines, up to the order of a walk. */
  ghost predicate IsParse(info: Entries, r: Option<Meta>) {
    match r
    case Some(meta) => Acceptable(info, meta.files) && Describes(info, meta)
    case None => forall files :: !Acceptable(info, files)
  }

  // ---- parseInfoMap ----

  method ReadTexts(items: seq<Value>) returns (parts: Path)
    ensures parts == Texts(items)
  {
    parts := [];
    for i := 0 to |items|
      invariant parts == Texts(items[..i])
    {
      TextsNext(items, i);
      if items[i].Text? {
        parts := parts + [items[i].s];
      }
    }
    assert items[..|items|] == items;
  }

  method ReadItem(item: Value) returns (listed: Listed)
    ensures listed == ReadListed(item)
  {
    if !item.Dict? {
      return Ignored;
    }
    var fe := FileEntry([], 0);
    if HasInt(item.entries, "length") {
      fe := fe.(length := item.entries["length"].i);
    }
    if "path" in item.entries && item.entries["path"].List? {
      var parts := ReadTexts(item.entries["path"].items);
      var path := SafeJoin(parts);
      if path.None? {
        return Refused;
      }
      fe := fe.(path := parts);
    }
    listed := Kept(fe);
  }

  /** The loop over the `files` list. */
  method ReadFiles(items: seq<Value>, files0: seq<FileEntry>, total0: int)
    returns (ok: bool, files: seq<FileEntry>, total: int)
    ensures ok <==> forall i :: 0 <= i < |items| ==> !ReadListed(items[i]).Refused?
    ensures ok ==> files == files0 + ListedFiles(items) && total == total0 + Total(ListedFiles(items))
  {
    files, total := files0, total0;
    for i := 0 to |items|
      invariant forall k :: 0 <= k < i ==> !ReadListed(items[k]).Refused?
      invariant files == files0 + ListedFiles(items[..i]) && total == total0 + Total(ListedFiles(items[..i]))
    {
      ListedNext(items, i);
      var listed := ReadItem(items[i]);
      if listed.Refused? {
        return false, [], 0;
      }
      if listed.Kept? {
        TotalNext(ListedFiles(items[..i]), listed.file);
        files := files + [listed.file];
        total := total + listed.file.length;
      }
    }
    assert items[..|items|] == items;
    ok := true;
  }

  /** The `length` field and then the `files` list. */
  method ReadV1(info: Entries, name: string) returns (ok: bool, files: seq<FileEntry>, total: int)
    requires name == Name(info)
    ensures ok == V1Safe(info)
    ensures ok ==> files == V1Files(info) && total == Total(files)
  {
    files, total := [], 0;
    if HasInt(info, "length") {
      var path := SafeJoin([name]);
      if path.None? {
        assert !SafeComponent([name][0]);
        return false, [], 0;
      }
      assert SafeComponent([name][0]);
      total := info["length"].i;
      files := [FileEntry([name], info["length"].i)];
    }
    assert HasInt(info, "length") ==> SafeComponent(Name(info));
    ok := true;
    if "files" in info && info["files"].List? {
      assert ListItems(info) == info["files"].items;
      TotalAppend(files, ListedFiles(info["files"].items));
      ok, files, total := ReadFiles(info["files"].items, files, total);
    }
  }

  lemma LayoutsAgree(info: Entries, a: seq<FileEntry>, b: seq<FileEntry>)
    requires IsLayout(info, a) && IsLayout(info, b)
    ensures multiset(a) == multiset(b) && Total(a) == Total(b) && (a == [] <==> b == [])
  {
    if V1Files(info) == [] && HasNode(info, "file tree") {
      SameMembers(a, b);
      assert |multiset(a)| == |a| && |multiset(b)| == |b|;
    }
    TotalOfPermutation(a, b);
  }

  lemma RejectedByCount(info: Entries, files: seq<FileEntry>)
    requires HeaderOk(info) && IsLayout(info, files) && !CountOk(info, files)
    ensures IsParse(info, None)
  {
    forall other
      ensures !Acceptable(info, other)
    {
      if IsLayout(info, other) {
        LayoutsAgree(info, files, other);
      }
    }
  }

  /** The v1 fields and then, if they name no file, the file tree. */
  method ReadLayout(info: Entries, name: string) returns (ok: bool, files: seq<FileEntry>, total: int)
    requires name == Name(info)
    ensures ok ==> IsLayout(info, files) && total == Total(files)
    ensures !ok ==> forall other :: !IsLayout(info, other)
  {
    ok, files, total := ReadV1(info, name);
    if ok && |files| == 0 && HasNode(info, "file tree") {
      var walk := Walk(info["file tree"].entries, [], 0);
      if walk.None? {
        return false, [], 0;
      }
      files := walk.value;
      total := AddLengths(files, total);
    }
  }

  method ParseInfoMap(info: Entries) returns (r: Option<Meta>)
    ensures IsParse(info, r)
  {
    var meta := Meta("", 0, None, 0, [], 0);
    if HasText(info, "name") {
      meta := meta.(name := info["name"].s);
    }
    if !HasInt(info, "piece length") || info["piece length"].i <= 0 {
      return None;
    }
    var len := info["piece length"].i;
    meta := meta.(pieceLength := len);
    if HasText(info, "pieces") {
      if |info["pieces"].s| % 20 != 0 {
        return None;
      }
      meta := meta.(pieces := Some(info["pieces"].s), pieceCount := |info["pieces"].s| / 20);
    }
    var ok, files, total := ReadLayout(info, meta.name);
    if !ok {
      return None;
    }
    meta := meta.(files := files, totalSize := total);
    if meta.pieces.Some? && |meta.files| > 0 {
      var want := TruncDiv(meta.totalSize + len - 1, len);
      if meta.pieceCount != want {
        RejectedByCount(info, meta.files);
        return None;
      }
    }
    if meta.pieceCount == 0 && meta.totalSize > 0 {
      meta := meta.(pieceCount := TruncDiv(meta.totalSize + len - 1, len));
    }
    r := Some(meta);
  }

  method AddLengths(files: seq<FileEntry>, start: int) returns (total: int)
    ensures total == start + Total(files)
  {
    total := start;
    for i := 0 to |files|
      invariant total == start + Total(files[..i])
    {
      assert files[..i + 1] == files[..i] + [files[i]];
      TotalNext(files[..i], files[i]);
      total := total + files[i].length;
    }
    assert files[..|files|] == files;
  }

  // ---- What acceptance means ----

  /** The sizes add up, and with sizes that are not negative the piece count is the number of pieces, twenty hash bytes for each. */
  lemma AcceptedIsConsistent(info: Entries, meta: Meta)
    requires IsParse(info, Some(meta)) && meta.files != []
    requires forall i :: 0 <= i < |meta.files| ==> meta.files[i].length >= 0
    ensures meta.totalSize == Total(meta.files) >= 0 && meta.pieceLength > 0
    ensures meta.pieceCount == CeilDiv(meta.totalSize, meta.pieceLength)
    ensures meta.pieces.Some? ==> |meta.pieces.value| == 20 * meta.pieceCount
  {
    TotalNotNegative(meta.files);
    var size, len := meta.totalSize, meta.pieceLength;
    CeilDivBounds(size, len);
    if size > 0 {
      PieceExists(size, len, 0);
    } else {
      SameQuotient(len - 1, len, 0);
    }
  }

  lemma {:induction false} TotalNotNegative(files: seq<FileEntry>)
    requires forall i :: 0 <= i < |files| ==> files[i].length >= 0
    ensures Total(files) >= 0
  {
    if files != [] {
      TotalNotNegative(files[1..]);
    }
  }

  // ---- Which fields speak ----

  /** The v1 fields win: once they name a file, the file tree decides nothing. */
  lemma TreeIsIgnored(info: Entries, tree: Value, r: Option<Meta>)
    requires V1Files(info) != []
    ensures IsParse(info, r) <==> IsParse(info["file tree" := tree], r)
  {
    var other := info["file tree" := tree];
    assert ListItems(other) == ListItems(info) && Name(other) == Name(info) && V1Files(other) == V1Files(info);
    assert V1Safe(other) == V1Safe(info) && HeaderOk(other) == HeaderOk(info);
    assert forall files :: Acceptable(info, files) <==> Acceptable(other, files);
  }

  /** A v2 info dict: when the v1 fields name no file, the files are those of a well placed file tree. */
  lemma TreeAloneParses(info: Entries, placed: seq<Placed>, walk: Option<seq<FileEntry>>, r: Option<Meta>)
    requires IsParse(info, r) && HeaderOk(info) && !HasText(info, "pieces") && !HasInt(info, "length") && ListItems(info) == []
    requires "file tree" in info && info["file tree"] == Dict(InsertAll(map[], placed)) && Placeable(placed)
    requires IsWalk(InsertAll(map[], placed), [], MAX_DEPTH + 1, walk)
    ensures r.Some? && multiset(r.value.files) == multiset(Listing(placed)) && r.value.pieces == None
  {
    FileTreeRoundTrip(placed, walk);
    assert IsLayout(info, walk.value);
    assert Acceptable(info, walk.value);
    FileTreeRoundTrip(placed, Some(r.value.files));
  }

  /** A `length` and a `files` list add up: the named file comes first, then the listed ones. */
  lemma BothFieldsSpeak(info: Entries, meta: Meta)
    requires IsParse(info, Some(meta)) && HasInt(info, "length")
    ensures meta.files == [FileEntry([meta.name], info["length"].i)] + ListedFiles(ListItems(info))
    ensures meta.totalSize == info["length"].i + Total(ListedFiles(ListItems(info)))
  {
    TotalAppend([FileEntry([meta.name], info["length"].i)], ListedFiles(ListItems(info)));
    assert Total([]) == 0;
  }

  /** Parts of a path that are no strings are passed over. */
  lemma {:induction false} StrayPartsAreIgnored(before: seq<Value>, stray: Value, after: seq<Value>)
    requires !stray.Text?
    ensures Texts(before + [stray] + after) == Texts(before + after)
  {
    if before == [] {
      assert [] + [stray] + after == [stray] + after && ([stray] + after)[1..] == after && [] + after == after;
    } else {
      assert (before + [stray] + after)[1..] == before[1..] + [stray] + after && (before + after)[1..] == before[1..] + after;
      StrayPartsAreIgnored(before[1..], stray, after);
    }
  }

  /** Items of the `files` list that are no dicts are passed over. */
  lemma {:induction false} StrayItemsAreIgnored(before: seq<Value>, stray: Value, after: seq<Value>)
    requires !stray.Dict?
    ensures ListedFiles(before + [stray] + after) == ListedFiles(before + after)
  {
    if before == [] {
      assert [] + [stray] + after == [stray] + after && ([stray] + after)[1..] == after && [] + after == after;
    } else {
      assert (before + [stray] + after)[1..] == before[1..] + [stray] + after && (before + after)[1..] == before[1..] + after;
      StrayItemsAreIgnored(before[1..], stray, after);
    }
  }

  /** Two parses of the same info dict can differ only in the order of the files. */
  lemma ParseIsDetermined(info: Entries, r1: Option<Meta>, r2: Option<Meta>)
    requires IsParse(info, r1) && IsParse(info, r2)
    ensures r1.Some? <==> r2.Some?
    ensures r1.Some? ==> multiset(r1.value.files) == multiset(r2.value.files) && r1.value.(files := []) == r2.value.(files := [])
  {
    if r1.Some? && r2.Some? {
      LayoutsAgree(info, r1.value.files, r2.value.files);
    }
  }
}
