/** The encoding of a built info dict against the limits that a torrent is validated with: internal/torrent/torrent.go, internal/torrent/parse.go and internal/bencode/validate.go. */
module InfoEncoding {
  import opened Common
  import opened Merkle
  import opened Hashing
  import opened FileTree
  import opened Builder
  import Validator
  import B = Bencode

  const MAX_DEPTH_LIMIT: nat := 64
  const MAX_STR: nat := 0x80_0000
  const MAX_LIST: nat := 0x2_0000
  const MAX_KEYS: nat := 0x4000

  /** TorrentLimits */
  const LIMITS := B.Limits(0x100_0000, MAX_DEPTH_LIMIT, MAX_STR, MAX_LIST, MAX_KEYS)

  // ---- Encodings of decoded values ----

  /** `b` is written for `v`; the entries of a dictionary come in any order. */
  ghost predicate Encodes(b: B.Value, v: Value)
    decreases b
  {
    match v
    case Int(i) => b == B.Int(i)
    case Text(s) => b == B.Str(AsBytes(s))
    case List(items) => b.List? && |b.items| == |items| && forall k :: 0 <= k < |items| ==> Encodes(b.items[k], items[k])
    case Dict(m) => b.Dict? && exists keys: seq<string> :: Lists(keys, m) && EncodesEntries(b.entries, keys, m)
  }

  /** Each key once, in some order. */
  ghost predicate Lists(keys: seq<string>, m: Entries) {
    NoDup(keys) && |keys| == |m| && forall k :: k in keys <==> k in m
  }

  ghost predicate EncodesEntries(es: seq<B.Entry>, keys: seq<string>, m: Entries)
    requires Lists(keys, m)
    decreases es
  {
    |es| == |keys| && forall i :: 0 <= i < |es| ==> es[i].key == AsBytes(keys[i]) && Encodes(es[i].value, m[keys[i]])
  }

  /** The value keeps the limits when it stands at nesting depth `depth`. */
  ghost predicate Allowed(v: Value, depth: nat)
    decreases v
  {
    match v
    case Int(_) => true
    case Text(s) => |s| <= MAX_STR
    case List(items) =>
      && depth + 1 <= MAX_DEPTH_LIMIT && |items| <= MAX_LIST
      && forall k :: 0 <= k < |items| ==> Allowed(items[k], depth + 1)
    case Dict(m) =>
      && depth + 1 <= MAX_DEPTH_LIMIT && |m| <= MAX_KEYS
      && forall k :: k in m ==> |k| <= MAX_STR && Allowed(m[k], depth + 1)
  }

  lemma {:induction false} ItemsWithinAll(items: seq<B.Value>, depth: nat)
    ensures B.ItemsWithin(items, depth, LIMITS) <==> forall k :: 0 <= k < |items| ==> B.Within(items[k], depth + 1, LIMITS)
  {
    if items != [] {
      ItemsWithinAll(items[1..], depth);
      assert forall k :: 0 < k < |items| ==> items[k] == items[1..][k - 1];
      assert forall k :: 0 <= k < |items| - 1 ==> items[1..][k] == items[k + 1];
    }
  }

  lemma {:induction false} EntriesWithinAll(entries: seq<B.Entry>, depth: nat)
    ensures B.EntriesWithin(entries, depth, LIMITS) <==> forall k :: 0 <= k < |entries| ==> B.EntryWithin(entries[k], depth, LIMITS)
  {
    if entries != [] {
      EntriesWithinAll(entries[1..], depth);
      assert forall k :: 0 < k < |entries| ==> entries[k] == entries[1..][k - 1];
      assert forall k :: 0 <= k < |entries| - 1 ==> entries[1..][k] == entries[k + 1];
    }
  }

  /** An encoding keeps the limits exactly when the value does. */
  lemma {:induction false} WithinIffAllowed(b: B.Value, v: Value, depth: nat)
    requires Encodes(b, v)
    ensures B.Within(b, depth, LIMITS) <==> Allowed(v, depth)
    decreases b
  {
    match v {
      case Int(_) =>
      case Text(_) =>
      case List(items) =>
        ItemsWithinAll(b.items, depth);
        forall k | 0 <= k < |items|
          ensures B.Within(b.items[k], depth + 1, LIMITS) <==> Allowed(items[k], depth + 1)
        {
          WithinIffAllowed(b.items[k], items[k], depth + 1);
        }
      case Dict(m) => DictWithinIffAllowed(b, m, depth);
    }
  }

  lemma {:induction false} DictWithinIffAllowed(b: B.Value, m: Entries, depth: nat)
    requires Encodes(b, Dict(m))
    ensures B.Within(b, depth, LIMITS) <==> Allowed(Dict(m), depth)
    decreases b, 0
  {
    var keys :| Lists(keys, m) && EncodesEntries(b.entries, keys, m);
    EntriesWithinAll(b.entries, depth);
    forall i | 0 <= i < |keys|
      ensures B.EntryWithin(b.entries[i], depth, LIMITS) <==> KeyAllowed(m, keys[i], depth)
    {
      WithinIffAllowed(b.entries[i].value, m[keys[i]], depth + 1);
    }
    AllEntriesAllKeys(b.entries, keys, m, depth);
    DictWithinUnfolds(b, depth);
    DictAllowedUnfolds(m, depth);
  }

  ghost predicate KeyAllowed(m: Entries, k: string, depth: nat)
    requires k in m
  {
    |k| <= MAX_STR && Allowed(m[k], depth + 1)
  }

  lemma AllEntriesAllKeys(es: seq<B.Entry>, keys: seq<string>, m: Entries, depth: nat)
    requires Lists(keys, m) && |es| == |keys|
    requires forall i :: 0 <= i < |keys| ==> (B.EntryWithin(es[i], depth, LIMITS) <==> KeyAllowed(m, keys[i], depth))
    ensures (forall i :: 0 <= i < |es| ==> B.EntryWithin(es[i], depth, LIMITS)) <==> forall k :: k in m ==> KeyAllowed(m, k, depth)
  {
    if forall i :: 0 <= i < |es| ==> B.EntryWithin(es[i], depth, LIMITS) {
      forall k | k in m
        ensures KeyAllowed(m, k, depth)
      {
        assert k in keys;
        var i :| 0 <= i < |keys| && keys[i] == k;
        assert B.EntryWithin(es[i], depth, LIMITS);
      }
    }
  }

  lemma DictWithinUnfolds(b: B.Value, depth: nat)
    requires b.Dict?
    ensures B.Within(b, depth, LIMITS)
            <==> depth + 1 <= MAX_DEPTH_LIMIT && |b.entries| <= MAX_KEYS && B.EntriesWithin(b.entries, depth, LIMITS)
  {
  }

  lemma DictAllowedUnfolds(m: Entries, depth: nat)
    ensures Allowed(Dict(m), depth)
            <==> depth + 1 <= MAX_DEPTH_LIMIT && |m| <= MAX_KEYS && forall k :: k in m ==> KeyAllowed(m, k, depth)
  {
  }

  // ---- Depth and fan-out apart ----

  /** Allowed but for the number of keys. */
  ghost predicate Shallow(v: Value, depth: nat)
    decreases v
  {
    match v
    case Int(_) => true
    case Text(s) => |s| <= MAX_STR
    case List(items) =>
      && depth + 1 <= MAX_DEPTH_LIMIT && |items| <= MAX_LIST
      && forall k :: 0 <= k < |items| ==> Shallow(items[k], depth + 1)
    case Dict(m) =>
      depth + 1 <= MAX_DEPTH_LIMIT && forall k :: k in m ==> |k| <= MAX_STR && Shallow(m[k], depth + 1)
  }

  ghost predicate Narrow(v: Value)
    decreases v
  {
    match v
    case Int(_) => true
    case Text(_) => true
    case List(items) => forall k :: 0 <= k < |items| ==> Narrow(items[k])
    case Dict(m) => |m| <= MAX_KEYS && forall k :: k in m ==> Narrow(m[k])
  }

  lemma {:induction false} AllowedIsShallowAndNarrow(v: Value, depth: nat)
    ensures Allowed(v, depth) <==> Shallow(v, depth) && Narrow(v)
    decreases v
  {
    match v {
      case Int(_) =>
      case Text(_) =>
      case List(items) =>
        forall k | 0 <= k < |items|
          ensures Allowed(items[k], depth + 1) <==> Shallow(items[k], depth + 1) && Narrow(items[k])
        {
          AllowedIsShallowAndNarrow(items[k], depth + 1);
        }
      case Dict(m) =>
        forall k | k in m
          ensures Allowed(m[k], depth + 1) <==> Shallow(m[k], depth + 1) && Narrow(m[k])
        {
          AllowedIsShallowAndNarrow(m[k], depth + 1);
        }
    }
  }

  // ---- Depth of a file tree ----

  /** What one file asks of depth and strings. */
  ghost predicate ShallowPath(parts: Path, entry: Entries, depth: nat)
    requires parts != []
    decreases |parts|
  {
    && depth + 1 <= MAX_DEPTH_LIMIT && |parts[0]| <= MAX_STR
    && if |parts| == 1 then Shallow(Leaf(entry), depth + 1) else ShallowPath(parts[1..], entry, depth + 1)
  }

  lemma {:induction false} InsertShallow(tree: Entries, parts: Path, entry: Entries, depth: nat)
    requires SafePath(parts) && Fits(tree, parts)
    ensures Shallow(Dict(Insert(tree, parts, entry)), depth) <==> Shallow(Dict(tree), depth) && ShallowPath(parts, entry, depth)
    decreases |parts|
  {
    var name, after := parts[0], Insert(tree, parts, entry);
    ShallowUpdate(tree, name, after[name], depth);
    ShallowSplit(tree, name, depth);
    if |parts| > 1 {
      InnerFits(tree, parts);
      InsertShallow(SubTree(tree, name), parts[1..], entry, depth + 1);
      SubTreeShallow(tree, parts, name, depth);
    }
  }

  lemma SubTreeShallow(tree: Entries, parts: Path, name: string, depth: nat)
    requires |parts| > 1 && parts[0] == name && Fits(tree, parts)
    ensures name in tree ==> tree[name] == Dict(SubTree(tree, name))
    ensures name !in tree ==> (Shallow(Dict(SubTree(tree, name)), depth + 1) <==> depth + 2 <= MAX_DEPTH_LIMIT)
  {
  }

  ghost predicate OthersShallow(tree: Entries, name: string, depth: nat) {
    forall k :: k in tree && k != name ==> |k| <= MAX_STR && Shallow(tree[k], depth + 1)
  }

  lemma ShallowSplit(tree: Entries, name: string, depth: nat)
    ensures Shallow(Dict(tree), depth)
            <==> && depth + 1 <= MAX_DEPTH_LIMIT && OthersShallow(tree, name, depth)
                 && (name in tree ==> |name| <= MAX_STR && Shallow(tree[name], depth + 1))
  {
  }

  /** One name given a new node. */
  lemma ShallowUpdate(tree: Entries, name: string, node: Value, depth: nat)
    ensures Shallow(Dict(tree[name := node]), depth)
            <==> depth + 1 <= MAX_DEPTH_LIMIT && |name| <= MAX_STR && Shallow(node, depth + 1) && OthersShallow(tree, name, depth)
  {
    var after := tree[name := node];
    assert forall k :: k in after <==> k in tree || k == name;
  }

  /** The v2 entry of a file: a length and perhaps a root, no deeper than that. */
  ghost predicate PlainEntry(entry: Entries) {
    |entry| <= 2 && forall k :: k in entry ==> |k| <= MAX_STR && (entry[k].Int? || (entry[k].Text? && |entry[k].s| <= MAX_STR))
  }

  lemma {:induction false} ShallowPathIff(parts: Path, entry: Entries, depth: nat)
    requires parts != [] && PlainEntry(entry)
    ensures ShallowPath(parts, entry, depth)
            <==> depth + |parts| + 2 <= MAX_DEPTH_LIMIT && forall k :: 0 <= k < |parts| ==> |parts[k]| <= MAX_STR
    decreases |parts|
  {
    if |parts| == 1 {
      assert Shallow(Dict(entry), depth + 2) <==> depth + 3 <= MAX_DEPTH_LIMIT;
    } else {
      ShallowPathIff(parts[1..], entry, depth + 1);
      assert forall k :: 0 < k < |parts| ==> parts[k] == parts[1..][k - 1];
      assert forall k :: 0 <= k < |parts| - 1 ==> parts[1..][k] == parts[k + 1];
    }
  }

  lemma {:induction false} TreeShallow(tree: Entries, placed: seq<Placed>, depth: nat)
    requires Placeable(placed) && AllFit(tree, placed)
    ensures Shallow(Dict(InsertAll(tree, placed)), depth)
            <==> Shallow(Dict(tree), depth) && forall i :: 0 <= i < |placed| ==> ShallowPath(placed[i].path, placed[i].entry, depth)
    decreases |placed|
  {
    if placed != [] {
      StillFit(tree, placed);
      InsertShallow(tree, placed[0].path, placed[0].entry, depth);
      TreeShallow(Insert(tree, placed[0].path, placed[0].entry), placed[1..], depth);
      assert forall i :: 0 < i < |placed| ==> placed[i] == placed[1..][i - 1];
      assert forall i :: 0 <= i < |placed| - 1 ==> placed[1..][i] == placed[i + 1];
    }
  }

  // ---- Fan-out of a file tree ----

  /** The names in the directory at `p`. */
  ghost function NamesAt(tree: Entries, p: Path): set<string>
    decreases |p|
  {
    if p == [] then tree.Keys
    else if HasNode(tree, p[0]) && !IsLeaf(tree[p[0]].entries) then NamesAt(tree[p[0]].entries, p[1..])
    else {}
  }

  /** The names that the files give to the directory at `p`. */
  ghost function NextNames(placed: seq<Placed>, p: Path): set<string> {
    set i | 0 <= i < |placed| && p < placed[i].path :: placed[i].path[|p|]
  }

  lemma {:induction false} InsertNames(tree: Entries, parts: Path, entry: Entries, p: Path)
    requires SafePath(parts) && Fits(tree, parts)
    ensures NamesAt(Insert(tree, parts, entry), p) == NamesAt(tree, p) + if p < parts then {parts[|p|]} else {}
    decreases |parts|
  {
    if p != [] && p[0] == parts[0] {
      assert p == [p[0]] + p[1..] && parts == [parts[0]] + parts[1..];
      assert p < parts <==> p[1..] < parts[1..];
      if |parts| > 1 {
        InnerFits(tree, parts);
        InsertNoLeaf(SubTree(tree, parts[0]), parts[1..], entry);
        InsertNames(SubTree(tree, parts[0]), parts[1..], entry, p[1..]);
      }
    }
  }

  lemma {:induction false} TreeNames(tree: Entries, placed: seq<Placed>, p: Path)
    requires Placeable(placed) && AllFit(tree, placed)
    ensures NamesAt(InsertAll(tree, placed), p) == NamesAt(tree, p) + NextNames(placed, p)
    decreases |placed|
  {
    if placed != [] {
      StillFit(tree, placed);
      InsertNames(tree, placed[0].path, placed[0].entry, p);
      TreeNames(Insert(tree, placed[0].path, placed[0].entry), placed[1..], p);
      NextNamesCons(placed, p);
    }
  }

  lemma NextNamesCons(placed: seq<Placed>, p: Path)
    requires placed != []
    ensures NextNames(placed, p) == NextNames(placed[1..], p) + if p < placed[0].path then {placed[0].path[|p|]} else {}
  {
    forall name
      ensures name in NextNames(placed, p) <==>
                name in NextNames(placed[1..], p) || (p < placed[0].path && name == placed[0].path[|p|])
    {
      if name in NextNames(placed, p) {
        var i :| 0 <= i < |placed| && p < placed[i].path && placed[i].path[|p|] == name;
        assert i > 0 ==> placed[1..][i - 1] == placed[i];
      }
      if name in NextNames(placed[1..], p) {
        var i :| 0 <= i < |placed| - 1 && p < placed[1..][i].path && placed[1..][i].path[|p|] == name;
        assert placed[i + 1] == placed[1..][i];
      }
    }
  }

  /** A node of a built tree: a directory, or a leaf with nothing beside its entry. */
  ghost predicate IsBuiltNode(v: Value)
    decreases v
  {
    v.Dict? && if IsLeaf(v.entries) then Narrow(v) else forall k :: k in v.entries ==> IsBuiltNode(v.entries[k])
  }

  lemma {:induction false} InsertBuilt(tree: Entries, parts: Path, entry: Entries)
    requires SafePath(parts) && Fits(tree, parts) && PlainEntry(entry)
    requires !IsLeaf(tree) && IsBuiltNode(Dict(tree))
    ensures !IsLeaf(Insert(tree, parts, entry)) && IsBuiltNode(Dict(Insert(tree, parts, entry)))
    decreases |parts|
  {
    InsertNoLeaf(tree, parts, entry);
    if |parts| == 1 {
      LeafNarrow(entry);
    } else {
      InnerFits(tree, parts);
      InsertBuilt(SubTree(tree, parts[0]), parts[1..], entry);
    }
  }

  lemma LeafNarrow(entry: Entries)
    requires PlainEntry(entry)
    ensures Narrow(Leaf(entry))
  {
    assert |map["" := Dict(entry)]| == 1;
  }

  lemma {:induction false} TreeBuilt(tree: Entries, placed: seq<Placed>)
    requires Placeable(placed) && AllFit(tree, placed) && !IsLeaf(tree) && IsBuiltNode(Dict(tree))
    requires forall i :: 0 <= i < |placed| ==> PlainEntry(placed[i].entry)
    ensures !IsLeaf(InsertAll(tree, placed)) && IsBuiltNode(Dict(InsertAll(tree, placed)))
    decreases |placed|
  {
    if placed != [] {
      StillFit(tree, placed);
      InsertBuilt(tree, placed[0].path, placed[0].entry);
      TreeBuilt(Insert(tree, placed[0].path, placed[0].entry), placed[1..]);
    }
  }

  /** A built tree is narrow exactly when each of its directories is. */
  lemma {:induction false} NarrowIffNames(v: Value)
    requires IsBuiltNode(v) && !IsLeaf(v.entries)
    ensures Narrow(v) <==> AllNarrow(v.entries)
    decreases v
  {
    var m := v.entries;
    assert |NamesAt(m, [])| == |m.Keys| == |m|;
    forall k | k in m && !IsLeaf(m[k].entries)
      ensures Narrow(m[k]) <==> AllNarrow(m[k].entries)
    {
      NarrowIffNames(m[k]);
    }
    NamesBelow(m);
  }

  ghost predicate AllNarrow(m: Entries) {
    forall p :: |NamesAt(m, p)| <= MAX_KEYS
  }

  /** The directories of a tree are its top and those below its names. */
  lemma NamesBelow(m: Entries)
    requires forall k :: k in m ==> m[k].Dict?
    ensures AllNarrow(m) <==> |m.Keys| <= MAX_KEYS && forall k :: k in m && !IsLeaf(m[k].entries) ==> AllNarrow(m[k].entries)
  {
    if AllNarrow(m) {
      assert |NamesAt(m, [])| <= MAX_KEYS;
      forall k, q: Path | k in m && !IsLeaf(m[k].entries)
        ensures |NamesAt(m[k].entries, q)| <= MAX_KEYS
      {
        assert ([k] + q)[1..] == q;
        assert |NamesAt(m, [k] + q)| <= MAX_KEYS;
      }
    }
    if |m.Keys| <= MAX_KEYS && forall k :: k in m && !IsLeaf(m[k].entries) ==> AllNarrow(m[k].entries) {
      forall p
        ensures |NamesAt(m, p)| <= MAX_KEYS
      {
        if p != [] && p[0] in m && !IsLeaf(m[p[0]].entries) {
          assert AllNarrow(m[p[0]].entries);
        }
      }
    }
  }

  // ---- The info dict of a directory ----

  lemma RootIsSized(h: Hasher, content: Bytes, root: Bytes)
    requires SizedHash(h, 32) && IsPiecesRoot(h, content, root)
    ensures |root| == 32
  {
    var k: nat :| IsRootOver(h, Leaves(h, content), k, root);
    RootSized(h, PadTo(Leaves(h, content), Pow2(k), ZeroPad(h)), 32);
  }

  lemma EntryIsPlain(sha1: Hasher, h: Hasher, content: Bytes, size: nat, len: nat, r: FileResult)
    requires BlockSized(len) && SizedHash(h, 32) && IsHashed(sha1, h, content, size, len, r)
    ensures PlainEntry(EntryOf(r))
  {
    if r.root.Some? {
      RootIsSized(h, content, r.root.value);
      assert EntryOf(r).Keys == {"length", "pieces root"};
    } else {
      assert EntryOf(r).Keys == {"length"};
    }
  }

  /** What the limits ask of a path: at depth 64 a tree dict leaves room for 61 components. */
  predicate PathFits(path: Path) {
    |path| <= 61 && forall k :: 0 <= k < |path| ==> |path[k]| <= MAX_STR
  }

  lemma ItemAllowed(f: DiskFile)
    requires |f.path| <= MAX_LIST
    ensures Allowed(V1Item(f), 2) <==> forall k :: 0 <= k < |f.path| ==> |f.path[k]| <= MAX_STR
  {
    var m := map["length" := Int(f.size), "path" := List(AsTexts(f.path))];
    var texts := AsTexts(f.path);
    assert m.Keys == {"length", "path"} && |m| == 2;
    ListAllowedUnfolds(texts, 3);
    assert forall k :: 0 <= k < |f.path| ==> (Allowed(texts[k], 4) <==> |f.path[k]| <= MAX_STR);
    assert Allowed(m["length"], 3);
  }

  lemma ItemsAllowed(files: seq<DiskFile>)
    requires forall i :: 0 <= i < |files| ==> |files[i].path| <= MAX_LIST
    ensures Allowed(List(V1Items(files)), 1)
            <==> |files| <= MAX_LIST && forall i :: 0 <= i < |files| ==> Allowed(V1Item(files[i]), 2)
  {
    var items := V1Items(files);
    ListAllowedUnfolds(items, 1);
    assert forall i :: 0 <= i < |files| ==> items[i] == V1Item(files[i]);
  }

  lemma ListAllowedUnfolds(items: seq<Value>, depth: nat)
    ensures Allowed(List(items), depth)
            <==> && depth + 1 <= MAX_DEPTH_LIMIT && |items| <= MAX_LIST
                 && forall k :: 0 <= k < |items| ==> Allowed(items[k], depth + 1)
  {
  }

  lemma TreeDepth(placed: seq<Placed>)
    requires Placeable(placed) && forall i :: 0 <= i < |placed| ==> PlainEntry(placed[i].entry)
    ensures Shallow(Dict(InsertAll(map[], placed)), 1) <==> forall i :: 0 <= i < |placed| ==> PathFits(placed[i].path)
  {
    TreeShallow(map[], placed, 1);
    forall i | 0 <= i < |placed|
      ensures ShallowPath(placed[i].path, placed[i].entry, 1) <==> PathFits(placed[i].path)
    {
      ShallowPathIff(placed[i].path, placed[i].entry, 1);
    }
  }

  ghost predicate FansOut(placed: seq<Placed>) {
    forall p :: |NextNames(placed, p)| <= MAX_KEYS
  }

  lemma TreeWidth(placed: seq<Placed>)
    requires Placeable(placed) && forall i :: 0 <= i < |placed| ==> PlainEntry(placed[i].entry)
    ensures Narrow(Dict(InsertAll(map[], placed))) <==> FansOut(placed)
  {
    var tree := InsertAll(map[], placed);
    TreeBuilt(map[], placed);
    NarrowIffNames(Dict(tree));
    forall p
      ensures NamesAt(tree, p) == NextNames(placed, p)
    {
      TreeNames(map[], placed, p);
      assert NamesAt(map[], p) == {};
    }
  }

  lemma TreeAllowed(placed: seq<Placed>)
    requires Placeable(placed) && forall i :: 0 <= i < |placed| ==> PlainEntry(placed[i].entry)
    ensures Allowed(Dict(InsertAll(map[], placed)), 1)
            <==> (forall i :: 0 <= i < |placed| ==> PathFits(placed[i].path)) && FansOut(placed)
  {
    AllowedIsShallowAndNarrow(Dict(InsertAll(map[], placed)), 1);
    TreeDepth(placed);
    TreeWidth(placed);
  }

  /** The named limits. */
  ghost predicate InfoFits(name: string, files: seq<DiskFile>, pieces: Bytes, placed: seq<Placed>) {
    && |name| <= MAX_STR && |pieces| <= MAX_STR && |files| <= MAX_LIST
    && (forall i :: 0 <= i < |files| ==> PathFits(files[i].path)) && FansOut(placed)
  }

  const INFO_KEYS: set<string> := {"file tree", "files", "meta version", "name", "piece length", "pieces"}

  lemma InfoShape(info: Entries, name: string, len: nat, built: Built)
    requires info == DirectoryInfo(name, len, built)
    ensures info.Keys == INFO_KEYS && |info| <= MAX_KEYS
    ensures info["file tree"] == Dict(built.tree) && info["files"] == List(built.v1Files)
    ensures info["meta version"] == Int(2) && info["piece length"] == Int(len)
    ensures info["name"] == Text(name) && info["pieces"] == Text(AsString(built.pieces))
  {
    assert info.Keys == INFO_KEYS;
    assert |info| == |INFO_KEYS|;
  }

  lemma InfoAllowed(info: Entries)
    requires info.Keys == INFO_KEYS && |info| <= MAX_KEYS && info["meta version"].Int? && info["piece length"].Int?
    ensures Allowed(Dict(info), 0)
            <==> Allowed(info["file tree"], 1) && Allowed(info["files"], 1) && Allowed(info["name"], 1) && Allowed(info["pieces"], 1)
  {
    DictAllowedUnfolds(info, 0);
    forall k | k in info
      ensures KeyAllowed(info, k, 0) <==> Allowed(info[k], 1)
      ensures k == "file tree" || k == "files" || k == "name" || k == "pieces" || Allowed(info[k], 1)
    {
      InfoKey(info, k);
    }
  }

  lemma InfoKey(info: Entries, k: string)
    requires k in INFO_KEYS && k in info
    requires k == "meta version" || k == "piece length" ==> info[k].Int?
    ensures KeyAllowed(info, k, 0) <==> Allowed(info[k], 1)
    ensures k == "file tree" || k == "files" || k == "name" || k == "pieces" || Allowed(info[k], 1)
  {
  }

  lemma SixKeys(info: Entries, name: string, len: nat, built: Built)
    requires info == DirectoryInfo(name, len, built)
    ensures Allowed(Dict(info), 0)
            <==> Allowed(Dict(built.tree), 1) && Allowed(List(built.v1Files), 1) && |name| <= MAX_STR && |built.pieces| <= MAX_STR
  {
    InfoShape(info, name, len, built);
    InfoAllowed(info);
  }

  lemma PlacedPaths(files: seq<DiskFile>, results: seq<FileResult>)
    requires |results| == |files|
    ensures (forall i :: 0 <= i < |files| ==> PathFits(Placements(files, results)[i].path))
            <==> forall i :: 0 <= i < |files| ==> PathFits(files[i].path)
  {
    assert forall i :: 0 <= i < |files| ==> Placements(files, results)[i].path == files[i].path;
  }

  /** An encoding of a built info dict keeps the limits for torrents exactly when it keeps the named ones. */
  lemma BuiltInfoWithin(sha1: Hasher, h: Hasher, name: string, files: seq<DiskFile>, len: nat, results: seq<FileResult>,
                        built: Built, b: B.Value)
    requires BlockSized(len) && SizedHash(h, 32) && |results| == |files| && AllHashed(sha1, h, files, len, results)
    requires IsBuilt(sha1, files, len, results, built) && Placeable(Placements(files, results))
    requires Encodes(b, Dict(DirectoryInfo(name, len, built)))
    ensures B.Within(b, 0, LIMITS) <==> InfoFits(name, files, built.pieces, Placements(files, results))
  {
    var info, placed := DirectoryInfo(name, len, built), Placements(files, results);
    WithinIffAllowed(b, Dict(info), 0);
    SixKeys(info, name, len, built);
    EntriesArePlain(sha1, h, files, len, results);
    TreeAllowed(placed);
    ListFits(files);
    PlacedPaths(files, results);
  }

  /** Paths that fit the tree fit the list as well. */
  lemma ListFits(files: seq<DiskFile>)
    ensures (forall i :: 0 <= i < |files| ==> PathFits(files[i].path)) ==>
              (Allowed(List(V1Items(files)), 1) <==> |files| <= MAX_LIST)
  {
    if forall i :: 0 <= i < |files| ==> PathFits(files[i].path) {
      ItemsAllowed(files);
      forall i | 0 <= i < |files|
        ensures Allowed(V1Item(files[i]), 2)
      {
        ItemAllowed(files[i]);
      }
    }
  }

  lemma EntriesArePlain(sha1: Hasher, h: Hasher, files: seq<DiskFile>, len: nat, results: seq<FileResult>)
    requires BlockSized(len) && SizedHash(h, 32) && AllHashed(sha1, h, files, len, results)
    ensures forall i :: 0 <= i < |results| ==> PlainEntry(Placements(files, results)[i].entry)
  {
    forall i | 0 <= i < |results|
      ensures PlainEntry(EntryOf(results[i]))
    {
      EntryIsPlain(sha1, h, files[i].alone.Content(), files[i].size, len, results[i]);
    }
  }

  /** The validator accepts an encoded info dict exactly when it has at most 16 MiB and keeps the named limits. */
  lemma BuiltInfoValidates(sha1: Hasher, h: Hasher, name: string, files: seq<DiskFile>, len: nat, results: seq<FileResult>,
                           built: Built, b: B.Value)
    requires BlockSized(len) && SizedHash(h, 32) && |results| == |files| && AllHashed(sha1, h, files, len, results)
    requires IsBuilt(sha1, files, len, results, built) && Placeable(Placements(files, results))
    requires Encodes(b, Dict(DirectoryInfo(name, len, built)))
    ensures Validator.SizeWithin(B.Encode(b), LIMITS) && (exists v :: B.Encode(v) == B.Encode(b) && B.Within(v, 0, LIMITS))
            <==> |B.Encode(b)| <= 0x100_0000 && InfoFits(name, files, built.pieces, Placements(files, results))
  {
    BuiltInfoWithin(sha1, h, name, files, len, results, built, b);
    if Validator.SizeWithin(B.Encode(b), LIMITS) {
      forall v | B.Encode(v) == B.Encode(b)
        ensures v == b
      {
        B.EncodingIsInjective(v, b);
      }
    }
  }
}
