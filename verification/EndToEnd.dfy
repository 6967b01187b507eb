/** From hashing to disk: a torrent that was built, parsed and downloaded with success leaves the bytes that were hashed. */
module EndToEnd {
  import opened Common
  import opened Storage
  import opened Merkle
  import opened Hashing
  import opened FileTree
  import opened ParseInfo
  import opened Builder
  import Swarm = SwarmProtocol
  import Content = SwarmContent
  import Theorems = SwarmTheorems

  /** Piece `i` of `flat` is not that of `content`, but has its length and its hash. */
  ghost predicate Forged(sha1: Hasher, content: Bytes, flat: Bytes, len: nat, i: nat)
    requires len > 0
  {
    && i * len <= |content| && i * len <= |flat|
    && Chunk(flat, len, i) != Chunk(content, len, i)
    && |Chunk(flat, len, i)| == |Chunk(content, len, i)| && sha1(Chunk(flat, len, i)) == sha1(Chunk(content, len, i))
  }

  /** Some piece of `flat` is a second preimage of the hash of that piece of `content`. */
  ghost predicate SecondPreimage(sha1: Hasher, content: Bytes, flat: Bytes, len: nat)
    requires len > 0
  {
    exists i: nat :: Forged(sha1, content, flat, len, i)
  }

  ghost predicate SamePiece(a: Bytes, b: Bytes, len: nat, i: nat)
    requires len > 0
  {
    i * len <= |a| && i * len <= |b| && Chunk(a, len, i) == Chunk(b, len, i)
  }

  lemma ByteOfChunk(a: Bytes, len: nat, i: nat, at: nat, p: nat)
    requires len > 0 && at == i * len && at <= p < |a| && p < at + len
    ensures |Chunk(a, len, i)| > p - at && Chunk(a, len, i)[p - at] == a[p]
  {
    MulNext(i, len);
  }

  lemma SameByte(a: Bytes, b: Bytes, len: nat, i: nat, p: nat)
    requires len > 0 && |a| == |b| && p < |a| && SamePiece(a, b, len, i)
    requires i * len <= p < (i + 1) * len
    ensures a[p] == b[p]
  {
    var at: nat := i * len;
    MulNext(i, len);
    ByteOfChunk(a, len, i, at, p);
    ByteOfChunk(b, len, i, at, p);
  }

  ghost predicate SamePieces(a: Bytes, b: Bytes, len: nat)
    requires len > 0
  {
    forall i: nat :: i < CeilDiv(|a|, len) ==> SamePiece(a, b, len, i)
  }

  lemma SameEverywhere(a: Bytes, b: Bytes, len: nat, p: nat)
    requires len > 0 && |a| == |b| && SamePieces(a, b, len) && p < |a|
    ensures a[p] == b[p]
  {
    PieceExists(|a|, len, p);
    DivisionBounds(p, len);
    SameByte(a, b, len, p / len, p);
  }

  lemma PiecesDetermine(a: Bytes, b: Bytes, len: nat)
    requires len > 0 && |a| == |b| && SamePieces(a, b, len)
    ensures a == b
  {
    forall p | 0 <= p < |a|
      ensures a[p] == b[p]
    {
      SameEverywhere(a, b, len, p);
    }
  }

  /** The torrent describes `content`. */
  ghost predicate DescribesContent(c: Swarm.Config, content: Bytes) {
    && Swarm.WellFormed(c) && SizedHash(c.sha1, 20)
    && c.totalSize == |content| && c.pieces == V1Pieces(c.sha1, content, c.pieceLength)
  }

  lemma OnDiskIsChunk(c: Swarm.Config, flat: Bytes, i: nat, at: nat)
    requires Swarm.WellFormed(c) && i < c.pieceCount && |flat| == c.totalSize && at == i * c.pieceLength
    ensures at <= |flat| && Content.OnDisk(c, flat, i) == Chunk(flat, c.pieceLength, i)
  {
    PieceBegins(|flat|, c.pieceLength, i);
  }

  lemma GoodPieceIsChunk(c: Swarm.Config, content: Bytes, flat: Bytes, i: nat)
    requires DescribesContent(c, content) && !Forged(c.sha1, content, flat, c.pieceLength, i)
    requires i < c.pieceCount && |flat| == c.totalSize && i * c.pieceLength <= |flat|
    requires Swarm.GoodPiece(c, i, Content.OnDisk(c, flat, i))
    ensures SamePiece(flat, content, c.pieceLength, i)
  {
    GoodChunk(c, flat, i, i * c.pieceLength);
    ExpectedHash(c, content, i);
    SameChunkLength(flat, content, c.pieceLength, i);
  }

  lemma GoodChunk(c: Swarm.Config, flat: Bytes, i: nat, at: nat)
    requires Swarm.WellFormed(c) && i < c.pieceCount && |flat| == c.totalSize && at == i * c.pieceLength
    requires at <= |flat| && Swarm.GoodPiece(c, i, Content.OnDisk(c, flat, i))
    ensures c.sha1(Chunk(flat, c.pieceLength, i)) == c.pieces[i * 20..(i + 1) * 20]
  {
    OnDiskIsChunk(c, flat, i, at);
  }

  lemma SameChunkLength(a: Bytes, b: Bytes, len: nat, i: nat)
    requires len > 0 && |a| == |b| && i * len <= |a|
    ensures |Chunk(a, len, i)| == |Chunk(b, len, i)|
  {
    MulNext(i, len);
  }

  lemma ExpectedHash(c: Swarm.Config, content: Bytes, i: nat)
    requires DescribesContent(c, content) && i < c.pieceCount && Swarm.HasHash(c, i)
    ensures i * c.pieceLength <= |content|
    ensures c.pieces[i * 20..(i + 1) * 20] == c.sha1(Chunk(content, c.pieceLength, i))
  {
    V1PieceHash(c.sha1, content, c.pieceLength, i);
    MulNext(i, 20);
  }

  /**
   * If Start returns nil, the files on disk are the content, whatever peers sent and however the
   * goroutines were scheduled, unless they hold a second preimage of some piece's hash.
   */
  lemma SuccessRestoresContent(c: Swarm.Config, s: Swarm.State, content: Bytes)
    requires DescribesContent(c, content) && Swarm.Reachable(c, s) && Swarm.Succeeded(c, s)
    ensures Flatten(s.disk) == content || SecondPreimage(c.sha1, content, Flatten(s.disk), c.pieceLength)
  {
    var flat := Flatten(s.disk);
    FlatLength(c, s);
    if !SecondPreimage(c.sha1, content, flat, c.pieceLength) {
      forall i: nat | i < CeilDiv(|content|, c.pieceLength)
        ensures SamePiece(flat, content, c.pieceLength, i)
      {
        Theorems.SuccessLeavesGoodPieces(c, s, i);
        assert !Forged(c.sha1, content, flat, c.pieceLength, i);
        GoodPieceIsChunk(c, content, flat, i);
      }
      PiecesDetermine(flat, content, c.pieceLength);
    }
  }

  // ---- File lengths ----

  ghost predicate SameLengths(a: seq<Bytes>, b: seq<Bytes>) {
    |a| == |b| && forall i :: 0 <= i < |a| ==> |a[i]| == |b[i]|
  }

  lemma {:induction false} SameLengthsSameTotal(a: seq<Bytes>, b: seq<Bytes>)
    requires SameLengths(a, b)
    ensures |Flatten(a)| == |Flatten(b)|
  {
    if a != [] {
      assert forall i :: 0 <= i < |a| - 1 ==> a[1..][i] == a[i + 1] && b[1..][i] == b[i + 1];
      SameLengthsSameTotal(a[1..], b[1..]);
    }
  }

  lemma {:induction false} SameBytesSameFiles(a: seq<Bytes>, b: seq<Bytes>)
    requires SameLengths(a, b) && Flatten(a) == Flatten(b)
    ensures a == b
  {
    if a != [] {
      assert a[0] == Flatten(a)[..|a[0]|] && b[0] == Flatten(b)[..|b[0]|];
      assert Flatten(a[1..]) == Flatten(a)[|a[0]|..] && Flatten(b[1..]) == Flatten(b)[|b[0]|..];
      assert forall i :: 0 <= i < |a| - 1 ==> a[1..][i] == a[i + 1] && b[1..][i] == b[i + 1];
      SameBytesSameFiles(a[1..], b[1..]);
      assert a == [a[0]] + a[1..] && b == [b[0]] + b[1..];
    }
  }

  lemma StepKeepsLengths(c: Swarm.Config, s: Swarm.State, s': Swarm.State)
    requires Swarm.Next(c, s, s')
    ensures SameLengths(s.disk, s'.disk)
  {
    var step: Swarm.Step :| Swarm.Enabled(c, s, step) && s' == Swarm.Do(c, s, step);
    if step.WriteOk? {
      OverlayAt(s.disk, 0, s.collector.index * c.pieceLength, s.collector.data);
    } else if !step.WriteFail? {
      Content.OthersKeepDisk(c, s, step);
    }
  }

  lemma {:induction false} RunKeepsLengths(c: Swarm.Config, run: seq<Swarm.State>, k: nat)
    requires Swarm.IsRun(c, run) && k < |run|
    ensures SameLengths(run[0].disk, run[k].disk)
  {
    if k > 0 {
      RunKeepsLengths(c, run, k - 1);
      assert Swarm.StepAt(c, run, k);
      StepKeepsLengths(c, run[k - 1], run[k]);
    }
  }

  lemma FlatLength(c: Swarm.Config, s: Swarm.State)
    requires Swarm.Reachable(c, s)
    ensures |Flatten(s.disk)| == c.totalSize
  {
    var run: seq<Swarm.State> :| Swarm.IsRun(c, run) && run[|run| - 1] == s;
    RunKeepsLengths(c, run, |run| - 1);
    SameLengthsSameTotal(run[0].disk, s.disk);
    StartsWithTotal(c, run[0]);
  }

  lemma StartsWithTotal(c: Swarm.Config, s: Swarm.State)
    requires Swarm.IsInitial(c, s)
    ensures |Flatten(s.disk)| == c.totalSize
  {
    var disk, seeds :| |Flatten(disk)| == c.totalSize && s == Swarm.Initial(c, disk, seeds);
    PeersKeepDisk(Swarm.Unseeded(c, disk), seeds);
  }

  lemma {:induction false} PeersKeepDisk(s: Swarm.State, addrs: seq<Swarm.Addr>)
    ensures Swarm.AddPeers(s, addrs).disk == s.disk
    decreases |addrs|
  {
    if addrs != [] {
      PeersKeepDisk(Swarm.AddPeer(s, addrs[0]), addrs[1..]);
    }
  }

  lemma SuccessRestoresSized(c: Swarm.Config, s: Swarm.State, files: seq<Bytes>)
    requires DescribesContent(c, Flatten(files)) && Swarm.Reachable(c, s) && Swarm.Succeeded(c, s)
    requires SameLengths(s.disk, files)
    ensures s.disk == files || SecondPreimage(c.sha1, Flatten(files), Flatten(s.disk), c.pieceLength)
  {
    SuccessRestoresContent(c, s, Flatten(files));
    if Flatten(s.disk) == Flatten(files) {
      SameBytesSameFiles(s.disk, files);
    }
  }

  /** With the lengths that Preallocate sets, every single file is restored. */
  lemma SuccessRestoresFiles(c: Swarm.Config, run: seq<Swarm.State>, files: seq<Bytes>)
    requires DescribesContent(c, Flatten(files))
    requires Swarm.IsRun(c, run) && SameLengths(files, run[0].disk) && Swarm.Succeeded(c, run[|run| - 1])
    ensures run[|run| - 1].disk == files
            || SecondPreimage(c.sha1, Flatten(files), Flatten(run[|run| - 1].disk), c.pieceLength)
  {
    var last := run[|run| - 1];
    RunReaches(c, run, last);
    LastKeepsLengths(c, run, last, files);
    SuccessRestoresSized(c, last, files);
  }

  lemma LastKeepsLengths(c: Swarm.Config, run: seq<Swarm.State>, last: Swarm.State, files: seq<Bytes>)
    requires Swarm.IsRun(c, run) && last == run[|run| - 1] && SameLengths(files, run[0].disk)
    ensures SameLengths(last.disk, files)
  {
    RunKeepsLengths(c, run, |run| - 1);
    SameLengthsCompose(files, run[0].disk, last.disk);
  }

  lemma RunReaches(c: Swarm.Config, run: seq<Swarm.State>, last: Swarm.State)
    requires Swarm.IsRun(c, run) && last == run[|run| - 1]
    ensures Swarm.Reachable(c, last)
  {
  }

  lemma SameLengthsCompose(a: seq<Bytes>, b: seq<Bytes>, c: seq<Bytes>)
    requires SameLengths(a, b) && SameLengths(b, c)
    ensures SameLengths(c, a)
  {
  }

  // ---- The whole way ----

  /** What DownloadMVP hands to the swarm. */
  ghost predicate IsConfigOf(meta: Meta, sha1: Hasher, c: Swarm.Config) {
    && c.pieceCount == meta.pieceCount && c.pieceLength == meta.pieceLength && c.totalSize == meta.totalSize
    && meta.pieces.Some? && c.pieces == AsBytes(meta.pieces.value) && c.sha1 == sha1
  }

  /**
   * An accepted info dict whose v1 hashes are those of `content` describes it. The guard of DownloadMVP
   * then lets it pass unless the content is empty; a torrent of empty files only is refused there.
   */
  lemma ParsedDescribesContent(info: Entries, meta: Meta, sha1: Hasher, content: Bytes, c: Swarm.Config)
    requires IsParse(info, Some(meta)) && meta.files != [] && IsConfigOf(meta, sha1, c) && SizedHash(sha1, 20)
    requires forall i :: 0 <= i < |meta.files| ==> meta.files[i].length >= 0
    requires meta.totalSize == |content| && meta.pieceLength > 0
    requires meta.pieces == Some(AsString(V1Pieces(sha1, content, meta.pieceLength)))
    ensures DescribesContent(c, content)
    ensures Swarm.GuardPasses(c) <==> |content| > 0
  {
    AcceptedIsConsistent(info, meta);
    StringRoundTrip(V1Pieces(sha1, content, meta.pieceLength));
    if |content| > 0 {
      PieceExists(|content|, meta.pieceLength, 0);
    } else {
      SameQuotient(meta.pieceLength - 1, meta.pieceLength, 0);
    }
  }

  /** What Preallocate leaves behind for the files of the torrent. */
  ghost predicate Preallocated(disk: seq<Bytes>, files: seq<FileEntry>) {
    |disk| == |files| && forall i :: 0 <= i < |disk| ==> |disk[i]| == files[i].length
  }

  function Contents(files: seq<DiskFile>): (r: seq<Bytes>)
    ensures |r| == |files|
    ensures forall i :: 0 <= i < |r| ==> r[i] == files[i].running.Content()
  {
    if files == [] then [] else [files[0].running.Content()] + Contents(files[1..])
  }

  lemma {:induction false} ContentsAreAll(files: seq<DiskFile>)
    ensures Flatten(Contents(files)) == AllContent(files)
  {
    if files != [] {
      ContentsAreAll(files[1..]);
    }
  }

  /**
   * A directory that was built and whose info dict was parsed: when the download of it, from what
   * Preallocate made of the parsed files, succeeds, every file on disk is the file that was hashed. Where
   * all files are empty this speaks of Start only: DownloadMVP refuses such a torrent before.
   */
  lemma DirectoryRoundTrip(sha1: Hasher, name: string, files: seq<DiskFile>, len: nat, results: seq<FileResult>, built: Built,
                           meta: Meta, c: Swarm.Config, run: seq<Swarm.State>)
    requires len > 0 && SizedHash(sha1, 20) && files != [] && |results| == |files|
    requires IsBuilt(sha1, files, len, results, built)
    requires IsParse(DirectoryInfo(name, len, built), Some(meta)) && IsConfigOf(meta, sha1, c)
    requires forall i :: 0 <= i < |files| ==> files[i].size == |files[i].running.Content()|
    requires Swarm.IsRun(c, run) && Preallocated(run[0].disk, meta.files) && Swarm.Succeeded(c, run[|run| - 1])
    ensures run[|run| - 1].disk == Contents(files)
            || SecondPreimage(sha1, AllContent(files), Flatten(run[|run| - 1].disk), len)
  {
    BuiltDirectoryParses(sha1, name, files, len, results, built, Some(meta));
    SizesAddUp(files);
    ParsedDescribesContent(DirectoryInfo(name, len, built), meta, sha1, AllContent(files), c);
    ContentsAreAll(files);
    SuccessRestoresFiles(c, run, Contents(files));
  }

  lemma {:induction false} SizesAddUp(files: seq<DiskFile>)
    requires forall i :: 0 <= i < |files| ==> files[i].size == |files[i].running.Content()|
    ensures Sizes(files) == |AllContent(files)|
  {
    if files != [] {
      SizesAddUp(files[1..]);
    }
  }

  /** The same for one file. */
  lemma FileRoundTrip(sha1: Hasher, h: Hasher, name: string, content: Bytes, len: nat, fr: FileResult,
                      meta: Meta, c: Swarm.Config, run: seq<Swarm.State>)
    requires BlockSized(len) && SizedHash(sha1, 20) && IsHashed(sha1, h, content, |content|, len, fr)
    requires IsParse(SingleInfo(name, len, fr), Some(meta)) && IsConfigOf(meta, sha1, c)
    requires Swarm.IsRun(c, run) && Preallocated(run[0].disk, meta.files) && Swarm.Succeeded(c, run[|run| - 1])
    ensures run[|run| - 1].disk == [content] || SecondPreimage(sha1, content, Flatten(run[|run| - 1].disk), len)
  {
    BuiltFileParses(sha1, h, name, content, |content|, len, fr, Some(meta));
    FileDescribed(sha1, h, name, content, len, fr, meta, c);
    FlattenOne(content);
    SuccessRestoresFiles(c, run, [content]);
  }

  lemma FlattenOne(content: Bytes)
    ensures Flatten([content]) == content
  {
    assert Flatten([content]) == content + Flatten([]);
  }

  lemma FileDescribed(sha1: Hasher, h: Hasher, name: string, content: Bytes, len: nat, fr: FileResult, meta: Meta, c: Swarm.Config)
    requires BlockSized(len) && SizedHash(sha1, 20) && IsHashed(sha1, h, content, |content|, len, fr)
    requires IsParse(SingleInfo(name, len, fr), Some(meta)) && IsConfigOf(meta, sha1, c)
    ensures DescribesContent(c, content) && c.sha1 == sha1 && c.pieceLength == len
  {
    BuiltFileParses(sha1, h, name, content, |content|, len, fr, Some(meta));
    FileHashes(sha1, h, name, content, len, fr, meta);
    ParsedDescribesContent(SingleInfo(name, len, fr), meta, sha1, content, c);
  }

  lemma FileHashes(sha1: Hasher, h: Hasher, name: string, content: Bytes, len: nat, fr: FileResult, meta: Meta)
    requires BlockSized(len) && IsHashed(sha1, h, content, |content|, len, fr)
    requires IsParse(SingleInfo(name, len, fr), Some(meta))
    ensures meta.pieceLength == len && meta.pieces == Some(AsString(V1Pieces(sha1, content, len)))
  {
    var info := SingleInfo(name, len, fr);
    assert HeaderOk(info) && Describes(info, meta);
    if content == [] {
      assert V1Pieces(sha1, content, len) == [];
    }
  }
}
