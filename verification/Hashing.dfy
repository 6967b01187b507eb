/** Streaming piece hashes: hashReaderHybrid and the v1 loop of buildDirHybrid in internal/torrent/torrent.go. */
module Hashing {
  import opened Common
  import opened Merkle

  // ---- Readers ----

  datatype ReadError = NoError | Eof | Failed

  /**
   * What an opened file will deliver: its bytes cut into reads in any way (empty reads too), then end of file or
   * a failure, which may come `together` with the last bytes.
   */
  datatype Source = Source(bufs: seq<Bytes>, fails: bool, together: bool) {
    function Content(): Bytes {
      Flatten(bufs)
    }
  }

  class Reader {
    var left: Source

    constructor (source: Source)
      ensures left == source
    {
      left := source;
    }

    method Read(max: nat) returns (data: Bytes, err: ReadError)
      requires max > 0
      modifies this
      ensures |data| <= max && left.fails == old(left.fails)
      ensures old(left).Content() == data + left.Content()
      ensures err == NoError ==> Work(left) < Work(old(left))
      ensures err != NoError ==> left.Content() == [] && (err == Failed <==> left.fails)
    {
      var end := if left.fails then Failed else Eof;
      if left.bufs == [] {
        return [], end;
      }
      var first, rest := left.bufs[0], left.bufs[1..];
      if |first| > max {
        data := first[..max];
        left := left.(bufs := [first[max..]] + rest);
        assert left.bufs[1..] == rest;
        return data, NoError;
      }
      data := first;
      left := left.(bufs := rest);
      err := if rest == [] && left.together then end else NoError;
    }

    /** io.ReadFull, with io.ErrUnexpectedEOF counted as end of file; an error that comes with the last byte wanted is dropped. */
    method ReadFull(n: nat) returns (data: Bytes, err: ReadError)
      requires n > 0
      modifies this
      ensures left.fails == old(left.fails)
      ensures old(left).Content() == data + left.Content()
      ensures err == NoError ==> |data| == n
      ensures err != NoError ==> |data| < n && left.Content() == [] && (err == Failed <==> left.fails)
    {
      data, err := [], NoError;
      while |data| < n && err == NoError
        invariant |data| <= n && left.fails == old(left.fails)
        invariant old(left).Content() == data + left.Content()
        invariant err != NoError ==> left.Content() == [] && (err == Failed <==> left.fails)
        decreases err == NoError, Work(left)
      {
        var more;
        more, err := Read(n - |data|);
        AppendAssoc(data, more, left.Content());
        data := data + more;
      }
      if |data| >= n {
        err := NoError;
      }
    }
  }

  /** Bytes and reads still to come. */
  function Work(source: Source): nat {
    |source.Content()| + |source.bufs|
  }

  // ---- Chunks ----

  /** `content` cut every `len` bytes. */
  function Chunks(content: Bytes, len: nat): seq<Bytes>
    requires len > 0
    decreases |content|
  {
    if content == [] then []
    else if |content| <= len then [content]
    else [content[..len]] + Chunks(content[len..], len)
  }

  lemma CeilDivStep(size: nat, len: nat)
    requires len > 0 && size > 0
    ensures CeilDiv(size, len) == if size <= len then 1 else 1 + CeilDiv(size - len, len)
  {
    if size > len {
      var q := CeilDiv(size - len, len);
      DivisionBounds(size - 1, len);
      MulNext(q, len);
      MulNext(q + 1, len);
      SameQuotient(size + len - 1, len, q + 1);
    } else {
      SameQuotient(size + len - 1, len, 1);
    }
  }

  lemma {:induction false} ChunkCount(content: Bytes, len: nat)
    requires len > 0
    ensures |Chunks(content, len)| == CeilDiv(|content|, len)
    decreases |content|
  {
    if content == [] {
      SameQuotient(len - 1, len, 0);
    } else {
      CeilDivStep(|content|, len);
      if |content| > len {
        ChunkCount(content[len..], len);
      }
    }
  }

  lemma {:induction false} DropChunks(content: Bytes, len: nat, t: nat, at: nat)
    requires len > 0 && at == t * len && at <= |content|
    ensures t <= |Chunks(content, len)| && Chunks(content, len)[t..] == Chunks(content[at..], len)
    decreases t
  {
    if t == 0 {
      assert content[0..] == content;
    } else {
      MulNext(t - 1, len);
      var before := at - len;
      DropChunks(content, len, t - 1, before);
      assert content[before..][len..] == content[at..];
      assert Chunks(content, len)[t - 1..][1..] == Chunks(content, len)[t..];
      assert |content[before..]| >= len;
    }
  }

  lemma {:induction false} TakeChunks(content: Bytes, len: nat, t: nat, at: nat)
    requires len > 0 && at == t * len && at <= |content|
    ensures t <= |Chunks(content, len)| && Chunks(content, len)[..t] == Chunks(content[..at], len)
    decreases t
  {
    if t == 0 {
      assert content[..0] == [];
    } else {
      MulNext(t - 1, len);
      var after := at - len;
      TakeChunks(content[len..], len, t - 1, after);
      TakeFirst(content, len, t, at);
    }
  }

  lemma TakeFirst(content: Bytes, len: nat, t: nat, at: nat)
    requires 0 < len <= at <= |content| && 0 < t
    requires t - 1 <= |Chunks(content[len..], len)|
    requires Chunks(content[len..], len)[..t - 1] == Chunks(content[len..][..at - len], len)
    ensures t <= |Chunks(content, len)| && Chunks(content, len)[..t] == Chunks(content[..at], len)
  {
    assert content[..at][..len] == content[..len];
    assert content[..at][len..] == content[len..][..at - len];
    assert |content| == len ==> content[len..] == [] && content[..len] == content;
    assert at == len ==> content[len..][..at - len] == [];
    assert Chunks(content, len) == [content[..len]] + Chunks(content[len..], len);
    assert Chunks(content[..at], len) == [content[..len]] + Chunks(content[..at][len..], len);
  }

  /** The chunks are the pieces: as many as the size asks for, the i-th being piece `i`. */
  lemma ChunksArePieces(content: Bytes, len: nat, i: nat)
    requires len > 0
    ensures |Chunks(content, len)| == CeilDiv(|content|, len)
    ensures i < CeilDiv(|content|, len) ==>
              i * len < |content| && Chunks(content, len)[i] == Chunk(content, len, i)
  {
    ChunkCount(content, len);
    if i < CeilDiv(|content|, len) {
      PieceBegins(|content|, len, i);
      var at := i * len;
      DropChunks(content, len, i, at);
      assert Chunks(content, len)[i] == Chunks(content, len)[i..][0] == Chunks(content[at..], len)[0];
      assert Chunks(content[at..], len)[0] == content[at..][..Min(len, |content| - at)];
    }
  }

  // ---- Digests ----

  function Digests(h: Hasher, chunks: seq<Bytes>): (r: seq<Bytes>)
    ensures |r| == |chunks|
    ensures forall i :: 0 <= i < |r| ==> r[i] == h(chunks[i])
  {
    if chunks == [] then [] else [h(chunks[0])] + Digests(h, chunks[1..])
  }

  lemma DigestNext(h: Hasher, chunks: seq<Bytes>, last: Bytes)
    ensures Digests(h, chunks + [last]) == Digests(h, chunks) + [h(last)]
  {
  }

  lemma FlattenNext(chunks: seq<Bytes>, last: Bytes)
    ensures Flatten(chunks + [last]) == Flatten(chunks) + last
  {
    FlattenAppend(chunks, [last]);
    assert Flatten([last]) == last + Flatten([]);
  }

  /** The v1 `pieces` string of some content. */
  function V1Pieces(sha1: Hasher, content: Bytes, len: nat): Bytes
    requires len > 0
  {
    Flatten(Digests(sha1, Chunks(content, len)))
  }

  ghost predicate SizedHash(h: Hasher, n: nat) {
    forall data: Bytes :: |h(data)| == n
  }

  lemma {:induction false} FlattenLength(digests: seq<Bytes>, n: nat)
    requires forall i :: 0 <= i < |digests| ==> |digests[i]| == n
    ensures |Flatten(digests)| == |digests| * n
  {
    if digests != [] {
      FlattenLength(digests[1..], n);
      MulNext(|digests| - 1, n);
    }
  }

  /** Twenty bytes for each piece of the content: the count that parseInfoMap checks. */
  lemma V1PiecesLength(sha1: Hasher, content: Bytes, len: nat)
    requires len > 0 && SizedHash(sha1, 20)
    ensures |V1Pieces(sha1, content, len)| == CeilDiv(|content|, len) * 20
  {
    ChunkCount(content, len);
    FlattenLength(Digests(sha1, Chunks(content, len)), 20);
  }

  /** The hash that the downloader compares piece `i` with is the hash of piece `i`. */
  lemma V1PieceHash(sha1: Hasher, content: Bytes, len: nat, i: nat)
    requires len > 0 && SizedHash(sha1, 20) && i < CeilDiv(|content|, len)
    ensures i * len < |content| && i * 20 + 20 <= |V1Pieces(sha1, content, len)|
    ensures V1Pieces(sha1, content, len)[i * 20..i * 20 + 20] == sha1(Chunk(content, len, i))
  {
    ChunksArePieces(content, len, i);
    FlattenAt(Digests(sha1, Chunks(content, len)), 20, i, i * 20);
  }

  lemma {:induction false} FlattenAt(digests: seq<Bytes>, n: nat, i: nat, at: nat)
    requires forall k :: 0 <= k < |digests| ==> |digests[k]| == n
    requires i < |digests| && at == i * n
    ensures at + n <= |Flatten(digests)| && Flatten(digests)[at..at + n] == digests[i]
  {
    if i > 0 {
      MulNext(i - 1, n);
      var before := at - n;
      FlattenAt(digests[1..], n, i - 1, before);
      var tail := Flatten(digests[1..]);
      assert Flatten(digests) == digests[0] + tail;
      assert Flatten(digests)[at..at + n] == tail[before..before + n];
    }
  }

  // ---- The running SHA-1 ----

  /** `done` full chunks are hashed into `pieces`; `pending` went into the hasher since its last Reset. */
  ghost predicate Streaming(sha1: Hasher, content: Bytes, len: nat, done: seq<Bytes>, pieces: Bytes, pending: Bytes) {
    && content == Flatten(done) + pending
    && (forall i :: 0 <= i < |done| ==> |done[i]| == len)
    && pieces == Flatten(Digests(sha1, done))
  }

  lemma StreamWrite(sha1: Hasher, content: Bytes, len: nat, done: seq<Bytes>, pieces: Bytes, pending: Bytes, data: Bytes)
    requires Streaming(sha1, content, len, done, pieces, pending)
    ensures Streaming(sha1, content + data, len, done, pieces, pending + data)
  {
  }

  lemma StreamReset(sha1: Hasher, content: Bytes, len: nat, done: seq<Bytes>, pieces: Bytes, pending: Bytes)
    requires Streaming(sha1, content, len, done, pieces, pending) && |pending| == len
    ensures Streaming(sha1, content, len, done + [pending], pieces + sha1(pending), [])
  {
    DigestNext(sha1, done, pending);
    FlattenNext(Digests(sha1, done), sha1(pending));
    FlattenNext(done, pending);
  }

  lemma {:induction false} ChunksOfStream(done: seq<Bytes>, len: nat, pending: Bytes)
    requires len > 0 && |pending| < len
    requires forall i :: 0 <= i < |done| ==> |done[i]| == len
    ensures Chunks(Flatten(done) + pending, len) == done + (if pending == [] then [] else [pending])
  {
    if done == [] {
      assert Flatten(done) + pending == pending;
    } else {
      var content, rest := Flatten(done) + pending, Flatten(done[1..]) + pending;
      assert content == done[0] + rest;
      assert content[..len] == done[0] && content[len..] == rest;
      ChunksOfStream(done[1..], len, pending);
      assert rest == [] ==> content == content[..len];
    }
  }

  lemma StreamFlush(sha1: Hasher, content: Bytes, len: nat, done: seq<Bytes>, pieces: Bytes, pending: Bytes)
    requires Streaming(sha1, content, len, done, pieces, pending) && |pending| < len
    ensures V1Pieces(sha1, content, len) == if pending == [] then pieces else pieces + sha1(pending)
  {
    ChunksOfStream(done, len, pending);
    if pending != [] {
      DigestNext(sha1, done, pending);
      FlattenNext(Digests(sha1, done), sha1(pending));
    } else {
      assert done + [] == done;
    }
  }

  // ---- One file in the directory loop ----

  /** One buffer goes into the running hash, across as many piece ends as it holds. */
  method FeedBuffer(sha1: Hasher, len: nat, buf: Bytes, pieces0: Bytes, pending0: Bytes, inPiece0: nat,
                    ghost content: Bytes, ghost done0: seq<Bytes>)
    returns (pieces: Bytes, pending: Bytes, inPiece: nat, ghost done: seq<Bytes>)
    requires Streaming(sha1, content, len, done0, pieces0, pending0)
    requires inPiece0 == |pending0| < len
    ensures Streaming(sha1, content + buf, len, done, pieces, pending)
    ensures inPiece == |pending| < len
  {
    pieces, pending, inPiece, done := pieces0, pending0, inPiece0, done0;
    var remaining, offset := |buf|, 0;
    assert content + buf[..0] == content;
    while remaining > 0
      invariant 0 <= offset <= |buf| && offset + remaining == |buf|
      invariant Streaming(sha1, content + buf[..offset], len, done, pieces, pending)
      invariant inPiece == |pending| < len
    {
      var spaceInPiece := len - inPiece;
      var toWrite := remaining;
      if toWrite > spaceInPiece {
        toWrite := spaceInPiece;
      }
      var data := buf[offset..offset + toWrite];
      StreamWrite(sha1, content + buf[..offset], len, done, pieces, pending, data);
      assert content + buf[..offset] + data == content + buf[..offset + toWrite];
      pending := pending + data;
      inPiece := inPiece + toWrite;
      offset := offset + toWrite;
      remaining := remaining - toWrite;
      if inPiece == len {
        StreamReset(sha1, content + buf[..offset], len, done, pieces, pending);
        done := done + [pending];
        pieces := pieces + sha1(pending);
        pending := [];
        inPiece := 0;
      }
    }
    assert buf[..offset] == buf;
  }

  /** One file goes through the running hash in reads of at most 32 KiB. */
  method FeedFile(sha1: Hasher, len: nat, source: Source, pieces0: Bytes, pending0: Bytes, inPiece0: nat,
                  ghost content: Bytes, ghost done0: seq<Bytes>)
    returns (ok: bool, pieces: Bytes, pending: Bytes, inPiece: nat, ghost done: seq<Bytes>)
    requires Streaming(sha1, content, len, done0, pieces0, pending0)
    requires inPiece0 == |pending0| < len
    ensures ok == !source.fails
    ensures Streaming(sha1, content + source.Content(), len, done, pieces, pending)
    ensures inPiece == |pending| < len
  {
    var f := new Reader(source);
    pieces, pending, inPiece, done := pieces0, pending0, inPiece0, done0;
    ghost var sofar: Bytes := [];
    assert content + sofar == content;
    var err := NoError;
    while err == NoError
      invariant source.Content() == sofar + f.left.Content() && f.left.fails == source.fails
      invariant Streaming(sha1, content + sofar, len, done, pieces, pending)
      invariant inPiece == |pending| < len
      invariant err != NoError ==> f.left.Content() == [] && (err == Failed <==> source.fails)
      decreases err == NoError, Work(f.left)
    {
      var buf;
      buf, err := f.Read(32 * 1024);
      pieces, pending, inPiece, done := FeedBuffer(sha1, len, buf, pieces, pending, inPiece, content + sofar, done);
      AppendAssoc(content, sofar, buf);
      AppendAssoc(sofar, buf, f.left.Content());
      sofar := sofar + buf;
    }
    assert sofar == source.Content();
    ok := err == Eof;
  }

  // ---- hashReaderHybrid ----

  /** Size, `pieces root` if there is one, piece layer, v1 pieces. */
  datatype FileResult = FileResult(size: nat, root: Option<Bytes>, layer: seq<Bytes>, v1: Bytes)

  function ZeroPad(h: Hasher): Bytes {
    h(seq(32, _ => 0))
  }

  /** The Merkle root of one piece's own 16 KiB blocks, padded to `g` leaves. */
  function PieceRoot(h: Hasher, piece: Bytes, g: nat): Bytes
    requires 0 < |piece| <= g * BLOCK_SIZE
  {
    BlocksFit(piece, g);
    Root(h, PadTo(Digests(h, Chunks(piece, BLOCK_SIZE)), g, ZeroPad(h)))
  }

  lemma BlocksFit(piece: Bytes, g: nat)
    requires |piece| <= g * BLOCK_SIZE
    ensures |Chunks(piece, BLOCK_SIZE)| <= g
    ensures piece != [] ==> g > 0
  {
    ChunkCount(piece, BLOCK_SIZE);
    CeilDivLeast(|piece|, BLOCK_SIZE, g);
  }

  /** The blocks of piece `i` are the chunks of that piece. */
  lemma BlocksOfPiece(content: Bytes, g: nat, len: nat, i: nat)
    requires g > 0 && len == g * BLOCK_SIZE && i < CeilDiv(|content|, len)
    ensures i * len < |content| && 0 < |Chunk(content, len, i)| <= len
    ensures i * g <= |Chunks(content, BLOCK_SIZE)|
    ensures Chunks(content, BLOCK_SIZE)[i * g..Min(i * g + g, |Chunks(content, BLOCK_SIZE)|)]
            == Chunks(Chunk(content, len, i), BLOCK_SIZE)
  {
    PieceBegins(|content|, len, i);
    MulAssoc(i, g, BLOCK_SIZE);
    var at: nat, block: nat := i * len, i * g;
    BlocksFrom(content, g, len, block, at);
    ChunkFrom(content, len, i, at);
  }

  lemma ChunkFrom(content: Bytes, len: nat, i: nat, at: nat)
    requires len > 0 && at == i * len && at < |content|
    ensures content[at..][..Min(len, |content| - at)] == Chunk(content, len, i)
  {
    MulNext(i, len);
  }

  lemma BlocksFrom(content: Bytes, g: nat, len: nat, block: nat, at: nat)
    requires g > 0 && len == g * BLOCK_SIZE && at == block * BLOCK_SIZE && at <= |content|
    ensures block <= |Chunks(content, BLOCK_SIZE)|
    ensures Chunks(content, BLOCK_SIZE)[block..Min(block + g, |Chunks(content, BLOCK_SIZE)|)]
            == Chunks(content[at..][..Min(len, |content| - at)], BLOCK_SIZE)
  {
    DropChunks(content, BLOCK_SIZE, block, at);
    FirstBlocks(content[at..], g, len);
    var blocks := Chunks(content, BLOCK_SIZE);
    assert blocks[block..][..Min(g, |blocks| - block)] == blocks[block..Min(block + g, |blocks|)];
  }

  lemma FirstBlocks(rest: Bytes, g: nat, len: nat)
    requires len == g * BLOCK_SIZE
    ensures Chunks(rest, BLOCK_SIZE)[..Min(g, |Chunks(rest, BLOCK_SIZE)|)] == Chunks(rest[..Min(len, |rest|)], BLOCK_SIZE)
  {
    if len <= |rest| {
      TakeChunks(rest, BLOCK_SIZE, g, len);
    } else {
      BlocksFit(rest, g);
      assert rest[..|rest|] == rest;
    }
  }

  lemma GroupedCount(n: nat, b: nat, g: nat, len: nat)
    requires b > 0 && g > 0 && len == g * b
    ensures CeilDiv(CeilDiv(n, b), g) == CeilDiv(n, len)
  {
    var blocks, groups, pieces := CeilDiv(n, b), CeilDiv(CeilDiv(n, b), g), CeilDiv(n, len);
    CeilDivBounds(n, b);
    CeilDivBounds(blocks, g);
    CeilDivBounds(n, len);
    MulAssoc(pieces, g, b);
    CeilDivLeast(n, b, pieces * g);
    CeilDivLeast(blocks, g, pieces);
    MulAssoc(groups, g, b);
    MulMonotone(blocks, groups * g, b);
    CeilDivLeast(n, len, groups);
  }

  function Leaves(h: Hasher, content: Bytes): seq<Bytes> {
    Digests(h, Chunks(content, BLOCK_SIZE))
  }

  lemma {:induction false} DigestsOfSlice(h: Hasher, chunks: seq<Bytes>, lo: nat, hi: nat)
    requires lo <= hi <= |chunks|
    ensures Digests(h, chunks)[lo..hi] == Digests(h, chunks[lo..hi])
  {
  }

  /** The `pieces root` of some content: the root over its blocks, padded to the least power of two. */
  ghost predicate IsPiecesRoot(h: Hasher, content: Bytes, root: Bytes) {
    exists k: nat :: IsRootOver(h, Leaves(h, content), k, root)
  }

  ghost predicate IsRootOver(h: Hasher, leaves: seq<Bytes>, k: nat, root: Bytes) {
    && |leaves| <= Pow2(k) && (k > 0 ==> Pow2(k - 1) < |leaves|)
    && root == Root(h, PadTo(leaves, Pow2(k), ZeroPad(h)))
  }

  /** One hash for each piece, the i-th being the Merkle root of piece i's padded blocks. */
  ghost predicate IsLayerOf(h: Hasher, content: Bytes, g: nat, len: nat, layer: seq<Bytes>)
    requires g > 0 && len == g * BLOCK_SIZE
  {
    && |layer| == CeilDiv(|content|, len)
    && forall i :: 0 <= i < |layer| ==> IsRootOfPiece(h, content, g, len, i, layer[i])
  }

  ghost predicate IsRootOfPiece(h: Hasher, content: Bytes, g: nat, len: nat, i: nat, root: Bytes)
    requires g > 0 && len == g * BLOCK_SIZE
  {
    && i * len < |content| && 0 < |Chunk(content, len, i)| <= len
    && root == PieceRoot(h, Chunk(content, len, i), g)
  }

  /** The layer, padded to the least power of two with the roots of all-pad subtrees, folds to the same root. */
  ghost predicate FoldsTo(h: Hasher, layer: seq<Bytes>, g: nat, root: Bytes)
    requires g > 0
  {
    exists n: nat :: LayerFolds(h, layer, g, n, root)
  }

  ghost predicate LayerFolds(h: Hasher, layer: seq<Bytes>, g: nat, n: nat, root: Bytes)
    requires g > 0
  {
    && |layer| <= Pow2(n) && (n > 0 ==> Pow2(n - 1) < |layer|)
    && root == Root(h, PadTo(layer, Pow2(n), PadRoot(h, ZeroPad(h), g)))
  }

  lemma LayerOfPieces(h: Hasher, content: Bytes, g: nat, len: nat, layer: seq<Bytes>)
    requires g > 0 && len == g * BLOCK_SIZE
    requires IsPieceLayer(h, Leaves(h, content), ZeroPad(h), g, layer)
    ensures IsLayerOf(h, content, g, len, layer)
  {
    ChunkCount(content, BLOCK_SIZE);
    GroupedCount(|content|, BLOCK_SIZE, g, len);
    forall i | 0 <= i < |layer|
      ensures IsRootOfPiece(h, content, g, len, i, layer[i])
    {
      assert IsPieceRoot(h, Leaves(h, content), ZeroPad(h), g, i, layer[i]);
      RootOfPiece(h, content, g, len, i, i * g, layer[i]);
    }
  }

  lemma RootOfPiece(h: Hasher, content: Bytes, g: nat, len: nat, i: nat, at: nat, root: Bytes)
    requires g > 0 && len == g * BLOCK_SIZE && i < CeilDiv(|content|, len) && at == i * g
    requires IsPieceRoot(h, Leaves(h, content), ZeroPad(h), g, i, root)
    ensures IsRootOfPiece(h, content, g, len, i, root)
  {
    BlocksOfPiece(content, g, len, i);
    var blocks := Chunks(content, BLOCK_SIZE);
    DigestsOfSlice(h, blocks, at, Min(at + g, |blocks|));
    assert PieceLeaves(Leaves(h, content), g, i) == Digests(h, Chunks(Chunk(content, len, i), BLOCK_SIZE));
  }

  /** `full` blocks and then perhaps a shorter `last` one are hashed. */
  ghost predicate Blocked(h: Hasher, content: Bytes, full: seq<Bytes>, last: Bytes, hashes: seq<Bytes>) {
    && content == Flatten(full) + last && |last| < BLOCK_SIZE
    && (forall i :: 0 <= i < |full| ==> |full[i]| == BLOCK_SIZE)
    && hashes == Digests(h, full) + (if last == [] then [] else [h(last)])
  }

  lemma BlockRead(h: Hasher, content: Bytes, full: seq<Bytes>, hashes: seq<Bytes>, buf: Bytes)
    requires Blocked(h, content, full, [], hashes) && 0 < |buf| <= BLOCK_SIZE
    ensures |buf| < BLOCK_SIZE ==> Blocked(h, content + buf, full, buf, hashes + [h(buf)])
    ensures |buf| == BLOCK_SIZE ==> Blocked(h, content + buf, full + [buf], [], hashes + [h(buf)])
  {
    FlattenNext(full, buf);
    DigestNext(h, full, buf);
  }

  lemma BlocksRead(h: Hasher, content: Bytes, full: seq<Bytes>, last: Bytes, hashes: seq<Bytes>)
    requires Blocked(h, content, full, last, hashes)
    ensures hashes == Leaves(h, content)
  {
    ChunksOfStream(full, BLOCK_SIZE, last);
    if last != [] {
      DigestNext(h, full, last);
    } else {
      assert full + [] == full;
    }
  }

  /** A piece holds whole blocks, so it never overflows: `bytesInPiece >= pieceLen` means equality. */
  lemma BlockWritten(sha1: Hasher, content: Bytes, len: nat, done: seq<Bytes>, pieces: Bytes, pending: Bytes, buf: Bytes, now: Bytes)
    requires Streaming(sha1, content, len, done, pieces, pending)
    requires |pending| < len && |pending| % BLOCK_SIZE == 0 && len % BLOCK_SIZE == 0
    requires |buf| <= BLOCK_SIZE && now == pending + buf
    ensures |now| < len ==> Streaming(sha1, content + buf, len, done, pieces, now)
    ensures |now| >= len ==> Streaming(sha1, content + buf, len, done + [now], pieces + sha1(now), [])
    ensures |buf| == BLOCK_SIZE ==> |now| % BLOCK_SIZE == 0
  {
    assert |pending| + BLOCK_SIZE <= len;
    StreamWrite(sha1, content, len, done, pieces, pending, buf);
    if |now| >= len {
      StreamReset(sha1, content + buf, len, done, pieces, now);
    }
  }

  /** The read loop of hashReaderHybrid. */
  method HashStream(sha1: Hasher, h: Hasher, source: Source, len: nat)
    returns (ok: bool, blockHashes: seq<Bytes>, v1: Bytes)
    requires len > 0 && len % BLOCK_SIZE == 0
    ensures ok == !source.fails
    ensures ok ==> blockHashes == Leaves(h, source.Content()) && v1 == V1Pieces(sha1, source.Content(), len)
  {
    var r := new Reader(source);
    v1, blockHashes := [], [];
    var pending: Bytes, inPiece := [], 0;
    ghost var done: seq<Bytes>, full: seq<Bytes>, last: Bytes, sofar: Bytes := [], [], [], [];
    var err := NoError;
    while err == NoError
      invariant source.Content() == sofar + r.left.Content() && r.left.fails == source.fails
      invariant Streaming(sha1, sofar, len, done, v1, pending) && inPiece == |pending| < len
      invariant Blocked(h, sofar, full, last, blockHashes)
      invariant err == NoError ==> last == [] && |pending| % BLOCK_SIZE == 0
      invariant err != NoError ==> r.left.Content() == [] && (err == Failed <==> source.fails)
      decreases err == NoError, |r.left.Content()|
    {
      var buf;
      buf, err := r.ReadFull(BLOCK_SIZE);
      AppendAssoc(sofar, buf, r.left.Content());
      if |buf| > 0 {
        BlockRead(h, sofar, full, blockHashes, buf);
        blockHashes := blockHashes + [h(buf)];
        if |buf| == BLOCK_SIZE {
          full := full + [buf];
        } else {
          last := buf;
        }
        BlockWritten(sha1, sofar, len, done, v1, pending, buf, pending + buf);
        sofar := sofar + buf;
        pending := pending + buf;
        inPiece := inPiece + |buf|;
        if inPiece >= len {
          done := done + [pending];
          v1 := v1 + sha1(pending);
          pending := [];
          inPiece := 0;
        }
      }
    }
    if err == Failed {
      return false, [], [];
    }
    ok := true;
    assert source.Content() == sofar;
    StreamFlush(sha1, sofar, len, done, v1, pending);
    BlocksRead(h, sofar, full, last, blockHashes);
    if inPiece > 0 {
      v1 := v1 + sha1(pending);
    }
  }

  lemma TreeRoot(h: Hasher, leaves: seq<Bytes>, tree: seq<seq<Bytes>>, k: nat)
    requires IsTree(h, leaves, ZeroPad(h), tree, k) && (k > 0 ==> Pow2(k - 1) < |leaves|)
    ensures tree[k] != [] && IsRootOver(h, leaves, k, tree[k][0])
  {
    var padded := PadTo(leaves, Pow2(k), ZeroPad(h));
    TopIsRoot(h, padded, k);
    assert tree[k] == Level(h, padded, k);
  }

  /** What the piece layer of `content` must be, and that it leads to the root. */
  ghost predicate GoodLayer(h: Hasher, content: Bytes, g: nat, len: nat, layer: seq<Bytes>, root: Bytes)
    requires g > 0 && len == g * BLOCK_SIZE
  {
    IsLayerOf(h, content, g, len, layer) && FoldsTo(h, layer, g, root)
  }

  lemma ExtractedLayerIsGood(h: Hasher, content: Bytes, tree: seq<seq<Bytes>>, k: nat, j: nat, len: nat)
    requires IsTree(h, Leaves(h, content), ZeroPad(h), tree, k) && tree[k] != []
    requires k > 0 ==> Pow2(k - 1) < |Leaves(h, content)|
    requires len == Pow2(j) * BLOCK_SIZE && CeilDiv(|content|, len) > 1
    ensures GoodLayer(h, content, Pow2(j), len, ExtractPieceLayer(tree, len, CeilDiv(|content|, len)), tree[k][0])
  {
    var leaves, g, numPieces := Leaves(h, content), Pow2(j), CeilDiv(|content|, len);
    ChunkCount(content, BLOCK_SIZE);
    GroupedCount(|content|, BLOCK_SIZE, g, len);
    assert numPieces == CeilDiv(|leaves|, g);
    assert len == BLOCK_SIZE * g;
    PieceLayerIsRight(h, leaves, ZeroPad(h), tree, k, j);
    PieceLayerFoldsToRoot(h, leaves, ZeroPad(h), tree, k, j);
    var layer := ExtractPieceLayer(tree, len, numPieces);
    LayerOfPieces(h, content, g, len, layer);
    LayerFitsTightly(|leaves|, k, j);
    assert LayerFolds(h, layer, g, k - j, tree[k][0]);
  }

  ghost predicate BlockSized(len: nat) {
    len > 0 && len == len / BLOCK_SIZE * BLOCK_SIZE
  }

  /**
   * What the hashes of a file say. `size` is what Stat or the caller announced; the bytes that
   * were read may disagree, and then the piece layer is cut wrongly and nothing is promised of it.
   */
  ghost predicate IsHashed(sha1: Hasher, h: Hasher, content: Bytes, size: nat, len: nat, r: FileResult)
    requires BlockSized(len)
  {
    && r.size == size && (r.root.Some? <==> size > 0)
    && (size == 0 ==> r.v1 == [])
    && (size > 0 ==> r.v1 == V1Pieces(sha1, content, len) && IsPiecesRoot(h, content, r.root.value))
    && (CeilDiv(size, len) <= 1 ==> r.layer == [])
    && (CeilDiv(size, len) > 1 && size == |content| ==>
          r.root.Some? && GoodLayer(h, content, len / BLOCK_SIZE, len, r.layer, r.root.value))
  }

  /** hashReaderHybrid. Create and CreateStream refuse every other piece length. */
  method HashReader(sha1: Hasher, h: Hasher, source: Source, size: nat, len: nat) returns (r: Option<FileResult>)
    requires IsPowerOfTwo(len) && len >= BLOCK_SIZE
    ensures r == None <==> size > 0 && source.fails
    ensures BlockSized(len)
    ensures r.Some? ==> IsHashed(sha1, h, source.Content(), size, len, r.value)
  {
    ghost var e := PowerOfTwoExponent(len);
    ghost var j := BlocksPerPiece(len, e);
    if size == 0 {
      SameQuotient(len - 1, len, 0);
      return Some(FileResult(0, None, [], []));
    }
    var ok, blockHashes, v1 := HashStream(sha1, h, source, len);
    if !ok {
      return None;
    }
    var tree := BuildMerkleTree(h, blockHashes);
    ghost var k := |tree| - 1;
    TreeRoot(h, blockHashes, tree, k);
    var root := tree[|tree| - 1][0];
    assert IsRootOver(h, Leaves(h, source.Content()), k, root);
    var numPieces := (size + len - 1) / len;
    var layer := [];
    if numPieces > 1 {
      layer := ExtractPieceLayer(tree, len, numPieces);
      if size == |source.Content()| {
        ExtractedLayerIsGood(h, source.Content(), tree, k, j, len);
      }
    }
    r := Some(FileResult(size, Some(root), layer, v1));
  }

  /** A power of two of at least one block is a power of two of blocks. */
  lemma {:induction false} BlocksPerPiece(len: nat, e: nat) returns (j: nat)
    requires len == Pow2(e) >= BLOCK_SIZE
    ensures len == Pow2(j) * BLOCK_SIZE && len / BLOCK_SIZE == Pow2(j) && len % BLOCK_SIZE == 0
  {
    assert Pow2(14) == BLOCK_SIZE;
    if e < 14 {
      Pow2Monotone(e, 13);
    }
    j := e - 14;
    Pow2Add(j, 14);
  }
}
