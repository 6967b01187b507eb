/** Fetching an info dictionary piece by piece: FetchMetadata of internal/client/metadata.go. */
module Metadata {
  import opened Common
  import opened Bencode
  import opened Scanner
  import opened Validator
  import Wire

  const METADATA_PIECE: nat := 16384
  const MAX_METADATA: nat := 0x100_0000

  const PEER_LIMITS := Limits(0x10_0000, 16, 0x4_0000, 1024, 256)

  /** The fields the decoder finds in a header, if it finds them. */
  datatype Header = Header(msgType: int, piece: int)

  type Decoder = Bytes -> Option<Header>

  /** `payload` is an extension id, a header for piece `i` within the limits, and exactly `data`. */
  ghost predicate GoodReply(decode: Decoder, payload: Bytes, i: nat, data: Bytes) {
    exists v :: Splits(decode, payload, i, v, data)
  }

  predicate Splits(decode: Decoder, payload: Bytes, i: nat, v: Value, data: Bytes) {
    && payload != [] && payload[1..] == Encode(v) + data
    && SizeWithin(Encode(v), PEER_LIMITS) && Within(v, 0, PEER_LIMITS)
    && decode(Encode(v)) == Some(Header(1, i))
  }

  /** The split between header and data is forced: it is where the flat scanner stops. */
  lemma SplitIsForced(decode: Decoder, payload: Bytes, i: nat, v: Value, data: Bytes)
    requires Splits(decode, payload, i, v, data) && |payload| <= 1 + Wire.MAX_PAYLOAD
    ensures |payload| >= 2 && Scan(payload[1..], 0, 0) == Found(|Encode(v)|)
    ensures payload[1..][..|Encode(v)|] == Encode(v) && payload[1..][|Encode(v)|..] == data
  {
    ScannerAgrees(payload[1..], v, PEER_LIMITS);
  }

  lemma ReplyDataUnique(decode: Decoder, payload: Bytes, i: nat, data: Bytes, data': Bytes)
    requires |payload| <= 1 + Wire.MAX_PAYLOAD
    requires GoodReply(decode, payload, i, data) && GoodReply(decode, payload, i, data')
    ensures data == data'
  {
    var v :| Splits(decode, payload, i, v, data);
    var v' :| Splits(decode, payload, i, v', data');
    SplitIsForced(decode, payload, i, v, data);
    SplitIsForced(decode, payload, i, v', data');
  }

  datatype Reply = Data(data: Bytes) | Rejected | Crashed

  /** The reply on which the program indexes out of range: where the scan meets an overflowing length prefix. */
  predicate Crashes(payload: Bytes)
    requires |payload| <= 1 + Wire.MAX_PAYLOAD
  {
    |payload| >= 2 && Scan(payload[1..], 0, 0) == Fault
  }

  /** The checks FetchMetadata makes on one reply: they accept it exactly when it splits. */
  method CheckReply(decode: Decoder, payload: Bytes, i: nat, wantLen: nat) returns (r: Reply)
    requires |payload| <= 1 + Wire.MAX_PAYLOAD
    ensures r.Data? ==> GoodReply(decode, payload, i, r.data) && |r.data| == wantLen
    ensures forall data: Bytes :: GoodReply(decode, payload, i, data) && |data| == wantLen ==> r == Data(data)
    ensures r.Crashed? <==> Crashes(payload)
  {
    ghost var good := exists data: Bytes :: GoodReply(decode, payload, i, data) && |data| == wantLen;
    if good {
      ghost var data: Bytes :| GoodReply(decode, payload, i, data) && |data| == wantLen;
      ghost var v :| Splits(decode, payload, i, v, data);
      SplitIsForced(decode, payload, i, v, data);
    }
    if |payload| < 2 {
      return Rejected;
    }
    var body := payload[1..];
    var scanned := FindBencodeEnd(body);
    if scanned.Fault? {
      return Crashed;
    }
    if scanned.NotFound? || scanned.end < 0 {
      return Rejected;
    }
    ScanEndInside(body, 0, 0);
    var dictEnd := scanned.end;
    var err := Validate(body[..dictEnd], PEER_LIMITS);
    if err.Some? {
      return Rejected;
    }
    ghost var v :| Encode(v) == body[..dictEnd] && Within(v, 0, PEER_LIMITS);
    assert body == body[..dictEnd] + body[dictEnd..];
    var header := decode(body[..dictEnd]);
    if header.None? || header.value.msgType != 1 || header.value.piece != i {
      return Rejected;
    }
    assert Splits(decode, payload, i, v, body[dictEnd..]);
    if |body[dictEnd..]| != wantLen {
      return Rejected;
    }
    forall data: Bytes | GoodReply(decode, payload, i, data)
      ensures data == body[dictEnd..]
    {
      ReplyDataUnique(decode, payload, i, data, body[dictEnd..]);
    }
    return Data(body[dictEnd..]);
  }

  lemma {:induction false} ScanEndInside(b: Bytes, pos: nat, depth: int)
    requires pos <= |b| < TWO_63
    ensures Scan(b, pos, depth).Found? ==> Scan(b, pos, depth).end <= |b|
    decreases |b| - pos
  {
    if pos < |b| {
      TokenAdvances(b, pos);
      var token := ScanToken(b, pos);
      if token.Move? && depth + token.change != 0 && token.pos >= 0 {
        ScanEndInside(b, token.pos, depth + token.change);
      }
    }
  }

  /** Every reply carries its own piece of `metadata`. */
  ghost predicate Carries(decode: Decoder, replies: seq<Option<Bytes>>, metadata: Bytes) {
    && CeilDiv(|metadata|, METADATA_PIECE) <= |replies|
    && forall i :: 0 <= i < CeilDiv(|metadata|, METADATA_PIECE) ==> CarriesPiece(decode, replies[i], metadata, i)
  }

  ghost predicate CarriesPiece(decode: Decoder, reply: Option<Bytes>, metadata: Bytes, i: nat) {
    && i * METADATA_PIECE <= |metadata|
    && reply.Some?
    && GoodReply(decode, reply.value, i, Chunk(metadata, METADATA_PIECE, i))
  }

  /** The replies agree on one metadata only. */
  lemma CarriedUnique(decode: Decoder, replies: seq<Option<Bytes>>, a: Bytes, b: Bytes)
    requires forall i :: 0 <= i < |replies| && replies[i].Some? ==> |replies[i].value| <= 1 + Wire.MAX_PAYLOAD
    requires |a| == |b| && Carries(decode, replies, a) && Carries(decode, replies, b)
    ensures a == b
  {
    forall p | 0 <= p < |a|
      ensures a[p] == b[p]
    {
      var i := p / METADATA_PIECE;
      PieceExists(|a|, METADATA_PIECE, p);
      assert CarriesPiece(decode, replies[i], a, i) && CarriesPiece(decode, replies[i], b, i);
      ReplyDataUnique(decode, replies[i].value, i, Chunk(a, METADATA_PIECE, i), Chunk(b, METADATA_PIECE, i));
      assert Chunk(a, METADATA_PIECE, i)[p - i * METADATA_PIECE] == a[p];
      assert Chunk(b, METADATA_PIECE, i)[p - i * METADATA_PIECE] == b[p];
    }
  }

  function WantedLength(size: nat, i: nat): int {
    Min(size - i * METADATA_PIECE, METADATA_PIECE)
  }

  /** Reply `i` splits into a header for piece `i` and as much data as that piece has. */
  ghost predicate GoodAt(decode: Decoder, replies: seq<Option<Bytes>>, size: nat, i: nat) {
    && i < |replies| && replies[i].Some?
    && exists data: Bytes :: |data| == WantedLength(size, i) && GoodReply(decode, replies[i].value, i, data)
  }

  /** Reply `i` is there and is the first that is not good. */
  ghost predicate FirstBad(decode: Decoder, replies: seq<Option<Bytes>>, size: nat, i: nat) {
    && i < CeilDiv(size, METADATA_PIECE) && i < |replies| && replies[i].Some?
    && GoodUpTo(decode, replies, size, i) && !GoodAt(decode, replies, size, i)
  }

  ghost predicate GoodUpTo(decode: Decoder, replies: seq<Option<Bytes>>, size: nat, n: nat) {
    forall j: nat :: j < n ==> GoodAt(decode, replies, size, j)
  }

  lemma GoodNext(decode: Decoder, replies: seq<Option<Bytes>>, size: nat, i: nat)
    requires GoodUpTo(decode, replies, size, i) && GoodAt(decode, replies, size, i)
    ensures GoodUpTo(decode, replies, size, i + 1)
  {
  }

  lemma OnlyFirstBad(decode: Decoder, replies: seq<Option<Bytes>>, size: nat, i: nat)
    requires GoodUpTo(decode, replies, size, i) && !GoodAt(decode, replies, size, i) && i < CeilDiv(size, METADATA_PIECE)
    ensures forall k: nat :: FirstBad(decode, replies, size, k) ==> k == i
    ensures i < |replies| && replies[i].Some? ==> FirstBad(decode, replies, size, i)
  {
  }

  /** Every piece requested once, from the first one on. */
  ghost predicate InOrder(asked: seq<nat>) {
    forall j :: 0 <= j < |asked| ==> asked[j] == j
  }

  lemma AskNext(asked: seq<nat>)
    requires InOrder(asked)
    ensures InOrder(asked + [|asked|])
  {
  }

  datatype Fetched = Metadata(metadata: Bytes) | Failed | Panicked

  /** `replies` holds, request by request, the payload that readMetadataReply returns, or its failure; `asked` the pieces requested. */
  method FetchMetadata(decode: Decoder, sha1: Bytes -> Bytes, infoHash: Bytes, metadataSize: int,
                       replies: seq<Option<Bytes>>) returns (r: Fetched, asked: seq<nat>)
    requires forall i :: 0 <= i < |replies| && replies[i].Some? ==> |replies[i].value| <= 1 + Wire.MAX_PAYLOAD
    ensures Answers(decode, sha1, infoHash, metadataSize, replies, r)
    ensures r.Panicked? <==> 0 < metadataSize <= MAX_METADATA
                             && exists i: nat :: FirstBad(decode, replies, metadataSize, i) && Crashes(replies[i].value)
    ensures InOrder(asked)
    ensures r.Metadata? ==> |asked| == CeilDiv(metadataSize, METADATA_PIECE)
    ensures metadataSize <= 0 || metadataSize > MAX_METADATA ==> r == Failed && asked == []
  {
    asked := [];
    if metadataSize <= 0 || metadataSize > MAX_METADATA {
      return Failed, asked;
    }
    var size: nat := metadataSize;
    var numPieces := (size + METADATA_PIECE - 1) / METADATA_PIECE;
    var metadata := new byte[size](_ => 0);
    var i := 0;
    while i < numPieces
      invariant 0 <= i <= numPieces == CeilDiv(size, METADATA_PIECE)
      invariant i <= |replies| && |asked| == i && InOrder(asked)
      invariant forall j :: 0 <= j < i ==> CarriesPiece(decode, replies[j], metadata[..], j)
      invariant GoodUpTo(decode, replies, size, i)
    {
      PieceBegins(size, METADATA_PIECE, i);
      AskNext(asked);
      asked := asked + [i];
      var wantLen := size - i * METADATA_PIECE;
      if wantLen > METADATA_PIECE {
        wantLen := METADATA_PIECE;
      }
      if i == |replies| || replies[i].None? {
        NothingCarried(decode, sha1, infoHash, size, replies, i);
        OnlyFirstBad(decode, replies, size, i);
        return Failed, asked;
      }
      var reply := CheckReply(decode, replies[i].value, i, wantLen);
      if !reply.Data? {
        NotCarried(decode, replies, size, i, wantLen);
        OnlyFirstBad(decode, replies, size, i);
        return if reply.Crashed? then Panicked else Failed, asked;
      }
      assert GoodAt(decode, replies, size, i);
      ghost var before := metadata[..];
      CopyAt(metadata, i * METADATA_PIECE, reply.data);
      PieceCopied(decode, replies, before, metadata[..], i, reply.data);
      GoodNext(decode, replies, size, i);
      i := i + 1;
    }
    assert Carries(decode, replies, metadata[..]);
    OnlyCarried(decode, sha1, infoHash, replies, metadata[..]);
    if sha1(metadata[..]) != infoHash {
      return Failed, asked;
    }
    return Metadata(metadata[..]), asked;
  }

  /** The metadata is the one that the replies carry, with the right hash, if there is such a one. */
  ghost predicate Answers(decode: Decoder, sha1: Bytes -> Bytes, infoHash: Bytes, size: int, replies: seq<Option<Bytes>>, r: Fetched) {
    && (r.Metadata? ==> && 0 < |r.metadata| == size <= MAX_METADATA
                        && Carries(decode, replies, r.metadata) && sha1(r.metadata) == infoHash)
    && (forall m: Bytes :: 0 < |m| == size <= MAX_METADATA && Carries(decode, replies, m) && sha1(m) == infoHash
          ==> r == Metadata(m))
  }

  lemma NothingCarried(decode: Decoder, sha1: Bytes -> Bytes, infoHash: Bytes, size: nat, replies: seq<Option<Bytes>>, i: nat)
    requires i < CeilDiv(size, METADATA_PIECE) && (i < |replies| ==> replies[i].None?)
    ensures Answers(decode, sha1, infoHash, size, replies, Failed)
  {
    assert forall m: Bytes :: |m| == size && Carries(decode, replies, m) ==> CarriesPiece(decode, replies[i], m, i);
  }

  lemma OnlyCarried(decode: Decoder, sha1: Bytes -> Bytes, infoHash: Bytes, replies: seq<Option<Bytes>>, metadata: Bytes)
    requires Carries(decode, replies, metadata) && 0 < |metadata| <= MAX_METADATA
    requires forall i :: 0 <= i < |replies| && replies[i].Some? ==> |replies[i].value| <= 1 + Wire.MAX_PAYLOAD
    ensures Answers(decode, sha1, infoHash, |metadata|, replies, if sha1(metadata) == infoHash then Metadata(metadata) else Failed)
  {
    forall m: Bytes | |m| == |metadata| && Carries(decode, replies, m)
      ensures m == metadata
    {
      CarriedUnique(decode, replies, m, metadata);
    }
  }

  lemma NotCarried(decode: Decoder, replies: seq<Option<Bytes>>, size: nat, i: nat, wantLen: nat)
    requires i < CeilDiv(size, METADATA_PIECE) && i < |replies| && replies[i].Some?
    requires i * METADATA_PIECE < size && wantLen == Min(size - i * METADATA_PIECE, METADATA_PIECE)
    requires forall data: Bytes :: |data| == wantLen ==> !GoodReply(decode, replies[i].value, i, data)
    ensures forall m: Bytes :: |m| == size ==> !Carries(decode, replies, m)
  {
    forall m: Bytes | |m| == size
      ensures !Carries(decode, replies, m)
    {
      assert |Chunk(m, METADATA_PIECE, i)| == wantLen;
      assert !CarriesPiece(decode, replies[i], m, i);
    }
  }

  lemma PieceCopied(decode: Decoder, replies: seq<Option<Bytes>>, before: Bytes, after: Bytes, i: nat, data: Bytes)
    requires i < |replies| && i * METADATA_PIECE + |data| <= |before| == |after|
    requires |data| == Min(|before| - i * METADATA_PIECE, METADATA_PIECE)
    requires after[..i * METADATA_PIECE + |data|] == before[..i * METADATA_PIECE] + data
    requires replies[i].Some? && GoodReply(decode, replies[i].value, i, data)
    requires forall j :: 0 <= j < i ==> CarriesPiece(decode, replies[j], before, j)
    ensures forall j :: 0 <= j < i + 1 ==> CarriesPiece(decode, replies[j], after, j)
  {
    assert after[..i * METADATA_PIECE] == after[..i * METADATA_PIECE + |data|][..i * METADATA_PIECE];
    forall j | 0 <= j < i
      ensures CarriesPiece(decode, replies[j], after, j)
    {
      assert CarriesPiece(decode, replies[j], before, j);
      SamePrefixChunk(before, after, i * METADATA_PIECE, j);
    }
    assert Chunk(after, METADATA_PIECE, i) == data;
  }

  lemma SamePrefixSlice<T>(before: seq<T>, after: seq<T>, n: nat, lo: nat, hi: nat)
    requires lo <= hi <= n <= |before| == |after| && after[..n] == before[..n]
    ensures after[lo..hi] == before[lo..hi]
  {
    forall k | lo <= k < hi
      ensures after[k] == before[k]
    {
      assert after[..n][k] == before[..n][k];
    }
  }

  lemma SamePrefixChunk(before: Bytes, after: Bytes, n: nat, j: nat)
    requires n <= |before| == |after| && after[..n] == before[..n] && (j + 1) * METADATA_PIECE <= n
    ensures Chunk(after, METADATA_PIECE, j) == Chunk(before, METADATA_PIECE, j)
  {
    SamePrefixSlice(before, after, n, j * METADATA_PIECE, (j + 1) * METADATA_PIECE);
  }
}
