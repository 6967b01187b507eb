/** Downloading one piece over a connection: downloadPiece of internal/client/downloader.go. */
module PieceAssembly {
  import opened Common
  import opened Wire

  const BLOCK_SIZE: nat := 16384

  datatype Request = Request(index: nat, begin: nat, length: nat)

  /** One turn of the message loop: what the environment does in it. */
  datatype Event =
    | Cancel                                       // the context is found cancelled
    | ReadError
    | Incoming(msg: Message, writeFails: bool)     // and whether a request written in this turn fails

  datatype Failure = Cancelled | ReadFailed | WriteFailed | Choked | BlockTooLarge | HashMismatch

  datatype Result = Ok(data: Bytes) | Err(failure: Failure)

  /** What the loop has done so far. */
  datatype Progress = Progress(buffer: Bytes, choking: bool, sent: seq<Request>)

  /** blockSize */
  function BlockLength(pieceSize: nat, downloaded: nat): (r: nat)
    requires downloaded <= pieceSize
    ensures r <= BLOCK_SIZE && downloaded + r <= pieceSize
    ensures downloaded < pieceSize ==> r > 0
  {
    var rem := pieceSize - downloaded;
    if rem > BLOCK_SIZE then BLOCK_SIZE else rem
  }

  /** The request that follows `downloaded` bytes; index and offset are truncated to 32 bits. */
  function NextRequest(index: nat, size: nat, downloaded: nat): Request
    requires downloaded <= size
  {
    Request(index % TWO_32, downloaded % TWO_32, BlockLength(size, downloaded) % TWO_32)
  }

  function FormatRequest(r: Request): Message
    requires r.index < TWO_32 && r.begin < TWO_32 && r.length < TWO_32
  {
    Message(MSG_REQUEST, PutUint32(r.index) + PutUint32(r.begin) + PutUint32(r.length))
  }

  predicate IsRequestFor(payload: Bytes, r: Request) {
    |payload| == 12 && Uint32(payload[..4]) == r.index && Uint32(payload[4..8]) == r.begin && Uint32(payload[8..]) == r.length
  }

  /** Every request of a download fits its message, which carries index, begin and length in this order. */
  lemma RequestIsCarried(index: nat, size: nat, downloaded: nat)
    requires downloaded <= size
    ensures var r := NextRequest(index, size, downloaded);
            && r.index < TWO_32 && r.begin < TWO_32 && r.length < TWO_32
            && Sendable(FormatRequest(r)) && IsRequestFor(FormatRequest(r).payload, r)
  {
    ThreeNumbers(NextRequest(index, size, downloaded));
  }

  lemma ThreeNumbers(r: Request)
    requires r.index < TWO_32 && r.begin < TWO_32 && r.length < TWO_32
    ensures IsRequestFor(FormatRequest(r).payload, r)
  {
    var a, b, c := PutUint32(r.index), PutUint32(r.begin), PutUint32(r.length);
    var payload := FormatRequest(r).payload;
    assert payload[..4] == a && payload[4..8] == b && payload[8..] == c;
    Uint32RoundTrip(r.index, a);
    Uint32RoundTrip(r.begin, a);
    Uint32RoundTrip(r.length, a);
  }

  /** The request for 512 bytes at 16384 of piece 1, as it is sent. */
  lemma RequestExample()
    ensures FormatRequest(Request(1, 16384, 512)) == Message(6, [0, 0, 0, 1, 0, 0, 64, 0, 0, 0, 2, 0])
  {
    assert PutUint32(1) == [0, 0, 0, 1] && PutUint32(16384) == [0, 0, 64, 0] && PutUint32(512) == [0, 0, 2, 0];
  }

  predicate IsPieceMessage(msg: Message) {
    msg.Message? && msg.id == MSG_PIECE && |msg.payload| >= 8
  }

  /** The block belongs to this piece, right behind the `downloaded` bytes already there. */
  predicate Fits(msg: Message, index: nat, downloaded: nat)
    requires IsPieceMessage(msg)
  {
    Uint32(msg.payload[..4]) == index % TWO_32 && Uint32(msg.payload[4..8]) == downloaded % TWO_32
  }

  function AddRequest(index: nat, size: nat, p: Progress): Progress
    requires |p.buffer| <= size
  {
    p.(sent := p.sent + [NextRequest(index, size, |p.buffer|)])
  }

  /** One turn of the message loop. */
  function Turn(index: nat, size: nat, event: Event, p: Progress): (r: (Progress, Option<Failure>))
    requires |p.buffer| < size
    ensures |r.0.buffer| <= size
  {
    match event
    case Cancel => (p, Some(Cancelled))
    case ReadError => (p, Some(ReadFailed))
    case Incoming(KeepAlive, _) => (p, None)
    case Incoming(msg, writeFails) =>
      if msg.id == MSG_UNCHOKE then
        var p' := p.(choking := false);
        if p.buffer != [] then (p', None)
        else (AddRequest(index, size, p'), if writeFails then Some(WriteFailed) else None)
      else if msg.id == MSG_CHOKE then (p.(choking := true), Some(Choked))
      else if IsPieceMessage(msg) && Fits(msg, index, |p.buffer|) then
        if |p.buffer| + |msg.payload[8..]| > size then (p, Some(BlockTooLarge))
        else
          var p' := p.(buffer := p.buffer + msg.payload[8..]);
          if |p'.buffer| == size then (p', None)
          else (AddRequest(index, size, p'), if writeFails then Some(WriteFailed) else None)
      else (p, None)
  }

  /** The whole message loop, from progress `p` on: the final progress, and why it stopped early if it did. */
  function Play(index: nat, size: nat, events: seq<Event>, p: Progress): (Progress, Option<Failure>)
    requires |p.buffer| <= size
    decreases |events|
  {
    if |p.buffer| == size then (p, None)
    else if events == [] then (p, Some(ReadFailed))
    else
      var (p', failure) := Turn(index, size, events[0], p);
      if failure.Some? then (p', failure) else Play(index, size, events[1..], p')
  }

  /** The request sent at once when the peer is not choking, then the loop, then the hash check. */
  function Download(index: nat, size: nat, expected: Bytes, sha1: Bytes -> Bytes,
                    firstWriteFails: bool, events: seq<Event>, choking: bool, sent: seq<Request>): (Result, Progress)
  {
    var p := Progress([], choking, sent);
    var p' := if choking then p else AddRequest(index, size, p);
    if !choking && firstWriteFails then (Err(WriteFailed), p')
    else
      var (end, failure) := Play(index, size, events, p');
      (if failure.Some? then Err(failure.value)
       else if sha1(end.buffer) != expected then Err(HashMismatch)
       else Ok(end.buffer), end)
  }

  class PeerConn {
    var PeerChoking: bool
    var sent: seq<Request>

    constructor ()
      ensures PeerChoking && sent == []
    {
      PeerChoking, sent := true, [];
    }

    method WriteRequest(r: Request)
      modifies this
      ensures sent == old(sent) + [r] && PeerChoking == old(PeerChoking)
    {
      sent := sent + [r];
    }

    method DownloadPiece(index: nat, size: nat, expected: Bytes, sha1: Bytes -> Bytes,
                         firstWriteFails: bool, events: seq<Event>) returns (r: Result)
      modifies this
      ensures var (result, end) := Download(index, size, expected, sha1, firstWriteFails, events,
                                            old(PeerChoking), old(sent));
              r == result && PeerChoking == end.choking && sent == end.sent
    {
      var pieceData := new byte[size](_ => 0);
      if !PeerChoking {
        WriteRequest(NextRequest(index, size, 0));
        if firstWriteFails {
          return Err(WriteFailed);
        }
      }
      var failure := ReceiveBlocks(index, pieceData, events);
      if failure.Some? {
        return Err(failure.value);
      }
      if sha1(pieceData[..]) != expected {
        return Err(HashMismatch);
      }
      return Ok(pieceData[..]);
    }

    /** The message loop of downloadPiece. */
    method ReceiveBlocks(index: nat, pieceData: array<byte>, events: seq<Event>) returns (failure: Option<Failure>)
      modifies this, pieceData
      ensures var (end, stop) := Play(index, pieceData.Length, events, Progress([], old(PeerChoking), old(sent)));
              failure == stop && PeerChoking == end.choking && sent == end.sent
              && (failure.None? ==> pieceData[..] == end.buffer)
    {
      var size, downloaded := pieceData.Length, 0;
      ghost var outcome := Play(index, size, events, Progress([], PeerChoking, sent));
      var k := 0;
      while downloaded < size
        invariant 0 <= downloaded <= size && 0 <= k <= |events|
        invariant Play(index, size, events[k..], Progress(pieceData[..downloaded], PeerChoking, sent)) == outcome
        decreases |events| - k
      {
        if k == |events| {
          return Some(ReadFailed);
        }
        var event := events[k];
        assert events[k..][0] == event && events[k..][1..] == events[k + 1..];
        k := k + 1;
        if event.Cancel? {
          return Some(Cancelled);
        }
        if event.ReadError? {
          return Some(ReadFailed);
        }
        var msg := event.msg;
        if msg.KeepAlive? {
          continue;
        }
        if msg.id == MSG_UNCHOKE {
          PeerChoking := false;
          if downloaded == 0 {
            WriteRequest(NextRequest(index, size, downloaded));
            if event.writeFails {
              return Some(WriteFailed);
            }
          }
        } else if msg.id == MSG_CHOKE {
          PeerChoking := true;
          return Some(Choked);
        } else if msg.id == MSG_PIECE {
          if |msg.payload| < 8 {
            continue;
          }
          if Uint32(msg.payload[..4]) != index % TWO_32 || Uint32(msg.payload[4..8]) != downloaded % TWO_32 {
            continue;
          }
          var block := msg.payload[8..];
          if downloaded + |block| > size {
            return Some(BlockTooLarge);
          }
          CopyAt(pieceData, downloaded, block);
          downloaded := downloaded + |block|;
          if downloaded < size {
            WriteRequest(NextRequest(index, size, downloaded));
            if event.writeFails {
              return Some(WriteFailed);
            }
          }
        }
      }
      assert pieceData[..downloaded] == pieceData[..];
      return None;
    }
  }

  // ---- Properties ----

  /** Every request stays inside the piece and asks for between 1 and 16384 bytes. */
  ghost predicate SafeRequests(index: nat, size: nat, sent: seq<Request>, from: nat) {
    forall k :: from <= k < |sent| ==>
      && sent[k].index == index % TWO_32
      && sent[k].begin + sent[k].length <= size
      && sent[k].length <= BLOCK_SIZE
      && (size > 0 ==> sent[k].length > 0)
  }

  lemma RequestSafe(index: nat, size: nat, downloaded: nat)
    requires downloaded <= size && (downloaded < size || size == 0)
    ensures SafeRequests(index, size, [NextRequest(index, size, downloaded)], 0)
  {
    assert downloaded % TWO_32 <= downloaded;
  }

  lemma TurnRequestsSafe(index: nat, size: nat, event: Event, p: Progress, from: nat)
    requires |p.buffer| < size && from <= |p.sent| && SafeRequests(index, size, p.sent, from)
    ensures SafeRequests(index, size, Turn(index, size, event, p).0.sent, from)
    ensures p.sent <= Turn(index, size, event, p).0.sent
  {
    var p' := Turn(index, size, event, p).0;
    if |p'.sent| > |p.sent| {
      RequestSafe(index, size, |p'.buffer|);
    }
  }

  lemma {:induction false} PlayRequestsSafe(index: nat, size: nat, events: seq<Event>, p: Progress, from: nat)
    requires |p.buffer| <= size && from <= |p.sent| && SafeRequests(index, size, p.sent, from)
    ensures SafeRequests(index, size, Play(index, size, events, p).0.sent, from)
    ensures p.sent <= Play(index, size, events, p).0.sent
    decreases |events|
  {
    if |p.buffer| < size && events != [] {
      TurnRequestsSafe(index, size, events[0], p, from);
      PlayRequestsSafe(index, size, events[1..], Turn(index, size, events[0], p).0, from);
    }
  }

  /** Whatever the peer sends, the requests of one piece download are safe, and earlier ones stay as they were. */
  lemma RequestsStayInside(index: nat, size: nat, expected: Bytes, sha1: Bytes -> Bytes,
                           firstWriteFails: bool, events: seq<Event>, choking: bool, sent: seq<Request>)
    ensures var end := Download(index, size, expected, sha1, firstWriteFails, events, choking, sent).1;
            sent <= end.sent && SafeRequests(index, size, end.sent, |sent|)
  {
    var p := Progress([], choking, sent);
    RequestSafe(index, size, 0);
    PlayRequestsSafe(index, size, events, if choking then p else AddRequest(index, size, p), |sent|);
  }

  /** `data` is the concatenation of the blocks of some of the messages, in the order they came, each of them
      naming this piece and the very offset at which it lands: no byte is written twice and none is left out. */
  ghost predicate Assembled(index: nat, events: seq<Event>, start: nat, data: Bytes)
    decreases |events|
  {
    || data == []
    || (&& events != []
        && (|| Assembled(index, events[1..], start, data)
            || (&& BlockAt(index, events[0], start)
                && events[0].msg.payload[8..] <= data
                && Assembled(index, events[1..], start + |events[0].msg.payload| - 8,
                             data[|events[0].msg.payload| - 8..]))))
  }

  predicate BlockAt(index: nat, event: Event, start: nat) {
    event.Incoming? && IsPieceMessage(event.msg) && Fits(event.msg, index, start)
  }

  lemma {:induction false} PlayAssembles(index: nat, size: nat, events: seq<Event>, p: Progress)
    requires |p.buffer| <= size && Play(index, size, events, p).1.None?
    ensures var data := Play(index, size, events, p).0.buffer;
            |data| == size && p.buffer <= data && Assembled(index, events, |p.buffer|, data[|p.buffer|..])
    decreases |events|
  {
    if |p.buffer| < size {
      var p' := Turn(index, size, events[0], p).0;
      PlayAssembles(index, size, events[1..], p');
      if p'.buffer != p.buffer {
        BlockThenRest(index, events, p.buffer, events[0].msg.payload[8..], Play(index, size, events, p).0.buffer);
      }
    }
  }

  lemma BlockThenRest(index: nat, events: seq<Event>, before: Bytes, block: Bytes, data: Bytes)
    requires events != [] && BlockAt(index, events[0], |before|) && block == events[0].msg.payload[8..]
    requires before + block <= data && Assembled(index, events[1..], |before + block|, data[|before + block|..])
    ensures Assembled(index, events, |before|, data[|before|..])
  {
    assert data[|before|..][|block|..] == data[|before + block|..];
    assert data[|before|..][..|block|] == block;
  }

  /** A returned piece has the size asked for and the expected hash, and is assembled from blocks in order. */
  lemma ReturnedPieceIsAssembled(index: nat, size: nat, expected: Bytes, sha1: Bytes -> Bytes,
                                 firstWriteFails: bool, events: seq<Event>, choking: bool, sent: seq<Request>)
    requires Download(index, size, expected, sha1, firstWriteFails, events, choking, sent).0.Ok?
    ensures var data := Download(index, size, expected, sha1, firstWriteFails, events, choking, sent).0.data;
            |data| == size && sha1(data) == expected && Assembled(index, events, 0, data)
  {
    var p := Progress([], choking, sent);
    var p' := if choking then p else AddRequest(index, size, p);
    PlayAssembles(index, size, events, p');
    var data := Play(index, size, events, p').0.buffer;
    assert data[0..] == data;
  }

  // ---- Which requests are sent ----

  /** The request for what comes next when `have` of `size` bytes are there. */
  ghost predicate AsksNext(index: nat, size: nat, have: nat, r: Request) {
    && r.index == index % 0x1_0000_0000 && r.begin == have % 0x1_0000_0000
    && r.length == Min(16384, size - have)
  }

  /** With bytes missing and the peer not choking, the last request sent asks for the next block. */
  ghost predicate Asked(index: nat, size: nat, p: Progress) {
    |p.buffer| < size && !p.choking ==> p.sent != [] && AsksNext(index, size, |p.buffer|, p.sent[|p.sent| - 1])
  }

  /** A turn sends at most one request, and that asks for what comes next after it. */
  lemma TurnAsksNext(index: nat, size: nat, event: Event, p: Progress)
    requires |p.buffer| < size
    ensures var p' := Turn(index, size, event, p).0;
            p'.sent == p.sent || (p'.sent != [] && p'.sent == p.sent + [p'.sent[|p'.sent| - 1]]
                                  && AsksNext(index, size, |p'.buffer|, p'.sent[|p'.sent| - 1]))
  {
  }

  /** No message is waited for after an unchoke without a request: bytes arrive only from a peer that has unchoked. */
  ghost predicate Proper(index: nat, size: nat, p: Progress) {
    Asked(index, size, p) && (p.buffer != [] && |p.buffer| < size ==> p.sent != [] && AsksNext(index, size, |p.buffer|, p.sent[|p.sent| - 1]))
  }

  lemma TurnProper(index: nat, size: nat, event: Event, p: Progress)
    requires |p.buffer| < size && Proper(index, size, p) && Turn(index, size, event, p).1.None?
    ensures Proper(index, size, Turn(index, size, event, p).0)
  {
  }

  /** The progress while the loop waits for the message after `events`, if it still does. */
  function Awaits(index: nat, size: nat, events: seq<Event>, p: Progress): (r: Option<Progress>)
    requires |p.buffer| <= size
    ensures r.Some? ==> |r.value.buffer| < size
    decreases |events|
  {
    if |p.buffer| == size then None
    else if events == [] then Some(p)
    else
      var (p', failure) := Turn(index, size, events[0], p);
      if failure.Some? then None else Awaits(index, size, events[1..], p')
  }

  lemma {:induction false} AwaitsProper(index: nat, size: nat, events: seq<Event>, p: Progress)
    requires |p.buffer| <= size && Proper(index, size, p)
    ensures var end := Awaits(index, size, events, p); end.Some? ==> |end.value.buffer| < size && Proper(index, size, end.value)
    decreases |events|
  {
    if |p.buffer| < size && events != [] && Turn(index, size, events[0], p).1.None? {
      TurnProper(index, size, events[0], p);
      AwaitsProper(index, size, events[1..], Turn(index, size, events[0], p).0);
    }
  }

  /** Where the loop starts, after the request that is sent at once to a peer that is not choking. */
  function Begun(index: nat, size: nat, choking: bool, sent: seq<Request>): Progress {
    var p := Progress([], choking, sent);
    if choking then p else AddRequest(index, size, p)
  }

  /**
   * Whatever the peer has sent so far: when the loop waits for a message of a peer that is not choking, the
   * last request it sent is for the block that comes next, min(16384, what is missing) bytes behind those assembled.
   */
  lemma WaitsForWhatItAsked(index: nat, size: nat, events: seq<Event>, choking: bool, sent: seq<Request>)
    ensures var p := Awaits(index, size, events, Begun(index, size, choking, sent));
            p.Some? && !p.value.choking ==>
              p.value.sent != [] && AsksNext(index, size, |p.value.buffer|, p.value.sent[|p.value.sent| - 1])
  {
    AwaitsProper(index, size, events, Begun(index, size, choking, sent));
  }

  // ---- What single messages do to a download ----

  lemma {:induction false} PlaySplits(index: nat, size: nat, before: seq<Event>, after: seq<Event>, p: Progress)
    requires |p.buffer| <= size && Awaits(index, size, before, p).Some?
    ensures Play(index, size, before + after, p) == Play(index, size, after, Awaits(index, size, before, p).value)
    decreases |before|
  {
    if before == [] {
      assert before + after == after;
    } else {
      assert (before + after)[0] == before[0] && (before + after)[1..] == before[1..] + after;
      PlaySplits(index, size, before[1..], after, Turn(index, size, before[0], p).0);
    }
  }

  /** A message that names another piece or another offset, or is too short to, or is none of the three kinds that matter. */
  predicate Stray(index: nat, have: nat, event: Event) {
    event.Incoming? && (event.msg.KeepAlive? ||
      (event.msg.id != MSG_CHOKE && event.msg.id != MSG_UNCHOKE
       && (IsPieceMessage(event.msg) ==> !Fits(event.msg, index, have))))
  }

  /** A stray message might as well not have come. */
  lemma StrayChangesNothing(index: nat, size: nat, before: seq<Event>, event: Event, after: seq<Event>, p: Progress)
    requires |p.buffer| <= size && Awaits(index, size, before, p).Some?
    requires Stray(index, |Awaits(index, size, before, p).value.buffer|, event)
    ensures Play(index, size, before + ([event] + after), p) == Play(index, size, before + after, p)
  {
    PlaySplits(index, size, before, after, p);
    PlaySplits(index, size, before, [event] + after, p);
    assert ([event] + after)[1..] == after;
  }

  /** The events that end a download, and how. */
  function Ends(index: nat, size: nat, have: nat, event: Event): Option<Failure> {
    if event.Cancel? then Some(Cancelled)
    else if event.ReadError? then Some(ReadFailed)
    else if event.msg.Message? && event.msg.id == MSG_CHOKE then Some(Choked)
    else if event.msg.Message? && IsPieceMessage(event.msg) && Fits(event.msg, index, have) && have + |event.msg.payload| - 8 > size
    then Some(BlockTooLarge)
    else None
  }

  /** Such an event ends it, whatever would have come after; a choke is remembered for the next piece. */
  lemma EndingEventEnds(index: nat, size: nat, before: seq<Event>, event: Event, after: seq<Event>, p: Progress)
    requires |p.buffer| <= size && Awaits(index, size, before, p).Some?
    requires Ends(index, size, |Awaits(index, size, before, p).value.buffer|, event).Some?
    ensures var (end, failure) := Play(index, size, before + ([event] + after), p);
            && failure == Ends(index, size, |Awaits(index, size, before, p).value.buffer|, event)
            && (failure == Some(Choked) ==> end.choking)
  {
    PlaySplits(index, size, before, [event] + after, p);
  }

  // ---- An honest peer ----

  /** A peer with `content` answers a request for this piece with the bytes it names, and ignores any other. */
  function Answer(index: nat, content: Bytes, r: Request): Event {
    Incoming(if r.index == index % TWO_32 && r.begin + r.length <= |content| && r.begin < TWO_32
             then Message(MSG_PIECE, PutUint32(r.index) + PutUint32(r.begin) + content[r.begin..r.begin + r.length])
             else KeepAlive, false)
  }

  /** What such a peer sends, each time in answer to the last request that the client has really sent. */
  function Dialogue(index: nat, content: Bytes, p: Progress, turns: nat): seq<Event>
    requires |p.buffer| <= |content|
    decreases turns
  {
    if turns == 0 || p.sent == [] || |p.buffer| == |content| then []
    else
      var event := Answer(index, content, p.sent[|p.sent| - 1]);
      [event] + Dialogue(index, content, Turn(index, |content|, event, p).0, turns - 1)
  }

  lemma TurnOnBlock(index: nat, size: nat, payload: Bytes, block: Bytes, p: Progress)
    requires |p.buffer| + |block| <= size && block != [] && |payload| == 8 + |block| && payload[8..] == block
    requires Uint32(payload[..4]) == index % TWO_32 && Uint32(payload[4..8]) == |p.buffer| % TWO_32
    ensures var (p', failure) := Turn(index, size, Incoming(Message(MSG_PIECE, payload), false), p);
            && failure.None? && p'.buffer == p.buffer + block && p'.choking == p.choking
            && (|p'.buffer| < size ==> p'.sent != [] && AsksNext(index, size, |p'.buffer|, p'.sent[|p'.sent| - 1]))
  {
  }

  lemma AnswerNamesBlock(index: nat, content: Bytes, have: nat, r: Request, block: Bytes)
    requires have < |content| <= TWO_32 && AsksNext(index, |content|, have, r)
    requires block == content[have..have + Min(16384, |content| - have)]
    ensures r.index < TWO_32 && r.begin == have
    ensures Answer(index, content, r) == Incoming(Message(MSG_PIECE, PutUint32(r.index) + PutUint32(r.begin) + block), false)
  {
  }

  lemma AnswerIsNextBlock(index: nat, content: Bytes, p: Progress, r: Request, block: Bytes)
    requires p.buffer < content && |content| <= TWO_32 && AsksNext(index, |content|, |p.buffer|, r)
    requires block == content[|p.buffer|..|p.buffer| + Min(16384, |content| - |p.buffer|)]
    ensures var (p', failure) := Turn(index, |content|, Answer(index, content, r), p);
            && failure.None? && p'.buffer == p.buffer + block && p'.buffer <= content && |p.buffer| < |p'.buffer|
            && (|p'.buffer| < |content| ==> p'.sent != [] && AsksNext(index, |content|, |p'.buffer|, p'.sent[|p'.sent| - 1]))
  {
    var payload := PutUint32(r.index) + PutUint32(r.begin) + block;
    AnswerNamesBlock(index, content, |p.buffer|, r, block);
    BlockPayload(r.index, r.begin, block, payload);
    TurnOnBlock(index, |content|, payload, block, p);
    PrefixGrows(p.buffer, content, |block|);
  }

  lemma PrefixGrows<T>(prefix: seq<T>, s: seq<T>, n: nat)
    requires prefix <= s && |prefix| + n <= |s|
    ensures prefix + s[|prefix|..|prefix| + n] == s[..|prefix| + n]
  {
  }

  lemma BlockPayload(index: nat, begin: nat, block: Bytes, payload: Bytes)
    requires index < TWO_32 && begin < TWO_32 && payload == PutUint32(index) + PutUint32(begin) + block
    ensures |payload| == 8 + |block| && payload[8..] == block
    ensures Uint32(payload[..4]) == index && Uint32(payload[4..8]) == begin
  {
    Uint32RoundTrip(index, [0, 0, 0, 0]);
    Uint32RoundTrip(begin, [0, 0, 0, 0]);
    assert payload[..4] == PutUint32(index) && payload[4..8] == PutUint32(begin);
  }

  lemma {:induction false} DialoguePlays(index: nat, content: Bytes, p: Progress, turns: nat)
    requires p.buffer <= content && |content| <= TWO_32 && turns >= |content| - |p.buffer|
    requires |p.buffer| < |content| ==> p.sent != [] && AsksNext(index, |content|, |p.buffer|, p.sent[|p.sent| - 1])
    ensures var (end, failure) := Play(index, |content|, Dialogue(index, content, p, turns), p);
            failure.None? && end.buffer == content
    decreases turns
  {
    if |p.buffer| < |content| {
      var r := p.sent[|p.sent| - 1];
      AnswerIsNextBlock(index, content, p, r, content[|p.buffer|..|p.buffer| + Min(16384, |content| - |p.buffer|)]);
      var event := Answer(index, content, r);
      var p' := Turn(index, |content|, event, p).0;
      DialoguePlays(index, content, p', turns - 1);
      assert Dialogue(index, content, p, turns)[1..] == Dialogue(index, content, p', turns - 1);
    }
  }

  /** Everything an honest peer sends: an unchoke if it was choking, then one answer for each request. */
  function HonestPeer(index: nat, content: Bytes, choking: bool, sent: seq<Request>): seq<Event>
    requires content != []
  {
    var begun := Begun(index, |content|, choking, sent);
    if choking then
      var unchoke := Incoming(Message(MSG_UNCHOKE, []), false);
      [unchoke] + Dialogue(index, content, Turn(index, |content|, unchoke, begun).0, |content|)
    else Dialogue(index, content, begun, |content|)
  }

  /** A peer that answers the requests it gets is believed: the download returns its content, up to 4 GiB of it. */
  lemma HonestPeerSucceeds(index: nat, content: Bytes, sha1: Bytes -> Bytes, choking: bool, sent: seq<Request>)
    requires content != [] && |content| <= TWO_32
    ensures Download(index, |content|, sha1(content), sha1, false, HonestPeer(index, content, choking, sent), choking, sent).0
            == Ok(content)
  {
    var begun := Begun(index, |content|, choking, sent);
    if choking {
      var unchoke := Incoming(Message(MSG_UNCHOKE, []), false);
      var p := Turn(index, |content|, unchoke, begun).0;
      DialoguePlays(index, content, p, |content|);
      assert HonestPeer(index, content, choking, sent)[1..] == Dialogue(index, content, p, |content|);
    } else {
      DialoguePlays(index, content, begun, |content|);
    }
  }
}
