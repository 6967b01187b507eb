/** Length-prefixed peer messages (internal/client/wire.go) and compact peer lists
    (internal/tracker/announce.go, internal/client/tracker.go). */
module Wire {
  import opened Common

  const MAX_PAYLOAD: nat := 0x20_0000
  const TWO_32: nat := 0x1_0000_0000

  const MSG_CHOKE: byte := 0
  const MSG_UNCHOKE: byte := 1
  const MSG_REQUEST: byte := 6
  const MSG_PIECE: byte := 7

  datatype Message = KeepAlive | Message(id: byte, payload: Bytes)

  datatype ReadResult = Received(msg: Message) | NoLength | NoId | TooLarge | NoPayload

  function PutUint32(n: nat): Bytes
    requires n < TWO_32
  {
    [n / 0x100_0000, n / 0x1_0000 % 0x100, n / 0x100 % 0x100, n % 0x100]
  }

  function Uint32(b: Bytes): (n: nat)
    requires |b| == 4
    ensures n < TWO_32
  {
    ((b[0] as int * 0x100 + b[1]) * 0x100 + b[2]) * 0x100 + b[3]
  }

  lemma DivideTwice(n: nat)
    ensures n / 0x1_0000 == n / 0x100 / 0x100
  {
  }

  lemma DivideThrice(n: nat)
    ensures n / 0x100_0000 == n / 0x1_0000 / 0x100
  {
  }

  lemma FourDigits(n: nat)
    ensures ((n / 0x100_0000 * 0x100 + n / 0x1_0000 % 0x100) * 0x100 + n / 0x100 % 0x100) * 0x100 + n % 0x100 == n
  {
    DivideTwice(n);
    DivideThrice(n);
    var low := n / 0x100;
    var high := low / 0x100;
    assert high == high / 0x100 * 0x100 + high % 0x100 && low == high * 0x100 + low % 0x100;
  }

  lemma DigitsOf(a: byte, b: byte, c: byte, d: byte, n: nat)
    requires n == ((a as int * 0x100 + b) * 0x100 + c) * 0x100 + d
    ensures n / 0x100_0000 == a && n / 0x1_0000 % 0x100 == b && n / 0x100 % 0x100 == c && n % 0x100 == d
  {
    assert n / 0x100 == (a as int * 0x100 + b) * 0x100 + c;
    assert n / 0x1_0000 == a as int * 0x100 + b;
  }

  lemma Uint32RoundTrip(n: nat, b: Bytes)
    requires n < TWO_32 && |b| == 4
    ensures Uint32(PutUint32(n)) == n && PutUint32(Uint32(b)) == b
  {
    FourDigits(n);
    DigitsOf(b[0], b[1], b[2], b[3], Uint32(b));
  }

  /** Big-endian. */
  lemma MostSignificantFirst(n: nat)
    requires n < TWO_32
    ensures var b := PutUint32(n); n == b[0] as int * 0x100_0000 + b[1] as int * 0x1_0000 + b[2] as int * 0x100 + b[3]
  {
    FourDigits(n);
  }

  predicate Sendable(m: Message) {
    m.KeepAlive? || |m.payload| <= MAX_PAYLOAD
  }

  function Encode(m: Message): Bytes
    requires m.Message? ==> 1 + |m.payload| < TWO_32
  {
    match m
    case KeepAlive => [0, 0, 0, 0]
    case Message(id, payload) => PutUint32(1 + |payload|) + [id] + payload
  }

  /** A four-byte length, most significant byte first, that counts the id and the payload behind it. */
  lemma EncodedLayout(id: byte, payload: Bytes)
    requires 1 + |payload| < TWO_32
    ensures var b := Encode(Message(id, payload));
            && |b| == 5 + |payload| && b[4] == id && b[5..] == payload
            && 1 + |payload| == b[0] as int * 0x100_0000 + b[1] as int * 0x1_0000 + b[2] as int * 0x100 + b[3]
    ensures Encode(KeepAlive) == [0, 0, 0, 0] && Encode(Message(2, [])) == [0, 0, 0, 1, 2]
  {
    MostSignificantFirst(1 + |payload|);
    var b := Encode(Message(id, payload));
    assert b[..4] == PutUint32(1 + |payload|);
  }

  /** One message read from a byte stream, and what is left of the stream. */
  function Decode(s: Bytes): (ReadResult, Bytes) {
    if |s| < 4 then (NoLength, [])
    else
      var length := Uint32(s[..4]);
      if length == 0 then (Received(KeepAlive), s[4..])
      else if |s| < 5 then (NoId, [])
      else if length == 1 then (Received(Message(s[4], [])), s[5..])
      else if length - 1 > MAX_PAYLOAD then (TooLarge, s[5..])
      else if |s| - 5 < length - 1 then (NoPayload, [])
      else (Received(Message(s[4], s[5..4 + length])), s[4 + length..])
  }

  /** What a payload is cut to when the 32-bit length wraps around. */
  function Cut(m: Message): Message {
    match m
    case KeepAlive => KeepAlive
    case Message(id, payload) =>
      var length := (1 + |payload|) % TWO_32;
      Message(id, payload[..if length == 0 then 0 else length - 1])
  }

  /** The buffer's own 32-bit size leaves no room for the length and the id: the program indexes out of range. */
  predicate Unwritable(m: Message) {
    m.Message? && (4 + (1 + |m.payload|) % TWO_32) % TWO_32 < 5
  }

  /** A message is written whole if and only if its payload has fewer than 2^32 - 5 bytes. */
  lemma WrittenWholeIff(m: Message)
    requires m.Message?
    ensures !Unwritable(m) && Cut(m) == m <==> |m.payload| < TWO_32 - 5
  {
    if |m.payload| >= TWO_32 - 5 && !Unwritable(m) {
      assert (1 + |m.payload|) % TWO_32 < TWO_32 - 4;
    }
  }

  method WriteMessage(m: Message) returns (buf: Option<array<byte>>)
    ensures buf.None? <==> Unwritable(m)
    ensures buf.Some? ==> buf.value[..] == Encode(Cut(m))
  {
    if m.KeepAlive? {
      var zeros := new byte[4](_ => 0);
      return Some(zeros);
    }
    var length := (1 + |m.payload|) % TWO_32;
    var size := (4 + length) % TWO_32;
    if size < 5 {
      return None;
    }
    var bytes := new byte[size](_ => 0);
    CopyAt(bytes, 0, PutUint32(length));
    bytes[4] := m.id;
    assert bytes[..5] == PutUint32(length) + [m.id];
    var payload := m.payload[..Min(|m.payload|, size - 5)];
    CopyAt(bytes, 5, payload);
    assert payload == Cut(m).payload;
    assert bytes[..5 + |payload|] == bytes[..];
    return Some(bytes);
  }

  class Stream {
    var rest: Bytes

    constructor (content: Bytes)
      ensures rest == content
    {
      rest := content;
    }

    /** io.ReadFull: all of `n` bytes, or the stream is used up. */
    method ReadFull(n: nat) returns (buf: Option<Bytes>)
      modifies this
      ensures n <= |old(rest)| ==> buf == Some(old(rest)[..n]) && rest == old(rest)[n..]
      ensures n > |old(rest)| ==> buf == None && rest == []
    {
      if n <= |rest| {
        buf, rest := Some(rest[..n]), rest[n..];
      } else {
        buf, rest := None, [];
      }
    }

    method ReadMessage() returns (r: ReadResult)
      modifies this
      ensures (r, rest) == Decode(old(rest))
    {
      var prefix := ReadFull(4);
      if prefix.None? {
        return NoLength;
      }
      var length := Uint32(prefix.value);
      if length == 0 {
        return Received(KeepAlive);
      }
      var idBuf := ReadFull(1);
      if idBuf.None? {
        return NoId;
      }
      var payloadLen := length - 1;
      if payloadLen == 0 {
        return Received(Message(idBuf.value[0], []));
      }
      if payloadLen > MAX_PAYLOAD {
        return TooLarge;
      }
      var payload := ReadFull(payloadLen);
      if payload.None? {
        return NoPayload;
      }
      ghost var s := old(rest);
      assert s[4..][1..][..payloadLen] == s[5..4 + length] && s[4..][1..][payloadLen..] == s[4 + length..];
      return Received(Message(idBuf.value[0], payload.value));
    }
  }

  /** Reading gives back what was written, whatever follows it. */
  lemma ReadsWhatWasWritten(m: Message, rest: Bytes)
    requires Sendable(m)
    ensures Decode(Encode(m) + rest) == (Received(m), rest)
  {
    var s := Encode(m) + rest;
    if m.Message? {
      Uint32RoundTrip(1 + |m.payload|, [0, 0, 0, 0]);
      assert s[..4] == PutUint32(1 + |m.payload|);
    } else {
      assert s[..4] == [0, 0, 0, 0];
    }
  }

  /** And nothing else reads as a message: framing is unambiguous. */
  lemma ReadsOnlyWhatWasWritten(s: Bytes)
    requires Decode(s).0.Received?
    ensures Sendable(Decode(s).0.msg)
    ensures s == Encode(Decode(s).0.msg) + Decode(s).1
  {
    Uint32RoundTrip(0, s[..4]);
    assert s == s[..4] + s[4..];
    if Uint32(s[..4]) == 0 {
      assert s[..4] == PutUint32(0);
    } else {
      assert s[4..] == [s[4]] + s[5..];
    }
  }

  function EncodeAll(ms: seq<Message>): Bytes
    requires forall i :: 0 <= i < |ms| ==> Sendable(ms[i])
  {
    if ms == [] then []
    else
      assert Sendable(ms[0]);
      Encode(ms[0]) + EncodeAll(ms[1..])
  }

  /** `n` messages read one after another. */
  function DecodeMany(s: Bytes, n: nat): (seq<ReadResult>, Bytes)
    decreases n
  {
    if n == 0 then ([], s)
    else
      var (first, rest) := Decode(s);
      var (others, left) := DecodeMany(rest, n - 1);
      ([first] + others, left)
  }

  /** A whole written conversation reads back message by message, keep-alives included. */
  lemma {:induction false} ConversationRoundTrip(ms: seq<Message>, rest: Bytes)
    requires forall i :: 0 <= i < |ms| ==> Sendable(ms[i])
    ensures |DecodeMany(EncodeAll(ms) + rest, |ms|).0| == |ms|
    ensures forall i :: 0 <= i < |ms| ==> DecodeMany(EncodeAll(ms) + rest, |ms|).0[i] == Received(ms[i])
    ensures DecodeMany(EncodeAll(ms) + rest, |ms|).1 == rest
  {
    if ms == [] {
      assert EncodeAll(ms) + rest == rest;
    } else {
      var tail := EncodeAll(ms[1..]) + rest;
      assert EncodeAll(ms) + rest == Encode(ms[0]) + tail;
      ReadsWhatWasWritten(ms[0], tail);
      ConversationRoundTrip(ms[1..], rest);
    }
  }

  // ---- Compact peer lists ----

  /** An address string after parsing; `Unparsed` ones are skipped. The port is whatever integer was parsed. */
  datatype Address = V4(ip: Bytes, port: int) | V6(ip: Bytes, port: int) | Unparsed

  datatype Endpoint = Endpoint(ip: Bytes, port: nat)

  predicate WellSized(a: Address) {
    (a.V4? ==> |a.ip| == 4) && (a.V6? ==> |a.ip| == 16)
  }

  /** The two port bytes: `byte(port >> 8)` and `byte(port & 0xff)`. */
  function PortBytes(port: int): Bytes {
    [(port / 0x100) % 0x100, port % 0x100]
  }

  /** The endpoints of one family, in order, each with the 16-bit port that is sent. */
  function Endpoints(addrs: seq<Address>, v4: bool): seq<Endpoint> {
    if addrs == [] then []
    else
      (match addrs[0]
       case V4(ip, port) => if v4 then [Endpoint(ip, port % 0x1_0000)] else []
       case V6(ip, port) => if v4 then [] else [Endpoint(ip, port % 0x1_0000)]
       case Unparsed => [])
      + Endpoints(addrs[1..], v4)
  }

  function PackAll(peers: seq<Endpoint>): Bytes {
    if peers == [] then [] else peers[0].ip + PortBytes(peers[0].port) + PackAll(peers[1..])
  }

  lemma {:induction false} PackAllAppend(a: seq<Endpoint>, b: seq<Endpoint>)
    ensures PackAll(a + b) == PackAll(a) + PackAll(b)
  {
    if a == [] {
      assert a + b == b;
    } else {
      assert (a + b)[1..] == a[1..] + b;
      PackAllAppend(a[1..], b);
    }
  }

  lemma {:induction false} EndpointsAppend(a: seq<Address>, x: Address, v4: bool)
    ensures Endpoints(a + [x], v4) == Endpoints(a, v4) + Endpoints([x], v4)
  {
    if a != [] {
      assert (a + [x])[1..] == a[1..] + [x];
      EndpointsAppend(a[1..], x, v4);
    }
  }

  lemma PackNext(addrs: seq<Address>, i: nat, v4: bool)
    requires i < |addrs|
    ensures PackAll(Endpoints(addrs[..i + 1], v4))
            == PackAll(Endpoints(addrs[..i], v4))
               + (match addrs[i]
                  case V4(ip, port) => if v4 then ip + PortBytes(port) else []
                  case V6(ip, port) => if v4 then [] else ip + PortBytes(port)
                  case Unparsed => [])
  {
    assert addrs[..i + 1] == addrs[..i] + [addrs[i]];
    EndpointsAppend(addrs[..i], addrs[i], v4);
    PackAllAppend(Endpoints(addrs[..i], v4), Endpoints([addrs[i]], v4));
    if !addrs[i].Unparsed? {
      PortBytesModulo(addrs[i].port);
      PackOne(addrs[i].ip, addrs[i].port % 0x1_0000);
    }
  }

  lemma PortBytesModulo(port: int)
    ensures PortBytes(port % 0x1_0000) == PortBytes(port)
  {
    var q, r := port / 0x1_0000, port % 0x1_0000;
    assert port == 0x1_0000 * q + r;
    assert port / 0x100 == 0x100 * q + r / 0x100;
  }

  lemma PackOne(ip: Bytes, port: nat)
    ensures PackAll([Endpoint(ip, port)]) == ip + PortBytes(port)
  {
    assert PackAll([]) == [];
  }

  lemma EndpointsFirst(x: Address, rest: seq<Address>, v4: bool)
    ensures Endpoints([x] + rest, v4)
            == (match x
                case V4(ip, port) => if v4 then [Endpoint(ip, port % 0x1_0000)] else []
                case V6(ip, port) => if v4 then [] else [Endpoint(ip, port % 0x1_0000)]
                case Unparsed => [])
               + Endpoints(rest, v4)
  {
    assert ([x] + rest)[1..] == rest;
  }

  /** Addresses keep their order, those of the other family and the unparsed ones are left out, and 65979 becomes 443. */
  lemma EndpointsExample(a: Bytes, b: Bytes, c: Bytes)
    ensures Endpoints([V4(a, 6881), Unparsed, V6(b, 80), V4(c, 65979)], true) == [Endpoint(a, 6881), Endpoint(c, 443)]
    ensures Endpoints([V4(a, 6881), Unparsed, V6(b, 80), V4(c, 65979)], false) == [Endpoint(b, 80)]
  {
    EndpointsOfFour(a, b, c, true);
    EndpointsOfFour(a, b, c, false);
  }

  lemma EndpointsOfFour(a: Bytes, b: Bytes, c: Bytes, v4: bool)
    ensures Endpoints([V4(a, 6881), Unparsed, V6(b, 80), V4(c, 65979)], v4)
            == if v4 then [Endpoint(a, 6881), Endpoint(c, 443)] else [Endpoint(b, 80)]
  {
    EndpointsFirst(V4(c, 65979), [], v4);
    EndpointsFirst(V6(b, 80), [V4(c, 65979)], v4);
    EndpointsFirst(Unparsed, [V6(b, 80), V4(c, 65979)], v4);
    EndpointsFirst(V4(a, 6881), [Unparsed, V6(b, 80), V4(c, 65979)], v4);
  }

  /** Ports in network byte order: 6881 is 0x1AE1. */
  lemma PackExample()
    ensures PackAll([Endpoint([192, 0, 2, 1], 6881), Endpoint([192, 0, 2, 2], 443)])
            == [192, 0, 2, 1, 0x1A, 0xE1, 192, 0, 2, 2, 0x01, 0xBB]
  {
    PackOne([192, 0, 2, 2], 443);
  }

  method PackPeers(addrs: seq<Address>) returns (ipv4: Bytes, ipv6: Bytes)
    ensures ipv4 == PackAll(Endpoints(addrs, true)) && ipv6 == PackAll(Endpoints(addrs, false))
  {
    ipv4, ipv6 := [], [];
    var i := 0;
    while i < |addrs|
      invariant 0 <= i <= |addrs|
      invariant ipv4 == PackAll(Endpoints(addrs[..i], true))
      invariant ipv6 == PackAll(Endpoints(addrs[..i], false))
    {
      PackNext(addrs, i, true);
      PackNext(addrs, i, false);
      match addrs[i] {
        case V4(ip, port) => ipv4 := ipv4 + (ip + PortBytes(port));
        case V6(ip, port) => ipv6 := ipv6 + (ip + PortBytes(port));
        case Unparsed =>
      }
      i := i + 1;
    }
    assert addrs[..i] == addrs;
  }

  lemma EntryInside(total: nat, size: nat, i: nat, offset: nat)
    requires size > 0 && total % size == 0 && i < total / size && offset == i * size
    ensures offset + size <= total && offset == Offset(i, size)
  {
    OffsetIsProduct(i, size);
    DivisionBounds(total, size);
    MulNext(i, size);
    MulMonotone(i + 1, total / size, size);
  }

  method UnpackPeers(peers: Bytes, ipLen: nat) returns (addrs: Option<seq<Endpoint>>)
    ensures UnpackResult(peers, ipLen, addrs)
  {
    var peerSize := ipLen + 2;
    if |peers| % peerSize != 0 {
      return None;
    }
    var numPeers := |peers| / peerSize;
    var found := new Endpoint[numPeers](_ => Endpoint([], 0));
    var i := 0;
    while i < numPeers
      invariant 0 <= i <= numPeers
      invariant Unpacks(peers, ipLen, found[..i])
    {
      var offset: nat := i * peerSize;
      EntryInside(|peers|, peerSize, i, offset);
      var ip := peers[offset..offset + ipLen];
      var port := peers[offset + ipLen] as int * 0x100 + peers[offset + ipLen + 1];
      found[i] := Endpoint(ip, port);
      assert found[..i + 1] == found[..i] + [Endpoint(ip, port)];
      i := i + 1;
    }
    return Some(found[..]);
  }

  ghost predicate UnpackResult(peers: Bytes, ipLen: nat, addrs: Option<seq<Endpoint>>) {
    && (addrs.None? <==> |peers| % (ipLen + 2) != 0)
    && (addrs.Some? ==> |addrs.value| == |peers| / (ipLen + 2) && Unpacks(peers, ipLen, addrs.value))
  }

  /** Entry `i` of `found` is what stands at position i * (ipLen + 2). */
  ghost predicate Unpacks(peers: Bytes, ipLen: nat, found: seq<Endpoint>) {
    forall i :: 0 <= i < |found| ==> UnpacksAt(peers, ipLen, found[i], Offset(i, ipLen + 2))
  }

  predicate UnpacksAt(peers: Bytes, ipLen: nat, found: Endpoint, offset: nat) {
    && offset + ipLen + 2 <= |peers|
    && found.ip == peers[offset..offset + ipLen]
    && found.port == peers[offset + ipLen] as int * 0x100 + peers[offset + ipLen + 1]
  }

  lemma {:induction false} EndpointsSized(addrs: seq<Address>, v4: bool)
    requires forall i :: 0 <= i < |addrs| ==> WellSized(addrs[i])
    ensures Sized(Endpoints(addrs, v4), if v4 then 4 else 16)
  {
    if addrs != [] {
      assert WellSized(addrs[0]);
      EndpointsSized(addrs[1..], v4);
    }
  }

  ghost predicate Sized(peers: seq<Endpoint>, ipLen: nat) {
    forall k :: 0 <= k < |peers| ==> |peers[k].ip| == ipLen && peers[k].port < 0x1_0000
  }

  lemma {:induction false} PackedLength(peers: seq<Endpoint>, ipLen: nat)
    requires Sized(peers, ipLen)
    ensures |PackAll(peers)| == |peers| * (ipLen + 2)
  {
    if peers != [] {
      PackedLength(peers[1..], ipLen);
      MulNext(|peers| - 1, ipLen + 2);
    }
  }

  lemma UnpacksTail(head: Bytes, tail: Bytes, ipLen: nat, found: Endpoint, at: nat)
    requires UnpacksAt(head + tail, ipLen, found, at + |head|)
    ensures UnpacksAt(tail, ipLen, found, at)
  {
    assert (head + tail)[at + |head|..at + |head| + ipLen] == tail[at..at + ipLen];
  }

  lemma FirstPacked(peer: Endpoint, rest: Bytes, ipLen: nat, found: Endpoint)
    requires |peer.ip| == ipLen && peer.port < 0x1_0000
    requires UnpacksAt(peer.ip + PortBytes(peer.port) + rest, ipLen, found, 0)
    ensures found == peer
  {
    var all := peer.ip + PortBytes(peer.port) + rest;
    assert all[0..ipLen] == peer.ip && all[ipLen] == peer.port / 0x100 && all[ipLen + 1] == peer.port % 0x100;
  }

  lemma {:induction false} PackedAt(peers: seq<Endpoint>, ipLen: nat, found: Endpoint, k: nat)
    requires Sized(peers, ipLen) && k < |peers|
    requires UnpacksAt(PackAll(peers), ipLen, found, Offset(k, ipLen + 2))
    ensures found == peers[k]
  {
    var head := peers[0].ip + PortBytes(peers[0].port);
    if k == 0 {
      FirstPacked(peers[0], PackAll(peers[1..]), ipLen, found);
    } else {
      UnpacksTail(head, PackAll(peers[1..]), ipLen, found, Offset(k - 1, ipLen + 2));
      PackedAt(peers[1..], ipLen, found, k - 1);
    }
  }

  /** Whatever unpacks a packed list is the list that was packed. */
  lemma UnpackInvertsPack(peers: seq<Endpoint>, ipLen: nat, found: seq<Endpoint>)
    requires Sized(peers, ipLen)
    requires |found| == |peers| && Unpacks(PackAll(peers), ipLen, found)
    ensures found == peers
  {
    forall k | 0 <= k < |peers|
      ensures found[k] == peers[k]
    {
      PackedAt(peers, ipLen, found[k], k);
    }
  }

  lemma WholeEntries(n: nat, size: nat)
    requires size > 0
    ensures n * size % size == 0 && n * size / size == n
  {
    DivisionBounds(n * size, size);
    SameQuotient(n * size, size, n);
  }

  lemma UnpackedWhole(peers: seq<Endpoint>, ipLen: nat, found: Option<seq<Endpoint>>)
    requires Sized(peers, ipLen) && UnpackResult(PackAll(peers), ipLen, found)
    ensures found == Some(peers)
  {
    PackedLength(peers, ipLen);
    WholeEntries(|peers|, ipLen + 2);
    UnpackInvertsPack(peers, ipLen, found.value);
  }

  /** What Announce makes of a packed response: the IPv4 peers, then the IPv6 peers, in their order. */
  method PackThenUnpack(addrs: seq<Address>) returns (peers: seq<Endpoint>)
    requires forall i :: 0 <= i < |addrs| ==> WellSized(addrs[i])
    ensures peers == Endpoints(addrs, true) + Endpoints(addrs, false)
  {
    var ipv4, ipv6 := PackPeers(addrs);
    var peers4 := UnpackPeers(ipv4, 4);
    var peers6 := UnpackPeers(ipv6, 16);
    EndpointsSized(addrs, true);
    EndpointsSized(addrs, false);
    UnpackedWhole(Endpoints(addrs, true), 4, peers4);
    UnpackedWhole(Endpoints(addrs, false), 16, peers6);
    peers := peers4.value + peers6.value;
  }
}
