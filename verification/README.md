# Weightless: a model and its properties

Weightless is a BitTorrent tracker, torrent builder and downloader. This project models the parts of it that are
hard to get right and states what they guarantee. `dafny verify dfyconfig.toml` checks all of it.

The parts lead to one theorem (`EndToEnd.DirectoryRoundTrip`, `EndToEnd.FileRoundTrip`): if a torrent was built from
some files, its info dict was parsed, and the download into what Preallocate made of it returned success, then every file on
disk is the file that was hashed, whatever peers sent and however goroutines were scheduled; or else the disk holds a second
SHA-1 preimage of some piece's hash. `SwarmBridges.dfy` ties the steps of the swarm to the methods that download a piece and
write it.

| file | what it holds |
|---|---|
| `Common.dfy` | bytes, flattening, ceiling division, pieces of a content, counting |
| `SwarmProtocol.dfy` | `Swarm.Start`, its workers, collector and supervisor as a transition system |
| `SwarmTokens.dfy`, `SwarmCounters.dfy`, `SwarmContent.dfy` | the inductive invariants: where each piece index is, counters and addresses, bytes on disk |
| `SwarmTheorems.dfy`, `SwarmShutdown.dfy` | what follows for reachable states and whole runs, and that a cancelled swarm winds down |
| `SwarmEnding.dfy`, `SwarmSupervisor.dfy` | how Start ends and what it returns, and that a stalled swarm is given up |
| `SwarmHope.dfy`, `SwarmPoll.dfy` | when a swarm can still complete, exactly, and where the supervisor's poll is wrong |
| `SwarmDriver.dfy`, `SwarmGuard.dfy` | runs driven by hand, and the bounds that hold if and only if every piece has a hash |
| `SwarmBridges.dfy` | the steps that stand for whole methods are what those methods do |
| `PieceAssembly.dfy`, `Storage.dfy`, `Wire.dfy` | one piece over one connection, pieces to files, messages and compact peers |
| `Bencode.dfy`, `Breaches.dfy`, `Validator.dfy`, `Scanner.dfy`, `Metadata.dfy` | the grammar and the parser as functions, which limit an encoding breaks first, the validator, the flat scanner, the BEP 9 exchange |
| `Merkle.dfy`, `Hashing.dfy` | the padded tree and its piece layer, the two streaming loops |
| `FileTree.dfy`, `ParseInfo.dfy`, `Builder.dfy` | the nested file tree, `parseInfoMap`, `buildDirHybrid` and that the parser accepts what it builds |
| `InfoEncoding.dfy` | the encoding of a built info dict against the validator's limits |
| `Usage.dfy`, `Tracker.dfy` | usage deltas from RAM over SQLite to the Hub; the tracker's memory, announces, flush and load |
| `RateLimit.dfy` | the token bucket with map reset |
| `EndToEnd.dfy` | the whole way from hashing to disk |

Code that updates state in place is a class or a method with loops, proved against a function of the old state; the
properties are lemmas about those functions. The swarm and the usage flush are transition systems: every critical section,
channel operation or answer from outside is one step, and which step comes next is left open. SHA-1, SHA-256 and the
bencode decoder are function parameters. Reads from files arrive cut up in any way. Integers are mathematical
unless the width decides something: `findBencodeEnd` and the wire format write out 64, 32 and 16 bits.

Some findings, each stated by a lemma or a contract:

- The supervisor's poll loads the pool, `inFlight` and `completed` one after the other. It is wrong in two ways: while an address
  has been received but not counted (`GapBeforeCounting`), against the comment in `acquireConn`; and when a worker adds a new address
  and loses its connection between the first two loads. Two torn polls are enough for it to give up a swarm with an address in its
  pool (`FalseExhaustion`). When the load of `inFlight` finds zero, completion is out of reach if and only if the pool is by then
  empty and no worker holds an uncounted address (`VerdictIsRightIff`).
- `findBencodeEnd` indexes out of range, and `FetchMetadata` panics, on a reply with a string length that carries the position
  past 2^63-1 inside a container (`LongLengthFaults`); exactly such length prefixes do it (`FaultIff`, `CheckReply`, `FetchMetadata`),
  and none with at most 18 digits (`ShortLengthsNeverFault`).
- Without a hash for each piece, failures outnumber the queued addresses without bound, and a cancelled swarm may never wind down
  (`FailuresBoundedIff`, `ShutdownsFinishIff`). That is what the guard of `DownloadMVP` is for; the guard also refuses a torrent whose
  files are all empty (`ParsedDescribesContent`).
- A path of 62 to 65 components fits the file tree walk and is built, but its info dict nests deeper than the validator allows
  (`BuiltInfoValidates`).
- A piece of no bytes is written with success even where its offset lies outside all files (`WritePiece`).
- A file whose name holds a backslash can be built into a torrent that the parser then refuses (`BackslashIsRefused`).
- The flat scanner alone accepts buffers that are not bencode at all (`ScannerAloneIsTooLenient`); the validator behind it makes the pair exact (`CheckReply`).
- The validator accepts dictionary keys in any order and more than once (`RepeatedKeyAccepted`).
- A message is written whole if and only if its payload has fewer than 2^32 - 5 bytes; beyond that the 32-bit length wraps and the
  message is cut, or the buffer is too small for its own header (`WrittenWholeIff`).
- The pad leaf matters: with 32 zero bytes instead of their hash, a file keeps its root, without hash clashes, exactly when its block
  count is a power of two (`PadLeafMatters`).

## Model

| member | source | states |
|---|---|---|
| SwarmTheorems.EveryPieceHasOnePlace | internal/client/swarm.go:104-178 | in every reachable uncancelled state each piece index is in exactly one of: work queue, one worker, collector, completed |
| SwarmTheorems.StatusAgreesWithPlace | internal/client/swarm.go:254-287 | the status of each piece fits its place, so an index that is popped is always pending and the collector's re-enqueue always finds room |
| SwarmTokens.TokensStep | internal/client/swarm.go:147-293 | every step of every goroutine keeps the one-place invariant, with the token moved as the step says |
| SwarmTokens.TokensBegin | internal/client/swarm.go:256-262 | the branch that discards a piece that is not pending is unreachable |
| SwarmTokens.QueueHasRoom | internal/client/swarm.go:153-156 | while the collector re-enqueues an index, the bounded work queue is not full |
| SwarmTheorems.RetriesBounded | internal/client/swarm.go:83-97 | no address is queued or dialled twice; with a hash for each piece, failures never exceed the addresses ever queued and pops never exceed pieces plus those |
| SwarmGuard.FailuresBoundedIff | internal/client/downloader.go:35-45 | failures stay within the addresses ever queued, in every reachable state, if and only if every piece has a hash |
| SwarmGuard.UnguardedRetriesForever | internal/client/swarm.go:269-272 | with a hash missing, whatever the pieces and workers, failures exceed the addresses ever queued by any number in some reachable state |
| SwarmTheorems.InFlightCounts | internal/client/swarm.go:299-318 | `inFlight` is the number of workers between its increment and its decrement |
| SwarmTheorems.SuccessWritesEveryPieceOnce | internal/client/swarm.go:147-197 | when Start returns nil, each piece was written exactly once |
| SwarmTheorems.SuccessLeavesGoodPieces | internal/client/swarm.go:160-197 | and the disk holds, for each piece, bytes of its length with its expected hash |
| SwarmEnding.DoneIsStopping | internal/client/swarm.go:174-186 | in every reachable state with all pieces completed the swarm is cancelled, no write has failed, the collector is past its loop and the answer is nil |
| SwarmEnding.DoneReturnsNil | internal/client/swarm.go:174-197 | every maximal run from such a state comes to Start returning nil |
| SwarmEnding.NilIff | internal/client/swarm.go:188-197 | when Start has returned, it returned nil iff every piece was written |
| SwarmEnding.FailureIsReturned | internal/client/swarm.go:160-169 | once a write has failed, the write error is what Start returns, whatever happens afterwards |
| SwarmHope.StalledSwarmNeverCompletes | internal/client/swarm.go:203-228 | from an uncancelled state with the pool empty, `inFlight` zero, pieces remaining and no uncounted address, no continuation without outside AddPeers calls completes every piece, even with one success still in the collector's hands |
| SwarmHope.HopeIsExact | internal/client/swarm.go:232-318 | in every reachable uncancelled state with pieces remaining, if every hash is the hash of something of its size, some continuation without outside addresses ends in Start returning nil if and only if an address is in the pool, or some worker holds one, a connection, a success, or an unknown address it heard of |
| SwarmHope.HopefulCompletes | internal/client/swarm.go:147-293 | from any such state a continuation to Start returning nil exists: a good step is always enabled and brings completion nearer, and then the shutdown runs its course |
| SwarmHope.VerdictIsRightIff | internal/client/swarm.go:213-215 | when the poll's load of `inFlight` finds zero, no continuation completes if and only if the pool is by then empty and no worker holds an address it has not counted yet |
| SwarmSupervisor.EveryStepMovesSo | internal/client/swarm.go:203-228 | only an empty pool, then a zero `inFlight`, then missing pieces lead to a confirmation, only two in a row to the verdict, and any load that sees life starts the count anew |
| SwarmSupervisor.StallLasts | internal/client/swarm.go:203-228 | without outside addresses a stalled swarm stays stalled in every step |
| SwarmSupervisor.StalledIsGivenUp | internal/client/swarm.go:203-228 | along any continuation without outside addresses, a stalled swarm is cancelled at the latest with the seventh move of the supervisor |
| SwarmSupervisor.SupplyExhaustedIff | internal/client/swarm.go:188-197 | Start blames the supply of peers iff pieces are missing, no write failed and the supervisor had confirmed a stall in the run |
| SwarmPoll.FalseExhaustion | internal/client/swarm.go:207-226 | two polls torn between their loads let the supervisor cancel a swarm that an address in the pool keeps alive and that can complete, with no uncounted address involved |
| SwarmPoll.GapBeforeCounting | internal/client/swarm.go:304-308 | a state in which all three loads see a stall while a worker holds an address is reachable |
| SwarmShutdown.StepCloser | internal/client/swarm.go:232-293 | after cancellation, with a hash for each piece, every step but outside addresses and ticks lowers a lexicographic measure over pieces, live connections, pool and phases |
| SwarmShutdown.CancelledSwarmCanStep | internal/client/swarm.go:138-186 | after cancellation some step is always possible until Start has returned: no worker is stuck sending a result |
| SwarmShutdown.ShutdownFinishes | internal/client/swarm.go:138-198 | with a hash for each piece, every maximal continuation after cancellation ends with all workers exited, `inFlight` zero and Start returned, once outside addresses and ticks stop |
| SwarmGuard.ShutdownsFinishIff | internal/client/downloader.go:35-45 | if the hashes that are there are hashes of something, that holds of every cancelled state if and only if every piece has a hash; otherwise a run goes on for ever |
| SwarmBridges.DownloadIsFinish | internal/client/swarm.go:264-287 | whatever the download of the worker's size and hash comes to, success or failure, before or after cancellation, is an outcome that the step of the swarm allows |
| SwarmBridges.WorkerDownloads | internal/client/swarm.go:275-287 | running the download on a connection yields such a step |
| SwarmBridges.CollectorWrites | internal/client/swarm.go:160-165 | running WritePiece yields one of the swarm's two write steps and its disk; the successful one iff the range fits and no file write fails |
| SwarmBridges.Prepare | internal/client/downloader.go:50-58 | storage made from the parsed files has their lengths |
| PieceAssembly.PeerConn.DownloadPiece | internal/client/downloader.go:151-238 | the method's result, choke state and requests sent are those of the message-by-message function, for every peer |
| PieceAssembly.PeerConn.ReceiveBlocks | internal/client/downloader.go:163-229 | the message loop fills the buffer in place as that function says |
| PieceAssembly.RequestsStayInside | internal/client/downloader.go:151-247 | for any message sequence each request asks for 1 to 16384 bytes inside the piece, and earlier requests are left as they were |
| PieceAssembly.TurnAsksNext | internal/client/downloader.go:169-215 | a turn sends at most one request, and that is for min(16384, what is missing) bytes right behind those assembled |
| PieceAssembly.WaitsForWhatItAsked | internal/client/downloader.go:151-229 | after any messages, while the loop waits on a peer that is not choking, the last request sent is for exactly the block that comes next |
| PieceAssembly.RequestIsCarried | internal/client/wire.go:90-97 | every request fits its 12-byte payload, which carries index, begin and length in this order |
| PieceAssembly.StrayChangesNothing | internal/client/downloader.go:163-229 | a block for another piece or offset, or any other message, might as well not have come |
| PieceAssembly.EndingEventEnds | internal/client/downloader.go:163-229 | cancellation, a read error, a choke and a block that overruns the piece end the download each with its own failure, whatever would have followed |
| PieceAssembly.ReturnedPieceIsAssembled | internal/client/downloader.go:191-238 | a returned piece has the size asked for and the expected hash, and is the concatenation, in order, of blocks that each named the very offset where they landed |
| PieceAssembly.HonestPeerSucceeds | internal/client/downloader.go:151-238 | a peer that answers the requests really sent, with the bytes they name, is believed, whether it begins choking or not, for contents up to 4 GiB |
| Storage.Store.WritePiece | internal/client/storage.go:101-160 | success iff the range lies inside the total length (or there are no bytes) and no file write failed; on success the files are the old ones with the range laid over; otherwise no byte changed except to the byte that belongs there |
| Storage.Store.Preallocate | internal/client/storage.go:72-98 | every file gets its declared length and keeps the bytes that fit |
| Storage.OverlayIsSplice | internal/client/storage.go:107-151 | writing file by file is one flat write on the concatenation, whatever the file boundaries and empty files |
| Storage.AnyOrderRebuilds | internal/client/storage.go:101-160 | writing every piece, in any order and with repetitions, rebuilds the content |
| Wire.WriteMessage | internal/client/wire.go:71-87 | the buffer filled in place is the length-prefixed encoding of the message, cut as the 32-bit length says; no buffer iff its size, also 32 bits, leaves no room for the header |
| Wire.WrittenWholeIff | internal/client/wire.go:77-84 | a message is written whole iff its payload has fewer than 2^32 - 5 bytes |
| Wire.EncodedLayout | internal/client/wire.go:77-84 | length first, most significant byte first, counting id and payload; then the id, then the payload; keep-alive is four zero bytes |
| Wire.Stream.ReadMessage | internal/client/wire.go:33-67 | result and bytes left over are those of the decoding function, with each error at its place |
| Wire.ReadsOnlyWhatWasWritten | internal/client/wire.go:33-67 | a message that was read was at the head of the stream in its one encoding |
| Wire.ConversationRoundTrip | internal/client/wire.go:33-87 | any written sequence of messages with payloads up to 2 MiB, keep-alives included, reads back as that sequence with the rest of the stream untouched |
| Wire.PackPeers | internal/tracker/announce.go:172-196 | the two strings are the packed IPv4 and IPv6 endpoints in order, unparsable addresses skipped, ports cut to 16 bits |
| Wire.PackExample | internal/tracker/announce.go:172-196 | two endpoints byte for byte, ports in network byte order |
| Wire.EndpointsExample | internal/tracker/announce.go:172-196 | addresses keep their order, the other family and unparsed ones are left out, ports are cut to 16 bits |
| Wire.UnpackPeers | internal/client/tracker.go:111-128 | refused iff the length is not a multiple of the entry size; otherwise entry i is what stands at its offset |
| Wire.PackThenUnpack | internal/client/tracker.go:97-128 | unpacking what PackPeers packs gives the IPv4 peers and then the IPv6 peers, each in original order |
| Bencode.ValueSound | internal/bencode/validate.go:99-250 | what the parser accepts is the encoding of the value it read, within the depth, string, list and key limits |
| Bencode.ValueComplete | internal/bencode/validate.go:99-250 | the encoding of any value within the limits is accepted, and consumed exactly |
| Bencode.EncodingIsPrefixFree | internal/bencode/validate.go:99-250 | no encoding within the limits begins another |
| Bencode.EncodingIsInjective | internal/bencode/validate.go:99-250 | different values, limits or not, have different encodings below 2^31 bytes |
| Bencode.GuardAllowsMaxStrLen | internal/bencode/validate.go:158-197 | with 0 < MaxStrLen <= 2^31-1 the overflow guard rejects no length that MaxStrLen allows |
| Bencode.ScalarExamples | internal/bencode/validate.go:121-198 | -42 and "spam" byte for byte, as BEP 3 gives them |
| Bencode.ContainerShapes | internal/bencode/validate.go:200-250 | lists and dictionaries in their delimiters, items in order, each key before its value |
| Breaches.EncodingIsJudged | internal/bencode/validate.go:99-250 | whatever the limits, an encoding parses to its value, or fails with the first limit that reading the value front to back breaks |
| Breaches.NoBreachIffWithin | internal/bencode/validate.go:15-39 | a value breaks no limit in that reading iff it is within the limits |
| Validator.Validate | internal/bencode/validate.go:79-97 | accepts iff the size is within its limit and the data is the encoding of a value within the limits; too large iff the size is not; trailing data iff a proper prefix is such an encoding; on any encoding the error is the first limit that its value breaks |
| Validator.Parser.Value | internal/bencode/validate.go:99-119 | the recursive method moves `pos` and fails exactly as the parsing function says |
| Validator.Parser.Integer | internal/bencode/validate.go:121-156 | the same for integers: no leading zero, no minus zero |
| Validator.Parser.ByteString | internal/bencode/validate.go:158-198 | the same for strings, digit loop and guards included |
| Validator.Parser.DictValue | internal/bencode/validate.go:222-250 | the same for dictionaries: key count checked before each entry |
| Validator.AcceptedValueIsUnique | internal/bencode/validate.go:79-97 | the accepted value is the only one |
| Validator.RepeatedKeyAccepted | internal/bencode/validate.go:222-250 | a dictionary with the same key twice keeps the limits |
| Scanner.FindBencodeEnd | internal/client/metadata.go:138-198 | the loop computes the scan function, 64-bit wrap-around of positions included |
| Scanner.ScannerAgrees | internal/client/metadata.go:138-198 | if a prefix of a buffer is a value the validator accepts, the scanner returns exactly that prefix's length, whatever follows |
| Scanner.ScannerAloneIsTooLenient | internal/client/metadata.go:138-198 | the converse fails without the validator: a concrete buffer |
| Scanner.FaultIff | internal/client/metadata.go:169-189 | the scan indexes out of range iff it meets, at a depth other than zero, a length prefix that passes the digit check and ends at 2^63 or later |
| Scanner.LongLengthFaults | internal/client/metadata.go:169-189 | a family of inputs that do it, whatever bytes follow |
| Scanner.ShortLengthsNeverFault | internal/client/metadata.go:169-189 | a buffer without length prefixes of more than 18 digits never does |
| Metadata.SplitIsForced | internal/client/metadata.go:56-67 | any header and data that a reply splits into are separated where the scanner stops |
| Metadata.CheckReply | internal/client/metadata.go:52-98 | a reply is accepted iff it splits into a good header for that piece and data of the wanted length, and then that data is returned; the program panics on it iff the scan does |
| Metadata.FetchMetadata | internal/client/metadata.go:28-110 | returns metadata iff the replies carry it piece by piece and it has the info hash; it is then the only one they carry; panics iff the first reply that is not good is one on which the scan does; pieces are requested once each, in order, all of them before success |
| Merkle.NextPowerOfTwo | internal/torrent/torrent.go:560-569 | the least power of two that is not below n |
| Merkle.PowerOfTwoExponent | internal/torrent/torrent.go:556-558 | `n & (n-1) == 0` means a power of two |
| Merkle.BuildMerkleTree | internal/torrent/torrent.go:506-537 | level 0 is the leaves padded to the least power of two, every further level hashes neighbours in pairs, the last is one hash |
| Merkle.RootOfFour | internal/torrent/torrent.go:523-534 | the tree over four leaves hashes left before right |
| Merkle.LevelHoldsRoots | internal/torrent/torrent.go:523-534 | entry i of level j is the root, by halving, over the i-th group of 2^j leaves |
| Merkle.PieceLayerIsRight | internal/torrent/torrent.go:540-554 | with more than one piece neither clamp applies, and the extracted layer has, for each piece, the root over its own padded leaves |
| Merkle.PieceLayerFoldsToRoot | internal/torrent/torrent.go:461-475 | padding that layer with all-pad subtree roots and folding it gives the same root |
| Merkle.PadLeafMatters | internal/torrent/torrent.go:513-519 | trees over the same leaves with different pad leaves have the same root, unless two inputs at one node clash, iff there is nothing to pad |
| Hashing.HashReader | internal/torrent/torrent.go:417-483 | fails iff the reader fails; otherwise v1 hashes are those of the pieces of the stream, the root is over its 16 KiB blocks, and, when the stream is as long as announced and has more than one piece, the layer has ceil(size/pieceLen) entries, the i-th being the root of piece i's padded blocks, and folds to the root |
| Hashing.HashStream | internal/torrent/torrent.go:433-459 | one pass gives both the block hashes and the v1 piece hashes, however the reads are cut |
| Hashing.FeedFile | internal/torrent/torrent.go:330-367 | one file goes through the running hash; full chunks so far are hashed in order and the rest is pending |
| Hashing.ChunksArePieces | internal/torrent/torrent.go:297-373 | cutting a content every pieceLen bytes gives ceil(size/pieceLen) chunks, the i-th being piece i |
| Hashing.V1PieceHash | internal/torrent/torrent.go:341-373 | the 20 bytes at position 20*i of the pieces string are the hash of piece i |
| Hashing.V1PiecesLength | internal/torrent/parse.go:151-159 | the pieces string has 20 bytes for each piece |
| Hashing.LayerOfPieces | internal/torrent/torrent.go:470-475 | groups of leaves are the blocks of the pieces, so a piece layer over leaves is one over pieces of the content |
| Builder.BuildDirectory | internal/torrent/torrent.go:255-373 | fails iff there is no file or one cannot be read; otherwise the tree, the v1 list, the v1 hashes of the pieces of the concatenation, and the piece layers |
| Builder.LayerIsStored | internal/torrent/torrent.go:312-320 | each file of more than one piece has a layer stored under its root, that of the last file with the same root |
| Builder.TreeHoldsRoots | internal/torrent/torrent.go:461-502 | looking up a file in the built tree gives its length and, iff it is not empty, a `pieces root` that is a root of its content; with more than one piece and the size right, that root is a key of the layers |
| Builder.LayerKeys | internal/torrent/torrent.go:312-320 | the keys of the layers are exactly the roots of files that have a layer |
| Builder.BuildFile | internal/torrent/torrent.go:203-252 | fails iff a file that is not empty cannot be read; otherwise the info dict of the hashed file, and one layer under its root if it has more than one piece, none if it has one or no piece |
| Builder.SingleHoldsRoot | internal/torrent/torrent.go:213-225 | the single file is found in the tree with the root of its content |
| Builder.BuiltDirectoryParses | internal/torrent/parse.go:112-159 | the parser accepts a built directory iff every path is safe and as many pieces were hashed as the sizes announce, and reads back the same files, total and hashes |
| Builder.BackslashIsRefused | internal/torrent/parse.go:213-236 | a built directory with a file called a\b is refused |
| Builder.BuiltFileParses | internal/torrent/torrent.go:213-252 | the same for one file and its name |
| Builder.TreeAgreesWithList | internal/torrent/torrent.go:486-502 | the v2 tree, walked in any order, names the same files as the v1 list iff the paths are safe, at most 65 long, and none is another or a prefix of another |
| FileTree.Walk | internal/torrent/parse.go:242-278 | whatever the map order: an error iff some reachable name is refused, otherwise each file within 65 levels exactly once |
| FileTree.SafeJoin | internal/torrent/parse.go:213-236 | refuses exactly the empty list and unsafe components |
| FileTree.JoinIsInjective | internal/torrent/parse.go:213-236 | different safe component lists give different joined paths |
| FileTree.JoinStaysInside | internal/torrent/parse.go:213-236 | a joined path falls apart into the components it was made of, goes down one directory with each, never climbs, and has no backslash or NUL |
| FileTree.SafeIffPlainAndDown | internal/torrent/parse.go:213-236 | a component is refused iff it holds a separator or NUL or does not lead one directory down |
| FileTree.InsertThenLookup | internal/torrent/torrent.go:486-502 | after an insertion the path leads to the entry inserted, and every other path to what it led to before |
| FileTree.FileTreeRoundTrip | internal/torrent/torrent.go:486-502 | inserting files and walking returns exactly their paths and lengths as a multiset iff the paths are safe, at most 65 long, and none is another or a prefix of another |
| ParseInfo.ParseInfoMap | internal/torrent/parse.go:77-167 | accepts iff the header is sound, the files it describes are safe and the hash count fits, on any decoded dict; then name, files, total and piece count are those it describes |
| ParseInfo.AcceptedIsConsistent | internal/torrent/parse.go:98-164 | an accepted dict's total is the sum of its lengths and, if they are not negative, its piece count is ceil(total/pieceLength) with 20 hash bytes each |
| ParseInfo.ParseIsDetermined | internal/torrent/parse.go:137-147 | two parses of one dict differ at most in the order of the files |
| ParseInfo.TreeIsIgnored | internal/torrent/parse.go:137-148 | once the v1 fields name a file, the file tree decides nothing |
| ParseInfo.TreeAloneParses | internal/torrent/parse.go:137-164 | a v2 dict without v1 fields is accepted with exactly the files placed in its tree |
| ParseInfo.BothFieldsSpeak | internal/torrent/parse.go:98-134 | a `length` and a `files` list add up |
| ParseInfo.StrayItemsAreIgnored | internal/torrent/parse.go:109-114 | items of the `files` list that are no dicts are passed over |
| ParseInfo.StrayPartsAreIgnored | internal/torrent/parse.go:121-126 | parts of a path that are no strings are passed over |
| InfoEncoding.WithinIffAllowed | internal/bencode/validate.go:33-39 | an encoding of a decoded value, with dictionary entries in any order, keeps the limits iff the value does |
| InfoEncoding.TreeAllowed | internal/torrent/torrent.go:486-502 | a built file tree keeps the limits iff no path has more than 61 components or a component over 8 MiB, and no directory more than 16384 names |
| InfoEncoding.BuiltInfoValidates | internal/torrent/parse.go:60-68 | the validator accepts the encoding of a built info dict iff it has at most 16 MiB, name and pieces string at most 8 MiB, at most 131072 files, and a tree that keeps the limits |
| Usage.NeverUnderCounted | internal/tracker/state.go:279-416 | over every run and every outcome of POSTs, backups and deletes: Hub + RAM + backlog is what was credited plus exactly what was duplicated or is under way, hence never less; RAM covers the payload; nothing is negative |
| Usage.ExactBetweenFlushes | cmd/tracker/main.go:37-57 | between flushes of a run in which nothing applied went unanswered, Hub + RAM + backlog is exactly what was credited |
| Usage.HubHasEverything | cmd/tracker/main.go:100-117 | once RAM and backlog are empty the Hub has at least what was credited |
| Usage.CleanFlushMoves | internal/tracker/state.go:279-333 | a flush without faults adds all of RAM to the Hub and leaves in RAM exactly what was announced meanwhile |
| Usage.RefusedFlushMoves | internal/tracker/state.go:279-360 | a flush that the Hub refuses and that is backed up adds all of RAM to the backlog instead, with the Hub unchanged |
| Usage.UnansweredFlushKeeps | internal/tracker/state.go:279-333 | a POST without an answer leaves RAM and backlog as they are |
| Usage.CleanDrainMoves | internal/tracker/state.go:363-416 | a drain that is answered and deletes takes exactly the picked rows out of the backlog, and the Hub gains them |
| Usage.InvKept | internal/tracker/state.go:279-416 | every step of announces, flush and drain keeps the conservation law |
| Usage.RowsForPayload | internal/tracker/state.go:336-360 | the rows that a backup inserts, in any order, add up to the payload for each user |
| Usage.GatherIsRows | internal/tracker/state.go:376-395 | DrainBacklog's payload has for each user the sum of that user's rows |
| Tracker.SwarmState.TrackUsage | internal/tracker/state.go:80-89 | the delta is added to that user's entry and to nothing else |
| Tracker.SwarmState.SubtractSent | internal/tracker/state.go:316-330 | the loop takes off exactly what was sent and forgets users with nothing left |
| Tracker.SwarmState.BackupUsage | internal/tracker/state.go:336-360 | success is reported iff every operation succeeded; rows for the whole payload are stored then, and also if only the commit reported failure and landed; otherwise none are |
| Tracker.SwarmState.GatherRows | internal/tracker/state.go:376-395 | the accumulating loop computes that payload |
| Tracker.SwarmState.Announce | internal/tracker/announce.go:99-128 | peers and usage after an announce, with each delta clamped on its own |
| Tracker.AnnounceReplacesPeer | internal/tracker/announce.go:99-128 | after a stopped announce the peer is gone, after any other it is the report; every other peer is as it was |
| Tracker.AnnounceCreditsIncrease | internal/tracker/announce.go:99-119 | a stopped announce, a first one, one without a user or without an increase changes no usage; any other credits its user exactly the increases, and nobody else |
| Tracker.CreditsTelescope | internal/tracker/announce.go:103-119 | over announces of one peer, one at a time, a user is credited last minus first plus what the counter dropped on the way |
| Tracker.SwarmState.GetCounts | internal/tracker/state.go:191-204 | the numbers of seeders and leechers, for any map order |
| Tracker.CountsGrow | internal/tracker/state.go:191-204 | a new peer raises the first number if it has nothing left and the second otherwise |
| Tracker.CountsAddUp | internal/tracker/state.go:191-204 | both numbers together are the number of peers |
| Tracker.SwarmState.GetPeers | internal/tracker/state.go:167-188 | as many different other peers as there are, up to the limit |
| Tracker.SwarmState.FlushToDB | internal/tracker/state.go:207-247 | the table holds exactly the peers in memory, one row each, if every operation succeeded or only the commit reported failure and landed; if any other operation fails the old table is whole |
| Tracker.SwarmState.LoadFromDB | internal/tracker/state.go:103-142 | memory is the scanned rows laid one after another over what was there; success iff the query and the iteration finished |
| Tracker.RestartIsInvisible | internal/tracker/state.go:92-142 | loading what was flushed answers every GetPeer and GetCounts as before; only empty swarms are gone |
| RateLimit.RateLimiter.Allow | internal/tracker/ratelimit.go:36-68 | the new buckets and the answer, map reset and both clock readings included |
| RateLimit.RateBound | internal/tracker/ratelimit.go:36-68 | in any run over time T one IP is allowed at most burst*(1+resets) + rate*T times |
| RateLimit.MemoryBound | internal/tracker/ratelimit.go:40-44 | resets*maxIPs < number of calls; at most maxIPs entries; tokens stay in [0, burst] |
| RateLimit.TokensAreLevel | internal/tracker/ratelimit.go:46-67 | in any run the tokens of an IP are the burst, plus rate times the time since its bucket was last full, minus its calls allowed since then |
| RateLimit.RefusedIff | internal/tracker/ratelimit.go:46-67 | a call of a known IP, with no reset, is refused iff that level is below one, and a refused call leaves the level as it was |
| RateLimit.BurstIsAllowed | internal/tracker/ratelimit.go:46-67 | without a reset, an IP not yet known is allowed every one of its next calls while they number at most the burst, however close together |
| RateLimit.PatientIsAllowed | internal/tracker/ratelimit.go:46-67 | with a burst of at least 1, an unknown IP, or one that waited long enough for a token, is never refused |
| EndToEnd.SuccessRestoresContent | internal/client/swarm.go:147-197 | a torrent that describes a content, downloaded with success, leaves that content on disk, or a second preimage of a piece's hash |
| EndToEnd.ParsedDescribesContent | internal/client/downloader.go:35-45 | an accepted dict whose hashes are those of a content describes it, and both checks of the guard pass iff the content is not empty |
| EndToEnd.DirectoryRoundTrip | internal/torrent/torrent.go:255-373 | built, parsed, preallocated and downloaded by Start, every file on disk is the file that was hashed, or the disk holds a second preimage of a piece's hash |
| EndToEnd.FileRoundTrip | internal/torrent/torrent.go:203-252 | the same for a torrent of one file |

## Left out

- FileTree.Insert: models the nested maps as values; updating them in place through references is not captured, and the type assertion that would panic on a non-map node is not reached on trees that it built.
- SwarmPoll.FalseExhaustion: time is not modelled; polls, their loads and the count of confirmations are, but not that polls lie a quarter of a second apart.
- SwarmShutdown.ShutdownFinishes: that ticks stop stands for the supervisor's `select` taking the cancelled branch in the end when a tick is ready as well.
- SwarmGuard.ShutdownsFinishIff: when hashes are not hashes of anything, only that a hash for each piece is enough is stated; whether a cancelled swarm with some hashes missing can go on for ever then depends on how many workers there are to hold the other pieces.
- SwarmProtocol: the collector's local `completed` and the atomic that mirrors it are one counter; deadlines, the ticker and the context watcher are environment steps; the module's comment lists the accesses that one step holds together.
- PieceAssembly.PeerConn.DownloadPiece: messages that only feed peer exchange are turns without effect; the addresses they bring are steps of the swarm.
- Metadata.FetchMetadata: takes the payloads that `readMetadataReply` hands over; its skipping of other messages and its message limit are not modelled.
- Scanner.FindBencodeEnd: buffers of 2^63 bytes or more are excluded, and a position that wrapped below zero ends the model where the code would index out of range.
- Storage.Store.WritePiece: files are indexed by position, so two entries with the same path are two files; opening a file anew for each write is part of that write's success or failure.
- ParseInfo.ParseInfoMap: lengths and their sum are mathematical integers, not 64-bit ones; paths stay component lists, see FileTree.JoinIsInjective; Windows volume names are not modelled.
- Hashing.HashReader: when the stream is shorter or longer than announced, nothing is stated of the piece layer.
- Merkle.BuildMerkleTree: the pad leaf is the hash of 32 zero bytes, as in the code; no conformance with BEP 52 is claimed for it, see Merkle.PadLeafMatters.
- Builder.BuildDirectory: the directory walk and the sorting by path are the caller's; `source` and `private` entries, which the parser ignores, are not in the info dict.
- InfoEncoding.BuiltInfoValidates: `orderedDict` and the library's encoder are any encoder that writes each key once; decoding what was validated is the library's.
- Usage.NeverUnderCounted: a crash that loses RAM is not a step, and a 200 is taken to mean that the Hub applied the payload once.
- Tracker.CreditsTelescope: announces of one peer are taken one at a time; reading the old peer, crediting and updating are separate critical sections in the code.
- RateLimit.RateLimiter.Allow: floating point is modelled by real numbers.
- HTTP handlers, SQL text, registry search, JSON, metrics and logging: plumbing over libraries.
- TCP and the handshake, `net.ParseIP`, `os.Root`, symlinks and path cleaning: operating system and library behaviour.
- Bitfields, announce recognition, magnet links, passkeys, `VerifyInfoHash`, `PruneMemory` and web seeds: single checks that would only add easy members.
