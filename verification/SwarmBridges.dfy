/** The steps of the swarm that stand for whole methods are what those methods do. */
module SwarmBridges {
  import opened Common
  import opened SwarmProtocol
  import PieceAssembly
  import Storage
  import FileTree
  import EndToEnd

  /** The result of a download, as the worker sees it. */
  function OutcomeOf(r: PieceAssembly.Result): Outcome {
    match r
    case Ok(data) => Fetched(data)
    case Err(_) => Failed
  }

  /** A download that begins after cancellation finds the context cancelled in its first turn, if it has one. */
  lemma LateDownloadFails(index: nat, size: nat, expected: Bytes, sha1: Bytes -> Bytes, firstWriteFails: bool,
                          events: seq<PieceAssembly.Event>, choking: bool, sent: seq<PieceAssembly.Request>)
    requires size > 0 && (events == [] || events[0].Cancel?)
    ensures PieceAssembly.Download(index, size, expected, sha1, firstWriteFails, events, choking, sent).0.Err?
  {
  }

  /** Whatever downloadPiece comes to, for the size and hash that the worker computes, is an outcome that Finish allows. */
  lemma DownloadIsFinish(c: Config, s: State, w: nat, firstWriteFails: bool, events: seq<PieceAssembly.Event>,
                         choking: bool, sent: seq<PieceAssembly.Request>, pex: seq<Addr>, result: PieceAssembly.Result)
    requires w < |s.workers| && s.workers[w].Downloading?
    requires HasHash(c, s.workers[w].index) && PieceSize(c, s.workers[w].index) >= 0
    requires s.workers[w].late ==> events == [] || events[0].Cancel?
    requires var i := s.workers[w].index;
             result == PieceAssembly.Download(i, PieceSize(c, i), c.pieces[i * 20..(i + 1) * 20], c.sha1,
                                              firstWriteFails, events, choking, sent).0
    ensures Enabled(c, s, Finish(w, OutcomeOf(result), pex))
  {
    var i := s.workers[w].index;
    var size, expected := PieceSize(c, i), c.pieces[i * 20..(i + 1) * 20];
    if result.Ok? {
      PieceAssembly.ReturnedPieceIsAssembled(i, size, expected, c.sha1, firstWriteFails, events, choking, sent);
      if s.workers[w].late && size > 0 {
        LateDownloadFails(i, size, expected, c.sha1, firstWriteFails, events, choking, sent);
      }
    }
  }

  /** Finish is downloadPiece. */
  method WorkerDownloads(c: Config, s: State, w: nat, conn: PieceAssembly.PeerConn, firstWriteFails: bool,
                         events: seq<PieceAssembly.Event>, pex: seq<Addr>)
    returns (result: PieceAssembly.Result, step: Step)
    requires w < |s.workers| && s.workers[w].Downloading?
    requires HasHash(c, s.workers[w].index) && PieceSize(c, s.workers[w].index) >= 0
    requires s.workers[w].late ==> events == [] || events[0].Cancel?
    modifies conn
    ensures step == Finish(w, OutcomeOf(result), pex) && Enabled(c, s, step)
  {
    var i := s.workers[w].index;
    ghost var choking, sent := conn.PeerChoking, conn.sent;
    result := conn.DownloadPiece(i, PieceSize(c, i), c.pieces[i * 20..(i + 1) * 20], c.sha1, firstWriteFails, events);
    step := Finish(w, OutcomeOf(result), pex);
    DownloadIsFinish(c, s, w, firstWriteFails, events, choking, sent, pex, result);
  }

  /** WriteOk and WriteFail are WritePiece: each of its outcomes is one of the two steps, and leaves the disk as that step does. */
  method CollectorWrites(c: Config, s: State, store: Storage.Store, fault: map<nat, nat>) returns (step: Step)
    requires s.collector.GotData? && store.Valid() && store.disk == s.disk
    modifies store
    ensures Enabled(c, s, step) && Do(c, s, step).disk == store.disk
    ensures step == WriteOk || step == WriteFail(store.disk)
    ensures step == WriteOk <==> InRange(c, s) && !Storage.FaultHit(s.disk, s.collector.index * c.pieceLength, |s.collector.data|, fault)
  {
    var ok := store.WritePiece(s.collector.index, c.pieceLength, s.collector.data, fault);
    step := if ok then WriteOk else WriteFail(store.disk);
  }

  /** A run starts on what Preallocate makes of the parsed files. */
  method Prepare(files: seq<FileTree.FileEntry>, before: seq<Bytes>) returns (store: Storage.Store)
    requires |before| == |files| && forall i :: 0 <= i < |files| ==> files[i].length >= 0
    ensures fresh(store) && store.Valid() && EndToEnd.Preallocated(store.disk, files)
  {
    var lengths: seq<nat> := seq(|files|, i requires 0 <= i < |files| => files[i].length);
    store := new Storage.Store(lengths, before);
    store.Preallocate();
  }
}
