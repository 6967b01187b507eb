/** What has been written, what workers hold, and what the disk therefore contains. */
module SwarmContent {
  import opened Common
  import opened Storage
  import opened SwarmProtocol
  import opened SwarmTokens

  /** The written pieces are the completed ones, and the one the collector has just put on disk. */
  ghost predicate Ledger(c: Config, s: State) {
    && NoDup(s.writes)
    && |s.pieces| == c.pieceCount
    && (forall i: nat :: i in s.writes <==> (i < c.pieceCount && s.pieces[i] == Completed) || s.collector == Written(i))
    && s.completed + (if s.collector.Written? then 1 else 0) == |s.writes|
  }

  lemma LedgerCollector(c: Config, s: State, step: Step, place: seq<Place>)
    requires Enabled(c, s, step) && Tokens(c, s, place) && Ledger(c, s)
    requires step.WriteOk? || step.MarkDone? || step.MarkPending?
    ensures Ledger(c, Do(c, s, step))
  {
    var i := s.collector.index;
    assert HeldByCollector(s.collector) == Some(i);
    assert StatusFits(s.pieces[i], s.workers, s.collector, s.cancelled, place[i]);
    if step.WriteOk? {
      NoDupAppend(s.writes, i);
    }
  }

  lemma LedgerBegin(c: Config, s: State, w: nat, place: seq<Place>)
    requires Enabled(c, s, Begin(w)) && Tokens(c, s, place) && Ledger(c, s)
    ensures Ledger(c, Do(c, s, Begin(w)))
  {
    TokensBegin(c, s, w, place);
  }

  lemma LedgerStep(c: Config, s: State, step: Step, place: seq<Place>)
    requires Enabled(c, s, step) && Tokens(c, s, place) && Ledger(c, s)
    ensures Ledger(c, Do(c, s, step))
  {
    if step.WriteOk? || step.MarkDone? || step.MarkPending? {
      LedgerCollector(c, s, step, place);
    } else if step.Begin? {
      LedgerBegin(c, s, step.w, place);
    } else if IsWorkerStep(step) {
      WorkerStepIs(c, s, step);
      LedgerWorker(c, s, step, s.workers[step.w]);
    } else {
      LedgerOther(c, s, step);
    }
  }

  lemma LedgerWorker(c: Config, s: State, step: Step, me: Worker)
    requires IsWorkerStep(step) && !step.Begin? && EnabledWorker(c, s, step, me)
    ensures var s' := Shared(c, s, step, me);
            && s'.pieces == s.pieces && s'.writes == s.writes && s'.completed == s.completed
            && (s'.collector == s.collector || (s.collector.Receiving? && !s'.collector.Written?))
  {
  }

  lemma WorkerKeepsDisk(c: Config, s: State, step: Step, me: Worker)
    requires IsWorkerStep(step) && EnabledWorker(c, s, step, me)
    ensures Shared(c, s, step, me).disk == s.disk && Shared(c, s, step, me).writes == s.writes
    ensures Shared(c, s, step, me).failed == s.failed
  {
  }

  lemma LedgerOther(c: Config, s: State, step: Step)
    requires Enabled(c, s, step) && Ledger(c, s)
    requires !IsWorkerStep(step) && !step.WriteOk? && !step.MarkDone? && !step.MarkPending?
    ensures Ledger(c, Do(c, s, step))
  {
  }

  /** Bytes a worker or the collector holds for a piece hash to the expected value. */
  predicate GoodInHand(c: Config, me: Worker) {
    match me
    case Harvesting(i, Fetched(data), _) => GoodPiece(c, i, data)
    case ReportingDone(i, data) => GoodPiece(c, i, data)
    case _ => true
  }

  ghost predicate InHand(c: Config, s: State) {
    && (forall w :: 0 <= w < |s.workers| ==> GoodInHand(c, s.workers[w]))
    && (s.collector.GotData? ==> GoodPiece(c, s.collector.index, s.collector.data))
  }

  lemma InHandStep(c: Config, s: State, step: Step)
    requires Enabled(c, s, step) && InHand(c, s)
    ensures InHand(c, Do(c, s, step))
  {
    if IsWorkerStep(step) {
      var me := s.workers[step.w];
      assert GoodInHand(c, me);
      assert GoodInHand(c, NextPhase(c, s, step, me));
    }
  }

  /** The bytes of piece `i` in a flat image of the files. */
  function OnDisk(c: Config, flat: Bytes, i: nat): Bytes
    requires i * c.pieceLength <= |flat|
  {
    flat[i * c.pieceLength..Min(i * c.pieceLength + Max(PieceSize(c, i), 0), |flat|)]
  }

  ghost predicate DiskGood(c: Config, s: State) {
    && |Flatten(s.disk)| == c.totalSize
    && forall i: nat :: i in s.writes ==> PieceOnDisk(c, Flatten(s.disk), i)
  }

  predicate PieceOnDisk(c: Config, flat: Bytes, i: nat) {
    i * c.pieceLength <= |flat| && GoodPiece(c, i, OnDisk(c, flat, i))
  }

  ghost predicate Content(c: Config, s: State) {
    !s.failed ==> DiskGood(c, s)
  }

  /** Two different pieces occupy disjoint ranges. */
  lemma DisjointPieces(c: Config, i: nat, j: nat)
    requires WellFormed(c) && i != j
    ensures i * c.pieceLength + PieceSize(c, i) <= j * c.pieceLength
            || j * c.pieceLength + PieceSize(c, j) <= i * c.pieceLength
  {
    if i < j {
      MulMonotone(i + 1, j, c.pieceLength);
      MulNext(i, c.pieceLength);
    } else {
      MulMonotone(j + 1, i, c.pieceLength);
      MulNext(j, c.pieceLength);
    }
  }

  lemma SizePositive(c: Config, i: nat)
    requires WellFormed(c) && i < c.pieceCount
    ensures 0 < PieceSize(c, i) <= c.pieceLength && i * c.pieceLength + PieceSize(c, i) <= c.totalSize
    ensures PieceSize(c, i) == Min(c.pieceLength, c.totalSize - i * c.pieceLength)
  {
    PieceBegins(c.totalSize, c.pieceLength, i);
  }

  lemma SpliceOnDisk(c: Config, flat: Bytes, i: nat, data: Bytes, j: nat)
    requires WellFormed(c) && |flat| == c.totalSize && i < c.pieceCount && |data| == PieceSize(c, i)
    requires j < c.pieceCount
    ensures i * c.pieceLength + |data| <= |flat| && j * c.pieceLength <= |flat|
    ensures OnDisk(c, Splice(flat, i * c.pieceLength, data), j) == if i == j then data else OnDisk(c, flat, j)
  {
    SizePositive(c, i);
    SizePositive(c, j);
    if i != j {
      DisjointPieces(c, i, j);
    }
  }

  lemma SplicePieces(c: Config, flat: Bytes, i: nat, data: Bytes, j: nat)
    requires WellFormed(c) && |flat| == c.totalSize && i < c.pieceCount && j < c.pieceCount
    requires GoodPiece(c, i, data) && (j == i || PieceOnDisk(c, flat, j))
    ensures i * c.pieceLength + |data| <= |flat|
    ensures PieceOnDisk(c, Splice(flat, i * c.pieceLength, data), j)
  {
    SpliceOnDisk(c, flat, i, data, j);
  }

  lemma WriteContent(c: Config, s: State, place: seq<Place>)
    requires WellFormed(c) && Enabled(c, s, WriteOk) && Tokens(c, s, place) && Ledger(c, s) && InHand(c, s)
    requires DiskGood(c, s)
    ensures DiskGood(c, Do(c, s, WriteOk))
  {
    var i, data, flat := s.collector.index, s.collector.data, Flatten(s.disk);
    var s' := Do(c, s, WriteOk);
    assert HeldByCollector(s.collector) == Some(i);
    SplicePieces(c, flat, i, data, i);
    OverlayIsSplice(s.disk, i * c.pieceLength, data);
    forall j: nat | j in s'.writes
      ensures PieceOnDisk(c, Flatten(s'.disk), j)
    {
      assert j == i || j in s.writes;
      SplicePieces(c, flat, i, data, j);
    }
  }

  lemma ContentStep(c: Config, s: State, step: Step, place: seq<Place>)
    requires WellFormed(c) && Enabled(c, s, step) && Tokens(c, s, place) && Ledger(c, s) && InHand(c, s) && Content(c, s)
    ensures Content(c, Do(c, s, step))
  {
    if step.WriteOk? {
      if !s.failed {
        WriteContent(c, s, place);
      }
    } else if !step.WriteFail? {
      OthersKeepDisk(c, s, step);
    }
  }

  lemma OthersKeepDisk(c: Config, s: State, step: Step)
    requires Enabled(c, s, step) && !step.WriteOk? && !step.WriteFail?
    ensures Do(c, s, step).disk == s.disk && Do(c, s, step).writes == s.writes && Do(c, s, step).failed == s.failed
  {
    if IsWorkerStep(step) {
      WorkerStepIs(c, s, step);
      WorkerKeepsDisk(c, s, step, s.workers[step.w]);
    }
  }

  /** A worker that has had a connection since it last waited for an address. */
  predicate InSession(me: Worker) {
    me.Connected? || me.Popped? || me.Downloading? || me.Harvesting?
    || me.ReportingNoHash? || me.ReportingLost? || me.ReportingDone?
  }

  predicate HoldsSuccess(collector: Collector) {
    collector.GotData? || collector.Written?
  }

  /** While the collector deals with a success, the worker that sent it has not gone back to waiting. */
  ghost predicate SenderStays(s: State) {
    !s.cancelled && HoldsSuccess(s.collector) ==> exists w :: 0 <= w < |s.workers| && InSession(s.workers[w])
  }

  lemma SenderStaysStep(c: Config, s: State, step: Step)
    requires Enabled(c, s, step) && SenderStays(s)
    ensures SenderStays(Do(c, s, step))
  {
    var s' := Do(c, s, step);
    if !s'.cancelled && HoldsSuccess(s'.collector) {
      if step.Deliver? {
        assert InSession(s'.workers[step.w]);
      } else {
        var w :| 0 <= w < |s.workers| && InSession(s.workers[w]);
        assert InSession(s'.workers[w]);
      }
    }
  }

  /** Once the last piece is done, the context is cancelled and the collection loop is over. */
  ghost predicate StopsWhenDone(c: Config, s: State) {
    0 < c.pieceCount <= s.completed ==> s.cancelled && !s.failed && (s.collector.Draining? || s.collector.Returned?)
  }

  lemma WorkerKeepsEnd(c: Config, s: State, step: Step, me: Worker)
    requires IsWorkerStep(step) && EnabledWorker(c, s, step, me)
    ensures var s' := Shared(c, s, step, me);
            && s'.completed == s.completed && s'.cancelled == s.cancelled && s'.failed == s.failed
            && (s.collector.Draining? || s.collector.Returned? ==> s'.collector == s.collector)
  {
  }

  lemma StopsWhenDoneStep(c: Config, s: State, step: Step)
    requires Enabled(c, s, step) && StopsWhenDone(c, s) && StopsOnlyCancelled(s)
    ensures StopsWhenDone(c, Do(c, s, step))
  {
    if IsWorkerStep(step) {
      WorkerStepIs(c, s, step);
      WorkerKeepsEnd(c, s, step, s.workers[step.w]);
    }
  }

  /** Only pieces with a hash are written. */
  ghost predicate WrittenHashed(c: Config, s: State) {
    forall i: nat :: i in s.writes ==> HasHash(c, i)
  }

  lemma WrittenHashedStep(c: Config, s: State, step: Step)
    requires Enabled(c, s, step) && WrittenHashed(c, s) && InHand(c, s)
    ensures WrittenHashed(c, Do(c, s, step))
  {
    if step.WriteOk? {
      assert Do(c, s, step).writes == s.writes + [s.collector.index];
    } else if !step.WriteFail? {
      OthersKeepDisk(c, s, step);
    }
  }
}
