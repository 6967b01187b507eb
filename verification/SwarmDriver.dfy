/** Runs of the swarm driven by hand: worker 0 acts, the others wait. Used to show that a state can be reached. */
module SwarmDriver {
  import opened Common
  import opened Storage
  import opened SwarmProtocol
  import opened SwarmTheorems
  import opened SwarmTokens

  /** Worker 0 changed to `me`. */
  function With(s: State, me: Worker): State
    requires s.workers != []
  {
    s.(workers := s.workers[0 := me])
  }

  /** Uncancelled, with worker 0 in the given phase and the collector receiving. */
  ghost predicate At(c: Config, s: State, me: Worker) {
    Reachable(c, s) && !s.cancelled && s.collector.Receiving? && s.workers != [] && s.workers[0] == me
  }

  lemma StartReachable(c: Config, disk: seq<Bytes>)
    requires |Flatten(disk)| == c.totalSize
    ensures At(c, Unseeded(c, disk), Waiting)
  {
    var first := Unseeded(c, disk);
    assert Initial(c, disk, []) == first;
    assert IsRun(c, [first]) && [first][|[first]| - 1] == first;
  }

  // ---- Getting a connection ----

  function AfterTake(s: State, addr: Addr): State
    requires s.workers != []
  {
    With(s, Taken(addr)).(pool := [], known := s.known + {addr}, queued := s.queued + [addr])
  }

  lemma Takes(c: Config, s: State, addr: Addr)
    requires At(c, s, Waiting) && s.pool == [] && addr !in s.known
    ensures At(c, AfterTake(s, addr), Taken(addr))
  {
    var s1 := AddPeer(s, addr);
    Reaches(c, s, OutsideAdd(addr), s1);
    Reaches(c, s1, Take(0), AfterTake(s, addr));
  }

  function AfterDial(s: State, addr: Addr): State
    requires s.workers != []
  {
    With(s, Connected).(inFlight := s.inFlight + 1, dials := s.dials + [addr])
  }

  lemma Dials(c: Config, s: State, addr: Addr)
    requires At(c, s, Taken(addr))
    ensures At(c, AfterDial(s, addr), Connected)
  {
    var s1 := With(s, Dialling(addr, false)).(inFlight := s.inFlight + 1, dials := s.dials + [addr]);
    Reaches(c, s, StartDial(0), s1);
    DialsOk(c, s1, addr);
    assert With(s1, Connected) == AfterDial(s, addr);
  }

  lemma DialsOk(c: Config, s: State, addr: Addr)
    requires At(c, s, Dialling(addr, false))
    ensures At(c, With(s, Connected), Connected)
  {
    Reaches(c, s, DialOk(0), With(s, Connected));
  }

  // ---- Claiming the piece at the head of the queue ----

  function AfterPop(s: State): State
    requires s.workers != [] && s.work != []
  {
    With(s, Popped(s.work[0])).(work := s.work[1..], pops := s.pops + 1)
  }

  lemma Pops(c: Config, s: State)
    requires At(c, s, Connected) && s.work != []
    ensures At(c, AfterPop(s), Popped(s.work[0]))
    ensures s.work[0] < |s.pieces| == c.pieceCount && s.pieces[s.work[0]] == Pending
  {
    Reaches(c, s, Pop(0), AfterPop(s));
    StatusAgreesWithPlace(c, s);
    assert s.work[0] in s.work;
  }

  function AfterBegin(c: Config, s: State, i: nat): State
    requires s.workers != [] && i < |s.pieces|
  {
    if HasHash(c, i) then With(s, Downloading(i, false)).(pieces := s.pieces[i := InProgress])
    else With(s, ReportingNoHash(i)).(pieces := s.pieces[i := InProgress], failures := s.failures + 1)
  }

  lemma Begins(c: Config, s: State, i: nat)
    requires At(c, s, Popped(i)) && i < |s.pieces| && s.pieces[i] == Pending
    ensures At(c, AfterBegin(c, s, i), if HasHash(c, i) then Downloading(i, false) else ReportingNoHash(i))
  {
    Reaches(c, s, Begin(0), AfterBegin(c, s, i));
  }

  // ---- A failed download ----

  function AfterFail(s: State, i: nat): State
    requires s.workers != []
  {
    With(s, ReportingLost(i)).(inFlight := s.inFlight - 1, closed := s.closed + 1, failures := s.failures + 1)
  }

  lemma Fails(c: Config, s: State, i: nat)
    requires At(c, s, Downloading(i, false))
    ensures At(c, AfterFail(s, i), ReportingLost(i))
  {
    var s1 := With(s, Harvesting(i, Failed, []));
    EndsDownload(c, s, i, Failed);
    Settles(c, s1, i);
    assert AfterFail(s1, i) == AfterFail(s, i);
  }

  lemma EndsDownload(c: Config, s: State, i: nat, outcome: Outcome)
    requires At(c, s, Downloading(i, false)) && (outcome.Fetched? ==> GoodPiece(c, i, outcome.data))
    ensures At(c, With(s, Harvesting(i, outcome, [])), Harvesting(i, outcome, []))
  {
    Reaches(c, s, Finish(0, outcome, []), With(s, Harvesting(i, outcome, [])));
  }

  lemma Settles(c: Config, s: State, i: nat)
    requires At(c, s, Harvesting(i, Failed, []))
    ensures At(c, AfterFail(s, i), ReportingLost(i))
  {
    Reaches(c, s, Settle(0), AfterFail(s, i));
  }

  // ---- A failed result goes back to the end of the queue ----

  function AfterReturn(s: State, i: nat, me: Worker): State
    requires s.workers != [] && i < |s.pieces|
  {
    With(s, me).(pieces := s.pieces[i := Pending], work := s.work + [i], requeued := s.requeued + 1)
  }

  lemma DeliversFailure(c: Config, s: State, i: nat, me: Worker, s': State)
    requires At(c, s, me) && (me == ReportingLost(i) || me == ReportingNoHash(i))
    requires s' == With(s, if me.ReportingLost? then Waiting else Connected).(collector := GotError(i))
    ensures Reachable(c, s')
  {
    Reaches(c, s, Deliver(0), s');
  }

  lemma Requeues(c: Config, s: State, i: nat)
    requires Reachable(c, s) && s.collector == GotError(i) && !s.cancelled
    ensures i < |s.pieces|
    ensures Reachable(c, s.(collector := Receiving, pieces := s.pieces[i := Pending], work := s.work + [i], requeued := s.requeued + 1))
  {
    StatusAgreesWithPlace(c, s);
    var s1 := s.(pieces := s.pieces[i := Pending], collector := Requeueing(i));
    Reaches(c, s, MarkPending, s1);
    Reenqueues(c, s1, i);
  }

  lemma Reenqueues(c: Config, s: State, i: nat)
    requires Reachable(c, s) && s.collector == Requeueing(i) && !s.cancelled
    ensures Reachable(c, s.(collector := Receiving, work := s.work + [i], requeued := s.requeued + 1))
  {
    StatusAgreesWithPlace(c, s);
    Reaches(c, s, Requeue, s.(collector := Receiving, work := s.work + [i], requeued := s.requeued + 1));
  }

  lemma Returns(c: Config, s: State, i: nat, me: Worker)
    requires At(c, s, me) && (me == ReportingLost(i) || me == ReportingNoHash(i))
    ensures i < |s.pieces|
    ensures At(c, AfterReturn(s, i, if me.ReportingLost? then Waiting else Connected),
               if me.ReportingLost? then Waiting else Connected)
  {
    var next := if me.ReportingLost? then Waiting else Connected;
    var s1 := With(s, next).(collector := GotError(i));
    DeliversFailure(c, s, i, me, s1);
    Requeues(c, s1, i);
    assert s1.(collector := Receiving, pieces := s.pieces[i := Pending], work := s.work + [i], requeued := s.requeued + 1)
        == AfterReturn(s, i, next);
  }

  // ---- A successful download ----

  lemma Fetches(c: Config, s: State, i: nat, data: Bytes)
    requires At(c, s, Downloading(i, false)) && GoodPiece(c, i, data)
    ensures At(c, With(s, ReportingDone(i, data)), ReportingDone(i, data))
  {
    var s1 := With(s, Harvesting(i, Fetched(data), []));
    EndsDownload(c, s, i, Fetched(data));
    Reaches(c, s1, Settle(0), With(s, ReportingDone(i, data)));
  }

  function Stored(c: Config, s: State, i: nat, data: Bytes): State {
    s.(disk := Overlay(s.disk, 0, i * c.pieceLength, data), collector := Written(i), writes := s.writes + [i])
  }

  function AfterWrite(c: Config, s: State, i: nat, data: Bytes): State
    requires s.workers != []
  {
    Stored(c, With(s, Connected), i, data)
  }

  lemma WritesOk(c: Config, s: State, i: nat, data: Bytes)
    requires Reachable(c, s) && s.collector == GotData(i, data) && i * c.pieceLength + |data| <= |Flatten(s.disk)|
    ensures Reachable(c, Stored(c, s, i, data))
  {
    Reaches(c, s, WriteOk, Stored(c, s, i, data));
  }

  lemma HandsOver(c: Config, s: State, i: nat, data: Bytes)
    requires At(c, s, ReportingDone(i, data))
    ensures Reachable(c, With(s, Connected).(collector := GotData(i, data)))
  {
    Reaches(c, s, Deliver(0), With(s, Connected).(collector := GotData(i, data)));
  }

  lemma Writes(c: Config, s: State, i: nat, data: Bytes)
    requires At(c, s, ReportingDone(i, data)) && i * c.pieceLength + |data| <= |Flatten(s.disk)|
    ensures Reachable(c, AfterWrite(c, s, i, data))
  {
    HandsOver(c, s, i, data);
    WritesOk(c, With(s, Connected).(collector := GotData(i, data)), i, data);
  }

  function AfterStore(c: Config, s: State, i: nat, data: Bytes): State
    requires s.workers != [] && i < |s.pieces|
  {
    AfterWrite(c, s, i, data).(collector := Receiving, pieces := s.pieces[i := Completed], completed := s.completed + 1)
  }

  lemma Stores(c: Config, s: State, i: nat, data: Bytes)
    requires At(c, s, ReportingDone(i, data)) && i * c.pieceLength + |data| <= |Flatten(s.disk)|
    requires s.completed + 1 < c.pieceCount
    ensures i < |s.pieces| && At(c, AfterStore(c, s, i, data), Connected)
  {
    Writes(c, s, i, data);
    StatusAgreesWithPlace(c, AfterWrite(c, s, i, data));
    Reaches(c, AfterWrite(c, s, i, data), MarkDone, AfterStore(c, s, i, data));
  }
}
