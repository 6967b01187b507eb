/** What holds in every reachable state of the swarm, and over whole runs. */
module SwarmTheorems {
  import opened Common
  import opened SwarmProtocol
  import opened SwarmTokens
  import opened SwarmCounters
  import opened SwarmContent

  ghost predicate Inv(c: Config, s: State, place: seq<Place>) {
    && Tokens(c, s, place)
    && Connections(s) && Results(c, s)
    && Addresses(s) && Dials(s)
    && Ledger(c, s) && InHand(c, s) && SenderStays(s)
    && ReturnedLast(s) && LateOnlyCancelled(s) && StopsWhenDone(c, s) && WrittenHashed(c, s)
    && (WellFormed(c) ==> Content(c, s))
  }

  /** Start returns only after every worker has. */
  ghost predicate ReturnedLast(s: State) {
    s.collector.Returned? ==> AllExited(s)
  }

  /** Only after cancellation is network work late. */
  ghost predicate LateOnlyCancelled(s: State) {
    forall w :: 0 <= w < |s.workers| && IsLate(s.workers[w]) ==> s.cancelled
  }

  predicate IsLate(me: Worker) {
    (me.Dialling? || me.Downloading?) && me.late
  }

  lemma LateStep(c: Config, s: State, step: Step)
    requires Enabled(c, s, step) && LateOnlyCancelled(s)
    ensures LateOnlyCancelled(Do(c, s, step))
  {
    if IsWorkerStep(step) {
      LateEffect(c, s, step, s.workers[step.w]);
    }
  }

  lemma LateEffect(c: Config, s: State, step: Step, me: Worker)
    requires IsWorkerStep(step) && EnabledWorker(c, s, step, me) && (IsLate(me) ==> s.cancelled)
    ensures IsLate(NextPhase(c, s, step, me)) ==> s.cancelled
    ensures Shared(c, s, step, me).cancelled == s.cancelled && Shared(c, s, step, me).workers == s.workers
  {
  }

  lemma ReturnedLastStep(c: Config, s: State, step: Step)
    requires Enabled(c, s, step) && ReturnedLast(s)
    ensures ReturnedLast(Do(c, s, step))
  {
    assert IsWorkerStep(step) ==> s.workers[step.w] != Exited;
  }

  lemma InvStep(c: Config, s: State, step: Step, place: seq<Place>)
    requires Enabled(c, s, step) && Inv(c, s, place)
    ensures Inv(c, Do(c, s, step), NextPlace(c, s, step, place))
  {
    TokensStep(c, s, step, place);
    ConnectionsStep(c, s, step);
    ResultsStep(c, s, step, place);
    AddressesStep(c, s, step);
    LedgerStep(c, s, step, place);
    InHandStep(c, s, step);
    SenderStaysStep(c, s, step);
    ReturnedLastStep(c, s, step);
    LateStep(c, s, step);
    StopsWhenDoneStep(c, s, step);
    WrittenHashedStep(c, s, step);
    if WellFormed(c) {
      ContentStep(c, s, step, place);
    }
  }

  lemma {:induction false} SeededInv(c: Config, s: State, seeds: seq<Addr>, place: seq<Place>)
    requires Inv(c, s, place)
    ensures Inv(c, AddPeers(s, seeds), place)
    decreases |seeds|
  {
    if seeds != [] {
      InvStep(c, s, OutsideAdd(seeds[0]), place);
      SeededInv(c, AddPeer(s, seeds[0]), seeds[1..], place);
    }
  }

  lemma UnseededTokens(c: Config, disk: seq<Bytes>)
    ensures Tokens(c, Unseeded(c, disk), seq(c.pieceCount, _ => Queued))
  {
    forall i | 0 <= i < c.pieceCount
      ensures i in Unseeded(c, disk).work
    {
      assert Unseeded(c, disk).work[i] == i;
    }
  }

  lemma UnseededCounters(c: Config, disk: seq<Bytes>)
    ensures Connections(Unseeded(c, disk)) && Results(c, Unseeded(c, disk))
  {
    var workers := Unseeded(c, disk).workers;
    SumZero(workers, CountedOne);
    SumZero(workers, TakenOne);
    SumZero(workers, FailingOne);
  }

  lemma UnseededAddresses(c: Config, disk: seq<Bytes>)
    ensures Addresses(Unseeded(c, disk)) && Dials(Unseeded(c, disk))
  {
    var s := Unseeded(c, disk);
    assert s.queued == [] && s.pool == [] && Received(s) == [];
  }

  lemma UnseededWorkers(c: Config, disk: seq<Bytes>)
    ensures InHand(c, Unseeded(c, disk)) && LateOnlyCancelled(Unseeded(c, disk))
    ensures SenderStays(Unseeded(c, disk)) && ReturnedLast(Unseeded(c, disk))
  {
    var s := Unseeded(c, disk);
    assert forall w :: 0 <= w < |s.workers| ==> s.workers[w] == Waiting;
  }

  lemma UnseededLedger(c: Config, disk: seq<Bytes>)
    requires |Flatten(disk)| == c.totalSize
    ensures Ledger(c, Unseeded(c, disk)) && Content(c, Unseeded(c, disk))
    ensures StopsWhenDone(c, Unseeded(c, disk)) && WrittenHashed(c, Unseeded(c, disk))
  {
    var s := Unseeded(c, disk);
    assert s.writes == [] && s.disk == disk;
    assert forall i :: 0 <= i < c.pieceCount ==> s.pieces[i] == Pending;
  }

  lemma UnseededInv(c: Config, disk: seq<Bytes>)
    requires |Flatten(disk)| == c.totalSize
    ensures Inv(c, Unseeded(c, disk), seq(c.pieceCount, _ => Queued))
  {
    UnseededTokens(c, disk);
    UnseededCounters(c, disk);
    UnseededAddresses(c, disk);
    UnseededWorkers(c, disk);
    UnseededLedger(c, disk);
  }

  lemma InitialInv(c: Config, s: State) returns (place: seq<Place>)
    requires IsInitial(c, s)
    ensures Inv(c, s, place)
  {
    var disk, seeds :| |Flatten(disk)| == c.totalSize && s == Initial(c, disk, seeds);
    place := seq(c.pieceCount, _ => Queued);
    UnseededInv(c, disk);
    SeededInv(c, Unseeded(c, disk), seeds, place);
  }

  lemma InvNext(c: Config, s: State, s': State, place: seq<Place>) returns (place': seq<Place>)
    requires Next(c, s, s') && Inv(c, s, place)
    ensures Inv(c, s', place')
  {
    var step :| Enabled(c, s, step) && s' == Do(c, s, step);
    InvStep(c, s, step, place);
    place' := NextPlace(c, s, step, place);
  }

  lemma PrefixRun(c: Config, run: seq<State>, n: nat)
    requires IsRun(c, run) && 0 < n <= |run|
    ensures IsRun(c, run[..n])
  {
    forall k | 0 < k < n
      ensures StepAt(c, run[..n], k)
    {
      assert StepAt(c, run, k);
    }
  }

  lemma {:induction false} RunInv(c: Config, run: seq<State>) returns (place: seq<Place>)
    requires IsRun(c, run)
    ensures Inv(c, run[|run| - 1], place)
    decreases |run|
  {
    if |run| == 1 {
      place := InitialInv(c, run[0]);
    } else {
      var n := |run| - 1;
      PrefixRun(c, run, n);
      place := RunInv(c, run[..n]);
      assert StepAt(c, run, n);
      place := InvNext(c, run[n - 1], run[n], place);
    }
  }

  lemma ReachableInv(c: Config, s: State) returns (place: seq<Place>)
    requires Reachable(c, s)
    ensures Inv(c, s, place)
  {
    var run :| IsRun(c, run) && run[|run| - 1] == s;
    place := RunInv(c, run);
  }

  // ---- Piece tokens ----

  /** All the places where piece `i` can be found. */
  ghost function PlacesOf(s: State, i: nat): set<Place> {
    (if i in s.work then {Queued} else {})
    + (set w | 0 <= w < |s.workers| && Held(s.workers[w]) == Some(i) :: WithWorker(w))
    + (if HeldByCollector(s.collector) == Some(i) then {WithCollector} else {})
    + (if i < |s.pieces| && s.pieces[i] == Completed then {Finished} else {})
  }

  /** Until cancellation every piece is in exactly one place, and afterwards in at most one. */
  lemma EveryPieceHasOnePlace(c: Config, s: State, i: nat)
    requires Reachable(c, s) && i < c.pieceCount
    ensures |PlacesOf(s, i)| <= 1 && NoDup(s.work)
    ensures !s.cancelled ==> |PlacesOf(s, i)| == 1
  {
    var place := ReachableInv(c, s);
    assert StatusFits(s.pieces[i], s.workers, s.collector, s.cancelled, place[i]);
    forall p | p in PlacesOf(s, i)
      ensures p == place[i]
    {
    }
    SubsetSize(PlacesOf(s, i), {place[i]});
    if place[i] != Dropped {
      assert place[i] in PlacesOf(s, i);
      SubsetSize({place[i]}, PlacesOf(s, i));
    }
  }

  /** The status recorded for a piece agrees with its place; the worker never discards an index, and the
      collector never waits for room in the work queue. */
  lemma StatusAgreesWithPlace(c: Config, s: State)
    requires Reachable(c, s)
    ensures |s.pieces| == c.pieceCount
    ensures forall i :: i in s.work ==> i < c.pieceCount && s.pieces[i] == Pending
    ensures forall w :: 0 <= w < |s.workers| && Held(s.workers[w]).Some? ==>
              && Held(s.workers[w]).value < c.pieceCount
              && s.pieces[Held(s.workers[w]).value] == if s.workers[w].Popped? then Pending else InProgress
    ensures HeldByCollector(s.collector).Some? ==>
              && HeldByCollector(s.collector).value < c.pieceCount
              && s.pieces[HeldByCollector(s.collector).value] == if s.collector.Requeueing? then Pending else InProgress
    ensures s.collector.Requeueing? ==> Enabled(c, s, Requeue)
  {
    var place := ReachableInv(c, s);
    forall i | i in s.work
      ensures i < c.pieceCount && s.pieces[i] == Pending
    {
      assert StatusFits(s.pieces[i], s.workers, s.collector, s.cancelled, place[i]);
    }
    forall w | 0 <= w < |s.workers| && Held(s.workers[w]).Some?
      ensures Held(s.workers[w]).value < c.pieceCount
      ensures s.pieces[Held(s.workers[w]).value] == if s.workers[w].Popped? then Pending else InProgress
    {
      var i := Held(s.workers[w]).value;
      assert StatusFits(s.pieces[i], s.workers, s.collector, s.cancelled, place[i]);
    }
    if HeldByCollector(s.collector).Some? {
      var i := HeldByCollector(s.collector).value;
      assert StatusFits(s.pieces[i], s.workers, s.collector, s.cancelled, place[i]);
    }
    if s.collector.Requeueing? {
      QueueHasRoom(c, s, place);
    }
  }

  // ---- Addresses and retries ----

  /** No address is queued or dialled twice, and every failure has used up an address. */
  lemma RetriesBounded(c: Config, s: State)
    requires Reachable(c, s)
    ensures NoDup(s.queued) && NoDup(s.dials) && (forall a :: a in s.dials ==> a in s.queued)
    ensures |s.dials| <= |s.queued|
    ensures AllHashed(c) ==> s.failures <= |s.queued| && s.pops <= c.pieceCount + |s.queued|
  {
    var place := ReachableInv(c, s);
    forall a | a in s.dials
      ensures a in s.queued
    {
      assert a in Received(s);
    }
    NoDupCardinality(s.dials);
    NoDupCardinality(s.queued);
    SubsetSize(Members(s.dials), Members(s.queued));
  }

  /** `inFlight` is the number of workers that hold or are acquiring a connection. */
  lemma InFlightCounts(c: Config, s: State)
    requires Reachable(c, s)
    ensures s.inFlight == Sum(s.workers, CountedOne)
    ensures s.inFlight == 0 <==> forall w :: 0 <= w < |s.workers| ==> !Counted(s.workers[w])
  {
    var place := ReachableInv(c, s);
    SumZero(s.workers, CountedOne);
    forall w | 0 <= w < |s.workers|
      ensures CountedOne(s.workers[w]) == 0 <==> !Counted(s.workers[w])
    {
    }
  }

  // ---- Success ----

  lemma CompletedMeansAll(c: Config, s: State, place: seq<Place>)
    requires Inv(c, s, place)
    ensures s.completed <= c.pieceCount
    ensures s.completed < c.pieceCount <==> exists i :: 0 <= i < c.pieceCount && s.pieces[i] != Completed
  {
    forall i: nat | i in s.writes
      ensures i < c.pieceCount
    {
      assert s.collector == Written(i) ==> HeldByCollector(s.collector) == Some(i);
    }
    Pigeonhole(s.writes, c.pieceCount);
    if s.collector.Written? {
      var i := s.collector.index;
      assert HeldByCollector(s.collector) == Some(i);
      assert StatusFits(s.pieces[i], s.workers, s.collector, s.cancelled, place[i]);
    } else if s.completed < c.pieceCount {
      var i := Missing(s.writes, c.pieceCount);
    }
  }

  lemma Missing(s: seq<nat>, n: nat) returns (i: nat)
    requires NoDup(s) && |s| < n
    ensures i < n && i !in s
  {
    NoDupCardinality(s);
    if forall j :: 0 <= j < n ==> j in s {
      SubsetSize(Range(n), Members(s));
    }
    i :| 0 <= i < n && i !in s;
  }

  /** When Start returns nil, every piece was written exactly once. */
  lemma SuccessWritesEveryPieceOnce(c: Config, s: State)
    requires Reachable(c, s) && Succeeded(c, s)
    ensures NoDup(s.writes) && |s.writes| == c.pieceCount
    ensures forall i: nat :: i in s.writes <==> i < c.pieceCount
  {
    var place := ReachableInv(c, s);
    CompletedMeansAll(c, s, place);
  }

  /** And the disk holds, for every piece, bytes of the right length that hash to what was expected. */
  lemma SuccessLeavesGoodPieces(c: Config, s: State, i: nat)
    requires Reachable(c, s) && Succeeded(c, s) && WellFormed(c) && i < c.pieceCount
    ensures |Flatten(s.disk)| == c.totalSize && i * c.pieceLength <= c.totalSize
    ensures GoodPiece(c, i, OnDisk(c, Flatten(s.disk), i))
  {
    var place := ReachableInv(c, s);
    SuccessWritesEveryPieceOnce(c, s);
    assert i in s.writes;
    assert PieceOnDisk(c, Flatten(s.disk), i);
  }

  // ---- Paths inside the swarm ----

  /** A continuation in which no address arrives from outside. */
  ghost predicate IsPath(c: Config, path: seq<State>) {
    path != [] && forall k :: 0 < k < |path| ==> InsideStepAt(c, path, k)
  }

  lemma Reaches(c: Config, s: State, step: Step, s': State)
    requires Reachable(c, s) && Enabled(c, s, step) && s' == Do(c, s, step)
    ensures Reachable(c, s')
  {
    assert Next(c, s, s');
    ReachesNext(c, s, s');
  }

  lemma ReachesNext(c: Config, s: State, s': State)
    requires Reachable(c, s) && Next(c, s, s')
    ensures Reachable(c, s')
  {
    var run: seq<State> :| IsRun(c, run) && run[|run| - 1] == s;
    RunExtends(c, run, s');
  }

  lemma InsideReaches(c: Config, s: State, s': State)
    requires Reachable(c, s) && NextInside(c, s, s')
    ensures Reachable(c, s')
  {
    InsideIsNext(c, s, s');
    ReachesNext(c, s, s');
  }

  lemma InsideIsNext(c: Config, s: State, s': State)
    requires NextInside(c, s, s')
    ensures Next(c, s, s')
  {
  }

  lemma RunExtends(c: Config, run: seq<State>, s': State)
    requires IsRun(c, run) && Next(c, run[|run| - 1], s')
    ensures Reachable(c, s')
  {
    var longer := run + [s'];
    forall k | 0 < k < |longer|
      ensures StepAt(c, longer, k)
    {
      assert k < |run| ==> StepAt(c, run, k);
    }
    assert IsRun(c, longer) && longer[|longer| - 1] == s';
  }

  lemma {:induction false} PathReachable(c: Config, path: seq<State>, k: nat)
    requires IsPath(c, path) && Reachable(c, path[0]) && k < |path|
    ensures Reachable(c, path[k])
  {
    if k > 0 {
      PathReachable(c, path, k - 1);
      PathReaches(c, path, k, path[k - 1], path[k]);
    }
  }

  lemma PathReaches(c: Config, path: seq<State>, k: nat, s: State, s': State)
    requires IsPath(c, path) && 0 < k < |path| && s == path[k - 1] && s' == path[k] && Reachable(c, s)
    ensures Reachable(c, s')
  {
    assert InsideStepAt(c, path, k);
    InsideReaches(c, s, s');
  }
}
