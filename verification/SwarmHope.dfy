/** When a swarm can still complete, exactly, and what the supervisor's poll knows of it. */
module SwarmHope {
  import opened Common
  import opened SwarmProtocol
  import opened SwarmTokens
  import opened SwarmCounters
  import opened SwarmContent
  import opened SwarmTheorems
  import opened SwarmEnding

  /** A worker through which more pieces may still come. */
  predicate HopefulWorker(known: set<Addr>, me: Worker) {
    match me
    case Waiting => false
    case Exited => false
    case ReportingLost(_) => false
    case Harvesting(_, outcome, pex) => outcome.Fetched? || exists a :: a in pex && a !in known
    case _ => true
  }

  /** An address is waiting, or some worker has or can still get a connection or an address. */
  predicate Hopeful(s: State) {
    s.pool != [] || exists w :: 0 <= w < |s.workers| && HopefulWorker(s.known, s.workers[w])
  }

  /** Some continuation, with no address from outside, comes to Start returning nil. */
  ghost predicate CanComplete(c: Config, s: State) {
    exists path: seq<State> :: IsPath(c, path) && path[0] == s && Succeeded(c, path[|path| - 1])
  }

  /** Every piece's hash is the hash of something of its size. */
  ghost predicate Obtainable(c: Config) {
    forall i: nat :: i < c.pieceCount ==> HasData(c, i)
  }

  ghost predicate HasData(c: Config, i: nat) {
    exists data: Bytes :: GoodPiece(c, i, data)
  }

  // ---- Without hope ----

  /** Neither done nor in the collector's hands as a success. */
  predicate Unfinished(s: State, i: nat)
    requires i < |s.pieces|
  {
    s.pieces[i] != Completed && !(HoldsSuccess(s.collector) && s.collector.index == i)
  }

  ghost predicate Dead(s: State) {
    !Hopeful(s) && exists i :: 0 <= i < |s.pieces| && Unfinished(s, i)
  }

  lemma HopelessWorkerStep(c: Config, s: State, step: Step, me: Worker)
    requires IsWorkerStep(step) && EnabledWorker(c, s, step, me)
    requires s.pool == [] && !HopefulWorker(s.known, me)
    ensures !HopefulWorker(s.known, NextPhase(c, s, step, me))
    ensures var s' := Shared(c, s, step, me);
            s'.pool == [] && s'.known == s.known && s'.pieces == s.pieces && s'.workers == s.workers
    ensures HoldsSuccess(Shared(c, s, step, me).collector) ==> Shared(c, s, step, me).collector == s.collector
  {
    if step.Harvest? {
      assert me.pex[0] in me.pex;
      assert forall a :: a in me.pex[1..] ==> a in me.pex;
    }
  }

  lemma HopelessStep(c: Config, s: State, step: Step)
    requires Enabled(c, s, step) && !step.OutsideAdd? && !Hopeful(s)
    ensures !Hopeful(Do(c, s, step))
  {
    if IsWorkerStep(step) {
      HopelessWorkerStep(c, s, step, s.workers[step.w]);
    }
  }

  lemma UnfinishedStep(c: Config, s: State, step: Step, i: nat)
    requires Enabled(c, s, step) && !step.OutsideAdd? && !Hopeful(s) && i < |s.pieces| && Unfinished(s, i)
    ensures i < |Do(c, s, step).pieces| && Unfinished(Do(c, s, step), i)
  {
    if IsWorkerStep(step) {
      HopelessWorkerStep(c, s, step, s.workers[step.w]);
    }
  }

  lemma DeadNext(c: Config, s: State, s': State)
    requires NextInside(c, s, s') && Dead(s)
    ensures Dead(s')
  {
    var step: Step :| !step.OutsideAdd? && Enabled(c, s, step) && s' == Do(c, s, step);
    var i :| 0 <= i < |s.pieces| && Unfinished(s, i);
    HopelessStep(c, s, step);
    UnfinishedStep(c, s, step, i);
  }

  lemma {:induction false} DeadPath(c: Config, path: seq<State>, k: nat)
    requires IsPath(c, path) && Dead(path[0]) && k < |path|
    ensures Dead(path[k])
  {
    if k > 0 {
      DeadPath(c, path, k - 1);
      assert InsideStepAt(c, path, k);
      DeadNext(c, path[k - 1], path[k]);
    }
  }

  /** While the collector holds a success, some worker has a session; without hope it holds another piece. */
  lemma HopelessIsDead(c: Config, s: State)
    requires Reachable(c, s) && !s.cancelled && s.completed < c.pieceCount && !Hopeful(s)
    ensures Dead(s)
  {
    var place := ReachableInv(c, s);
    if HoldsSuccess(s.collector) {
      var w :| 0 <= w < |s.workers| && InSession(s.workers[w]);
      assert !HopefulWorker(s.known, s.workers[w]);
      var i := s.workers[w].index;
      assert Held(s.workers[w]) == Some(i) && place[i] == WithWorker(w);
      assert HeldByCollector(s.collector).Some?;
      assert StatusFits(s.pieces[i], s.workers, s.collector, s.cancelled, place[i]);
      assert Unfinished(s, i);
    } else {
      CompletedMeansAll(c, s, place);
      var i :| 0 <= i < c.pieceCount && s.pieces[i] != Completed;
      assert Unfinished(s, i);
    }
  }

  /** A swarm without hope never completes, even with one success still in the collector's hands. */
  lemma HopelessNeverCompletes(c: Config, path: seq<State>, k: nat)
    requires IsPath(c, path) && k < |path|
    requires Reachable(c, path[0]) && !path[0].cancelled && path[0].completed < c.pieceCount && !Hopeful(path[0])
    ensures path[k].completed < c.pieceCount && !Succeeded(c, path[k])
  {
    HopelessIsDead(c, path[0]);
    DeadPath(c, path, k);
    PathReachable(c, path, k);
    var place := ReachableInv(c, path[k]);
    var i :| 0 <= i < |path[k].pieces| && Unfinished(path[k], i);
    CompletedMeansAll(c, path[k], place);
  }

  // ---- With hope ----

  /** How many good steps a worker, and the piece it holds, are from rest. */
  function Toil(me: Worker): nat {
    match me
    case Waiting => 3
    case Taken(_) => 2
    case Dialling(_, _) => 1
    case Connected => 0
    case Popped(_) => 6
    case Downloading(_, _) => 5
    case Harvesting(_, outcome, pex) => (if outcome.Fetched? then 4 else 14) + |pex|
    case ReportingNoHash(_) => 10
    case ReportingLost(_) => 13
    case ReportingDone(_, _) => 3
    case Exited => 0
  }

  function CollectorToil(collector: Collector): nat {
    match collector
    case GotError(_) => 9
    case Requeueing(_) => 8
    case GotData(_, _) => 2
    case Written(_) => 1
    case _ => 0
  }

  function TotalToil(s: State): nat {
    7 * |s.work| + CollectorToil(s.collector) + Sum(s.workers, Toil)
  }

  /** A step that brings completion nearer. */
  ghost predicate Progress(c: Config, s: State, step: Step) {
    && Enabled(c, s, step) && !step.OutsideAdd?
    && TotalToil(Do(c, s, step)) < TotalToil(s)
    && (Do(c, s, step).completed == c.pieceCount || (!Do(c, s, step).cancelled && Hopeful(Do(c, s, step))))
  }

  /** The worker steps that make progress. */
  ghost predicate GoodStep(c: Config, s: State, step: Step, me: Worker)
    requires IsWorkerStep(step)
  {
    && EnabledWorker(c, s, step, me)
    && !step.DialFail? && !step.QuitWaiting? && !step.QuitConnected?
    && (step.Begin? ==> s.pieces[me.index] == Pending && HasHash(c, me.index))
    && (step.Finish? ==> step.outcome.Fetched? && step.pex == [])
    && (step.Deliver? ==> s.collector.Receiving?)
  }

  lemma WorkerToil(c: Config, s: State, step: Step, me: Worker)
    requires IsWorkerStep(step) && GoodStep(c, s, step, me)
    ensures var s' := Shared(c, s, step, me);
            7 * |s'.work| + CollectorToil(s'.collector) + Toil(NextPhase(c, s, step, me))
            < 7 * |s.work| + CollectorToil(s.collector) + Toil(me)
    ensures Shared(c, s, step, me).workers == s.workers && Shared(c, s, step, me).cancelled == s.cancelled
  {
    WorkToil(c, s, step, me);
  }

  lemma WorkToil(c: Config, s: State, step: Step, me: Worker)
    requires IsWorkerStep(step) && GoodStep(c, s, step, me)
    ensures var s' := Shared(c, s, step, me);
            7 * |s'.work| + CollectorToil(s'.collector) + Toil(NextPhase(c, s, step, me))
            < 7 * |s.work| + CollectorToil(s.collector) + Toil(me)
  {
  }

  /** What a good step of worker `me` does to hope. */
  lemma WorkerHope(c: Config, s: State, step: Step, me: Worker)
    requires IsWorkerStep(step) && GoodStep(c, s, step, me)
    ensures var s', me' := Shared(c, s, step, me), NextPhase(c, s, step, me);
            && (s.pool != [] ==> s'.pool != [] || HopefulWorker(s'.known, me'))
            && (HopefulWorker(s.known, me) ==> s'.pool != [] || HopefulWorker(s'.known, me'))
            && (s'.known != s.known ==> s'.pool != [])
  {
    if step.Harvest? {
      assert forall a :: a in me.pex ==> a == me.pex[0] || a in me.pex[1..];
    }
  }

  lemma GoodStepKeepsHope(c: Config, s: State, step: Step)
    requires Enabled(c, s, step) && IsWorkerStep(step) && GoodStep(c, s, step, s.workers[step.w]) && Hopeful(s)
    ensures Hopeful(Do(c, s, step))
  {
    var me, s' := s.workers[step.w], Do(c, s, step);
    WorkerHope(c, s, step, me);
    WorkerToil(c, s, step, me);
    assert s'.workers[step.w] == NextPhase(c, s, step, me);
    if s.pool == [] && s'.pool == [] {
      var v :| 0 <= v < |s.workers| && HopefulWorker(s.known, s.workers[v]);
      assert HopefulWorker(s'.known, s'.workers[v]);
    }
  }

  lemma GoodWorkerStep(c: Config, s: State, step: Step)
    requires IsWorkerStep(step) && Enabled(c, s, step) && GoodStep(c, s, step, s.workers[step.w])
    requires Hopeful(s) && !s.cancelled
    ensures Progress(c, s, step)
  {
    var me := s.workers[step.w];
    WorkerToil(c, s, step, me);
    SumUpdate(s.workers, step.w, NextPhase(c, s, step, me), Toil);
    GoodStepKeepsHope(c, s, step);
  }

  // ---- A good step always exists ----

  lemma CollectorProgress(c: Config, s: State, place: seq<Place>) returns (step: Step)
    requires WellFormed(c) && Inv(c, s, place) && !s.cancelled && Hopeful(s) && !s.collector.Receiving?
    ensures Progress(c, s, step)
  {
    step := CollectorStep(c, s, place);
    CollectorStepKeepsHope(c, s, step);
    CollectorStepToil(c, s, step);
  }

  /** What the collector does next, when no write fails. */
  lemma CollectorStep(c: Config, s: State, place: seq<Place>) returns (step: Step)
    requires WellFormed(c) && Inv(c, s, place) && !s.cancelled && !s.collector.Receiving?
    ensures Enabled(c, s, step) && (step.MarkPending? || step.Requeue? || step.WriteOk? || step.MarkDone?)
  {
    assert HeldByCollector(s.collector).Some? ==> HeldByCollector(s.collector).value < |place|;
    match s.collector {
      case GotError(_) =>
        step := MarkPending;
      case Requeueing(_) =>
        QueueHasRoom(c, s, place);
        step := Requeue;
      case GotData(i, _) =>
        SizePositive(c, i);
        step := WriteOk;
      case Written(_) =>
        step := MarkDone;
    }
  }

  lemma CollectorStepToil(c: Config, s: State, step: Step)
    requires step.MarkPending? || step.Requeue? || step.WriteOk? || step.MarkDone?
    requires Enabled(c, s, step) && !s.cancelled
    ensures TotalToil(Do(c, s, step)) < TotalToil(s)
    ensures Do(c, s, step).completed == c.pieceCount || !Do(c, s, step).cancelled
  {
  }

  lemma CollectorStepKeepsHope(c: Config, s: State, step: Step)
    requires step.MarkPending? || step.Requeue? || step.WriteOk? || step.MarkDone?
    requires Enabled(c, s, step) && Hopeful(s)
    ensures Hopeful(Do(c, s, step)) && Do(c, s, step).workers == s.workers
  {
  }

  lemma PoppedIsReady(c: Config, s: State, place: seq<Place>, w: nat)
    requires AllHashed(c) && Tokens(c, s, place) && w < |s.workers| && s.workers[w].Popped?
    ensures s.workers[w].index < |s.pieces| && s.pieces[s.workers[w].index] == Pending
    ensures HasHash(c, s.workers[w].index)
  {
    var i := s.workers[w].index;
    assert Held(s.workers[w]) == Some(i);
    assert StatusFits(s.pieces[i], s.workers, s.collector, s.cancelled, place[i]);
  }

  /** The step a worker takes that has something to do, once the collector is receiving. */
  lemma BusyWorkerProgress(c: Config, s: State, place: seq<Place>, w: nat) returns (step: Step)
    requires WellFormed(c) && Obtainable(c) && Inv(c, s, place) && !s.cancelled && Hopeful(s) && s.collector.Receiving?
    requires w < |s.workers| && !s.workers[w].Waiting? && !s.workers[w].Exited? && !s.workers[w].Connected?
    ensures Progress(c, s, step)
  {
    var me := s.workers[w];
    assert Held(me).Some? ==> Held(me).value < |place|;
    match me {
      case Taken(_) => step := StartDial(w);
      case Dialling(_, _) => step := DialOk(w);
      case Popped(i) =>
        PoppedIsReady(c, s, place, w);
        step := Begin(w);
      case Downloading(i, _) =>
        assert !IsLate(s.workers[w]);
        assert HasData(c, i);
        var data: Bytes :| GoodPiece(c, i, data);
        step := Finish(w, Fetched(data), []);
      case Harvesting(_, _, pex) =>
        step := if pex == [] then Settle(w) else Harvest(w);
      case _ => step := Deliver(w);
    }
    GoodWorkerStep(c, s, step);
  }

  /** With all workers at rest and pieces missing, the work queue holds one. */
  lemma WorkIsThere(c: Config, s: State, place: seq<Place>)
    requires Inv(c, s, place) && !s.cancelled && s.collector.Receiving? && s.completed < c.pieceCount
    requires forall w :: 0 <= w < |s.workers| ==> s.workers[w].Waiting? || s.workers[w].Exited? || s.workers[w].Connected?
    ensures s.work != []
  {
    CompletedMeansAll(c, s, place);
    var i :| 0 <= i < c.pieceCount && s.pieces[i] != Completed;
    assert StatusFits(s.pieces[i], s.workers, s.collector, s.cancelled, place[i]);
    assert place[i].WithWorker? ==> Held(s.workers[place[i].w]) == Some(i);
  }

  lemma RestingProgress(c: Config, s: State, place: seq<Place>) returns (step: Step)
    requires Inv(c, s, place) && !s.cancelled && s.collector.Receiving? && s.completed < c.pieceCount && Hopeful(s)
    requires forall w :: 0 <= w < |s.workers| ==> s.workers[w].Waiting? || s.workers[w].Exited? || s.workers[w].Connected?
    ensures Progress(c, s, step)
  {
    WorkIsThere(c, s, place);
    if w :| 0 <= w < |s.workers| && s.workers[w].Connected? {
      step := Pop(w);
    } else {
      assert s.workers[0].Waiting?;
      step := Take(0);
    }
    GoodWorkerStep(c, s, step);
  }

  lemma HopefulProgress(c: Config, s: State, place: seq<Place>) returns (step: Step)
    requires WellFormed(c) && Obtainable(c) && Inv(c, s, place)
    requires !s.cancelled && Hopeful(s) && s.completed < c.pieceCount
    ensures Progress(c, s, step)
  {
    if !s.collector.Receiving? {
      step := CollectorProgress(c, s, place);
    } else if w :| 0 <= w < |s.workers| && !s.workers[w].Waiting? && !s.workers[w].Exited? && !s.workers[w].Connected? {
      step := BusyWorkerProgress(c, s, place, w);
    } else {
      step := RestingProgress(c, s, place);
    }
  }

  lemma ProgressIsInside(c: Config, s: State, step: Step)
    requires Progress(c, s, step)
    ensures NextInside(c, s, Do(c, s, step))
  {
  }

  lemma NearerCompletion(c: Config, s: State, place: seq<Place>) returns (s': State, place': seq<Place>)
    requires WellFormed(c) && Obtainable(c) && Inv(c, s, place)
    requires s.completed != c.pieceCount && !s.cancelled && Hopeful(s)
    ensures NextInside(c, s, s') && Inv(c, s', place') && TotalToil(s') < TotalToil(s)
    ensures s'.completed == c.pieceCount || (!s'.cancelled && Hopeful(s'))
  {
    CompletedMeansAll(c, s, place);
    var step := HopefulProgress(c, s, place);
    s', place' := Do(c, s, step), NextPlace(c, s, step, place);
    InvStep(c, s, step, place);
    ProgressIsInside(c, s, step);
  }

  /** A path on which every piece is completed and Start returns nil. */
  lemma {:induction false} HopefulCompletes(c: Config, s: State, place: seq<Place>) returns (path: seq<State>)
    requires WellFormed(c) && Obtainable(c) && Inv(c, s, place) && Reachable(c, s) && c.pieceCount > 0
    requires s.completed == c.pieceCount || (!s.cancelled && Hopeful(s))
    ensures IsPath(c, path) && path[0] == s && Succeeded(c, path[|path| - 1])
    decreases TotalToil(s)
  {
    if s.completed == c.pieceCount {
      path := SuccessPath(c, s);
      return;
    }
    var s', place' := NearerCompletion(c, s, place);
    InsideIsNext(c, s, s');
    ReachesNext(c, s, s');
    var rest := HopefulCompletes(c, s', place');
    PathPrepend(c, s, rest);
    return [s] + rest;
  }

  // ---- Main results ----

  /** Until cancellation hope is exact: if every hash is the hash of something, a swarm can complete if and only if it has hope. */
  lemma HopeIsExact(c: Config, s: State)
    requires WellFormed(c) && Obtainable(c) && Reachable(c, s) && !s.cancelled && s.completed < c.pieceCount
    ensures CanComplete(c, s) <==> Hopeful(s)
  {
    if Hopeful(s) {
      var place := ReachableInv(c, s);
      var path := HopefulCompletes(c, s, place);
    } else if CanComplete(c, s) {
      var path: seq<State> :| IsPath(c, path) && path[0] == s && Succeeded(c, path[|path| - 1]);
      HopelessNeverCompletes(c, path, |path| - 1);
    }
  }

  predicate SomeTaken(s: State) {
    exists w :: 0 <= w < |s.workers| && s.workers[w].Taken?
  }

  /** Where `inFlight` is zero, hope is an address in the pool or in a worker's hand. */
  lemma HopeAtRest(c: Config, s: State)
    requires Reachable(c, s) && s.inFlight == 0
    ensures Hopeful(s) <==> s.pool != [] || SomeTaken(s)
  {
    InFlightCounts(c, s);
    forall w | 0 <= w < |s.workers|
      ensures HopefulWorker(s.known, s.workers[w]) ==> s.workers[w].Taken?
    {
      assert !Counted(s.workers[w]);
    }
  }

  /**
   * The poll's loads of the pool and of `inFlight` happen one after the other. When the second finds
   * zero, completion is out of reach if and only if the pool is, by now, empty and no worker holds an
   * address that it has not counted yet.
   */
  lemma VerdictIsRightIff(c: Config, s: State)
    requires WellFormed(c) && Obtainable(c) && Reachable(c, s) && !s.cancelled && s.completed < c.pieceCount
    requires s.supervisor.SawEmptyPool? && Do(c, s, PollInFlight).supervisor.SawNoneInFlight?
    ensures !CanComplete(c, s) <==> s.pool == [] && !SomeTaken(s)
  {
    HopeIsExact(c, s);
    HopeAtRest(c, s);
  }

  /** The pool is empty, nobody is counted or holds an uncounted address, and pieces are missing. */
  predicate StalledNow(c: Config, s: State) {
    s.pool == [] && s.inFlight == 0 && !SomeTaken(s) && s.completed < c.pieceCount
  }

  /** A stalled swarm is dead: no continuation without outside addresses completes every piece. */
  lemma StalledSwarmNeverCompletes(c: Config, path: seq<State>, k: nat)
    requires IsPath(c, path) && k < |path| && Reachable(c, path[0])
    requires !path[0].cancelled && StalledNow(c, path[0])
    ensures path[k].completed < c.pieceCount && !Succeeded(c, path[k])
  {
    HopeAtRest(c, path[0]);
    HopelessNeverCompletes(c, path, k);
  }
}
