/** After cancellation the swarm winds down: every run is finite and ends with all workers gone. */
module SwarmShutdown {
  import opened Common
  import opened SwarmProtocol
  import opened SwarmTokens
  import opened SwarmCounters
  import opened SwarmContent
  import opened SwarmTheorems

  /** How many more times a worker can finish a download once the context is cancelled. */
  function Potential(me: Worker): nat {
    match me
    case Downloading(_, late) => if late then 1 else 2
    case Dialling(_, late) => if late then 0 else 1
    case Connected => 1
    case Popped(_) => 1
    case Harvesting(_, outcome, _) => if outcome.Fetched? then 1 else 0
    case ReportingDone(_, _) => 1
    case ReportingNoHash(_) => 1
    case _ => 0
  }

  /** How far a worker is from waiting, between two downloads. */
  function Distance(me: Worker): nat {
    match me
    case Exited => 0
    case Waiting => 10
    case Taken(_) => 30
    case Dialling(_, late) => if late then 20 else 90
    case Connected => 80
    case Popped(_) => 70
    case Downloading(_, _) => 60
    case Harvesting(_, outcome, pex) => (if outcome.Fetched? then 100 else 40) + 50 * |pex|
    case ReportingNoHash(_) => 95
    case ReportingDone(_, _) => 95
    case ReportingLost(_) => 30
  }

  function CollectorDistance(collector: Collector): nat {
    match collector
    case GotError(_) => 6
    case Requeueing(_) => 5
    case GotData(_, _) => 6
    case Written(_) => 5
    case Receiving => 2
    case Draining => 1
    case Returned => 0
  }

  function SupervisorDistance(s: State): nat {
    (match s.supervisor
     case SawEmptyPool => 4
     case SawNoneInFlight => 3
     case Confirmed => 2
     case Sleeping => 1
     case Stopped => 0)
    + if s.tick then 5 else 0
  }

  /** What a piece index still costs: a success never becomes anything else but done or dropped. */
  function Burden(me: Worker): nat {
    Potential(me)
    + match me
      case Popped(_) => 2
      case Downloading(_, _) => 2
      case Harvesting(_, outcome, _) => if outcome.Fetched? then 1 else 2
      case ReportingNoHash(_) => 2
      case ReportingLost(_) => 2
      case ReportingDone(_, _) => 1
      case _ => 0
  }

  function CollectorBurden(collector: Collector): nat {
    match collector
    case GotError(_) => 2
    case Requeueing(_) => 2
    case GotData(_, _) => 1
    case Written(_) => 1
    case _ => 0
  }

  function Outer(s: State): nat {
    2 * |s.work| + CollectorBurden(s.collector) + Sum(s.workers, Burden)
  }

  function Inner(s: State): nat {
    40 * |s.pool| + Sum(s.workers, Distance) + CollectorDistance(s.collector) + SupervisorDistance(s)
  }

  ghost predicate Closer(s: State, s': State) {
    Outer(s') < Outer(s) || (Outer(s') == Outer(s) && Inner(s') < Inner(s))
  }

  /** The measure with only worker `me` in the sums. */
  function OuterOf(s: State, me: Worker): nat {
    2 * |s.work| + CollectorBurden(s.collector) + Burden(me)
  }

  function InnerOf(s: State, me: Worker): nat {
    40 * |s.pool| + Distance(me) + CollectorDistance(s.collector) + SupervisorDistance(s)
  }

  /** After the step the measure of worker and surroundings is smaller. */
  ghost predicate CloserOf(s: State, me: Worker, s': State, me': Worker) {
    OuterOf(s', me') < OuterOf(s, me) || (OuterOf(s', me') == OuterOf(s, me) && InnerOf(s', me') < InnerOf(s, me))
  }

  lemma IdleWorkerCloser(c: Config, s: State, step: Step, me: Worker)
    requires IsWorkerStep(step) && EnabledWorker(c, s, step, me) && s.cancelled
    requires step.Take? || step.QuitWaiting? || step.StartDial? || step.DialOk? || step.DialFail? || step.QuitConnected? || step.Pop?
    ensures CloserOf(s, me, Shared(c, s, step, me), NextPhase(c, s, step, me))
    ensures Shared(c, s, step, me).cancelled && Shared(c, s, step, me).workers == s.workers
  {
  }

  lemma BusyWorkerCloser(c: Config, s: State, step: Step, me: Worker)
    requires IsWorkerStep(step) && EnabledWorker(c, s, step, me) && s.cancelled
    requires step.Begin? || step.Finish? || step.Harvest? || step.Settle? || step.Deliver?
    requires step.Begin? ==> s.pieces[me.index] == Pending && HasHash(c, me.index)
    ensures CloserOf(s, me, Shared(c, s, step, me), NextPhase(c, s, step, me))
    ensures Shared(c, s, step, me).cancelled && Shared(c, s, step, me).workers == s.workers
  {
  }

  lemma WorkerCloser(c: Config, s: State, step: Step, me: Worker)
    requires IsWorkerStep(step) && EnabledWorker(c, s, step, me) && s.cancelled
    requires step.Begin? ==> s.pieces[me.index] == Pending && HasHash(c, me.index)
    ensures CloserOf(s, me, Shared(c, s, step, me), NextPhase(c, s, step, me))
    ensures Shared(c, s, step, me).cancelled && Shared(c, s, step, me).workers == s.workers
  {
    if step.Begin? || step.Finish? || step.Harvest? || step.Settle? || step.Deliver? {
      BusyWorkerCloser(c, s, step, me);
    } else {
      IdleWorkerCloser(c, s, step, me);
    }
  }

  /** From one worker to the sums over all. */
  lemma SumsCloser(s: State, w: nat, s': State, me': Worker)
    requires w < |s.workers| && s'.workers == s.workers && CloserOf(s, s.workers[w], s', me')
    ensures Closer(s, s'.(workers := s.workers[w := me']))
  {
    SumUpdate(s.workers, w, me', Burden);
    SumUpdate(s.workers, w, me', Distance);
  }

  lemma OtherCloser(c: Config, s: State, step: Step)
    requires Enabled(c, s, step) && s.cancelled && !IsWorkerStep(step) && !step.OutsideAdd? && !step.Tick?
    ensures Do(c, s, step).cancelled && Closer(s, Do(c, s, step))
  {
    if IsSupervisorStep(step) {
      SupervisorCloser(c, s, step);
    }
  }

  lemma SupervisorCloser(c: Config, s: State, step: Step)
    requires IsSupervisorStep(step) && EnabledSupervisor(s, step) && s.cancelled
    ensures Closer(s, DoSupervisor(c, s, step))
  {
  }

  lemma WorkerStepCloser(c: Config, s: State, step: Step)
    requires IsWorkerStep(step) && Enabled(c, s, step) && s.cancelled
    requires step.Begin? ==> s.pieces[s.workers[step.w].index] == Pending && HasHash(c, s.workers[step.w].index)
    ensures Do(c, s, step).cancelled && Closer(s, Do(c, s, step))
  {
    var me := s.workers[step.w];
    WorkerStepIs(c, s, step);
    WorkerCloser(c, s, step, me);
    SumsCloser(s, step.w, Shared(c, s, step, me), NextPhase(c, s, step, me));
  }

  /** Every step after cancellation, the ticker apart, brings the end closer: by the pieces and connections left, then by the rest. */
  lemma StepCloser(c: Config, s: State, step: Step, place: seq<Place>)
    requires AllHashed(c) && Tokens(c, s, place) && s.cancelled
    requires Enabled(c, s, step) && !step.OutsideAdd? && !step.Tick?
    ensures Do(c, s, step).cancelled && Closer(s, Do(c, s, step))
  {
    if IsWorkerStep(step) {
      if step.Begin? {
        TokensBegin(c, s, step.w, place);
        assert Held(s.workers[step.w]).value < c.pieceCount;
      }
      WorkerStepCloser(c, s, step);
    } else {
      OtherCloser(c, s, step);
    }
  }

  /** The step a worker can take once the context is cancelled and the collector is receiving or draining. */
  lemma WorkerCanStep(c: Config, s: State, w: nat, place: seq<Place>)
    requires Inv(c, s, place) && s.cancelled && w < |s.workers| && !s.workers[w].Exited?
    requires s.collector.Receiving? || s.collector.Draining?
    ensures CanStepUntimed(c, s)
  {
    assert Held(s.workers[w]).Some? ==> Held(s.workers[w]).value < |place|;
    var step :=
      match s.workers[w]
      case Waiting => QuitWaiting(w)
      case Taken(_) => StartDial(w)
      case Dialling(_, _) => DialFail(w)
      case Connected => QuitConnected(w)
      case Popped(_) => Begin(w)
      case Downloading(_, _) => Finish(w, Failed, [])
      case Harvesting(_, _, pex) => if pex == [] then Settle(w) else Harvest(w)
      case _ => Deliver(w);
    assert Enabled(c, s, step);
  }

  /** Nothing blocks before Start has returned; in particular no worker waits for ever to send a result. */
  lemma CancelledSwarmCanStep(c: Config, s: State, place: seq<Place>)
    requires Inv(c, s, place) && s.cancelled && !s.collector.Returned?
    ensures CanStepUntimed(c, s)
  {
    assert HeldByCollector(s.collector).Some? ==> HeldByCollector(s.collector).value < |place|;
    match s.collector
    case GotError(_) => assert Enabled(c, s, MarkPending);
    case Requeueing(_) => assert Enabled(c, s, DropRequeue);
    case GotData(_, _) =>
      assert Storage.Confined(s.disk, s.disk, s.collector.index * c.pieceLength, s.collector.data);
      assert Enabled(c, s, WriteFail(s.disk));
    case Written(_) => assert Enabled(c, s, MarkDone);
    case Returned =>
    case Receiving =>
      if AllExited(s) {
        assert Enabled(c, s, StopReceiving);
      } else {
        var w :| 0 <= w < |s.workers| && s.workers[w] != Exited;
        WorkerCanStep(c, s, w, place);
      }
    case Draining =>
      if AllExited(s) {
        DrainedCanStep(c, s);
      } else {
        var w :| 0 <= w < |s.workers| && s.workers[w] != Exited;
        WorkerCanStep(c, s, w, place);
      }
  }

  lemma DrainedCanStep(c: Config, s: State)
    requires s.cancelled && s.collector.Draining? && AllExited(s)
    ensures CanStepUntimed(c, s)
  {
    var step :=
      match s.supervisor
      case Sleeping => StopSupervising
      case SawEmptyPool => PollInFlight
      case SawNoneInFlight => PollCompleted
      case Confirmed => Supervise
      case Stopped => Return;
    assert Enabled(c, s, step);
  }

  /** A maximal run without outside addresses and without further ticks: a step at every point, or a state in which none is possible. */
  ghost predicate Maximal(c: Config, run: nat -> State) {
    forall k: nat :: Continues(c, run(k), run(k + 1))
  }

  ghost predicate Continues(c: Config, s: State, s': State) {
    NextUntimed(c, s, s') || (s' == s && !CanStepUntimed(c, s))
  }

  lemma {:induction false} WindsDown(c: Config, run: nat -> State, k: nat, place: seq<Place>) returns (m: nat)
    requires AllHashed(c) && Maximal(c, run) && run(k).cancelled
    requires Inv(c, run(k), place)
    ensures m >= k && run(m).collector.Returned? && AllExited(run(m)) && run(m).inFlight == 0
    decreases Outer(run(k)), Inner(run(k))
  {
    var s := run(k);
    if s.collector.Returned? {
      m := k;
      SumZero(s.workers, CountedOne);
      assert forall w :: 0 <= w < |s.workers| ==> CountedOne(s.workers[w]) == 0;
    } else {
      CancelledSwarmCanStep(c, s, place);
      assert Continues(c, run(k), run(k + 1));
      var place' := WindDownStep(c, s, run(k + 1), place);
      m := WindsDown(c, run, k + 1, place');
    }
  }

  lemma WindDownStep(c: Config, s: State, s': State, place: seq<Place>) returns (place': seq<Place>)
    requires AllHashed(c) && s.cancelled && Inv(c, s, place) && NextUntimed(c, s, s')
    ensures s'.cancelled && Inv(c, s', place') && Closer(s, s')
  {
    var step: Step :| !step.OutsideAdd? && !step.Tick? && Enabled(c, s, step) && s' == Do(c, s, step);
    StepCloser(c, s, step, place);
    InvStep(c, s, step, place);
    place' := NextPlace(c, s, step, place);
  }

  /** However a cancelled download goes on, Start returns, with every worker gone and none counted in flight. */
  lemma ShutdownFinishes(c: Config, run: nat -> State)
    requires AllHashed(c) && Reachable(c, run(0)) && run(0).cancelled && Maximal(c, run)
    ensures Finishes(run)
  {
    var place := ReachableInv(c, run(0));
    var m := WindsDown(c, run, 0, place);
    assert WoundDown(run(m));
  }

  /** Start has returned, every worker is gone and none is counted in flight. */
  predicate WoundDown(s: State) {
    s.collector.Returned? && AllExited(s) && s.inFlight == 0
  }

  ghost predicate Finishes(run: nat -> State) {
    exists m: nat :: WoundDown(run(m))
  }
}
