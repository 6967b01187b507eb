/** The supervisor gives a swarm up after two stalled polls in a row, and a stalled swarm is given up. */
module SwarmSupervisor {
  import opened Common
  import opened SwarmProtocol
  import opened SwarmTokens
  import opened SwarmCounters
  import opened SwarmTheorems
  import opened SwarmHope

  // ---- What moves the supervisor ----

  /** Only an empty pool, then a zero `inFlight`, then missing pieces lead to a confirmation, and only two in a row to the verdict. */
  ghost predicate SupervisorMoves(c: Config, s: State, s': State) {
    && (s'.supervisor.SawEmptyPool? && !s.supervisor.SawEmptyPool? ==> s.supervisor.Sleeping? && s.pool == [])
    && (s'.supervisor.SawNoneInFlight? && !s.supervisor.SawNoneInFlight? ==> s.supervisor.SawEmptyPool? && s.inFlight == 0)
    && (s'.confirms > s.confirms ==>
          s.supervisor.SawNoneInFlight? && s.completed < c.pieceCount && s'.confirms == s.confirms + 1)
    && (s'.supervisor.Confirmed? && !s.supervisor.Confirmed? ==> s'.confirms > s.confirms && s'.confirms >= 2)
    && (s'.supervisor.Sleeping? && !s.supervisor.Sleeping? ==> s'.confirms > s.confirms || s'.confirms == 0)
    && (s'.exhausted && !s.exhausted ==> s.supervisor.Confirmed? && s'.cancelled)
    && (s.supervisor.Confirmed? && !s'.supervisor.Confirmed? ==> s'.cancelled && s'.exhausted)
    && (s.exhausted ==> s'.exhausted) && (s.supervisor.Stopped? ==> s'.supervisor.Stopped?)
  }

  lemma WorkerLeavesSupervisor(c: Config, s: State, step: Step, me: Worker)
    requires IsWorkerStep(step) && EnabledWorker(c, s, step, me)
    ensures var s' := Shared(c, s, step, me);
            s'.supervisor == s.supervisor && s'.confirms == s.confirms && s'.exhausted == s.exhausted && s'.tick == s.tick
  {
  }

  lemma OthersLeaveSupervisor(c: Config, s: State, step: Step)
    requires Enabled(c, s, step) && !IsSupervisorStep(step)
    ensures var s' := Do(c, s, step);
            s'.supervisor == s.supervisor && s'.confirms == s.confirms && s'.exhausted == s.exhausted
  {
    if IsWorkerStep(step) {
      WorkerStepIs(c, s, step);
      WorkerLeavesSupervisor(c, s, step, s.workers[step.w]);
    }
  }

  /** Whatever step is taken, the supervisor moves by these rules. */
  lemma EveryStepMovesSo(c: Config, s: State, s': State)
    requires Next(c, s, s')
    ensures SupervisorMoves(c, s, s')
  {
    var step: Step :| Enabled(c, s, step) && s' == Do(c, s, step);
    if IsSupervisorStep(step) {
      SupervisorStepMovesSo(c, s, step);
    } else {
      OthersLeaveSupervisor(c, s, step);
    }
  }

  lemma SupervisorStepMovesSo(c: Config, s: State, step: Step)
    requires IsSupervisorStep(step) && EnabledSupervisor(s, step)
    ensures SupervisorMoves(c, s, DoSupervisor(c, s, step))
  {
  }

  // ---- A stalled swarm is given up ----

  /** With nobody counted and nothing to take, no worker can do anything but hand over a failure or leave. */
  lemma StalledWorkerStep(c: Config, s: State, step: Step, me: Worker)
    requires IsWorkerStep(step) && EnabledWorker(c, s, step, me) && s.pool == [] && !Counted(me) && !me.Taken?
    ensures var s' := Shared(c, s, step, me); s'.pool == [] && s'.inFlight == s.inFlight && s'.completed == s.completed
    ensures !Counted(NextPhase(c, s, step, me)) && !NextPhase(c, s, step, me).Taken?
  {
  }

  lemma StalledKeepsMissing(c: Config, s: State, s': State)
    requires Reachable(c, s) && StalledNow(c, s) && !s.cancelled && NextInside(c, s, s')
    ensures s'.completed < c.pieceCount
  {
    HopeAtRest(c, s);
    HopelessIsDead(c, s);
    DeadNext(c, s, s');
    InsideIsNext(c, s, s');
    ReachesNext(c, s, s');
    var place := ReachableInv(c, s');
    var i :| 0 <= i < |s'.pieces| && Unfinished(s', i);
    CompletedMeansAll(c, s', place);
  }

  lemma StalledKeepsRest(c: Config, s: State, step: Step)
    requires Enabled(c, s, step) && !step.OutsideAdd? && s.pool == [] && s.inFlight == 0
    requires forall w :: 0 <= w < |s.workers| ==> !Counted(s.workers[w]) && !s.workers[w].Taken?
    ensures Do(c, s, step).pool == [] && Do(c, s, step).inFlight == 0 && !SomeTaken(Do(c, s, step))
  {
    if IsWorkerStep(step) {
      WorkerStepIs(c, s, step);
      StalledWorkerStep(c, s, step, s.workers[step.w]);
      ConnectionEffect(c, s, step, s.workers[step.w]);
    }
  }

  /** A stall lasts, as long as no address comes from outside. */
  lemma StallLasts(c: Config, s: State, s': State)
    requires Reachable(c, s) && StalledNow(c, s) && !s.cancelled && NextInside(c, s, s')
    ensures StalledNow(c, s')
  {
    StalledKeepsMissing(c, s, s');
    InFlightCounts(c, s);
    assert forall w :: 0 <= w < |s.workers| ==> !Counted(s.workers[w]);
    forall w | 0 <= w < |s.workers|
      ensures !Counted(s.workers[w]) && !s.workers[w].Taken?
    {
    }
    var step: Step :| !step.OutsideAdd? && Enabled(c, s, step) && s' == Do(c, s, step);
    StalledKeepsRest(c, s, step);
  }

  // ---- How long that takes ----

  /** The moves that the supervisor of a stalled swarm still makes: three for each poll and the verdict. */
  function MovesLeft(s: State): int {
    match s.supervisor
    case Sleeping => 3 * (CONFIRMS - s.confirms) + 1
    case SawEmptyPool => 3 * (CONFIRMS - s.confirms)
    case SawNoneInFlight => 3 * (CONFIRMS - s.confirms) - 1
    case Confirmed => 1
    case Stopped => 0
  }

  /** Fewer than two confirmations until the verdict, and no stop without cancellation. */
  ghost predicate Watching(s: State) {
    && (!s.supervisor.Confirmed? && !s.supervisor.Stopped? ==> s.confirms < CONFIRMS)
    && (s.supervisor.Stopped? ==> s.cancelled)
  }

  lemma WatchingStep(c: Config, s: State, s': State)
    requires Next(c, s, s') && Watching(s)
    ensures Watching(s')
  {
    var step: Step :| Enabled(c, s, step) && s' == Do(c, s, step);
    if IsSupervisorStep(step) {
      WatchingPoll(c, s, step);
    } else {
      OthersLeaveSupervisor(c, s, step);
      if s.cancelled {
        StaysCancelled(c, s, step);
      }
    }
  }

  lemma WatchingPoll(c: Config, s: State, step: Step)
    requires IsSupervisorStep(step) && EnabledSupervisor(s, step) && Watching(s)
    ensures Watching(DoSupervisor(c, s, step))
  {
  }

  lemma StaysCancelled(c: Config, s: State, step: Step)
    requires Enabled(c, s, step) && s.cancelled
    ensures Do(c, s, step).cancelled
  {
    if IsWorkerStep(step) {
      WorkerStepIs(c, s, step);
    }
  }

  lemma {:induction false} WatchingRun(c: Config, run: seq<State>, k: nat)
    requires IsRun(c, run) && k < |run|
    ensures Watching(run[k])
  {
    if k == 0 {
      var disk, seeds :| |Flatten(disk)| == c.totalSize && run[0] == Initial(c, disk, seeds);
      SeedsLeaveSupervisor(Unseeded(c, disk), seeds);
    } else {
      WatchingRun(c, run, k - 1);
      assert StepAt(c, run, k);
      WatchingStep(c, run[k - 1], run[k]);
    }
  }

  lemma {:induction false} SeedsLeaveSupervisor(s: State, addrs: seq<Addr>)
    ensures AddPeers(s, addrs).supervisor == s.supervisor && AddPeers(s, addrs).confirms == s.confirms
    ensures AddPeers(s, addrs).exhausted == s.exhausted && AddPeers(s, addrs).collector == s.collector
    decreases |addrs|
  {
    if addrs != [] {
      SeedsLeaveSupervisor(AddPeer(s, addrs[0]), addrs[1..]);
    }
  }

  lemma ReachableWatching(c: Config, s: State)
    requires Reachable(c, s)
    ensures Watching(s)
  {
    var run: seq<State> :| IsRun(c, run) && run[|run| - 1] == s;
    WatchingRun(c, run, |run| - 1);
  }

  predicate Moved(s: State, s': State) {
    s'.supervisor != s.supervisor || s'.confirms != s.confirms
  }

  /** While the swarm is stalled no load of the supervisor sees life: each of its moves is one of the last. */
  lemma StalledMove(c: Config, s: State, s': State)
    requires Reachable(c, s) && StalledNow(c, s) && !s.cancelled && NextInside(c, s, s')
    ensures MovesLeft(s') == MovesLeft(s) - if Moved(s, s') then 1 else 0
  {
    ReachableWatching(c, s);
    var step: Step :| !step.OutsideAdd? && Enabled(c, s, step) && s' == Do(c, s, step);
    if IsSupervisorStep(step) {
      StalledPoll(c, s, step);
    } else {
      OthersLeaveSupervisor(c, s, step);
    }
  }

  lemma StalledPoll(c: Config, s: State, step: Step)
    requires IsSupervisorStep(step) && EnabledSupervisor(s, step) && Watching(s) && !s.cancelled
    requires s.pool == [] && s.inFlight == 0 && s.completed < c.pieceCount
    ensures var s' := DoSupervisor(c, s, step); Moved(s, s') && MovesLeft(s') == MovesLeft(s) - 1
  {
  }

  function MovesAlong(path: seq<State>): nat {
    if |path| < 2 then 0 else MovesAlong(path[..|path| - 1]) + if Moved(path[|path| - 2], path[|path| - 1]) then 1 else 0
  }

  lemma PathInit(c: Config, path: seq<State>)
    requires IsPath(c, path) && |path| > 1
    ensures IsPath(c, path[..|path| - 1]) && NextInside(c, path[|path| - 2], path[|path| - 1])
  {
    var init := path[..|path| - 1];
    forall k | 0 < k < |init|
      ensures InsideStepAt(c, init, k)
    {
      assert InsideStepAt(c, path, k);
    }
    assert InsideStepAt(c, path, |path| - 1);
  }

  lemma {:induction false} StalledPath(c: Config, path: seq<State>)
    requires IsPath(c, path) && Reachable(c, path[0]) && StalledNow(c, path[0])
    requires forall k :: 0 <= k < |path| ==> !path[k].cancelled
    ensures StalledNow(c, path[|path| - 1]) && MovesLeft(path[|path| - 1]) == MovesLeft(path[0]) - MovesAlong(path)
    decreases |path|
  {
    if |path| > 1 {
      var init := path[..|path| - 1];
      PathInit(c, path);
      StalledPath(c, init);
      PathReachable(c, path, |path| - 2);
      StallLasts(c, path[|path| - 2], path[|path| - 1]);
      StalledMove(c, path[|path| - 2], path[|path| - 1]);
    }
  }

  /** A stalled swarm is cancelled at the latest with the supervisor's seventh move. */
  lemma StalledIsGivenUp(c: Config, path: seq<State>)
    requires IsPath(c, path) && Reachable(c, path[0]) && StalledNow(c, path[0])
    requires MovesAlong(path) >= 7
    ensures exists k :: 0 <= k < |path| && path[k].cancelled
  {
    if forall k :: 0 <= k < |path| ==> !path[k].cancelled {
      StalledPath(c, path);
      PathReachable(c, path, |path| - 1);
      FewMovesLeft(c, path[0]);
      FewMovesLeft(c, path[|path| - 1]);
    }
  }

  lemma FewMovesLeft(c: Config, s: State)
    requires Reachable(c, s) && !s.cancelled
    ensures 0 < MovesLeft(s) <= 7
  {
    ReachableWatching(c, s);
  }

  /** And as long as it is not, a tick is enough for the supervisor to move. */
  lemma SupervisorCanMove(c: Config, s: State)
    requires Reachable(c, s) && !s.cancelled && (s.tick || !s.supervisor.Sleeping?)
    ensures exists step: Step :: IsSupervisorStep(step) && Enabled(c, s, step)
  {
    ReachableWatching(c, s);
    var step :=
      match s.supervisor
      case Sleeping => PollPool
      case SawEmptyPool => PollInFlight
      case SawNoneInFlight => PollCompleted
      case _ => Supervise;
    assert Enabled(c, s, step);
  }

  // ---- What the verdict does to the answer ----

  lemma ReturnNeedsStop(c: Config, s: State, s': State)
    requires Next(c, s, s') && s'.collector.Returned?
    ensures s.collector.Returned? || s'.supervisor.Stopped?
  {
    var step: Step :| Enabled(c, s, step) && s' == Do(c, s, step);
    if IsWorkerStep(step) {
      WorkerStepIs(c, s, step);
      WorkersDoNotReturn(c, s, step, s.workers[step.w]);
    } else if IsSupervisorStep(step) {
      SupervisorDoesNotReturn(c, s, step);
    }
  }

  lemma WorkersDoNotReturn(c: Config, s: State, step: Step, me: Worker)
    requires IsWorkerStep(step) && EnabledWorker(c, s, step, me)
    ensures Shared(c, s, step, me).collector.Returned? ==> s.collector.Returned?
  {
  }

  lemma SupervisorDoesNotReturn(c: Config, s: State, step: Step)
    requires IsSupervisorStep(step) && EnabledSupervisor(s, step)
    ensures DoSupervisor(c, s, step).collector == s.collector
  {
  }

  /** The verdict has been stored, or is about to be, exactly if some state of the run so far was one of confirmation. */
  lemma {:induction false} VerdictSoFar(c: Config, run: seq<State>, m: nat)
    requires IsRun(c, run) && m < |run|
    ensures run[m].exhausted || run[m].supervisor.Confirmed? <==> exists k :: 0 <= k <= m && run[k].supervisor.Confirmed?
    ensures run[m].collector.Returned? ==> run[m].supervisor.Stopped?
  {
    if m == 0 {
      var disk, seeds :| |Flatten(disk)| == c.totalSize && run[0] == Initial(c, disk, seeds);
      SeedsLeaveSupervisor(Unseeded(c, disk), seeds);
    } else {
      VerdictSoFar(c, run, m - 1);
      assert StepAt(c, run, m);
      EveryStepMovesSo(c, run[m - 1], run[m]);
      if run[m].collector.Returned? {
        ReturnNeedsStop(c, run[m - 1], run[m]);
      }
    }
  }

  /** Start blames the supply of peers exactly if pieces are missing, no write failed and the supervisor had confirmed a stall. */
  lemma SupplyExhaustedIff(c: Config, run: seq<State>)
    requires IsRun(c, run) && run[|run| - 1].collector.Returned?
    ensures var end := run[|run| - 1];
            AnswerOf(c, end) == SupplyExhausted
            <==> !end.failed && end.completed < c.pieceCount && exists k :: 0 <= k < |run| && run[k].supervisor.Confirmed?
  {
    VerdictSoFar(c, run, |run| - 1);
  }
}
