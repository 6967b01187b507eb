/** Every piece index is a token with exactly one place. */
module SwarmTokens {
  import opened Common
  import opened SwarmProtocol

  datatype Place = Queued | WithWorker(w: nat) | WithCollector | Finished | Dropped

  function Held(me: Worker): Option<nat> {
    match me
    case Popped(i) => Some(i)
    case Downloading(i, _) => Some(i)
    case Harvesting(i, _, _) => Some(i)
    case ReportingNoHash(i) => Some(i)
    case ReportingLost(i) => Some(i)
    case ReportingDone(i, _) => Some(i)
    case _ => None
  }

  function HeldByCollector(collector: Collector): Option<nat> {
    match collector
    case GotError(i) => Some(i)
    case Requeueing(i) => Some(i)
    case GotData(i, _) => Some(i)
    case Written(i) => Some(i)
    case _ => None
  }

  /** Cancellation is the only reason to leave, and what makes the collector stop. */
  ghost predicate StopsOnlyCancelled(s: State) {
    && (s.collector.Draining? || s.collector.Returned? || s.failed ==> s.cancelled)
    && (forall w :: 0 <= w < |s.workers| && s.workers[w].Exited? ==> s.cancelled)
    && |s.workers| > 0
    && (s.failed ==> s.collector.Draining? || s.collector.Returned?)
  }

  ghost predicate QueuePlaces(work: seq<nat>, place: seq<Place>) {
    && NoDup(work)
    && (forall k :: 0 <= k < |work| ==> work[k] < |place| && place[work[k]] == Queued)
    && (forall i :: 0 <= i < |place| && place[i] == Queued ==> i in work)
  }

  ghost predicate WorkerPlaces(workers: seq<Worker>, place: seq<Place>) {
    && (forall w :: 0 <= w < |workers| && Held(workers[w]).Some? ==>
                      Held(workers[w]).value < |place| && place[Held(workers[w]).value] == WithWorker(w))
    && (forall i :: 0 <= i < |place| && place[i].WithWorker? ==>
                      place[i].w < |workers| && Held(workers[place[i].w]) == Some(i))
  }

  ghost predicate CollectorPlaces(held: Option<nat>, place: seq<Place>) {
    && (held.Some? ==> held.value < |place| && place[held.value] == WithCollector)
    && (forall i :: 0 <= i < |place| && place[i] == WithCollector ==> held == Some(i))
  }

  predicate StatusFits(status: Status, workers: seq<Worker>, collector: Collector, cancelled: bool, place: Place) {
    match place
    case Queued => status == Pending
    case WithWorker(w) => w < |workers| && status == if workers[w].Popped? then Pending else InProgress
    case WithCollector => status == if collector.Requeueing? then Pending else InProgress
    case Finished => status == Completed
    case Dropped => cancelled && status != Completed
  }

  ghost predicate Statuses(pieces: seq<Status>, workers: seq<Worker>, collector: Collector, cancelled: bool,
                           place: seq<Place>) {
    && |pieces| == |place|
    && (forall i :: 0 <= i < |place| ==> StatusFits(pieces[i], workers, collector, cancelled, place[i]))
  }

  ghost predicate Tokens(c: Config, s: State, place: seq<Place>) {
    && |place| == c.pieceCount
    && StopsOnlyCancelled(s)
    && QueuePlaces(s.work, place)
    && WorkerPlaces(s.workers, place)
    && CollectorPlaces(HeldByCollector(s.collector), place)
    && Statuses(s.pieces, s.workers, s.collector, s.cancelled, place)
  }

  lemma QueueUnaffected(work: seq<nat>, place: seq<Place>, i: nat, p: Place)
    requires QueuePlaces(work, place) && i < |place| && place[i] != Queued && p != Queued
    ensures QueuePlaces(work, place[i := p])
  {
  }

  lemma QueueGives(work: seq<nat>, place: seq<Place>, p: Place)
    requires QueuePlaces(work, place) && work != [] && p != Queued
    ensures QueuePlaces(work[1..], place[work[0] := p])
  {
    forall j | 0 <= j < |place| && place[work[0] := p][j] == Queued
      ensures j in work[1..]
    {
      assert j != work[0] && j in work;
    }
  }

  lemma QueueTakes(work: seq<nat>, place: seq<Place>, i: nat)
    requires QueuePlaces(work, place) && i < |place| && place[i] != Queued
    ensures QueuePlaces(work + [i], place[i := Queued])
  {
    NoDupAppend(work, i);
    forall j | 0 <= j < |place| && place[i := Queued][j] == Queued
      ensures j in work + [i]
    {
      assert j == i || j in work;
    }
  }

  lemma WorkersUnaffected(workers: seq<Worker>, place: seq<Place>, i: nat, p: Place)
    requires WorkerPlaces(workers, place) && i < |place| && !place[i].WithWorker? && !p.WithWorker?
    ensures WorkerPlaces(workers, place[i := p])
  {
  }

  lemma WorkerKeeps(workers: seq<Worker>, place: seq<Place>, w: nat, me: Worker)
    requires WorkerPlaces(workers, place) && w < |workers| && Held(me) == Held(workers[w])
    ensures WorkerPlaces(workers[w := me], place)
  {
  }

  lemma WorkerGives(workers: seq<Worker>, place: seq<Place>, w: nat, me: Worker, p: Place)
    requires WorkerPlaces(workers, place) && w < |workers| && Held(workers[w]).Some?
    requires Held(me).None? && !p.WithWorker?
    ensures WorkerPlaces(workers[w := me], place[Held(workers[w]).value := p])
  {
  }

  lemma WorkerTakes(workers: seq<Worker>, place: seq<Place>, w: nat, me: Worker, i: nat)
    requires WorkerPlaces(workers, place) && w < |workers| && Held(workers[w]).None?
    requires i < |place| && !place[i].WithWorker? && Held(me) == Some(i)
    ensures WorkerPlaces(workers[w := me], place[i := WithWorker(w)])
  {
  }

  lemma CollectorUnaffected(held: Option<nat>, place: seq<Place>, i: nat, p: Place)
    requires CollectorPlaces(held, place) && i < |place| && place[i] != WithCollector && p != WithCollector
    ensures CollectorPlaces(held, place[i := p])
  {
  }

  lemma CollectorMoves(held: Option<nat>, place: seq<Place>, i: nat, p: Place)
    requires CollectorPlaces(held, place) && i < |place| && (held.None? || held == Some(i))
    ensures CollectorPlaces(if p == WithCollector then Some(i) else None, place[i := p])
  {
  }

  /** A worker that keeps its index, or has none, changes no status but its own. */
  lemma StatusesWorker(pieces: seq<Status>, workers: seq<Worker>, collector: Collector, cancelled: bool,
                       place: seq<Place>, w: nat, me: Worker)
    requires WorkerPlaces(workers, place) && Statuses(pieces, workers, collector, cancelled, place) && w < |workers|
    requires Held(workers[w]).Some? ==> me.Popped? == workers[w].Popped?
    ensures Statuses(pieces, workers[w := me], collector, cancelled, place)
  {
  }

  /** When one token leaves or reaches the collector, only its own status is looked at anew. */
  lemma StatusesMoved(pieces: seq<Status>, workers: seq<Worker>, collector: Collector, cancelled: bool, place: seq<Place>,
                      i: nat, p: Place, pieces': seq<Status>, collector': Collector, cancelled': bool)
    requires Statuses(pieces, workers, collector, cancelled, place) && i < |place| && (cancelled ==> cancelled')
    requires forall j :: 0 <= j < |place| && j != i ==> place[j] != WithCollector
    requires |pieces'| == |pieces| && forall j :: 0 <= j < |pieces| && j != i ==> pieces'[j] == pieces[j]
    requires StatusFits(pieces'[i], workers, collector', cancelled', p)
    ensures Statuses(pieces', workers, collector', cancelled', place[i := p])
  {
  }

  /** How a step moves the token it is about. */
  ghost function NextPlace(c: Config, s: State, step: Step, place: seq<Place>): seq<Place>
    requires Enabled(c, s, step)
  {
    match step
    case Pop(w) => if s.work[0] < |place| then place[s.work[0] := WithWorker(w)] else place
    case Deliver(w) =>
      var i := Held(s.workers[w]).value;
      if i >= |place| then place
      else place[i := if s.collector.Draining? then Dropped else WithCollector]
    case Requeue => if s.collector.index < |place| then place[s.collector.index := Queued] else place
    case DropRequeue => if s.collector.index < |place| then place[s.collector.index := Dropped] else place
    case WriteFail(_) => if s.collector.index < |place| then place[s.collector.index := Dropped] else place
    case MarkDone => if s.collector.index < |place| then place[s.collector.index := Finished] else place
    case _ => place
  }

  lemma TokensOutside(c: Config, s: State, step: Step, place: seq<Place>)
    requires Enabled(c, s, step) && Tokens(c, s, place)
    requires step.OutsideAdd? || step.OutsideCancel? || step.Tick? || IsSupervisorStep(step)
    ensures Tokens(c, Do(c, s, step), NextPlace(c, s, step, place))
  {
    var s' := Do(c, s, step);
    OutsideLeavesPieces(c, s, step);
    assert Statuses(s'.pieces, s'.workers, s'.collector, s'.cancelled, place);
  }

  lemma OutsideLeavesPieces(c: Config, s: State, step: Step)
    requires Enabled(c, s, step)
    requires step.OutsideAdd? || step.OutsideCancel? || step.Tick? || IsSupervisorStep(step)
    ensures var s' := Do(c, s, step);
            && s'.pieces == s.pieces && s'.workers == s.workers && s'.collector == s.collector && s'.work == s.work
            && s'.completed == s.completed && (s.cancelled ==> s'.cancelled)
  {
    if IsSupervisorStep(step) {
      SupervisorLeavesPieces(c, s, step);
    }
  }

  lemma SupervisorLeavesPieces(c: Config, s: State, step: Step)
    requires Enabled(c, s, step) && IsSupervisorStep(step)
    ensures var s' := Do(c, s, step);
            && s'.pieces == s.pieces && s'.workers == s.workers && s'.collector == s.collector && s'.work == s.work
            && s'.completed == s.completed && (s.cancelled ==> s'.cancelled)
  {
    var s' := DoSupervisor(c, s, step);
    assert Do(c, s, step) == s';
  }

  lemma TokensCollectorKeeps(c: Config, s: State, step: Step, place: seq<Place>)
    requires Enabled(c, s, step) && Tokens(c, s, place)
    requires step.MarkPending? || step.WriteOk? || step.StopReceiving? || step.Return?
    ensures Tokens(c, Do(c, s, step), NextPlace(c, s, step, place))
  {
    if step.StopReceiving? {
      assert s.workers[0].Exited?;
    }
    if step.MarkPending? || step.WriteOk? {
      TokensInHand(c, s, step, place);
    }
  }

  lemma TokensInHand(c: Config, s: State, step: Step, place: seq<Place>)
    requires Enabled(c, s, step) && Tokens(c, s, place) && (step.MarkPending? || step.WriteOk?)
    ensures Tokens(c, Do(c, s, step), place)
  {
  }

  lemma TokensCollectorGives(c: Config, s: State, step: Step, place: seq<Place>)
    requires Enabled(c, s, step) && Tokens(c, s, place)
    requires step.DropRequeue? || step.WriteFail? || step.MarkDone? || step.Requeue?
    ensures Tokens(c, Do(c, s, step), NextPlace(c, s, step, place))
  {
    var i, p := s.collector.index, if step.MarkDone? then Finished else if step.Requeue? then Queued else Dropped;
    CollectorMoves(Some(i), place, i, p);
    WorkersUnaffected(s.workers, place, i, p);
    if step.Requeue? {
      QueueTakes(s.work, place, i);
    } else {
      QueueUnaffected(s.work, place, i, p);
    }
    assert NextPlace(c, s, step, place) == place[i := p];
    GivenFits(c, s, step, place, i, p);
    var s' := Do(c, s, step);
    StatusesMoved(s.pieces, s.workers, s.collector, s.cancelled, place, i, p, s'.pieces, s'.collector, s'.cancelled);
  }

  lemma GivenFits(c: Config, s: State, step: Step, place: seq<Place>, i: nat, p: Place)
    requires Enabled(c, s, step) && Tokens(c, s, place)
    requires step.DropRequeue? || step.WriteFail? || step.MarkDone? || step.Requeue?
    requires i == s.collector.index
    requires p == if step.MarkDone? then Finished else if step.Requeue? then Queued else Dropped
    ensures i < |place| && place[i] == WithCollector
    ensures |Do(c, s, step).pieces| == |s.pieces| > i && (s.cancelled ==> Do(c, s, step).cancelled)
    ensures forall j :: 0 <= j < |s.pieces| && j != i ==> Do(c, s, step).pieces[j] == s.pieces[j]
    ensures StatusFits(Do(c, s, step).pieces[i], s.workers, Do(c, s, step).collector, Do(c, s, step).cancelled, p)
    ensures Do(c, s, step).workers == s.workers && HeldByCollector(Do(c, s, step).collector).None?
    ensures StopsOnlyCancelled(Do(c, s, step))
    ensures Do(c, s, step).work == if step.Requeue? then s.work + [i] else s.work
  {
    assert StatusFits(s.pieces[i], s.workers, s.collector, s.cancelled, place[i]);
  }

  lemma TokensPop(c: Config, s: State, w: nat, place: seq<Place>)
    requires Enabled(c, s, Pop(w)) && Tokens(c, s, place)
    ensures Tokens(c, Do(c, s, Pop(w)), NextPlace(c, s, Pop(w), place))
  {
    var i := s.work[0];
    QueueGives(s.work, place, WithWorker(w));
    WorkerTakes(s.workers, place, w, Popped(i), i);
    CollectorUnaffected(HeldByCollector(s.collector), place, i, WithWorker(w));
    StatusesWorker(s.pieces, s.workers, s.collector, s.cancelled, place, w, Popped(i));
  }

  lemma TokensDeliver(c: Config, s: State, w: nat, place: seq<Place>)
    requires Enabled(c, s, Deliver(w)) && Tokens(c, s, place)
    ensures Tokens(c, Do(c, s, Deliver(w)), NextPlace(c, s, Deliver(w), place))
  {
    var i := Held(s.workers[w]).value;
    var s' := Do(c, s, Deliver(w));
    var p := if s.collector.Draining? then Dropped else WithCollector;
    QueueUnaffected(s.work, place, i, p);
    WorkerGives(s.workers, place, w, s'.workers[w], p);
    CollectorMoves(None, place, i, p);
    StatusesWorker(s.pieces, s.workers, s.collector, s.cancelled, place, w, s'.workers[w]);
    assert StatusFits(s.pieces[i], s.workers, s.collector, s.cancelled, place[i]);
    StatusesMoved(s.pieces, s'.workers, s.collector, s.cancelled, place, i, p, s'.pieces, s'.collector, s'.cancelled);
  }

  /** In every reachable state the status check that would discard an index passes. */
  lemma TokensBegin(c: Config, s: State, w: nat, place: seq<Place>)
    requires Enabled(c, s, Begin(w)) && Tokens(c, s, place)
    ensures s.pieces[s.workers[w].index] == Pending
    ensures Tokens(c, Do(c, s, Begin(w)), place)
  {
    var i := s.workers[w].index;
    assert Held(s.workers[w]) == Some(i);
    assert place[i] == WithWorker(w) && StatusFits(s.pieces[i], s.workers, s.collector, s.cancelled, place[i]);
    WorkerKeeps(s.workers, place, w, Do(c, s, Begin(w)).workers[w]);
    BeginStatuses(s.pieces, s.workers, s.collector, s.cancelled, place, w, Do(c, s, Begin(w)).workers[w]);
  }

  lemma BeginStatuses(pieces: seq<Status>, workers: seq<Worker>, collector: Collector, cancelled: bool,
                      place: seq<Place>, w: nat, me: Worker)
    requires WorkerPlaces(workers, place) && Statuses(pieces, workers, collector, cancelled, place) && w < |workers|
    requires workers[w].Popped? && !me.Popped? && Held(me) == Held(workers[w]) && workers[w].index < |pieces|
    ensures Statuses(pieces[workers[w].index := InProgress], workers[w := me], collector, cancelled, place)
  {
  }

  lemma TokensKept(c: Config, s: State, step: Step, place: seq<Place>)
    requires Enabled(c, s, step) && Tokens(c, s, place)
    requires IsWorkerStep(step) && !step.Pop? && !step.Begin? && !step.Deliver?
    ensures Tokens(c, Do(c, s, step), place)
  {
    var w, me' := step.w, NextPhase(c, s, step, s.workers[step.w]);
    WorkerStepIs(c, s, step);
    KeptAlone(c, s, step, s.workers[w]);
    WorkerKeeps(s.workers, place, w, me');
    StatusesWorker(s.pieces, s.workers, s.collector, s.cancelled, place, w, me');
  }

  /** Such a step moves no index. */
  lemma KeptAlone(c: Config, s: State, step: Step, me: Worker)
    requires IsWorkerStep(step) && EnabledWorker(c, s, step, me) && !step.Pop? && !step.Begin? && !step.Deliver?
    ensures var s', me' := Shared(c, s, step, me), NextPhase(c, s, step, me);
            && s'.pieces == s.pieces && s'.work == s.work && s'.collector == s.collector
            && s'.cancelled == s.cancelled && s'.completed == s.completed
            && Held(me') == Held(me) && (Held(me).Some? ==> me'.Popped? == me.Popped?)
  {
  }

  lemma TokensStep(c: Config, s: State, step: Step, place: seq<Place>)
    requires Enabled(c, s, step) && Tokens(c, s, place)
    ensures Tokens(c, Do(c, s, step), NextPlace(c, s, step, place))
  {
    if step.Pop? {
      TokensPop(c, s, step.w, place);
    } else if step.Begin? {
      TokensBegin(c, s, step.w, place);
    } else if step.Deliver? {
      TokensDeliver(c, s, step.w, place);
    } else if step.DropRequeue? || step.WriteFail? || step.MarkDone? || step.Requeue? {
      TokensCollectorGives(c, s, step, place);
    } else if IsWorkerStep(step) {
      TokensKept(c, s, step, place);
    } else if step.OutsideAdd? || step.OutsideCancel? || step.Tick? || IsSupervisorStep(step) {
      TokensOutside(c, s, step, place);
    } else {
      TokensCollectorKeeps(c, s, step, place);
    }
  }

  /** The re-enqueue always finds room. */
  lemma QueueHasRoom(c: Config, s: State, place: seq<Place>)
    requires Tokens(c, s, place) && s.collector.Requeueing?
    ensures |s.work| < c.pieceCount
  {
    var i := s.collector.index;
    assert i !in s.work;
    Pigeonhole(s.work, c.pieceCount);
  }
}
