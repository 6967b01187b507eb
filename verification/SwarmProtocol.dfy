/** The concurrent download of internal/client/swarm.go as a transition system.

    A step is one access of a goroutine to what it shares with others; which step comes next, which branch
    a `select` takes, what peers send, when the ticker fires and when the context is cancelled are left to
    the environment. Four steps hold more than one access:

    - MarkDone is the status, the store to `completed` and, for the last piece, the cancellation. Nobody else
      reads the status of a piece that is on disk, and between the store and the cancellation others can only
      take steps that they could also take before the store.
    - WriteFail is the failed write and the cancellation behind it; nobody else looks at the disk.
    - Settle is the decrement of `inFlight` and the assignments around it to variables of the worker alone.
    - Supervise is the store to `exhausted` and the cancellation; Start reads `exhausted` only once the
      supervisor has stopped. */
module SwarmProtocol {
  import opened Common
  import opened Storage

  type Addr = string

  /** peerPoolHeadroom */
  const POOL_CAPACITY: nat := 256

  datatype Config = Config(
    pieceCount: nat,
    pieceLength: nat,
    totalSize: nat,
    pieces: Bytes,          // meta.Pieces: 20 bytes for each piece
    maxWorkers: int,
    sha1: Bytes -> Bytes)

  datatype Status = Pending | InProgress | Completed

  datatype Outcome = Fetched(data: Bytes) | Failed

  /** Where a worker goroutine stands. `late` marks network work begun after cancellation. */
  datatype Worker =
    | Waiting                                        // in acquireConn, waiting for an address
    | Taken(addr: Addr)                              // address received, not yet counted in-flight
    | Dialling(addr: Addr, late: bool)
    | Connected                                      // waiting for a piece index
    | Popped(index: nat)                             // index received, status not yet claimed
    | Downloading(index: nat, late: bool)
    | Harvesting(index: nat, outcome: Outcome, pex: seq<Addr>)
    | ReportingNoHash(index: nat)                    // no hash for this index; the connection is kept
    | ReportingLost(index: nat)                      // download failed; the connection is gone
    | ReportingDone(index: nat, data: Bytes)
    | Exited

  /** Where Start's collection loop stands. */
  datatype Collector =
    | Receiving
    | GotError(index: nat)
    | Requeueing(index: nat)
    | GotData(index: nat, data: Bytes)
    | Written(index: nat)                            // on disk, status not yet updated
    | Draining
    | Returned

  /** Where superviseExhaustion stands: between the three loads of a poll, or about to cancel. */
  datatype Supervisor = Sleeping | SawEmptyPool | SawNoneInFlight | Confirmed | Stopped

  /** exhaustionConfirms */
  const CONFIRMS: nat := 2

  datatype State = State(
    work: seq<nat>,
    pieces: seq<Status>,
    pool: seq<Addr>,
    known: set<Addr>,
    inFlight: int,
    completed: nat,
    exhausted: bool,
    cancelled: bool,
    failed: bool,                                    // dlErr is set
    workers: seq<Worker>,
    collector: Collector,
    tick: bool,                                      // the ticker has fired and not been received
    supervisor: Supervisor,
    confirms: nat,
    disk: seq<Bytes>,
    // history
    queued: seq<Addr>,                               // every address ever put into the pool
    dials: seq<Addr>,                                // every dial begun
    closed: nat,                                     // connection attempts that are over
    failures: nat,                                   // failed piece results
    requeued: nat,
    pops: nat,                                       // receives from the work queue
    writes: seq<nat>)                                // pieces written, in order

  datatype Step =
    | OutsideAdd(addr: Addr)
    | OutsideCancel
    | Tick
    | PollPool
    | PollInFlight
    | PollCompleted
    | Supervise
    | StopSupervising
    | Take(w: nat)
    | QuitWaiting(w: nat)
    | StartDial(w: nat)
    | DialOk(w: nat)
    | DialFail(w: nat)
    | Pop(w: nat)
    | QuitConnected(w: nat)
    | Begin(w: nat)
    | Finish(w: nat, outcome: Outcome, pex: seq<Addr>)
    | Harvest(w: nat)
    | Settle(w: nat)
    | Deliver(w: nat)
    | MarkPending
    | Requeue
    | DropRequeue
    | WriteOk
    | WriteFail(disk: seq<Bytes>)
    | MarkDone
    | StopReceiving
    | Return

  /** The size worker computes for a piece. */
  function PieceSize(c: Config, i: nat): int {
    var remaining := c.totalSize - i * c.pieceLength;
    if remaining < c.pieceLength then remaining else c.pieceLength
  }

  predicate HasHash(c: Config, i: nat) {
    (i + 1) * 20 <= |c.pieces|
  }

  /** What downloadPiece guarantees of the bytes it returns for piece `i`. */
  predicate GoodPiece(c: Config, i: nat, data: Bytes) {
    && HasHash(c, i)
    && |data| == PieceSize(c, i)
    && c.sha1(data) == c.pieces[i * 20..(i + 1) * 20]
  }

  /** The two checks of the guard in DownloadMVP. */
  predicate GuardPasses(c: Config) {
    c.pieces != [] && |c.pieces| == 20 * c.pieceCount
  }

  /** No piece is without a hash. */
  predicate AllHashed(c: Config) {
    20 * c.pieceCount <= |c.pieces|
  }

  /** A hash for each piece, and the parser's cross-check of the piece count. */
  predicate WellFormed(c: Config) {
    AllHashed(c) && c.pieceLength > 0 && c.pieceCount == CeilDiv(c.totalSize, c.pieceLength)
  }

  /** AddPeers on one address. */
  function AddPeer(s: State, addr: Addr): State {
    if addr in s.known || |s.pool| >= POOL_CAPACITY then s
    else s.(pool := s.pool + [addr], known := s.known + {addr}, queued := s.queued + [addr])
  }

  function AddPeers(s: State, addrs: seq<Addr>): State
    decreases |addrs|
  {
    if addrs == [] then s else AddPeers(AddPeer(s, addrs[0]), addrs[1..])
  }

  /** The state once Start has filled the work queue. */
  function Unseeded(c: Config, disk: seq<Bytes>): State {
    State(seq(c.pieceCount, i => i), seq(c.pieceCount, _ => Pending), [], {}, 0, 0, false, false, false,
          seq(Max(c.maxWorkers, 1), _ => Waiting), Receiving, false, Sleeping, 0, disk, [], [], 0, 0, 0, 0, [])
  }

  /** The state once Start has seeded the pool and spawned its goroutines. */
  function Initial(c: Config, disk: seq<Bytes>, seeds: seq<Addr>): State {
    AddPeers(Unseeded(c, disk), seeds)
  }

  predicate AllExited(s: State) {
    forall w :: 0 <= w < |s.workers| ==> s.workers[w] == Exited
  }

  predicate IsWorkerStep(step: Step) {
    step.Take? || step.QuitWaiting? || step.StartDial? || step.DialOk? || step.DialFail? || step.Pop?
    || step.QuitConnected? || step.Begin? || step.Finish? || step.Harvest? || step.Settle? || step.Deliver?
  }

  predicate IsSupervisorStep(step: Step) {
    step.PollPool? || step.PollInFlight? || step.PollCompleted? || step.Supervise? || step.StopSupervising?
  }

  predicate EnabledWorker(c: Config, s: State, step: Step, me: Worker)
    requires IsWorkerStep(step)
  {
    match step
    case Take(_) => me.Waiting? && s.pool != []
    case QuitWaiting(_) => me.Waiting? && s.cancelled
    case StartDial(_) => me.Taken?
    case DialOk(_) => me.Dialling? && !me.late
    case DialFail(_) => me.Dialling?
    case Pop(_) => me.Connected? && s.work != []
    case QuitConnected(_) => me.Connected? && s.cancelled
    case Begin(_) => me.Popped? && me.index < |s.pieces|
    case Finish(_, outcome, _) =>
      && me.Downloading?
      && (outcome.Fetched? ==> && GoodPiece(c, me.index, outcome.data)
                               && (me.late ==> PieceSize(c, me.index) == 0))
    case Harvest(_) => me.Harvesting? && me.pex != []
    case Settle(_) => me.Harvesting? && me.pex == []
    case Deliver(_) => (me.ReportingNoHash? || me.ReportingLost? || me.ReportingDone?)
                       && (s.collector.Receiving? || s.collector.Draining?)
  }

  predicate EnabledSupervisor(s: State, step: Step)
    requires IsSupervisorStep(step)
  {
    match step
    case PollPool => s.supervisor.Sleeping? && s.tick
    case PollInFlight => s.supervisor.SawEmptyPool?
    case PollCompleted => s.supervisor.SawNoneInFlight?
    case Supervise => s.supervisor.Confirmed?
    case StopSupervising => s.supervisor.Sleeping? && s.cancelled
  }

  ghost predicate Enabled(c: Config, s: State, step: Step) {
    if IsWorkerStep(step) then
      step.w < |s.workers| && EnabledWorker(c, s, step, s.workers[step.w])
    else if IsSupervisorStep(step) then EnabledSupervisor(s, step)
    else
      match step
      case OutsideAdd(_) => true
      case OutsideCancel => !s.cancelled
      case Tick => !s.tick
      case MarkPending => s.collector.GotError? && s.collector.index < |s.pieces|
      case Requeue => s.collector.Requeueing? && |s.work| < c.pieceCount
      case DropRequeue => s.collector.Requeueing? && s.cancelled
      case WriteOk => s.collector.GotData? && InRange(c, s)
      case WriteFail(disk) => s.collector.GotData?
                              && Confined(s.disk, disk, s.collector.index * c.pieceLength, s.collector.data)
      case MarkDone => s.collector.Written? && s.collector.index < |s.pieces|
      case StopReceiving => s.collector.Receiving? && AllExited(s)
      case Return => s.collector.Draining? && AllExited(s) && s.supervisor.Stopped?
  }

  predicate InRange(c: Config, s: State)
    requires s.collector.GotData?
  {
    s.collector.data == [] || s.collector.index * c.pieceLength + |s.collector.data| <= |Flatten(s.disk)|
  }

  ghost function Do(c: Config, s: State, step: Step): State
    requires Enabled(c, s, step)
  {
    if IsWorkerStep(step) then DoWorker(c, s, step, s.workers[step.w])
    else if IsSupervisorStep(step) then DoSupervisor(c, s, step)
    else
      match step
      case OutsideAdd(addr) => AddPeer(s, addr)
      case OutsideCancel => s.(cancelled := true)
      case Tick => s.(tick := true)
      case MarkPending =>
        s.(pieces := s.pieces[s.collector.index := Pending], collector := Requeueing(s.collector.index))
      case Requeue =>
        s.(work := s.work + [s.collector.index], collector := Receiving, requeued := s.requeued + 1)
      case DropRequeue => s.(collector := Receiving)
      case WriteOk =>
        s.(disk := Overlay(s.disk, 0, s.collector.index * c.pieceLength, s.collector.data),
           collector := Written(s.collector.index), writes := s.writes + [s.collector.index])
      case WriteFail(disk) => s.(disk := disk, failed := true, cancelled := true, collector := Draining)
      case MarkDone =>
        var last := s.completed + 1 == c.pieceCount;
        s.(pieces := s.pieces[s.collector.index := Completed], completed := s.completed + 1,
           cancelled := s.cancelled || last, collector := if last then Draining else Receiving)
      case StopReceiving => s.(collector := Draining)
      case Return => s.(collector := Returned)
  }

  /** One load of a poll: go on, or give the poll up and count from zero again. */
  function Polled(s: State, stalled: bool, next: Supervisor): State {
    if stalled then s.(supervisor := next) else s.(supervisor := Sleeping, confirms := 0)
  }

  /** A step of the supervisor touches its own variables, and may cancel. */
  function DoSupervisor(c: Config, s: State, step: Step): (r: State)
    requires IsSupervisorStep(step) && EnabledSupervisor(s, step)
    ensures r == s.(tick := r.tick, supervisor := r.supervisor, confirms := r.confirms,
                    cancelled := r.cancelled, exhausted := r.exhausted)
    ensures s.cancelled ==> r.cancelled
  {
    match step
    case PollPool => Polled(s.(tick := false), s.pool == [], SawEmptyPool)
    case PollInFlight => Polled(s, s.inFlight == 0, SawNoneInFlight)
    case PollCompleted =>
      if s.completed >= c.pieceCount then Polled(s, false, Sleeping)
      else s.(confirms := s.confirms + 1, supervisor := if s.confirms + 1 >= CONFIRMS then Confirmed else Sleeping)
    case Supervise => s.(cancelled := true, exhausted := true, supervisor := Stopped)
    case StopSupervising => s.(supervisor := Stopped)
  }

  function DoWorker(c: Config, s: State, step: Step, me: Worker): State
    requires IsWorkerStep(step) && step.w < |s.workers|
    requires EnabledWorker(c, s, step, me)
  {
    Shared(c, s, step, me).(workers := s.workers[step.w := NextPhase(c, s, step, me)])
  }

  /** The next phase of the worker that takes the step. */
  function NextPhase(c: Config, s: State, step: Step, me: Worker): Worker
    requires IsWorkerStep(step) && EnabledWorker(c, s, step, me)
  {
    match step
    case Take(_) => Taken(s.pool[0])
    case QuitWaiting(_) => Exited
    case StartDial(_) => Dialling(me.addr, s.cancelled)
    case DialOk(_) => Connected
    case DialFail(_) => Waiting
    case Pop(_) => Popped(s.work[0])
    case QuitConnected(_) => Exited
    case Begin(_) =>
      if s.pieces[me.index] != Pending then Connected
      else if HasHash(c, me.index) then Downloading(me.index, s.cancelled)
      else ReportingNoHash(me.index)
    case Finish(_, outcome, pex) => Harvesting(me.index, outcome, pex)
    case Harvest(_) => Harvesting(me.index, me.outcome, me.pex[1..])
    case Settle(_) =>
      if me.outcome.Failed? then ReportingLost(me.index) else ReportingDone(me.index, me.outcome.data)
    case Deliver(_) => if me.ReportingLost? then Waiting else Connected
  }

  /** What the step does to everything but the workers. */
  function Shared(c: Config, s: State, step: Step, me: Worker): State
    requires IsWorkerStep(step) && EnabledWorker(c, s, step, me)
  {
    match step
    case Take(_) => s.(pool := s.pool[1..])
    case StartDial(_) => s.(inFlight := s.inFlight + 1, dials := s.dials + [me.addr])
    case DialFail(_) => s.(inFlight := s.inFlight - 1, closed := s.closed + 1)
    case Pop(_) => s.(work := s.work[1..], pops := s.pops + 1)
    case QuitConnected(_) => s.(inFlight := s.inFlight - 1, closed := s.closed + 1)
    case Begin(_) =>
      if s.pieces[me.index] != Pending then s
      else s.(pieces := s.pieces[me.index := InProgress],
              failures := if HasHash(c, me.index) then s.failures else s.failures + 1)
    case Harvest(_) => AddPeer(s, me.pex[0])
    case Settle(_) =>
      if me.outcome.Failed? then
        s.(inFlight := s.inFlight - 1, closed := s.closed + 1, failures := s.failures + 1)
      else s
    case Deliver(_) =>
      s.(collector := if s.collector.Draining? then Draining
                      else if me.ReportingDone? then GotData(me.index, me.data)
                      else GotError(me.index))
    case _ => s
  }

  ghost predicate Next(c: Config, s: State, s': State) {
    exists step :: Enabled(c, s, step) && s' == Do(c, s, step)
  }

  /** A step of the swarm itself: no address arrives from outside. */
  ghost predicate NextInside(c: Config, s: State, s': State) {
    exists step: Step :: !step.OutsideAdd? && Enabled(c, s, step) && s' == Do(c, s, step)
  }

  /** Neither an address from outside nor the ticker. */
  ghost predicate NextUntimed(c: Config, s: State, s': State) {
    exists step: Step :: !step.OutsideAdd? && !step.Tick? && Enabled(c, s, step) && s' == Do(c, s, step)
  }

  ghost predicate CanStepUntimed(c: Config, s: State) {
    exists step: Step :: !step.OutsideAdd? && !step.Tick? && Enabled(c, s, step)
  }

  ghost predicate IsInitial(c: Config, s: State) {
    exists disk, seeds :: |Flatten(disk)| == c.totalSize && s == Initial(c, disk, seeds)
  }

  ghost predicate IsRun(c: Config, run: seq<State>) {
    && run != []
    && IsInitial(c, run[0])
    && forall k :: 0 < k < |run| ==> StepAt(c, run, k)
  }

  ghost predicate StepAt(c: Config, run: seq<State>, k: nat)
    requires 0 < k < |run|
  {
    Next(c, run[k - 1], run[k])
  }

  ghost predicate InsideStepAt(c: Config, run: seq<State>, k: nat)
    requires 0 < k < |run|
  {
    NextInside(c, run[k - 1], run[k])
  }

  ghost predicate Reachable(c: Config, s: State) {
    exists run :: IsRun(c, run) && run[|run| - 1] == s
  }

  /** What Start returns. */
  datatype Answer = Nil | WriteError | SupplyExhausted | WorkersDied

  function AnswerOf(c: Config, s: State): Answer {
    if s.failed then WriteError
    else if s.completed < c.pieceCount then if s.exhausted then SupplyExhausted else WorkersDied
    else Nil
  }

  /** Start has returned nil. */
  predicate Succeeded(c: Config, s: State) {
    s.collector.Returned? && AnswerOf(c, s) == Nil
  }

  /** A worker's step, in two parts: its own phase, and the rest. */
  lemma WorkerStepIs(c: Config, s: State, step: Step)
    requires IsWorkerStep(step) && Enabled(c, s, step)
    ensures var me := s.workers[step.w];
            Do(c, s, step) == Shared(c, s, step, me).(workers := s.workers[step.w := NextPhase(c, s, step, me)])
  {
  }
}
