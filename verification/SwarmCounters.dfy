/** What the counters of the swarm count, and that no address is used twice. */
module SwarmCounters {
  import opened Common
  import opened SwarmProtocol
  import opened SwarmTokens

  /** The workers between `inFlight.Add(1)` and the matching `inFlight.Add(-1)`. */
  predicate Counted(me: Worker) {
    me.Dialling? || me.Connected? || me.Popped? || me.Downloading? || me.Harvesting?
    || me.ReportingNoHash? || me.ReportingDone?
  }

  function CountedOne(me: Worker): nat {
    if Counted(me) then 1 else 0
  }

  function TakenOne(me: Worker): nat {
    if me.Taken? then 1 else 0
  }

  /** A failed result not yet handed over. */
  function FailingOne(me: Worker): nat {
    if me.ReportingNoHash? || me.ReportingLost? then 1 else 0
  }

  function FailingCollector(collector: Collector): nat {
    if collector.GotError? || collector.Requeueing? then 1 else 0
  }

  ghost predicate Connections(s: State) {
    && s.inFlight == Sum(s.workers, CountedOne)
    && |s.queued| == |s.pool| + Sum(s.workers, TakenOne) + s.inFlight + s.closed
  }

  ghost predicate Results(c: Config, s: State) {
    && s.pops + |s.work| == c.pieceCount + s.requeued
    && s.requeued + Sum(s.workers, FailingOne) + FailingCollector(s.collector) <= s.failures
    && (AllHashed(c) ==> s.failures <= s.closed)
  }

  /** What one worker step does to the counters, in terms of that worker's phase alone. */
  lemma ConnectionEffect(c: Config, s: State, step: Step, me: Worker)
    requires IsWorkerStep(step) && EnabledWorker(c, s, step, me)
    ensures var s', me' := Shared(c, s, step, me), NextPhase(c, s, step, me);
            && s'.inFlight - s.inFlight == CountedOne(me') - CountedOne(me)
            && (|s'.queued| - |s'.pool|) - (|s.queued| - |s.pool|)
               == TakenOne(me') - TakenOne(me) + (s'.inFlight - s.inFlight) + (s'.closed - s.closed)
  {
    CountEffect(c, s, step, me);
    AddressEffect(c, s, step, me);
  }

  lemma CountEffect(c: Config, s: State, step: Step, me: Worker)
    requires IsWorkerStep(step) && EnabledWorker(c, s, step, me)
    ensures Shared(c, s, step, me).inFlight - s.inFlight == CountedOne(NextPhase(c, s, step, me)) - CountedOne(me)
  {
  }

  lemma AddressEffect(c: Config, s: State, step: Step, me: Worker)
    requires IsWorkerStep(step) && EnabledWorker(c, s, step, me)
    ensures var s', me' := Shared(c, s, step, me), NextPhase(c, s, step, me);
            (|s'.queued| - |s'.pool|) - (|s.queued| - |s.pool|)
            == TakenOne(me') - TakenOne(me) + (s'.inFlight - s.inFlight) + (s'.closed - s.closed)
  {
    match step
    case Take(_) =>
    case Harvest(_) =>
    case Begin(_) =>
    case Settle(_) =>
    case _ =>
  }

  lemma ResultEffect(c: Config, s: State, step: Step, me: Worker)
    requires IsWorkerStep(step) && EnabledWorker(c, s, step, me)
    ensures var s', me' := Shared(c, s, step, me), NextPhase(c, s, step, me);
            && s'.requeued == s.requeued && s'.pops + |s'.work| == s.pops + |s.work|
            && FailingOne(me') - FailingOne(me)
               + FailingCollector(s'.collector) - FailingCollector(s.collector) <= s'.failures - s.failures
            && (s'.failures - s.failures <= s'.closed - s.closed
                || (me.Popped? && !HasHash(c, me.index) && s'.closed == s.closed))
  {
    FailureEffect(c, s, step, me);
  }

  lemma FailureEffect(c: Config, s: State, step: Step, me: Worker)
    requires IsWorkerStep(step) && EnabledWorker(c, s, step, me)
    ensures var s', me' := Shared(c, s, step, me), NextPhase(c, s, step, me);
            FailingOne(me') - FailingOne(me)
            + FailingCollector(s'.collector) - FailingCollector(s.collector) <= s'.failures - s.failures
  {
  }

  lemma ConnectionsStep(c: Config, s: State, step: Step)
    requires Enabled(c, s, step) && Connections(s)
    ensures Connections(Do(c, s, step))
  {
    if IsWorkerStep(step) {
      var w, me := step.w, s.workers[step.w];
      ConnectionEffect(c, s, step, me);
      SumUpdate(s.workers, w, NextPhase(c, s, step, me), CountedOne);
      SumUpdate(s.workers, w, NextPhase(c, s, step, me), TakenOne);
    }
  }

  lemma ResultsStep(c: Config, s: State, step: Step, place: seq<Place>)
    requires Enabled(c, s, step) && Tokens(c, s, place) && Results(c, s)
    ensures Results(c, Do(c, s, step))
  {
    if IsWorkerStep(step) {
      var me := s.workers[step.w];
      WorkerStepIs(c, s, step);
      ResultEffect(c, s, step, me);
      SumUpdate(s.workers, step.w, NextPhase(c, s, step, me), FailingOne);
      assert me.Popped? ==> Held(s.workers[step.w]).Some?;
    }
  }

  /** The addresses already received from the pool, in order. */
  function Received(s: State): seq<Addr>
    requires |s.pool| <= |s.queued|
  {
    s.queued[..|s.queued| - |s.pool|]
  }

  ghost predicate Addresses(s: State) {
    && NoDup(s.queued)
    && (forall a :: a in s.known <==> a in s.queued)
    && |s.pool| <= |s.queued|
    && s.queued == Received(s) + s.pool
    && |s.pool| <= POOL_CAPACITY
  }

  ghost predicate Dials(s: State)
    requires |s.pool| <= |s.queued|
  {
    && NoDup(s.dials)
    && (forall a :: a in s.dials ==> a in Received(s))
    && (forall w :: 0 <= w < |s.workers| && s.workers[w].Taken? ==>
                      s.workers[w].addr in Received(s) && s.workers[w].addr !in s.dials)
    && (forall v, w :: 0 <= v < w < |s.workers| && s.workers[v].Taken? && s.workers[w].Taken? ==>
                         s.workers[v].addr != s.workers[w].addr)
  }

  lemma AddPeerAddresses(s: State, addr: Addr)
    requires Addresses(s) && Dials(s)
    ensures Addresses(AddPeer(s, addr)) && Dials(AddPeer(s, addr))
  {
    var s' := AddPeer(s, addr);
    if s' != s {
      NoDupAppend(s.queued, addr);
      assert Received(s') == Received(s);
      assert s'.queued == Received(s) + (s.pool + [addr]);
    }
  }

  lemma TakeAddresses(c: Config, s: State, w: nat)
    requires Enabled(c, s, Take(w)) && Addresses(s) && Dials(s)
    ensures Addresses(Do(c, s, Take(w))) && Dials(Do(c, s, Take(w)))
  {
    var s', a := Do(c, s, Take(w)), s.pool[0];
    assert s.queued[|s.queued| - |s.pool|] == a;
    assert Received(s') == Received(s) + [a];
    assert a !in Received(s);
  }

  lemma DialAddresses(c: Config, s: State, w: nat)
    requires Enabled(c, s, StartDial(w)) && Addresses(s) && Dials(s)
    ensures Addresses(Do(c, s, StartDial(w))) && Dials(Do(c, s, StartDial(w)))
  {
    var s' := Do(c, s, StartDial(w));
    NoDupAppend(s.dials, s.workers[w].addr);
    assert Received(s') == Received(s);
  }

  lemma AddressesKept(s: State, s': State)
    requires Addresses(s) && Dials(s)
    requires s'.pool == s.pool && s'.queued == s.queued && s'.known == s.known && s'.dials == s.dials
    requires |s'.workers| == |s.workers|
    requires forall w :: 0 <= w < |s.workers| && s'.workers[w].Taken? ==> s'.workers[w] == s.workers[w]
    ensures Addresses(s') && Dials(s')
  {
    assert Received(s') == Received(s);
  }

  lemma HarvestAddresses(c: Config, s: State, w: nat)
    requires Enabled(c, s, Harvest(w)) && Addresses(s) && Dials(s)
    ensures Addresses(Do(c, s, Harvest(w))) && Dials(Do(c, s, Harvest(w)))
  {
    var addr := s.workers[w].pex[0];
    AddPeerAddresses(s, addr);
    AddressesKept(AddPeer(s, addr), Do(c, s, Harvest(w)));
  }

  lemma AddressesStep(c: Config, s: State, step: Step)
    requires Enabled(c, s, step) && Addresses(s) && Dials(s)
    ensures Addresses(Do(c, s, step)) && Dials(Do(c, s, step))
  {
    if step.OutsideAdd? {
      AddPeerAddresses(s, step.addr);
    } else if step.Harvest? {
      HarvestAddresses(c, s, step.w);
    } else if step.Take? {
      TakeAddresses(c, s, step.w);
    } else if step.StartDial? {
      DialAddresses(c, s, step.w);
    } else {
      OthersKeepAddresses(c, s, step);
      AddressesKept(s, Do(c, s, step));
    }
  }

  lemma WorkerKeepsAddresses(c: Config, s: State, step: Step, me: Worker)
    requires IsWorkerStep(step) && EnabledWorker(c, s, step, me)
    requires !step.Harvest? && !step.Take? && !step.StartDial?
    ensures var s' := Shared(c, s, step, me);
            s'.pool == s.pool && s'.queued == s.queued && s'.known == s.known && s'.dials == s.dials
            && s'.workers == s.workers
    ensures !NextPhase(c, s, step, me).Taken?
  {
  }

  lemma OthersKeepAddresses(c: Config, s: State, step: Step)
    requires Enabled(c, s, step)
    requires !step.OutsideAdd? && !step.Harvest? && !step.Take? && !step.StartDial?
    ensures Do(c, s, step).pool == s.pool && Do(c, s, step).queued == s.queued
    ensures Do(c, s, step).known == s.known && Do(c, s, step).dials == s.dials
    ensures |Do(c, s, step).workers| == |s.workers|
    ensures forall w :: 0 <= w < |s.workers| && Do(c, s, step).workers[w].Taken? ==>
                          Do(c, s, step).workers[w] == s.workers[w]
  {
    if IsWorkerStep(step) {
      WorkerKeepsAddresses(c, s, step, s.workers[step.w]);
    }
  }
}
