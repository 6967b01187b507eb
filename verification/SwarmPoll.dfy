/** Two ways in which the supervisor's poll is wrong: inputs for which a swarm with hope is called exhausted. */
module SwarmPoll {
  import opened Common
  import opened SwarmProtocol
  import opened SwarmTokens
  import opened SwarmTheorems
  import opened SwarmHope
  import opened SwarmDriver
  import opened SwarmGuard

  /** The first way: an address is in a worker's hand, not yet counted. One seed and one worker are enough. */
  lemma GapBeforeCounting(c: Config, disk: seq<Bytes>, addr: Addr) returns (s: State)
    requires c.pieceCount > 0 && |Flatten(disk)| == c.totalSize
    ensures Reachable(c, s) && !s.cancelled && s.pool == [] && s.inFlight == 0 && s.completed < c.pieceCount
    ensures SomeTaken(s) && Hopeful(s)
  {
    s := Unseeded(c, disk);
    StartReachable(c, disk);
    Takes(c, s, addr);
    s := AfterTake(s, addr);
    assert s.workers[0].Taken? && HopefulWorker(s.known, s.workers[0]);
  }

  // ---- The second way: the poll is torn ----

  /** One address in the pool, worker 0 about to take it, the others idle, a hashed piece at the head of the queue. */
  ghost predicate Idling(c: Config, s: State) {
    && At(c, s, Waiting) && |s.pool| == 1 && s.inFlight == 0 && s.completed < c.pieceCount
    && s.work != [] && s.supervisor.Sleeping? && !s.tick
    && (forall w :: 0 < w < |s.workers| ==> s.workers[w].Waiting?)
    && forall a :: a in s.known ==> |a| < |s.queued|
  }

  /** All that matters of worker 0's surroundings stays the same. */
  ghost predicate SameElse(s: State, s': State) {
    && s'.known == s.known && s'.queued == s.queued && s'.completed == s.completed
    && s'.supervisor == s.supervisor && s'.tick == s.tick && s'.confirms == s.confirms
    && |s'.workers| == |s.workers| && forall w :: 0 < w < |s.workers| ==> s'.workers[w] == s.workers[w]
  }

  lemma TakesConnects(c: Config, s: State) returns (s': State)
    requires Idling(c, s)
    ensures At(c, s', Connected) && s'.pool == [] && s'.inFlight == 1 && s'.work == s.work && SameElse(s, s')
  {
    var addr := s.pool[0];
    var s1 := With(s, Taken(addr)).(pool := []);
    Reaches(c, s, Take(0), s1);
    Dials(c, s1, addr);
    s' := AfterDial(s1, addr);
  }

  lemma Claims(c: Config, s: State) returns (s': State)
    requires At(c, s, Connected) && s.work != [] && AllHashed(c)
    ensures At(c, s', Downloading(s.work[0], false)) && s'.work == s.work[1..]
    ensures s'.pool == s.pool && s'.inFlight == s.inFlight && SameElse(s, s')
  {
    Pops(c, s);
    Begins(c, AfterPop(s), s.work[0]);
    s' := AfterBegin(c, AfterPop(s), s.work[0]);
  }

  lemma PollsPool(c: Config, s: State)
    requires Reachable(c, s) && s.pool == [] && s.supervisor.Sleeping? && !s.tick
    ensures Reachable(c, s.(supervisor := SawEmptyPool))
  {
    Reaches(c, s, Tick, s.(tick := true));
    Reaches(c, s.(tick := true), PollPool, s.(supervisor := SawEmptyPool));
  }

  /** The download has failed and the peer has named an address; the pool is loaded before it gets there. */
  lemma LoadsPoolEarly(c: Config, s: State, i: nat, heard: Addr)
    requires At(c, s, Downloading(i, false)) && s.pool == [] && s.supervisor.Sleeping? && !s.tick
    ensures Reachable(c, With(s, Harvesting(i, Failed, [heard])).(supervisor := SawEmptyPool))
  {
    var s1 := With(s, Harvesting(i, Failed, [heard]));
    Reaches(c, s, Finish(0, Failed, [heard]), s1);
    PollsPool(c, s1);
  }

  function AfterHearing(s: State, i: nat, heard: Addr): State
    requires s.workers != []
  {
    With(s, Harvesting(i, Failed, [])).(pool := [heard], known := s.known + {heard}, queued := s.queued + [heard])
  }

  lemma HearsAddress(c: Config, s: State, i: nat, heard: Addr)
    requires Reachable(c, s) && s.workers != [] && s.workers[0] == Harvesting(i, Failed, [heard])
    requires s.pool == [] && heard !in s.known
    ensures Reachable(c, AfterHearing(s, i, heard))
  {
    assert [heard][1..] == [] && s.pool + [heard] == [heard];
    Reaches(c, s, Harvest(0), AfterHearing(s, i, heard));
  }

  function AfterSettling(s: State, i: nat): State
    requires s.workers != []
  {
    With(s, ReportingLost(i)).(inFlight := s.inFlight - 1, closed := s.closed + 1, failures := s.failures + 1)
  }

  lemma LosesConnection(c: Config, s: State, i: nat)
    requires Reachable(c, s) && s.workers != [] && s.workers[0] == Harvesting(i, Failed, [])
    ensures Reachable(c, AfterSettling(s, i))
  {
    Reaches(c, s, Settle(0), AfterSettling(s, i));
  }

  /** One more confirmation. */
  function Verdict(s: State): State {
    s.(confirms := s.confirms + 1, supervisor := if s.confirms + 1 >= CONFIRMS then Confirmed else Sleeping)
  }

  lemma LoadsInFlightLate(c: Config, s: State)
    requires Reachable(c, s) && s.supervisor.SawEmptyPool? && s.inFlight == 0 && s.completed < c.pieceCount
    ensures Reachable(c, Verdict(s))
  {
    var s1 := s.(supervisor := SawNoneInFlight);
    Reaches(c, s, PollInFlight, s1);
    Reaches(c, s1, PollCompleted, Verdict(s));
  }

  /** The pool is loaded while the new address is not yet in it, `inFlight` when the connection is no longer counted. */
  lemma TearsPoll(c: Config, s: State, i: nat, heard: Addr) returns (s': State)
    requires At(c, s, Downloading(i, false)) && s.pool == [] && s.inFlight == 1 && heard !in s.known
    requires s.supervisor.Sleeping? && !s.tick && s.completed < c.pieceCount
    ensures At(c, s', ReportingLost(i)) && s'.pool == [heard] && s'.inFlight == 0
    ensures SameElse(Verdict(s).(known := s.known + {heard}, queued := s.queued + [heard]), s')
  {
    LoadsPoolEarly(c, s, i, heard);
    var s1 := With(s, Harvesting(i, Failed, [heard])).(supervisor := SawEmptyPool);
    HearsAddress(c, s1, i, heard);
    var s2 := AfterHearing(s1, i, heard);
    LosesConnection(c, s2, i);
    LoadsInFlightLate(c, AfterSettling(s2, i));
    s' := Verdict(AfterSettling(s2, i));
  }

  /** Take the address, connect, claim a piece, lose the connection during the poll, return the piece. */
  lemma Torn(c: Config, s: State, heard: Addr) returns (s': State)
    requires Idling(c, s) && AllHashed(c) && heard !in s.known
    ensures At(c, s', Waiting) && s'.pool == [heard] && s'.inFlight == 0 && s'.work != []
    ensures SameElse(Verdict(s).(known := s.known + {heard}, queued := s.queued + [heard]), s')
  {
    var i := s.work[0];
    var s1 := TakesConnects(c, s);
    var s2 := Claims(c, s1);
    var s3 := TearsPoll(c, s2, i, heard);
    Returns(c, s3, i, ReportingLost(i));
    s' := AfterReturn(s3, i, Waiting);
  }

  /** One more wrong confirmation, and the swarm stands as before, with the next address. */
  lemma TornRound(c: Config, s: State) returns (s': State)
    requires Idling(c, s) && AllHashed(c)
    ensures At(c, s', Waiting) && s'.pool != [] && s'.confirms == s.confirms + 1 && s'.inFlight == 0 && !SomeTaken(s')
    ensures s'.confirms < CONFIRMS ==> Idling(c, s')
    ensures s'.confirms >= CONFIRMS ==> s'.supervisor.Confirmed? && s'.completed < c.pieceCount
  {
    s' := Torn(c, s, seq(|s.queued|, _ => 'a'));
  }

  lemma IdleStart(c: Config, disk: seq<Bytes>) returns (s: State)
    requires c.pieceCount > 0 && |Flatten(disk)| == c.totalSize
    ensures Idling(c, s) && s.confirms == 0
  {
    var first := Unseeded(c, disk);
    StartReachable(c, disk);
    s := AddPeer(first, "");
    Reaches(c, first, OutsideAdd(""), s);
  }

  /**
   * Two torn polls, with as much going on in between as one likes, make the supervisor give up a swarm
   * in which no load ever saw a worker with an uncounted address, and which an address in the pool keeps alive.
   */
  lemma FalseExhaustion(c: Config, disk: seq<Bytes>) returns (s: State)
    requires AllHashed(c) && c.pieceCount > 0 && |Flatten(disk)| == c.totalSize
    ensures Reachable(c, s) && !s.cancelled && Enabled(c, s, Supervise) && s.completed < c.pieceCount
    ensures s.pool != [] && s.inFlight == 0 && !SomeTaken(s)
    ensures WellFormed(c) && Obtainable(c) ==> CanComplete(c, s)
  {
    s := IdleStart(c, disk);
    s := TornRound(c, s);
    s := TornRound(c, s);
    if WellFormed(c) && Obtainable(c) {
      HopeIsExact(c, s);
    }
  }
}
