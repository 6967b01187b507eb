/** What the guard of DownloadMVP is for: bounds that hold if and only if every piece has a hash. */
module SwarmGuard {
  import opened Common
  import opened SwarmProtocol
  import opened SwarmTokens
  import opened SwarmContent
  import opened SwarmTheorems
  import opened SwarmShutdown
  import opened SwarmDriver
  import opened SwarmHope
  import opened Storage

  // ---- Failures without end ----

  /** Worker 0 waits or is connected, the pool is empty, and all addresses so far are shorter than their number. */
  ghost predicate Ready(c: Config, s: State) {
    && s.workers != [] && (At(c, s, Waiting) || At(c, s, Connected))
    && s.pool == [] && forall a :: a in s.known ==> |a| < |s.queued|
  }

  /** Failures beyond the addresses ever queued, and a connection in hand. */
  function Surplus(s: State): int
    requires s.workers != []
  {
    s.failures - |s.queued| + if s.workers[0].Connected? then 1 else 0
  }

  lemma GetsReady(c: Config, s: State) returns (s': State)
    requires Ready(c, s)
    ensures Ready(c, s') && s'.workers[0].Connected? && Surplus(s') == Surplus(s) && s'.work == s.work
  {
    if s.workers[0].Connected? {
      return s;
    }
    var addr := seq(|s.queued|, _ => 'a');
    Takes(c, s, addr);
    Dials(c, AfterTake(s, addr), addr);
    s' := AfterDial(AfterTake(s, addr), addr);
  }

  /** A hashed piece fails and the connection with it; a piece without a hash fails and the connection stays. */
  lemma HeadFails(c: Config, s: State) returns (s': State)
    requires Ready(c, s) && s.workers[0].Connected? && s.work != []
    ensures Ready(c, s') && s'.work == s.work[1..] + [s.work[0]]
    ensures Surplus(s') == Surplus(s) + if HasHash(c, s.work[0]) then 0 else 1
  {
    var i := s.work[0];
    Pops(c, s);
    var claimed := AfterBegin(c, AfterPop(s), i);
    Begins(c, AfterPop(s), i);
    if HasHash(c, i) {
      Fails(c, claimed, i);
      Returns(c, AfterFail(claimed, i), i, ReportingLost(i));
      s' := AfterReturn(AfterFail(claimed, i), i, Waiting);
    } else {
      Returns(c, claimed, i, ReportingNoHash(i));
      s' := AfterReturn(claimed, i, Connected);
    }
  }

  function Unhashed(c: Config, work: seq<nat>): nat {
    if work == [] then 0 else (if HasHash(c, work[0]) then 0 else 1) + Unhashed(c, work[1..])
  }

  /** The first pieces of the queue, one after another, go to its end. */
  lemma {:induction false} Rotates(c: Config, s: State, a: seq<nat>, b: seq<nat>) returns (s': State)
    requires Ready(c, s) && s.work == a + b
    ensures Ready(c, s') && s'.work == b + a && Surplus(s') == Surplus(s) + Unhashed(c, a)
    decreases |a|
  {
    if a == [] {
      assert a + b == b && b + a == b;
      return s;
    }
    var s1 := GetsReady(c, s);
    var s2 := HeadFails(c, s1);
    HeadToEnd(a, b);
    s' := Rotates(c, s2, a[1..], b + [a[0]]);
  }

  lemma HeadToEnd<T>(a: seq<T>, b: seq<T>)
    requires a != []
    ensures (a + b)[0] == a[0] && (a + b)[1..] + [(a + b)[0]] == a[1..] + (b + [a[0]])
    ensures (b + [a[0]]) + a[1..] == b + a
  {
  }

  lemma {:induction false} RotatesOften(c: Config, s: State, n: nat) returns (s': State)
    requires Ready(c, s) && Unhashed(c, s.work) > 0
    ensures Ready(c, s') && s'.work == s.work && Surplus(s') >= Surplus(s) + n
    decreases n
  {
    if n == 0 {
      return s;
    }
    assert s.work + [] == s.work && [] + s.work == s.work;
    var s1 := Rotates(c, s, s.work, []);
    s' := RotatesOften(c, s1, n - 1);
  }

  lemma {:induction false} SomeUnhashed(c: Config, work: seq<nat>, i: nat)
    requires i in work && !HasHash(c, i)
    ensures Unhashed(c, work) > 0
    decreases |work|
  {
    if work[0] != i {
      SomeUnhashed(c, work[1..], i);
    }
  }

  lemma ZeroDisk(c: Config) returns (disk: seq<Bytes>)
    ensures |Flatten(disk)| == c.totalSize
  {
    var file: Bytes := seq(c.totalSize, _ => 0);
    disk := [file];
    assert Flatten(disk) == file + Flatten([]);
  }

  /** With a hash missing, failures outnumber the addresses ever queued by as much as one likes. */
  lemma UnguardedRetriesForever(c: Config, n: nat) returns (s: State)
    requires !AllHashed(c)
    ensures Reachable(c, s) && s.failures >= |s.queued| + n
  {
    var disk := ZeroDisk(c);
    s := Unseeded(c, disk);
    StartReachable(c, disk);
    var last: nat := c.pieceCount - 1;
    assert s.work[last] == last;
    SomeUnhashed(c, s.work, last);
    s := RotatesOften(c, s, n + 1);
  }

  ghost predicate FailuresBounded(c: Config) {
    forall s :: Reachable(c, s) ==> s.failures <= |s.queued|
  }

  /** Failures never exceed the addresses ever queued if and only if every piece has a hash. */
  lemma FailuresBoundedIff(c: Config)
    ensures FailuresBounded(c) <==> AllHashed(c)
  {
    if AllHashed(c) {
      forall s | Reachable(c, s)
        ensures s.failures <= |s.queued|
      {
        RetriesBounded(c, s);
      }
    } else {
      var s := UnguardedRetriesForever(c, 1);
    }
  }

  // ---- A shutdown without end ----

  /** Every hash that is there is the hash of something of the piece's size. */
  ghost predicate HashesObtainable(c: Config) {
    forall i: nat :: i < c.pieceCount && HasHash(c, i) ==> HasData(c, i)
  }

  /** Pieces 0 to k-1 are completed, the others queue in order. */
  ghost predicate CompletedUpTo(c: Config, s: State, k: nat) {
    && At(c, s, Connected) && |Flatten(s.disk)| == c.totalSize
    && s.completed == k && |s.work| == c.pieceCount - k
    && forall j :: 0 <= j < |s.work| ==> s.work[j] == k + j
  }

  lemma PieceFits(c: Config, i: nat, data: Bytes)
    requires GoodPiece(c, i, data)
    ensures i * c.pieceLength + |data| <= c.totalSize
  {
  }

  lemma HeadFetched(c: Config, s: State, k: nat, data: Bytes) returns (s': State)
    requires At(c, s, Connected) && s.work != [] && s.work[0] == k && HasHash(c, k) && GoodPiece(c, k, data)
    ensures At(c, s', ReportingDone(k, data))
    ensures s'.work == s.work[1..] && s'.disk == s.disk && s'.completed == s.completed
  {
    Pops(c, s);
    Begins(c, AfterPop(s), k);
    var claimed := AfterBegin(c, AfterPop(s), k);
    Fetches(c, claimed, k, data);
    s' := With(claimed, ReportingDone(k, data));
  }

  lemma HeadStored(c: Config, s: State, k: nat, data: Bytes) returns (s': State)
    requires At(c, s, ReportingDone(k, data)) && GoodPiece(c, k, data) && |Flatten(s.disk)| == c.totalSize
    requires s.completed + 1 < c.pieceCount
    ensures At(c, s', Connected) && |Flatten(s'.disk)| == c.totalSize
    ensures s'.work == s.work && s'.completed == s.completed + 1
  {
    PieceFits(c, k, data);
    Stores(c, s, k, data);
    s' := AfterStore(c, s, k, data);
    MulNotNegative(k, c.pieceLength);
    OverlayIsSplice(s.disk, k * c.pieceLength, data);
  }

  lemma HeadCompletes(c: Config, s: State, k: nat) returns (s': State)
    requires CompletedUpTo(c, s, k) && k + 1 < c.pieceCount && HasHash(c, k) && HasData(c, k)
    ensures CompletedUpTo(c, s', k + 1)
  {
    var data: Bytes :| GoodPiece(c, k, data);
    var done := HeadFetched(c, s, k, data);
    s' := HeadStored(c, done, k, data);
  }

  /** All hashed pieces completed, only pieces without a hash left. */
  lemma {:induction false} HashedComplete(c: Config, s: State, k: nat) returns (s': State, h: nat)
    requires HashesObtainable(c) && CompletedUpTo(c, s, k) && k < c.pieceCount && !HasHash(c, c.pieceCount - 1)
    ensures CompletedUpTo(c, s', h) && h < c.pieceCount && !HasHash(c, h)
    decreases c.pieceCount - k
  {
    if HasHash(c, k) {
      var s1 := HeadCompletes(c, s, k);
      s', h := HashedComplete(c, s1, k + 1);
    } else {
      return s, k;
    }
  }

  /** Cancelled, with a connected worker and nothing but pieces without a hash. */
  ghost predicate Spinning(c: Config, s: State) {
    && Reachable(c, s) && s.cancelled && s.workers != []
    && (forall i :: i in s.work ==> !HasHash(c, i))
    && match s.collector
       case Receiving => SpinningWorker(c, s.workers[0], s.work)
       case GotError(i) => s.workers[0].Connected? && !HasHash(c, i)
       case Requeueing(i) => s.workers[0].Connected? && !HasHash(c, i)
       case _ => false
  }

  predicate SpinningWorker(c: Config, me: Worker, work: seq<nat>) {
    match me
    case Connected => work != []
    case Popped(i) => !HasHash(c, i)
    case ReportingNoHash(i) => !HasHash(c, i)
    case _ => false
  }

  function SpinStep(s: State): Step
    requires s.workers != []
  {
    if s.collector.GotError? then MarkPending
    else if s.collector.Requeueing? then Requeue
    else
      match s.workers[0]
      case Connected => Pop(0)
      case Popped(_) => Begin(0)
      case _ => Deliver(0)
  }

  lemma SpinEnabled(c: Config, s: State)
    requires Spinning(c, s)
    ensures Enabled(c, s, SpinStep(s))
    ensures SpinStep(s).Begin? ==> s.pieces[s.workers[0].index] == Pending
  {
    StatusAgreesWithPlace(c, s);
    assert Held(s.workers[0]).Some? ==> Held(s.workers[0]).value < |s.pieces|;
  }

  lemma SpinKeeps(c: Config, s: State)
    requires Spinning(c, s)
    ensures Enabled(c, s, SpinStep(s)) && Spinning(c, Do(c, s, SpinStep(s)))
  {
    var step := SpinStep(s);
    SpinEnabled(c, s);
    var s' := Do(c, s, step);
    Reaches(c, s, step, s');
    SpinMoves(c, s, step);
  }

  lemma SpinMoves(c: Config, s: State, step: Step)
    requires Spinning(c, s) && step == SpinStep(s) && Enabled(c, s, step)
    requires step.Begin? ==> s.pieces[s.workers[0].index] == Pending
    ensures Reachable(c, Do(c, s, step)) ==> Spinning(c, Do(c, s, step))
  {
    assert forall i :: i in Do(c, s, step).work ==> i in s.work || !HasHash(c, i);
  }

  ghost function Spun(c: Config, s: State, k: nat): (r: State)
    requires Spinning(c, s)
    ensures Spinning(c, r)
  {
    if k == 0 then s
    else
      var before := Spun(c, s, k - 1);
      SpinKeeps(c, before);
      Do(c, before, SpinStep(before))
  }

  lemma SpunContinues(c: Config, s: State, k: nat)
    requires Spinning(c, s)
    ensures Continues(c, Spun(c, s, k), Spun(c, s, k + 1))
  {
    SpinKeeps(c, Spun(c, s, k));
  }

  lemma SpunNotDown(c: Config, s: State)
    requires Spinning(c, s)
    ensures !WoundDown(s)
  {
  }

  lemma SpinsForever(c: Config, s: State) returns (run: nat -> State)
    requires Spinning(c, s)
    ensures run(0) == s && Maximal(c, run) && !Finishes(run)
  {
    run := (k: nat) => Spun(c, s, k);
    assert run(0) == s;
    forall k: nat
      ensures Continues(c, run(k), run(k + 1))
    {
      SpunContinues(c, s, k);
      assert run(k) == Spun(c, s, k) && run(k + 1) == Spun(c, s, k + 1);
    }
    forall m: nat
      ensures !WoundDown(run(m))
    {
      SpunNotDown(c, Spun(c, s, m));
      assert run(m) == Spun(c, s, m);
    }
  }

  lemma SpinStarts(c: Config) returns (s: State)
    requires !AllHashed(c) && HashesObtainable(c)
    ensures Spinning(c, s)
  {
    var disk := ZeroDisk(c);
    s := Unseeded(c, disk);
    StartReachable(c, disk);
    Takes(c, s, "a");
    Dials(c, AfterTake(s, "a"), "a");
    s := AfterDial(AfterTake(s, "a"), "a");
    var h;
    s, h := HashedComplete(c, s, 0);
    var s' := s.(cancelled := true);
    Reaches(c, s, OutsideCancel, s');
    assert s.work[0] == h;
    return s';
  }

  /** After cancellation the swarm winds down, whatever happens. */
  ghost predicate ShutdownsFinish(c: Config) {
    forall run: nat -> State :: Reachable(c, run(0)) && run(0).cancelled && Maximal(c, run) ==> Finishes(run)
  }

  /** Every shutdown finishes if and only if every piece has a hash. */
  lemma ShutdownsFinishIff(c: Config)
    requires HashesObtainable(c)
    ensures ShutdownsFinish(c) <==> AllHashed(c)
  {
    if AllHashed(c) {
      forall run: nat -> State | Reachable(c, run(0)) && run(0).cancelled && Maximal(c, run)
        ensures Finishes(run)
      {
        ShutdownFinishes(c, run);
      }
    } else {
      var s := SpinStarts(c);
      var run := SpinsForever(c, s);
    }
  }
}
