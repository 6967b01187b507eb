/** How Start ends, and what it then returns. */
module SwarmEnding {
  import opened Common
  import opened SwarmProtocol
  import opened SwarmTokens
  import opened SwarmCounters
  import opened SwarmContent
  import opened SwarmTheorems
  import opened SwarmShutdown

  // ---- All pieces done ----

  /** With every piece completed each of them has a hash, so nothing is left that could go round for ever. */
  lemma DoneIsHashed(c: Config, s: State, place: seq<Place>)
    requires Inv(c, s, place) && s.completed == c.pieceCount
    ensures AllHashed(c)
  {
    if c.pieceCount > 0 {
      var last: nat := c.pieceCount - 1;
      CompletedMeansAll(c, s, place);
      assert s.pieces[last] == Completed;
      assert last in s.writes;
      assert HasHash(c, last);
    }
  }

  /** In every reachable state: once all pieces are completed, the swarm is cancelled, has not failed and is about to return. */
  lemma DoneIsStopping(c: Config, s: State)
    requires Reachable(c, s) && c.pieceCount > 0 && s.completed == c.pieceCount
    ensures s.cancelled && !s.failed && (s.collector.Draining? || s.collector.Returned?)
    ensures AllHashed(c) && AnswerOf(c, s) == Nil
  {
    var place := ReachableInv(c, s);
    DoneIsHashed(c, s, place);
  }

  lemma DoneStep(c: Config, s: State, s': State)
    requires Reachable(c, s) && Next(c, s, s') && c.pieceCount > 0 && s.completed == c.pieceCount
    ensures s'.completed == c.pieceCount
  {
    DoneIsStopping(c, s);
    var step: Step :| Enabled(c, s, step) && s' == Do(c, s, step);
    if IsWorkerStep(step) {
      WorkerStepIs(c, s, step);
      WorkerKeepsEnd(c, s, step, s.workers[step.w]);
    }
  }

  lemma UntimedIsNext(c: Config, s: State, s': State)
    requires NextUntimed(c, s, s')
    ensures Next(c, s, s') && NextInside(c, s, s')
  {
  }

  lemma {:induction false} DoneForever(c: Config, run: nat -> State, m: nat)
    requires Maximal(c, run) && Reachable(c, run(0)) && c.pieceCount > 0 && run(0).completed == c.pieceCount
    ensures Reachable(c, run(m)) && run(m).completed == c.pieceCount
  {
    if m > 0 {
      DoneForever(c, run, m - 1);
      assert Continues(c, run(m - 1), run(m - 1 + 1));
      if run(m) != run(m - 1) {
        UntimedIsNext(c, run(m - 1), run(m));
        DoneStep(c, run(m - 1), run(m));
        ReachesNext(c, run(m - 1), run(m));
      }
    }
  }

  /** Every maximal run from a state with all pieces completed comes to Start returning nil. */
  lemma DoneReturnsNil(c: Config, run: nat -> State)
    requires Maximal(c, run) && Reachable(c, run(0)) && c.pieceCount > 0 && run(0).completed == c.pieceCount
    ensures exists m: nat :: Succeeded(c, run(m))
  {
    DoneIsStopping(c, run(0));
    ShutdownFinishes(c, run);
    var m: nat :| WoundDown(run(m));
    DoneForever(c, run, m);
    DoneIsStopping(c, run(m));
    assert Succeeded(c, run(m));
  }

  // ---- The end as a path ----

  lemma PathPrepend(c: Config, s: State, path: seq<State>)
    requires IsPath(c, path) && NextInside(c, s, path[0])
    ensures IsPath(c, [s] + path) && ([s] + path)[0] == s && ([s] + path)[|path|] == path[|path| - 1]
  {
    var longer := [s] + path;
    forall k | 0 < k < |longer|
      ensures InsideStepAt(c, longer, k)
    {
      assert k > 1 ==> InsideStepAt(c, path, k - 1);
    }
  }

  lemma WindDownNext(c: Config, s: State, place: seq<Place>) returns (s': State, place': seq<Place>)
    requires AllHashed(c) && Inv(c, s, place) && s.cancelled && !s.collector.Returned?
    ensures NextInside(c, s, s') && Inv(c, s', place') && s'.cancelled && Closer(s, s')
  {
    CancelledSwarmCanStep(c, s, place);
    var step: Step :| !step.OutsideAdd? && !step.Tick? && Enabled(c, s, step);
    s' := Do(c, s, step);
    assert NextUntimed(c, s, s');
    place' := WindDownStep(c, s, s', place);
    UntimedIsNext(c, s, s');
  }

  /** A cancelled swarm has a path to Start's return. */
  lemma {:induction false} ReturnPath(c: Config, s: State, place: seq<Place>) returns (path: seq<State>)
    requires AllHashed(c) && Inv(c, s, place) && s.cancelled
    ensures IsPath(c, path) && path[0] == s && path[|path| - 1].collector.Returned?
    decreases Outer(s), Inner(s)
  {
    if s.collector.Returned? {
      return [s];
    }
    var s', place' := WindDownNext(c, s, place);
    var rest := ReturnPath(c, s', place');
    PathPrepend(c, s, rest);
    return [s] + rest;
  }

  lemma DoneInside(c: Config, s: State, s': State)
    requires Done(c, s) && NextInside(c, s, s')
    ensures Done(c, s')
  {
    InsideIsNext(c, s, s');
    DoneStep(c, s, s');
    ReachesNext(c, s, s');
  }

  ghost predicate Done(c: Config, s: State) {
    Reachable(c, s) && c.pieceCount > 0 && s.completed == c.pieceCount
  }

  lemma {:induction false} DoneAlong(c: Config, path: seq<State>, k: nat)
    requires IsPath(c, path) && k < |path| && Done(c, path[0])
    ensures Done(c, path[k])
  {
    if k > 0 {
      DoneAlong(c, path, k - 1);
      DoneNext(c, path, k, path[k - 1], path[k]);
    }
  }

  lemma DoneNext(c: Config, path: seq<State>, k: nat, s: State, s': State)
    requires IsPath(c, path) && 0 < k < |path| && s == path[k - 1] && s' == path[k] && Done(c, s)
    ensures Done(c, s')
  {
    assert InsideStepAt(c, path, k);
    DoneInside(c, s, s');
  }

  lemma SuccessPath(c: Config, s: State) returns (path: seq<State>)
    requires Reachable(c, s) && c.pieceCount > 0 && s.completed == c.pieceCount
    ensures IsPath(c, path) && path[0] == s && Succeeded(c, path[|path| - 1])
  {
    DoneIsStopping(c, s);
    var place := ReachableInv(c, s);
    path := ReturnPath(c, s, place);
    var last := |path| - 1;
    DoneAlong(c, path, last);
    DoneIsStopping(c, path[last]);
  }

  // ---- What Start returns ----

  /** When Start has returned: nil exactly when every piece was written. */
  lemma NilIff(c: Config, s: State)
    requires Reachable(c, s) && s.collector.Returned? && c.pieceCount > 0
    ensures AnswerOf(c, s) == Nil <==> forall i: nat :: i < c.pieceCount ==> i in s.writes
  {
    var place := ReachableInv(c, s);
    CompletedMeansAll(c, s, place);
    if s.completed == c.pieceCount {
      DoneIsStopping(c, s);
    }
  }

  lemma FailureSticks(c: Config, s: State, s': State)
    requires Next(c, s, s') && s.failed
    ensures s'.failed
  {
    var step: Step :| Enabled(c, s, step) && s' == Do(c, s, step);
    if IsWorkerStep(step) {
      WorkerStepIs(c, s, step);
      WorkerKeepsEnd(c, s, step, s.workers[step.w]);
    }
  }

  /** A failed write ends the download, and is what Start returns, whatever happens afterwards. */
  lemma WriteFailureEnds(c: Config, s: State, disk: seq<Bytes>)
    requires Enabled(c, s, WriteFail(disk))
    ensures var s' := Do(c, s, WriteFail(disk)); s'.failed && s'.cancelled && s'.collector.Draining?
  {
  }

  lemma {:induction false} FailureIsReturned(c: Config, run: seq<State>, k: nat, m: nat)
    requires IsRun(c, run) && k <= m < |run| && run[k].failed
    ensures run[m].failed && AnswerOf(c, run[m]) == WriteError
  {
    if m > k {
      FailureIsReturned(c, run, k, m - 1);
      assert StepAt(c, run, m);
      FailureSticks(c, run[m - 1], run[m]);
    }
  }
}
