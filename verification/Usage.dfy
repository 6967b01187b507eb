/** Usage deltas on their way from RAM over the SQLite backlog to the Hub: internal/tracker/state.go and cmd/tracker/main.go. */
module Usage {
  import opened Common

  datatype Part = Up | Down

  datatype Amount = Amount(up: int, down: int) {
    function Get(part: Part): int {
      if part.Up? then up else down
    }

    function Plus(other: Amount): Amount {
      Amount(up + other.up, down + other.down)
    }

    function Minus(other: Amount): Amount {
      Amount(up - other.up, down - other.down)
    }
  }

  function Zero(): Amount {
    Amount(0, 0)
  }

  type Users = map<string, Amount>

  function Entry(users: Users, user: string): Amount {
    if user in users then users[user] else Zero()
  }

  /** One of a user's two numbers. */
  function Of(users: Users, user: string, part: Part): int {
    Entry(users, user).Get(part)
  }

  /** TrackUsage. */
  function Track(users: Users, user: string, delta: Amount): (r: Users)
    ensures forall u, p :: Of(r, u, p) == Of(users, u, p) + if u == user then delta.Get(p) else 0
  {
    users[user := Entry(users, user).Plus(delta)]
  }

  /** The Hub adds a payload to what it has. */
  function AddAll(users: Users, payload: Users): (r: Users)
    ensures forall u, p :: Of(r, u, p) == Of(users, u, p) + Of(payload, u, p)
  {
    map u | u in users.Keys + payload.Keys :: Entry(users, u).Plus(Entry(payload, u))
  }

  /** The end of FlushUsers: take off what was sent and forget users with nothing left. */
  function Settle(users: Users, payload: Users): (r: Users)
    ensures forall u, p :: u in users || u !in payload ==> Of(r, u, p) == Of(users, u, p) - Of(payload, u, p)
  {
    map u | u in users && (u in payload ==> users[u] != payload[u]) :: users[u].Minus(Entry(payload, u))
  }

  // ---- Backlog rows ----

  datatype Row = Row(user: string, amount: Amount)

  function Share(row: Row, user: string, part: Part): int {
    if row.user == user then row.amount.Get(part) else 0
  }

  function RowsOf(rows: seq<Row>, user: string, part: Part): int {
    if rows == [] then 0 else Share(rows[0], user, part) + RowsOf(rows[1..], user, part)
  }

  lemma {:induction false} RowsAppend(a: seq<Row>, b: seq<Row>, user: string, part: Part)
    ensures RowsOf(a + b, user, part) == RowsOf(a, user, part) + RowsOf(b, user, part)
  {
    if a == [] {
      assert a + b == b;
    } else {
      assert (a + b)[1..] == a[1..] + b;
      RowsAppend(a[1..], b, user, part);
    }
  }

  lemma RowsCons(row: Row, rest: seq<Row>, user: string, part: Part)
    ensures RowsOf([row] + rest, user, part) == Share(row, user, part) + RowsOf(rest, user, part)
  {
    assert ([row] + rest)[1..] == rest;
  }

  /** The rows that are marked, or those that are not. */
  function Marked(rows: seq<Row>, marks: seq<bool>, mark: bool): seq<Row>
    requires |marks| == |rows|
  {
    if rows == [] then []
    else if marks[0] == mark then [rows[0]] + Marked(rows[1..], marks[1..], mark)
    else Marked(rows[1..], marks[1..], mark)
  }

  lemma MarkedCons(rows: seq<Row>, marks: seq<bool>, mark: bool, user: string, part: Part)
    requires rows != [] && |marks| == |rows|
    ensures RowsOf(Marked(rows, marks, mark), user, part)
            == (if marks[0] == mark then Share(rows[0], user, part) else 0)
               + RowsOf(Marked(rows[1..], marks[1..], mark), user, part)
  {
    RowsCons(rows[0], Marked(rows[1..], marks[1..], mark), user, part);
  }

  lemma {:induction false} MarkedPartition(rows: seq<Row>, marks: seq<bool>, user: string, part: Part)
    requires |marks| == |rows|
    ensures RowsOf(rows, user, part)
            == RowsOf(Marked(rows, marks, true), user, part) + RowsOf(Marked(rows, marks, false), user, part)
  {
    if rows != [] {
      MarkedPartition(rows[1..], marks[1..], user, part);
      MarkedCons(rows, marks, true, user, part);
      MarkedCons(rows, marks, false, user, part);
    }
  }

  function CountMarked(marks: seq<bool>): nat {
    if marks == [] then 0 else (if marks[0] then 1 else 0) + CountMarked(marks[1..])
  }

  predicate SubMarks(some: seq<bool>, all: seq<bool>) {
    |some| == |all| && forall i :: 0 <= i < |some| ==> some[i] ==> all[i]
  }

  /** The picked rows that stay behind. */
  function LeftOver(picked: seq<bool>, gone: seq<bool>): (r: seq<bool>)
    requires |picked| == |gone|
    ensures |r| == |picked|
  {
    if picked == [] then [] else [picked[0] && !gone[0]] + LeftOver(picked[1..], gone[1..])
  }

  /** Of the rows sent, those not deleted are the excess. */
  lemma {:induction false} DeletedOrLeft(rows: seq<Row>, picked: seq<bool>, gone: seq<bool>, user: string, part: Part)
    requires |picked| == |rows| && SubMarks(gone, picked)
    ensures RowsOf(Marked(rows, picked, true), user, part)
            == RowsOf(Marked(rows, gone, true), user, part)
               + RowsOf(Marked(rows, LeftOver(picked, gone), true), user, part)
  {
    if rows != [] {
      var left := LeftOver(picked, gone);
      assert left[0] == (picked[0] && !gone[0]) && left[1..] == LeftOver(picked[1..], gone[1..]);
      DeletedOrLeft(rows[1..], picked[1..], gone[1..], user, part);
      MarkedCons(rows, picked, true, user, part);
      MarkedCons(rows, gone, true, user, part);
      MarkedCons(rows, left, true, user, part);
    }
  }

  /** DrainBacklog's payload: rows of the same user add up. */
  function Gather(rows: seq<Row>): Users {
    if rows == [] then map[]
    else Track(Gather(rows[..|rows| - 1]), rows[|rows| - 1].user, rows[|rows| - 1].amount)
  }

  lemma {:induction false} GatherIsRows(rows: seq<Row>, user: string, part: Part)
    ensures Of(Gather(rows), user, part) == RowsOf(rows, user, part)
  {
    if rows != [] {
      var init, last := rows[..|rows| - 1], rows[|rows| - 1];
      GatherIsRows(init, user, part);
      assert rows == init + [last];
      RowsAppend(init, [last], user, part);
      RowsCons(last, [], user, part);
    }
  }

  ghost predicate OneRowEach(rows: seq<Row>) {
    forall i, j :: 0 <= i < j < |rows| ==> rows[i].user != rows[j].user
  }

  /** What backupUsageToDB inserts for a payload, in any order. */
  ghost predicate AreRowsFor(rows: seq<Row>, payload: Users) {
    && OneRowEach(rows)
    && (forall i :: 0 <= i < |rows| ==> rows[i].user in payload && rows[i].amount == payload[rows[i].user])
    && (forall u :: u in payload ==> exists i :: 0 <= i < |rows| && rows[i].user == u)
  }

  lemma {:induction false} AbsentUser(rows: seq<Row>, user: string, part: Part)
    requires forall i :: 0 <= i < |rows| ==> rows[i].user != user
    ensures RowsOf(rows, user, part) == 0
  {
    if rows != [] {
      AbsentUser(rows[1..], user, part);
    }
  }

  lemma {:induction false} SingleUser(rows: seq<Row>, k: nat, part: Part)
    requires k < |rows| && OneRowEach(rows)
    ensures RowsOf(rows, rows[k].user, part) == rows[k].amount.Get(part)
  {
    if k == 0 {
      AbsentUser(rows[1..], rows[0].user, part);
    } else {
      SingleUser(rows[1..], k - 1, part);
    }
  }

  lemma RowsForPayload(rows: seq<Row>, payload: Users, user: string, part: Part)
    requires AreRowsFor(rows, payload)
    ensures RowsOf(rows, user, part) == Of(payload, user, part)
  {
    if user in payload {
      var k :| 0 <= k < |rows| && rows[k].user == user;
      SingleUser(rows, k, part);
    } else {
      AbsentUser(rows, user, part);
    }
  }

  // ---- The protocol ----

  /** Where the one flush sequence is. FlushUsers and DrainBacklog never overlap. */
  datatype Phase =
    | Idle
    | Posting(payload: Users, applied: bool)
    | BackingUp(payload: Users)
    | Settling(payload: Users)
    | Draining(picked: seq<bool>, applied: bool)

  /**
   * `credited` is what announces earned; `excess` what the Hub or the backlog holds twice for good;
   * `limbo` the requests that were given up but may still reach the Hub.
   */
  datatype State = State(credited: Users, ram: Users, backlog: seq<Row>, hub: Users, excess: Users,
                         limbo: seq<Users>, phase: Phase)

  datatype Step =
    | Announce(user: string, delta: Amount)
    | Snapshot
    | HubApplies
    | Answer200
    | GiveUp(status: bool)
    | Backup(rows: seq<Row>, landed: bool, reported: bool)
    | Subtract
    | Pick(marks: seq<bool>)
    | Delete(gone: seq<bool>)
    | LateApply(i: nat)

  const DRAIN_LIMIT: nat := 100

  ghost predicate Enabled(s: State, step: Step) {
    match step
    case Announce(_, delta) => delta.up >= 0 && delta.down >= 0 && delta != Zero()
    case Snapshot => s.phase.Idle? && s.ram != map[]
    case HubApplies => (s.phase.Posting? || s.phase.Draining?) && !s.phase.applied
    case Answer200 => s.phase.Posting? && s.phase.applied
    case GiveUp(status) => s.phase.Posting? || s.phase.Draining?
    case Backup(rows, landed, reported) =>
      s.phase.BackingUp? && AreRowsFor(rows, s.phase.payload) && (reported ==> landed)
    case Subtract => s.phase.Settling?
    case Pick(marks) => s.phase.Idle? && |marks| == |s.backlog| && 0 < CountMarked(marks) <= DRAIN_LIMIT
    case Delete(gone) => s.phase.Draining? && s.phase.applied && SubMarks(gone, s.phase.picked)
    case LateApply(i) => i < |s.limbo|
  }

  /** What the current POST carries. */
  function Payload(s: State): Users {
    match s.phase
    case Idle => map[]
    case Posting(payload, _) => payload
    case BackingUp(payload) => payload
    case Settling(payload) => payload
    case Draining(picked, _) => if |picked| == |s.backlog| then Gather(Marked(s.backlog, picked, true)) else map[]
  }

  ghost function Do(s: State, step: Step): State
    requires Enabled(s, step)
    requires s.phase.Draining? ==> |s.phase.picked| == |s.backlog|
  {
    match step
    case Announce(user, delta) => s.(credited := Track(s.credited, user, delta), ram := Track(s.ram, user, delta))
    case Snapshot => s.(phase := Posting(s.ram, false))
    case HubApplies => s.(hub := AddAll(s.hub, Payload(s)), phase := s.phase.(applied := true))
    case Answer200 => s.(phase := Settling(s.phase.payload))
    case GiveUp(status) =>
      s.(phase := if status && s.phase.Posting? then BackingUp(s.phase.payload) else Idle,
         excess := if s.phase.applied then AddAll(s.excess, Payload(s)) else s.excess,
         limbo := if s.phase.applied then s.limbo else s.limbo + [Payload(s)])
    case Backup(rows, landed, reported) =>
      s.(backlog := if landed then s.backlog + rows else s.backlog,
         excess := if landed && !reported then AddAll(s.excess, s.phase.payload) else s.excess,
         phase := if reported then Settling(s.phase.payload) else Idle)
    case Subtract => s.(ram := Settle(s.ram, s.phase.payload), phase := Idle)
    case Pick(marks) => s.(phase := Draining(marks, false))
    case Delete(gone) =>
      s.(backlog := Marked(s.backlog, gone, false), phase := Idle,
         excess := AddAll(s.excess, Gather(Marked(s.backlog, LeftOver(s.phase.picked, gone), true))))
    case LateApply(i) =>
      s.(hub := AddAll(s.hub, s.limbo[i]), excess := AddAll(s.excess, s.limbo[i]),
         limbo := s.limbo[..i] + s.limbo[i + 1..])
  }

  /** After a start the backlog may hold rows of an earlier run; they count as credited. */
  ghost predicate IsStart(s: State) {
    && s.ram == map[] && s.hub == map[] && s.excess == map[] && s.limbo == [] && s.phase.Idle?
    && RowsNonNegative(s.backlog)
    && forall u, p :: Of(s.credited, u, p) == RowsOf(s.backlog, u, p)
  }

  // ---- The conservation law ----

  /** What is counted twice for the moment: sent and applied or backed up, but not yet taken off. */
  function Pending(s: State, user: string, part: Part): int {
    if s.phase.Settling? || ((s.phase.Posting? || s.phase.Draining?) && s.phase.applied)
    then Of(Payload(s), user, part)
    else 0
  }

  /** Hub + RAM + backlog. */
  function Held(s: State, user: string, part: Part): int {
    Of(s.hub, user, part) + Of(s.ram, user, part) + RowsOf(s.backlog, user, part)
  }

  ghost predicate Law(s: State, user: string, part: Part) {
    Held(s, user, part) == Of(s.credited, user, part) + Of(s.excess, user, part) + Pending(s, user, part)
  }

  /** RAM never drops below a payload that may still be taken off. */
  ghost predicate RamCovers(s: State, user: string, part: Part) {
    s.phase.Posting? || s.phase.BackingUp? || s.phase.Settling? ==>
      && Of(s.phase.payload, user, part) <= Of(s.ram, user, part)
      && (user in s.phase.payload ==> user in s.ram)
  }

  ghost predicate AllNonNegative(users: Users) {
    forall u :: u in users ==> users[u].up >= 0 && users[u].down >= 0
  }

  ghost predicate RowsNonNegative(rows: seq<Row>) {
    forall i :: 0 <= i < |rows| ==> rows[i].amount.up >= 0 && rows[i].amount.down >= 0
  }

  ghost predicate LimboNonNegative(limbo: seq<Users>) {
    forall i :: 0 <= i < |limbo| ==> AllNonNegative(limbo[i])
  }

  ghost predicate Shaped(s: State) {
    && (s.phase.Draining? ==> |s.phase.picked| == |s.backlog|)
    && AllNonNegative(s.ram) && AllNonNegative(s.hub) && AllNonNegative(s.excess)
    && RowsNonNegative(s.backlog) && LimboNonNegative(s.limbo)
  }

  ghost predicate Inv(s: State) {
    && Shaped(s) && AllNonNegative(Payload(s))
    && forall u, p :: Law(s, u, p) && RamCovers(s, u, p)
  }

  ghost predicate Next(s: State, s': State) {
    exists step :: Shaped(s) && Enabled(s, step) && s' == Do(s, step)
  }

  // ---- The invariant ----

  lemma {:induction false} MarkedNonNegative(rows: seq<Row>, marks: seq<bool>, mark: bool)
    requires |marks| == |rows| && RowsNonNegative(rows)
    ensures RowsNonNegative(Marked(rows, marks, mark))
  {
    if rows != [] {
      MarkedNonNegative(rows[1..], marks[1..], mark);
    }
  }

  lemma {:induction false} GatherNonNegative(rows: seq<Row>)
    requires RowsNonNegative(rows)
    ensures AllNonNegative(Gather(rows))
  {
    if rows != [] {
      GatherNonNegative(rows[..|rows| - 1]);
    }
  }

  lemma PickedNonNegative(rows: seq<Row>, marks: seq<bool>)
    requires |marks| == |rows| && RowsNonNegative(rows)
    ensures AllNonNegative(Gather(Marked(rows, marks, true)))
  {
    MarkedNonNegative(rows, marks, true);
    GatherNonNegative(Marked(rows, marks, true));
  }

  lemma ShapeKept(s: State, step: Step)
    requires Inv(s) && Enabled(s, step)
    ensures Shaped(Do(s, step)) && AllNonNegative(Payload(Do(s, step)))
  {
    match step {
      case Pick(marks) => PickedNonNegative(s.backlog, marks);
      case Delete(gone) => DeleteKeepsShape(s, step);
      case Subtract => SubtractKeepsShape(s, step);
      case Backup(rows, landed, reported) => BackupRowsNonNegative(rows, s.phase.payload);
      case GiveUp(_) => GiveUpKeepsShape(s, step);
      case LateApply(i) => LateApplyKeepsShape(s, step);
      case _ =>
    }
  }

  lemma GiveUpKeepsShape(s: State, step: Step)
    requires Inv(s) && Enabled(s, step) && step.GiveUp?
    ensures Shaped(Do(s, step)) && AllNonNegative(Payload(Do(s, step)))
  {
  }

  lemma LateApplyKeepsShape(s: State, step: Step)
    requires Inv(s) && Enabled(s, step) && step.LateApply?
    ensures Shaped(Do(s, step)) && AllNonNegative(Payload(Do(s, step)))
  {
    assert AllNonNegative(s.limbo[step.i]);
  }

  lemma DeleteKeepsShape(s: State, step: Step)
    requires Inv(s) && Enabled(s, step) && step.Delete?
    ensures Shaped(Do(s, step)) && AllNonNegative(Payload(Do(s, step)))
  {
    MarkedNonNegative(s.backlog, step.gone, false);
    PickedNonNegative(s.backlog, LeftOver(s.phase.picked, step.gone));
  }

  lemma SubtractKeepsShape(s: State, step: Step)
    requires Inv(s) && Enabled(s, step) && step.Subtract?
    ensures Shaped(Do(s, step)) && AllNonNegative(Payload(Do(s, step)))
  {
    var ram := Settle(s.ram, s.phase.payload);
    forall u | u in ram
      ensures ram[u].up >= 0 && ram[u].down >= 0
    {
      assert RamCovers(s, u, Up) && RamCovers(s, u, Down);
    }
  }

  lemma BackupRowsNonNegative(rows: seq<Row>, payload: Users)
    requires AreRowsFor(rows, payload) && AllNonNegative(payload)
    ensures RowsNonNegative(rows)
  {
  }

  lemma BackupKeepsLaw(s: State, step: Step, user: string, part: Part)
    requires Shaped(s) && Law(s, user, part) && Enabled(s, step) && step.Backup?
    ensures Law(Do(s, step), user, part)
  {
    RowsForPayload(step.rows, s.phase.payload, user, part);
    RowsAppend(s.backlog, step.rows, user, part);
  }

  lemma DeleteKeepsLaw(s: State, step: Step, user: string, part: Part)
    requires Shaped(s) && Law(s, user, part) && Enabled(s, step) && step.Delete?
    ensures Law(Do(s, step), user, part)
  {
    var left := LeftOver(s.phase.picked, step.gone);
    MarkedPartition(s.backlog, step.gone, user, part);
    DeletedOrLeft(s.backlog, s.phase.picked, step.gone, user, part);
    GatherIsRows(Marked(s.backlog, s.phase.picked, true), user, part);
    GatherIsRows(Marked(s.backlog, left, true), user, part);
  }

  /** Each step moves amounts between the places without losing any. */
  lemma LawKept(s: State, step: Step, user: string, part: Part)
    requires Shaped(s) && Law(s, user, part) && RamCovers(s, user, part) && Enabled(s, step)
    ensures Law(Do(s, step), user, part)
  {
    if step.Backup? {
      BackupKeepsLaw(s, step, user, part);
    } else if step.Delete? {
      DeleteKeepsLaw(s, step, user, part);
    }
  }

  lemma CoverKept(s: State, step: Step, user: string, part: Part)
    requires Inv(s) && Enabled(s, step)
    ensures RamCovers(Do(s, step), user, part)
  {
    assert RamCovers(s, user, part);
  }

  lemma InvKept(s: State, step: Step)
    requires Inv(s) && Enabled(s, step)
    ensures Inv(Do(s, step))
  {
    ShapeKept(s, step);
    forall u, p
      ensures Law(Do(s, step), u, p) && RamCovers(Do(s, step), u, p)
    {
      assert Law(s, u, p) && RamCovers(s, u, p);
      LawKept(s, step, u, p);
      CoverKept(s, step, u, p);
    }
  }

  ghost predicate IsRun(run: seq<State>) {
    && run != [] && IsStart(run[0])
    && forall k :: 0 < k < |run| ==> StepAt(run, k)
  }

  ghost predicate StepAt(run: seq<State>, k: nat)
    requires 0 < k < |run|
  {
    Next(run[k - 1], run[k])
  }

  lemma {:induction false} InvHolds(run: seq<State>, k: nat)
    requires IsRun(run) && k < |run|
    ensures Inv(run[k])
  {
    if k > 0 {
      InvHolds(run, k - 1);
      assert StepAt(run, k);
      var step :| Enabled(run[k - 1], step) && run[k] == Do(run[k - 1], step);
      InvKept(run[k - 1], step);
    }
  }

  // ---- Main results ----

  /**
   * Over every run and every outcome of POSTs, backups and deletes: nothing credited is missing, the
   * surplus is exactly what was duplicated plus what is under way, RAM covers the payload to be taken
   * off, and no amount is negative.
   */
  lemma NeverUnderCounted(run: seq<State>, k: nat, user: string, part: Part)
    requires IsRun(run) && k < |run|
    ensures Held(run[k], user, part) >= Of(run[k].credited, user, part)
    ensures Held(run[k], user, part)
            == Of(run[k].credited, user, part) + Of(run[k].excess, user, part) + Pending(run[k], user, part)
    ensures RamCovers(run[k], user, part)
    ensures Of(run[k].ram, user, part) >= 0 && Of(run[k].hub, user, part) >= 0 && Of(run[k].excess, user, part) >= 0
  {
    InvHolds(run, k);
    assert Law(run[k], user, part) && RamCovers(run[k], user, part);
  }

  /** A step after which nothing is held twice for good. */
  ghost predicate Clean(s: State, step: Step) {
    match step
    case GiveUp(_) => (s.phase.Posting? || s.phase.Draining?) ==> !s.phase.applied
    case Backup(_, landed, reported) => landed == reported
    case Delete(gone) => s.phase.Draining? ==> gone == s.phase.picked
    case LateApply(_) => false
    case _ => true
  }

  ghost predicate NextClean(s: State, s': State) {
    exists step :: Shaped(s) && Enabled(s, step) && Clean(s, step) && s' == Do(s, step)
  }

  ghost predicate CleanStepAt(run: seq<State>, k: nat)
    requires 0 < k < |run|
  {
    NextClean(run[k - 1], run[k])
  }

  lemma {:induction false} NothingLeft(picked: seq<bool>, rows: seq<Row>)
    requires |picked| == |rows|
    ensures Marked(rows, LeftOver(picked, picked), true) == []
  {
    if rows != [] {
      NothingLeft(picked[1..], rows[1..]);
    }
  }

  lemma CleanStepAddsNothing(s: State, step: Step, user: string, part: Part)
    requires Shaped(s) && Enabled(s, step) && Clean(s, step)
    ensures Of(Do(s, step).excess, user, part) == Of(s.excess, user, part)
  {
    if step.Delete? {
      NothingLeft(s.phase.picked, s.backlog);
    }
  }

  lemma {:induction false} NoExcess(run: seq<State>, k: nat, user: string, part: Part)
    requires IsRun(run) && k < |run|
    requires forall i :: 0 < i <= k ==> CleanStepAt(run, i)
    ensures Of(run[k].excess, user, part) == 0
  {
    if k > 0 {
      NoExcess(run, k - 1, user, part);
      assert CleanStepAt(run, k);
      var s := run[k - 1];
      var step :| Shaped(s) && Enabled(s, step) && Clean(s, step) && run[k] == Do(s, step);
      CleanStepAddsNothing(s, step, user, part);
    }
  }

  /** Between flushes of a run without such a fault, Hub + RAM + backlog is exactly what was credited. */
  lemma ExactBetweenFlushes(run: seq<State>, k: nat, user: string, part: Part)
    requires IsRun(run) && k < |run| && run[k].phase.Idle?
    requires forall i :: 0 < i <= k ==> CleanStepAt(run, i)
    ensures Held(run[k], user, part) == Of(run[k].credited, user, part)
  {
    NeverUnderCounted(run, k, user, part);
    NoExcess(run, k, user, part);
  }

  /** Once RAM and backlog are empty, the Hub has everything. */
  lemma HubHasEverything(run: seq<State>, k: nat, user: string, part: Part)
    requires IsRun(run) && k < |run| && run[k].ram == map[] && run[k].backlog == []
    ensures Of(run[k].hub, user, part) >= Of(run[k].credited, user, part)
  {
    NeverUnderCounted(run, k, user, part);
  }

  // ---- What a flush moves ----

  datatype Credit = Credit(user: string, delta: Amount)

  ghost predicate Credits(earned: seq<Credit>) {
    forall i :: 0 <= i < |earned| ==> Enabled(START, Announce(earned[i].user, earned[i].delta))
  }

  const START := State(map[], map[], [], map[], map[], [], Idle)

  /** The state after some announces. */
  ghost function Heard(s: State, earned: seq<Credit>): State
    requires Credits(earned) && (s.phase.Draining? ==> |s.phase.picked| == |s.backlog|)
    decreases |earned|
  {
    if earned == [] then s
    else
      var step := Announce(earned[0].user, earned[0].delta);
      assert Enabled(START, step);
      Heard(Do(s, step), earned[1..])
  }

  function Earned(earned: seq<Credit>, user: string, part: Part): int {
    if earned == [] then 0
    else (if earned[0].user == user then earned[0].delta.Get(part) else 0) + Earned(earned[1..], user, part)
  }

  /** Announces add to RAM, and touch nothing that a flush is about. */
  lemma {:induction false} HeardInRam(s: State, earned: seq<Credit>)
    requires Credits(earned) && (s.phase.Draining? ==> |s.phase.picked| == |s.backlog|)
    ensures var after := Heard(s, earned);
            && after == s.(ram := after.ram, credited := after.credited)
            && (forall u :: u in s.ram ==> u in after.ram)
            && forall u, p :: Of(after.ram, u, p) == Of(s.ram, u, p) + Earned(earned, u, p)
    decreases |earned|
  {
    if earned != [] {
      var step := Announce(earned[0].user, earned[0].delta);
      assert Enabled(START, step);
      HeardInRam(Do(s, step), earned[1..]);
    }
  }

  /** Snapshot, POST, 200, subtraction, with announces `a`, `b`, `c` coming in between. */
  ghost function CleanFlush(s: State, a: seq<Credit>, b: seq<Credit>, c: seq<Credit>): State
    requires s.phase.Idle? && s.ram != map[] && Credits(a) && Credits(b) && Credits(c)
  {
    var sent := Heard(Do(s, Snapshot), a);
    HeardInRam(Do(s, Snapshot), a);
    var applied := Heard(Do(sent, HubApplies), b);
    HeardInRam(Do(sent, HubApplies), b);
    var answered := Heard(Do(applied, Answer200), c);
    HeardInRam(Do(applied, Answer200), c);
    Do(answered, Subtract)
  }

  /** It takes all of RAM to the Hub, and leaves in RAM what was announced meanwhile. */
  lemma CleanFlushMoves(s: State, a: seq<Credit>, b: seq<Credit>, c: seq<Credit>, user: string, part: Part)
    requires s.phase.Idle? && s.ram != map[] && Credits(a) && Credits(b) && Credits(c)
    ensures var t := CleanFlush(s, a, b, c);
            && Of(t.hub, user, part) == Of(s.hub, user, part) + Of(s.ram, user, part)
            && Of(t.ram, user, part) == Earned(a, user, part) + Earned(b, user, part) + Earned(c, user, part)
            && t.backlog == s.backlog && t.excess == s.excess && t.limbo == s.limbo && t.phase.Idle?
  {
    var sent := Heard(Do(s, Snapshot), a);
    HeardInRam(Do(s, Snapshot), a);
    var applied := Heard(Do(sent, HubApplies), b);
    HeardInRam(Do(sent, HubApplies), b);
    HeardInRam(Do(applied, Answer200), c);
  }

  /** Snapshot, a POST that is refused, a good backup, subtraction, with announces in between. */
  ghost function RefusedFlush(s: State, rows: seq<Row>, a: seq<Credit>, b: seq<Credit>, c: seq<Credit>): State
    requires s.phase.Idle? && s.ram != map[] && AreRowsFor(rows, s.ram) && Credits(a) && Credits(b) && Credits(c)
  {
    var sent := Heard(Do(s, Snapshot), a);
    HeardInRam(Do(s, Snapshot), a);
    var refused := Heard(Do(sent, GiveUp(true)), b);
    HeardInRam(Do(sent, GiveUp(true)), b);
    var stored := Heard(Do(refused, Backup(rows, true, true)), c);
    HeardInRam(Do(refused, Backup(rows, true, true)), c);
    Do(stored, Subtract)
  }

  /** It takes all of RAM to the backlog instead; the Hub has what it had. */
  lemma RefusedFlushMoves(s: State, rows: seq<Row>, a: seq<Credit>, b: seq<Credit>, c: seq<Credit>, user: string, part: Part)
    requires s.phase.Idle? && s.ram != map[] && AreRowsFor(rows, s.ram) && Credits(a) && Credits(b) && Credits(c)
    ensures var t := RefusedFlush(s, rows, a, b, c);
            && t.hub == s.hub && t.excess == s.excess && t.phase.Idle?
            && RowsOf(t.backlog, user, part) == RowsOf(s.backlog, user, part) + Of(s.ram, user, part)
            && Of(t.ram, user, part) == Earned(a, user, part) + Earned(b, user, part) + Earned(c, user, part)
  {
    var sent := Heard(Do(s, Snapshot), a);
    HeardInRam(Do(s, Snapshot), a);
    var refused := Heard(Do(sent, GiveUp(true)), b);
    HeardInRam(Do(sent, GiveUp(true)), b);
    HeardInRam(Do(refused, Backup(rows, true, true)), c);
    RowsForPayload(rows, s.ram, user, part);
    RowsAppend(s.backlog, rows, user, part);
  }

  /** A POST without an answer leaves RAM and backlog as they are. */
  lemma UnansweredFlushKeeps(s: State, applied: bool)
    requires s.phase.Idle? && s.ram != map[]
    ensures var sent := Do(s, Snapshot);
            var t := Do(if applied then Do(sent, HubApplies) else sent, GiveUp(false));
            t.ram == s.ram && t.backlog == s.backlog && t.phase.Idle? && (!applied ==> t.hub == s.hub)
  {
  }

  /** A drain that is answered and whose deletes succeed takes the picked rows to the Hub and out of the backlog. */
  lemma CleanDrainMoves(s: State, marks: seq<bool>, user: string, part: Part)
    requires s.phase.Idle? && Enabled(s, Pick(marks))
    ensures var t := Do(Do(Do(s, Pick(marks)), HubApplies), Delete(marks));
            && Of(t.hub, user, part) - Of(s.hub, user, part) == RowsOf(s.backlog, user, part) - RowsOf(t.backlog, user, part)
            && t.backlog == Marked(s.backlog, marks, false) && t.ram == s.ram && t.phase.Idle?
            && Of(t.excess, user, part) == Of(s.excess, user, part)
  {
    MarkedPartition(s.backlog, marks, user, part);
    GatherIsRows(Marked(s.backlog, marks, true), user, part);
    NothingLeft(marks, s.backlog);
  }
}
