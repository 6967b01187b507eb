/** The tracker's memory and its SQLite copy: internal/tracker/state.go and executeAnnounce in internal/tracker/announce.go. */
module Tracker {
  import opened Common
  import opened Usage

  datatype Peer = Peer(addr: string, updatedAt: int, left: int, downloaded: int, uploaded: int)

  type Swarm = map<string, Peer>
  type Swarms = map<string, Swarm>

  datatype Memory = Memory(peers: Swarms, users: Users)

  function Find(peers: Swarms, hash: string, id: string): Option<Peer> {
    if hash in peers && id in peers[hash] then Some(peers[hash][id]) else None
  }

  function SwarmOf(peers: Swarms, hash: string): Swarm {
    if hash in peers then peers[hash] else map[]
  }

  /** Seeders and leechers. */
  function Counts(swarm: Swarm): (nat, nat) {
    (|set id | id in swarm && swarm[id].left == 0|, |set id | id in swarm && swarm[id].left != 0|)
  }

  function WithPeer(peers: Swarms, hash: string, id: string, p: Peer): Swarms {
    peers[hash := SwarmOf(peers, hash)[id := p]]
  }

  function WithoutPeer(peers: Swarms, hash: string, id: string): Swarms {
    if hash in peers then peers[hash := peers[hash] - {id}] else peers
  }

  // ---- Announces ----

  function Clamp(x: int): int {
    if x < 0 then 0 else x
  }

  /** What an announce earns: each counter's increase, or nothing when it went down. */
  function Delta(before: Peer, now: Peer): Amount {
    Amount(Clamp(now.uploaded - before.uploaded), Clamp(now.downloaded - before.downloaded))
  }

  /** executeAnnounce on the swarm memory; an announce without a passkey has the empty user. */
  function Announced(m: Memory, hash: string, id: string, user: string, stopped: bool, report: Peer): Memory {
    if stopped then m.(peers := WithoutPeer(m.peers, hash, id))
    else
      var before := Find(m.peers, hash, id);
      var earns := user != "" && before.Some? && Delta(before.value, report) != Zero();
      Memory(WithPeer(m.peers, hash, id, report),
             if earns then Track(m.users, user, Delta(before.value, report)) else m.users)
  }

  /** A stopped announce takes that peer out, and only that; any other puts the report in its place, and nothing else. */
  lemma AnnounceReplacesPeer(m: Memory, hash: string, id: string, user: string, stopped: bool, report: Peer)
    ensures var after := Announced(m, hash, id, user, stopped, report).peers;
            && Find(after, hash, id) == (if stopped then None else Some(report))
            && forall h, i :: h != hash || i != id ==> Find(after, h, i) == Find(m.peers, h, i)
  {
  }

  /** Usage changes only for the announcing user, and only if that peer was known and a counter went up, by as much as it went up. */
  lemma AnnounceCreditsIncrease(m: Memory, hash: string, id: string, user: string, stopped: bool, report: Peer)
    ensures var after, known := Announced(m, hash, id, user, stopped, report).users, Find(m.peers, hash, id);
            && (stopped || user == "" || known.None? ==> after == m.users)
            && (known.Some? && report.uploaded <= known.value.uploaded && report.downloaded <= known.value.downloaded ==> after == m.users)
            && (forall u :: u != user ==> (u in after <==> u in m.users) && Entry(after, u) == Entry(m.users, u))
            && (!stopped && user != "" && known.Some? ==>
                  && Of(after, user, Up) == Of(m.users, user, Up) + Increase(known.value.uploaded, report.uploaded)
                  && Of(after, user, Down) == Of(m.users, user, Down) + Increase(known.value.downloaded, report.downloaded))
  {
  }

  function Increase(before: int, now: int): int {
    if now > before then now - before else 0
  }

  /** No peers, no counts; one more peer is one more seeder if it has nothing left, and one more leecher otherwise. */
  lemma CountsGrow(swarm: Swarm, id: string, p: Peer)
    requires id !in swarm
    ensures Counts(map[]) == (0, 0)
    ensures Counts(swarm[id := p]) == if p.left == 0 then (Counts(swarm).0 + 1, Counts(swarm).1)
                                      else (Counts(swarm).0, Counts(swarm).1 + 1)
  {
    var more := swarm[id := p];
    var seeds, leeches := set x | x in swarm && swarm[x].left == 0, set x | x in swarm && swarm[x].left != 0;
    if p.left == 0 {
      assert (set x | x in more && more[x].left == 0) == seeds + {id};
      assert (set x | x in more && more[x].left != 0) == leeches;
    } else {
      assert (set x | x in more && more[x].left == 0) == seeds;
      assert (set x | x in more && more[x].left != 0) == leeches + {id};
    }
  }

  /** Every peer is counted once. */
  lemma CountsAddUp(swarm: Swarm)
    ensures Counts(swarm).0 + Counts(swarm).1 == |swarm|
  {
    var seeds, leeches := set x | x in swarm && swarm[x].left == 0, set x | x in swarm && swarm[x].left != 0;
    assert seeds + leeches == swarm.Keys && seeds !! leeches;
    assert |seeds + leeches| == |seeds| + |leeches|;
  }

  // ---- The peers table ----

  datatype PeerRow = PeerRow(hash: string, id: string, peer: Peer)

  ghost predicate OneRowPerKey(rows: seq<PeerRow>) {
    forall i, j :: 0 <= i < j < |rows| ==> rows[i].hash != rows[j].hash || rows[i].id != rows[j].id
  }

  /** The table holds exactly these peers, each in one row. */
  ghost predicate IsTableOf(peers: Swarms, rows: seq<PeerRow>) {
    && OneRowPerKey(rows)
    && forall row :: row in rows <==> Find(peers, row.hash, row.id) == Some(row.peer)
  }

  function LoadRows(peers: Swarms, rows: seq<PeerRow>): Swarms {
    if rows == [] then peers
    else
      var row := rows[|rows| - 1];
      WithPeer(LoadRows(peers, rows[..|rows| - 1]), row.hash, row.id, row.peer)
  }

  /** Different peers of the swarm, without the excluded one, and their addresses. */
  ghost predicate AreOthers(swarm: Swarm, exclude: string, ids: seq<string>, addrs: seq<string>) {
    && NoDup(ids) && |addrs| == |ids|
    && forall i :: 0 <= i < |ids| ==> ids[i] in swarm && ids[i] != exclude && addrs[i] == swarm[ids[i]].addr
  }

  lemma OneMore(swarm: Swarm, exclude: string, ids: seq<string>, addrs: seq<string>, id: string)
    requires AreOthers(swarm, exclude, ids, addrs) && id in swarm && id != exclude && id !in ids
    ensures AreOthers(swarm, exclude, ids + [id], addrs + [swarm[id].addr])
  {
  }

  lemma OneLess(todo: set<string>, id: string, exclude: string)
    requires id in todo
    ensures |todo - {exclude}| == |todo - {id} - {exclude}| + if id == exclude then 0 else 1
  {
    if id == exclude {
      assert todo - {id} - {exclude} == todo - {exclude};
    } else {
      assert todo - {exclude} == (todo - {id} - {exclude}) + {id};
    }
  }

  /** One round of FlushUsers' subtraction. */
  lemma SettleOne(users: Users, sent: Users, id: string, amount: Amount)
    requires id !in sent
    ensures id !in users ==> Settle(users, sent[id := amount]) == Settle(users, sent)
    ensures id in users ==>
              && id in Settle(users, sent) && Settle(users, sent)[id] == users[id]
              && Settle(users, sent[id := amount])
                 == if users[id] == amount then Settle(users, sent) - {id}
                    else Settle(users, sent)[id := users[id].Minus(amount)]
  {
  }

  /** The rows that scan. */
  function Scanned(rows: seq<PeerRow>, scans: seq<bool>): seq<PeerRow>
    requires |scans| == |rows|
  {
    if rows == [] then []
    else
      var n := |rows| - 1;
      Scanned(rows[..n], scans[..n]) + if scans[n] then [rows[n]] else []
  }

  lemma ScannedNext(rows: seq<PeerRow>, scans: seq<bool>, i: nat)
    requires i < |rows| == |scans|
    ensures scans[i] ==> Scanned(rows[..i + 1], scans[..i + 1]) == Scanned(rows[..i], scans[..i]) + [rows[i]]
    ensures !scans[i] ==> Scanned(rows[..i + 1], scans[..i + 1]) == Scanned(rows[..i], scans[..i])
  {
    assert rows[..i + 1][..i] == rows[..i] && scans[..i + 1][..i] == scans[..i];
  }

  lemma {:induction false} AllScanned(rows: seq<PeerRow>, scans: seq<bool>)
    requires |scans| == |rows| && forall i :: 0 <= i < |scans| ==> scans[i]
    ensures Scanned(rows, scans) == rows
  {
    if rows != [] {
      var n := |rows| - 1;
      AllScanned(rows[..n], scans[..n]);
    }
  }

  lemma LoadNext(peers: Swarms, rows: seq<PeerRow>, row: PeerRow)
    ensures LoadRows(peers, rows + [row]) == WithPeer(LoadRows(peers, rows), row.hash, row.id, row.peer)
  {
    assert (rows + [row])[..|rows|] == rows;
  }

  /** How a transaction ended: committed, stopped by operation `op` before the commit, or with a commit that reported failure. */
  datatype Outcome = Committed | Stopped(op: nat) | CommitFailed(op: nat) {
    /** `total` operations make the transaction; the last one is the commit. */
    ghost predicate Fits(ok: nat -> bool, total: nat) {
      match this
      case Committed => forall k :: 0 <= k < total ==> ok(k)
      case Stopped(op) => !ok(op)
      case CommitFailed(op) => !ok(op) && op == total - 1
    }

    /** A commit that reports failure may have landed all the same. */
    predicate Persisted(landed: bool) {
      Committed? || (CommitFailed? && landed)
    }
  }

  ghost predicate OkUpTo(ok: nat -> bool, n: nat) {
    forall k :: 0 <= k < n ==> ok(k)
  }

  /** The two tables; a transaction works on a copy until it commits. */
  class Database {
    var table: seq<PeerRow>
    var backlog: seq<Row>
  }

  /** The rows of all swarms but those in `todo`. */
  ghost predicate Inserted(peers: Swarms, todo: set<string>, rows: seq<PeerRow>) {
    && OneRowPerKey(rows)
    && forall row :: row in rows <==> Find(peers, row.hash, row.id) == Some(row.peer) && row.hash !in todo
  }

  /** The rows of one swarm but the ids in `todo`. */
  ghost predicate InsertedOf(hash: string, swarm: Swarm, todo: set<string>, rows: seq<PeerRow>) {
    && OneRowPerKey(rows)
    && forall row :: row in rows <==> row.hash == hash && row.id in swarm && row.id !in todo && swarm[row.id] == row.peer
  }

  lemma RowInserted(hash: string, swarm: Swarm, todo: set<string>, rows: seq<PeerRow>, id: string)
    requires InsertedOf(hash, swarm, todo, rows) && id in todo && id in swarm
    ensures InsertedOf(hash, swarm, todo - {id}, rows + [PeerRow(hash, id, swarm[id])])
  {
    var next := rows + [PeerRow(hash, id, swarm[id])];
    assert forall row :: row in next <==> row in rows || row == PeerRow(hash, id, swarm[id]);
    assert forall row :: row in rows ==> row.id != id;
  }

  lemma SwarmInserted(peers: Swarms, todo: set<string>, rows: seq<PeerRow>, hash: string, more: seq<PeerRow>)
    requires Inserted(peers, todo, rows) && hash in todo && hash in peers
    requires InsertedOf(hash, peers[hash], {}, more)
    ensures Inserted(peers, todo - {hash}, rows + more)
  {
    var next := rows + more;
    assert forall row :: row in next <==> row in rows || row in more;
    assert forall row :: row in rows ==> row.hash != hash;
    assert forall row :: row in more ==> row.hash == hash;
  }

  class SwarmState {
    var peers: Swarms
    var users: Users

    constructor ()
      ensures peers == map[] && users == map[]
    {
      peers, users := map[], map[];
    }

    method TrackUsage(user: string, delta: Amount)
      modifies this`users
      ensures users == Track(old(users), user, delta)
    {
      if user !in users {
        users := users[user := Zero()];
      }
      users := users[user := users[user].Plus(delta)];
      assert users == Track(old(users), user, delta);
    }

    method GetPeer(hash: string, id: string) returns (p: Option<Peer>)
      ensures p == Find(peers, hash, id)
    {
      p := None;
      if hash in peers && id in peers[hash] {
        p := Some(peers[hash][id]);
      }
    }

    method UpdatePeer(hash: string, id: string, p: Peer)
      modifies this`peers
      ensures peers == WithPeer(old(peers), hash, id, p)
    {
      if hash !in peers {
        peers := peers[hash := map[]];
      }
      peers := peers[hash := peers[hash][id := p]];
      assert peers == WithPeer(old(peers), hash, id, p);
    }

    method RemovePeer(hash: string, id: string)
      modifies this`peers
      ensures peers == WithoutPeer(old(peers), hash, id)
    {
      if hash in peers {
        peers := peers[hash := peers[hash] - {id}];
      }
    }

    /** The delta and clamp of executeAnnounce, with the update that follows. */
    method Announce(hash: string, id: string, user: string, stopped: bool, report: Peer)
      modifies this
      ensures Memory(peers, users) == Announced(old(Memory(peers, users)), hash, id, user, stopped, report)
    {
      if stopped {
        RemovePeer(hash, id);
        return;
      }
      if user != "" {
        var before := GetPeer(hash, id);
        if before.Some? {
          var deltaUp := report.uploaded - before.value.uploaded;
          var deltaDown := report.downloaded - before.value.downloaded;
          if deltaUp < 0 {
            deltaUp := 0;
          }
          if deltaDown < 0 {
            deltaDown := 0;
          }
          if deltaUp > 0 || deltaDown > 0 {
            TrackUsage(user, Amount(deltaUp, deltaDown));
          }
        }
      }
      UpdatePeer(hash, id, report);
    }

    method GetCounts(hash: string) returns (complete: nat, incomplete: nat)
      ensures (complete, incomplete) == Counts(SwarmOf(peers, hash))
    {
      complete, incomplete := 0, 0;
      var swarm := if hash in peers then peers[hash] else map[];
      var todo := swarm.Keys;
      ghost var seeds, leeches: set<string> := {}, {};
      while todo != {}
        invariant todo <= swarm.Keys
        invariant seeds == (set id | id in swarm && id !in todo && swarm[id].left == 0)
        invariant leeches == (set id | id in swarm && id !in todo && swarm[id].left != 0)
        invariant complete == |seeds| && incomplete == |leeches|
      {
        var id :| id in todo;
        if swarm[id].left == 0 {
          complete := complete + 1;
          seeds := seeds + {id};
        } else {
          incomplete := incomplete + 1;
          leeches := leeches + {id};
        }
        todo := todo - {id};
      }
      assert seeds == set id | id in swarm && swarm[id].left == 0;
      assert leeches == set id | id in swarm && swarm[id].left != 0;
    }

    /** As many other peers as there are, up to the limit, none twice. */
    method GetPeers(hash: string, exclude: string, limit: nat) returns (addrs: seq<string>)
      ensures |addrs| == Min(limit, |SwarmOf(peers, hash).Keys - {exclude}|)
      ensures exists ids :: AreOthers(SwarmOf(peers, hash), exclude, ids, addrs)
    {
      addrs := [];
      ghost var ids: seq<string> := [];
      var swarm := if hash in peers then peers[hash] else map[];
      var todo := swarm.Keys;
      while todo != {}
        invariant todo <= swarm.Keys && |ids| <= limit && AreOthers(swarm, exclude, ids, addrs)
        invariant forall id :: id in ids ==> id !in todo
        invariant |swarm.Keys - {exclude}| == |ids| + |todo - {exclude}|
        decreases todo
      {
        var id :| id in todo;
        OneLess(todo, id, exclude);
        todo := todo - {id};
        if id == exclude {
          continue;
        }
        if |addrs| >= limit {
          break;
        }
        OneMore(swarm, exclude, ids, addrs, id);
        addrs := addrs + [swarm[id].addr];
        ids := ids + [id];
      }
    }

    /** The copy that FlushUsers takes under the lock. */
    method SnapshotUsers() returns (payload: Users)
      ensures payload == users
    {
      payload := map[];
      var todo := users.Keys;
      while todo != {}
        invariant todo <= users.Keys && payload == map u | u in users && u !in todo :: users[u]
      {
        var id :| id in todo;
        payload := payload[id := users[id]];
        todo := todo - {id};
      }
    }

    /** The end of FlushUsers, under the lock again. */
    method SubtractSent(payload: Users)
      modifies this`users
      ensures users == Settle(old(users), payload)
    {
      var todo := payload.Keys;
      ghost var sent: Users := map[];
      assert Settle(users, map[]) == users;
      while todo != {}
        invariant todo <= payload.Keys && sent.Keys == payload.Keys - todo
        invariant forall u :: u in sent ==> sent[u] == payload[u]
        invariant users == Settle(old(users), sent)
      {
        var id :| id in todo;
        SettleOne(old(users), sent, id, payload[id]);
        sent := sent[id := payload[id]];
        if id in users {
          var live := users[id].Minus(payload[id]);
          users := users[id := live];
          if live.up == 0 && live.down == 0 {
            users := users - {id};
          }
        }
        todo := todo - {id};
      }
      assert sent == payload;
    }

    /** DrainBacklog's payload. */
    method GatherRows(records: seq<Row>) returns (payload: Users)
      ensures payload == Gather(records)
    {
      payload := map[];
      for i := 0 to |records|
        invariant payload == Gather(records[..i])
      {
        assert records[..i + 1][..i] == records[..i];
        var existing := if records[i].user in payload then payload[records[i].user] else Zero();
        payload := payload[records[i].user := existing.Plus(records[i].amount)];
      }
      assert records[..|records|] == records;
    }

    /** backupUsageToDB. `ok` says which database operation succeeds. */
    method BackupUsage(db: Database, payload: Users, ok: nat -> bool, landed: bool)
      returns (reported: bool, ghost rows: seq<Row>, ghost outcome: Outcome)
      modifies db`backlog
      ensures reported <==> outcome.Committed?
      ensures outcome.Fits(ok, |rows| + 3)
      ensures !outcome.Stopped? ==> AreRowsFor(rows, payload)
      ensures db.backlog == if outcome.Persisted(landed) then old(db.backlog) + rows else old(db.backlog)
    {
      reported, rows, outcome := false, [], Committed;
      if !ok(0) || !ok(1) {
        outcome := Stopped(if !ok(0) then 0 else 1);
        return;
      }
      var inserted: seq<Row> := [];
      var todo, n: nat := payload.Keys, 2;
      while todo != {}
        invariant todo <= payload.Keys && n == |inserted| + 2 && db.backlog == old(db.backlog) && OkUpTo(ok, n)
        invariant AreRowsFor(inserted, map u | u in payload && u !in todo :: payload[u])
      {
        var id :| id in todo;
        if !ok(n) {
          outcome := Stopped(n);
          return;
        }
        BackupRow(inserted, payload, todo, id);
        inserted := inserted + [Row(id, payload[id])];
        todo := todo - {id};
        n := n + 1;
      }
      assert (map u | u in payload && u !in todo :: payload[u]) == payload;
      rows := inserted;
      reported := ok(n);
      if !reported {
        outcome := CommitFailed(n);
      }
      if reported || landed {
        db.backlog := db.backlog + inserted;
      }
    }

    method SnapshotPeers() returns (snapshot: Swarms)
      ensures snapshot == peers
    {
      snapshot := map[];
      var todo := peers.Keys;
      while todo != {}
        invariant todo <= peers.Keys && snapshot == map h | h in peers && h !in todo :: peers[h]
      {
        var hash :| hash in todo;
        snapshot := snapshot[hash := peers[hash]];
        todo := todo - {hash};
      }
    }

    /** FlushToDB: delete all rows and insert the snapshot's, in one transaction. */
    method FlushToDB(db: Database, ok: nat -> bool, landed: bool) returns (ghost rows: seq<PeerRow>, ghost outcome: Outcome)
      modifies db`table
      ensures outcome.Fits(ok, |rows| + 4)
      ensures !outcome.Stopped? ==> IsTableOf(peers, rows)
      ensures db.table == if outcome.Persisted(landed) then rows else old(db.table)
    {
      rows, outcome := [], Committed;
      var snapshot := SnapshotPeers();
      if !ok(0) || !ok(1) || !ok(2) {
        outcome := Stopped(if !ok(0) then 0 else if !ok(1) then 1 else 2);
        return;
      }
      var tx: seq<PeerRow>, n: nat := [], 3;
      var todo := snapshot.Keys;
      while todo != {}
        invariant todo <= snapshot.Keys && db.table == old(db.table)
        invariant Inserted(snapshot, todo, tx) && n == |tx| + 3 && OkUpTo(ok, n)
      {
        var hash :| hash in todo;
        var inserted, done;
        done, inserted, n := InsertSwarm(hash, snapshot[hash], ok, n);
        if !done {
          outcome := Stopped(n);
          return;
        }
        SwarmInserted(snapshot, todo, tx, hash, inserted);
        tx := tx + inserted;
        todo := todo - {hash};
      }
      rows := tx;
      if !ok(n) {
        outcome := CommitFailed(n);
      }
      if ok(n) || landed {
        db.table := tx;
      }
    }

    /** The inner loop of FlushToDB. */
    method InsertSwarm(hash: string, swarm: Swarm, ok: nat -> bool, n0: nat)
      returns (done: bool, rows: seq<PeerRow>, n: nat)
      requires OkUpTo(ok, n0)
      ensures done ==> InsertedOf(hash, swarm, {}, rows) && n == n0 + |rows| && OkUpTo(ok, n)
      ensures !done ==> !ok(n)
    {
      rows, n := [], n0;
      var todo := swarm.Keys;
      while todo != {}
        invariant todo <= swarm.Keys && InsertedOf(hash, swarm, todo, rows) && n == n0 + |rows| && OkUpTo(ok, n)
      {
        var id :| id in todo;
        if !ok(n) {
          return false, rows, n;
        }
        RowInserted(hash, swarm, todo, rows, id);
        rows := rows + [PeerRow(hash, id, swarm[id])];
        todo := todo - {id};
        n := n + 1;
      }
      done := true;
    }

    /**
     * LoadFromDB: the query may fail, a row may not scan and is then skipped, and the iteration may
     * stop early, which is an error that ends the program.
     */
    method LoadFromDB(db: Database, queryOk: bool, scans: seq<bool>, reached: nat) returns (ok: bool)
      requires |scans| == |db.table| && reached <= |db.table|
      modifies this`peers
      ensures ok <==> queryOk && reached == |db.table|
      ensures peers == if queryOk then LoadRows(old(peers), Scanned(db.table[..reached], scans[..reached])) else old(peers)
    {
      if !queryOk {
        return false;
      }
      var i := 0;
      while i < reached
        invariant 0 <= i <= reached
        invariant peers == LoadRows(old(peers), Scanned(db.table[..i], scans[..i]))
      {
        ScannedNext(db.table, scans, i);
        if scans[i] {
          LoadNext(old(peers), Scanned(db.table[..i], scans[..i]), db.table[i]);
          UpdatePeer(db.table[i].hash, db.table[i].id, db.table[i].peer);
        }
        i := i + 1;
      }
      ok := reached == |db.table|;
    }
  }

  lemma BackupRow(rows: seq<Row>, payload: Users, todo: set<string>, id: string)
    requires id in todo && id in payload
    requires AreRowsFor(rows, map u | u in payload && u !in todo :: payload[u])
    ensures AreRowsFor(rows + [Row(id, payload[id])], map u | u in payload && u !in todo - {id} :: payload[u])
  {
    var now, next := map u | u in payload && u !in todo :: payload[u], rows + [Row(id, payload[id])];
    forall u | u in payload && u !in todo - {id}
      ensures exists i :: 0 <= i < |next| && next[i].user == u
    {
      if u == id {
        assert next[|rows|].user == u;
      } else {
        assert u in now;
        var i :| 0 <= i < |rows| && rows[i].user == u;
        assert next[i].user == u;
      }
    }
  }

  // ---- A restart ----

  /** Forget the swarms that have no peer. */
  function Occupied(peers: Swarms): Swarms {
    map h | h in peers && peers[h] != map[] :: peers[h]
  }

  ghost predicate NoEmptySwarm(peers: Swarms) {
    forall h :: h in peers ==> peers[h] != map[]
  }

  lemma {:induction false} LoadedSwarmsOccupied(rows: seq<PeerRow>)
    ensures NoEmptySwarm(LoadRows(map[], rows))
  {
    if rows != [] {
      var init, last := rows[..|rows| - 1], rows[|rows| - 1];
      LoadedSwarmsOccupied(init);
      var loaded := LoadRows(map[], rows);
      assert last.id in loaded[last.hash];
    }
  }

  lemma LastRowOfKey(rows: seq<PeerRow>, row: PeerRow, hash: string, id: string, p: Peer)
    requires OneRowPerKey(rows + [row])
    ensures OneRowPerKey(rows)
    ensures row.hash == hash && row.id == id ==> (PeerRow(hash, id, p) in rows + [row] <==> p == row.peer)
    ensures row.hash != hash || row.id != id ==> (PeerRow(hash, id, p) in rows + [row] <==> PeerRow(hash, id, p) in rows)
  {
    var all := rows + [row];
    assert forall i :: 0 <= i < |rows| ==> all[i] == rows[i];
    assert all[|rows|] == row;
  }

  lemma {:induction false} LoadedRows(rows: seq<PeerRow>, hash: string, id: string, p: Peer)
    requires OneRowPerKey(rows)
    ensures Find(LoadRows(map[], rows), hash, id) == Some(p) <==> PeerRow(hash, id, p) in rows
  {
    if rows != [] {
      var init, last := rows[..|rows| - 1], rows[|rows| - 1];
      assert rows == init + [last];
      LastRowOfKey(init, last, hash, id, p);
      LoadedRows(init, hash, id, p);
    }
  }

  lemma SameSwarms(a: Swarms, b: Swarms)
    requires NoEmptySwarm(a) && NoEmptySwarm(b)
    requires forall h, id :: Find(a, h, id) == Find(b, h, id)
    ensures a == b
  {
    forall h
      ensures h in a <==> h in b
      ensures h in a ==> a[h] == b[h]
    {
      if h in a {
        SameSwarm(a, b, h);
      }
      if h in b {
        SameSwarm(b, a, h);
      }
    }
  }

  lemma SameSwarm(a: Swarms, b: Swarms, h: string)
    requires NoEmptySwarm(a) && h in a && forall id :: Find(a, h, id) == Find(b, h, id)
    ensures h in b && a[h] == b[h]
  {
    assert a[h].Keys != {};
    var id :| id in a[h];
    assert Find(a, h, id) == Find(b, h, id);
    forall x
      ensures x in a[h] <==> x in b[h]
      ensures x in a[h] ==> a[h][x] == b[h][x]
    {
      assert Find(a, h, x) == Find(b, h, x);
    }
  }

  /** Loading what was flushed, every row scanning, gives back every swarm with a peer; every query is answered as before. */
  lemma RestartIsInvisible(peers: Swarms, rows: seq<PeerRow>, scans: seq<bool>, loaded: Swarms)
    requires IsTableOf(peers, rows)
    requires |scans| == |rows| && forall i :: 0 <= i < |scans| ==> scans[i]
    requires loaded == LoadRows(map[], Scanned(rows, scans))
    ensures loaded == Occupied(peers)
    ensures forall h, id :: Find(loaded, h, id) == Find(peers, h, id)
    ensures forall h :: Counts(SwarmOf(loaded, h)) == Counts(SwarmOf(peers, h))
  {
    AllScanned(rows, scans);
    var kept := Occupied(peers);
    forall h, id
      ensures Find(loaded, h, id) == Find(kept, h, id) == Find(peers, h, id)
    {
      SameAnswer(peers, rows, h, id);
    }
    LoadedSwarmsOccupied(rows);
    SameSwarms(loaded, kept);
  }

  lemma SameAnswer(peers: Swarms, rows: seq<PeerRow>, h: string, id: string)
    requires IsTableOf(peers, rows)
    ensures Find(LoadRows(map[], rows), h, id) == Find(peers, h, id)
  {
    var answer := Find(peers, h, id);
    if answer.Some? {
      assert PeerRow(h, id, answer.value) in rows;
      LoadedRows(rows, h, id, answer.value);
    } else if Find(LoadRows(map[], rows), h, id).Some? {
      LoadedRows(rows, h, id, Find(LoadRows(map[], rows), h, id).value);
    }
  }

  // ---- What one peer earns ----

  /** The announces of one peer, one after another. */
  function AnnounceAll(m: Memory, hash: string, id: string, user: string, reports: seq<Peer>): Memory
    decreases |reports|
  {
    if reports == [] then m
    else AnnounceAll(Announced(m, hash, id, user, false, reports[0]), hash, id, user, reports[1..])
  }

  function Counter(p: Peer, part: Part): int {
    if part.Up? then p.uploaded else p.downloaded
  }

  /** All increases, and all decreases, along a sequence of reports. */
  function Rises(first: Peer, reports: seq<Peer>, part: Part): nat
    decreases |reports|
  {
    if reports == [] then 0
    else Clamp(Counter(reports[0], part) - Counter(first, part)) + Rises(reports[0], reports[1..], part)
  }

  function Drops(first: Peer, reports: seq<Peer>, part: Part): nat
    decreases |reports|
  {
    if reports == [] then 0
    else Clamp(Counter(first, part) - Counter(reports[0], part)) + Drops(reports[0], reports[1..], part)
  }

  function Last(first: Peer, reports: seq<Peer>): Peer {
    if reports == [] then first else reports[|reports| - 1]
  }

  /** A user is credited the increases: last minus first, plus whatever the client's counter dropped. */
  lemma {:induction false} CreditsTelescope(m: Memory, hash: string, id: string, user: string, first: Peer, reports: seq<Peer>, part: Part)
    requires Find(m.peers, hash, id) == Some(first) && user != ""
    ensures Of(AnnounceAll(m, hash, id, user, reports).users, user, part)
            == Of(m.users, user, part) + Rises(first, reports, part)
    ensures Rises(first, reports, part)
            == Counter(Last(first, reports), part) - Counter(first, part) + Drops(first, reports, part)
    decreases |reports|
  {
    if reports != [] {
      var next := Announced(m, hash, id, user, false, reports[0]);
      AnnounceCredits(m, hash, id, user, first, reports[0], part);
      CreditsTelescope(next, hash, id, user, reports[0], reports[1..], part);
    }
  }

  lemma AnnounceCredits(m: Memory, hash: string, id: string, user: string, first: Peer, report: Peer, part: Part)
    requires Find(m.peers, hash, id) == Some(first) && user != ""
    ensures Find(Announced(m, hash, id, user, false, report).peers, hash, id) == Some(report)
    ensures Of(Announced(m, hash, id, user, false, report).users, user, part)
            == Of(m.users, user, part) + Clamp(Counter(report, part) - Counter(first, part))
  {
  }
}
