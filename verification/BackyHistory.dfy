/** Whole histories of modules/backy2/files/sql.py: which uids are referenced, queued for
    deletion, or handed out to be deleted, after any sequence of operations. */
module BackyHistory {
  import opened BackyStore
  import opened Common

  /** The store with its clock, every uid a block was ever given, and every uid that
      get_delete_candidates ever answered. */
  datatype World = World(s: Store, now: int, ever: set<string>, handed: set<string>)

  datatype Op =
    | Tick(seconds: nat)
    | NewVersion(v: string, row: Version)
    | SetSparse(key: Key, b: Block)
    | SetFresh(key: Key, b: Block)
    | SetFound(key: Key, found: Key, b: Block)  // the uid of a block get_block_by_checksum found
    | Copy(from: string, to: string, name: string, snapshot: string)
    | Rm(v: string)
    | Invalidate(uid: string, checksum: Option<string>)
    | Cleanup(dt: int)
    | HandOut(dt: int)
    | Forget(uids: set<string>)  // del_delete_candidates

  /** Generated uids are new; a found block is there and valid; only handed-out uids are forgotten. */
  ghost predicate Enabled(w: World, op: Op)
  {
    match op
    case Tick(_) => true
    case NewVersion(v, _) => v !in w.s.versions && Unused(w, v)
    case SetSparse(key, b) => key !in w.s.blocks && b.uid.None?
    case SetFresh(key, b) => key !in w.s.blocks && b.uid.Some? && b.uid.value !in w.ever
    case SetFound(key, found, b) =>
      key !in w.s.blocks && found in w.s.blocks && w.s.blocks[found].valid && b.uid == w.s.blocks[found].uid
    case Copy(from, to, _, _) => from in w.s.versions && from != to && to !in w.s.versions && Unused(w, to)
    case Rm(_) => true
    case Invalidate(_, _) => true
    case Cleanup(_) => true
    case HandOut(_) => true
    case Forget(uids) => uids <= w.handed
  }

  ghost predicate Unused(w: World, v: string)
  {
    forall k :: k in w.s.blocks ==> k.0 != v
  }

  function Put(w: World, key: Key, b: Block): World
  {
    w.(s := w.s.(blocks := w.s.blocks[key := b]), ever := w.ever + if b.uid.Some? then {b.uid.value} else {})
  }

  /** `w'` is what `op` makes of `w`. */
  ghost predicate Does(w: World, op: Op, w': World)
  {
    Enabled(w, op) &&
    match op
    case Tick(seconds) => w' == w.(now := w.now + seconds)
    case NewVersion(v, row) => w' == w.(s := w.s.(versions := w.s.versions[v := row]))
    case SetSparse(key, b) => w' == Put(w, key, b)
    case SetFresh(key, b) => w' == Put(w, key, b)
    case SetFound(key, found, b) => w' == Put(w, key, b)
    case Copy(from, to, name, snapshot) => w' == w.(s := CopyVersion(w.s, from, to, name, snapshot))
    case Rm(v) => w' == w.(s := w'.s) && Removed(w.s, w'.s, v, w.now)
    case Invalidate(uid, checksum) =>
      w' == w.(s := w.s.(blocks := Invalidated(w.s, uid, checksum), versions := w'.s.versions))
    case Cleanup(dt) => w' == w.(s := w'.s) && Purged(w.s, w'.s, FalsePositive(w.s, dt, w.now))
    case HandOut(dt) => w' == w.(handed := w.handed + Candidates(w.s, dt, w.now))
    case Forget(uids) => w' == w.(s := w'.s) && Purged(w.s, w'.s, (row: Queued) => row.uid in uids)
  }

  ghost predicate Step(w: World, w': World)
  {
    exists op {:trigger Does(w, op, w')} :: Does(w, op, w')
  }

  /** The worlds of a history, each the outcome of an operation on the one before. */
  ghost predicate History(worlds: seq<World>)
  {
    && worlds != []
    && forall i :: 0 < i < |worlds| ==> Step(worlds[i - 1], worlds[i])
  }

  ghost predicate Waiting(s: Store, u: string)
  {
    exists row :: row in s.deleted && row.uid == u
  }

  /** Nothing is lost: a uid once stored is referenced, queued, or was handed out; and a uid that
      was handed out, whose data may be gone, is never referenced again. */
  ghost predicate Safe(w: World)
  {
    && Refs(w.s.blocks) <= w.ever
    && (forall u :: u in w.ever && u != "" ==> u in Refs(w.s.blocks) || Waiting(w.s, u) || u in w.handed)
    && w.handed !! Refs(w.s.blocks)
    && w.handed <= w.ever
    && (forall row :: row in w.s.deleted ==> row.uid in w.ever && row.uid != "")
  }

  lemma RefsPut(blocks: map<Key, Block>, key: Key, b: Block)
    requires key !in blocks
    ensures Refs(blocks[key := b]) == Refs(blocks) + if b.uid.Some? then {b.uid.value} else {}
  {
    var after := blocks[key := b];
    forall u | u in Refs(blocks) ensures u in Refs(after) {
      var k :| k in blocks && blocks[k].uid == Some(u);
      assert after[k].uid == Some(u);
    }
    assert after[key] == b;
  }

  lemma RefsInvalidated(s: Store, uid: string, checksum: Option<string>)
    ensures Refs(Invalidated(s, uid, checksum)) == Refs(s.blocks)
  {
    var after := Invalidated(s, uid, checksum);
    forall u ensures u in Refs(after) <==> u in Refs(s.blocks) {
      if u in Refs(s.blocks) {
        var k :| k in s.blocks && s.blocks[k].uid == Some(u);
        assert after[k].uid == Some(u);
      }
      if u in Refs(after) {
        var k :| k in after && after[k].uid == Some(u);
        assert s.blocks[k].uid == Some(u);
      }
    }
  }

  lemma PutStaysSafe(w: World, key: Key, b: Block)
    requires Safe(w) && key !in w.s.blocks
    requires b.uid.Some? ==> b.uid.value !in w.handed
    ensures Safe(Put(w, key, b))
  {
    RefsPut(w.s.blocks, key, b);
    forall u | Waiting(w.s, u) ensures Waiting(Put(w, key, b).s, u) {
      var row :| row in w.s.deleted && row.uid == u;
      assert row in Put(w, key, b).s.deleted;
    }
  }

  lemma RmStaysSafe(w: World, v: string, w': World)
    requires Safe(w) && Does(w, Rm(v), w')
    ensures Safe(w')
  {
    RefsSplit(w.s.blocks, v);
    forall u | u in w'.ever && u != "" ensures u in Refs(w'.s.blocks) || Waiting(w'.s, u) || u in w'.handed {
      if Waiting(w.s, u) {
        var row :| row in w.s.deleted && row.uid == u;
        QueuedByRemoval(w.s, w'.s, v, w.now, row);
      } else if u in Exclusive(w.s.blocks, v) {
        var k :| k in w.s.blocks && k.0 == v && w.s.blocks[k].uid == Some(u);
        var row := Queued(u, w.s.blocks[k].size, w.now);
        QueuedByRemoval(w.s, w'.s, v, w.now, row);
        assert k in Queuing(w.s.blocks, KeysOf(w.s.blocks, v), row, w.now);
      }
    }
    forall row | row in w'.s.deleted ensures row.uid in w'.ever && row.uid != "" {
      QueuedByRemoval(w.s, w'.s, v, w.now, row);
      if row !in w.s.deleted {
        var k :| k in Queuing(w.s.blocks, KeysOf(w.s.blocks, v), row, w.now);
        assert w.s.blocks[k].uid == Some(row.uid) && row.uid in Refs(w.s.blocks);
      }
    }
  }

  lemma PurgeStaysSafe(w: World, w': World, drop: Queued -> bool)
    requires Safe(w) && w' == w.(s := w'.s) && Purged(w.s, w'.s, drop)
    requires forall row :: row in w.s.deleted && drop(row) ==> row.uid in Refs(w.s.blocks) || row.uid in w.handed
    ensures Safe(w')
  {
    assert forall row :: row in w'.s.deleted ==> row in w.s.deleted;
    forall u | u in w'.ever && u != "" ensures u in Refs(w'.s.blocks) || Waiting(w'.s, u) || u in w'.handed {
      if Waiting(w.s, u) {
        var row :| row in w.s.deleted && row.uid == u;
        assert drop(row) || w'.s.deleted[row] == w.s.deleted[row];
      }
    }
  }

  lemma StepStaysSafe(w: World, op: Op, w': World)
    requires Safe(w) && Does(w, op, w')
    ensures Safe(w')
  {
    match op
    case Tick(_) => SameQueue(w, w');
    case NewVersion(v, row) => SameQueue(w, w');
    case SetSparse(key, b) => PutStaysSafe(w, key, b);
    case SetFresh(key, b) => PutStaysSafe(w, key, b);
    case SetFound(key, found, b) =>
      assert b.uid.Some? ==> b.uid.value in Refs(w.s.blocks);
      PutStaysSafe(w, key, b);
    case Copy(from, to, name, snapshot) =>
      CopyAddsNoReference(w.s, from, to, name, snapshot);
      SameQueue(w, w');
    case Rm(v) => RmStaysSafe(w, v, w');
    case Invalidate(uid, checksum) =>
      RefsInvalidated(w.s, uid, checksum);
      SameQueue(w, w');
    case Cleanup(dt) => PurgeStaysSafe(w, w', FalsePositive(w.s, dt, w.now));
    case HandOut(dt) => SameQueue(w, w');
    case Forget(uids) => PurgeStaysSafe(w, w', (row: Queued) => row.uid in uids);
  }

  /** Steps that touch neither references nor the queue. */
  lemma SameQueue(w: World, w': World)
    requires Safe(w) && w'.s.deleted == w.s.deleted && Refs(w'.s.blocks) == Refs(w.s.blocks) && w'.ever == w.ever
    requires w.handed <= w'.handed && w'.handed <= w.ever && w'.handed !! Refs(w.s.blocks)
    ensures Safe(w')
  {
    forall u | Waiting(w.s, u) ensures Waiting(w'.s, u) {
      var row :| row in w.s.deleted && row.uid == u;
      assert row in w'.s.deleted;
    }
  }

  /** Over every history from the empty store. */
  lemma {:induction false} HistoriesAreSafe(worlds: seq<World>, i: nat, start: int)
    requires History(worlds) && worlds[0] == World(Empty, start, {}, {}) && i < |worlds|
    ensures Safe(worlds[i])
    decreases i
  {
    if i > 0 {
      HistoriesAreSafe(worlds, i - 1, start);
      var op :| Does(worlds[i - 1], op, worlds[i]);
      StepStaysSafe(worlds[i - 1], op, worlds[i]);
    }
  }

  /** So once handed out, a uid is unreferenced in every later world. */
  lemma {:induction false} HandedNeverReturns(worlds: seq<World>, i: nat, j: nat, start: int, u: string)
    requires History(worlds) && worlds[0] == World(Empty, start, {}, {}) && i <= j < |worlds|
    requires u in worlds[i].handed
    ensures u in worlds[j].handed && u !in Refs(worlds[j].s.blocks)
    decreases j
  {
    HistoriesAreSafe(worlds, j, start);
    if i < j {
      HandedNeverReturns(worlds, i, j - 1, start, u);
      var op :| Does(worlds[j - 1], op, worlds[j]);
    }
  }

  /** Cleaning up drops only rows that can not be candidates now or later while referenced:
      the candidates, for any grace period and time, stay as they were. */
  lemma CleanupKeepsCandidates(s: Store, t: Store, dt: int, now: int, dt': int, later: int)
    requires Purged(s, t, FalsePositive(s, dt, now))
    ensures Candidates(t, dt', later) == Candidates(s, dt', later)
  {
    var drop := FalsePositive(s, dt, now);
    assert forall row :: row in t.deleted ==> row in s.deleted;
    forall u | u in Candidates(s, dt', later) ensures u in Candidates(t, dt', later) {
      var row :| row in s.deleted && row.uid == u && row.uid !in Refs(s.blocks) && row.time < later - dt';
      assert !drop(row);
      assert t.deleted[row] == s.deleted[row];
      assert row in t.deleted;
    }
  }

  // ---------------------------------------------------------------- the grace period

  lemma StepKeepsClock(w: World, op: Op, w': World)
    requires Does(w, op, w')
    ensures w.now <= w'.now
    ensures forall row :: row in w'.s.deleted && row !in w.s.deleted ==> row.time == w.now
  {
    if op.Rm? {
      forall row | row in w'.s.deleted && row !in w.s.deleted ensures row.time == w.now {
        QueuedByRemoval(w.s, w'.s, op.v, w.now, row);
        var k :| k in Queuing(w.s.blocks, KeysOf(w.s.blocks, op.v), row, w.now);
      }
    } else if op.Cleanup? {
      assert forall row :: row in w'.s.deleted ==> row in w.s.deleted;
    } else if op.Forget? {
      assert forall row :: row in w'.s.deleted ==> row in w.s.deleted;
    }
  }

  /** No queue row of `w` is older than `since` unless `first` has it. */
  ghost predicate RowsSince(first: World, since: int, w: World)
  {
    since <= w.now && forall row :: row in w.s.deleted && row !in first.s.deleted ==> row.time >= since
  }

  lemma StepKeepsRows(first: World, since: int, w: World, w': World)
    requires RowsSince(first, since, w) && Step(w, w')
    ensures RowsSince(first, since, w')
  {
    var op :| Does(w, op, w');
    StepKeepsClock(w, op, w');
    forall row | row in w'.s.deleted && row !in first.s.deleted ensures row.time >= since {
      assert row in w.s.deleted || row.time == w.now;
    }
  }

  /** Rows that appear after world `i` are no older than it. */
  lemma {:induction false} NewRowsAreYoung(worlds: seq<World>, i: nat, j: nat)
    requires History(worlds) && i <= j < |worlds|
    ensures RowsSince(worlds[i], worlds[i].now, worlds[j])
    decreases j
  {
    if i < j {
      NewRowsAreYoung(worlds, i, j - 1);
      StepKeepsRows(worlds[i], worlds[i].now, worlds[j - 1], worlds[j]);
    }
  }

  /** If at some time no row older than `since` waits for a uid, none does in any later world, so
      as long as the grace period reaches back to `since` the uid is no candidate. */
  lemma GraceProtects(worlds: seq<World>, i: nat, j: nat, dt: int, u: string)
    requires History(worlds) && i <= j < |worlds|
    requires worlds[j].now - dt <= worlds[i].now
    requires forall row :: row in worlds[i].s.deleted && row.uid == u ==> row.time >= worlds[j].now - dt
    ensures u !in Candidates(worlds[j].s, dt, worlds[j].now)
  {
    NewRowsAreYoung(worlds, i, j);
  }

  const SHARED := Block(Some("u"), Some("c"), 1, true, 0, "", "")
  const NAMED := Version("n", "", 1, 1, true, false)
  const EARLY := Queued("u", 1, 0)
  const LATE := Queued("u", 1, 10000)

  /** From the empty store: version A gets a fresh block, version B finds it by its checksum, A is
      removed, hours pass, B is removed. */
  function StaleRun(): seq<World>
  {
    var a, b := ("A", 0), ("B", 0);
    var both := map["A" := NAMED, "B" := NAMED];
    var s1 := Store(map["A" := NAMED], {}, map[], multiset{});
    var s2 := s1.(blocks := map[a := SHARED]);
    var s3 := s2.(versions := both);
    var s4 := s3.(blocks := map[a := SHARED, b := SHARED]);
    var s5 := Store(map["B" := NAMED], {}, map[b := SHARED], multiset{EARLY});
    var s6 := Store(map[], {}, map[], multiset{EARLY, LATE});
    [World(Empty, 0, {}, {}), World(s1, 0, {}, {}), World(s2, 0, {"u"}, {}), World(s3, 0, {"u"}, {}), World(s4, 0, {"u"}, {}),
     World(s5, 0, {"u"}, {}), World(s5, 10000, {"u"}, {}), World(s6, 10000, {"u"}, {})]
  }

  lemma StaleRunBegins()
    ensures var r := StaleRun();
            Step(r[0], r[1]) && Step(r[1], r[2]) && Step(r[2], r[3]) && Step(r[3], r[4])
  {
    var r := StaleRun();
    assert Does(r[0], NewVersion("A", NAMED), r[1]);
    assert Does(r[1], SetFresh(("A", 0), SHARED), r[2]);
    assert Does(r[2], NewVersion("B", NAMED), r[3]);
    assert Does(r[3], SetFound(("B", 0), ("A", 0), SHARED), r[4]);
  }

  lemma StaleRunIsHistory()
    ensures History(StaleRun())
  {
    var r := StaleRun();
    StaleRunBegins();
    RemovesOne(r[4].s, r[5].s, "A", 0, SHARED, EARLY);
    RemovesOne(r[6].s, r[7].s, "B", 10000, SHARED, LATE);
    assert Does(r[4], Rm("A"), r[5]);
    assert Does(r[5], Tick(10000), r[6]);
    assert Does(r[6], Rm("B"), r[7]);
    assert Step(r[4], r[5]) && Step(r[5], r[6]) && Step(r[6], r[7]);
  }

  /** There the grace period of one hour fails: the block is referenced until the second removal,
      and a candidate at that very moment. */
  lemma StaleRowDefeatsGrace()
    ensures var r := StaleRun();
            && History(r) && r[0] == World(Empty, 0, {}, {}) && "u" in Refs(r[6].s.blocks)
            && r[7].now == r[6].now && "u" in Candidates(r[7].s, 3600, r[7].now)
  {
    var r := StaleRun();
    StaleRunIsHistory();
    assert r[6].s.blocks[("B", 0)].uid == Some("u");
    assert EARLY in r[7].s.deleted;
  }

  lemma RemovesOne(s: Store, t: Store, v: string, now: int, b: Block, row: Queued)
    requires (v, 0) in s.blocks && s.blocks[(v, 0)] == b && KeysOf(s.blocks, v) == {(v, 0)}
    requires Queues(b, row, now)
    requires t.versions == s.versions - {v} && s.tags == t.tags == {} && t.blocks == Without(s.blocks, v)
    requires t.deleted == s.deleted + multiset{row}
    ensures Removed(s, t, v, now)
  {
    forall r ensures t.deleted[r] == s.deleted[r] + |Queuing(s.blocks, KeysOf(s.blocks, v), r, now)| {
      var q := Queuing(s.blocks, KeysOf(s.blocks, v), r, now);
      if r == row {
        assert q == {(v, 0)};
      } else {
        assert q == {};
      }
    }
  }
}
