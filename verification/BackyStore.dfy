/** The tables of modules/backy2/files/sql.py as values: versions, tags, blocks and the queue
    of deleted blocks, and what each statement of the backend does to them. */
module BackyStore {
  import opened Common
  import opened Sums

  /** A null uid marks a sparse block. */
  datatype Block = Block(
    uid: Option<string>, checksum: Option<string>, size: nat, valid: bool, encVersion: nat, encKey: string, encNonce: string)

  datatype Version = Version(
    name: string, snapshotName: string, size: nat, sizeBytes: nat, valid: bool, protected: bool)

  datatype Queued = Queued(uid: string, size: nat, time: int)

  /** Primary key of the blocks table: version uid and block id. */
  type Key = (string, nat)

  datatype Store = Store(
    versions: map<string, Version>, tags: set<(string, string)>, blocks: map<Key, Block>, deleted: multiset<Queued>)

  const Empty := Store(map[], {}, map[], multiset{})

  // ---------------------------------------------------------------- queries

  function KeysOf(blocks: map<Key, Block>, v: string): set<Key>
  {
    set k | k in blocks && k.0 == v
  }

  predicate Holds(b: Block, uid: string)
  {
    b.uid == Some(uid)
  }

  function Refs(blocks: map<Key, Block>): set<string>
  {
    set k | k in blocks && blocks[k].uid.Some? :: blocks[k].uid.value
  }

  function RefsOf(blocks: map<Key, Block>, v: string): set<string>
  {
    set k | k in blocks && k.0 == v && blocks[k].uid.Some? :: blocks[k].uid.value
  }

  function Without(blocks: map<Key, Block>, v: string): map<Key, Block>
  {
    map k | k in blocks && k.0 != v :: blocks[k]
  }

  /** The uids that only `v` holds. */
  function Exclusive(blocks: map<Key, Block>, v: string): set<string>
  {
    RefsOf(blocks, v) - Refs(Without(blocks, v))
  }

  function Candidates(s: Store, dt: int, now: int): set<string>
  {
    set r | r in s.deleted && r.uid !in Refs(s.blocks) && r.time < now - dt :: r.uid
  }

  predicate IsSmallest(m: nat, ids: set<nat>)
  {
    m in ids && forall i: nat :: i in ids ==> m <= i
  }

  function SmallestId(ids: set<nat>): (m: nat)
    requires ids != {}
    ensures IsSmallest(m, ids)
  {
    HasSmallest(ids);
    var m: nat :| m in ids && IsSmallest(m, ids);
    m
  }

  lemma {:induction false} HasSmallest(ids: set<nat>)
    requires ids != {}
    ensures exists m: nat :: m in ids && IsSmallest(m, ids)
    decreases |ids|
  {
    var x: nat :| x in ids;
    var rest := ids - {x};
    if rest == {} {
      assert ids == {x};
      assert IsSmallest(x, ids);
    } else {
      HasSmallest(rest);
      var m: nat :| m in rest && IsSmallest(m, rest);
      assert forall i: nat :: i in ids ==> i == x || i in rest;
      assert IsSmallest(if m < x then m else x, ids);
    }
  }

  /** Block ids in ascending order. */
  function InOrder(ids: set<nat>): (q: seq<nat>)
    ensures forall i :: i in q <==> i in ids
    ensures |q| == |ids|
    decreases |ids|
  {
    if ids == {} then [] else [SmallestId(ids)] + InOrder(ids - {SmallestId(ids)})
  }

  lemma {:induction false} InOrderIncreases(ids: set<nat>)
    ensures Increasing(InOrder(ids))
    decreases |ids|
  {
    if ids != {} {
      var m := SmallestId(ids);
      InOrderIncreases(ids - {m});
      SmallestFirst(m, InOrder(ids - {m}), ids);
    }
  }

  lemma SmallestFirst(m: nat, tail: seq<nat>, ids: set<nat>)
    requires IsSmallest(m, ids) && Increasing(tail) && forall i :: i in tail ==> i in ids - {m}
    ensures Increasing([m] + tail)
  {
    forall j | 0 <= j < |tail| ensures m < tail[j] {
      assert tail[j] in tail;
    }
  }

  function Ids(blocks: map<Key, Block>, v: string): set<nat>
  {
    set k | k in blocks && k.0 == v :: k.1
  }

  // ---------------------------------------------------------------- statements

  /** What a copied block keeps: set_block is called without any encryption field. */
  function Plain(b: Block): Block
  {
    Block(b.uid, b.checksum, b.size, b.valid, 0, "", "")
  }

  /** The blocks of `v` in id order, as get_blocks_by_version yields them. */
  function Ordered(blocks: map<Key, Block>, v: string): (rows: seq<Block>)
    ensures |rows| == |Ids(blocks, v)|
  {
    var ids := InOrder(Ids(blocks, v));
    seq(|ids|, (i: nat) requires i < |ids| => assert ids[i] in ids; blocks[(v, ids[i])])
  }

  /** The rows copy_version adds: the blocks of the original in id order, numbered from zero. */
  function Copies(rows: seq<Block>, to: string, n: nat): (c: map<Key, Block>)
    requires n <= |rows|
    ensures forall k :: k in c <==> k.0 == to && k.1 < n
    ensures forall i: nat :: i < n ==> c[(to, i)] == Plain(rows[i])
  {
    if n == 0 then map[] else Copies(rows, to, n - 1)[(to, n - 1) := Plain(rows[n - 1])]
  }

  function CopyVersion(s: Store, from: string, to: string, name: string, snapshot: string): Store
    requires from in s.versions
  {
    var o := s.versions[from];
    s.(versions := s.versions[to := Version(name, snapshot, o.size, o.sizeBytes, o.valid, false)],
       blocks := s.blocks + Copies(Ordered(s.blocks, from), to, |Ordered(s.blocks, from)|))
  }

  /** The queue row for a removed block; only a non-empty uid gets one. */
  predicate Queues(b: Block, row: Queued, now: int)
  {
    b.uid.Some? && b.uid.value != "" && row == Queued(b.uid.value, b.size, now)
  }

  function Queuing(blocks: map<Key, Block>, keys: set<Key>, row: Queued, now: int): set<Key>
  {
    set k | k in keys && k in blocks && Queues(blocks[k], row, now)
  }

  /** `t` is `s` after rm_version(v) at time `now`. */
  ghost predicate Removed(s: Store, t: Store, v: string, now: int)
  {
    && t.versions == s.versions - {v}
    && t.tags == (set x | x in s.tags && x.0 != v)
    && t.blocks == Without(s.blocks, v)
    && forall row :: t.deleted[row] == s.deleted[row] + |Queuing(s.blocks, KeysOf(s.blocks, v), row, now)|
  }

  /** `t` is `s` with exactly the queue rows for which `drop` holds gone. */
  ghost predicate Purged(s: Store, t: Store, drop: Queued -> bool)
  {
    && t == s.(deleted := t.deleted)
    && forall row :: t.deleted[row] == if drop(row) then 0 else s.deleted[row]
  }

  function FalsePositive(s: Store, dt: int, now: int): Queued -> bool
  {
    (row: Queued) => row.uid in Refs(s.blocks) && row.time < now - dt
  }

  function Invalidated(s: Store, uid: string, checksum: Option<string>): map<Key, Block>
  {
    map k | k in s.blocks ::
      if Holds(s.blocks[k], uid) && s.blocks[k].checksum == checksum then s.blocks[k].(valid := false) else s.blocks[k]
  }

  // ---------------------------------------------------------------- space accounting

  /** A block uid determines its size. */
  ghost predicate OneSize(blocks: map<Key, Block>)
  {
    forall k, l :: k in blocks && l in blocks && blocks[k].uid.Some? && blocks[k].uid == blocks[l].uid
                   ==> blocks[k].size == blocks[l].size
  }

  ghost function SizeOf(blocks: map<Key, Block>): string -> nat
  {
    (uid: string) => if exists k :: k in blocks && Holds(blocks[k], uid)
                     then var k :| k in blocks && Holds(blocks[k], uid); blocks[k].size
                     else 0
  }

  ghost function BlockSize(blocks: map<Key, Block>): Key -> nat
  {
    (k: Key) => if k in blocks then blocks[k].size else 0
  }

  /** Total size of what is stored: each referenced uid once. */
  ghost function StoredBytes(blocks: map<Key, Block>): nat
  {
    Sum(Refs(blocks), SizeOf(blocks))
  }

  /** The blocks of `v` whose uid is in `uids`. */
  function KeysIn(blocks: map<Key, Block>, v: string, uids: set<string>): set<Key>
  {
    set k | k in blocks && k.0 == v && blocks[k].uid.Some? && blocks[k].uid.value in uids
  }

  function NullKeys(blocks: map<Key, Block>, v: string): set<Key>
  {
    set k | k in blocks && k.0 == v && blocks[k].uid.None?
  }

  lemma SizeOfHeld(blocks: map<Key, Block>, k: Key)
    requires OneSize(blocks) && k in blocks && blocks[k].uid.Some?
    ensures SizeOf(blocks)(blocks[k].uid.value) == blocks[k].size
  {
    assert Holds(blocks[k], blocks[k].uid.value);
  }

  lemma RefsSplit(blocks: map<Key, Block>, v: string)
    ensures Refs(blocks) == Exclusive(blocks, v) + Refs(Without(blocks, v))
    ensures Exclusive(blocks, v) !! Refs(Without(blocks, v))
  {
    var rest := Without(blocks, v);
    forall u | u in Refs(blocks)
      ensures u in RefsOf(blocks, v) || u in Refs(rest)
    {
      var k :| k in blocks && blocks[k].uid == Some(u);
      if k.0 != v { assert k in rest && rest[k].uid == Some(u); }
    }
    forall u | u in Refs(rest)
      ensures u in Refs(blocks)
    {
      var k :| k in rest && rest[k].uid == Some(u);
      assert blocks[k].uid == Some(u);
    }
  }

  lemma SameSizes(blocks: map<Key, Block>, v: string, u: string)
    requires OneSize(blocks) && u in Refs(Without(blocks, v))
    ensures SizeOf(Without(blocks, v))(u) == SizeOf(blocks)(u)
  {
    var rest := Without(blocks, v);
    var k :| k in rest && rest[k].uid == Some(u);
    SizeOfHeld(blocks, k);
    SizeOfHeld(rest, k);
  }

  /** What removal frees: the stored total drops by exactly the uids no other version holds. */
  lemma RemovalFreesExclusive(blocks: map<Key, Block>, v: string)
    requires OneSize(blocks)
    ensures StoredBytes(blocks) == StoredBytes(Without(blocks, v)) + Sum(Exclusive(blocks, v), SizeOf(blocks))
  {
    var rest := Without(blocks, v);
    RefsSplit(blocks, v);
    SumUnion(Exclusive(blocks, v), Refs(rest), SizeOf(blocks));
    forall u | u in Refs(rest) ensures SizeOf(rest)(u) == SizeOf(blocks)(u) {
      SameSizes(blocks, v, u);
    }
    SumEqual(Refs(rest), SizeOf(rest), SizeOf(blocks));
  }

  lemma QueuedByRemoval(s: Store, t: Store, v: string, now: int, row: Queued)
    requires Removed(s, t, v, now)
    ensures row in t.deleted <==> row in s.deleted || Queuing(s.blocks, KeysOf(s.blocks, v), row, now) != {}
  {
    assert t.deleted[row] == s.deleted[row] + |Queuing(s.blocks, KeysOf(s.blocks, v), row, now)|;
  }

  /** Once `dt` has passed, the uids that became deletable through the removal are exactly the
      non-empty ones no other version held. */
  lemma RemovalQueuesExclusive(s: Store, t: Store, v: string, now: int, dt: int, later: int)
    requires Removed(s, t, v, now) && now < later - dt
    requires forall row :: row in s.deleted ==> row.uid != ""
    ensures Candidates(t, dt, later) - Candidates(s, dt, later) == Exclusive(s.blocks, v) - {""}
  {
    RefsSplit(s.blocks, v);
    forall u | u in Exclusive(s.blocks, v) - {""}
      ensures u in Candidates(t, dt, later) && u !in Candidates(s, dt, later)
    {
      var k :| k in s.blocks && k.0 == v && s.blocks[k].uid == Some(u);
      var row := Queued(u, s.blocks[k].size, now);
      assert k in Queuing(s.blocks, KeysOf(s.blocks, v), row, now);
      QueuedByRemoval(s, t, v, now, row);
    }
    forall u | u in Candidates(t, dt, later) && u !in Candidates(s, dt, later)
      ensures u in Exclusive(s.blocks, v) - {""}
    {
      var row :| row in t.deleted && row.uid == u && row.uid !in Refs(t.blocks) && row.time < later - dt;
      QueuedByRemoval(s, t, v, now, row);
      if row !in s.deleted {
        var k :| k in Queuing(s.blocks, KeysOf(s.blocks, v), row, now);
        assert u in RefsOf(s.blocks, v);
      }
    }
  }

  /** What du says a removal frees is the total size of the uids that become deletable through it,
      unless a block has the empty uid, which is counted but never queued. */
  lemma FreedIsNewCandidates(s: Store, t: Store, v: string, now: int, dt: int, later: int)
    requires Removed(s, t, v, now) && now < later - dt
    requires forall row :: row in s.deleted ==> row.uid != ""
    ensures Sum(Exclusive(s.blocks, v), SizeOf(s.blocks))
              == Sum(Candidates(t, dt, later) - Candidates(s, dt, later), SizeOf(s.blocks))
            <==> "" !in Exclusive(s.blocks, v) || SizeOf(s.blocks)("") == 0
  {
    var excl := Exclusive(s.blocks, v);
    RemovalQueuesExclusive(s, t, v, now, dt, later);
    if "" in excl {
      SumRemove(excl, SizeOf(s.blocks), "");
    } else {
      assert excl - {""} == excl;
    }
  }

  /** A uid that a removal frees is deletable at once, whatever the grace period, exactly when the
      queue holds a row for it that is already old enough. */
  lemma GraceAtRemoval(s: Store, t: Store, v: string, now: int, dt: nat, u: string)
    requires Removed(s, t, v, now) && u in Exclusive(s.blocks, v)
    ensures u in Candidates(t, dt, now) <==> exists row :: row in s.deleted && row.uid == u && row.time < now - dt
  {
    RefsSplit(s.blocks, v);
    if row :| row in t.deleted && row.uid == u && row.time < now - dt {
      QueuedByRemoval(s, t, v, now, row);
    }
    if row :| row in s.deleted && row.uid == u && row.time < now - dt {
      QueuedByRemoval(s, t, v, now, row);
    }
  }

  // ---------------------------------------------------------------- copying

  lemma OrderedHolds(blocks: map<Key, Block>, v: string, u: string)
    ensures u in RefsOf(blocks, v) <==> exists i :: 0 <= i < |Ordered(blocks, v)| && Holds(Ordered(blocks, v)[i], u)
  {
    var ids, rows := InOrder(Ids(blocks, v)), Ordered(blocks, v);
    if u in RefsOf(blocks, v) {
      var k :| k in blocks && k.0 == v && blocks[k].uid == Some(u);
      assert k.1 in Ids(blocks, v) && k.1 in ids;
      var i :| 0 <= i < |ids| && ids[i] == k.1;
      assert Holds(rows[i], u);
    }
    if i :| 0 <= i < |rows| && Holds(rows[i], u) {
      assert ids[i] in ids && ids[i] in Ids(blocks, v);
      assert Holds(blocks[(v, ids[i])], u);
    }
  }

  /** A copy references exactly what the original does. */
  lemma CopiesHold(blocks: map<Key, Block>, from: string, to: string)
    ensures Refs(CopyOf(blocks, from, to)) == RefsOf(blocks, from)
  {
    var rows := Ordered(blocks, from);
    var copies := Copies(rows, to, |rows|);
    forall u ensures u in Refs(copies) <==> u in RefsOf(blocks, from) {
      OrderedHolds(blocks, from, u);
      if u in Refs(copies) {
        var k :| k in copies && copies[k].uid == Some(u);
        assert k == (to, k.1) && Holds(rows[k.1], u);
      }
      if i :| 0 <= i < |rows| && Holds(rows[i], u) {
        assert (to, i) in copies && copies[(to, i)].uid == Some(u);
      }
    }
  }

  lemma RefsOfUnion(a: map<Key, Block>, b: map<Key, Block>)
    requires a.Keys !! b.Keys
    ensures Refs(a + b) == Refs(a) + Refs(b)
  {
    forall u | u in Refs(a) + Refs(b) ensures u in Refs(a + b) {
      if u in Refs(a) {
        var k :| k in a && a[k].uid == Some(u);
        assert (a + b)[k].uid == Some(u);
      } else {
        var k :| k in b && b[k].uid == Some(u);
        assert (a + b)[k].uid == Some(u);
      }
    }
  }

  /** A copy references nothing new: it stores nothing, removing either version then frees
      nothing, and removing the copy restores the blocks table. */
  lemma CopyAddsNoReference(s: Store, from: string, to: string, name: string, snapshot: string)
    requires from in s.versions && from != to && forall k :: k in s.blocks ==> k.0 != to
    ensures var t := CopyVersion(s, from, to, name, snapshot);
            && Refs(t.blocks) == Refs(s.blocks)
            && Without(t.blocks, to) == s.blocks
            && Exclusive(t.blocks, to) == {} && Exclusive(t.blocks, from) == {}
  {
    var rows := Ordered(s.blocks, from);
    CopiesHold(s.blocks, from, to);
    AddingCopies(s.blocks, Copies(rows, to, |rows|), from, to);
  }

  lemma AddingCopies(blocks: map<Key, Block>, copies: map<Key, Block>, from: string, to: string)
    requires from != to
    requires forall k :: k in blocks ==> k.0 != to
    requires forall k :: k in copies ==> k.0 == to
    requires Refs(copies) == RefsOf(blocks, from)
    ensures var t := blocks + copies;
            && Refs(t) == Refs(blocks)
            && Without(t, to) == blocks
            && Exclusive(t, to) == {} && Exclusive(t, from) == {}
  {
    var t := blocks + copies;
    CopyRefs(blocks, copies, from, to);
    RefsOfUnion(blocks, copies);
    RefsOfUnion(Without(blocks, from), copies);
    assert Without(t, to) == blocks;
    assert Without(t, from) == Without(blocks, from) + copies;
  }

  lemma CopyRefs(blocks: map<Key, Block>, copies: map<Key, Block>, from: string, to: string)
    requires from != to
    requires forall k :: k in blocks ==> k.0 != to
    requires forall k :: k in copies ==> k.0 == to
    ensures RefsOf(blocks + copies, from) == RefsOf(blocks, from)
    ensures RefsOf(blocks + copies, to) == Refs(copies)
    ensures RefsOf(blocks, from) <= Refs(blocks)
  {
    var both := blocks + copies;
    forall u | u in RefsOf(blocks, from) ensures u in RefsOf(both, from) {
      var k :| k in blocks && k.0 == from && blocks[k].uid == Some(u);
      assert both[k].uid == Some(u);
    }
    forall u | u in Refs(copies) ensures u in RefsOf(both, to) {
      var k :| k in copies && copies[k].uid == Some(u);
      assert both[k].uid == Some(u);
    }
  }

  /** `id` holds the same block in the copy as in the original, or neither has it. */
  ghost predicate SameAt(blocks: map<Key, Block>, from: string, copies: map<Key, Block>, to: string, id: nat)
  {
    if (from, id) in blocks then (to, id) in copies && copies[(to, id)] == blocks[(from, id)]
    else (to, id) !in copies
  }

  ghost predicate ExactCopy(blocks: map<Key, Block>, from: string, copies: map<Key, Block>, to: string)
  {
    forall id: nat :: SameAt(blocks, from, copies, to, id)
  }

  /** The ids are 0, 1, ..., n-1. */
  ghost predicate Dense(ids: set<nat>)
  {
    forall id :: id in ids ==> id < |ids|
  }

  /** No block of the version carries encryption fields. */
  ghost predicate Unencrypted(blocks: map<Key, Block>, v: string)
  {
    forall id :: id in Ids(blocks, v) ==> Plain(blocks[(v, id)]) == blocks[(v, id)]
  }

  function CopyOf(blocks: map<Key, Block>, from: string, to: string): map<Key, Block>
  {
    var rows := Ordered(blocks, from);
    Copies(rows, to, |rows|)
  }

  lemma CopyAt(blocks: map<Key, Block>, from: string, to: string, id: nat)
    ensures var ids := Ids(blocks, from);
            && ((to, id) in CopyOf(blocks, from, to) <==> id < |ids|)
            && ((from, id) in blocks <==> id in ids)
  {
    assert (from, id) in blocks ==> id in Ids(blocks, from);
  }

  function Below(ids: set<nat>, id: nat): set<nat>
  {
    set i | i in ids && i < id
  }

  /** In increasing order a number has as many before it as there are smaller ones. */
  lemma {:induction false} PlaceOf(ids: set<nat>, id: nat)
    requires id in ids
    ensures |Below(ids, id)| < |ids| && InOrder(ids)[|Below(ids, id)|] == id
    decreases |ids|
  {
    var m := SmallestId(ids);
    if id == m {
      assert Below(ids, id) == {};
    } else {
      PlaceOf(ids - {m}, id);
      BelowNext(ids, m, id);
    }
  }

  lemma BelowNext(ids: set<nat>, m: nat, id: nat)
    requires IsSmallest(m, ids) && id in ids && id != m
    ensures |Below(ids, id)| == |Below(ids - {m}, id)| + 1
  {
    assert Below(ids, id) == Below(ids - {m}, id) + {m};
  }

  /** What a copied block has of its original, which is all but the encryption. */
  ghost predicate Copied(b: Block, c: Block)
  {
    && c.uid == b.uid && c.checksum == b.checksum && c.size == b.size && c.valid == b.valid
    && c.encVersion == 0 && c.encKey == "" && c.encNonce == ""
  }

  /** A block's id in the copy is the number of blocks that come before it in the original. */
  lemma CopiedAt(blocks: map<Key, Block>, from: string, to: string, id: nat)
    requires (from, id) in blocks
    ensures var place := (to, |Below(Ids(blocks, from), id)|);
            place in CopyOf(blocks, from, to) && Copied(blocks[(from, id)], CopyOf(blocks, from, to)[place])
  {
    assert id in Ids(blocks, from);
    PlaceOf(Ids(blocks, from), id);
  }

  /** What copy_version adds: a version with the given names, the sizes and validity of the original
      and no protection, and its blocks; all else stays. */
  lemma CopyAdds(s: Store, from: string, to: string, name: string, snapshot: string)
    requires from in s.versions && to !in s.versions && forall k :: k in s.blocks ==> k.0 != to
    ensures var t, o := CopyVersion(s, from, to, name, snapshot), s.versions[from];
            && t.tags == s.tags && t.deleted == s.deleted
            && t.versions.Keys == s.versions.Keys + {to} && (forall v :: v in s.versions ==> t.versions[v] == s.versions[v])
            && t.versions[to].name == name && t.versions[to].snapshotName == snapshot && !t.versions[to].protected
            && t.versions[to].size == o.size && t.versions[to].sizeBytes == o.sizeBytes && t.versions[to].valid == o.valid
            && (forall k :: k in s.blocks ==> k in t.blocks && t.blocks[k] == s.blocks[k])
            && (forall k :: k in t.blocks && k !in s.blocks ==> k.0 == to && k.1 < |Ids(s.blocks, from)|)
            && (forall id: nat :: (from, id) in s.blocks ==>
                  var place := (to, |Below(Ids(s.blocks, from), id)|);
                  place in t.blocks && Copied(s.blocks[(from, id)], t.blocks[place]))
  {
    forall id: nat | (from, id) in s.blocks
      ensures var place := (to, |Below(Ids(s.blocks, from), id)|);
              place in CopyOf(s.blocks, from, to) && Copied(s.blocks[(from, id)], CopyOf(s.blocks, from, to)[place])
    {
      CopiedAt(s.blocks, from, to, id);
    }
  }

  /** With ids 0, 1, ..., n-1 a block keeps its id, and is the same if it was not encrypted. */
  lemma CopyAtDense(blocks: map<Key, Block>, from: string, to: string, id: nat)
    requires Dense(Ids(blocks, from))
    ensures SameAt(blocks, from, CopyOf(blocks, from, to), to, id)
            <==> ((from, id) in blocks ==> Plain(blocks[(from, id)]) == blocks[(from, id)])
  {
    var q := InOrder(Ids(blocks, from));
    InOrderIncreases(Ids(blocks, from));
    DenseIsIdentity(q);
    CopyAt(blocks, from, to, id);
    if id < |q| {
      assert q[id] == id && id in q;
      assert Ordered(blocks, from)[id] == blocks[(from, id)];
    }
  }

  /** The i-th block of a copy sits at id i and has lost its encryption fields, so a copy holds
      what its original holds exactly when the ids of the original are 0, 1, ..., n-1 and none
      of its blocks is encrypted. */
  lemma CopyIsExact(blocks: map<Key, Block>, from: string, to: string)
    ensures ExactCopy(blocks, from, CopyOf(blocks, from, to), to)
            <==> Dense(Ids(blocks, from)) && Unencrypted(blocks, from)
  {
    var ids, copies := Ids(blocks, from), CopyOf(blocks, from, to);
    if ExactCopy(blocks, from, copies, to) {
      forall id | id in ids ensures id < |ids| {
        CopyAt(blocks, from, to, id);
        assert SameAt(blocks, from, copies, to, id);
      }
      forall id | id in ids ensures Plain(blocks[(from, id)]) == blocks[(from, id)] {
        CopyAtDense(blocks, from, to, id);
        assert SameAt(blocks, from, copies, to, id);
      }
    }
    if Dense(ids) && Unencrypted(blocks, from) {
      forall id: nat ensures SameAt(blocks, from, copies, to, id) {
        CopyAt(blocks, from, to, id);
        CopyAtDense(blocks, from, to, id);
      }
    }
  }

  /** An increasing sequence of numbers below its length is 0, 1, 2, ... */
  lemma {:induction false} DenseIsIdentity(q: seq<nat>)
    requires Increasing(q)
    requires forall x :: x in q ==> x < |q|
    ensures forall i :: 0 <= i < |q| ==> q[i] == i
    decreases |q|
  {
    if q != [] {
      var n := |q| - 1;
      AtLeastIndex(q, n);
      assert q[n] in q;
      forall x | x in q[..n] ensures x < n {
        var i :| 0 <= i < n && q[i] == x;
      }
      DenseIsIdentity(q[..n]);
      assert forall i :: 0 <= i < n ==> q[i] == q[..n][i];
    }
  }

  lemma {:induction false} AtLeastIndex(q: seq<nat>, i: nat)
    requires i < |q| && Increasing(q)
    ensures q[i] >= i
  {
    if i > 0 { AtLeastIndex(q, i - 1); }
  }
}
