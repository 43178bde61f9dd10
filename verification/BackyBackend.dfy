/** modules/backy2/files/sql.py: the MetaBackend methods, one session, statements in order. */
module BackyBackend {
  import opened Common
  import opened Sums
  import opened BackyStore

  /** The figures of du, without the rounded backy_space. */
  datatype Usage = Usage(
    realSpace: nat, nullSpace: nat, dedupOwn: nat, dedupOthers: nat, nodedup: nat, spaceFreed: nat)

  // ---------------------------------------------------------------- per-uid amounts of du

  function OwnKeys(blocks: map<Key, Block>, v: string, uid: string): set<Key>
  {
    set k | k in blocks && k.0 == v && Holds(blocks[k], uid)
  }

  function AllKeys(blocks: map<Key, Block>, uid: string): set<Key>
  {
    set k | k in blocks && Holds(blocks[k], uid)
  }

  /** The bytes of `n` blocks of one size. */
  function Product(size: nat, n: nat): nat
  {
    if n == 0 then 0 else size + Product(size, n - 1)
  }

  lemma {:induction false} ProductIsTimes(size: nat, n: nat)
    ensures Product(size, n) == size * n
  {
    if n > 0 {
      ProductIsTimes(size, n - 1);
      assert size * n == size + size * (n - 1);
    }
  }

  ghost function OwnBytes(blocks: map<Key, Block>, v: string): string -> nat
  {
    (uid: string) => Product(SizeOf(blocks)(uid), |OwnKeys(blocks, v, uid)|)
  }

  /** Bytes of the blocks of `v` whose uid is in `uids`. */
  ghost function Bytes(blocks: map<Key, Block>, v: string, uids: set<string>): nat
  {
    Sum(KeysIn(blocks, v, uids), BlockSize(blocks))
  }

  lemma OwnKeysBytes(blocks: map<Key, Block>, v: string, uid: string)
    requires OneSize(blocks)
    ensures Sum(OwnKeys(blocks, v, uid), BlockSize(blocks)) == OwnBytes(blocks, v)(uid)
  {
    forall k | k in OwnKeys(blocks, v, uid) ensures BlockSize(blocks)(k) == SizeOf(blocks)(uid) {
      SizeOfHeld(blocks, k);
    }
    SumConstant(OwnKeys(blocks, v, uid), BlockSize(blocks), SizeOf(blocks)(uid));
    ProductIsTimes(SizeOf(blocks)(uid), |OwnKeys(blocks, v, uid)|);
  }

  /** Adding up block by block or uid by uid gives the same total. */
  lemma BytesGrow(blocks: map<Key, Block>, v: string, uids: set<string>, uid: string)
    requires OneSize(blocks) && uid !in uids
    ensures Bytes(blocks, v, uids + {uid}) == Bytes(blocks, v, uids) + OwnBytes(blocks, v)(uid)
  {
    var a, b := KeysIn(blocks, v, uids), OwnKeys(blocks, v, uid);
    assert KeysIn(blocks, v, uids + {uid}) == a + b;
    SumUnion(a, b, BlockSize(blocks));
    OwnKeysBytes(blocks, v, uid);
  }

  /** A uid is held by another version iff it has more blocks than `v` has of it. */
  lemma SharedIffMore(blocks: map<Key, Block>, v: string, uid: string)
    requires uid in RefsOf(blocks, v)
    ensures OwnKeys(blocks, v, uid) <= AllKeys(blocks, uid)
    ensures 0 < |OwnKeys(blocks, v, uid)| <= |AllKeys(blocks, uid)|
    ensures |AllKeys(blocks, uid)| == |OwnKeys(blocks, v, uid)| <==> uid in Exclusive(blocks, v)
  {
    var own, all := OwnKeys(blocks, v, uid), AllKeys(blocks, uid);
    var k0 :| k0 in blocks && k0.0 == v && blocks[k0].uid == Some(uid);
    assert k0 in own;
    var rest := all - own;
    assert all == own + rest && own !! rest;
    assert |all| == |own| + |rest|;
    forall k | k in rest ensures uid in Refs(Without(blocks, v)) { HeldElsewhere(blocks, v, k); }
    if uid in Refs(Without(blocks, v)) {
      var k :| k in Without(blocks, v) && Without(blocks, v)[k].uid == Some(uid);
      assert k in rest;
    }
  }

  lemma HeldElsewhere(blocks: map<Key, Block>, v: string, k: Key)
    requires k in blocks && k.0 != v && blocks[k].uid.Some?
    ensures blocks[k].uid.value in Refs(Without(blocks, v))
  {
    assert Without(blocks, v)[k] == blocks[k];
  }

  /** The uids that `v` alone holds, in a single block. */
  function Singles(blocks: map<Key, Block>, v: string): set<string>
  {
    set u | u in Exclusive(blocks, v) && |OwnKeys(blocks, v, u)| == 1
  }

  /** The running totals of du once the uids in `done` are accounted for. */
  ghost predicate Tally(blocks: map<Key, Block>, v: string, done: set<string>,
                        total: nat, others: nat, own: nat, nodedup: nat, freed: nat)
  {
    var excl := Exclusive(blocks, v);
    && total == Bytes(blocks, v, done)
    && others == Bytes(blocks, v, done - excl)
    && own + freed == Bytes(blocks, v, done * excl)
    && nodedup == Sum(done * Singles(blocks, v), SizeOf(blocks))
    && freed == Sum(done * excl, SizeOf(blocks))
  }

  lemma TallyNone(blocks: map<Key, Block>, v: string)
    ensures Tally(blocks, v, {}, 0, 0, 0, 0, 0)
  {
    var none: set<string> := {};
    assert KeysIn(blocks, v, none) == {} && none - Exclusive(blocks, v) == none;
    assert none * Exclusive(blocks, v) == none && none * Singles(blocks, v) == none;
  }

  lemma TallyShared(blocks: map<Key, Block>, v: string, done: set<string>, uid: string, mine: nat,
                    total: nat, others: nat, own: nat, nodedup: nat, freed: nat)
    requires OneSize(blocks) && Tally(blocks, v, done, total, others, own, nodedup, freed)
    requires uid !in done && uid !in Exclusive(blocks, v) && mine == OwnBytes(blocks, v)(uid)
    ensures Tally(blocks, v, done + {uid}, total + mine, others + mine, own, nodedup, freed)
  {
    var excl, ones := Exclusive(blocks, v), Singles(blocks, v);
    BytesGrow(blocks, v, done, uid);
    BytesGrow(blocks, v, done - excl, uid);
    WithoutNew(done, uid, excl);
    WithoutNew(done, uid, ones);
  }

  lemma WithoutNew(done: set<string>, uid: string, some: set<string>)
    requires uid !in done
    ensures uid !in some ==> done + {uid} - some == (done - some) + {uid} && (done + {uid}) * some == done * some
    ensures uid in some ==> done + {uid} - some == done - some && (done + {uid}) * some == done * some + {uid}
  {
  }

  lemma TallyExclusive(blocks: map<Key, Block>, v: string, done: set<string>, uid: string, size: nat, more: nat,
                       total: nat, others: nat, own: nat, nodedup: nat, freed: nat)
    requires OneSize(blocks) && Tally(blocks, v, done, total, others, own, nodedup, freed)
    requires uid !in done && uid in Exclusive(blocks, v)
    requires size == SizeOf(blocks)(uid) && size + more == OwnBytes(blocks, v)(uid)
    ensures Tally(blocks, v, done + {uid}, total + size + more, others, own + more,
                  nodedup + (if uid in Singles(blocks, v) then size else 0), freed + size)
  {
    var excl, ones := Exclusive(blocks, v), Singles(blocks, v);
    BytesGrow(blocks, v, done, uid);
    BytesGrow(blocks, v, done * excl, uid);
    WithoutNew(done, uid, excl);
    WithoutNew(done, uid, ones);
    SumAdd(done * excl, SizeOf(blocks), uid);
    SumAdd(done * ones, SizeOf(blocks), uid);
  }

  /** The step that du takes for a uid that other versions hold too. */
  lemma NextShared(blocks: map<Key, Block>, v: string, done: set<string>, uid: string, size: nat, n: nat,
                   total: nat, others: nat, own: nat, nodedup: nat, freed: nat)
    requires OneSize(blocks) && Tally(blocks, v, done, total, others, own, nodedup, freed)
    requires uid !in done && uid in RefsOf(blocks, v) && size == SizeOf(blocks)(uid)
    requires n == |OwnKeys(blocks, v, uid)| != |AllKeys(blocks, uid)|
    ensures Tally(blocks, v, done + {uid}, total + Product(size, n), others + Product(size, n), own, nodedup, freed)
  {
    SharedIffMore(blocks, v, uid);
    TallyShared(blocks, v, done, uid, Product(size, n), total, others, own, nodedup, freed);
  }

  lemma ProductStep(size: nat, n: nat)
    requires n > 0
    ensures Product(size, n) == size + Product(size, n - 1) && Product(size, 0) == 0
  {
  }

  /** The step that du takes for a uid that no other version holds. */
  lemma NextExclusive(blocks: map<Key, Block>, v: string, done: set<string>, uid: string, size: nat, n: nat,
                      total: nat, others: nat, own: nat, nodedup: nat, freed: nat)
    requires OneSize(blocks) && Tally(blocks, v, done, total, others, own, nodedup, freed)
    requires uid !in done && uid in RefsOf(blocks, v) && size == SizeOf(blocks)(uid)
    requires n == |OwnKeys(blocks, v, uid)| == |AllKeys(blocks, uid)|
    ensures n > 0
    ensures Tally(blocks, v, done + {uid}, total + Product(size, n), others, own + Product(size, n - 1),
                  nodedup + (if n == 1 then size else 0), freed + size)
  {
    SharedIffMore(blocks, v, uid);
    ProductStep(size, n);
    assert uid in Singles(blocks, v) <==> n == 1;
    TallyExclusive(blocks, v, done, uid, size, Product(size, n - 1), total, others, own, nodedup, freed);
  }

  /** The running totals of du's second loop. */
  datatype Totals = Totals(total: nat, others: nat, own: nat, nodedup: nat, freed: nat)

  /** The totals after a row of `n` blocks of a uid that has `shared` blocks in all. */
  function AfterRow(t: Totals, size: nat, n: nat, shared: nat): Totals
    requires 0 < n <= shared
  {
    var total := t.total + Product(size, n);
    if shared > n then t.(total := total, others := t.others + Product(size, n))
    else if n > 1 then t.(total := total, own := t.own + Product(size, n - 1), freed := t.freed + size)
    else t.(total := total, nodedup := t.nodedup + size, freed := t.freed + size)
  }

  lemma RowBalances(t: Totals, size: nat, n: nat, shared: nat)
    requires 0 < n <= shared && t.total == t.others + t.own + t.freed
    ensures var t' := AfterRow(t, size, n, shared);
            t'.total == t.total + Product(size, n) == t'.others + t'.own + t'.freed
  {
    ProductStep(size, n);
  }

  lemma RowTallied(blocks: map<Key, Block>, v: string, done: set<string>, uid: string, size: nat, n: nat, t: Totals)
    requires OneSize(blocks) && Tallied(blocks, v, done, t)
    requires uid !in done && uid in RefsOf(blocks, v) && size == SizeOf(blocks)(uid)
    requires 0 < n == |OwnKeys(blocks, v, uid)| <= |AllKeys(blocks, uid)|
    ensures Tallied(blocks, v, done + {uid}, AfterRow(t, size, n, |AllKeys(blocks, uid)|))
  {
    if |AllKeys(blocks, uid)| > n {
      SharedRowTallied(blocks, v, done, uid, size, n, t);
    } else {
      ExclusiveRowTallied(blocks, v, done, uid, size, n, t);
    }
  }

  lemma SharedRowTallied(blocks: map<Key, Block>, v: string, done: set<string>, uid: string, size: nat, n: nat, t: Totals)
    requires OneSize(blocks) && Tallied(blocks, v, done, t)
    requires uid !in done && uid in RefsOf(blocks, v) && size == SizeOf(blocks)(uid)
    requires 0 < n == |OwnKeys(blocks, v, uid)| < |AllKeys(blocks, uid)|
    ensures Tallied(blocks, v, done + {uid}, AfterRow(t, size, n, |AllKeys(blocks, uid)|))
  {
    NextShared(blocks, v, done, uid, size, n, t.total, t.others, t.own, t.nodedup, t.freed);
  }

  lemma ExclusiveRowTallied(blocks: map<Key, Block>, v: string, done: set<string>, uid: string, size: nat, n: nat, t: Totals)
    requires OneSize(blocks) && Tallied(blocks, v, done, t)
    requires uid !in done && uid in RefsOf(blocks, v) && size == SizeOf(blocks)(uid)
    requires 0 < n == |OwnKeys(blocks, v, uid)| == |AllKeys(blocks, uid)|
    ensures Tallied(blocks, v, done + {uid}, AfterRow(t, size, n, n))
  {
    ExclusiveRow(t, size, n);
    NextExclusive(blocks, v, done, uid, size, n, t.total, t.others, t.own, t.nodedup, t.freed);
  }

  lemma ExclusiveRow(t: Totals, size: nat, n: nat)
    requires 0 < n
    ensures AfterRow(t, size, n, n) == Totals(t.total + Product(size, n), t.others, t.own + Product(size, n - 1),
                                              t.nodedup + (if n == 1 then size else 0), t.freed + size)
  {
    ProductStep(size, n);
  }

  ghost predicate Tallied(blocks: map<Key, Block>, v: string, done: set<string>, t: Totals)
  {
    Tally(blocks, v, done, t.total, t.others, t.own, t.nodedup, t.freed)
  }

  /** The state of du's second loop: `groups` are the rows to come. */
  ghost predicate Counted(blocks: map<Key, Block>, v: string, groups: set<(string, nat)>, done: set<string>, t: Totals)
  {
    && groups <= Groups(blocks, v)
    && t.total == Sum(KeysOfGroups(blocks, v, Groups(blocks, v) - groups), BlockSize(blocks)) == t.others + t.own + t.freed
    && (OneSize(blocks) ==> Pending(blocks, v, groups, done) && Tallied(blocks, v, done, t))
  }

  lemma NothingCounted(blocks: map<Key, Block>, v: string)
    ensures Counted(blocks, v, Groups(blocks, v), {}, Totals(0, 0, 0, 0, 0))
  {
    TallyNone(blocks, v);
    if OneSize(blocks) { GroupsAreRefs(blocks, v); }
    assert KeysOfGroups(blocks, v, Groups(blocks, v) - Groups(blocks, v)) == {};
  }

  /** What the row says of its uid. */
  lemma RowFacts(blocks: map<Key, Block>, v: string, groups: set<(string, nat)>, done: set<string>, g: (string, nat))
    requires groups <= Groups(blocks, v) && g in groups
    requires OneSize(blocks) ==> Pending(blocks, v, groups, done)
    ensures 0 < |GroupKeys(blocks, v, g)| <= |AllKeys(blocks, g.0)|
    ensures OneSize(blocks) ==>
              && g.0 !in done && g.0 in RefsOf(blocks, v) && g.1 == SizeOf(blocks)(g.0)
              && GroupKeys(blocks, v, g) == OwnKeys(blocks, v, g.0)
              && Pending(blocks, v, groups - {g}, done + {g.0})
  {
    OneMoreGroup(blocks, v, {}, g);
    var mine, all := GroupKeys(blocks, v, g), AllKeys(blocks, g.0);
    assert all == mine + (all - mine);
    if OneSize(blocks) {
      NextPending(blocks, v, groups, done, g);
      GroupIsOwn(blocks, v, g);
    }
  }

  lemma RowCounted(blocks: map<Key, Block>, v: string, groups: set<(string, nat)>, done: set<string>, g: (string, nat), t: Totals)
    requires g in groups && Counted(blocks, v, groups, done, t)
    ensures var n, shared := |GroupKeys(blocks, v, g)|, |AllKeys(blocks, g.0)|;
            0 < n <= shared && Counted(blocks, v, groups - {g}, done + {g.0}, AfterRow(t, g.1, n, shared))
  {
    var n, shared := |GroupKeys(blocks, v, g)|, |AllKeys(blocks, g.0)|;
    RowFacts(blocks, v, groups, done, g);
    RowBalances(t, g.1, n, shared);
    OneMoreGroup(blocks, v, Groups(blocks, v) - groups, g);
    assert Groups(blocks, v) - (groups - {g}) == Groups(blocks, v) - groups + {g};
    if OneSize(blocks) { RowTallied(blocks, v, done, g.0, g.1, n, t); }
  }

  lemma AllCounted(blocks: map<Key, Block>, v: string, done: set<string>, t: Totals)
    requires Counted(blocks, v, {}, done, t)
    ensures t.total == Bytes(blocks, v, RefsOf(blocks, v)) == t.others + t.own + t.freed
    ensures OneSize(blocks) ==> Attributed(blocks, v, t.others, t.own, t.nodedup, t.freed)
  {
    assert Groups(blocks, v) - {} == Groups(blocks, v);
    assert KeysOfGroups(blocks, v, Groups(blocks, v)) == KeysIn(blocks, v, RefsOf(blocks, v));
    if OneSize(blocks) { TallyAll(blocks, v, done, t.total, t.others, t.own, t.nodedup, t.freed); }
  }

  /** What the figures are if a uid determines the size: the bytes of the uids that other versions
      hold too, the bytes of those this one alone holds, of which one block each is what removing
      the version frees, and the blocks held once. */
  ghost predicate Attributed(blocks: map<Key, Block>, v: string, others: nat, own: nat, nodedup: nat, freed: nat)
  {
    var excl := Exclusive(blocks, v);
    && others == Bytes(blocks, v, RefsOf(blocks, v) - excl)
    && own + freed == Bytes(blocks, v, excl)
    && nodedup == Sum(Singles(blocks, v), SizeOf(blocks))
    && freed == Sum(excl, SizeOf(blocks))
    && StoredBytes(Without(blocks, v)) + freed == StoredBytes(blocks)
  }

  /** The totals once every uid of the version is accounted for. */
  lemma TallyAll(blocks: map<Key, Block>, v: string, done: set<string>,
                 total: nat, others: nat, own: nat, nodedup: nat, freed: nat)
    requires OneSize(blocks) && Tally(blocks, v, done, total, others, own, nodedup, freed) && Pending(blocks, v, {}, done)
    ensures Attributed(blocks, v, others, own, nodedup, freed)
  {
    assert done == RefsOf(blocks, v);
    assert done * Exclusive(blocks, v) == Exclusive(blocks, v) && done * Singles(blocks, v) == Singles(blocks, v);
    RemovalFreesExclusive(blocks, v);
  }

  /** Every uid of the version is accounted for or still has its row to come. */
  ghost predicate Pending(blocks: map<Key, Block>, v: string, groups: set<(string, nat)>, done: set<string>)
  {
    && groups <= Groups(blocks, v) && done <= RefsOf(blocks, v)
    && (forall g :: g in groups ==> g.0 !in done)
    && forall x :: x in RefsOf(blocks, v) ==> x in done || (x, SizeOf(blocks)(x)) in groups
  }

  lemma NextPending(blocks: map<Key, Block>, v: string, groups: set<(string, nat)>, done: set<string>, g: (string, nat))
    requires OneSize(blocks) && Pending(blocks, v, groups, done) && g in groups
    ensures g.0 in RefsOf(blocks, v) && g.0 !in done && SizeOf(blocks)(g.0) == g.1
    ensures Pending(blocks, v, groups - {g}, done + {g.0})
  {
    GroupFacts(blocks, v, g);
    OneGroupLess(blocks, v, groups, g);
  }

  lemma OneGroupLess(blocks: map<Key, Block>, v: string, groups: set<(string, nat)>, g: (string, nat))
    requires OneSize(blocks) && groups <= Groups(blocks, v) && g in groups
    ensures forall h :: h in groups - {g} ==> h.0 != g.0
  {
    forall h | h in groups - {g} ensures h.0 != g.0 {
      GroupFacts(blocks, v, g);
      GroupFacts(blocks, v, h);
    }
  }

  /** Blocks shared with other versions and blocks of `v` alone make up the real blocks. */
  lemma SharedPlusExclusive(blocks: map<Key, Block>, v: string)
    ensures var refs, excl := RefsOf(blocks, v), Exclusive(blocks, v);
            Bytes(blocks, v, refs) == Bytes(blocks, v, refs - excl) + Bytes(blocks, v, excl)
  {
    var refs, excl := RefsOf(blocks, v), Exclusive(blocks, v);
    var a, b := KeysIn(blocks, v, refs - excl), KeysIn(blocks, v, excl);
    assert KeysIn(blocks, v, refs) == a + b;
    SumUnion(a, b, BlockSize(blocks));
  }

  /** One row of the aggregate query: a uid of the version and a size its blocks have. */
  function Groups(blocks: map<Key, Block>, v: string): set<(string, nat)>
  {
    set k | k in blocks && k.0 == v && blocks[k].uid.Some? :: (blocks[k].uid.value, blocks[k].size)
  }

  /** The blocks of the version that a row of the query counts. */
  function GroupKeys(blocks: map<Key, Block>, v: string, g: (string, nat)): set<Key>
  {
    set k | k in blocks && k.0 == v && Holds(blocks[k], g.0) && blocks[k].size == g.1
  }

  function KeysOfGroups(blocks: map<Key, Block>, v: string, groups: set<(string, nat)>): set<Key>
  {
    set k | k in blocks && k.0 == v && blocks[k].uid.Some? && (blocks[k].uid.value, blocks[k].size) in groups
  }

  /** One more row of the query accounts for its blocks. */
  lemma OneMoreGroup(blocks: map<Key, Block>, v: string, done: set<(string, nat)>, g: (string, nat))
    requires g !in done && g in Groups(blocks, v)
    ensures |GroupKeys(blocks, v, g)| > 0
    ensures Sum(KeysOfGroups(blocks, v, done + {g}), BlockSize(blocks))
            == Sum(KeysOfGroups(blocks, v, done), BlockSize(blocks)) + Product(g.1, |GroupKeys(blocks, v, g)|)
  {
    var a, b := KeysOfGroups(blocks, v, done), GroupKeys(blocks, v, g);
    var k :| k in blocks && k.0 == v && blocks[k].uid.Some? && g == (blocks[k].uid.value, blocks[k].size);
    assert k in b;
    assert KeysOfGroups(blocks, v, done + {g}) == a + b;
    SumUnion(a, b, BlockSize(blocks));
    SumConstant(b, BlockSize(blocks), g.1);
    ProductIsTimes(g.1, |b|);
  }

  lemma GroupIsOwn(blocks: map<Key, Block>, v: string, g: (string, nat))
    requires OneSize(blocks) && g in Groups(blocks, v)
    ensures GroupKeys(blocks, v, g) == OwnKeys(blocks, v, g.0)
  {
    var k :| k in blocks && k.0 == v && blocks[k].uid.Some? && g == (blocks[k].uid.value, blocks[k].size);
  }

  lemma GroupFacts(blocks: map<Key, Block>, v: string, g: (string, nat))
    requires OneSize(blocks) && g in Groups(blocks, v)
    ensures g.0 in RefsOf(blocks, v) && SizeOf(blocks)(g.0) == g.1
  {
    var k :| k in blocks && k.0 == v && blocks[k].uid.Some? && g == (blocks[k].uid.value, blocks[k].size);
    SizeOfHeld(blocks, k);
  }

  /** Under one size a uid, a group is a uid. */
  lemma GroupsAreRefs(blocks: map<Key, Block>, v: string)
    requires OneSize(blocks)
    ensures forall u :: u in RefsOf(blocks, v) ==> (u, SizeOf(blocks)(u)) in Groups(blocks, v)
  {
    forall u | u in RefsOf(blocks, v) ensures (u, SizeOf(blocks)(u)) in Groups(blocks, v) {
      var k :| k in blocks && k.0 == v && blocks[k].uid == Some(u);
      SizeOfHeld(blocks, k);
    }
  }

  lemma OneMoreCopy(before: map<Key, Block>, rows: seq<Block>, to: string, i: nat)
    requires i < |rows| && forall k :: k in before ==> k.0 != to
    ensures (to, i) !in before + Copies(rows, to, i)
    ensures before + Copies(rows, to, i + 1) == (before + Copies(rows, to, i))[(to, i) := Plain(rows[i])]
  {
  }

  lemma QueueOne(blocks: map<Key, Block>, affected: set<Key>, todo: set<Key>, k: Key, now: int)
    requires k in todo && todo <= affected && k in blocks
    ensures forall row :: |Queuing(blocks, affected - (todo - {k}), row, now)|
                          == |Queuing(blocks, affected - todo, row, now)| + if Queues(blocks[k], row, now) then 1 else 0
  {
    forall row
      ensures |Queuing(blocks, affected - (todo - {k}), row, now)|
              == |Queuing(blocks, affected - todo, row, now)| + if Queues(blocks[k], row, now) then 1 else 0
    {
      var before, after := Queuing(blocks, affected - todo, row, now), Queuing(blocks, affected - (todo - {k}), row, now);
      assert after == if Queues(blocks[k], row, now) then before + {k} else before;
    }
  }

  /** The versions with those in `bad` marked invalid. */
  function Flagged(versions: map<string, Version>, bad: set<string>): map<string, Version>
  {
    map v | v in versions :: if v in bad then versions[v].(valid := false) else versions[v]
  }

  lemma FlagOne(versions: map<string, Version>, bad: set<string>, v: string)
    requires v in versions && v !in bad
    ensures Flagged(versions, bad + {v}) == Flagged(versions, bad)[v := versions[v].(valid := false)]
  {
  }

  /** The same blocks; only `valid` changes, and only where uid and checksum are the given ones. */
  ghost predicate OnlyInvalidated(before: map<Key, Block>, after: map<Key, Block>, uid: string, checksum: Option<string>)
  {
    && after.Keys == before.Keys
    && forall k :: k in before ==>
         var hit := before[k].uid == Some(uid) && before[k].checksum == checksum;
         after[k] == before[k].(valid := before[k].valid && !hit)
  }

  lemma InvalidatedOnly(s: Store, uid: string, checksum: Option<string>)
    ensures OnlyInvalidated(s.blocks, Invalidated(s, uid, checksum), uid, checksum)
  {
  }

  class MetaBackend {
    var versions: map<string, Version>
    var tags: set<(string, string)>
    var blocks: map<Key, Block>
    var deleted: multiset<Queued>

    constructor ()
      ensures Tables() == Empty
    {
      versions, tags, blocks, deleted := map[], {}, map[], multiset{};
    }

    ghost function Tables(): Store
      reads this
    {
      Store(versions, tags, blocks, deleted)
    }

    /** The foreign key of the blocks table. */
    ghost predicate Linked()
      reads this
    {
      forall k :: k in blocks ==> k.0 in versions
    }

    /** Inserts a block; a second row with the same primary key is refused. */
    method SetBlock(id: nat, v: string, b: Block) returns (ok: bool)
      modifies this`blocks
      ensures ok <==> (v, id) !in old(blocks)
      ensures blocks == if ok then old(blocks)[(v, id) := b] else old(blocks)
    {
      if (v, id) in blocks { return false; }
      blocks := blocks[(v, id) := b];
      return true;
    }

    /** The loop of copy_version: row i becomes block i of the new version. */
    method InsertCopies(rows: seq<Block>, uid: string)
      requires forall k :: k in blocks ==> k.0 != uid
      modifies this`blocks
      ensures blocks == old(blocks) + Copies(rows, uid, |rows|)
    {
      for i := 0 to |rows|
        invariant blocks == old(blocks) + Copies(rows, uid, i)
      {
        OneMoreCopy(old(blocks), rows, uid, i);
        var b := rows[i];
        var ok := SetBlock(i, uid, Block(b.uid, b.checksum, b.size, b.valid, 0, "", ""));
        assert ok;
      }
    }

    /** `uid` is the generated uid of the new version; None stands for KeyError. */
    method CopyVersion(from: string, uid: string, name: string, snapshot: string) returns (r: Option<string>)
      requires uid !in versions && forall k :: k in blocks ==> k.0 != uid
      modifies this`versions, this`blocks
      ensures r == if from in old(versions) then Some(uid) else None
      ensures r.Some? ==> Tables() == BackyStore.CopyVersion(old(Tables()), from, uid, name, snapshot)
      ensures r.None? ==> Tables() == old(Tables())
    {
      if from !in versions { return None; }
      var o := versions[from];
      versions := versions[uid := Version(name, snapshot, o.size, o.sizeBytes, o.valid, false)];
      InsertCopies(Ordered(blocks, from), uid);
      return Some(uid);
    }

    /** The first loop of du, over the sparse blocks. */
    method NullSpace(v: string) returns (nullSpace: nat)
      ensures nullSpace == Sum((set k | k in blocks && k.0 == v && blocks[k].uid.None?), BlockSize(blocks))
    {
      nullSpace := 0;
      var nulls := NullKeys(blocks, v);
      assert nulls == set k | k in blocks && k.0 == v && blocks[k].uid.None?;
      while nulls != {}
        invariant nulls <= NullKeys(blocks, v)
        invariant nullSpace + Sum(nulls, BlockSize(blocks)) == Sum(NullKeys(blocks, v), BlockSize(blocks))
        decreases nulls
      {
        var k :| k in nulls;
        SumRemove(nulls, BlockSize(blocks), k);
        nullSpace := nullSpace + blocks[k].size;
        nulls := nulls - {k};
      }
    }

    /** The branches of du for one row of the query. */
    static method Account(t: Totals, size: nat, ownShared: nat, shared: nat) returns (t': Totals)
      requires 0 < ownShared <= shared
      ensures t' == AfterRow(t, size, ownShared, shared)
    {
      t' := t.(total := t.total + Product(size, ownShared));
      var inOthers := shared - ownShared;
      if inOthers != 0 {
        t' := t'.(others := t'.others + Product(size, ownShared));
      } else if ownShared > 1 {
        t' := t'.(own := t'.own + Product(size, ownShared - 1));
      } else {
        t' := t'.(nodedup := t'.nodedup + size);
      }
      if inOthers == 0 {
        t' := t'.(freed := t'.freed + size);
      }
    }

    /** Space used by a version. Its real blocks count as shared with others, as repeats inside the
        version, or as freed; if a uid determines the size, that is what they are. */
    method Du(v: string) returns (u: Usage)
      ensures u.nullSpace == Sum((set k | k in blocks && k.0 == v && blocks[k].uid.None?), BlockSize(blocks))
      ensures u.realSpace == Bytes(blocks, v, RefsOf(blocks, v)) == u.dedupOthers + u.dedupOwn + u.spaceFreed
      ensures OneSize(blocks) ==> Attributed(blocks, v, u.dedupOthers, u.dedupOwn, u.nodedup, u.spaceFreed)
    {
      var nullSpace := NullSpace(v);
      var t := Totals(0, 0, 0, 0, 0);
      var groups := Groups(blocks, v);
      ghost var done: set<string> := {};
      NothingCounted(blocks, v);
      while groups != {}
        invariant Counted(blocks, v, groups, done, t)
        decreases groups
      {
        var g :| g in groups;
        var size, ownShared, shared := g.1, |GroupKeys(blocks, v, g)|, |AllKeys(blocks, g.0)|;
        RowCounted(blocks, v, groups, done, g, t);
        t := Account(t, size, ownShared, shared);
        done := done + {g.0};
        groups := groups - {g};
      }
      AllCounted(blocks, v, done, t);
      u := Usage(t.total, nullSpace, t.own, t.others, t.nodedup, t.freed);
    }

    /** Marks the blocks with this uid and checksum, and the versions that hold them. From then on
        no such block is valid, so none is answered for its checksum. */
    method SetBlocksInvalid(uid: string, checksum: Option<string>) returns (affected: set<string>)
      requires Linked()
      modifies this`blocks, this`versions
      ensures Linked()
      ensures affected == (set k | k in old(blocks) && Holds(old(blocks)[k], uid) && old(blocks)[k].checksum == checksum :: k.0)
      ensures blocks == Invalidated(old(Tables()), uid, checksum)
      ensures versions == Flagged(old(versions), affected)
      ensures OnlyInvalidated(old(blocks), blocks, uid, checksum)
      ensures versions.Keys == old(versions).Keys
      ensures forall v :: v in versions ==> versions[v] == old(versions)[v].(valid := old(versions)[v].valid && v !in affected)
      ensures forall k :: k in blocks && blocks[k].valid ==> !(blocks[k].uid == Some(uid) && blocks[k].checksum == checksum)
    {
      affected := set k | k in blocks && Holds(blocks[k], uid) && blocks[k].checksum == checksum :: k.0;
      assert Flagged(versions, {}) == versions;
      blocks := Invalidated(Store(versions, tags, blocks, deleted), uid, checksum);
      var todo := affected;
      while todo != {}
        invariant todo <= affected <= old(versions).Keys
        invariant blocks == Invalidated(old(Tables()), uid, checksum)
        invariant versions == Flagged(old(versions), affected - todo)
        decreases todo
      {
        var v :| v in todo;
        FlagOne(old(versions), affected - todo, v);
        assert affected - (todo - {v}) == affected - todo + {v};
        versions := versions[v := versions[v].(valid := false)];
        todo := todo - {v};
      }
      assert affected - {} == affected;
      InvalidatedOnly(old(Tables()), uid, checksum);
    }

    ghost predicate Usable(k: Key, checksum: string)
      reads this
    {
      k in blocks && blocks[k].checksum == Some(checksum) && blocks[k].valid
    }

    /** How get_block_by_checksum ranks a block. */
    static function Rank(b: Block, preferred: nat): nat
    {
      if b.encVersion == preferred then 100000 else b.encVersion
    }

    /** A valid block with this checksum, or none if there is none. It has the preferred encryption
        version if one has, unless another has a version from 100000 on, and else the highest;
        which one of several is left open. */
    method GetBlockByChecksum(checksum: string, preferred: nat) returns (r: Option<Key>)
      ensures r.None? <==> forall k :: k in blocks ==> !Usable(k, checksum)
      ensures r.Some? ==> Usable(r.value, checksum)
      ensures r.Some? && blocks[r.value].encVersion != preferred ==>
                forall k :: k in blocks && Usable(k, checksum) ==>
                  blocks[k].encVersion <= blocks[r.value].encVersion || blocks[k].encVersion == preferred
      ensures r.Some? && blocks[r.value].encVersion != preferred ==>
                forall k :: k in blocks && Usable(k, checksum) && blocks[k].encVersion == preferred ==> blocks[r.value].encVersion >= 100000
      ensures r.Some? && blocks[r.value].encVersion == preferred ==>
                forall k :: k in blocks && Usable(k, checksum) ==> blocks[k].encVersion == preferred || blocks[k].encVersion <= 100000
    {
      var results := set k | k in blocks && blocks[k].checksum == Some(checksum) && blocks[k].valid;
      assert forall k :: k in blocks && blocks[k].checksum == Some(checksum) && blocks[k].valid ==> k in results;
      if results == {} { return None; }
      var best :| best in results;
      var todo := results - {best};
      while todo != {}
        invariant best in results && todo <= results
        invariant forall k :: k in results && k !in todo ==> Rank(blocks[k], preferred) <= Rank(blocks[best], preferred)
        decreases todo
      {
        var k :| k in todo;
        todo := todo - {k};
        if Rank(blocks[best], preferred) < Rank(blocks[k], preferred) {
          best := k;
        }
      }
      return Some(best);
    }

    /** Removes a version; each of its blocks with a non-empty uid goes into the deletion queue. */
    method RmVersion(v: string, now: int) returns (numBlocks: nat)
      modifies this
      ensures numBlocks == |KeysOf(old(blocks), v)|
      ensures Removed(old(Tables()), Tables(), v, now)
    {
      var affected := KeysOf(blocks, v);
      numBlocks := |affected|;
      var todo := affected;
      while todo != {}
        invariant todo <= affected
        invariant versions == old(versions) && tags == old(tags) && blocks == old(blocks)
        invariant forall row :: deleted[row] == old(deleted)[row] + |Queuing(blocks, affected - todo, row, now)|
        decreases todo
      {
        var k :| k in todo;
        var b := blocks[k];
        QueueOne(blocks, affected, todo, k, now);
        if b.uid.Some? && b.uid.value != "" {
          var row := Queued(b.uid.value, b.size, now);
          deleted := deleted[row := deleted[row] + 1];
        }
        todo := todo - {k};
      }
      assert affected - todo == affected;
      blocks := Without(blocks, v);
      tags := set x | x in tags && x.0 != v;
      versions := versions - {v};
    }

    /** Deletes the queue rows for which `drop` holds. */
    method DeleteRows(drop: Queued -> bool)
      modifies this`deleted
      ensures Purged(old(Tables()), Tables(), drop)
    {
      var todo := deleted;
      deleted := multiset{};
      while todo != multiset{}
        invariant todo <= old(deleted)
        invariant forall row :: todo[row] == 0 || todo[row] == old(deleted)[row]
        invariant forall row :: deleted[row] == if drop(row) then 0 else old(deleted)[row] - todo[row]
        decreases todo
      {
        var row :| row in todo;
        if !drop(row) { deleted := deleted[row := todo[row]]; }
        todo := todo[row := 0];
      }
    }

    method CleanupDeleteCandidates(dt: int, now: int)
      modifies this`deleted
      ensures Purged(old(Tables()), Tables(), FalsePositive(old(Tables()), dt, now))
      ensures forall row :: deleted[row] ==
                if row.time < now - dt && exists k :: k in blocks && blocks[k].uid == Some(row.uid) then 0 else old(deleted)[row]
    {
      DeleteRows(FalsePositive(Store(versions, tags, blocks, deleted), dt, now));
    }

    /** A uid is a candidate if no block holds it and a queue row for it is older than `dt`. */
    method GetDeleteCandidates(dt: int, now: int) returns (uids: set<string>)
      ensures forall u :: u in uids <==>
                u !in Refs(blocks) && exists row :: row in deleted && row.uid == u && row.time < now - dt
      ensures uids == Candidates(Tables(), dt, now)
    {
      uids := {};
      var referenced := Refs(blocks);
      var todo := deleted;
      while todo != multiset{}
        invariant todo <= deleted && forall row :: todo[row] == 0 || todo[row] == deleted[row]
        invariant forall u :: u in uids <==>
                    u !in referenced && exists row :: row in deleted && row !in todo && row.uid == u && row.time < now - dt
        decreases todo
      {
        var row :| row in todo;
        todo := todo[row := 0];
        if row.uid !in referenced && row.time < now - dt { uids := uids + {row.uid}; }
      }
    }

    method DelDeleteCandidates(uids: set<string>)
      modifies this`deleted
      ensures Purged(old(Tables()), Tables(), (row: Queued) => row.uid in uids)
      ensures forall row :: deleted[row] == if row.uid in uids then 0 else old(deleted)[row]
    {
      DeleteRows((row: Queued) => row.uid in uids);
    }
  }
}
