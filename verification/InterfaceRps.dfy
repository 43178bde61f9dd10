/** modules/interface/files/interface-rps.py: spreading a network card's queues over the CPUs. */
module InterfaceRps {
  import opened Common
  import Arithmetic

  // ---------------------------------------------------------------- which CPUs

  /** Python's sorted() on a set. */
  method Sorted(s: set<nat>) returns (r: seq<nat>)
    ensures Increasing(r) && forall x: nat :: x in r <==> x in s
  {
    r := [];
    var rest := s;
    while rest != {}
      invariant Increasing(r) && rest <= s && forall x: nat :: x in r <==> x in s - rest
      invariant forall x: nat, y: nat :: x in r && y in rest ==> x < y
      decreases rest
    {
      var least := SmallestOf(rest);
      assert forall i :: 0 <= i < |r| ==> r[i] in r;
      r, rest := r + [least], rest - {least};
    }
  }

  method SmallestOf(s: set<nat>) returns (x: nat)
    requires s != {}
    ensures x in s && forall y: nat :: y in s ==> x <= y
  {
    x :| x in s;
    var rest := s - {x};
    while rest != {}
      invariant rest <= s && x in s && forall y: nat :: y in s && y !in rest ==> x <= y
      decreases rest
    {
      var y :| y in rest;
      rest := rest - {y};
      x := if y < x then y else x;
    }
  }

  /** The thread siblings listed for each CPU, the first of which stands for its core. */
  type Siblings = map<nat, seq<nat>>

  predicate AllListed(cpus: set<nat>, siblings: Siblings)
  {
    forall c :: c in cpus ==> c in siblings && siblings[c] != []
  }

  function Heads(cpus: set<nat>, siblings: Siblings): set<nat>
    requires AllListed(cpus, siblings)
  {
    set c | c in cpus :: siblings[c][0]
  }

  /** The CPUs to use; None where removing CPU 0 raises KeyError. `node` holds the CPUs of the
      card's NUMA node, None if there is no such filter. */
  method GetCpuList(cpus: set<nat>, siblings: Siblings, node: Option<set<nat>>, avoidCpu0: bool) returns (r: Option<seq<nat>>)
    requires AllListed(cpus, siblings)
    ensures var heads := Heads(if node.Some? then cpus * node.value else cpus, siblings);
            && (r.None? <==> avoidCpu0 && 0 !in heads)
            && (r.Some? ==> Increasing(r.value) && forall x: nat :: x in r.value <==> x in heads && !(avoidCpu0 && x == 0))
  {
    var near := if node.Some? then cpus * node.value else cpus;
    var cores: set<nat>, rest := {}, near;
    while rest != {}
      invariant rest <= near && cores == Heads(near - rest, siblings)
      decreases rest
    {
      var c :| c in rest;
      cores, rest := cores + {siblings[c][0]}, rest - {c};
    }
    assert near - {} == near;
    if avoidCpu0 && 0 !in cores { return None; }
    if avoidCpu0 { cores := cores - {0}; }
    var list := Sorted(cores);
    return Some(list);
  }

  /** The lists agree: each thread of a core is listed, first of all itself, with the same list. */
  ghost predicate Topology(cpus: set<nat>, siblings: Siblings)
  {
    && AllListed(cpus, siblings)
    && forall c :: c in cpus ==>
         c in siblings[c] && forall d :: d in siblings[c] ==> d in cpus && siblings[d] == siblings[c]
  }

  /** Then a core with a CPU near the card is represented by exactly one of its threads. */
  lemma OnePerCore(cpus: set<nat>, siblings: Siblings, near: set<nat>, c: nat)
    requires Topology(cpus, siblings) && near <= cpus && c in near
    ensures (set r | r in Heads(near, siblings) && r in siblings[c]) == {siblings[c][0]}
  {
    forall d | d in near && siblings[d][0] in siblings[c] ensures siblings[d][0] == siblings[c][0] {
      var r := siblings[d][0];
      assert r in siblings[d] && siblings[r] == siblings[d];
      assert siblings[r] == siblings[c];
    }
    assert siblings[c][0] in siblings[c];
  }

  // ---------------------------------------------------------------- which interrupts

  /** The interrupt of the last line that names queue `q`; lines are (number in the name, interrupt). */
  function LastIrq(lines: seq<(int, nat)>, offset: int, q: int): Option<nat>
  {
    if lines == [] then None else
      var (name, irq) := lines[|lines| - 1];
      if name - offset == q then Some(irq) else LastIrq(lines[..|lines| - 1], offset, q)
  }

  /** None for the two exceptions: the lines must name exactly the rx queues. */
  method GetRxIrqs(lines: seq<(int, nat)>, rxQueues: seq<int>, offset: int) returns (r: Option<map<int, nat>>)
    requires Distinct(rxQueues)
    ensures r.Some? <==> forall q :: q in rxQueues <==> LastIrq(lines, offset, q).Some?
    ensures r.Some? ==> forall q :: (q in r.value <==> q in rxQueues) && (q in rxQueues ==> Some(r.value[q]) == LastIrq(lines, offset, q))
  {
    var irqs: map<int, nat> := map[];
    for n := 0 to |lines|
      invariant forall q :: LastIrq(lines[..n], offset, q) == if q in irqs then Some(irqs[q]) else None
    {
      assert lines[..n + 1][..n] == lines[..n];
      irqs := irqs[lines[n].0 - offset := lines[n].1];
    }
    assert lines[..|lines|] == lines;
    ghost var queues := set q | q in rxQueues;
    SizeOfDistinct(rxQueues);
    if |irqs| != |rxQueues| {
      assert |irqs.Keys| == |irqs|;
      ghost var q := OtherSize(irqs.Keys, queues);
      assert (q in rxQueues) != LastIrq(lines, offset, q).Some?;
      return None;
    }
    for n := 0 to |rxQueues|
      invariant forall i :: 0 <= i < n ==> rxQueues[i] in irqs
    {
      if rxQueues[n] !in irqs {
        assert rxQueues[n] in rxQueues && LastIrq(lines, offset, rxQueues[n]).None?;
        return None;
      }
    }
    assert queues <= irqs.Keys && |queues| == |irqs.Keys|;
    SameSize(queues, irqs.Keys);
    return Some(irqs);
  }

  lemma {:induction false} SizeOfDistinct(s: seq<int>)
    requires Distinct(s)
    ensures |set x | x in s| == |s|
  {
    if s != [] {
      var most, last := s[..|s| - 1], s[|s| - 1];
      SizeOfDistinct(most);
      assert (set x | x in s) == (set x | x in most) + {last};
    }
  }

  lemma OtherSize<T>(a: set<T>, b: set<T>) returns (q: T)
    requires |a| != |b|
    ensures (q in a) != (q in b)
  {
    var onlyA, onlyB := a - b, b - a;
    assert a == a * b + onlyA && b == a * b + onlyB;
    if onlyA != {} {
      q :| q in onlyA;
    } else {
      q :| q in onlyB;
    }
  }

  lemma SameSize<T>(a: set<T>, b: set<T>)
    requires a <= b && |a| == |b|
    ensures a == b
  {
    assert b == a + (b - a);
  }

  // ---------------------------------------------------------------- which tx queues

  /** The tx queues that go with each rx queue; None leaves them alone. */
  type TxMap = map<int, Option<seq<int>>>

  const COS_BANDS := 3

  /** One tx queue per band, a full set of rx queues apart. */
  function Bands(rxq: int, n: nat): seq<int>
  {
    [rxq, rxq + n, rxq + 2 * n]
  }

  /** get_bnx2x_cos_queue_map */
  method CosQueueMap(txCount: nat, rxQueues: seq<int>) returns (r: Option<TxMap>)
    ensures r.None? <==> |rxQueues| * COS_BANDS != txCount
    ensures r.Some? ==> r.value == map q | q in rxQueues :: Some(Bands(q, |rxQueues|))
  {
    if |rxQueues| * COS_BANDS != txCount { return None; }
    var txMap: TxMap := map[];
    for n := 0 to |rxQueues|
      invariant txMap == map q | q in rxQueues[..n] :: Some(Bands(q, |rxQueues|))
    {
      txMap := txMap[rxQueues[n] := Some(Bands(rxQueues[n], |rxQueues|))];
      assert forall q :: q in rxQueues[..n + 1] <==> q in rxQueues[..n] || q == rxQueues[n];
    }
    assert rxQueues[..|rxQueues|] == rxQueues;
    return Some(txMap);
  }

  predicate FromZero(rxQueues: seq<int>)
  {
    forall i :: 0 <= i < |rxQueues| ==> rxQueues[i] == i
  }

  /** With rx queues 0..n-1, tx queue t goes with rx queue t % n and with no other. */
  lemma EachTxHasOneRx(rxQueues: seq<int>, t: nat, q: int)
    requires FromZero(rxQueues) && t < COS_BANDS * |rxQueues| && q in rxQueues
    ensures t in Bands(q, |rxQueues|) <==> q == t % |rxQueues|
  {
    var n := |rxQueues|;
    var i :| 0 <= i < n && rxQueues[i] == q;
    var d := t / n;
    assert t == n * d + t % n;
    BelowThree(n, d, t);
    if q == t % n {
      assert Bands(q, n)[d] == q + d * n;
    }
    if t in Bands(q, n) {
      var c :| 0 <= c < COS_BANDS && Bands(q, n)[c] == t;
      Arithmetic.UniqueRemainder(n, d, t % n, c, q);
    }
  }

  lemma BelowThree(n: nat, d: nat, t: nat)
    requires n * d <= t < COS_BANDS * n
    ensures d < COS_BANDS
  {
    Arithmetic.AtLeastOne(n, d - 2);
    assert n * (d - 2) == n * d - 2 * n;
  }

  /** The map deals out exactly the tx queues 0..3n-1 just when the rx queues are 0..n-1. */
  lemma CosMapPartitions(rxQueues: seq<int>)
    requires Increasing(rxQueues)
    ensures (forall t :: 0 <= t < COS_BANDS * |rxQueues| <==> Dealt(rxQueues, t)) <==> FromZero(rxQueues)
  {
    var n := |rxQueues|;
    if FromZero(rxQueues) {
      forall t | 0 <= t < COS_BANDS * n ensures Dealt(rxQueues, t) {
        assert rxQueues[t % n] == t % n;
        EachTxHasOneRx(rxQueues, t, t % n);
      }
      forall q, t | q in rxQueues && t in Bands(q, n) ensures 0 <= t < COS_BANDS * n {
      }
    }
    if forall t :: 0 <= t < COS_BANDS * n <==> Dealt(rxQueues, t) {
      forall i | 0 <= i < n ensures 0 <= rxQueues[i] < n {
        var q := rxQueues[i];
        assert Bands(q, n)[0] == q && Bands(q, n)[2] == q + 2 * n;
        assert Dealt(rxQueues, q) && Dealt(rxQueues, q + 2 * n);
      }
      Crowded(rxQueues, 0, n);
    }
  }

  ghost predicate Dealt(rxQueues: seq<int>, t: int)
  {
    exists q :: q in rxQueues && t in Bands(q, |rxQueues|)
  }

  lemma {:induction false} Crowded(s: seq<int>, lo: int, hi: int)
    requires Increasing(s) && hi - lo == |s| && forall i :: 0 <= i < |s| ==> lo <= s[i] < hi
    ensures forall i :: 0 <= i < |s| ==> s[i] == lo + i
  {
    if s != [] {
      var k := |s| - 1;
      LowerBound(s, lo, k);
      Crowded(s[..k], lo, hi - 1);
    }
  }

  lemma LowerBound(s: seq<int>, lo: int, k: nat)
    requires Increasing(s) && k < |s| && lo <= s[0]
    ensures s[k] >= lo + k
  {
    if k > 0 { LowerBound(s, lo, k - 1); }
  }

  // ---------------------------------------------------------------- setting CPU masks

  function Pow2(n: nat): (p: nat)
    ensures p > 0
  {
    if n == 0 then 1 else 2 * Pow2(n - 1)
  }

  /** Bit number `cpu` of the mask is set. */
  predicate Selects(mask: nat, cpu: nat)
  {
    if cpu == 0 then mask % 2 == 1 else Selects(mask / 2, cpu - 1)
  }

  lemma {:induction false} ZeroSelectsNone(c: nat)
    ensures !Selects(0, c)
  {
    if c > 0 { ZeroSelectsNone(c - 1); }
  }

  /** The mask 2 ** cpu selects that one CPU. */
  lemma {:induction false} SelectsOne(cpu: nat, c: nat)
    ensures Selects(Pow2(cpu), c) <==> c == cpu
  {
    if cpu > 0 && c > 0 {
      assert Pow2(cpu) / 2 == Pow2(cpu - 1);
      SelectsOne(cpu - 1, c - 1);
    } else if c > 0 {
      assert Pow2(0) / 2 == 0;
      ZeroSelectsNone(c - 1);
    }
  }

  /** What is written under /proc/irq and the card's queues: interrupt, rx queue and tx queue masks. */
  datatype Masks = Masks(irq: map<nat, nat>, rps: map<int, nat>, xps: map<int, nat>)

  function Assign(m: Masks, cpu: nat, rxq: int, irq: Option<nat>, txqs: Option<seq<int>>): Masks
  {
    var bits := Pow2(cpu);
    Masks(if irq.Some? && irq.value != 0 then m.irq[irq.value := bits] else m.irq,
          m.rps[rxq := bits],
          if txqs.None? then m.xps else Written(m.xps, txqs.value, bits))
  }

  function Written(xps: map<int, nat>, txqs: seq<int>, bits: nat): map<int, nat>
  {
    xps + map t | t in txqs :: bits
  }

  lemma OneMoreWritten(xps: map<int, nat>, txqs: seq<int>, t: int, bits: nat)
    ensures Written(xps, txqs + [t], bits) == Written(xps, txqs, bits)[t := bits]
  {
  }

  /** The masks after the first `n` rx queues. */
  function Spread(m: Masks, cpus: seq<nat>, rxQueues: seq<int>, irqs: map<int, Option<nat>>, txMap: TxMap, n: nat): Masks
    requires n <= |rxQueues| && (n > 0 ==> cpus != [])
    requires forall q :: q in rxQueues ==> q in irqs && q in txMap
  {
    if n == 0 then m else
      var q := rxQueues[n - 1];
      Assign(Spread(m, cpus, rxQueues, irqs, txMap, n - 1), cpus[(n - 1) % |cpus|], q, irqs[q], txMap[q])
  }

  class Card {
    var masks: Masks

    constructor (masks: Masks)
      ensures this.masks == masks
    {
      this.masks := masks;
    }

    method SetCpu(cpu: nat, rxq: int, irq: Option<nat>, txqs: Option<seq<int>>)
      modifies this
      ensures masks == Assign(old(masks), cpu, rxq, irq, txqs)
    {
      var bits := Pow2(cpu);
      if irq.Some? && irq.value != 0 {
        masks := masks.(irq := masks.irq[irq.value := bits]);
      }
      masks := masks.(rps := masks.rps[rxq := bits]);
      if txqs.Some? { SetXps(txqs.value, bits); }
    }

    method SetXps(txqs: seq<int>, bits: nat)
      modifies this
      ensures masks == old(masks).(xps := Written(old(masks).xps, txqs, bits))
    {
      for n := 0 to |txqs|
        invariant masks == old(masks).(xps := Written(old(masks).xps, txqs[..n], bits))
      {
        OneMoreWritten(old(masks).xps, txqs[..n], txqs[n], bits);
        assert txqs[..n + 1] == txqs[..n] + [txqs[n]];
        masks := masks.(xps := masks.xps[txqs[n] := bits]);
      }
      assert txqs[..|txqs|] == txqs;
    }

    /** False for the division by zero when there is no CPU to use. */
    method DistQueuesToCpus(cpus: seq<nat>, rxQueues: seq<int>, irqs: map<int, Option<nat>>, txMap: TxMap) returns (ok: bool)
      requires forall q :: q in rxQueues ==> q in irqs && q in txMap
      modifies this
      ensures ok <==> cpus != [] || rxQueues == []
      ensures masks == if ok then Spread(old(masks), cpus, rxQueues, irqs, txMap, |rxQueues|) else old(masks)
    {
      for n := 0 to |rxQueues|
        invariant (n > 0 ==> cpus != []) && masks == Spread(old(masks), cpus, rxQueues, irqs, txMap, n)
      {
        if |cpus| == 0 { return false; }
        SetCpu(cpus[n % |cpus|], rxQueues[n], irqs[rxQueues[n]], txMap[rxQueues[n]]);
      }
      return true;
    }

    /** main, from the queue lists on. */
    method SetUp(bnx2x: bool, cpus: seq<nat>, txCount: nat, rxQueues: seq<int>, irqs: map<int, Option<nat>>) returns (ok: bool)
      requires forall q :: q in rxQueues ==> q in irqs
      modifies this
      ensures ok <==> cpus != [] || rxQueues == []
      ensures ok ==> masks == Spread(old(masks), cpus, rxQueues, irqs, TxMapOf(bnx2x, txCount, rxQueues), |rxQueues|)
    {
      var txMap: Option<TxMap> := None;
      if bnx2x {
        txMap := CosQueueMap(txCount, rxQueues);
      } else if txCount == |rxQueues| {
        txMap := Some(map q | q in rxQueues :: Some([q]));
      }
      if txMap.None? {
        txMap := Some(map q | q in rxQueues :: None);
      }
      assert txMap.value == TxMapOf(bnx2x, txCount, rxQueues);
      ok := DistQueuesToCpus(cpus, rxQueues, irqs, txMap.value);
    }
  }

  function TxMapOf(bnx2x: bool, txCount: nat, rxQueues: seq<int>): TxMap
  {
    map q | q in rxQueues ::
      if bnx2x && |rxQueues| * COS_BANDS == txCount then Some(Bands(q, |rxQueues|))
      else if !bnx2x && |rxQueues| == txCount then Some([q])
      else None
  }

  // ---------------------------------------------------------------- what the masks are

  /** No tx queue is listed for two rx queues. */
  ghost predicate Apart(rxQueues: seq<int>, txMap: TxMap)
    requires forall q :: q in rxQueues ==> q in txMap
  {
    forall q, q' :: q in rxQueues && q' in rxQueues && q != q' && txMap[q].Some? && txMap[q'].Some? ==>
      forall t :: t in txMap[q].value ==> t !in txMap[q'].value
  }

  /** The CPU of an rx queue is its own in the end, whatever the tx queues are. */
  lemma {:induction false} EveryRxPlaced(m: Masks, cpus: seq<nat>, rxQueues: seq<int>, irqs: map<int, Option<nat>>, txMap: TxMap,
                                         n: nat, i: nat)
    requires i < n <= |rxQueues| && cpus != [] && Distinct(rxQueues)
    requires forall q :: q in rxQueues ==> q in irqs && q in txMap
    ensures var a := Spread(m, cpus, rxQueues, irqs, txMap, n).rps;
            rxQueues[i] in a && a[rxQueues[i]] == Pow2(cpus[i % |cpus|])
    decreases n
  {
    if i < n - 1 {
      EveryRxPlaced(m, cpus, rxQueues, irqs, txMap, n - 1, i);
      assert rxQueues[i] != rxQueues[n - 1] && rxQueues[n - 1] in rxQueues;
    }
  }

  lemma {:induction false} EveryTxPlaced(m: Masks, cpus: seq<nat>, rxQueues: seq<int>, irqs: map<int, Option<nat>>, txMap: TxMap,
                                         n: nat, i: nat, t: int)
    requires i < n <= |rxQueues| && cpus != [] && Distinct(rxQueues)
    requires forall q :: q in rxQueues ==> q in irqs && q in txMap
    requires Apart(rxQueues, txMap)
    requires rxQueues[i] in rxQueues && txMap[rxQueues[i]].Some? && t in txMap[rxQueues[i]].value
    ensures var a := Spread(m, cpus, rxQueues, irqs, txMap, n).xps;
            t in a && a[t] == Pow2(cpus[i % |cpus|])
    decreases n
  {
    if i < n - 1 {
      EveryTxPlaced(m, cpus, rxQueues, irqs, txMap, n - 1, i, t);
      assert rxQueues[i] != rxQueues[n - 1] && rxQueues[n - 1] in rxQueues;
    }
  }

  /** An interrupt of one queue only ends up on that queue's CPU; number 0 is taken for none. */
  lemma {:induction false} EveryIrqPlaced(m: Masks, cpus: seq<nat>, rxQueues: seq<int>, irqs: map<int, Option<nat>>, txMap: TxMap,
                                          n: nat, i: nat, irq: nat)
    requires i < n <= |rxQueues| && cpus != [] && Distinct(rxQueues)
    requires forall q :: q in rxQueues ==> q in irqs && q in txMap
    requires irq != 0 && forall q :: q in rxQueues ==> (irqs[q] == Some(irq) <==> q == rxQueues[i])
    ensures var a := Spread(m, cpus, rxQueues, irqs, txMap, n).irq; irq in a && a[irq] == Pow2(cpus[i % |cpus|])
    decreases n
  {
    if i < n - 1 {
      EveryIrqPlaced(m, cpus, rxQueues, irqs, txMap, n - 1, i, irq);
      assert rxQueues[n - 1] in rxQueues && irqs[rxQueues[n - 1]] != Some(irq);
    } else {
      assert rxQueues[i] in rxQueues;
    }
  }

  /** On a bnx2x card with rx queues 0..n-1 and 3n tx queues, every tx queue ends up on the one CPU
      of its rx queue. */
  lemma TxFollowsRx(m: Masks, cpus: seq<nat>, rxQueues: seq<int>, irqs: map<int, Option<nat>>, t: nat)
    requires cpus != [] && FromZero(rxQueues) && t < COS_BANDS * |rxQueues|
    requires forall q :: q in rxQueues ==> q in irqs
    ensures var n := |rxQueues|;
            var a := Spread(m, cpus, rxQueues, irqs, TxMapOf(true, COS_BANDS * n, rxQueues), n);
            t in a.xps && t % n in a.rps && a.xps[t] == a.rps[t % n] == Pow2(cpus[t % n % |cpus|])
  {
    var n := |rxQueues|;
    var txMap := TxMapOf(true, COS_BANDS * n, rxQueues);
    var q := t % n;
    assert rxQueues[q] == q;
    EachTxHasOneRx(rxQueues, t, q);
    BandsApart(rxQueues);
    EveryRxPlaced(m, cpus, rxQueues, irqs, txMap, n, q);
    EveryTxPlaced(m, cpus, rxQueues, irqs, txMap, n, q, t);
  }

  lemma BandsApart(rxQueues: seq<int>)
    requires FromZero(rxQueues)
    ensures Apart(rxQueues, TxMapOf(true, COS_BANDS * |rxQueues|, rxQueues))
  {
    var n := |rxQueues|;
    forall q, q', t | q in rxQueues && q' in rxQueues && q != q' && t in Bands(q, n) ensures t !in Bands(q', n) {
      EachTxHasOneRx(rxQueues, t, q);
      EachTxHasOneRx(rxQueues, t, q');
    }
  }

  /** On any other card with as many tx as rx queues, each tx queue ends up with the rx queue of its
      number. */
  lemma OneToOne(m: Masks, cpus: seq<nat>, rxQueues: seq<int>, irqs: map<int, Option<nat>>, i: nat)
    requires cpus != [] && Distinct(rxQueues) && i < |rxQueues|
    requires forall q :: q in rxQueues ==> q in irqs
    ensures var (n, q) := (|rxQueues|, rxQueues[i]);
            var a := Spread(m, cpus, rxQueues, irqs, TxMapOf(false, n, rxQueues), n);
            q in a.xps && q in a.rps && a.xps[q] == a.rps[q] == Pow2(cpus[i % |cpus|])
  {
    var n := |rxQueues|;
    var txMap := TxMapOf(false, n, rxQueues);
    assert rxQueues[i] in rxQueues;
    EveryRxPlaced(m, cpus, rxQueues, irqs, txMap, n, i);
    EveryTxPlaced(m, cpus, rxQueues, irqs, txMap, n, i, rxQueues[i]);
  }

  /** When the numbers of queues do not fit, no tx mask is written. */
  lemma {:induction false} NoTxMasks(m: Masks, cpus: seq<nat>, rxQueues: seq<int>, irqs: map<int, Option<nat>>, bnx2x: bool, txCount: nat, n: nat)
    requires n <= |rxQueues| && cpus != [] && forall q :: q in rxQueues ==> q in irqs
    requires txCount != if bnx2x then 3 * |rxQueues| else |rxQueues|
    ensures Spread(m, cpus, rxQueues, irqs, TxMapOf(bnx2x, txCount, rxQueues), n).xps == m.xps
    decreases n
  {
    if n > 0 { NoTxMasks(m, cpus, rxQueues, irqs, bnx2x, txCount, n - 1); }
  }

  /** Of n rx queues, CPU number c of m gets floor(n / m), and one more if c < n % m. */
  lemma {:induction false} EvenlySpread(m: nat, n: nat, c: nat)
    requires c < m
    ensures |set i: nat | i < n && i % m == c| == n / m + if c < n % m then 1 else 0
  {
    if n > 0 {
      var k := n - 1;
      EvenlySpread(m, k, c);
      Arithmetic.NextRemainder(k, m);
      var before, now := set i: nat | i < k && i % m == c, set i: nat | i < n && i % m == c;
      if k % m == c {
        assert now == before + {k};
      } else {
        assert now == before;
      }
    }
  }

  lemma {:induction false} ImageSize(s: seq<int>, places: set<nat>)
    requires Distinct(s) && forall i :: i in places ==> i < |s|
    ensures |set i | i in places :: s[i]| == |places|
  {
    if places != {} {
      var i :| i in places;
      ImageSize(s, places - {i});
      var all, fewer := set j | j in places :: s[j], set j | j in places - {i} :: s[j];
      assert all == fewer + {s[i]};
      assert s[i] !in fewer;
    }
  }

  /** The queues whose mask selects the CPU. */
  function QueuesOn(rps: map<int, nat>, rxQueues: seq<int>, cpu: nat): set<int>
  {
    set q | q in rxQueues && q in rps && Selects(rps[q], cpu)
  }

  lemma QueuesAtPlaces(rps: map<int, nat>, rxQueues: seq<int>, cpu: nat, places: set<nat>)
    requires Distinct(rxQueues) && forall i :: i in places ==> i < |rxQueues|
    requires forall i: nat :: i < |rxQueues| ==> rxQueues[i] in rps && (Selects(rps[rxQueues[i]], cpu) <==> i in places)
    ensures |QueuesOn(rps, rxQueues, cpu)| == |places|
  {
    ImageSize(rxQueues, places);
    assert QueuesOn(rps, rxQueues, cpu) == set i | i in places :: rxQueues[i];
  }

  /** Every CPU of the list gets its even share of the rx queues. */
  lemma EvenShares(m: Masks, cpus: seq<nat>, rxQueues: seq<int>, irqs: map<int, Option<nat>>, txMap: TxMap, c: nat)
    requires c < |cpus| && Distinct(cpus) && Distinct(rxQueues)
    requires forall q :: q in rxQueues ==> q in irqs && q in txMap
    ensures var (n, a) := (|rxQueues|, Spread(m, cpus, rxQueues, irqs, txMap, |rxQueues|));
            |QueuesOn(a.rps, rxQueues, cpus[c])| == n / |cpus| + if c < n % |cpus| then 1 else 0
  {
    var n := |rxQueues|;
    var rps := Spread(m, cpus, rxQueues, irqs, txMap, n).rps;
    var places := set i: nat | i < n && i % |cpus| == c;
    forall i: nat | i < n
      ensures rxQueues[i] in rps && (Selects(rps[rxQueues[i]], cpus[c]) <==> i in places)
    {
      EveryRxPlaced(m, cpus, rxQueues, irqs, txMap, n, i);
      SelectsOne(cpus[i % |cpus|], cpus[c]);
    }
    EvenlySpread(|cpus|, n, c);
    QueuesAtPlaces(rps, rxQueues, cpus[c], places);
  }
}
