/** modules/osm/files/bootstrap-tile-storage.py: one run over a container listing as a state
    machine. A step is a stretch of the program in which what has been sent and the reported
    marker change at most once, so a run that is aborted anywhere stops in some state here. */
module TileRun {
  import opened Arithmetic
  import opened Common
  import opened Text

  /** An object name with what parse_tile answers for it. */
  datatype Object = Object(name: string, tile: Option<string>)

  type Event = seq<string>     // the tiles of one event
  type Request = seq<Event>    // the events of one POST

  type Positive = n: nat | n > 0 witness 1

  /** --page-size, --tiles-per-event, --events-per-request and --max-tiles. */
  datatype Config = Config(
    pageSize: Positive, tilesPerEvent: Positive, eventsPerRequest: Positive, maxTiles: Option<Positive>)

  // ---------------------------------------------------------------- listings

  predicate SortedNames(objects: seq<Object>)
  {
    forall i, j :: 0 <= i < j < |objects| ==> LexLt(objects[i].name, objects[j].name)
  }

  predicate Past(marker: Option<string>, name: string)
  {
    marker.None? || LexLt(marker.value, name)
  }

  /** What the container lists after `marker`. */
  function After(objects: seq<Object>, marker: Option<string>): (rest: seq<Object>)
    ensures |rest| <= |objects|
  {
    objects[Skipped(objects, marker)..]
  }

  /** How many objects at the front are not past `marker`. */
  function Skipped(objects: seq<Object>, marker: Option<string>): (k: nat)
    ensures k <= |objects|
  {
    if objects == [] || Past(marker, objects[0].name) then 0 else 1 + Skipped(objects[1..], marker)
  }

  /** What it lists up to and including `marker`. */
  function UpTo(objects: seq<Object>, marker: Option<string>): seq<Object>
  {
    objects[..Skipped(objects, marker)]
  }

  function TileOf(o: Object): seq<string>
  {
    if o.tile.Some? then [o.tile.value] else []
  }

  function Tiles(objects: seq<Object>): seq<string>
  {
    Concat(seq(|objects|, (i: nat) requires i < |objects| => TileOf(objects[i])))
  }

  function Concat<T>(parts: seq<seq<T>>): seq<T>
  {
    if parts == [] then [] else Concat(parts[..|parts| - 1]) + parts[|parts| - 1]
  }

  /** Every tile in the requests, in order. */
  function Sent(requests: seq<Request>): seq<string>
  {
    Concat(Concat(requests))
  }

  lemma ConcatSnoc<T>(parts: seq<seq<T>>, part: seq<T>)
    ensures Concat(parts + [part]) == Concat(parts) + part
  {
    assert (parts + [part])[..|parts|] == parts;
  }

  lemma {:induction false} ConcatPlus<T>(a: seq<seq<T>>, b: seq<seq<T>>)
    ensures Concat(a + b) == Concat(a) + Concat(b)
    decreases |b|
  {
    if b == [] {
      assert a + b == a;
    } else {
      var n := |b| - 1;
      ConcatPlus(a, b[..n]);
      assert (a + b)[..|a + b| - 1] == a + b[..n];
    }
  }

  lemma SentSnoc(requests: seq<Request>, r: Request)
    ensures Sent(requests + [r]) == Sent(requests) + Concat(r)
  {
    ConcatSnoc(requests, r);
    ConcatPlus(Concat(requests), r);
  }

  lemma TilesPlus(a: seq<Object>, b: seq<Object>)
    ensures Tiles(a + b) == Tiles(a) + Tiles(b)
  {
    var p, q := seq(|a|, (i: nat) requires i < |a| => TileOf(a[i])), seq(|b|, (i: nat) requires i < |b| => TileOf(b[i]));
    assert seq(|a + b|, (i: nat) requires i < |a + b| => TileOf((a + b)[i])) == p + q;
    ConcatPlus(p, q);
  }

  lemma TilesOne(o: Object)
    ensures Tiles([o]) == TileOf(o)
  {
    var parts := seq(1, (i: nat) requires i < 1 => TileOf([o][i]));
    assert parts == [TileOf(o)] && parts[..0] == [];
    assert Tiles([o]) == Concat(parts) == Concat(parts[..0]) + TileOf(o);
  }

  lemma TilesSnoc(objects: seq<Object>, o: Object)
    ensures Tiles(objects + [o]) == Tiles(objects) + TileOf(o)
  {
    TilesOne(o);
    TilesPlus(objects, [o]);
  }

  lemma TilesTake(objects: seq<Object>, i: nat, j: nat)
    requires i <= j <= |objects|
    ensures Tiles(objects[..j]) == Tiles(objects[..i]) + Tiles(objects[i..j])
  {
    TilesPlus(objects[..i], objects[i..j]);
    assert objects[..i] + objects[i..j] == objects[..j];
  }

  // ---------------------------------------------------------------- the machine

  datatype Phase = Fetching | InPage | CapCheck | LastBatch | LastFlush | Checkpoint | Finished

  /** `rest[page..end]` is the current page, `rest[..next]` what has been looked at. */
  datatype State = State(
    phase: Phase, page: nat, next: nat, end: nat, batch: Event, pending: Request, acked: seq<Request>,
    seen: nat, marker: Option<string>, done: bool)

  function Start(marker: Option<string>): State
  {
    State(Fetching, 0, 0, 0, [], [], [], 0, marker, false)
  }

  /** EventSender.add on a state. */
  function Add(c: Config, s: State, e: Event): State
  {
    var pending := s.pending + [e];
    if |pending| >= c.eventsPerRequest then s.(pending := [], acked := s.acked + [pending])
    else s.(pending := pending)
  }

  /** One tile goes into the batch, and a full batch becomes an event. */
  function Take(c: Config, s: State, tile: string): State
  {
    var batch := s.batch + [tile];
    var t := s.(phase := CapCheck, next := s.next + 1, seen := s.seen + 1);
    if |batch| >= c.tilesPerEvent then Add(c, t.(batch := []), batch) else t.(batch := batch)
  }

  function Step(rest: seq<Object>, c: Config, s: State): State
  {
    match s.phase
    case Fetching =>
      if s.end >= |rest| then s.(phase := Finished)
      else s.(phase := InPage, page := s.end, next := s.end, end := if s.end + c.pageSize <= |rest| then s.end + c.pageSize else |rest|)
    case InPage =>
      if s.next >= s.end || s.next >= |rest| then s.(phase := LastBatch)
      else if rest[s.next].tile.None? then s.(next := s.next + 1)
      else Take(c, s, rest[s.next].tile.value)
    case CapCheck =>
      if c.maxTiles.Some? && s.seen >= c.maxTiles.value && 0 < s.next <= |rest|
      then s.(phase := LastBatch, done := true, marker := Some(rest[s.next - 1].name))
      else s.(phase := InPage)
    case LastBatch =>
      if s.batch != [] then Add(c, s.(phase := LastFlush, batch := []), s.batch) else s.(phase := LastFlush)
    case LastFlush =>
      if s.pending != [] then s.(phase := Checkpoint, pending := [], acked := s.acked + [s.pending])
      else s.(phase := Checkpoint)
    case Checkpoint =>
      if s.done then s.(phase := Finished)
      else
        s.(phase := if s.end - s.page < c.pageSize then Finished else Fetching,
           marker := if 0 < s.end <= |rest| then Some(rest[s.end - 1].name) else s.marker)
    case Finished => s
  }

  /** The state after `n` steps. */
  function StateAt(rest: seq<Object>, c: Config, marker: Option<string>, n: nat): State
    decreases n, 0
  {
    if n == 0 then Start(marker) else NextState(rest, c, marker, n - 1)
  }

  function NextState(rest: seq<Object>, c: Config, marker: Option<string>, n: nat): State
    decreases n, 1
  {
    Step(rest, c, StateAt(rest, c, marker, n))
  }

  lemma OneStep(rest: seq<Object>, c: Config, marker: Option<string>, n: nat)
    ensures StateAt(rest, c, marker, n + 1) == Step(rest, c, StateAt(rest, c, marker, n))
  {
    assert StateAt(rest, c, marker, n + 1) == NextState(rest, c, marker, n);
  }

  // ---------------------------------------------------------------- what every step keeps

  /** The marker that stands for having dealt with `rest[..i]`. */
  function MarkerAt(rest: seq<Object>, marker: Option<string>, i: nat): Option<string>
    requires i <= |rest|
  {
    if i == 0 then marker else Some(rest[i - 1].name)
  }

  ghost predicate FitEvents(c: Config, events: seq<Event>)
  {
    forall i :: 0 <= i < |events| ==> 0 < |events[i]| <= c.tilesPerEvent
  }

  ghost predicate FitRequest(c: Config, r: Request)
  {
    0 < |r| <= c.eventsPerRequest && FitEvents(c, r)
  }

  /** No event and no request is empty or larger than configured. */
  ghost predicate Sizes(c: Config, s: State)
  {
    |s.pending| <= c.eventsPerRequest && FitEvents(c, s.pending) && forall i :: 0 <= i < |s.acked| ==> FitRequest(c, s.acked[i])
  }

  function Unsent(s: State): seq<string>
  {
    Concat(s.pending) + s.batch
  }

  /** Tiles per full request. */
  function Full(c: Config): Positive
  {
    c.tilesPerEvent * c.eventsPerRequest
  }

  /** `q` is a multiple of the page size. */
  predicate PageStart(q: nat, size: Positive)
  {
    q == 0 || (q >= size && PageStart(q - size, size))
  }

  /** How far the run has got. */
  ghost predicate Places(rest: seq<Object>, c: Config, marker: Option<string>, s: State)
  {
    && s.page <= s.next <= s.end <= |rest|
    && PageStart(s.page, c.pageSize) && s.end <= s.page + c.pageSize
    && (s.phase != Fetching && s.end < |rest| ==> s.end == s.page + c.pageSize)
    && (s.phase == Fetching ==> s.next == s.end && (s.end == |rest| || PageStart(s.end, c.pageSize)))
    && (s.phase == Fetching || s.phase == InPage || s.phase == CapCheck ==> !s.done)
    && (s.done || s.phase == CapCheck ==> s.page < s.next)
    && (!s.done && s.phase != InPage && s.phase != CapCheck ==> s.next == s.end)
    && (!s.done && s.phase == Finished ==> s.end == |rest|)
    && s.marker == MarkerAt(rest, marker, if s.done then s.next else if s.phase == Fetching || s.phase == Finished then s.end else s.page)
  }

  /** Every tile looked at is sent, pending or in the batch, once and in order. */
  ghost predicate Accounted(rest: seq<Object>, s: State)
  {
    && s.page <= s.next <= s.end <= |rest|
    && Sent(s.acked) + Unsent(s) == Tiles(rest[..s.next])
    && s.seen == |Tiles(rest[..s.next])|
    && |Tiles(rest[..s.page])| <= |Sent(s.acked)|
    && (s.phase == LastFlush ==> s.batch == [])
    && (s.phase == Fetching || s.phase == Checkpoint || s.phase == Finished ==> s.batch == [] && s.pending == [])
  }

  /** Where the cap of --max-tiles stands. */
  ghost predicate Capped(rest: seq<Object>, c: Config, s: State)
  {
    && (c.maxTiles.None? ==> !s.done)
    && (c.maxTiles.Some? ==>
          if s.done then s.seen == c.maxTiles.value
          else if s.phase == CapCheck then s.seen <= c.maxTiles.value
          else s.seen < c.maxTiles.value)
    && (s.done || s.phase == CapCheck ==> 0 < s.next <= |rest| && rest[s.next - 1].tile.Some?)
  }

  /** `k` tiles into a page, only those that do not fill a request are unsent. */
  ghost predicate Holding(c: Config, s: State, k: nat)
  {
    && |s.batch| < c.tilesPerEvent && |s.pending| < c.eventsPerRequest
    && |Concat(s.pending)| == c.tilesPerEvent * |s.pending|
    && |Unsent(s)| == k % Full(c)
  }

  ghost predicate Leftover(rest: seq<Object>, c: Config, s: State)
  {
    && s.page <= s.next <= |rest|
    && var k := |Tiles(rest[s.page..s.next])|;
    && (s.phase == InPage || s.phase == CapCheck || s.phase == LastBatch ==> Holding(c, s, k))
    && (s.phase == LastFlush ==> Unsent(s) == [] || |Unsent(s)| == k % Full(c))
  }

  lemma AddAccounts(c: Config, s: State, e: Event)
    requires s.batch == []
    ensures var t := Add(c, s, e);
            && Sent(t.acked) + Unsent(t) == Sent(s.acked) + (Concat(s.pending) + e)
            && |Sent(s.acked)| <= |Sent(t.acked)|
  {
    var pending, t := s.pending + [e], Add(c, s, e);
    ConcatSnoc(s.pending, e);
    if |pending| >= c.eventsPerRequest {
      SentSnoc(s.acked, pending);
      assert Unsent(t) == [];
    } else {
      assert Unsent(t) == Concat(pending);
    }
  }

  lemma AddFits(c: Config, s: State, e: Event)
    requires Sizes(c, s) && |s.pending| < c.eventsPerRequest && 0 < |e| <= c.tilesPerEvent
    ensures Sizes(c, Add(c, s, e))
  {
  }

  lemma PlacesKept(rest: seq<Object>, c: Config, marker: Option<string>, s: State)
    requires Places(rest, c, marker, s)
    ensures Places(rest, c, marker, Step(rest, c, s))
  {
  }

  lemma CappedKept(rest: seq<Object>, c: Config, marker: Option<string>, s: State)
    requires Places(rest, c, marker, s) && Capped(rest, c, s)
    ensures Capped(rest, c, Step(rest, c, s))
  {
    if s.phase == InPage && s.next < s.end && rest[s.next].tile.Some? {
      var t := Step(rest, c, s);
      assert t.phase == CapCheck && t.next == s.next + 1 && t.seen == s.seen + 1 && t.done == s.done;
    }
  }

  lemma SizesKept(rest: seq<Object>, c: Config, s: State)
    requires Sizes(c, s)
    requires s.phase == InPage || s.phase == LastBatch ==> |s.pending| < c.eventsPerRequest && |s.batch| < c.tilesPerEvent
    ensures Sizes(c, Step(rest, c, s))
  {
    if s.phase == InPage && s.next < s.end && s.next < |rest| && rest[s.next].tile.Some? {
      var batch := s.batch + [rest[s.next].tile.value];
      AddFits(c, s.(phase := CapCheck, next := s.next + 1, seen := s.seen + 1, batch := []), batch);
    } else if s.phase == LastBatch && s.batch != [] {
      AddFits(c, s.(phase := LastFlush, batch := []), s.batch);
    }
  }

  lemma TakeNext(rest: seq<Object>, page: nat, next: nat)
    requires page <= next < |rest|
    ensures Tiles(rest[..next + 1]) == Tiles(rest[..next]) + TileOf(rest[next])
    ensures Tiles(rest[page..next + 1]) == Tiles(rest[page..next]) + TileOf(rest[next])
  {
    assert rest[..next + 1] == rest[..next] + [rest[next]];
    assert rest[page..next + 1] == rest[page..next] + [rest[next]];
    TilesSnoc(rest[..next], rest[next]);
    TilesSnoc(rest[page..next], rest[next]);
  }

  lemma Regroup(a: seq<string>, b: seq<string>, c: seq<string>, d: seq<string>)
    ensures a + (b + (c + d)) == a + (b + c) + d
  {
  }

  lemma TakeAdds(c: Config, s: State, tile: string)
    ensures var t := Take(c, s, tile); Sent(t.acked) + Unsent(t) == Sent(s.acked) + Unsent(s) + [tile]
    ensures |Sent(s.acked)| <= |Sent(Take(c, s, tile).acked)|
  {
    var batch := s.batch + [tile];
    Regroup(Sent(s.acked), Concat(s.pending), s.batch, [tile]);
    if |batch| >= c.tilesPerEvent {
      AddAccounts(c, s.(phase := CapCheck, next := s.next + 1, seen := s.seen + 1, batch := []), batch);
    }
  }

  lemma TakeAccounts(rest: seq<Object>, c: Config, s: State, t: State)
    requires Accounted(rest, s) && s.phase == InPage && s.next < s.end
    requires t.phase == InPage || t.phase == CapCheck
    requires t.page == s.page && t.end == s.end && t.next == s.next + 1 && t.seen == s.seen + |TileOf(rest[s.next])|
    requires Sent(t.acked) + Unsent(t) == Sent(s.acked) + Unsent(s) + TileOf(rest[s.next])
    requires |Sent(s.acked)| <= |Sent(t.acked)|
    ensures Accounted(rest, t)
  {
    TakeNext(rest, s.page, s.next);
  }

  lemma InPageAccounts(rest: seq<Object>, c: Config, s: State)
    requires Accounted(rest, s) && s.phase == InPage && s.next < s.end
    ensures Accounted(rest, Step(rest, c, s))
  {
    if rest[s.next].tile.Some? {
      TakeAdds(c, s, rest[s.next].tile.value);
    } else {
      assert Sent(s.acked) + Unsent(s) + [] == Sent(s.acked) + Unsent(s);
    }
    TakeAccounts(rest, c, s, Step(rest, c, s));
  }

  lemma AccountedKept(rest: seq<Object>, c: Config, marker: Option<string>, s: State)
    requires Places(rest, c, marker, s) && Accounted(rest, s)
    ensures Accounted(rest, Step(rest, c, s))
  {
    match s.phase
    case Fetching => assert Sent(s.acked) == Tiles(rest[..s.next]);
    case InPage => if s.next < s.end { InPageAccounts(rest, c, s); }
    case CapCheck =>
    case LastBatch =>
      if s.batch != [] {
        AddAccounts(c, s.(phase := LastFlush, batch := []), s.batch);
      }
    case LastFlush =>
      SentSnoc(s.acked, s.pending);
      assert Unsent(s) == Concat(s.pending);
    case Checkpoint =>
    case Finished =>
  }

  lemma OneMore(t: Positive, e: Positive, p: nat, b: nat, k: nat)
    requires b < t && p < e && t * p + b == k % (t * e)
    ensures b + 1 < t ==> (k + 1) % (t * e) == t * p + b + 1
    ensures b + 1 == t && p + 1 < e ==> (k + 1) % (t * e) == t * (p + 1)
    ensures b + 1 == t && p + 1 == e ==> (k + 1) % (t * e) == 0
    ensures t * (p + 1) == t * p + t
  {
    NextRemainder(k, t * e);
    Rows(t, p, e);
  }

  lemma TakeLeaves(c: Config, s: State, tile: string, k: nat)
    requires Holding(c, s, k)
    ensures var t := Take(c, s, tile); Holding(c, t, k + 1) && t.phase == CapCheck && t.page == s.page && t.next == s.next + 1
  {
    OneMore(c.tilesPerEvent, c.eventsPerRequest, |s.pending|, |s.batch|, k);
    var batch := s.batch + [tile];
    var t := Take(c, s, tile);
    if |batch| >= c.tilesPerEvent {
      ConcatSnoc(s.pending, batch);
      assert t.batch == [];
      if |s.pending| + 1 >= c.eventsPerRequest {
        assert t.pending == [] && Unsent(t) == [];
      } else {
        assert t.pending == s.pending + [batch] && Unsent(t) == Concat(t.pending);
      }
    } else {
      assert t.batch == batch && t.pending == s.pending;
    }
  }

  lemma InPageLeaves(rest: seq<Object>, c: Config, s: State)
    requires Leftover(rest, c, s) && s.phase == InPage && s.next < s.end <= |rest|
    ensures Leftover(rest, c, Step(rest, c, s))
  {
    var t, k := Step(rest, c, s), |Tiles(rest[s.page..s.next])|;
    TakeNext(rest, s.page, s.next);
    if rest[s.next].tile.Some? {
      TakeLeaves(c, s, rest[s.next].tile.value, k);
      StillHolding(rest, c, t, k + 1);
    } else {
      SameHolding(c, s, t, k);
      StillHolding(rest, c, t, k);
    }
  }

  lemma SameHolding(c: Config, s: State, t: State, k: nat)
    requires Holding(c, s, k) && t.batch == s.batch && t.pending == s.pending
    ensures Holding(c, t, k)
  {
  }

  lemma StillHolding(rest: seq<Object>, c: Config, t: State, k: nat)
    requires t.page <= t.next <= |rest| && k == |Tiles(rest[t.page..t.next])|
    requires t.phase == InPage || t.phase == CapCheck || t.phase == LastBatch
    requires Holding(c, t, k)
    ensures Leftover(rest, c, t)
  {
  }

  lemma PageBegins(rest: seq<Object>, c: Config, t: State)
    requires t.phase == InPage && t.page == t.next <= |rest| && t.batch == [] && t.pending == []
    ensures Leftover(rest, c, t)
  {
    assert rest[t.page..t.next] == [];
  }

  lemma LastBatchLeaves(rest: seq<Object>, c: Config, s: State)
    requires Leftover(rest, c, s) && s.phase == LastBatch
    ensures Leftover(rest, c, Step(rest, c, s))
  {
    if s.batch != [] {
      ConcatSnoc(s.pending, s.batch);
      assert |s.pending + [s.batch]| < c.eventsPerRequest ==> Unsent(Step(rest, c, s)) == Unsent(s);
    }
  }

  lemma LeftoverKept(rest: seq<Object>, c: Config, marker: Option<string>, s: State)
    requires Places(rest, c, marker, s) && Accounted(rest, s) && Leftover(rest, c, s)
    ensures Leftover(rest, c, Step(rest, c, s))
  {
    var t, k := Step(rest, c, s), |Tiles(rest[s.page..s.next])|;
    if s.phase == Fetching {
      if t.phase == InPage { PageBegins(rest, c, t); }
    } else if s.phase == InPage && s.next < s.end {
      InPageLeaves(rest, c, s);
    } else if s.phase == InPage || s.phase == CapCheck {
      SameHolding(c, s, t, k);
      StillHolding(rest, c, t, k);
    } else if s.phase == LastBatch {
      LastBatchLeaves(rest, c, s);
    }
  }

  // ---------------------------------------------------------------- every reachable state

  ghost predicate Inv(rest: seq<Object>, c: Config, marker: Option<string>, s: State)
  {
    && Places(rest, c, marker, s) && Accounted(rest, s) && Capped(rest, c, s)
    && Sizes(c, s) && Leftover(rest, c, s)
  }

  lemma StepKeepsInv(rest: seq<Object>, c: Config, marker: Option<string>, s: State)
    requires Inv(rest, c, marker, s)
    ensures Inv(rest, c, marker, Step(rest, c, s))
  {
    PlacesKept(rest, c, marker, s);
    AccountedKept(rest, c, marker, s);
    CappedKept(rest, c, marker, s);
    SizesKept(rest, c, s);
    LeftoverKept(rest, c, marker, s);
  }

  lemma NextHasInv(rest: seq<Object>, c: Config, marker: Option<string>, s: State, t: State)
    requires Inv(rest, c, marker, s) && t == Step(rest, c, s)
    ensures Inv(rest, c, marker, t)
  {
    StepKeepsInv(rest, c, marker, s);
  }

  lemma StartHasInv(rest: seq<Object>, c: Config, marker: Option<string>)
    ensures Inv(rest, c, marker, Start(marker))
  {
    assert rest[..0] == [];
  }

  lemma {:induction false} Reachable(rest: seq<Object>, c: Config, marker: Option<string>, n: nat)
    ensures Inv(rest, c, marker, StateAt(rest, c, marker, n))
  {
    if n == 0 {
      StartHasInv(rest, c, marker);
    } else {
      Reachable(rest, c, marker, n - 1);
      OneStep(rest, c, marker, n - 1);
      NextHasInv(rest, c, marker, StateAt(rest, c, marker, n - 1), StateAt(rest, c, marker, n));
    }
  }
}
