/** modules/osm/files/bootstrap-tile-storage.py: the program itself, over a container that may
    refuse a listing and an EventGate that may refuse a POST. */
module TileEvents {
  import opened Arithmetic
  import opened Common
  import opened Text
  import opened TileRun
  import opened TileSafety

  class EventSender {
    const eventsPerRequest: Positive
    const accepts: nat -> bool  // EventGate's answer to the n-th POST of this run
    var pending: Request
    var posted: seq<Request>    // what EventGate has accepted
    var eventsSent: nat
    var requestsSent: nat

    constructor (eventsPerRequest: Positive, accepts: nat -> bool)
      ensures this.eventsPerRequest == eventsPerRequest && this.accepts == accepts
      ensures pending == [] && posted == [] && eventsSent == requestsSent == 0
    {
      this.eventsPerRequest, this.accepts := eventsPerRequest, accepts;
      pending, posted, eventsSent, requestsSent := [], [], 0, 0;
    }

    /** What was posted is what EventGate accepted, POST by POST. */
    ghost predicate Valid()
      reads this
    {
      requestsSent == |posted| && forall k :: 0 <= k < requestsSent ==> accepts(k)
    }

    method Flush() returns (ok: bool)
      modifies this
      ensures old(Valid()) ==> Valid()
      ensures ok <==> old(pending) == [] || accepts(old(requestsSent))
      ensures ok ==> pending == [] && posted == old(posted) + if old(pending) == [] then [] else [old(pending)]
      ensures !ok ==> pending == old(pending) && posted == old(posted)
      ensures eventsSent == old(eventsSent) + if ok then |old(pending)| else 0
      ensures requestsSent == old(requestsSent) + if ok && old(pending) != [] then 1 else 0
    {
      if pending == [] { return true; }
      if !accepts(requestsSent) { return false; }
      posted := posted + [pending];
      eventsSent := eventsSent + |pending|;
      requestsSent := requestsSent + 1;
      pending := [];
      return true;
    }

    /** `ok` is false when this event filled a request that was then refused. */
    method AddEvent(e: Event, ghost c: Config, ghost s: State) returns (ok: bool)
      requires c.eventsPerRequest == eventsPerRequest && s.pending == pending && s.acked == posted
      modifies this
      ensures old(Valid()) ==> Valid()
      ensures ok <==> |old(pending)| + 1 < eventsPerRequest || accepts(old(requestsSent))
      ensures ok ==> pending == Add(c, s, e).pending && posted == Add(c, s, e).acked
      ensures !ok ==> posted == old(posted) && requestsSent == old(requestsSent) && Add(c, s, e).acked != s.acked
    {
      pending := pending + [e];
      ok := true;
      if |pending| >= eventsPerRequest {
        ok := Flush();
      }
    }
  }

  /** The first `limit` objects listed after `marker`. */
  function ListPage(objects: seq<Object>, marker: Option<string>, limit: Positive): seq<Object>
  {
    var rest := After(objects, marker);
    if |rest| <= limit then rest else rest[..limit]
  }

  datatype Outcome = Done | Aborted

  /** What may go wrong from outside: the n-th listing or the n-th POST may be refused. */
  datatype Weather = Weather(lists: nat -> bool, accepts: nat -> bool)

  // ---------------------------------------------------------------- the machine's steps, one by one

  /** How many listings it takes to come to an end of a page. */
  function PagesTo(end: nat, size: Positive): nat
  {
    if end == 0 then 0 else 1 + PagesTo(if end < size then 0 else end - size, size)
  }

  lemma {:induction false} OneMorePage(end: nat, k: nat, size: Positive)
    requires PageStart(end, size) && 0 < k <= size
    ensures PagesTo(end + k, size) == PagesTo(end, size) + 1 && (k == size ==> PageStart(end + k, size))
    decreases end
  {
    if end > 0 { OneMorePage(end - size, k, size); }
  }

  /** The machine finished with an empty page, behind a full one or at the very start. */
  predicate OnBoundary(s: State, c: Config)
  {
    !s.done && (s.end == 0 || s.end - s.page == c.pageSize)
  }

  /** `s` is a state of the machine. */
  ghost predicate Reached(rest: seq<Object>, c: Config, marker: Option<string>, s: State)
  {
    exists n: nat :: StateAt(rest, c, marker, n) == s
  }

  lemma ReachedStart(rest: seq<Object>, c: Config, marker: Option<string>)
    ensures Reached(rest, c, marker, Start(marker))
  {
    assert StateAt(rest, c, marker, 0) == Start(marker);
  }

  lemma ReachedNext(rest: seq<Object>, c: Config, marker: Option<string>, s: State)
    requires Reached(rest, c, marker, s)
    ensures Reached(rest, c, marker, Step(rest, c, s))
  {
    var n: nat :| StateAt(rest, c, marker, n) == s;
    OneStep(rest, c, marker, n);
  }

  function Opened(s: State, size: nat): State
  {
    s.(phase := InPage, page := s.end, next := s.end, end := s.end + size)
  }

  lemma NextFetch(rest: seq<Object>, c: Config, marker: Option<string>, s: State, size: nat)
    requires Reached(rest, c, marker, s) && s.phase == Fetching && s.end <= |rest|
    requires size == Min(c.pageSize, |rest| - s.end)
    ensures Reached(rest, c, marker, if size == 0 then s.(phase := Finished) else Opened(s, size))
  {
    ReachedNext(rest, c, marker, s);
  }

  lemma NextObject(rest: seq<Object>, c: Config, marker: Option<string>, s: State)
    requires Reached(rest, c, marker, s) && s.phase == InPage && s.next < s.end <= |rest|
    ensures var tile := rest[s.next].tile;
            Reached(rest, c, marker, if tile.None? then s.(next := s.next + 1) else Take(c, s, tile.value))
  {
    ReachedNext(rest, c, marker, s);
  }

  lemma TakeKeeps(c: Config, s: State, tile: string)
    ensures var t := Take(c, s, tile);
            t.phase == CapCheck && t.next == s.next + 1 && t.page == s.page && t.end == s.end && t.done == s.done
  {
  }

  lemma NextCap(rest: seq<Object>, c: Config, marker: Option<string>, s: State)
    requires Reached(rest, c, marker, s) && s.phase == CapCheck && 0 < s.next <= |rest|
    ensures Reached(rest, c, marker,
                    if c.maxTiles.Some? && s.seen >= c.maxTiles.value
                    then s.(phase := LastBatch, done := true, marker := Some(rest[s.next - 1].name))
                    else s.(phase := InPage))
  {
    ReachedNext(rest, c, marker, s);
  }

  lemma NextEnd(rest: seq<Object>, c: Config, marker: Option<string>, s: State)
    requires Reached(rest, c, marker, s) && s.phase == InPage && s.next == s.end
    ensures Reached(rest, c, marker, s.(phase := LastBatch))
  {
    ReachedNext(rest, c, marker, s);
  }

  function Closing(c: Config, s: State): State
  {
    if s.batch == [] then s.(phase := LastFlush) else Add(c, s.(phase := LastFlush, batch := []), s.batch)
  }

  function Closed(c: Config, s: State): State
  {
    var t := Closing(c, s);
    t.(phase := Checkpoint, pending := [], acked := t.acked + if t.pending == [] then [] else [t.pending])
  }

  lemma ClosedKeeps(c: Config, s: State)
    ensures var t := Closed(c, s); t.phase == Checkpoint && t.page == s.page && t.end == s.end && t.done == s.done
  {
  }

  lemma NextClosing(rest: seq<Object>, c: Config, marker: Option<string>, s: State)
    requires Reached(rest, c, marker, s) && s.phase == LastBatch
    ensures Reached(rest, c, marker, Closing(c, s))
  {
    ReachedNext(rest, c, marker, s);
  }

  lemma NextClosed(rest: seq<Object>, c: Config, marker: Option<string>, s: State)
    requires Reached(rest, c, marker, s) && s.phase == LastBatch
    ensures Reached(rest, c, marker, Closed(c, s))
  {
    NextClosing(rest, c, marker, s);
    var t := Closing(c, s);
    ReachedNext(rest, c, marker, t);
    assert Step(rest, c, t) == Closed(c, s);
  }

  lemma NextPage(rest: seq<Object>, c: Config, marker: Option<string>, s: State)
    requires Reached(rest, c, marker, s) && s.phase == Checkpoint && 0 < s.end <= |rest|
    ensures Reached(rest, c, marker,
                    if s.done then s.(phase := Finished)
                    else s.(phase := if s.end - s.page < c.pageSize then Finished else Fetching, marker := Some(rest[s.end - 1].name)))
  {
    ReachedNext(rest, c, marker, s);
  }

  /** What the safety theorems say of the state a run shows. */
  lemma Verdict(objects: seq<Object>, c: Config, marker: Option<string>, s: State)
    requires SortedNames(objects) && Reached(After(objects, marker), c, marker, s)
    ensures !CanLose(After(objects, marker), c) ==> Tiles(UpTo(After(objects, marker), s.marker)) <= Sent(s.acked)
    ensures s.phase == Finished && c.maxTiles.None? ==> Sent(s.acked) == Tiles(After(objects, marker))
  {
    var n: nat :| StateAt(After(objects, marker), c, marker, n) == s;
    PromiseIffNoLeftover(objects, c, marker);
    if !CanLose(After(objects, marker), c) {
      assert Promised(objects, marker, RunAt(objects, c, marker, n));
    }
    PlacesAt(After(objects, marker), c, marker, n);
    if s.phase == Finished && c.maxTiles.None? {
      FinishedHasAll(objects, Run.Run(c, marker, n));
    }
  }

  /** Listing by the name of the last object seen goes on where the machine goes on. */
  lemma PageIsSlice(objects: seq<Object>, c: Config, marker: Option<string>, i: nat, listMarker: Option<string>)
    requires SortedNames(objects) && i <= |After(objects, marker)|
    requires listMarker == MarkerAt(After(objects, marker), marker, i)
    ensures var rest, names := After(objects, marker), ListPage(objects, listMarker, c.pageSize);
            && |names| == Min(c.pageSize, |rest| - i)
            && names == rest[i..i + |names|]
            && (names != [] ==> MarkerAt(rest, marker, i + |names|) == Some(names[|names| - 1].name))
  {
    AfterMarkerAt(objects, marker, i);
  }

  // ---------------------------------------------------------------- when a run completes

  lemma StepGrows(rest: seq<Object>, c: Config, s: State)
    requires s.end <= |rest|
    ensures |s.acked| <= |Step(rest, c, s).acked| && s.end <= Step(rest, c, s).end
  {
  }

  ghost predicate Grows(s: State, t: State)
  {
    |s.acked| <= |t.acked| && s.end <= t.end && (s.phase == Finished ==> t == s)
  }

  lemma NextGrows(rest: seq<Object>, c: Config, marker: Option<string>, n: nat)
    ensures Grows(StateAt(rest, c, marker, n), StateAt(rest, c, marker, n + 1))
  {
    OneStep(rest, c, marker, n);
    PlacesAt(rest, c, marker, n);
    StepGrows(rest, c, StateAt(rest, c, marker, n));
  }

  lemma {:induction false} RunGrows(rest: seq<Object>, c: Config, marker: Option<string>, m: nat, n: nat)
    requires m <= n
    ensures Grows(StateAt(rest, c, marker, m), StateAt(rest, c, marker, n))
    decreases n
  {
    if m < n {
      RunGrows(rest, c, marker, m, n - 1);
      NextGrows(rest, c, marker, n - 1);
    }
  }

  /** Another page is fetched only at the start or behind a full page. */
  lemma FetchesBehindFull(rest: seq<Object>, c: Config, marker: Option<string>, n: nat)
    ensures var s := StateAt(rest, c, marker, n); s.phase == Fetching ==> s.end == 0 || s.end - s.page == c.pageSize
  {
    if n > 0 {
      OneStep(rest, c, marker, n - 1);
      PlacesAt(rest, c, marker, n - 1);
    }
  }

  lemma {:induction false} PagesGrow(p: nat, q: nat, size: Positive)
    requires p <= q
    ensures PagesTo(p, size) <= PagesTo(q, size)
    decreases q
  {
    if p > 0 { PagesGrow(if p < size then 0 else p - size, if q < size then 0 else q - size, size); }
  }

  /** The machine finishes with all listings and POSTs that it takes for that accepted. */
  ghost predicate Completed(c: Config, w: Weather, s: State)
  {
    && s.phase == Finished && (forall k :: 0 <= k < |s.acked| ==> w.accepts(k))
    && (forall k: nat :: k < PagesTo(s.end, c.pageSize) ==> w.lists(k))
    && (OnBoundary(s, c) ==> w.lists(PagesTo(s.end, c.pageSize)))
  }

  /** The machine cannot go on: the next POST or the next listing is refused. */
  ghost predicate Stopped(rest: seq<Object>, c: Config, w: Weather, s: State)
  {
    || (Step(rest, c, s).acked != s.acked && !w.accepts(|s.acked|))
    || (s.phase == Fetching && !w.lists(PagesTo(s.end, c.pageSize)))
  }

  /** A run that is stopped somewhere does not complete. */
  lemma NeverBoth(rest: seq<Object>, c: Config, marker: Option<string>, w: Weather, s: State, t: State)
    requires Reached(rest, c, marker, s) && Reached(rest, c, marker, t)
    ensures !(Stopped(rest, c, w, s) && Completed(c, w, t))
  {
    var m: nat :| StateAt(rest, c, marker, m) == s;
    var n: nat :| StateAt(rest, c, marker, n) == t;
    PlacesAt(rest, c, marker, m);
    FetchesBehindFull(rest, c, marker, m);
    if n <= m {
      RunGrows(rest, c, marker, n, m);
    } else {
      OneStep(rest, c, marker, m);
      StepGrows(rest, c, s);
      RunGrows(rest, c, marker, m + 1, n);
      if s.phase == Fetching { FetchCounts(rest, c, marker, s, t.end); }
    }
  }

  lemma FetchCounts(rest: seq<Object>, c: Config, marker: Option<string>, s: State, end: nat)
    requires Places(rest, c, marker, s) && s.phase == Fetching && (s.end == 0 || s.end - s.page == c.pageSize)
    ensures var u := Step(rest, c, s);
            if u.phase == Finished then u.end == s.end && OnBoundary(u, c)
            else u.end <= end ==> PagesTo(s.end, c.pageSize) < PagesTo(end, c.pageSize)
  {
    var u := Step(rest, c, s);
    if u.phase != Finished && u.end <= end {
      OneMorePage(s.end, u.end - s.end, c.pageSize);
      PagesGrow(u.end, end, c.pageSize);
    }
  }

  // ---------------------------------------------------------------- the program

  /** The program's variables. */
  datatype Vars = Vars(
    pending: Request, posted: seq<Request>, batch: Event, tilesSeen: nat, lastMarker: Option<string>, done: bool)

  function VarsOf(s: State): Vars
  {
    Vars(s.pending, s.acked, s.batch, s.seen, s.marker, s.done)
  }

  class Invalidator {
    const objects: seq<Object>
    const c: Config
    const marker: Option<string>
    const weather: Weather
    const sender: EventSender
    var batch: Event
    var tilesSeen: nat
    var lastMarker: Option<string>
    var done: bool

    constructor (objects: seq<Object>, c: Config, marker: Option<string>, weather: Weather)
      ensures this.objects == objects && this.c == c && this.marker == marker && this.weather == weather
      ensures fresh(sender) && sender.accepts == weather.accepts && Is(Start(marker))
    {
      this.objects, this.c, this.marker, this.weather := objects, c, marker, weather;
      sender := new EventSender(c.eventsPerRequest, weather.accepts);
      batch, tilesSeen, lastMarker, done := [], 0, marker, false;
    }

    ghost function Rest(): seq<Object>
    {
      After(objects, marker)
    }

    /** `s` is a state of the machine on this run's listing. */
    ghost predicate Can(s: State)
    {
      Reached(Rest(), c, marker, s)
    }

    /** The program's variables are those of state `s`. */
    ghost predicate Is(s: State)
      reads this, sender
    {
      && sender.eventsPerRequest == c.eventsPerRequest && sender.Valid()
      && Vars(sender.pending, sender.posted, batch, tilesSeen, lastMarker, done) == VarsOf(s)
    }

    /** What an observer of an aborted program sees: what was accepted, and the reported marker. */
    ghost predicate Shows(s: State)
      reads this, sender
    {
      sender.Valid() && sender.posted == s.acked && lastMarker == s.marker
    }

    /** The program shows state `s`, and the POST with which the machine goes on is refused. */
    ghost predicate Refused(s: State)
      reads this, sender
    {
      Shows(s) && Step(Rest(), c, s).acked != s.acked && !sender.accepts(|s.acked|)
    }

    /** One tile of the page, up to the test of the cap. */
    method TakeTile(tile: string, ghost s: State) returns (ok: bool)
      requires Is(s)
      modifies this`batch, this`tilesSeen, sender
      ensures ok ==> Is(Take(c, s, tile))
      ensures !ok ==> Shows(s) && Take(c, s, tile).acked != s.acked && !sender.accepts(|s.acked|)
    {
      batch := batch + [tile];
      tilesSeen := tilesSeen + 1;
      ok := true;
      if |batch| >= c.tilesPerEvent {
        ok := sender.AddEvent(batch, c, s);
        if ok { batch := []; }
      }
    }

    /** The test of --max-tiles after a tile. */
    method CheckCap(name: string, ghost s: State) returns (ghost t: State)
      requires Can(s) && Is(s) && s.phase == CapCheck && !s.done
      requires 0 < s.next <= |Rest()| && name == Rest()[s.next - 1].name
      modifies this`done, this`lastMarker
      ensures Can(t) && Is(t)
      ensures t == s.(phase := if done then LastBatch else InPage, done := done, marker := t.marker)
    {
      NextCap(Rest(), c, marker, s);
      t := s.(phase := InPage);
      if c.maxTiles.Some? && tilesSeen >= c.maxTiles.value {
        done := true;
        lastMarker := Some(name);
        t := s.(phase := LastBatch, done := true, marker := lastMarker);
      }
    }

    /** One round of the loop over the names of a page. */
    method OneObject(name: Object, ghost s: State) returns (ok: bool, ghost t: State)
      requires Can(s) && Is(s) && s.phase == InPage && !s.done
      requires s.next < s.end <= |Rest()| && name == Rest()[s.next]
      modifies this, sender
      ensures Can(t) && (if ok then Is(t) && Stands(t, s.page, s.next + 1, s.end) else Refused(t) && t.end == s.end)
    {
      t := s;
      ok := true;
      NextObject(Rest(), c, marker, s);
      if name.tile.None? {
        t := s.(next := s.next + 1);
      } else {
        ok := TakeTile(name.tile.value, s);
        if ok {
          TakeKeeps(c, s, name.tile.value);
          t := CheckCap(name.name, Take(c, s, name.tile.value));
        }
      }
    }

    /** In a page, or at its end with the cap reached. */
    ghost predicate Stands(t: State, page: nat, next: nat, end: nat)
      reads this
    {
      t.phase == (if done then LastBatch else InPage) && t.done == done && t.page == page && t.next == next && t.end == end
    }

    /** The loop over the names of a page; `t` is where the machine stands after it. */
    method OnePage(names: seq<Object>, ghost s: State) returns (ok: bool, ghost t: State)
      requires Can(s) && Is(s) && Stands(s, s.page, s.page, s.end) && !done
      requires s.page <= s.end <= |Rest()| && names == Rest()[s.page..s.end]
      modifies this, sender
      ensures Can(t)
      ensures if ok then Is(t) && t.phase == LastBatch && t.page == s.page && t.end == s.end else Refused(t) && t.end == s.end
    {
      t := s;
      ok := true;
      var k := 0;
      while k < |names| && ok && !done
        invariant k <= |names| && Can(t)
        invariant if ok then Is(t) && Stands(t, s.page, s.page + k, s.end) else Refused(t) && t.end == s.end
      {
        ok, t := OneObject(names[k], t);
        k := k + 1;
      }
      if ok && !done {
        NextEnd(Rest(), c, marker, t);
        t := t.(phase := LastBatch);
      }
    }

    /** The flush that closes a page. */
    method ClosePage(ghost s: State) returns (ok: bool, ghost t: State)
      requires Can(s) && Is(s) && s.phase == LastBatch
      modifies this, sender
      ensures Can(t) && (if ok then Is(t) && t == Closed(c, s) else Refused(t) && t.end == s.end)
    {
      NextClosing(Rest(), c, marker, s);
      NextClosed(Rest(), c, marker, s);
      t := s;
      ok := true;
      if batch != [] {
        ok := sender.AddEvent(batch, c, s.(phase := LastFlush, batch := []));
        if ok { batch := []; }
      }
      if ok {
        t := Closing(c, s);
        ok := sender.Flush();
        if ok { t := Closed(c, s); }
      }
    }

    /** The next page of the listing and the machine's fetch of it. */
    method FetchPage(listMarker: Option<string>, ghost s: State) returns (names: seq<Object>)
      requires SortedNames(objects) && Can(s) && s.phase == Fetching && s.end <= |Rest()|
      requires listMarker == MarkerAt(Rest(), marker, s.end)
      ensures s.end + |names| <= |Rest()| && |names| <= c.pageSize && names == Rest()[s.end..s.end + |names|]
      ensures names != [] ==> MarkerAt(Rest(), marker, s.end + |names|) == Some(names[|names| - 1].name)
      ensures Can(if |names| == 0 then s.(phase := Finished) else Opened(s, |names|))
    {
      names := ListPage(objects, listMarker, c.pageSize);
      PageIsSlice(objects, c, marker, s.end, listMarker);
      NextFetch(Rest(), c, marker, s, |names|);
    }

    /** The checkpoint after the last flush of a page; `more` tells whether another page follows. */
    method MoveMarker(names: seq<Object>, ghost s: State) returns (more: bool, ghost t: State)
      requires Can(s) && Is(s) && s.phase == Checkpoint && s.page < s.end <= |Rest()| && names == Rest()[s.page..s.end]
      modifies this`lastMarker
      ensures Can(t) && Is(t) && t.end == s.end && t.page == s.page
      ensures if more then t.phase == Fetching && !done && |names| >= c.pageSize
              else t.phase == Finished && (done || |names| < c.pageSize)
    {
      NextPage(Rest(), c, marker, s);
      more := false;
      if done {
        t := s.(phase := Finished);
      } else {
        lastMarker := Some(names[|names| - 1].name);
        more := |names| >= c.pageSize;
        t := s.(phase := if more then Fetching else Finished, marker := lastMarker);
      }
    }

    /** One page from its listing to its checkpoint. */
    method OnePass(names: seq<Object>, ghost s: State) returns (ok: bool, more: bool, ghost t: State)
      requires 0 < |names| <= c.pageSize && Can(s) && Is(s) && Stands(s, s.page, s.page, s.end) && !done
      requires s.page < s.end <= |Rest()| && names == Rest()[s.page..s.end]
      modifies this, sender
      ensures Can(t) && (if ok then Is(t) && t.end == s.end else Refused(t) && t.end == s.end)
      ensures ok ==> if more then t.phase == Fetching && !done && |names| == c.pageSize else t.phase == Finished && !OnBoundary(t, c)
    {
      more := false;
      ok, t := OnePage(names, s);
      if ok {
        ClosedKeeps(c, t);
        ok, t := ClosePage(t);
        if ok {
          more, t := MoveMarker(names, t);
        }
      }
    }

    /** How a run ends: with the machine, everything having been accepted, or where it is stopped. */
    ghost predicate Ends(s: State, outcome: Outcome)
      reads this, sender
    {
      Can(s) && Shows(s) && if outcome == Done then Completed(c, weather, s) else Stopped(Rest(), c, weather, s)
    }

    /** Before a listing: the machine stands at a fetch, behind `pages` accepted listings. */
    ghost predicate Underway(s: State, listMarker: Option<string>, pages: nat)
      reads this, sender
    {
      && Can(s) && Is(s) && s.phase == Fetching && !done && s.end <= |Rest()|
      && listMarker == MarkerAt(Rest(), marker, s.end)
      && pages == PagesTo(s.end, c.pageSize) && PageStart(s.end, c.pageSize)
      && forall k: nat :: k < pages ==> weather.lists(k)
    }

    /** A listing and, if it yields anything, its page. */
    method OneListing(listMarker: Option<string>, pages: nat, ghost s: State)
      returns (outcome: Outcome, more: bool, next: Option<string>, ghost t: State)
      requires SortedNames(objects) && sender.accepts == weather.accepts && Underway(s, listMarker, pages)
      modifies this, sender
      ensures if outcome == Done && more then Underway(t, next, pages + 1) && s.end < t.end else Ends(t, outcome)
    {
      outcome, more, next, t := Done, false, listMarker, s;
      if !weather.lists(pages) { return Aborted, more, next, t; }
      var names := FetchPage(listMarker, s);
      if names == [] {
        t := s.(phase := Finished);
        return;
      }
      OneMorePage(s.end, |names|, c.pageSize);
      var ok;
      ok, more, t := OnePass(names, Opened(s, |names|));
      next := Some(names[|names| - 1].name);
      if !ok { outcome := Aborted; }
    }

    /** The loop over the pages of the listing. */
    method Pages() returns (outcome: Outcome, ghost s: State)
      requires SortedNames(objects) && Is(Start(marker)) && sender.accepts == weather.accepts
      modifies this, sender
      ensures Ends(s, outcome)
    {
      s := Start(marker);
      ReachedStart(Rest(), c, marker);
      var listMarker, pages, more := marker, 0, true;
      outcome := Done;
      while more && outcome == Done
        invariant if outcome == Done && more then Underway(s, listMarker, pages) else Ends(s, outcome)
        decreases more && outcome == Done, |Rest()| - s.end
      {
        outcome, more, listMarker, s := OneListing(listMarker, pages, s);
        pages := pages + 1;
      }
    }

    /** The program says Done exactly if the machine can complete, and otherwise stops where the
        machine is stopped. What it shows is what that state shows; so the promise of its marker holds
        unless the cap can lose tiles. */
    method Run() returns (outcome: Outcome, ghost s: State)
      requires SortedNames(objects) && Is(Start(marker)) && sender.accepts == weather.accepts
      modifies this, sender
      ensures Ends(s, outcome)
      ensures outcome == Done <==> exists t :: Can(t) && Completed(c, weather, t)
      ensures !CanLose(Rest(), c) ==> Tiles(UpTo(Rest(), lastMarker)) <= Sent(sender.posted)
      ensures outcome == Done && c.maxTiles.None? ==> Sent(sender.posted) == Tiles(Rest())
    {
      outcome, s := Pages();
      Verdict(objects, c, marker, s);
      if outcome == Aborted {
        forall t | Can(t) ensures !Completed(c, weather, t) { NeverBoth(Rest(), c, marker, weather, s, t); }
      }
    }
  }
}
