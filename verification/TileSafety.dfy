/** modules/osm/files/bootstrap-tile-storage.py: what a run guarantees wherever it stops, when it
    can lose tiles, and what a chain of resumed runs sends. */
module TileSafety {
  import opened Common
  import opened Text
  import opened TileRun

  // ---------------------------------------------------------------- markers and listings

  lemma {:induction false} AfterDrops(objects: seq<Object>, marker: Option<string>, j: nat)
    requires j <= |objects|
    requires forall i :: 0 <= i < j ==> !Past(marker, objects[i].name)
    requires j < |objects| ==> Past(marker, objects[j].name)
    ensures After(objects, marker) == objects[j..]
    decreases j
  {
    if j > 0 { AfterDrops(objects[1..], marker, j - 1); }
  }

  lemma PastIsMonotone(a: string, b: string, marker: Option<string>)
    requires LexLt(a, b) && Past(marker, a)
    ensures Past(marker, b)
  {
    if marker.Some? {
      LexTransitive(marker.value, a, b);
      if marker.value == b { LexAntisymmetric(a, b); }
    }
  }

  /** On a sorted listing `After` keeps exactly the names past the marker. */
  lemma {:induction false} AfterIsFilter(objects: seq<Object>, marker: Option<string>)
    requires SortedNames(objects)
    ensures forall o :: o in After(objects, marker) <==> o in objects && Past(marker, o.name)
    ensures SortedNames(After(objects, marker))
    decreases |objects|
  {
    if objects != [] && !Past(marker, objects[0].name) {
      AfterIsFilter(objects[1..], marker);
    } else {
      forall i | 0 <= i < |objects| ensures Past(marker, objects[i].name) {
        if i > 0 { PastIsMonotone(objects[0].name, objects[i].name, marker); }
      }
    }
  }

  /** Listing after the name of object i-1 resumes at object i. */
  lemma AfterName(objects: seq<Object>, i: nat)
    requires SortedNames(objects) && 0 < i <= |objects|
    ensures After(objects, Some(objects[i - 1].name)) == objects[i..]
  {
    var m := Some(objects[i - 1].name);
    forall j | 0 <= j < i ensures !Past(m, objects[j].name) {
      if j < i - 1 && LexLe(m.value, objects[j].name) {
        LexAntisymmetric(m.value, objects[j].name);
      }
    }
    AfterDrops(objects, m, i);
  }

  lemma AfterMarkerAt(objects: seq<Object>, marker: Option<string>, i: nat)
    requires SortedNames(objects) && i <= |After(objects, marker)|
    ensures var rest := After(objects, marker); After(objects, MarkerAt(rest, marker, i)) == rest[i..]
  {
    var rest := After(objects, marker);
    if i > 0 {
      var k := |objects| - |rest| + i;
      assert objects[k - 1] == rest[i - 1];
      AfterName(objects, k);
    }
  }

  lemma {:induction false} AfterTwice(objects: seq<Object>, marker: Option<string>)
    ensures After(After(objects, marker), marker) == After(objects, marker)
  {
    if objects != [] && !Past(marker, objects[0].name) { AfterTwice(objects[1..], marker); }
  }

  lemma SuffixSorted(objects: seq<Object>, k: nat)
    requires SortedNames(objects) && k <= |objects|
    ensures SortedNames(objects[k..])
  {
    forall i, j | 0 <= i < j < |objects[k..]|
      ensures LexLt(objects[k..][i].name, objects[k..][j].name)
    {
      assert objects[k..][i] == objects[k + i] && objects[k..][j] == objects[k + j];
    }
  }

  lemma UpToName(rest: seq<Object>, i: nat)
    requires SortedNames(rest) && 0 < i <= |rest|
    ensures UpTo(rest, Some(rest[i - 1].name)) == rest[..i]
  {
    AfterName(rest, i);
  }

  lemma UpToMarkerAt(objects: seq<Object>, marker: Option<string>, i: nat)
    requires SortedNames(objects) && i <= |After(objects, marker)|
    ensures var rest := After(objects, marker); UpTo(rest, MarkerAt(rest, marker, i)) == rest[..i]
  {
    if i == 0 {
      AfterTwice(objects, marker);
    } else {
      SuffixSorted(objects, |objects| - |After(objects, marker)|);
      UpToName(After(objects, marker), i);
    }
  }

  // ---------------------------------------------------------------- stopping anywhere

  /** A run on the listing of a container, as it stands after `n` steps. */
  function RunAt(objects: seq<Object>, c: Config, marker: Option<string>, n: nat): State
  {
    StateAt(After(objects, marker), c, marker, n)
  }

  /** What the checkpoint promises: every tile up to and including the reported marker is sent. */
  predicate Promised(objects: seq<Object>, marker: Option<string>, s: State)
  {
    Tiles(UpTo(After(objects, marker), s.marker)) <= Sent(s.acked)
  }

  lemma PrefixSent(a: seq<string>, b: seq<string>, whole: seq<string>, part: seq<string>, more: seq<string>)
    requires a + b == whole && whole == part + more && |part| <= |a|
    ensures part <= a
  {
    assert part == whole[..|part|] == a[..|part|];
  }

  lemma PlacesAt(rest: seq<Object>, c: Config, marker: Option<string>, n: nat)
    ensures Places(rest, c, marker, StateAt(rest, c, marker, n))
    ensures Capped(rest, c, StateAt(rest, c, marker, n))
  {
    Reachable(rest, c, marker, n);
  }

  lemma AccountedAt(rest: seq<Object>, c: Config, marker: Option<string>, n: nat)
    ensures Accounted(rest, StateAt(rest, c, marker, n))
  {
    Reachable(rest, c, marker, n);
  }

  /** At any point of any run the promise holds, unless --max-tiles was reached and tiles wait
      for the last flush: the marker is set before that flush. */
  lemma PromiseAtAnyPoint(objects: seq<Object>, c: Config, marker: Option<string>, n: nat)
    requires SortedNames(objects)
    ensures var s := RunAt(objects, c, marker, n);
            Promised(objects, marker, s) <==> !(s.done && Unsent(s) != [])
  {
    var rest, s := After(objects, marker), RunAt(objects, c, marker, n);
    PlacesAt(rest, c, marker, n);
    AccountedAt(rest, c, marker, n);
    if s.done || s.phase == Fetching || s.phase == Finished {
      UpToMarkerAt(objects, marker, s.next);
      AllClaimed(rest, s);
    } else {
      UpToMarkerAt(objects, marker, s.page);
      PageClaimed(rest, s);
    }
  }

  lemma AllClaimed(rest: seq<Object>, s: State)
    requires Accounted(rest, s)
    ensures Tiles(rest[..s.next]) <= Sent(s.acked) <==> Unsent(s) == []
  {
    assert |Tiles(rest[..s.next])| == |Sent(s.acked)| + |Unsent(s)|;
    if Unsent(s) == [] {
      assert Sent(s.acked) + [] == Sent(s.acked);
    }
  }

  lemma PageClaimed(rest: seq<Object>, s: State)
    requires Accounted(rest, s)
    ensures Tiles(rest[..s.page]) <= Sent(s.acked)
  {
    TilesTake(rest, s.page, s.next);
    PrefixSent(Sent(s.acked), Unsent(s), Tiles(rest[..s.next]), Tiles(rest[..s.page]), Tiles(rest[s.page..s.next]));
  }

  /** A finished run has sent every tile after its marker once and in order, or the first
      --max-tiles of them; and at no point is an event or a request oversized. */
  lemma FinishedSendsAll(objects: seq<Object>, c: Config, marker: Option<string>, n: nat)
    ensures var rest, s := After(objects, marker), RunAt(objects, c, marker, n);
            && s.next <= |rest|
            && (s.phase == Finished ==> Sent(s.acked) == Tiles(rest[..s.next]))
            && (s.phase == Finished && !s.done ==> s.next == |rest|)
            && (s.done ==> c.maxTiles == Some(|Tiles(rest[..s.next])|))
            && (forall i :: 0 <= i < |s.acked| ==> FitRequest(c, s.acked[i]))
  {
    var rest, s := After(objects, marker), RunAt(objects, c, marker, n);
    Reachable(rest, c, marker, n);
    assert s.phase == Finished ==> Sent(s.acked) + [] == Tiles(rest[..s.next]);
  }

  // ---------------------------------------------------------------- when tiles can be lost

  /** Object `i` is on the page that begins with object `q`. */
  ghost predicate OnPage(rest: seq<Object>, c: Config, q: nat, i: nat)
  {
    q <= i < |rest| && i < q + c.pageSize && PageStart(q, c.pageSize)
  }

  /** The cap falls on a tile that leaves a request of its page incomplete. */
  ghost predicate CapLeaves(rest: seq<Object>, c: Config, q: nat, i: nat)
  {
    && OnPage(rest, c, q, i)
    && rest[i].tile.Some?
    && c.maxTiles == Some(|Tiles(rest[..i + 1])|)
    && |Tiles(rest[q..i + 1])| % Full(c) != 0
  }

  ghost predicate CanLose(rest: seq<Object>, c: Config)
  {
    exists q, i :: CapLeaves(rest, c, q, i)
  }

  lemma {:induction false} OnePageStart(p: nat, q: nat, size: Positive, i: nat)
    requires PageStart(p, size) && PageStart(q, size) && p <= i < p + size && q <= i < q + size
    ensures p == q
    decreases p + q
  {
    if p >= size && q >= size {
      OnePageStart(p - size, q - size, size, i - size);
    }
  }

  lemma LeavePage(rest: seq<Object>, c: Config, marker: Option<string>, s: State)
    requires Places(rest, c, marker, s) && s.phase == InPage && s.next == s.end < |rest|
    ensures var t := Step(rest, c, Step(rest, c, Step(rest, c, Step(rest, c, s))));
            t.phase == Fetching && t.end == s.end
  {
    var s1 := Step(rest, c, s);
    var s2 := Step(rest, c, s1);
    assert s2.phase == LastFlush && s2.end == s.end && s2.page == s.page && !s2.done;
    var s3 := Step(rest, c, s2);
    assert s3.phase == Checkpoint && s3.end == s.end && s3.page == s.page && !s3.done;
  }

  /** From the end of a full page the run comes to the start of the next one. */
  lemma TurnPage(rest: seq<Object>, c: Config, marker: Option<string>, n: nat)
    requires var s := StateAt(rest, c, marker, n); s.phase == InPage && s.next == s.end < |rest|
    ensures var s, t := StateAt(rest, c, marker, n), StateAt(rest, c, marker, n + 5);
            t.phase == InPage && t.next == s.next < t.end
  {
    PlacesAt(rest, c, marker, n);
    LeavePage(rest, c, marker, StateAt(rest, c, marker, n));
    FourSteps(rest, c, marker, n);
    PlacesAt(rest, c, marker, n + 4);
    OneStep(rest, c, marker, n + 4);
  }

  lemma FourSteps(rest: seq<Object>, c: Config, marker: Option<string>, n: nat)
    ensures StateAt(rest, c, marker, n + 4)
            == Step(rest, c, Step(rest, c, Step(rest, c, Step(rest, c, StateAt(rest, c, marker, n)))))
  {
    OneStep(rest, c, marker, n);
    OneStep(rest, c, marker, n + 1);
    OneStep(rest, c, marker, n + 2);
  }

  lemma PassStep(rest: seq<Object>, c: Config, s: State)
    requires s.phase == InPage && s.next < s.end <= |rest|
    ensures var t := Step(rest, c, s);
            && (t.phase == InPage || t.phase == CapCheck) && t.next == s.next + 1 && t.end == s.end && t.page == s.page
            && (rest[s.next].tile.Some? ==> t.phase == CapCheck)
  {
  }

  lemma CheckStep(rest: seq<Object>, c: Config, t: State)
    requires t.phase == CapCheck && (c.maxTiles.Some? ==> t.seen < c.maxTiles.value)
    ensures Step(rest, c, t) == t.(phase := InPage)
  {
  }

  /** Inside a page the run passes an object that does not bring it to the cap. */
  lemma PassOne(rest: seq<Object>, c: Config, marker: Option<string>, n: nat, i: nat) returns (m: nat)
    requires var s := StateAt(rest, c, marker, n); s.phase == InPage && s.next == i < s.end <= |rest|
    requires c.maxTiles.Some? ==> |Tiles(rest[..i + 1])| < c.maxTiles.value
    ensures var t := StateAt(rest, c, marker, m); t.phase == InPage && t.next == i + 1 <= t.end
  {
    var s, t := Around(rest, c, marker, n);
    PassBelowCap(rest, c, s, t, i);
    m := n + 1;
    if t.phase == CapCheck {
      var _, u := Around(rest, c, marker, n + 1);
      m := n + 2;
    }
  }

  /** Two states in a row. */
  lemma Around(rest: seq<Object>, c: Config, marker: Option<string>, n: nat) returns (s: State, t: State)
    ensures s == StateAt(rest, c, marker, n) && t == StateAt(rest, c, marker, n + 1) && t == Step(rest, c, s)
    ensures Places(rest, c, marker, s) && Accounted(rest, t)
  {
    s, t := StateAt(rest, c, marker, n), StateAt(rest, c, marker, n + 1);
    PlacesAt(rest, c, marker, n);
    AccountedAt(rest, c, marker, n + 1);
  }

  lemma PassBelowCap(rest: seq<Object>, c: Config, s: State, t: State, i: nat)
    requires s.phase == InPage && s.next == i < s.end <= |rest| && t == Step(rest, c, s) && Accounted(rest, t)
    requires c.maxTiles.Some? ==> |Tiles(rest[..i + 1])| < c.maxTiles.value
    ensures var u := if t.phase == CapCheck then Step(rest, c, t) else t; u.phase == InPage && u.next == i + 1 <= u.end
  {
    PassStep(rest, c, s);
    if t.phase == CapCheck { CheckStep(rest, c, t); }
  }

  lemma FirstPage(rest: seq<Object>, c: Config, marker: Option<string>)
    requires rest != []
    ensures var s := StateAt(rest, c, marker, 1); s.phase == InPage && s.next == 0 < s.end <= |rest|
  {
    assert StateAt(rest, c, marker, 0) == Start(marker);
  }

  /** Below the cap the run comes to look at every object. */
  lemma {:induction false} Reaches(rest: seq<Object>, c: Config, marker: Option<string>, i: nat) returns (n: nat)
    requires i < |rest|
    requires c.maxTiles.Some? ==> |Tiles(rest[..i])| < c.maxTiles.value
    ensures var s := StateAt(rest, c, marker, n); s.phase == InPage && s.next == i < s.end <= |rest|
    decreases i
  {
    if i == 0 {
      n := 1;
      FirstPage(rest, c, marker);
    } else {
      TakeNext(rest, 0, i - 1);
      n := Reaches(rest, c, marker, i - 1);
      n := PassOne(rest, c, marker, n, i - 1);
      n := IntoPage(rest, c, marker, n, i);
    }
  }

  lemma IntoPage(rest: seq<Object>, c: Config, marker: Option<string>, n: nat, i: nat) returns (m: nat)
    requires var s := StateAt(rest, c, marker, n); s.phase == InPage && s.next == i < |rest|
    ensures var s := StateAt(rest, c, marker, m); s.phase == InPage && s.next == i < s.end <= |rest|
  {
    m := n;
    PlacesAt(rest, c, marker, n);
    if StateAt(rest, c, marker, n).end == i {
      TurnPage(rest, c, marker, n);
      m := n + 5;
      PlacesAt(rest, c, marker, m);
    }
  }

  /** The promise survives every abort exactly when the cap does not fall inside a request:
      --max-tiles unset, not reached, or reached on the last tile of a full request. */
  lemma PromiseIffNoLeftover(objects: seq<Object>, c: Config, marker: Option<string>)
    requires SortedNames(objects)
    ensures (forall n :: Promised(objects, marker, RunAt(objects, c, marker, n)))
            <==> !CanLose(After(objects, marker), c)
  {
    var rest := After(objects, marker);
    if CanLose(rest, c) {
      var q, i :| CapLeaves(rest, c, q, i);
      var n := LosingPoint(rest, c, marker, q, i);
      PromiseAtAnyPoint(objects, c, marker, n);
    } else {
      forall n ensures Promised(objects, marker, RunAt(objects, c, marker, n)) {
        PromiseAtAnyPoint(objects, c, marker, n);
        NoLosingPoint(rest, c, marker, n);
      }
    }
  }

  lemma LosingPoint(rest: seq<Object>, c: Config, marker: Option<string>, q: nat, i: nat) returns (n: nat)
    requires CapLeaves(rest, c, q, i)
    ensures var s := StateAt(rest, c, marker, n); s.done && Unsent(s) != []
  {
    TakeNext(rest, 0, i);
    n := Reaches(rest, c, marker, i);
    n := n + 1;
    AtCap(rest, c, marker, n, q, i);
    LeftoverAtCap(rest, c, marker, n);
    CapStep(rest, c, StateAt(rest, c, marker, n));
    OneStep(rest, c, marker, n);
    n := n + 1;
  }

  lemma AtCap(rest: seq<Object>, c: Config, marker: Option<string>, n: nat, q: nat, i: nat)
    requires n > 0 && OnPage(rest, c, q, i) && rest[i].tile.Some?
    requires var s := StateAt(rest, c, marker, n - 1); s.phase == InPage && s.next == i < s.end <= |rest|
    ensures var t := StateAt(rest, c, marker, n); t.phase == CapCheck && t.next == i + 1 && t.page == q
  {
    var s, t := Around(rest, c, marker, n - 1);
    TakeTheCap(rest, c, marker, s, t, q, i);
  }

  lemma TakeTheCap(rest: seq<Object>, c: Config, marker: Option<string>, s: State, t: State, q: nat, i: nat)
    requires Places(rest, c, marker, s) && OnPage(rest, c, q, i) && rest[i].tile.Some? && t == Step(rest, c, s)
    requires s.phase == InPage && s.next == i < s.end <= |rest|
    ensures t.phase == CapCheck && t.next == i + 1 && t.page == q
  {
    OnePageStart(s.page, q, c.pageSize, i);
    PassStep(rest, c, s);
  }

  lemma CapStep(rest: seq<Object>, c: Config, t: State)
    requires t.phase == CapCheck && 0 < t.next <= |rest| && c.maxTiles.Some? && t.seen >= c.maxTiles.value
    ensures var u := Step(rest, c, t); u.done && Unsent(u) == Unsent(t)
  {
  }

  lemma LeftoverAtCap(rest: seq<Object>, c: Config, marker: Option<string>, n: nat)
    requires StateAt(rest, c, marker, n).phase == CapCheck
    ensures var s := StateAt(rest, c, marker, n);
            && s.page <= s.next <= |rest| && s.seen == |Tiles(rest[..s.next])|
            && |Unsent(s)| == |Tiles(rest[s.page..s.next])| % Full(c)
  {
    Reachable(rest, c, marker, n);
  }

  lemma NoLosingPoint(rest: seq<Object>, c: Config, marker: Option<string>, n: nat)
    requires !CanLose(rest, c)
    ensures var s := StateAt(rest, c, marker, n); !(s.done && Unsent(s) != [])
  {
    var s := StateAt(rest, c, marker, n);
    Reachable(rest, c, marker, n);
    if s.done && Unsent(s) != [] {
      assert CapLeaves(rest, c, s.page, s.next - 1);
    }
  }

  // ---------------------------------------------------------------- resuming

  /** A run with the marker it was given and the number of steps after which it stopped. */
  datatype Run = Run(c: Config, marker: Option<string>, steps: nat)

  function EndOf(objects: seq<Object>, r: Run): State
  {
    RunAt(objects, r.c, r.marker, r.steps)
  }

  /** Each run resumes at the marker the one before reported, and the last one finishes without
      reaching a cap. */
  predicate Resumed(objects: seq<Object>, runs: seq<Run>)
  {
    && runs != []
    && var s := EndOf(objects, runs[0]);
       if |runs| == 1 then s.phase == Finished && !s.done
       else runs[1].marker == s.marker && Resumed(objects, runs[1..])
  }

  ghost predicate Kept(objects: seq<Object>, r: Run)
  {
    Promised(objects, r.marker, EndOf(objects, r))
  }

  lemma SplitTiles(rest: seq<Object>, i: nat)
    requires i <= |rest|
    ensures Tiles(rest) == Tiles(rest[..i]) + Tiles(rest[i..])
  {
    TilesPlus(rest[..i], rest[i..]);
    assert rest[..i] + rest[i..] == rest;
  }

  /** The marker a run reports stands for a place in its listing. */
  lemma MarkerHasPlace(rest: seq<Object>, c: Config, marker: Option<string>, n: nat) returns (i: nat)
    ensures i <= |rest| && StateAt(rest, c, marker, n).marker == MarkerAt(rest, marker, i)
  {
    PlacesAt(rest, c, marker, n);
    var s := StateAt(rest, c, marker, n);
    i := if s.done then s.next else if s.phase == Fetching || s.phase == Finished then s.end else s.page;
  }

  /** The listing after the reported marker starts where the promise ends. */
  lemma ResumePoint(objects: seq<Object>, r: Run)
    requires SortedNames(objects)
    ensures var rest, m := After(objects, r.marker), EndOf(objects, r).marker;
            Tiles(rest) == Tiles(UpTo(rest, m)) + Tiles(After(objects, m))
  {
    var rest := After(objects, r.marker);
    var i := MarkerHasPlace(rest, r.c, r.marker, r.steps);
    UpToMarkerAt(objects, r.marker, i);
    AfterMarkerAt(objects, r.marker, i);
    SplitTiles(rest, i);
  }

  lemma FinishedHasAll(objects: seq<Object>, r: Run)
    requires EndOf(objects, r).phase == Finished && !EndOf(objects, r).done
    ensures Sent(EndOf(objects, r).acked) == Tiles(After(objects, r.marker))
  {
    var rest := After(objects, r.marker);
    FinishedSendsAll(objects, r.c, r.marker, r.steps);
    assert rest[..|rest|] == rest;
  }

  ghost predicate SentBySome(objects: seq<Object>, runs: seq<Run>, tile: string)
  {
    exists i :: 0 <= i < |runs| && tile in Sent(EndOf(objects, runs[i]).acked)
  }

  lemma SentLater(objects: seq<Object>, runs: seq<Run>, tile: string)
    requires runs != [] && SentBySome(objects, runs[1..], tile)
    ensures SentBySome(objects, runs, tile)
  {
    var i :| 0 <= i < |runs[1..]| && tile in Sent(EndOf(objects, runs[1..][i]).acked);
    assert runs[i + 1] == runs[1..][i];
  }

  lemma {:induction false} KeptRunsSendAll(objects: seq<Object>, runs: seq<Run>, tile: string)
    requires SortedNames(objects) && Resumed(objects, runs)
    requires forall r :: r in runs ==> Kept(objects, r)
    requires tile in Tiles(After(objects, runs[0].marker))
    ensures SentBySome(objects, runs, tile)
    decreases |runs|
  {
    if |runs| == 1 {
      FinishedHasAll(objects, runs[0]);
    } else {
      ResumePoint(objects, runs[0]);
      if tile !in Sent(EndOf(objects, runs[0]).acked) {
        assert Kept(objects, runs[0]);
        KeptRunsSendAll(objects, runs[1..], tile);
        SentLater(objects, runs, tile);
      }
    }
  }

  /** However often a run is aborted and resumed, every tile of the listing is sent by some run,
      if no run's cap can leave tiles behind in what it has to list. */
  lemma {:induction false} ResumedRunsSendAll(objects: seq<Object>, runs: seq<Run>, tile: string)
    requires SortedNames(objects) && Resumed(objects, runs)
    requires forall r :: r in runs ==> !CanLose(After(objects, r.marker), r.c)
    requires tile in Tiles(After(objects, runs[0].marker))
    ensures SentBySome(objects, runs, tile)
  {
    forall r | r in runs ensures Kept(objects, r) {
      PromiseIffNoLeftover(objects, r.c, r.marker);
      assert Promised(objects, r.marker, RunAt(objects, r.c, r.marker, r.steps));
    }
    KeptRunsSendAll(objects, runs, tile);
  }
}
