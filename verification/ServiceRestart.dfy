/** modules/conftool/files/safe-service-restart.py: restarting services while they are out of the
    load balancers, whatever the backend, the load balancers and systemd answer. */
module ServiceRestart {

  datatype Pooled = Yes | No | Inactive

  /** A conftool object of this host. */
  datatype Obj = Obj(name: string, cluster: string, service: string)

  type Store = map<Obj, Pooled>

  datatype Pool = Pool(name: string, cluster: string, service: string, urls: seq<string>)

  predicate Represents(p: Pool, o: Obj)
  {
    p.cluster == o.cluster && p.service == o.service
  }

  /** How a write to the backend ends; a failed one may still have been applied. */
  datatype WriteResult = Applied | Failed | AppliedButFailed

  /** What fetching a pool's status from a load balancer yields. */
  datatype Answer = HttpError | Timeout | ConnectionIssue | Malformed | Status(enabled: bool, pooled: bool, up: bool)

  /** Everything outside the program, call by call. */
  datatype World = World(writes: nat -> WriteResult, answers: (string, nat) -> Answer, restarts: nat -> int)

  /** What the program does, with the number of status requests it had sent by then. */
  datatype Event = Wrote(obj: Obj, state: Pooled, asked: nat) | Restarted(service: string, rc: int, asked: nat)

  const DEFAULT_RC: int := 127

  // ---------------------------------------------------------------- load balancer answers

  predicate HasState(a: Answer, want: bool)
    requires a.Status?
  {
    a.enabled == want && a.pooled == want && !(want && !a.up)
  }

  /** A wanted server is enabled, up and pooled; an unwanted one is disabled and not pooled. */
  lemma HasStateMeaning(a: Answer, want: bool)
    requires a.Status?
    ensures HasState(a, want) <==> a == if want then Status(true, true, true) else Status(false, false, a.up)
  {
  }

  /** An answer that ends the retries: the wanted state, or a failure that is not retried. */
  predicate Settles(a: Answer, want: bool)
  {
    match a
    case HttpError => true
    case Timeout => true
    case ConnectionIssue => false
    case Malformed => true
    case Status(_, _, _) => HasState(a, want)
  }

  // ---------------------------------------------------------------- what the trace says

  function Apply(s: Store, e: Event): Store
  {
    if e.Wrote? then s[e.obj := e.state] else s
  }

  function Replay(s: Store, trace: seq<Event>): Store
  {
    if trace == [] then s else Apply(Replay(s, trace[..|trace| - 1]), trace[|trace| - 1])
  }

  /** No object of the host is pooled. */
  ghost predicate Depooled(s: Store, objects: seq<Obj>)
  {
    forall o :: o in objects ==> o in s && s[o] != Yes
  }

  /** Every restart in the trace happens with nothing pooled. */
  ghost predicate RestartsDepooled(s: Store, trace: seq<Event>, objects: seq<Obj>)
  {
    forall i :: 0 <= i < |trace| && trace[i].Restarted? ==> Depooled(Replay(s, trace[..i]), objects)
  }

  function Writes(objs: seq<Obj>, state: Pooled, asked: nat): seq<Event>
  {
    seq(|objs|, (i: nat) requires i < |objs| => Wrote(objs[i], state, asked))
  }

  /** `s` with the given objects in the given state. */
  function Setting(s: Store, objs: seq<Obj>, state: Pooled): Store
  {
    map o | o in s :: if o in objs then state else s[o]
  }

  lemma OneMoreSet(s: Store, objs: seq<Obj>, i: nat, state: Pooled, asked: nat)
    requires i < |objs| && objs[i] in s
    ensures Writes(objs[..i + 1], state, asked) == Writes(objs[..i], state, asked) + [Wrote(objs[i], state, asked)]
    ensures Setting(s, objs[..i + 1], state) == Setting(s, objs[..i], state)[objs[i] := state]
  {
    assert objs[..i + 1] == objs[..i] + [objs[i]];
  }

  lemma ReplayOne(s: Store, trace: seq<Event>, e: Event)
    ensures Replay(s, trace + [e]) == Apply(Replay(s, trace), e)
  {
    assert (trace + [e])[..|trace|] == trace;
  }

  lemma {:induction false} ReplayWrites(s: Store, objs: seq<Obj>, state: Pooled, asked: nat)
    requires forall o :: o in objs ==> o in s
    ensures Replay(s, Writes(objs, state, asked)) == Setting(s, objs, state)
    decreases |objs|
  {
    if objs == [] {
      assert Setting(s, objs, state) == s;
    } else {
      var n := |objs| - 1;
      ReplayWrites(s, objs[..n], state, asked);
      assert Writes(objs, state, asked)[..n] == Writes(objs[..n], state, asked);
      assert objs == objs[..n] + [objs[n]];
    }
  }

  /** Events that only restart leave the store alone, so they are safe if it is depooled. */
  lemma {:induction false} RestartsOnly(s: Store, before: seq<Event>, more: seq<Event>, objects: seq<Obj>)
    requires forall e :: e in more ==> e.Restarted?
    requires RestartsDepooled(s, before, objects) && Depooled(Replay(s, before), objects)
    ensures RestartsDepooled(s, before + more, objects) && Replay(s, before + more) == Replay(s, before)
    decreases |more|
  {
    if more == [] {
      assert before + more == before;
    } else {
      var n := |more| - 1;
      var longer := before + more[..n];
      RestartsOnly(s, before, more[..n], objects);
      assert more[n] in more && before + more == longer + [more[n]];
      AppendEvent(s, longer, more[n], objects);
      ReplayOne(s, longer, more[n]);
    }
  }

  lemma AppendEvent(s: Store, trace: seq<Event>, e: Event, objects: seq<Obj>)
    requires RestartsDepooled(s, trace, objects)
    requires e.Restarted? ==> Depooled(Replay(s, trace), objects)
    ensures RestartsDepooled(s, trace + [e], objects)
  {
    forall i | 0 <= i < |trace + [e]| && (trace + [e])[i].Restarted?
      ensures Depooled(Replay(s, (trace + [e])[..i]), objects)
    {
      assert (trace + [e])[..i] == if i < |trace| then trace[..i] else trace;
    }
  }

  /** Writes put no restart into the trace. */
  lemma {:induction false} WritesOnly(s: Store, before: seq<Event>, more: seq<Event>, objects: seq<Obj>)
    requires forall e :: e in more ==> e.Wrote?
    requires RestartsDepooled(s, before, objects)
    ensures RestartsDepooled(s, before + more, objects)
    decreases |more|
  {
    if more == [] {
      assert before + more == before;
    } else {
      var n := |more| - 1;
      WritesOnly(s, before, more[..n], objects);
      assert before + more == before + more[..n] + [more[n]];
      assert more[n] in more;
      AppendEvent(s, before + more[..n], more[n], objects);
    }
  }

  /** The objects of `objects` that are in state `state`, as _get_objects lists them. */
  function InState(objects: seq<Obj>, s: Store, state: Pooled): (found: seq<Obj>)
    requires forall o :: o in objects ==> o in s
    ensures forall o :: o in found <==> o in objects && s[o] == state
  {
    if objects == [] then []
    else (if s[objects[0]] == state then [objects[0]] else []) + InState(objects[1..], s, state)
  }

  function RestartEvents(services: seq<string>, codes: nat -> int, first: nat, asked: nat): seq<Event>
  {
    seq(|services|, (i: nat) requires i < |services| => Restarted(services[i], codes(first + i), asked))
  }

  /** A whole run: after `from` status requests, `n` of the pooled objects `p` are depooled; after
      `mid` of them the services are restarted, and `m` of the objects are pooled again. */
  function Course(p: seq<Obj>, from: nat, n: nat, mid: nat, rs: seq<Event>, m: nat): seq<Event>
    requires n <= |p| && m <= |p|
  {
    Writes(p[..n], No, from) + rs + Writes(p[..m], Yes, mid)
  }

  lemma CourseWrites(p: seq<Obj>, from: nat, n: nat, mid: nat, rs: seq<Event>, m: nat, e: Event)
    requires n <= |p| && m <= |p| && (forall r :: r in rs ==> r.Restarted?) && e in Course(p, from, n, mid, rs, m) && e.Wrote?
    ensures e.obj in p
  {
    if e !in Writes(p[..n], No, from) {
      assert e in Writes(p[..m], Yes, mid);
    }
  }

  /** Depooling what is pooled leaves nothing pooled; pooling it again restores the store. */
  lemma DepoolRestores(s: Store, objects: seq<Obj>, p: seq<Obj>)
    requires forall o :: o in objects ==> o in s
    requires p == InState(objects, s, Yes)
    ensures Depooled(Setting(s, p, No), objects)
    ensures Setting(Setting(s, p, No), p, Yes) == s
  {
  }

  /** A run that restarts anything has depooled everything first. */
  lemma CourseIsSafe(s: Store, objects: seq<Obj>, p: seq<Obj>, from: nat, n: nat, mid: nat, rs: seq<Event>, m: nat)
    requires forall o :: o in objects ==> o in s
    requires p == InState(objects, s, Yes) && n <= |p| && m <= |p|
    requires rs != [] ==> n == |p|
    requires forall e :: e in rs ==> e.Restarted?
    ensures RestartsDepooled(s, Course(p, from, n, mid, rs, m), objects)
  {
    var first := Writes(p[..n], No, from);
    WritesOnly(s, [], first, objects);
    assert [] + first == first;
    if rs != [] {
      ReplayWrites(s, p, No, from);
      assert p[..n] == p;
      DepoolRestores(s, objects, p);
      RestartsOnly(s, first, rs, objects);
    } else {
      assert first + rs == first;
    }
    WritesOnly(s, first + rs, Writes(p[..m], Yes, mid), objects);
  }

  class ServiceRestarter {
    const objects: seq<Obj>
    const pools: set<Pool>
    const services: seq<string>
    const retries: nat
    const world: World
    var store: Store
    var trace: seq<Event>
    var writes: nat
    var requests: seq<string>  // the url of each status request
    var restarts: nat

    constructor (objects: seq<Obj>, pools: set<Pool>, services: seq<string>, retries: nat, world: World, store: Store)
      ensures this.objects == objects && this.pools == pools && this.services == services
      ensures this.retries == retries && this.world == world
      ensures this.store == store && trace == [] && writes == restarts == 0 && requests == []
    {
      this.objects, this.pools, this.services, this.retries, this.world := objects, pools, services, retries, world;
      this.store, trace, writes, requests, restarts := store, [], 0, [], 0;
    }

    // -------------------------------------------------------------- writing

    ghost predicate AllApplied(first: nat, count: nat)
    {
      forall j: nat :: first <= j < first + count ==> world.writes(j) == Applied
    }

    /** Of `count` writes in turn, the first `n` take effect, the first refusal ending them; a refused
        one may still have taken effect. */
    ghost predicate LastsFor(first: nat, count: nat, n: nat)
    {
      && n <= count
      && (forall j: nat :: first <= j < first + n - 1 ==> world.writes(j) == Applied)
      && (n > 0 ==> world.writes(first + n - 1) != Failed)
      && (n < count ==> world.writes(first + n) == Failed || (n > 0 && world.writes(first + n - 1) == AppliedButFailed))
    }

    /** `obj.update`; `applied` tells whether the backend took the write. */
    method Update(obj: Obj, state: Pooled) returns (ok: bool, ghost applied: bool)
      requires obj in store
      modifies this`store, this`trace, this`writes
      ensures store == if applied then old(store)[obj := state] else old(store)
      ensures trace == if applied then old(trace) + [Wrote(obj, state, |requests|)] else old(trace)
      ensures writes == old(writes) + 1
      ensures ok <==> world.writes(old(writes)) == Applied
      ensures applied <==> world.writes(old(writes)) != Failed
    {
      var r := world.writes(writes);
      writes := writes + 1;
      applied := r != Failed;
      if r != Failed {
        store := store[obj := state];
        trace := trace + [Wrote(obj, state, |requests|)];
      }
      ok := r == Applied;
    }

    /** The write loop of depool and pool: it stops at the first failure, after `n` writes. */
    method SetAll(objs: seq<Obj>, state: Pooled) returns (ok: bool, ghost n: nat)
      requires forall o :: o in objs ==> o in store
      modifies this`store, this`trace, this`writes
      ensures ok <==> AllApplied(old(writes), |objs|)
      ensures LastsFor(old(writes), |objs|, n) && (ok ==> n == |objs| && writes == old(writes) + n)
      ensures trace == old(trace) + Writes(objs[..n], state, |requests|)
      ensures store == Setting(old(store), objs[..n], state)
    {
      n := 0;
      ok := true;
      assert Setting(store, objs[..0], state) == store;
      var i := 0;
      while i < |objs| && ok
        invariant i <= |objs| && n <= |objs| && writes == old(writes) + i
        invariant if ok then AllApplied(old(writes), i) && n == i
                  else LastsFor(old(writes), |objs|, n) && !AllApplied(old(writes), |objs|)
        invariant trace == old(trace) + Writes(objs[..n], state, |requests|)
        invariant store == Setting(old(store), objs[..n], state)
      {
        ghost var applied;
        ok, applied := Update(objs[i], state);
        if applied {
          OneMoreSet(old(store), objs, n, state, |requests|);
          n := n + 1;
        }
        i := i + 1;
      }
    }

    // -------------------------------------------------------------- asking

    /** Asks one load balancer until it settles the question, at most `retries` times. */
    method FetchRetry(url: string, want: bool) returns (ok: bool)
      modifies this`requests
      ensures old(requests) <= requests && |requests| <= |old(requests)| + retries
      ensures forall j :: |old(requests)| <= j < |requests| ==> requests[j] == url
      ensures forall j :: |old(requests)| <= j < |requests| - 1 ==> !Settles(world.answers(url, j), want)
      ensures ok <==> exists j :: |old(requests)| <= j < |old(requests)| + retries && Settles(world.answers(url, j), want)
      ensures ok ==> |requests| > |old(requests)| && Settles(world.answers(url, |requests| - 1), want)
      ensures !ok ==> Unsettled(requests, url, want, |old(requests)|)
    {
      var k := 0;
      while k < retries
        invariant k <= retries && |requests| == |old(requests)| + k && old(requests) <= requests
        invariant forall j :: |old(requests)| <= j < |requests| ==> requests[j] == url
        invariant forall j :: |old(requests)| <= j < |requests| ==> !Settles(world.answers(url, j), want)
      {
        var answer := world.answers(url, |requests|);
        requests := requests + [url];
        k := k + 1;
        match answer
        case HttpError => return true;
        case Timeout => return true;
        case ConnectionIssue =>
        case Malformed => return true;
        case Status(_, _, _) => if HasState(answer, want) { return true; }
      }
      return false;
    }

    /** The pools to ask about: those of the cluster and service of one of the objects. */
    function Filter(objs: seq<Obj>): (ps: set<Pool>)
      ensures forall p :: p in ps <==> p in pools && exists o :: o in objs && o.cluster == p.cluster && o.service == p.service
    {
      set p | p in pools && exists o :: o in objs && Represents(p, o)
    }

    /** `url` was asked after the first `from` requests of the log and settled the question. */
    ghost predicate Settled(log: seq<string>, url: string, want: bool, from: nat)
    {
      exists j: nat :: from <= j < |log| && log[j] == url && Settles(world.answers(url, j), want)
    }

    /** The log ends with all allowed tries at `url`, none of which settled the question. */
    ghost predicate Unsettled(log: seq<string>, url: string, want: bool, from: nat)
    {
      && from + retries <= |log|
      && forall j :: |log| - retries <= j < |log| ==> log[j] == url && !Settles(world.answers(url, j), want)
    }

    ghost predicate Concerns(objs: seq<Obj>, url: string)
    {
      exists p :: p in Filter(objs) && url in p.urls
    }

    /** Every load balancer of every pool concerned settled the question since then, by showing the
        wanted state or by an answer that ends the asking. */
    ghost predicate AllSettled(log: seq<string>, objs: seq<Obj>, want: bool, from: nat)
    {
      forall u :: Concerns(objs, u) ==> Settled(log, u, want, from)
    }

    ghost predicate GaveUp(log: seq<string>, objs: seq<Obj>, want: bool, from: nat)
    {
      exists u :: Concerns(objs, u) && Unsettled(log, u, want, from)
    }

    /** If anything was asked since then, the last answer settled the question. */
    ghost predicate EndsSettled(log: seq<string>, want: bool, from: nat)
    {
      |log| > from ==> retries > 0 && Settles(world.answers(log[|log| - 1], |log| - 1), want)
    }

    lemma SettledStays(log: seq<string>, longer: seq<string>, url: string, want: bool, from: nat, from': nat)
      requires log <= longer && from' <= from && Settled(log, url, want, from)
      ensures Settled(longer, url, want, from')
    {
      var j: nat :| from <= j < |log| && log[j] == url && Settles(world.answers(url, j), want);
      assert longer[j] == url;
    }

    lemma SettledIsNotGivenUp(log: seq<string>, objs: seq<Obj>, want: bool, from: nat)
      requires AllSettled(log, objs, want, from) && EndsSettled(log, want, from)
      ensures !GaveUp(log, objs, want, from)
    {
      forall u | Concerns(objs, u) ensures !Unsettled(log, u, want, from) {
        assert Settled(log, u, want, from);
        assert log[|log| - 1] != u || Settles(world.answers(u, |log| - 1), want);
      }
    }

    /** Asks every load balancer concerned; it fails exactly if the last one asked let all its tries
        pass. */
    method VerifyStatus(want: bool, objs: seq<Obj>) returns (ok: bool)
      modifies this`requests
      ensures old(requests) <= requests
      ensures ok <==> !GaveUp(requests, objs, want, |old(requests)|)
      ensures ok ==> AllSettled(requests, objs, want, |old(requests)|)
    {
      ghost var from := |requests|;
      var todo := Filter(objs);
      ok := true;
      while todo != {} && ok
        invariant todo <= Filter(objs) && old(requests) <= requests
        invariant ok ==> EndsSettled(requests, want, from)
        invariant ok ==> forall p, u :: p in Filter(objs) - todo && u in p.urls ==> Settled(requests, u, want, from)
        invariant !ok ==> GaveUp(requests, objs, want, from)
        decreases todo
      {
        var pool :| pool in todo;
        ghost var before := requests;
        ghost var asked := Filter(objs) - todo;
        ok := VerifyPool(pool, want);
        todo := todo - {pool};
        if ok {
          forall p, u | p in Filter(objs) - todo && u in p.urls ensures Settled(requests, u, want, from) {
            if p in asked {
              SettledStays(before, requests, u, want, from, from);
            } else {
              SettledStays(requests, requests, u, want, |before|, from);
            }
          }
        } else {
          ghost var u :| u in pool.urls && Unsettled(requests, u, want, |before|);
          assert Concerns(objs, u);
        }
      }
      if ok { SettledIsNotGivenUp(requests, objs, want, from); }
    }

    method VerifyPool(pool: Pool, want: bool) returns (ok: bool)
      modifies this`requests
      ensures old(requests) <= requests
      ensures ok ==> forall u :: u in pool.urls ==> Settled(requests, u, want, |old(requests)|)
      ensures ok ==> EndsSettled(requests, want, |old(requests)|)
      ensures !ok ==> exists u :: u in pool.urls && Unsettled(requests, u, want, |old(requests)|)
    {
      ok := true;
      var i := 0;
      ghost var from := |requests|;
      while i < |pool.urls| && ok
        invariant i <= |pool.urls| && old(requests) <= requests
        invariant ok ==> EndsSettled(requests, want, from)
        invariant ok ==> forall k :: 0 <= k < i ==> Settled(requests, pool.urls[k], want, from)
        invariant !ok ==> exists u :: u in pool.urls && Unsettled(requests, u, want, from)
      {
        ghost var before := requests;
        ok := FetchRetry(pool.urls[i], want);
        if ok {
          forall k | 0 <= k < i ensures Settled(requests, pool.urls[k], want, from) {
            SettledStays(before, requests, pool.urls[k], want, from, from);
          }
          assert requests[|requests| - 1] == pool.urls[i];
        } else {
          assert pool.urls[i] in pool.urls && Unsettled(requests, pool.urls[i], want, from);
        }
        i := i + 1;
      }
    }

    /** Restarts every service in turn; the exit code is that of the last one to fail. */
    method RestartServices() returns (rc: int)
      modifies this`trace, this`restarts
      ensures trace == old(trace) + RestartEvents(services, world.restarts, old(restarts), |requests|)
      ensures ExitCode(RestartEvents(services, world.restarts, old(restarts), |requests|), rc)
    {
      rc := 0;
      ghost var events := RestartEvents(services, world.restarts, restarts, |requests|);
      for i := 0 to |services|
        invariant restarts == old(restarts) + i
        invariant trace == old(trace) + events[..i]
        invariant ExitCode(events[..i], rc)
      {
        var code := world.restarts(restarts);
        trace := trace + [Restarted(services[i], code, |requests|)];
        restarts := restarts + 1;
        assert events[..i + 1] == events[..i] + [Restarted(services[i], code, |requests|)];
        OneMoreRestart(events[..i], services[i], code, |requests|, rc);
        if code != 0 { rc := code; }
      }
      assert events[..|services|] == events;
    }

    // -------------------------------------------------------------- the runs

    /** A depooling or pooling that succeeds: every write from number `first` on is accepted, and no
        load balancer lets all its tries pass. */
    ghost predicate Through(log: seq<string>, objs: seq<Obj>, want: bool, first: nat, from: nat)
    {
      AllApplied(first, |objs|) && !GaveUp(log, objs, want, from)
    }

    /** depool and pool: all writes, then the load balancers are asked. */
    method SetAndVerify(objs: seq<Obj>, state: Pooled, want: bool) returns (ok: bool, ghost n: nat)
      requires forall o :: o in objs ==> o in store
      modifies this`store, this`trace, this`writes, this`requests
      ensures ok <==> Through(requests, objs, want, old(writes), |old(requests)|)
      ensures LastsFor(old(writes), |objs|, n) && (ok ==> n == |objs| && writes == old(writes) + n)
      ensures trace == old(trace) + Writes(objs[..n], state, |old(requests)|)
      ensures store == Setting(old(store), objs[..n], state)
      ensures old(requests) <= requests
      ensures ok ==> AllSettled(requests, objs, want, |old(requests)|)
    {
      ok, n := SetAll(objs, state);
      if ok { ok := VerifyStatus(want, objs); }
    }

    /** The restarts with what may follow them: if none fails the objects are pooled again, `m` of
        them with effect. */
    method RestartAndPool(objs: seq<Obj>) returns (rc: int, ghost m: nat)
      requires restarts == 0 && forall o :: o in objs ==> o in store
      modifies this`store, this`trace, this`writes, this`requests, this`restarts
      ensures old(requests) <= requests && m <= |objs|
      ensures trace == old(trace) + RestartEvents(services, world.restarts, 0, |old(requests)|) + Writes(objs[..m], Yes, |old(requests)|)
      ensures store == Setting(old(store), objs[..m], Yes)
      ensures Ended(requests, objs, rc, old(writes), |old(requests)|, m)
      ensures rc == 0 ==> AllSettled(requests, objs, true, |old(requests)|)
    {
      m := 0;
      NothingSet(store, objs);
      assert Writes(objs[..0], Yes, |requests|) == [];
      rc := RestartServices();
      if rc == 0 {
        var ok;
        ok, m := SetAndVerify(objs, Yes, true);
        if !ok { rc := DEFAULT_RC; }
      }
    }

    /** How the restarts and the pooling end, by what the world answers. */
    ghost predicate Ended(log: seq<string>, objs: seq<Obj>, rc: int, first: nat, mid: nat, m: nat)
    {
      var all := RestartEvents(services, world.restarts, 0, mid);
      if NoneFailed(all) then LastsFor(first, |objs|, m) && rc == if Through(log, objs, true, first, mid) then 0 else DEFAULT_RC
      else m == 0 && ExitCode(all, rc) && |log| == mid
    }

    /** Depooling, if there is anything to depool. */
    method TakeOut(objs: seq<Obj>) returns (ok: bool, ghost n: nat)
      requires forall o :: o in objs ==> o in store
      modifies this`store, this`trace, this`writes, this`requests
      ensures ok <==> Through(requests, objs, false, old(writes), |old(requests)|)
      ensures LastsFor(old(writes), |objs|, n) && (ok ==> n == |objs| && writes == old(writes) + n)
      ensures trace == old(trace) + Writes(objs[..n], No, |old(requests)|)
      ensures store == Setting(old(store), objs[..n], No)
      ensures old(requests) <= requests && (objs == [] ==> requests == old(requests))
      ensures ok ==> AllSettled(requests, objs, false, |old(requests)|)
    {
      ok, n := true, 0;
      if objs == [] {
        NothingSet(store, objs);
        NothingToDo(requests, false, writes, |requests|);
        assert Writes(objs[..0], No, |requests|) == [];
      } else {
        ok, n := SetAndVerify(objs, No, false);
      }
    }

    /** The branches of run, in the program's order. `asked` are the requests sent before the
        restarts. */
    method RunCourse() returns (rc: int, ghost n: nat, ghost asked: seq<string>, ghost rs: seq<Event>, ghost m: nat)
      requires trace == [] && restarts == 0
      requires forall o :: o in objects ==> o in store
      modifies this
      ensures old(requests) <= asked <= requests
      ensures Leaves(old(store), store, trace, InState(objects, old(store), Yes), |old(requests)|, n, |asked|, rs, m)
      ensures Outcome(asked, requests, InState(objects, old(store), Yes), rc, old(writes), |old(requests)|, n, rs, m)
      ensures Asked(asked, requests, InState(objects, old(store), Yes), rs, |old(requests)|, rc)
    {
      var pooled := InState(objects, store, Yes);
      var ok;
      ok, n := TakeOut(pooled);
      asked, rs, m, rc := requests, [], 0, DEFAULT_RC;
      ghost var depooled, out := store, trace;
      if ok {
        rc, m := RestartAndPool(pooled);
        rs := RestartEvents(services, world.restarts, 0, |asked|);
      } else {
        NothingSet(store, pooled);
        assert Writes(pooled[..0], Yes, |asked|) == [];
      }
      Composed(old(store), depooled, store, out, trace, pooled, |old(requests)|, n, |asked|, rs, m);
    }

    lemma Composed(before: Store, depooled: Store, after: Store, out: seq<Event>, trace: seq<Event>, p: seq<Obj>, from: nat,
                   n: nat, mid: nat, rs: seq<Event>, m: nat)
      requires n <= |p| && m <= |p|
      requires out == [] + Writes(p[..n], No, from) && trace == out + rs + Writes(p[..m], Yes, mid)
      requires depooled == Setting(before, p[..n], No) && after == Setting(depooled, p[..m], Yes)
      requires p == [] ==> from == mid
      ensures Leaves(before, after, trace, p, from, n, mid, rs, m)
    {
    }

    /** What a run leaves behind: depooling starts after `from` status requests, restarting and
        pooling after `mid` of them, and `n` objects were depooled, `m` pooled again. */
    ghost predicate Leaves(before: Store, after: Store, trace: seq<Event>, p: seq<Obj>, from: nat, n: nat, mid: nat, rs: seq<Event>, m: nat)
    {
      && n <= |p| && m <= |p| && (p == [] ==> from == mid)
      && trace == Course(p, from, n, mid, rs, m)
      && after == Setting(Setting(before, p[..n], No), p[..m], Yes)
    }

    /** Which branch it took and how it ended, by what the world answered; `log` are all requests. */
    ghost predicate Outcome(asked: seq<string>, log: seq<string>, p: seq<Obj>, rc: int, first: nat, from: nat,
                            n: nat, rs: seq<Event>, m: nat)
    {
      && LastsFor(first, |p|, n)
      && if Through(asked, p, false, first, from) then
           n == |p| && rs == RestartEvents(services, world.restarts, 0, |asked|) && Ended(log, p, rc, first + n, |asked|, m)
         else
           rs == [] && m == 0 && rc == DEFAULT_RC && log == asked
    }

    /** Before anything is restarted, and after the depooling, the load balancers were asked about
        the depooled objects until that was settled; with exit code 0 they were asked again, after
        the pooling, until that was settled too. */
    ghost predicate Asked(asked: seq<string>, log: seq<string>, p: seq<Obj>, rs: seq<Event>, from: nat, rc: int)
    {
      && (forall e :: e in rs ==> e.asked == |asked|)
      && (rs != [] || rc == 0 ==> AllSettled(asked, p, false, from))
      && (rc == 0 ==> AllSettled(log, p, true, |asked|))
    }

    lemma NothingToDo(log: seq<string>, want: bool, first: nat, from: nat)
      ensures Through(log, [], want, first, from) && AllSettled(log, [], want, from) && LastsFor(first, 0, 0)
    {
      forall u ensures !Concerns([], u) {
        assert Filter([]) == {};
      }
    }

    /** What holds of every run: restarts happen with nothing pooled; only pooled objects are
        written; a good end restores the store; after a failed restart all stay depooled. */
    ghost predicate Safely(before: Store, after: Store, trace: seq<Event>, mid: nat, rs: seq<Event>, rc: int)
      requires forall o :: o in objects ==> o in before
    {
      && RestartsDepooled(before, trace, objects)
      && (forall e :: e in trace && e.Wrote? ==> e.obj in objects && before[e.obj] == Yes)
      && (rc == 0 ==> after == before && rs == RestartEvents(services, world.restarts, 0, mid) && NoneFailed(rs))
      && (!NoneFailed(rs) ==> rc != 0 && after == Setting(before, InState(objects, before, Yes), No))
    }

    lemma RunsAreSafe(before: Store, after: Store, trace: seq<Event>, asked: seq<string>, log: seq<string>, rc: int,
                      first: nat, from: nat, n: nat, rs: seq<Event>, m: nat)
      requires forall o :: o in objects ==> o in before
      requires Leaves(before, after, trace, InState(objects, before, Yes), from, n, |asked|, rs, m)
      requires Outcome(asked, log, InState(objects, before, Yes), rc, first, from, n, rs, m)
      ensures Safely(before, after, trace, |asked|, rs, rc)
    {
      var p := InState(objects, before, Yes);
      assert p[..|p|] == p;
      CourseIsSafe(before, objects, p, from, n, |asked|, rs, m);
      DepoolRestores(before, objects, p);
      if !NoneFailed(rs) { NothingSet(after, p); }
      forall e | e in trace && e.Wrote? ensures e.obj in p {
        CourseWrites(p, from, n, |asked|, rs, m, e);
      }
    }

    /** The run without --force. It succeeds exactly when depooling, all restarts and pooling do. */
    method Run() returns (rc: int, ghost n: nat, ghost asked: seq<string>, ghost rs: seq<Event>, ghost m: nat)
      requires trace == [] && restarts == 0
      requires forall o :: o in objects ==> o in store
      modifies this
      ensures old(requests) <= asked <= requests
      ensures Leaves(old(store), store, trace, InState(objects, old(store), Yes), |old(requests)|, n, |asked|, rs, m)
      ensures Outcome(asked, requests, InState(objects, old(store), Yes), rc, old(writes), |old(requests)|, n, rs, m)
      ensures Asked(asked, requests, InState(objects, old(store), Yes), rs, |old(requests)|, rc)
      ensures Safely(old(store), store, trace, |asked|, rs, rc)
      ensures var p := InState(objects, old(store), Yes);
              rc == 0 <==> && Through(asked, p, false, old(writes), |old(requests)|)
                           && NoneFailed(RestartEvents(services, world.restarts, 0, |asked|))
                           && Through(requests, p, true, old(writes) + |p|, |asked|)
    {
      rc, n, asked, rs, m := RunCourse();
      RunsAreSafe(old(store), store, trace, asked, requests, rc, old(writes), |old(requests)|, n, rs, m);
    }

    /** --depool: takes what is pooled out. */
    method RunDepool() returns (rc: int, ghost n: nat)
      requires forall o :: o in objects ==> o in store
      modifies this
      ensures Changed(old(store), Yes, No, false, old(writes), |old(requests)|, rc, n)
      ensures rc == 0 ==> Depooled(store, objects)
      ensures forall o :: o in store <==> o in old(store)
      ensures forall o :: o in store && store[o] != old(store)[o] ==> old(store)[o] == Yes && store[o] == No
    {
      rc, n := Change(Yes, No, false);
    }

    /** --pool: puts back what is depooled, but not what is inactive. */
    method RunPool() returns (rc: int, ghost n: nat)
      requires forall o :: o in objects ==> o in store
      modifies this
      ensures Changed(old(store), No, Yes, true, old(writes), |old(requests)|, rc, n)
      ensures rc == 0 ==> forall o :: o in objects ==> store[o] == if old(store)[o] == No then Yes else old(store)[o]
      ensures forall o :: o in store <==> o in old(store)
      ensures forall o :: o in store && store[o] != old(store)[o] ==> old(store)[o] == No && store[o] == Yes
    {
      rc, n := Change(No, Yes, true);
    }

    /** What --depool and --pool leave behind: the first `n` of the objects found in one state are put
        into the other; the exit code is 0 exactly when all of it succeeds. */
    ghost predicate Changed(before: Store, from: Pooled, to: Pooled, want: bool, first: nat, asked: nat, rc: int, n: nat)
      requires forall o :: o in objects ==> o in before
      reads this
    {
      var p := InState(objects, before, from);
      && LastsFor(first, |p|, n) && store == Setting(before, p[..n], to)
      && rc == (if Through(requests, p, want, first, asked) then 0 else DEFAULT_RC)
      && (rc == 0 ==> store == Setting(before, p, to) && AllSettled(requests, p, want, asked))
    }

    method Change(from: Pooled, to: Pooled, want: bool) returns (rc: int, ghost n: nat)
      requires forall o :: o in objects ==> o in store
      modifies this
      ensures Changed(old(store), from, to, want, old(writes), |old(requests)|, rc, n)
    {
      var found := InState(objects, store, from);
      assert found[..0] == [] && found[..|found|] == found;
      rc, n := 0, 0;
      if found == [] {
        NothingToDo(requests, want, writes, |requests|);
        assert Setting(store, found, to) == store;
        return;
      }
      var ok;
      ok, n := SetAndVerify(found, to, want);
      if !ok { rc := DEFAULT_RC; }
    }
  }

  /** Every restart in `rs` succeeded. */
  ghost predicate NoneFailed(rs: seq<Event>)
  {
    forall i :: 0 <= i < |rs| ==> rs[i].Restarted? && rs[i].rc == 0
  }

  ghost predicate FailedLast(rs: seq<Event>, i: int)
  {
    0 <= i < |rs| && rs[i].Restarted? && rs[i].rc != 0 && NoneFailed(rs[i + 1..])
  }

  /** 0 if every restart in `rs` succeeded, and else the code of the last one that failed. */
  ghost predicate ExitCode(rs: seq<Event>, rc: int)
  {
    if NoneFailed(rs) then rc == 0 else exists i :: FailedLast(rs, i) && rs[i].rc == rc
  }

  lemma OneMoreRestart(rs: seq<Event>, service: string, code: int, asked: nat, rc: int)
    requires ExitCode(rs, rc)
    ensures ExitCode(rs + [Restarted(service, code, asked)], if code != 0 then code else rc)
  {
    var more := rs + [Restarted(service, code, asked)];
    assert more[|rs|] == Restarted(service, code, asked);
    if code != 0 {
      assert FailedLast(more, |rs|);
    } else if NoneFailed(rs) {
      assert NoneFailed(more);
    } else {
      var i :| FailedLast(rs, i) && rs[i].rc == rc;
      assert more[i] == rs[i] && more[i + 1..] == rs[i + 1..] + [more[|rs|]];
      assert FailedLast(more, i);
    }
  }

  lemma NothingSet(s: Store, p: seq<Obj>)
    ensures Setting(s, p[..0], No) == s && Setting(s, p[..0], Yes) == s
  {
  }
}
