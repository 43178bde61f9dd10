/** modules/icinga/files/icinga_status.py: reading hosts and services out of the blocks of a
    status file, leaving a block as soon as it turns out to be about a host nobody asked for. */
module IcingaStatus {
  import opened Common

  /** A line of a block: blank or a comment, the start of the block, a pair, or a pair without "=". */
  datatype Line = Ignored | Header(name: string) | Pair(key: string, value: string) | NoEquals

  type Block = seq<Line>
  type Data = map<string, string>

  /** What reading a block yields: ValueError, a name alone, or a name with its data. */
  datatype Parsed = Broken | Skipped(name: Option<string>) | Read(name: Option<string>, data: Data)

  const HOST := "hoststatus"
  const SERVICE := "servicestatus"
  const HOST_NAME := "host_name"
  const LAST_ELEMENTS: set<string> := {"hostdowntime", "servicedowntime", "hostcomment", "servicecomment", "contactstatus"}

  /** The hosts asked for; None stands for reading everything. */
  type Targets = Option<set<string>>

  predicate Unwanted(targets: Targets, host: string)
  {
    targets.Some? && host !in targets.value
  }

  function Parse(lines: Block, targets: Targets, name: Option<string>, data: Data): Parsed
  {
    if lines == [] then Read(name, data)
    else
      match lines[0]
      case Ignored => Parse(lines[1..], targets, name, data)
      case Header(n) => if n != HOST && n != SERVICE then Skipped(Some(n)) else Parse(lines[1..], targets, Some(n), data)
      case NoEquals => Broken
      case Pair(k, v) =>
        if k == HOST_NAME && Unwanted(targets, v) then Skipped(name) else Parse(lines[1..], targets, name, data[k := v])
  }

  method ParseBlock(block: Block, targets: Targets) returns (r: Parsed)
    ensures r == Parse(block, targets, None, map[])
  {
    var name, data := None, map[];
    for i := 0 to |block|
      invariant Parse(block, targets, None, map[]) == Parse(block[i..], targets, name, data)
    {
      assert block[i..][1..] == block[i + 1..];
      match block[i]
      case Ignored =>
      case Header(n) =>
        name := Some(n);
        if n != HOST && n != SERVICE { return Skipped(name); }
      case NoEquals => return Broken;
      case Pair(k, v) =>
        if k == HOST_NAME && Unwanted(targets, v) { return Skipped(name); }
        data := data[k := v];
    }
    return Read(name, data);
  }

  /** The last element after number `lo` and before number `n` of the kind; -1 for none. */
  function Latest<T>(s: seq<T>, lo: int, n: nat, kind: T -> bool): (i: int)
    requires -1 <= lo && n <= |s|
    ensures i == -1 ==> forall j :: lo < j < n ==> !kind(s[j])
    ensures i != -1 ==> lo < i < n && kind(s[i]) && forall j :: i < j < n ==> !kind(s[j])
  {
    if n - 1 <= lo then -1 else if kind(s[n - 1]) then n - 1 else Latest(s, lo, n - 1, kind)
  }

  /** A line at which reading leaves the block. */
  predicate Leaves(line: Line, targets: Targets)
  {
    match line
    case Ignored => false
    case Header(n) => n != "hoststatus" && n != "servicestatus"
    case NoEquals => true
    case Pair(k, v) => k == "host_name" && targets.Some? && v !in targets.value
  }

  /** The name is that of the last header among the first `n` lines. */
  ghost predicate NameIs(block: Block, n: nat, name: Option<string>)
    requires n <= |block|
  {
    var i := Latest(block, -1, n, (l: Line) => l.Header?);
    if i == -1 then name == None else name == Some(block[i].name)
  }

  /** Each key has the value of the last pair with it among the first `n` lines. */
  ghost predicate KeyIs(block: Block, n: nat, data: Data, k: string)
    requires n <= |block|
  {
    var i := Latest(block, -1, n, (l: Line) => l.Pair? && l.key == k);
    if i == -1 then k !in data else k in data && data[k] == block[i].value
  }

  ghost predicate Told(block: Block, n: nat, name: Option<string>, data: Data)
    requires n <= |block|
  {
    NameIs(block, n, name) && forall k :: KeyIs(block, n, data, k)
  }

  lemma NextLine(block: Block, n: nat, name: Option<string>, data: Data)
    requires n < |block| && Told(block, n, name, data)
    ensures var l := block[n];
            Told(block, n + 1, if l.Header? then Some(l.name) else name, if l.Pair? then data[l.key := l.value] else data)
  {
    var l, m := block[n], n + 1;
    var data' := if l.Pair? then data[l.key := l.value] else data;
    forall k ensures KeyIs(block, m, data', k) { assert KeyIs(block, n, data, k); }
  }

  /** What reading a block comes to when it leaves at line `t`, or at the end. */
  ghost predicate ReadTo(block: Block, t: nat, p: Parsed)
    requires t <= |block|
  {
    if t == |block| then p.Read? && Told(block, t, p.name, p.data)
    else
      match block[t]
      case Header(n) => p == Skipped(Some(n))
      case Pair(_, _) => p.Skipped? && NameIs(block, t, p.name)
      case _ => p == Broken
  }

  lemma {:induction false} ParseFrom(block: Block, targets: Targets, n: nat, t: nat, name: Option<string>, data: Data)
    requires n <= t <= |block| && Told(block, n, name, data)
    requires (forall i :: n <= i < t ==> !Leaves(block[i], targets)) && (t < |block| ==> Leaves(block[t], targets))
    ensures ReadTo(block, t, Parse(block[n..], targets, name, data))
    decreases t - n
  {
    if n < t {
      var l := block[n];
      assert block[n..][1..] == block[n + 1..];
      NextLine(block, n, name, data);
      ParseFrom(block, targets, n + 1, t, if l.Header? then Some(l.name) else name, if l.Pair? then data[l.key := l.value] else data);
    }
  }

  /** A block is read up to the first line that makes it of no interest. With none, it has the name
      of its last header and for each key the value of the last pair. */
  lemma ParseMeans(block: Block, targets: Targets, t: nat)
    requires t <= |block|
    requires (forall i :: 0 <= i < t ==> !Leaves(block[i], targets)) && (t < |block| ==> Leaves(block[t], targets))
    ensures ReadTo(block, t, Parse(block, targets, None, map[]))
  {
    assert block[0..] == block;
    forall k ensures KeyIs(block, 0, map[], k) {}
    ParseFrom(block, targets, 0, t, None, map[]);
  }

  // ---------------------------------------------------------------- hosts and services

  datatype State = State(currentState: int, downtimeDepth: int, notifications: bool, rest: Data)
  datatype Service = Service(name: string, host: string, status: State)
  datatype Host = Host(name: string, status: State, services: map<string, Service>)

  /** int() as the program uses it; None for ValueError. */
  type IntOf = string -> Option<int>

  /** The three cast fields; None if one is missing or does not parse. */
  function StateOf(toInt: IntOf, d: Data): Option<State>
  {
    if "current_state" in d && "scheduled_downtime_depth" in d && "notifications_enabled" in d then
      var s, t, n := toInt(d["current_state"]), toInt(d["scheduled_downtime_depth"]), toInt(d["notifications_enabled"]);
      if s.Some? && t.Some? && n.Some? then Some(State(s.value, t.value, n.value != 0, d)) else None
    else None
  }

  function HostOf(toInt: IntOf, d: Data): Option<Host>
  {
    if HOST_NAME in d && StateOf(toInt, d).Some? then Some(Host(d[HOST_NAME], StateOf(toInt, d).value, map[])) else None
  }

  function ServiceOf(toInt: IntOf, d: Data): Option<Service>
  {
    if HOST_NAME in d && "service_description" in d && StateOf(toInt, d).Some?
    then Some(Service(d["service_description"], d[HOST_NAME], StateOf(toInt, d).value)) else None
  }

  /** Host.add_service; None for the RuntimeError of a service of another host. */
  function AddService(h: Host, s: Service): Option<Host>
  {
    if s.host != h.name then None else Some(h.(services := h.services[s.name := s]))
  }

  /** What one parsed block does to the hosts; None for an exception. */
  function Take(toInt: IntOf, hosts: map<string, Host>, p: Parsed): Option<map<string, Host>>
  {
    match p
    case Broken => None
    case Skipped(_) => Some(hosts)
    case Read(name, data) =>
      if data == map[] then Some(hosts)
      else if name == Some(HOST) then
        var h := HostOf(toInt, data);
        if h.None? then None else Some(hosts[h.value.name := h.value])
      else if name == Some(SERVICE) then
        var s := ServiceOf(toInt, data);
        if s.None? || s.value.host !in hosts then None
        else
          var h := AddService(hosts[s.value.host], s.value);
          if h.None? then None else Some(hosts[s.value.host := h.value])
      else Some(hosts)
  }

  predicate Trailing(p: Parsed)
  {
    !p.Broken? && p.name.Some? && p.name.value in LAST_ELEMENTS
  }

  /** The hosts of a status file, read up to its first trailing section; None for an exception,
      which is also how a file without such a section ends. */
  function Status(toInt: IntOf, blocks: seq<Block>, targets: Targets, hosts: map<string, Host>): Option<map<string, Host>>
  {
    if blocks == [] then None
    else
      var p := Parse(blocks[0], targets, None, map[]);
      if Trailing(p) then Some(hosts)
      else
        var next := Take(toInt, hosts, p);
        if next.None? then None else Status(toInt, blocks[1..], targets, next.value)
  }

  method ParseStatus(toInt: IntOf, blocks: seq<Block>, targets: Targets) returns (r: Option<map<string, Host>>)
    ensures r == Status(toInt, blocks, targets, map[])
  {
    var hosts: map<string, Host> := map[];
    for i := 0 to |blocks|
      invariant Status(toInt, blocks, targets, map[]) == Status(toInt, blocks[i..], targets, hosts)
    {
      assert blocks[i..][1..] == blocks[i + 1..];
      var p := ParseBlock(blocks[i], targets);
      if Trailing(p) { return Some(hosts); }
      var next := Take(toInt, hosts, p);
      if next.None? { return None; }
      hosts := next.value;
    }
    return None;
  }

  // ---------------------------------------------------------------- what a file yields

  function Readings(blocks: seq<Block>, targets: Targets): seq<Parsed>
  {
    seq(|blocks|, (i: nat) requires i < |blocks| => Parse(blocks[i], targets, None, map[]))
  }

  predicate AboutHost(p: Parsed, host: string)
  {
    p.Read? && p.name == Some("hoststatus") && "host_name" in p.data && p.data["host_name"] == host
  }

  predicate AboutService(p: Parsed, host: string, service: string)
  {
    && p.Read? && p.name == Some("servicestatus")
    && "host_name" in p.data && p.data["host_name"] == host
    && "service_description" in p.data && p.data["service_description"] == service
  }

  /** The last block about a host, among the first `n`. */
  function HostBlock(ps: seq<Parsed>, n: nat, host: string): (i: int)
    requires n <= |ps|
    ensures -1 <= i < n && (i >= 0 ==> ps[i].Read?)
  {
    Latest(ps, -1, n, p => AboutHost(p, host))
  }

  /** The last block about a service of a host, after the last one about the host. */
  function ServiceBlock(ps: seq<Parsed>, n: nat, host: string, service: string): (i: int)
    requires n <= |ps|
    ensures -1 <= i < n && (i >= 0 ==> ps[i].Read?)
  {
    Latest(ps, HostBlock(ps, n, host), n, p => AboutService(p, host, service))
  }

  lemma HostBlockNext(ps: seq<Parsed>, n: nat, host: string)
    requires n < |ps|
    ensures HostBlock(ps, n + 1, host) == if AboutHost(ps[n], host) then n else HostBlock(ps, n, host)
  {
  }

  lemma ServiceBlockNext(ps: seq<Parsed>, n: nat, host: string, service: string)
    requires n < |ps|
    ensures ServiceBlock(ps, n + 1, host, service) ==
            if AboutHost(ps[n], host) then -1 else if AboutService(ps[n], host, service) then n else ServiceBlock(ps, n, host, service)
  {
    HostBlockNext(ps, n, host);
  }

  predicate Castable(toInt: IntOf, d: Data)
  {
    forall k :: k in {"current_state", "scheduled_downtime_depth", "notifications_enabled"} ==> k in d && toInt(d[k]).Some?
  }

  /** The status is that of the data, its three numbers read. */
  predicate StatusOf(toInt: IntOf, st: State, d: Data)
  {
    && Castable(toInt, d)
    && toInt(d["current_state"]) == Some(st.currentState)
    && toInt(d["scheduled_downtime_depth"]) == Some(st.downtimeDepth)
    && (st.notifications <==> toInt(d["notifications_enabled"]) != Some(0))
    && st.rest == d
  }

  /** A block that reading does not fail on: a host's or a service's data are complete, and the host
      of a service came before. */
  predicate Sound(toInt: IntOf, ps: seq<Parsed>, i: nat)
    requires i < |ps|
  {
    && !ps[i].Broken?
    && (ps[i].Read? && ps[i].data != map[] && ps[i].name == Some("hoststatus") ==>
          "host_name" in ps[i].data && Castable(toInt, ps[i].data))
    && (ps[i].Read? && ps[i].data != map[] && ps[i].name == Some("servicestatus") ==>
          && "host_name" in ps[i].data && "service_description" in ps[i].data && Castable(toInt, ps[i].data)
          && HostBlock(ps, i, ps[i].data["host_name"]) >= 0)
  }

  ghost predicate ServiceIs(toInt: IntOf, ps: seq<Parsed>, n: nat, h: Host, service: string)
    requires n <= |ps|
  {
    var i := ServiceBlock(ps, n, h.name, service);
    && (service in h.services <==> i >= 0)
    && (i >= 0 ==>
          var s := h.services[service];
          s.name == service && s.host == h.name && StatusOf(toInt, s.status, ps[i].data))
  }

  /** What the first `n` blocks say about a host: the last block about it counts, and for each of its
      services the last one behind that. */
  ghost predicate HostIs(toInt: IntOf, ps: seq<Parsed>, n: nat, hosts: map<string, Host>, host: string)
    requires n <= |ps|
  {
    var i := HostBlock(ps, n, host);
    && (host in hosts <==> i >= 0)
    && (i >= 0 ==>
          && hosts[host].name == host && StatusOf(toInt, hosts[host].status, ps[i].data)
          && forall service :: ServiceIs(toInt, ps, n, hosts[host], service))
  }

  ghost predicate Yields(toInt: IntOf, ps: seq<Parsed>, n: nat, hosts: map<string, Host>)
    requires n <= |ps|
  {
    forall host :: HostIs(toInt, ps, n, hosts, host)
  }

  lemma StateIsRead(toInt: IntOf, d: Data)
    ensures StateOf(toInt, d).Some? <==> Castable(toInt, d)
    ensures StateOf(toInt, d).Some? ==> StatusOf(toInt, StateOf(toInt, d).value, d)
  {
    assert "current_state" in {"current_state", "scheduled_downtime_depth", "notifications_enabled"};
  }

  lemma TakeIsSound(toInt: IntOf, ps: seq<Parsed>, n: nat, hosts: map<string, Host>)
    requires n < |ps| && Yields(toInt, ps, n, hosts)
    ensures Take(toInt, hosts, ps[n]).Some? <==> Sound(toInt, ps, n)
  {
    if ps[n].Read? {
      StateIsRead(toInt, ps[n].data);
      if "host_name" in ps[n].data {
        assert HostIs(toInt, ps, n, hosts, ps[n].data["host_name"]);
      }
    }
  }

  /** A block that is about neither the host nor one of its services. */
  lemma HostKept(toInt: IntOf, ps: seq<Parsed>, n: nat, hosts: map<string, Host>, next: map<string, Host>, host: string)
    requires n < |ps| && HostIs(toInt, ps, n, hosts, host)
    requires !AboutHost(ps[n], host) && forall service :: !AboutService(ps[n], host, service)
    requires (host in next <==> host in hosts) && (host in next ==> next[host] == hosts[host])
    ensures HostIs(toInt, ps, n + 1, next, host)
  {
    var m := n + 1;
    HostBlockNext(ps, n, host);
    if host in next {
      var h := next[host];
      forall service ensures ServiceIs(toInt, ps, m, h, service) {
        ServiceBlockNext(ps, n, host, service);
        assert ServiceIs(toInt, ps, n, h, service);
      }
    }
  }

  lemma HostTaken(toInt: IntOf, ps: seq<Parsed>, n: nat, next: map<string, Host>, host: string)
    requires n < |ps| && AboutHost(ps[n], host) && host in next
    requires next[host].name == host && next[host].services == map[] && StatusOf(toInt, next[host].status, ps[n].data)
    ensures HostIs(toInt, ps, n + 1, next, host)
  {
    var m, h := n + 1, next[host];
    HostBlockNext(ps, n, host);
    forall service ensures ServiceIs(toInt, ps, m, h, service) { ServiceBlockNext(ps, n, host, service); }
  }

  lemma ServiceTaken(toInt: IntOf, ps: seq<Parsed>, n: nat, hosts: map<string, Host>, next: map<string, Host>, host: string, s: Service)
    requires n < |ps| && HostIs(toInt, ps, n, hosts, host) && host in hosts && host in next
    requires AboutService(ps[n], host, s.name) && s.host == host && StatusOf(toInt, s.status, ps[n].data)
    requires next[host] == hosts[host].(services := hosts[host].services[s.name := s])
    ensures HostIs(toInt, ps, n + 1, next, host)
  {
    var m, h := n + 1, next[host];
    HostBlockNext(ps, n, host);
    forall service ensures ServiceIs(toInt, ps, m, h, service) {
      ServiceBlockNext(ps, n, host, service);
      assert ServiceIs(toInt, ps, n, hosts[host], service);
    }
  }

  lemma TakeKeeps(toInt: IntOf, hosts: map<string, Host>, p: Parsed, host: string)
    requires Take(toInt, hosts, p).Some? && !AboutHost(p, host) && forall service :: !AboutService(p, host, service)
    ensures var next := Take(toInt, hosts, p).value;
            (host in next <==> host in hosts) && (host in next ==> next[host] == hosts[host])
  {
    if p.Read? && p.data != map[] && p.name == Some(SERVICE) {
      var s := ServiceOf(toInt, p.data).value;
      assert AboutService(p, s.host, s.name);
    }
  }

  lemma TakeHost(toInt: IntOf, ps: seq<Parsed>, n: nat, hosts: map<string, Host>, host: string)
    requires n < |ps| && AboutHost(ps[n], host) && Take(toInt, hosts, ps[n]).Some?
    ensures HostIs(toInt, ps, n + 1, Take(toInt, hosts, ps[n]).value, host)
  {
    StateIsRead(toInt, ps[n].data);
    HostTaken(toInt, ps, n, Take(toInt, hosts, ps[n]).value, host);
  }

  lemma TakeService(toInt: IntOf, ps: seq<Parsed>, n: nat, hosts: map<string, Host>, host: string, service: string)
    requires n < |ps| && HostIs(toInt, ps, n, hosts, host) && AboutService(ps[n], host, service) && Take(toInt, hosts, ps[n]).Some?
    ensures HostIs(toInt, ps, n + 1, Take(toInt, hosts, ps[n]).value, host)
  {
    StateIsRead(toInt, ps[n].data);
    ServiceTaken(toInt, ps, n, hosts, Take(toInt, hosts, ps[n]).value, host, ServiceOf(toInt, ps[n].data).value);
  }

  lemma TakeYields(toInt: IntOf, ps: seq<Parsed>, n: nat, hosts: map<string, Host>, host: string)
    requires n < |ps| && Yields(toInt, ps, n, hosts) && Take(toInt, hosts, ps[n]).Some?
    ensures HostIs(toInt, ps, n + 1, Take(toInt, hosts, ps[n]).value, host)
  {
    assert HostIs(toInt, ps, n, hosts, host);
    if AboutHost(ps[n], host) {
      TakeHost(toInt, ps, n, hosts, host);
    } else if service :| AboutService(ps[n], host, service) {
      TakeService(toInt, ps, n, hosts, host, service);
    } else {
      TakeKeeps(toInt, hosts, ps[n], host);
      HostKept(toInt, ps, n, hosts, Take(toInt, hosts, ps[n]).value, host);
    }
  }

  lemma AllYield(toInt: IntOf, ps: seq<Parsed>, n: nat, hosts: map<string, Host>)
    requires n < |ps| && Yields(toInt, ps, n, hosts) && Take(toInt, hosts, ps[n]).Some?
    ensures Yields(toInt, ps, n + 1, Take(toInt, hosts, ps[n]).value)
  {
    var m, next := n + 1, Take(toInt, hosts, ps[n]).value;
    forall host ensures HostIs(toInt, ps, m, next, host) { TakeYields(toInt, ps, n, hosts, host); }
  }

  /** The file ends at block `t`, the first that opens a trailing section, all before it being sound. */
  ghost predicate EndsAt(toInt: IntOf, ps: seq<Parsed>, t: nat)
  {
    && t < |ps| && Trailing(ps[t])
    && forall i: nat :: i < t ==> !Trailing(ps[i]) && Sound(toInt, ps, i)
  }

  ghost predicate Accepted(toInt: IntOf, ps: seq<Parsed>, hosts: map<string, Host>)
  {
    exists t: nat :: EndsAt(toInt, ps, t) && Yields(toInt, ps, t, hosts)
  }

  lemma EndsNowhere(toInt: IntOf, ps: seq<Parsed>, n: nat)
    requires n <= |ps| && (forall i: nat :: i < n ==> !Trailing(ps[i])) && (n < |ps| ==> !Trailing(ps[n]) && !Sound(toInt, ps, n))
    ensures forall t: nat :: !EndsAt(toInt, ps, t)
  {
  }

  lemma {:induction false} StatusFrom(toInt: IntOf, blocks: seq<Block>, targets: Targets, n: nat, hosts: map<string, Host>)
    requires n <= |blocks| && Yields(toInt, Readings(blocks, targets), n, hosts)
    requires forall i: nat :: i < n ==> !Trailing(Readings(blocks, targets)[i]) && Sound(toInt, Readings(blocks, targets), i)
    ensures var (ps, r) := (Readings(blocks, targets), Status(toInt, blocks[n..], targets, hosts));
            if r.Some? then Accepted(toInt, ps, r.value) else forall t: nat :: !EndsAt(toInt, ps, t)
    decreases |blocks| - n
  {
    var ps := Readings(blocks, targets);
    if n < |blocks| {
      assert blocks[n..][0] == blocks[n] && blocks[n..][1..] == blocks[n + 1..];
      var next := Take(toInt, hosts, ps[n]);
      TakeIsSound(toInt, ps, n, hosts);
      if Trailing(ps[n]) {
        assert EndsAt(toInt, ps, n);
      } else if next.Some? {
        AllYield(toInt, ps, n, hosts);
        StatusFrom(toInt, blocks, targets, n + 1, next.value);
      } else {
        EndsNowhere(toInt, ps, n);
      }
    } else {
      EndsNowhere(toInt, ps, n);
    }
  }

  /** A file is accepted exactly if it has a trailing section and all blocks before it are sound; then
      it has the hosts and services that these blocks are about, each as the last one tells it. */
  lemma StatusMeans(toInt: IntOf, blocks: seq<Block>, targets: Targets)
    ensures var (ps, r) := (Readings(blocks, targets), Status(toInt, blocks, targets, map[]));
            if r.Some? then Accepted(toInt, ps, r.value) else forall t: nat :: !EndsAt(toInt, ps, t)
  {
    assert blocks[0..] == blocks;
    StatusFrom(toInt, blocks, targets, 0, map[]);
  }

  // ---------------------------------------------------------------- leaving blocks early

  /** Pairs only, with at most one host name. */
  ghost predicate Body(lines: Block, named: bool)
  {
    lines == [] ||
    match lines[0]
    case Ignored => Body(lines[1..], named)
    case Header(_) => false
    case NoEquals => Body(lines[1..], named)
    case Pair(k, _) => if k == HOST_NAME then !named && Body(lines[1..], true) else Body(lines[1..], named)
  }

  /** One header, then pairs with at most one host name. */
  ghost predicate WellFormed(block: Block)
  {
    block == [] ||
    match block[0]
    case Ignored => WellFormed(block[1..])
    case Header(_) => Body(block[1..], false)
    case NoEquals => false
    case Pair(_, _) => false
  }

  /** How a block reads when only some hosts are wanted, given how it reads in full. */
  ghost predicate Narrowed(full: Parsed, early: Parsed, wanted: set<string>)
  {
    if full.Read? && HOST_NAME in full.data && full.data[HOST_NAME] !in wanted then early == Skipped(full.name) else early == full
  }

  lemma {:induction false} BodyNarrows(lines: Block, wanted: set<string>, name: Option<string>, data: Data)
    requires Body(lines, HOST_NAME in data)
    requires HOST_NAME in data ==> data[HOST_NAME] in wanted
    requires !Parse(lines, None, name, data).Broken?
    ensures Narrowed(Parse(lines, None, name, data), Parse(lines, Some(wanted), name, data), wanted)
  {
    if lines != [] {
      match lines[0]
      case Ignored => BodyNarrows(lines[1..], wanted, name, data);
      case Pair(k, v) =>
        if k == HOST_NAME && v !in wanted {
          NameStays(lines[1..], name, data[k := v]);
        } else {
          BodyNarrows(lines[1..], wanted, name, data[k := v]);
        }
      case _ =>
    }
  }

  /** A full reading of a body keeps the block's name, and the host name once it is known. */
  lemma {:induction false} NameStays(lines: Block, name: Option<string>, data: Data)
    requires HOST_NAME in data && Body(lines, true)
    requires !Parse(lines, None, name, data).Broken?
    ensures var p := Parse(lines, None, name, data);
            p.Read? && p.name == name && HOST_NAME in p.data && p.data[HOST_NAME] == data[HOST_NAME]
  {
    if lines != [] {
      match lines[0]
      case Ignored => NameStays(lines[1..], name, data);
      case Pair(k, v) => NameStays(lines[1..], name, data[k := v]);
      case _ =>
    }
  }

  lemma {:induction false} BlockNarrows(block: Block, wanted: set<string>)
    requires WellFormed(block) && !Parse(block, None, None, map[]).Broken?
    ensures Narrowed(Parse(block, None, None, map[]), Parse(block, Some(wanted), None, map[]), wanted)
  {
    if block != [] {
      match block[0]
      case Ignored => BlockNarrows(block[1..], wanted);
      case Header(n) => if n == HOST || n == SERVICE { BodyNarrows(block[1..], wanted, Some(n), map[]); }
      case _ =>
    }
  }

  function Wanted(hosts: map<string, Host>, wanted: set<string>): map<string, Host>
  {
    map h | h in hosts && h in wanted :: hosts[h]
  }

  lemma TakeNarrowed(toInt: IntOf, hosts: map<string, Host>, full: Parsed, early: Parsed, wanted: set<string>)
    requires Narrowed(full, early, wanted) && Take(toInt, hosts, full).Some?
    ensures Take(toInt, Wanted(hosts, wanted), early) == Some(Wanted(Take(toInt, hosts, full).value, wanted))
  {
    if full.Read? && full.data != map[] {
      if full.name == Some(HOST) {
        var h := HostOf(toInt, full.data).value;
        WantedUpdate(hosts, wanted, h.name, h);
      } else if full.name == Some(SERVICE) {
        var s := ServiceOf(toInt, full.data).value;
        WantedUpdate(hosts, wanted, s.host, AddService(hosts[s.host], s).value);
      }
    }
  }

  lemma WantedUpdate(hosts: map<string, Host>, wanted: set<string>, k: string, h: Host)
    ensures Wanted(hosts[k := h], wanted) == if k in wanted then Wanted(hosts, wanted)[k := h] else Wanted(hosts, wanted)
  {
  }

  /** Whatever file a full reading accepts, the early-leaving one accepts, and it yields exactly
      the wanted part of the full result. */
  lemma {:induction false} EarlyIsFilteredFull(toInt: IntOf, blocks: seq<Block>, wanted: set<string>, hosts: map<string, Host>)
    requires forall b :: b in blocks ==> WellFormed(b)
    requires Status(toInt, blocks, None, hosts).Some?
    ensures Status(toInt, blocks, Some(wanted), Wanted(hosts, wanted))
            == Some(Wanted(Status(toInt, blocks, None, hosts).value, wanted))
  {
    var full, early := Parse(blocks[0], None, None, map[]), Parse(blocks[0], Some(wanted), None, map[]);
    BlockNarrows(blocks[0], wanted);
    if !Trailing(full) {
      TakeNarrowed(toInt, hosts, full, early, wanted);
      EarlyIsFilteredFull(toInt, blocks[1..], wanted, Take(toInt, hosts, full).value);
    }
  }

  // ---------------------------------------------------------------- optimal hosts

  /** The services of a host that are not in state 0. */
  function FailedServices(h: Host): set<string>
  {
    set n | n in h.services && h.services[n].status.currentState != 0
  }

  ghost function StateSum(services: map<string, Service>, names: set<string>): int
    requires names <= services.Keys
  {
    if names == {} then 0 else var n :| n in names; services[n].status.currentState + StateSum(services, names - {n})
  }

  lemma {:induction false} StateSumRemove(services: map<string, Service>, names: set<string>, n: string)
    requires n in names && names <= services.Keys
    ensures StateSum(services, names) == services[n].status.currentState + StateSum(services, names - {n})
    decreases |names|
  {
    var m :| m in names && StateSum(services, names) == services[m].status.currentState + StateSum(services, names - {m});
    if m != n {
      StateSumRemove(services, names - {m}, n);
      StateSumRemove(services, names - {n}, m);
      assert names - {m} - {n} == names - {n} - {m};
    }
  }

  /** Host.optimal: the states of the host and of all its services add up to 0. */
  method Optimal(h: Host) returns (b: bool)
    ensures b <==> h.status.currentState + StateSum(h.services, h.services.Keys) == 0
  {
    var sum := h.status.currentState;
    var todo := h.services.Keys;
    while todo != {}
      invariant todo <= h.services.Keys
      invariant sum + StateSum(h.services, todo) == h.status.currentState + StateSum(h.services, h.services.Keys)
      decreases todo
    {
      var n :| n in todo;
      StateSumRemove(h.services, todo, n);
      sum := sum + h.services[n].status.currentState;
      todo := todo - {n};
    }
    return sum == 0;
  }

  lemma {:induction false} SumOfNonNegative(services: map<string, Service>, names: set<string>)
    requires names <= services.Keys && forall n :: n in names ==> services[n].status.currentState >= 0
    ensures StateSum(services, names) >= 0
    ensures StateSum(services, names) == 0 <==> forall n :: n in names ==> services[n].status.currentState == 0
    decreases |names|
  {
    if names != {} {
      var n :| n in names;
      StateSumRemove(services, names, n);
      SumOfNonNegative(services, names - {n});
    }
  }

  /** With states that are not negative, a host is optimal exactly when it is up and nothing failed. */
  lemma OptimalMeansAllUp(h: Host)
    requires h.status.currentState >= 0 && forall n :: n in h.services ==> h.services[n].status.currentState >= 0
    ensures h.status.currentState + StateSum(h.services, h.services.Keys) == 0
            <==> h.status.currentState == 0 && FailedServices(h) == {}
  {
    SumOfNonNegative(h.services, h.services.Keys);
    assert FailedServices(h) == {} <==> forall n :: n in h.services ==> h.services[n].status.currentState == 0 by {
      if FailedServices(h) == {} {
        forall n | n in h.services ensures h.services[n].status.currentState == 0 {
          assert n !in FailedServices(h);
        }
      }
    }
  }
}
