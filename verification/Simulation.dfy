/** A whole simulation, from an empty cluster to the answers of its clients. */
module Simulation {
  import opened Namespace
  import opened Ports
  import opened Topology
  import opened Lending
  import opened Placement
  import opened Protocol
  import opened Registry
  import opened ClientSpec
  import opened PlainFs
  import opened Simulator
  import opened Starting
  import opened Clients
  import opened FileSystems
  import opened Reference

  /** Services on host h once the monitor and the given servers run. */
  function Load(hostOf: Proc -> HostId, servers: seq<nat>, h: HostId): nat {
    if servers == [] then (if hostOf(Mon) == h then 1 else 0)
    else
      Load(hostOf, servers[..|servers| - 1], h) + (if hostOf(Mds(servers[|servers| - 1])) == h then 1 else 0)
  }

  /** Each server finds its host running fewer than 100 services, so that no service is given a reverse port. */
  predicate Roomy(hostOf: Proc -> HostId, servers: seq<nat>) {
    forall n | 0 <= n < |servers| :: Load(hostOf, servers[..n], hostOf(Mds(servers[n]))) < REV_BASE
  }

  predicate AllDifferent(s: seq<nat>) {
    forall i, j | 0 <= i < j < |s| :: s[i] != s[j]
  }

  lemma LocalGrows(services: map<Entity, Proc>, e: Entity, p: Proc, h: HostId)
    requires e !in services
    ensures |Local(services[e := p], h)| == |Local(services, h)| + (if e.host == h then 1 else 0)
  {
    var m, n := Local(services, h), Local(services[e := p], h);
    if e.host == h {
      assert e == Entity(h, e.port) && e.port !in m;
      assert n == m[e.port := p];
    } else {
      assert n == m;
    }
  }

  /** The first n servers run, rank k being the k-th of them. */
  ghost predicate Progress(hostOf: Proc -> HostId, services: map<Entity, Proc>, active: map<Rank, Entity>,
                           whoami: map<nat, Rank>,
                           servers: seq<nat>, n: nat)
    requires n <= |servers|
  {
    && |active| == n
    && (forall f | f in services && services[f].Mds? :: services[f].id in servers[..n])
    && (forall k | 0 <= k < n :: Ranked(whoami, servers[k], k))
    && (forall h :: |Local(services, h)| == Load(hostOf, servers[..n], h))
  }

  lemma FirstProgress(hostOf: Proc -> HostId, services: map<Entity, Proc>, whoami: map<nat, Rank>, servers: seq<nat>,
                      e: Entity)
    requires services == map[e := Mon] && e.host == hostOf(Mon)
    ensures Progress(hostOf, services, map[], whoami, servers, 0)
  {
    var none: map<Entity, Proc> := map[];
    forall h
      ensures |Local(services, h)| == Load(hostOf, servers[..0], h)
    {
      NothingLocal(none, h);
      LocalGrows(none, e, Mon, h);
      assert services == none[e := Mon];
    }
  }

  lemma NextProgress(hostOf: Proc -> HostId, services: map<Entity, Proc>, active: map<Rank, Entity>, whoami: map<nat,
                     Rank>,
                     servers: seq<nat>, n: nat, e: Entity,
                     services': map<Entity, Proc>, active': map<Rank, Entity>, whoami': map<nat, Rank>)
    requires n < |servers| && AllDifferent(servers) && Progress(hostOf, services, active, whoami, servers, n)
    requires e !in services && e.host == hostOf(Mds(servers[n])) && |active'| == |active| + 1
    requires services' == services[e := Mds(servers[n])] && whoami' == whoami[servers[n] := n]
    ensures Progress(hostOf, services', active', whoami', servers, n + 1)
  {
    hide Local, Load, Ranked, AllDifferent;
    assert servers[..n + 1] == servers[..n] + [servers[n]];
    forall h
      ensures |Local(services', h)| == Load(hostOf, servers[..n + 1], h)
    {
      LocalGrows(services, e, Mds(servers[n]), h);
      LoadGrows(hostOf, servers, n, h);
    }
    forall f | f in services' && services'[f].Mds?
      ensures services'[f].id in servers[..n + 1]
    {
      assert f != e ==> f in services;
    }
    StillRanked(whoami, servers, n);
  }

  lemma LoadGrows(hostOf: Proc -> HostId, servers: seq<nat>, n: nat, h: HostId)
    requires n < |servers|
    ensures Load(hostOf, servers[..n + 1], h)
         == Load(hostOf, servers[..n], h) + (if hostOf(Mds(servers[n])) == h then 1 else 0)
  {
    assert servers[..n + 1][..n] == servers[..n];
  }

  lemma StillRanked(whoami: map<nat, Rank>, servers: seq<nat>, n: nat)
    requires n < |servers| && AllDifferent(servers) && forall k | 0 <= k < n :: Ranked(whoami, servers[k], k)
    ensures forall k | 0 <= k < n + 1 :: Ranked(whoami[servers[n] := n], servers[k], k)
  {
    forall k | 0 <= k < n + 1
      ensures Ranked(whoami[servers[n] := n], servers[k], k)
    {
      assert k < n ==> servers[k] != servers[n] && Ranked(whoami, servers[k], k);
    }
  }

  lemma RoomForNext(hostOf: Proc -> HostId, services: map<Entity, Proc>, active: map<Rank, Entity>, whoami: map<nat,
                    Rank>,
                    servers: seq<nat>, n: nat)
    requires n < |servers| && AllDifferent(servers) && Roomy(hostOf, servers)
    requires Progress(hostOf, services, active, whoami, servers, n)
    ensures |Local(services, hostOf(Mds(servers[n])))| < REV_BASE
    ensures forall f | f in services :: services[f] != Mds(servers[n])
  {
    forall f | f in services
      ensures services[f] != Mds(servers[n])
    {
      if services[f].Mds? {
        var k :| 0 <= k < n && servers[..n][k] == services[f].id;
        assert servers[k] != servers[n];
      }
    }
  }

  /** Start the monitor and the servers, in the given order: rank k goes to the k-th server, and everybody agrees. */
  method StartServers(hostOf: Proc -> HostId, servers: seq<nat>) returns (up: Startup)
    requires AllDifferent(servers) && Roomy(hostOf, servers)
    ensures fresh(up) && up.hostOf == hostOf && up.Started() && up.clients == map[] && |up.active| == |servers|
    ensures forall k | 0 <= k < |servers| :: Ranked(up.whoami, servers[k], k)
  {
    hide Progress, Orderly, OnePlaceEach, Agreed, Fresh, Roomy, AllDifferent;
    up := new Startup(hostOf);
    up.StartMon();
    ghost var e: Entity :| up.services == map[e := Mon] && e.host == hostOf(Mon);
    FirstProgress(hostOf, up.services, up.whoami, servers, e);
    var n := 0;
    while n < |servers|
      invariant 0 <= n <= |servers|
      invariant fresh(up) && up.hostOf == hostOf && up.Started() && up.clients == map[]
      invariant Progress(hostOf, up.services, up.active, up.whoami, servers, n)
    {
      RoomForNext(hostOf, up.services, up.active, up.whoami, servers, n);
      ProgressCount(hostOf, up.services, up.active, up.whoami, servers, n);
      ghost var services, active, whoami := up.services, up.active, up.whoami;
      var ok, at := up.StartMds(servers[n]);
      NextProgress(hostOf, services, active, whoami, servers, n, at, up.services, up.active, up.whoami);
      n := n + 1;
    }
    ProgressCount(hostOf, up.services, up.active, up.whoami, servers, n);
  }

  lemma ProgressCount(hostOf: Proc -> HostId, services: map<Entity, Proc>, active: map<Rank, Entity>, whoami: map<nat,
                      Rank>,
                      servers: seq<nat>, n: nat)
    requires n <= |servers| && Progress(hostOf, services, active, whoami, servers, n)
    ensures |active| == n && forall k | 0 <= k < n :: Ranked(whoami, servers[k], k)
  {
  }

  method ConnectAll(up: Startup, clientIds: seq<nat>)
    requires up.Started() && up.active != map[]
    modifies up
    ensures up.Started() && up.active == old(up.active) && forall k | 0 <= k < |clientIds| :: clientIds[k] in up.clients
  {
    hide Orderly, OnePlaceEach, Agreed, Fresh;
    var n := 0;
    while n < |clientIds|
      invariant 0 <= n <= |clientIds|
      invariant up.Started() && up.active == old(up.active)
      invariant forall k | 0 <= k < n :: clientIds[k] in up.clients
    {
      var ok := up.Connect(clientIds[n]);
      n := n + 1;
    }
  }

  method MakeProcesses(sim: Cluster, callers: seq<nat>) returns (procs: seq<ClientProcess>)
    requires sim.Running() && sim.lent == map[] && AllOk(sim.cfg, sim.View()) && AllRight(sim.cfg, sim.View())
    requires forall k | k in callers :: k in sim.clients
    ensures |procs| == |callers| && forall p | p in procs :: p.sim == sim && p.Connected()
    ensures forall k | 0 <= k < |callers| :: procs[k].id == callers[k]
  {
    hide Orderly, Booted, Valid, AllOk, AllRight, Usable;
    procs := [];
    var n := 0;
    while n < |callers|
      invariant 0 <= n <= |callers| && |procs| == n
      invariant forall p | p in procs :: p.sim == sim && p.Connected()
      invariant forall k | 0 <= k < n :: procs[k].id == callers[k]
    {
      assert callers[n] in callers;
      var p := new ClientProcess(sim, callers[n]);
      procs := procs + [p];
      n := n + 1;
    }
  }

  /** Start everything, connect the clients, and let callers[k] make calls[k]: the answers are those of the plain file
      system. */
  method Simulate(hostOf: Proc -> HostId, strategy: Strategy, hash: string -> nat, cacheEnabled: bool, capacity: int,
                  servers: seq<nat>, clientIds: seq<nat>, callers: seq<nat>, calls: seq<Call>)
                      returns (answers: seq<Answer>)
    requires servers != [] && AllDifferent(servers) && Roomy(hostOf, servers) && capacity >= 1
    requires |callers| == |calls| && forall c | c in callers :: c in clientIds
    requires AllWellFormed(calls) && (cacheEnabled ==> CacheSafeRun(capacity, EMPTY, calls))
    ensures AgreeAll(answers, PlainRun(EMPTY, calls).0)
  {
    hide Orderly, OnePlaceEach, Agreed, Fresh, CacheSafeRun, PlainRun, AgreeAll, Booted, Valid, Usable, AllOk, AllRight;
    EmptyTreeFine();
    var up := StartServers(hostOf, servers);
    ConnectAll(up, clientIds);
    var sim := up.Boot(strategy, hash, cacheEnabled, capacity);
    forall c | c in callers
      ensures c in sim.clients
    {
      var k :| 0 <= k < |clientIds| && clientIds[k] == c;
      assert clientIds[k] in up.clients;
    }
    var procs := MakeProcesses(sim, callers);
    answers := RunAll(sim, procs, calls);
  }

  /** The same calls made to a simulated cluster and directly to the objects of the file system: the same answers. */
  method SideBySide(hostOf: Proc -> HostId, strategy: Strategy, hash: string -> nat, cacheEnabled: bool, capacity: int,
                    servers: seq<nat>, clientIds: seq<nat>, callers: seq<nat>, calls: seq<Call>)
    returns (answers: seq<Answer>, direct: seq<Answer>)
    requires servers != [] && AllDifferent(servers) && Roomy(hostOf, servers) && capacity >= 1
    requires |callers| == |calls| && forall c | c in callers :: c in clientIds
    requires AllWellFormed(calls) && (cacheEnabled ==> CacheSafeRun(capacity, EMPTY, calls))
    ensures AgreeAll(answers, direct)
  {
    hide Roomy, AllDifferent, CacheSafeRun, PlainRun, AgreeAll, Valid;
    answers := Simulate(hostOf, strategy, hash, cacheEnabled, capacity, servers, clientIds, callers, calls);
    var gfs := new FileSystem();
    direct := AskAll(gfs, calls);
  }
}
