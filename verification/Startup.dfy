/** The cluster while it starts (SubtreeVSHashingSim.cc:133-164): the monitor, the servers that register with it one
    after the other, and the clients that then ask it for the servers. */
module Starting {
  import opened Collections
  import opened Ports
  import opened Topology
  import opened Lending
  import opened Namespace
  import opened Placement
  import opened Protocol
  import opened Registry
  import opened CacheReads
  import opened ClientSpec
  import opened Simulator
  import opened Dispatchers
  import L = LruSpec

  function ControlWeight(m: Control): nat {
    match m
    case MdsReg(_) => 5
    case FindMds => 3
    case MdsMapUpdate(_) => 3
    case _ => 1
  }

  class Startup {
    const hostOf: Proc -> HostId

    var services: map<Entity, Proc>
    var lent: Lent
    var monitor: Option<Entity>

    /** mds_active_list of the monitor; whoami and mds_map of the servers; the clients. */
    var active: map<Rank, Entity>
    var whoami: map<nat, Rank>
    var mdsMap: map<nat, map<Rank, Entity>>
    var clients: map<nat, ClientState>
    var delivered: nat

    constructor (hostOf: Proc -> HostId)
      ensures this.hostOf == hostOf && services == map[] && lent == map[] && monitor == None
      ensures Registered() == Reg(map[], map[], map[], map[], 0)
    {
      this.hostOf := hostOf;
      services, lent, monitor := map[], map[], None;
      active, whoami, mdsMap, clients, delivered := map[], map[], map[], map[], 0;
    }

    function Registered(): Reg
      reads this`active, this`whoami, this`mdsMap, this`clients, this`delivered
    {
      Reg(active, whoami, mdsMap, clients, delivered)
    }

    /** Holds throughout, also in the middle of a handshake. */
    ghost predicate Steady()
      reads this`services, this`lent
    {
      && Orderly(lent, hostOf) && OnePlaceEach(services)
      && forall e | e in services :: 0 <= e.port < REV_BASE && hostOf(services[e]) == e.host
    }

    /** Between handshakes the monitor and the servers agree. */
    ghost predicate Agreeing()
      reads this`services, this`lent, this`monitor, this`active, this`whoami, this`mdsMap
    {
      && Steady() && lent == map[] && monitor.Some? && monitor.value in services && services[monitor.value] == Mon
      && Agreed(services, active, whoami, mdsMap)
    }

    /** And the clients have been told what is true. */
    ghost predicate Started()
      reads this`services, this`lent, this`monitor, this`active, this`whoami, this`mdsMap, this`clients
    {
      Agreeing() && forall c | c in clients :: Fresh(clients[c], active)
    }

    /* ---------- Service::start and entry ---------- */

    /** The port is free, and below the first reverse port as long as the host runs fewer than 100 services. */
    method RegisterService(p: Proc) returns (e: Entity)
      requires Steady() && |Local(services, hostOf(p))| < REV_BASE
      requires forall f | f in services :: services[f] != p
      modifies this`services
      ensures Steady() && e !in old(services) && e.host == hostOf(p) && services == old(services)[e := p]
      ensures e.port == ServicePort(Local(old(services), hostOf(p)))
    {
      hide Orderly, ServicePort;
      var m := Local(services, hostOf(p));
      ServicePortFits(m);
      e := Entity(hostOf(p), ServicePort(m));
      services := services[e := p];
    }

    /** The monitor comes first. */
    method StartMon()
      requires services == map[] && lent == map[] && Registered() == Reg(map[], map[], map[], map[], 0)
      modifies this`services, this`monitor
      ensures Started() && Registered() == old(Registered())
      ensures exists e :: services == map[e := Mon] && e.host == hostOf(Mon)
    {
      hide Orderly, OnePlaceEach, Agreed, Within, Receiver, Local, Fresh;
      NothingLocal(services, hostOf(Mon));
      NothingLent(lent, services, hostOf);
      var e := RegisterService(Mon);
      monitor := Some(e);
      NobodyYet(e);
      assert services == map[e := Mon];
    }

    /** A server starts: it registers, receives the next rank, and everybody's map is brought up to date. */
    method StartMds(i: nat) returns (ret: bool, ghost e: Entity)
      requires Agreeing() && |Local(services, hostOf(Mds(i)))| < REV_BASE
      requires forall f | f in services :: services[f] != Mds(i)
      modifies this
      ensures Agreeing() && ret && clients == old(clients)
      ensures e !in old(services) && e.host == hostOf(Mds(i)) && services == old(services)[e := Mds(i)]
      ensures active == old(active)[|old(active)| := e] && |active| == |old(active)| + 1
      ensures whoami == old(whoami)[i := |old(active)|] && delivered == old(delivered) + 2 + 2 * |active|
    {
      hide Orderly, OnePlaceEach, Agreed, Within, Fresh, ControlHandled, ControlSendable, Receiver;
      var at := RegisterService(Mds(i));
      e := at;
      assert services - {e} == old(services);
      ghost var s := Registered();
      ReadyToRegister(hostOf, services, lent, s, i, e, monitor.value);
      ret := Send(Mds(i), monitor, MdsReg(at.port));
      RegistrationDone(hostOf, services, s, i, e, Registered(), ret);
      NothingWithin(lent, old(lent));
    }

    /** connect_cluster: ask the monitor for the servers, unless connected before. It fails exactly when there are
        none. */
    method Connect(c: nat) returns (ok: bool)
      requires Started()
      modifies this
      ensures ok == (active != map[])
      ensures services == old(services) && active == old(active) && whoami == old(whoami) && mdsMap == old(mdsMap)
      ensures ok ==> Started() && clients.Keys == old(clients).Keys + {c} && clients[c].connected
      ensures old(c in clients && clients[c].connected) ==> Registered() == old(Registered())
      ensures old(c !in clients || !clients[c].connected) ==> delivered == old(delivered) + 2
    {
      hide Orderly, OnePlaceEach, Agreed, Within, ControlHandled, ControlSendable, Receiver;
      if c in clients && clients[c].connected { return true; }
      if c !in clients {
        clients := clients[c := ClientState(false, None, map[], map[], [], None, [], "")];
      }
      ghost var s := Registered();
      ReadyToFind(hostOf, services, lent, s, c, monitor.value);
      ok := Send(Client(c), monitor, FindMds);
      FoundServers(hostOf, services, s, c, Registered(), ok);
      NothingWithin(lent, old(lent));
      clients := clients[c := clients[c].(connected := ok)];
    }

    /** global_create_dispatchers, and the cluster as requests find it. */
    method Boot(strategy: Strategy, hash: string -> nat, cacheEnabled: bool, capacity: int) returns (sim: Cluster)
      requires Started() && active != map[] && capacity >= 1
      ensures fresh(sim) && sim.Running() && sim.lent == map[] && sim.tree == EMPTY && sim.clients == clients
      ensures AllOk(sim.cfg, sim.View()) && AllRight(sim.cfg, sim.View())
      ensures sim.cfg == Config(hostOf, services, whoami, mdsMap, Placer(strategy, hash, active, LutOf(active)),
          cacheEnabled, capacity)
    {
      hide Orderly, OnePlaceEach, Agreed, Fresh, Valid, ClientOk, Coherent, NamesValid;
      var dispatchers := new MetadataDispatcher();
      dispatchers.BuildLut(active);
      var cfg := Config(hostOf, services, whoami, mdsMap, Placer(strategy, hash, active, dispatchers.lut),
          cacheEnabled, capacity);
      ConfigBooted(cfg);
      EmptyTreeFine();
      forall c | c in clients
        ensures ClientOk(cfg, clients[c]) && Coherent(EMPTY, capacity, clients[c].cache)
      {
        FreshIsOk(cfg, EMPTY, clients[c]);
      }
      sim := new Cluster(cfg, clients);
    }

    /* ---------- Host::send_message, for messages with the monitor ---------- */

    method Send(p: Proc, target: Option<Entity>, m: Control) returns (ret: bool)
      requires Steady() && (target.Some? ==> ControlSendable(hostOf, services, lent, Registered(), p, target.value, m))
      modifies this`lent, this`active, this`whoami, this`mdsMap, this`clients, this`delivered
      ensures Steady() && Within(lent, old(lent))
      ensures target == None ==> !ret && Registered() == old(Registered())
      ensures target.Some? ==>
        ControlHandled(hostOf, services, old(Receiver(services, lent, target.value)), p, m, old(Registered()),
            Registered(), ret)
      decreases ControlWeight(m), 3
    {
      hide Orderly, ControlSendable, ControlHandled, Receiver, OnePlaceEach, LendTo, Within;
      WithinSelf(lent);
      if target == None { return false; }
      var e := Borrow(lent, hostOf, p);
      ControlLent(hostOf, services, lent, Registered(), p, e, target.value, m);
      lent := lent[e := p];
      ret := Receive(p, e, target.value, m);
      TakenBack(lent, hostOf, e);
      ReturnedWithin(lent, old(lent), e, p);
      lent := lent - {e};
    }

    method Receive(ghost p: Proc, src: Entity, dst: Entity, m: Control) returns (ret: bool)
      requires Steady() && ControlSendable(hostOf, services, lent, Registered(), p, dst, m)
      requires Receiver(services, lent, src) == Some(p) && src.host == hostOf(p)
      modifies this`lent, this`active, this`whoami, this`mdsMap, this`clients, this`delivered
      ensures Steady() && Within(lent, old(lent))
      ensures ControlHandled(hostOf, services, old(Receiver(services, lent, dst)), p, m, old(Registered()),
          Registered(), ret)
      decreases ControlWeight(m), 2
    {
      hide Orderly, OnePlaceEach, Enrolled, Introduced, ServersListed;
      delivered := delivered + 1;
      var to := Receiver(services, lent, dst);
      match to
      case Some(Mon) =>
        match m {
          case MdsReg(port) => ret := HandleMdsRegister(src, port, p);
          case FindMds => ret := HandleFindMds(src, p);
          case MdsMapUpdateAck => ret := true;
          case _ => ret := false;
        }
      case Some(Mds(i)) =>
        match m {
          case MdsRegAck(rank) =>
            whoami := whoami[i := rank];
            ret := true;
          case MdsMapUpdate(list) =>
            mdsMap := mdsMap[i := list];
            ret := Send(Mds(i), Some(src), MdsMapUpdateAck);
          case _ => ret := false;
        }
      case Some(Client(c)) =>
        match m {
          case FindMdsAck(list) =>
            clients := clients[c := Introduced(clients[c], list)];
            ret := list != map[];
          case _ => ret := false;
        }
      case None => ret := false;
    }

    method HandleFindMds(src: Entity, ghost p: Proc) returns (ret: bool)
      requires Steady() && p.Client? && p.id in clients && Receiver(services, lent, src) == Some(p)
      modifies this`lent, this`active, this`whoami, this`mdsMap, this`clients, this`delivered
      ensures Steady() && Within(lent, old(lent)) && ret == (old(active) != map[])
      ensures Registered() == old(Registered()).(
        clients := old(clients)[p.id := Introduced(old(clients)[p.id], old(active))], delivered := old(delivered) + 1)
      decreases 3, 1
    {
      hide Orderly, OnePlaceEach, Receiver, Introduced;
      ret := Send(Mon, Some(src), FindMdsAck(active));
    }

    /** add_mds: the first free rank, counting from 0. */
    method AddMds(e: Entity) returns (rank: Rank)
      modifies this`active
      ensures rank == NewRank(old(active)) && active == old(active)[rank := e]
    {
      rank := 0;
      while rank < |active| && rank in active
        invariant 0 <= rank <= |active|
        invariant FreeUp(active.Keys, rank, |active|) == NewRank(active)
      {
        rank := rank + 1;
      }
      active := active[rank := e];
    }

    /** handle_mdsregister: a rank for the new server, told to the server itself, and the new list told to every
        server. */
    method HandleMdsRegister(src: Entity, port: Port, ghost p: Proc) returns (ret: bool)
      requires Steady() && p.Mds? && ServersListed(services, active)
      requires Receiver(services, lent, src) == Some(p) && src.host == hostOf(p)
      requires Entity(hostOf(p), port) in services && services[Entity(hostOf(p), port)] == p
      modifies this`lent, this`active, this`whoami, this`mdsMap, this`clients, this`delivered
      ensures Steady() && ret && Within(lent, old(lent))
      ensures ServersListed(services, old(active))
      ensures Registered() == Enrolled(services, old(Registered()), p.id, Entity(hostOf(p), port))
      decreases 5, 1
    {
      hide Orderly, OnePlaceEach, Receiver, NewRank;
      var rank := AddMds(Entity(src.host, port));
      ret := Send(Mon, Some(src), MdsRegAck(rank));
      if !ret { return; }
      ret := Broadcast();
    }

    method Broadcast() returns (ret: bool)
      requires Steady() && ServersListed(services, active)
      modifies this`lent, this`active, this`whoami, this`mdsMap, this`clients, this`delivered
      ensures Steady() && ret && Within(lent, old(lent)) && ServersListed(services, old(active))
      ensures Registered() == old(Registered()).(
        mdsMap := Informing(services, old(mdsMap), old(active), SortedKeys(old(active).Keys)),
        delivered := old(delivered) + 2 * |old(active)|)
      decreases 4, 1
    {
      hide Orderly, OnePlaceEach, Receiver, Informing, ServersListed, Enrolled, Introduced, SortedKeys,
        AllListed;
      var list, ranks := active, SortedKeys(active.Keys);
      assert |ranks| == |active|;
      Listed(services, list, ranks);
      InformingNobody(services, mdsMap, list);
      var n := 0;
      while n < |ranks|
        invariant 0 <= n <= |ranks|
        invariant Steady() && Within(lent, old(lent))
        invariant AllListed(services, list, ranks[..n])
        invariant Registered() == old(Registered()).(
          mdsMap := Informing(services, old(mdsMap), list, ranks[..n]), delivered := old(delivered) + 2 * n)
      {
        assert ranks[n] in ranks;
        ServedThere(services, lent, list[ranks[n]]);
        InformingOneMore(services, old(mdsMap), list, ranks, n);
        ret := Send(Mon, Some(list[ranks[n]]), MdsMapUpdate(list));
        if !ret { return; }
        n := n + 1;
      }
      assert ranks[..n] == ranks;
      return true;
    }
  }

  lemma FreshIsOk(cfg: Config, t: Tree, cs: ClientState)
    requires Valid(t) && Fresh(cs, cfg.pl.active) && cfg.capacity >= 1
    ensures ClientOk(cfg, cs) && Coherent(t, cfg.capacity, cs.cache)
  {
    hide Valid;
    assert forall k: string :: L.Find<string, Ino>([], k) == None;
  }

  lemma EmptyTreeFine()
    ensures Valid(EMPTY) && NamesValid(EMPTY)
  {
  }

  lemma ConfigBooted(cfg: Config)
    requires Agreed(cfg.services, cfg.pl.active, cfg.whoami, cfg.mdsMap) && cfg.capacity >= 1
    requires forall e | e in cfg.services :: 0 <= e.port < REV_BASE
    requires cfg.pl.active != map[] && cfg.pl.lut == LutOf(cfg.pl.active)
    ensures Booted(cfg) && Usable(cfg.pl.lut)
  {
    LutPartition(cfg.pl.active);
    hide LutOf, Usable;
  }

  lemma TakenBack(lent: Lent, hostOf: Proc -> HostId, e: Entity)
    requires Orderly(lent, hostOf)
    ensures Orderly(lent - {e}, hostOf)
  {
  }

  lemma ServicePortFits(m: map<Port, Proc>)
    requires |m| < REV_BASE
    ensures 0 <= ServicePort(m) < REV_BASE && ServicePort(m) !in m
  {
    PortsFound(m);
  }

  lemma NothingLocal(services: map<Entity, Proc>, h: HostId)
    requires services == map[]
    ensures |Local(services, h)| == 0
  {
    assert Local(services, h).Keys == {};
  }

  lemma NothingLent(lent: Lent, services: map<Entity, Proc>, hostOf: Proc -> HostId)
    requires lent == map[] && services == map[]
    ensures Orderly(lent, hostOf) && OnePlaceEach(services)
  {
  }

  lemma NothingWithin(lent: Lent, before: Lent)
    requires Within(lent, before) && before == map[]
    ensures lent == map[]
  {
    assert lent.Keys == {};
  }

  lemma WithinSelf(lent: Lent)
    ensures Within(lent, lent)
  {
  }

  lemma ServedThere(services: map<Entity, Proc>, lent: Lent, e: Entity)
    requires e in services
    ensures Receiver(services, lent, e) == Some(services[e])
  {
  }
}
