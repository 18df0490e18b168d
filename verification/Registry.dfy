/** Registration as values: what the monitor's handshake with a starting server amounts to
    (cluster/services/MONService.cc, cluster/services/MDSService.cc). */
module Registry {
  import opened Collections
  import opened Ports
  import opened Topology
  import opened Lending
  import opened Protocol

  datatype Control =
    | MdsReg(port: Port)
    | MdsRegAck(rank: Rank)
    | MdsMapUpdate(activeList: map<Rank, Entity>)
    | MdsMapUpdateAck
    | FindMds
    | FindMdsAck(activeList: map<Rank, Entity>)

  /** The fields that registration changes: mds_active_list of the monitor, whoami and mds_map of each server, each
      client. */
  datatype Reg = Reg(
    active: map<Rank, Entity>,
    whoami: map<nat, Rank>,
    mdsMap: map<nat, map<Rank, Entity>>,
    clients: map<nat, ClientState>,
    delivered: nat)

  /* ---------- add_mds ---------- */

  function FreeUp(taken: set<Rank>, r: nat, max: nat): (k: nat)
    requires r <= max
    ensures r <= k <= max
    ensures forall j | r <= j < k :: j in taken
    ensures k < max ==> k !in taken
    decreases max - r
  {
    if r == max || r !in taken then r else FreeUp(taken, r + 1, max)
  }

  function NewRank(active: map<Rank, Entity>): nat {
    FreeUp(active.Keys, 0, |active|)
  }

  /** add_mds picks the smallest free rank, even when the list has holes. */
  lemma NewRankIsFree(active: map<Rank, Entity>)
    ensures NewRank(active) !in active && forall j | 0 <= j < NewRank(active) :: j in active
  {
    var r := NewRank(active);
    assert |active.Keys| == |active|;
    if r == |active| && r in active {
      FreePlace(active.Keys, 0);
    }
  }

  lemma DenseNewRank(active: map<Rank, Entity>)
    requires active.Keys == Interval(0, |active|)
    ensures NewRank(active) == |active|
  {
    NewRankIsFree(active);
  }

  /* ---------- The handshake ---------- */

  predicate AllListed(services: map<Entity, Proc>, list: map<Rank, Entity>, ranks: seq<Rank>) {
    forall r | r in ranks :: r in list && list[r] in services && services[list[r]].Mds?
  }

  lemma Listed(services: map<Entity, Proc>, list: map<Rank, Entity>, ranks: seq<Rank>)
    requires ServersListed(services, list) && forall r | r in ranks :: r in list
    ensures AllListed(services, list, ranks) && AllListed(services, list, [])
  {
  }

  lemma InformingNobody(services: map<Entity, Proc>, mdsMap: map<nat, map<Rank, Entity>>, list: map<Rank, Entity>)
    ensures Informing(services, mdsMap, list, []) == mdsMap
  {
  }

  lemma InformingOneMore(services: map<Entity, Proc>, mdsMap: map<nat, map<Rank, Entity>>, list: map<Rank, Entity>,
                         ranks: seq<Rank>, n: nat)
    requires AllListed(services, list, ranks) && n < |ranks|
    ensures AllListed(services, list, ranks[..n]) && AllListed(services, list, ranks[..n + 1])
    ensures ranks[n] in list && list[ranks[n]] in services && services[list[ranks[n]]].Mds?
    ensures Informing(services, mdsMap, list, ranks[..n + 1])
         == Informing(services, mdsMap, list, ranks[..n])[services[list[ranks[n]]].id := list]
  {
    assert ranks[n] in ranks;
    forall r | r in ranks[..n + 1]
      ensures r in list && list[r] in services && services[list[r]].Mds?
    {
      assert r in ranks;
    }
    assert forall r | r in ranks[..n] :: r in ranks[..n + 1];
    assert ranks[..n + 1][..n] == ranks[..n];
  }

  /** The servers at the given ranks have received the list. */
  function Informing(services: map<Entity, Proc>, mdsMap: map<nat, map<Rank, Entity>>, list: map<Rank, Entity>,
                     ranks: seq<Rank>):
    (m: map<nat, map<Rank, Entity>>)
    requires AllListed(services, list, ranks)
  {
    if ranks == [] then mdsMap
    else
      var init, last := ranks[..|ranks| - 1], ranks[|ranks| - 1];
      assert last in ranks && forall r | r in init :: r in ranks;
      Informing(services, mdsMap, list, init)[services[list[last]].id := list]
  }

  lemma {:induction false} InformingFacts(services: map<Entity, Proc>, mdsMap: map<nat, map<Rank, Entity>>,
                                        list: map<Rank, Entity>, ranks: seq<Rank>)
    requires AllListed(services, list, ranks)
    ensures var m := Informing(services, mdsMap, list, ranks);
      && (forall r | r in ranks :: var i := services[list[r]].id; i in m && m[i] == list)
      && (forall i | i in mdsMap :: i in m && (m[i] == list || m[i] == mdsMap[i]))
  {
    if ranks != [] {
      var init, last := ranks[..|ranks| - 1], ranks[|ranks| - 1];
      assert last in ranks && forall r | r in init :: r in ranks;
      assert ranks == init + [last];
      InformingFacts(services, mdsMap, list, init);
    }
  }

  /** Server i, reachable at e, has registered. */
  function Enrolled(services: map<Entity, Proc>, s: Reg, i: nat, e: Entity): Reg
    requires forall r | r in s.active :: s.active[r] in services && services[s.active[r]].Mds?
    requires e in services && services[e].Mds?
  {
    var r := NewRank(s.active);
    var list := s.active[r := e];
    s.(active := list, whoami := s.whoami[i := r],
       mdsMap := Informing(services, s.mdsMap, list, SortedKeys(list.Keys)),
       delivered := s.delivered + 1 + 2 * |list|)
  }

  /** Every process is served at most at one place. */
  ghost predicate OnePlaceEach(services: map<Entity, Proc>) {
    forall e, f | e in services && f in services && services[e] == services[f] :: e == f
  }

  /** The servers known before a new one starts. */
  lemma KnownServers(services: map<Entity, Proc>, s: Reg, i: nat, e: Entity)
    requires e in services && services[e] == Mds(i) && OnePlaceEach(services)
    requires Agreed(services - {e}, s.active, s.whoami, s.mdsMap)
    ensures forall r | r in s.active ::
      && s.active[r] in services && services[s.active[r]].Mds?
      && services[s.active[r]].id != i && Ranked(s.whoami, services[s.active[r]].id, r)
  {
    forall r | r in s.active
      ensures s.active[r] in services && services[s.active[r]].Mds? && services[s.active[r]].id != i
    {
      assert s.active[r] in services - {e};
    }
  }

  lemma OneMoreRank(active: map<Rank, Entity>, e: Entity)
    requires active.Keys == Interval(0, |active|)
    ensures var list := active[|active| := e];
      |active| !in active && |list| == |active| + 1 && list.Keys == Interval(0, |list|)
  {
    assert |active| !in Interval(0, |active|);
  }

  /** The new list has one more entry, for the next rank, and reaches everybody on it. */
  lemma EnrolledShape(services: map<Entity, Proc>, s: Reg, i: nat, e: Entity)
    requires e in services && services[e] == Mds(i) && s.active.Keys == Interval(0, |s.active|)
    requires forall r | r in s.active :: s.active[r] in services && services[s.active[r]].Mds?
    ensures var u := Enrolled(services, s, i, e);
      && u.active == s.active[|s.active| := e] && u.whoami == s.whoami[i := |s.active|]
      && (forall r | r in u.active ::
          u.active[r] in services && services[u.active[r]].Mds? && Told(u, services[u.active[r]].id))
  {
    hide Informing;
    DenseNewRank(s.active);
    var u := Enrolled(services, s, i, e);
    InformingFacts(services, s.mdsMap, u.active, SortedKeys(u.active.Keys));
    forall r | r in u.active
      ensures u.active[r] in services && services[u.active[r]].Mds? && Told(u, services[u.active[r]].id)
    {
      assert r in SortedKeys(u.active.Keys);
    }
  }

  /** Server k has the current list. */
  predicate Told(u: Reg, k: nat) {
    k in u.mdsMap && u.mdsMap[k] == u.active
  }

  lemma RanksAgree(services: map<Entity, Proc>, s: Reg, u: Reg, i: nat, e: Entity)
    requires e in services && services[e] == Mds(i) && OnePlaceEach(services) && |s.active| !in s.active
    requires Agreed(services - {e}, s.active, s.whoami, s.mdsMap)
    requires u.active == s.active[|s.active| := e] && u.whoami == s.whoami[i := |s.active|]
    ensures forall r | r in u.active ::
      u.active[r] in services && services[u.active[r]].Mds? && Ranked(u.whoami, services[u.active[r]].id, r)
  {
    KnownServers(services, s, i, e);
  }

  lemma ServersAgree(services: map<Entity, Proc>, s: Reg, u: Reg, i: nat, e: Entity, f: Entity)
    requires e in services && services[e] == Mds(i) && OnePlaceEach(services) && |s.active| !in s.active
    requires Agreed(services - {e}, s.active, s.whoami, s.mdsMap)
    requires u.active == s.active[|s.active| := e] && u.whoami == s.whoami[i := |s.active|]
    requires forall r | r in u.active ::
        u.active[r] in services && services[u.active[r]].Mds? && Told(u, services[u.active[r]].id)
    requires f in services && services[f].Mds?
    ensures Informed(u.active, u.whoami, u.mdsMap, services[f].id) && u.active[u.whoami[services[f].id]] == f
  {
    var k := services[f].id;
    if f == e {
      assert u.active[|s.active|] == e;
    } else {
      assert f in services - {e} && (services - {e})[f] == services[f];
      assert Informed(s.active, s.whoami, s.mdsMap, k) && s.active[s.whoami[k]] == f;
      assert u.active[u.whoami[k]] == f;
    }
  }

  /** The acknowledgement, and an update and its acknowledgement for everybody on the new list. */
  lemma EnrolledDelivers(services: map<Entity, Proc>, s: Reg, i: nat, e: Entity)
    requires ServersListed(services, s.active) && e in services && services[e].Mds?
    ensures var u := Enrolled(services, s, i, e); u.delivered == s.delivered + 1 + 2 * |u.active|
  {
    hide Informing, NewRank;
  }

  lemma EnrolledClients(services: map<Entity, Proc>, s: Reg, i: nat, e: Entity)
    requires ServersListed(services, s.active) && e in services && services[e].Mds?
    ensures Enrolled(services, s, i, e).clients == s.clients
  {
  }

  lemma NobodyYet(e: Entity)
    ensures Agreed(map[e := Mon], map[], map[], map[]) && OnePlaceEach(map[e := Mon])
  {
  }

  /** Registration keeps the agreement: a server that was not known before is now the next rank, and everybody knows.
      */
  lemma EnrolledAgreed(services: map<Entity, Proc>, s: Reg, i: nat, e: Entity)
    requires e in services && services[e] == Mds(i) && OnePlaceEach(services)
    requires Agreed(services - {e}, s.active, s.whoami, s.mdsMap)
    ensures forall r | r in s.active :: s.active[r] in services && services[s.active[r]].Mds?
    ensures var u := Enrolled(services, s, i, e);
      && Agreed(services, u.active, u.whoami, u.mdsMap)
      && u.active == s.active[|s.active| := e] && |u.active| == |s.active| + 1 && u.whoami == s.whoami[i := |s.active|]
  {
    hide Enrolled, Ranked, Told;
    KnownServers(services, s, i, e);
    EnrolledShape(services, s, i, e);
    OneMoreRank(s.active, e);
    var u := Enrolled(services, s, i, e);
    RanksAgree(services, s, u, i, e);
    forall f | f in services && services[f].Mds?
      ensures Informed(u.active, u.whoami, u.mdsMap, services[f].id) && u.active[u.whoami[services[f].id]] == f
    {
      ServersAgree(services, s, u, i, e, f);
    }
  }

  /* ---------- Clients ---------- */

  /** set_root_mds: rank 0, or else the first there is. */
  function RootMds(list: map<Rank, Entity>, before: Option<Entity>): Option<Entity> {
    if 0 in list then Some(list[0])
    else if list == map[] then before
    else
      assert |list.Keys| == |list|;
      Some(list[SortedKeys(list.Keys)[0]])
  }

  /** The root server has the least rank on the list; without a list it stays what it was. */
  lemma RootMdsLaw(list: map<Rank, Entity>, before: Option<Entity>)
    ensures list == map[] ==> RootMds(list, before) == before
    ensures list != map[] && (forall r | r in list :: r >= 0) ==>
      exists r | r in list :: RootMds(list, before) == Some(list[r]) && forall q | q in list :: r <= q
  {
    if list != map[] {
      var ks := SortedKeys(list.Keys);
      assert |list.Keys| == |list| && forall q | q in list :: q in ks;
      assert 0 !in list ==> ks[0] in list && RootMds(list, before) == Some(list[ks[0]]);
    }
  }

  /** handle_findmdsack. */
  function Introduced(cs: ClientState, list: map<Rank, Entity>): ClientState {
    cs.(mdsmap := list, rootMds := RootMds(list, cs.rootMds))
  }

  /* ---------- One message ---------- */

  ghost predicate ServersListed(services: map<Entity, Proc>, active: map<Rank, Entity>) {
    forall r | r in active :: active[r] in services && services[active[r]].Mds?
  }

  ghost predicate ControlSendable(hostOf: Proc -> HostId, services: map<Entity, Proc>, lent: Lent, s: Reg, p: Proc,
                                  to: Entity, m: Control) {
    var at := Receiver(services, lent, to);
    match m
    case MdsReg(port) =>
      && p.Mds? && at == Some(Mon) && ServersListed(services, s.active)
      && Entity(hostOf(p), port) in services && services[Entity(hostOf(p), port)] == p
    case MdsRegAck(_) => p == Mon && at.Some? && at.value.Mds?
    case MdsMapUpdate(_) => p == Mon && at.Some? && at.value.Mds?
    case MdsMapUpdateAck => p.Mds? && at == Some(Mon)
    case FindMds => p.Client? && at == Some(Mon) && p.id in s.clients
    case FindMdsAck(_) => p == Mon && at.Some? && at.value.Client? && at.value.id in s.clients
  }

  ghost predicate ControlHandled(hostOf: Proc -> HostId, services: map<Entity, Proc>, at: Option<Proc>, p: Proc,
                                 m: Control, s: Reg, s': Reg, ret: bool) {
    at.Some? &&
    match m
    case MdsReg(port) =>
      && ret && p.Mds? && ServersListed(services, s.active)
      && Entity(hostOf(p), port) in services && services[Entity(hostOf(p), port)] == p
      && s' == Enrolled(services, s.(delivered := s.delivered + 1), p.id, Entity(hostOf(p), port))
    case MdsRegAck(rank) =>
      at.value.Mds? && ret && s' == s.(whoami := s.whoami[at.value.id := rank], delivered := s.delivered + 1)
    case MdsMapUpdate(list) =>
      at.value.Mds? && ret && s' == s.(mdsMap := s.mdsMap[at.value.id := list], delivered := s.delivered + 2)
    case MdsMapUpdateAck => ret && s' == s.(delivered := s.delivered + 1)
    case FindMds =>
      && p.Client? && p.id in s.clients && ret == (s.active != map[])
      && s' == s.(clients := s.clients[p.id := Introduced(s.clients[p.id], s.active)], delivered := s.delivered + 2)
    case FindMdsAck(list) =>
      && at.value.Client? && at.value.id in s.clients && ret == (list != map[])
      && s' == s.(clients := s.clients[at.value.id := Introduced(s.clients[at.value.id], list)],
          delivered := s.delivered + 1)
  }

  /** Lending the sender a port does not change who any message reaches. */
  lemma ControlLent(hostOf: Proc -> HostId, services: map<Entity, Proc>, lent: Lent, s: Reg, p: Proc, e: Entity,
                    to: Entity, m: Control)
    requires e !in services && (e in lent ==> lent[e] == p)
    requires ControlSendable(hostOf, services, lent, s, p, to, m)
    ensures ControlSendable(hostOf, services, lent[e := p], s, p, to, m)
    ensures Receiver(services, lent, to).Some? && Receiver(services, lent[e := p], to) == Receiver(services, lent, to)
    ensures Receiver(services, lent[e := p], e) == Some(p)
  {
    ReceiverLent(services, lent, p, e, to);
    hide Receiver, ServersListed;
  }

  lemma ReadyToRegister(hostOf: Proc -> HostId, services: map<Entity, Proc>, lent: Lent, s: Reg, i: nat, e: Entity,
                        monitor: Entity)
    requires e in services && services[e] == Mds(i) && e.host == hostOf(Mds(i)) && OnePlaceEach(services)
    requires Agreed(services - {e}, s.active, s.whoami, s.mdsMap)
    requires monitor in services && services[monitor] == Mon
    ensures ControlSendable(hostOf, services, lent, s, Mds(i), monitor, MdsReg(e.port))
    ensures Receiver(services, lent, monitor) == Some(Mon)
  {
    KnownServers(services, s, i, e);
  }

  /** A handshake with the monitor that has come back. */
  lemma RegistrationDone(hostOf: Proc -> HostId, services: map<Entity, Proc>, s: Reg, i: nat, e: Entity, s': Reg,
                         ret: bool)
    requires e in services && services[e] == Mds(i) && e.host == hostOf(Mds(i)) && OnePlaceEach(services)
    requires Agreed(services - {e}, s.active, s.whoami, s.mdsMap)
    requires ControlHandled(hostOf, services, Some(Mon), Mds(i), MdsReg(e.port), s, s', ret)
    ensures ret && Agreed(services, s'.active, s'.whoami, s'.mdsMap) && s'.clients == s.clients
    ensures s'.active == s.active[|s.active| := e] && |s'.active| == |s.active| + 1
    ensures s'.whoami == s.whoami[i := |s.active|]
    ensures s'.delivered == s.delivered + 2 + 2 * |s'.active|
  {
    hide Agreed, OnePlaceEach, Enrolled;
    EnrolledAgreed(services, s.(delivered := s.delivered + 1), i, e);
    EnrolledClients(services, s.(delivered := s.delivered + 1), i, e);
    EnrolledDelivers(services, s.(delivered := s.delivered + 1), i, e);
  }

  /** A client that has just been introduced. */
  ghost predicate Fresh(cs: ClientState, active: map<Rank, Entity>) {
    cs.mdsmap == active && 0 in active && cs.rootMds == Some(active[0]) && cs.routetable == map[] && cs.cache == []
  }

  lemma ReadyToFind(hostOf: Proc -> HostId, services: map<Entity, Proc>, lent: Lent, s: Reg, c: nat, monitor: Entity)
    requires c in s.clients && monitor in services && services[monitor] == Mon
    ensures ControlSendable(hostOf, services, lent, s, Client(c), monitor, FindMds)
    ensures Receiver(services, lent, monitor) == Some(Mon)
  {
  }

  lemma FoundServers(hostOf: Proc -> HostId, services: map<Entity, Proc>, s: Reg, c: nat, s': Reg, ret: bool)
    requires Agreed(services, s.active, s.whoami, s.mdsMap) && c in s.clients
    requires s.clients[c].routetable == map[] && s.clients[c].cache == []
    requires ControlHandled(hostOf, services, Some(Mon), Client(c), FindMds, s, s', ret)
    ensures ret == (s.active != map[]) && s'.active == s.active && s'.whoami == s.whoami && s'.mdsMap == s.mdsMap
    ensures c in s'.clients && s'.clients == s.clients[c := s'.clients[c]]
    ensures ret ==> forall b :: Fresh(s'.clients[c].(connected := b), s.active)
    ensures s'.delivered == s.delivered + 2
  {
    ActiveHasRoot(services, s.active, s.whoami, s.mdsMap);
    hide Agreed;
  }

  lemma ActiveHasRoot(services: map<Entity, Proc>, active: map<Rank, Entity>, whoami: map<nat, Rank>, mdsMap: map<nat,
                      map<Rank, Entity>>)
    requires Agreed(services, active, whoami, mdsMap)
    ensures active != map[] ==> 0 in active
  {
    if active != map[] {
      var r :| r in active;
      assert r in Interval(0, |active|);
      assert 0 in Interval(0, |active|);
    }
  }
}
