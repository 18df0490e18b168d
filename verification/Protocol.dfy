/** Messages between clients and metadata servers, and what serving one request amounts to:
    the specification the handlers in Cluster.dfy are proved against. */
module Protocol {
  import opened Collections
  import opened Namespace
  import opened Topology
  import opened Placement
  import opened Gather
  import opened Ports
  import opened Lending
  import L = LruSpec

  datatype Op = LOOKUP | CREATE | READ | WRITE | RM | MKDIR | RMDIR | LISTDIR

  datatype Request = Request(fullpath: string, op: Op, path: string, inode: Option<Ino>, data: string)

  datatype Reply = Reply(fromwho: Rank, fullpath: string, inode: Option<Ino>, data: string, inodes: seq<Ino>)

  datatype Message =
    | ClientRequest(req: Request)
    | ClientRequestForward(src: Entity, req: Request)
    | ClientRequestReply(reply: Reply)
    | SlaveRequest(fullpath: string, op: Op, inode: Ino)
    | SlaveRequestReply(fullpath: string, inodes: seq<Ino>)

  /** The fields of one ClientProcess. */
  datatype ClientState = ClientState(
    connected: bool,
    rootMds: Option<Entity>,
    mdsmap: map<Rank, Entity>,
    routetable: map<string, Rank>,
    cache: seq<L.Entry<string, Ino>>,
    callbackInoptr: Option<Ino>,
    callbackInolist: seq<Ino>,
    callbackData: string)

  /** handle_clientrequestreply: learn the route, then store or touch the cache entry. */
  function Absorb(cs: ClientState, capacity: int, r: Reply): ClientState
    requires capacity >= 1
  {
    cs.(routetable := cs.routetable[r.fullpath := r.fromwho],
        cache := if r.inode.Some? then L.Set(capacity, cs.cache, r.fullpath, r.inode.value)
                 else L.Get(cs.cache, r.fullpath).0,
        callbackInoptr := r.inode,
        callbackInolist := cs.callbackInolist + r.inodes,
        callbackData := r.data)
  }

  /** The ranks of the children of a directory, each asked for as fullpath + "/" + name. */
  function ChildRanks(pl: Placer, t: Tree, fullpath: string, kids: seq<Ino>): (ranks: seq<Rank>)
    requires Valid(t) && Usable(pl.lut) && forall k | k in kids :: k in t.nodes
    ensures |ranks| == |kids|
    ensures forall i | 0 <= i < |kids| :: ranks[i] == Dispatch(pl, t, fullpath + "/" + t.nodes[kids[i]].name)
  {
    seq(|kids|, i requires 0 <= i < |kids| => Dispatch(pl, t, fullpath + "/" + t.nodes[kids[i]].name))
  }

  datatype SlaveAnswer = Silent | Answer(inodes: seq<Ino>, count: nat)

  /** A slave request at the server of rank `me`: silence when the directory is its own or nobody's, else the entries
      it owns (listed for LISTDIR only) and their number. */
  function Slave(pl: Placer, t: Tree, me: Rank, fullpath: string, op: Op, i: Ino): SlaveAnswer
    requires Valid(t) && Usable(pl.lut) && i in t.nodes
  {
    var d := Dispatch(pl, t, fullpath);
    if d == -1 || d == me then Silent
    else
      assert ValidEntries(t, i, t.nodes[i].entries);
      var kids := t.nodes[i].entries;
      var own := Own(kids, ChildRanks(pl, t, fullpath, kids), me);
      Answer(if op.LISTDIR? then own else [], |own|)
  }

  /** Outcome of one operation: whether it succeeds, the tree it leaves, its reply, the entries counted by each server
      that took part, and the messages exchanged between servers. */
  datatype Outcome = Outcome(ok: bool, tree: Tree, reply: Reply, work: seq<nat>, messages: nat)

  /** Every request but LOOKUP carries a live inode. */
  predicate Serviceable(t: Tree, req: Request) {
    req.op.LOOKUP? || (req.inode.Some? && req.inode.value in t.nodes)
  }

  function KidRanks(pl: Placer, t: Tree, req: Request): (ranks: seq<Rank>)
    requires Valid(t) && Usable(pl.lut) && !req.op.LOOKUP? && Serviceable(t, req)
    ensures |ranks| == |t.nodes[req.inode.value].entries|
  {
    assert ValidEntries(t, req.inode.value, t.nodes[req.inode.value].entries);
    ChildRanks(pl, t, req.fullpath, t.nodes[req.inode.value].entries)
  }

  /** What asking the other owners costs: a request each, and an answer each if they know whose directory it is. */
  function PeerMessages(pl: Placer, t: Tree, me: Rank, req: Request): nat
    requires Valid(t) && Usable(pl.lut) && !req.op.LOOKUP? && Serviceable(t, req)
  {
    |Others(KidRanks(pl, t, req), me)| * (if Dispatch(pl, t, req.fullpath) == -1 then 1 else 2)
  }

  function PeerWork(pl: Placer, t: Tree, me: Rank, req: Request): seq<nat>
    requires Valid(t) && Usable(pl.lut) && !req.op.LOOKUP? && Serviceable(t, req)
  {
    var ranks := KidRanks(pl, t, req);
    if Dispatch(pl, t, req.fullpath) == -1 then []
    else Counts(t.nodes[req.inode.value].entries, ranks, Others(ranks, me))
  }

  function OwnWork(pl: Placer, t: Tree, me: Rank, req: Request): nat
    requires Valid(t) && Usable(pl.lut) && !req.op.LOOKUP? && Serviceable(t, req)
  {
    |Own(t.nodes[req.inode.value].entries, KidRanks(pl, t, req), me)|
  }

  /** A request executed by the server of rank `me`. */
  function Perform(pl: Placer, t: Tree, me: Rank, req: Request): Outcome
    requires Valid(t) && Usable(pl.lut) && Serviceable(t, req)
  {
    var plain := Reply(me, req.fullpath, None, "", []);
    match req.op
    case LOOKUP =>
      var i := Lookup(t, req.path);
      Outcome(i.Some?, t, plain.(inode := i), [], 0)
    case CREATE =>
      var (i, u) := Mknod(t, req.inode.value, req.path);
      Outcome(i.Some?, u, plain.(inode := i), [], 0)
    case MKDIR =>
      var (i, u) := Mkdir(t, req.inode.value, req.path);
      Outcome(i.Some?, u, plain.(inode := i), [], 0)
    case READ => Outcome(true, t, plain.(data := t.nodes[req.inode.value].content), [], 0)
    case WRITE => Outcome(true, Write(t, req.inode.value, req.data), plain, [], 0)
    case RM => Outcome(true, Remove(t, req.inode.value), plain, [], 0)
    case LISTDIR =>
      var kids := Listdir(t, req.inode.value);
      if kids == None then Outcome(false, t, plain, [], 0)
      else
        Outcome(true, t,
          plain.(inodes := Listing(kids.value, KidRanks(pl, t, req), me, Dispatch(pl, t, req.fullpath))),
          [OwnWork(pl, t, me, req)] + PeerWork(pl, t, me, req), PeerMessages(pl, t, me, req))
    case RMDIR =>
      if Listdir(t, req.inode.value) == None then Outcome(false, t, plain, [], 0)
      else
        Outcome(true, Remove(t, req.inode.value), plain,
          PeerWork(pl, t, me, req) + [OwnWork(pl, t, me, req)], PeerMessages(pl, t, me, req))
  }

  /** Everything a request can change, apart from ports and scratch lists. */
  datatype Shared = Shared(tree: Tree, clients: map<nat, ClientState>, work: seq<nat>,
      executed: seq<(Rank, Request)>, delivered: nat)

  /** The state after the server of rank `me` has executed the request of client c: one execution, and on success one
      reply. */
  function Serve(pl: Placer, capacity: int, s: Shared, c: nat, me: Rank, req: Request): Shared
    requires Valid(s.tree) && Usable(pl.lut) && Serviceable(s.tree, req) && capacity >= 1 && c in s.clients
  {
    var o := Perform(pl, s.tree, me, req);
    Shared(o.tree,
           if o.ok then s.clients[c := Absorb(s.clients[c], capacity, o.reply)] else s.clients,
           s.work + o.work,
           s.executed + [(me, req)],
           s.delivered + o.messages + (if o.ok then 1 else 0))
  }

  /** The request, already recorded as executed, has been carried out and answered. */
  ghost predicate Finished(cfg: Config, s: Shared, c: nat, me: Rank, req: Request, s': Shared, ret: bool)
    requires Valid(s.tree) && Usable(cfg.pl.lut) && Serviceable(s.tree, req) && cfg.capacity >= 1 && c in s.clients
  {
    && ret == Perform(cfg.pl, s.tree, me, req).ok
    && s' == Serve(cfg.pl, cfg.capacity, s, c, me, req).(executed := s.executed)
  }

  lemma RecordedFirst(cfg: Config, s: Shared, c: nat, me: Rank, req: Request)
    requires Valid(s.tree) && Usable(cfg.pl.lut) && Serviceable(s.tree, req) && cfg.capacity >= 1 && c in s.clients
    ensures var r := s.(executed := s.executed + [(me, req)]);
      Serve(cfg.pl, cfg.capacity, r, c, me, req).(executed := r.executed) == Serve(cfg.pl, cfg.capacity, s, c, me, req)
  {
    hide Valid, Perform, Absorb;
  }

  /** The server that executes a request first received by rank `first`. */
  function Executor(pl: Placer, t: Tree, first: Rank, req: Request): Rank
    requires Valid(t) && Usable(pl.lut)
  {
    var d := Dispatch(pl, t, req.fullpath);
    if d == -1 then first else d
  }

  /** The state after a request has reached the server of rank `first`, which executes it or forwards it: one message
      more. */
  function Route(pl: Placer, capacity: int, s: Shared, c: nat, first: Rank, req: Request): Shared
    requires Valid(s.tree) && Usable(pl.lut) && Serviceable(s.tree, req) && capacity >= 1 && c in s.clients
  {
    var me := Executor(pl, s.tree, first, req);
    Serve(pl, capacity, if me == first then s else s.(delivered := s.delivered + 1), c, me, req)
  }

  lemma PerformKeepsTree(pl: Placer, t: Tree, me: Rank, req: Request)
    requires Valid(t) && Usable(pl.lut) && Serviceable(t, req)
    ensures Valid(Perform(pl, t, me, req).tree)
    ensures !req.op.RM? && !req.op.RMDIR? ==> Grows(t, Perform(pl, t, me, req).tree)
  {
    match req.op
    case CREATE => AddSubGrows(t, req.inode.value, req.path, false);
    case MKDIR => AddSubGrows(t, req.inode.value, req.path, true);
    case WRITE => WriteGrows(t, req.inode.value, req.data);
    case RM => RemoveValid(t, req.inode.value);
    case RMDIR => RemoveValid(t, req.inode.value);
    case _ =>
  }

  /** Serving records one execution; d messages before it, it costs those to other servers, and one to reply. */
  lemma ServeCosts(pl: Placer, capacity: int, s: Shared, d: nat, c: nat, me: Rank, req: Request)
    requires Valid(s.tree) && Usable(pl.lut) && Serviceable(s.tree, req) && capacity >= 1 && c in s.clients
    ensures var o, u := Perform(pl, s.tree, me, req), Serve(pl, capacity, s.(delivered := d), c, me, req);
      && u.executed == s.executed + [(me, req)]
      && u.delivered == d + o.messages + (if o.ok then 1 else 0)
  {
    hide Valid, Usable, Perform, Absorb;
  }

  /** One operation costs at most 2(n - 1) + 3 messages when n servers are active, and is executed once. */
  lemma BoundedTraffic(pl: Placer, capacity: int, s: Shared, c: nat, first: Rank, req: Request)
    requires Ready(pl) && Valid(s.tree) && Serviceable(s.tree, req) && capacity >= 1 && c in s.clients
    requires first in pl.active
    ensures var after := Route(pl, capacity, s.(delivered := s.delivered + 1), c, first, req);
      && after.delivered <= s.delivered + 2 * (|pl.active| - 1) + 3
      && after.executed == s.executed + [(Executor(pl, s.tree, first, req), req)]
  {
    assert Usable(pl.lut);
    hide Valid, Ready, Usable, Serviceable, Dispatch, Serve;
    ServeCosts(pl, capacity, s, s.delivered + 1, c, Executor(pl, s.tree, first, req), req);
    ServeCosts(pl, capacity, s, s.delivered + 2, c, Executor(pl, s.tree, first, req), req);
    DispatchRange(pl, s.tree, req.fullpath);
    MessagesBounded(pl, s.tree, Executor(pl, s.tree, first, req), req);
  }

  lemma MessagesBounded(pl: Placer, t: Tree, me: Rank, req: Request)
    requires Ready(pl) && Valid(t) && Serviceable(t, req) && me in pl.active
    ensures Perform(pl, t, me, req).messages <= 2 * (|pl.active| - 1)
  {
    hide Valid, Ready, Serviceable, Lookup, Mknod, Mkdir, Write, Remove, Listing, Dispatch, KidRanks, PeerWork,
      PeerMessages, OwnWork;
    assert pl.active.Keys != {} && |pl.active| == |pl.active.Keys|;
    if req.op.LISTDIR? || req.op.RMDIR? {
      PeersBounded(pl, t, me, req);
    }
  }

  lemma PeersBounded(pl: Placer, t: Tree, me: Rank, req: Request)
    requires Ready(pl) && Valid(t) && !req.op.LOOKUP? && Serviceable(t, req) && me in pl.active
    ensures PeerMessages(pl, t, me, req) <= 2 * (|pl.active| - 1)
  {
    var ranks := KidRanks(pl, t, req);
    var kids := t.nodes[req.inode.value].entries;
    assert ValidEntries(t, req.inode.value, kids);
    forall x | x in ranks
      ensures x == -1 || 0 <= x < |pl.active|
    {
      var i :| 0 <= i < |ranks| && ranks[i] == x;
      DispatchRange(pl, t, req.fullpath + "/" + t.nodes[kids[i]].name);
    }
    FewAsked(ranks, me, |pl.active|);
  }

  /* ---------- One message ---------- */

  /** What registration leaves behind and requests never change: where every process lives, the services' ports, each
      server's rank and copy of the map, and the dispatchers. */
  datatype Config = Config(
    hostOf: Proc -> HostId,
    services: map<Entity, Proc>,
    whoami: map<nat, Rank>,
    mdsMap: map<nat, map<Rank, Entity>>,
    pl: Placer,
    cacheEnabled: bool,
    capacity: int)

  /** Registration agreement: the server behind each active rank knows its rank and the whole map. */
  ghost predicate Agreed(services: map<Entity, Proc>, active: map<Rank, Entity>, whoami: map<nat, Rank>,
                         mdsMap: map<nat, map<Rank, Entity>>) {
    && active.Keys == Interval(0, |active|)
    && (forall r | r in active ::
        active[r] in services && services[active[r]].Mds? && Ranked(whoami, services[active[r]].id, r))
    && (forall e | e in services && services[e].Mds? ::
          Informed(active, whoami, mdsMap, services[e].id) && active[whoami[services[e].id]] == e)
  }

  predicate Ranked(whoami: map<nat, Rank>, i: nat, r: Rank) {
    i in whoami && whoami[i] == r
  }

  /** Server i has an active rank and the monitor's map. */
  predicate Informed(active: map<Rank, Entity>, whoami: map<nat, Rank>, mdsMap: map<nat, map<Rank, Entity>>, i: nat) {
    i in whoami && whoami[i] in active && i in mdsMap && mdsMap[i] == active
  }

  ghost predicate Booted(cfg: Config) {
    && Agreed(cfg.services, cfg.pl.active, cfg.whoami, cfg.mdsMap)
    && (forall e | e in cfg.services :: 0 <= e.port < REV_BASE)
    && Ready(cfg.pl) && cfg.capacity >= 1
  }

  function At(cfg: Config, lent: Lent, e: Entity): Option<Proc> {
    Receiver(cfg.services, lent, e)
  }

  predicate IsServer(cfg: Config, p: Proc) {
    p.Mds? && Informed(cfg.pl.active, cfg.whoami, cfg.mdsMap, p.id)
  }

  lemma ActiveServer(cfg: Config, r: Rank)
    requires Booted(cfg) && r in cfg.pl.active
    ensures var e := cfg.pl.active[r];
      e in cfg.services && IsServer(cfg, cfg.services[e]) && cfg.whoami[cfg.services[e].id] == r && r != -1
  {
    hide Ready;
    assert Ranked(cfg.whoami, cfg.services[cfg.pl.active[r]].id, r);
  }

  /** What a message relies on: who it reaches, and for a forwarded request that it reaches its owner.
      c is the client a request comes from, or the server a slave's answer goes to. */
  ghost predicate Sendable(cfg: Config, lent: Lent, s: Shared, p: Proc, to: Entity, m: Message, c: nat)
    requires Booted(cfg) && Valid(s.tree)
  {
    match m
    case ClientRequest(req) =>
      p == Client(c) && c in s.clients && to in cfg.services && IsServer(cfg, cfg.services[to])
          && Serviceable(s.tree, req)
    case ClientRequestForward(src, req) =>
      && p.Mds? && to in cfg.services && IsServer(cfg, cfg.services[to])
      && At(cfg, lent, src) == Some(Client(c)) && c in s.clients && Serviceable(s.tree, req)
      && Dispatch(cfg.pl, s.tree, req.fullpath) == cfg.whoami[cfg.services[to].id]
    case ClientRequestReply(_) =>
      p.Mds? && At(cfg, lent, to) == Some(Client(c)) && c in s.clients
    case SlaveRequest(_, op, i) =>
      && IsServer(cfg, p) && p.id == c && to in cfg.services && IsServer(cfg, cfg.services[to]) && cfg.services[to] != p
      && (op.RMDIR? || op.LISTDIR?) && i in s.tree.nodes && s.tree.nodes[i].isDir
    case SlaveRequestReply(_, _) =>
      p.Mds? && At(cfg, lent, to) == Some(Mds(c)) && c in cfg.whoami
  }

  type Scratch = map<nat, seq<Ino>>

  /** What a delivered message does. A slave's answer, and the request that prompts it, leave callback_inolist as they
      say; a whole client request uses it as scratch space. */
  ghost predicate Handled(cfg: Config, at: Option<Proc>, m: Message, c: nat, s: Shared, cb: Scratch, s': Shared,
                          cb': Scratch, ret: bool)
    requires Booted(cfg) && Valid(s.tree)
  {
    at.Some? && var to := at.value;
    match m
    case ClientRequest(req) =>
      && IsServer(cfg, to) && Serviceable(s.tree, req) && c in s.clients
      && ret == Perform(cfg.pl, s.tree, Executor(cfg.pl, s.tree, cfg.whoami[to.id], req), req).ok
      && s' == Route(cfg.pl, cfg.capacity, s.(delivered := s.delivered + 1), c, cfg.whoami[to.id], req)
    case ClientRequestForward(_, req) =>
      && IsServer(cfg, to) && Serviceable(s.tree, req) && c in s.clients
      && ret == Perform(cfg.pl, s.tree, cfg.whoami[to.id], req).ok
      && s' == Serve(cfg.pl, cfg.capacity, s.(delivered := s.delivered + 1), c, cfg.whoami[to.id], req)
    case ClientRequestReply(reply) =>
      && c in s.clients && ret && cb' == cb
      && s' == s.(clients := s.clients[c := Absorb(s.clients[c], cfg.capacity, reply)], delivered := s.delivered + 1)
    case SlaveRequest(fullpath, op, i) =>
      && IsServer(cfg, to) && i in s.tree.nodes && ret && c in cb
      && SlaveDone(Slave(cfg.pl, s.tree, cfg.whoami[to.id], fullpath, op, i), c, s.(delivered := s.delivered + 1),
          cb, s', cb')
    case SlaveRequestReply(_, inodes) =>
      && c in cb && ret && cb' == cb[c := cb[c] + inodes] && s' == s.(delivered := s.delivered + 1)
  }

  ghost predicate SlaveDone(a: SlaveAnswer, c: nat, s: Shared, cb: Scratch, s': Shared, cb': Scratch)
    requires c in cb
  {
    match a
    case Silent => s' == s && cb' == cb
    case Answer(inodes, count) =>
      s' == s.(delivered := s.delivered + 1, work := s.work + [count]) && cb' == cb[c := cb[c] + inodes]
  }

  /** Lending the sender a port does not change who any message reaches. */
  lemma LendingIsInvisible(cfg: Config, lent: Lent, s: Shared, p: Proc, e: Entity, to: Entity, m: Message, c: nat)
    requires Booted(cfg) && Valid(s.tree) && Sendable(cfg, lent, s, p, to, m, c)
    requires e.port >= REV_BASE && (e in lent ==> lent[e] == p)
    ensures Sendable(cfg, lent[e := p], s, p, to, m, c)
    ensures At(cfg, lent, to).Some? && At(cfg, lent[e := p], to) == At(cfg, lent, to)
    ensures At(cfg, lent[e := p], e) == Some(p)
  {
    hide Booted, Valid, Sendable, Receiver;
    PortsApart(cfg, e);
    SendableReaches(cfg, lent, s, p, to, m, c);
    ReceiverLent(cfg.services, lent, p, e, to);
    if m.ClientRequestForward? {
      ReceiverLent(cfg.services, lent, p, e, m.src);
    }
    SendableLent(cfg, lent, lent[e := p], s, p, to, m, c);
  }

  lemma SendableReaches(cfg: Config, lent: Lent, s: Shared, p: Proc, to: Entity, m: Message, c: nat)
    requires Booted(cfg) && Valid(s.tree) && Sendable(cfg, lent, s, p, to, m, c)
    ensures At(cfg, lent, to).Some?
  {
    hide Booted, Valid, Dispatch, Serviceable, IsServer;
  }

  lemma SendableLent(cfg: Config, lent: Lent, lent': Lent, s: Shared, p: Proc, to: Entity, m: Message, c: nat)
    requires Booted(cfg) && Valid(s.tree) && Sendable(cfg, lent, s, p, to, m, c)
    requires At(cfg, lent, to).Some? ==> At(cfg, lent', to) == At(cfg, lent, to)
    requires m.ClientRequestForward? && At(cfg, lent, m.src).Some? ==> At(cfg, lent', m.src) == At(cfg, lent, m.src)
    ensures Sendable(cfg, lent', s, p, to, m, c)
  {
    hide Booted, Valid, Dispatch, Serviceable, IsServer, At;
  }

  /** After the master has asked the servers `asked` for their part of a directory. */
  function Asked(pl: Placer, s: Shared, req: Request, asked: seq<Rank>): Shared
    requires Valid(s.tree) && Usable(pl.lut) && !req.op.LOOKUP? && Serviceable(s.tree, req)
  {
    if Dispatch(pl, s.tree, req.fullpath) == -1 then s.(delivered := s.delivered + |asked|)
    else
      s.(delivered := s.delivered + 2 * |asked|,
         work := s.work + Counts(s.tree.nodes[req.inode.value].entries, KidRanks(pl, s.tree, req), asked))
  }

  /** What a LISTDIR has collected from them. */
  function Collected(pl: Placer, t: Tree, req: Request, asked: seq<Rank>): seq<Ino>
    requires Valid(t) && Usable(pl.lut) && !req.op.LOOKUP? && Serviceable(t, req)
  {
    if Dispatch(pl, t, req.fullpath) == -1 || !req.op.LISTDIR? then []
    else FromOthers(t.nodes[req.inode.value].entries, KidRanks(pl, t, req), asked)
  }

  lemma AskedOneMore(pl: Placer, s: Shared, req: Request, asked: seq<Rank>, r: Rank)
    requires Valid(s.tree) && Usable(pl.lut) && !req.op.LOOKUP? && Serviceable(s.tree, req)
    ensures Asked(pl, Asked(pl, s, req, asked), req, [r]) == Asked(pl, s, req, asked + [r])
    ensures Collected(pl, s.tree, req, asked + [r])
        == Collected(pl, s.tree, req, asked) + Collected(pl, s.tree, req, [r])
  {
    hide Valid, Dispatch, KidRanks, Counts, FromOthers;
    OneMoreServer(s.tree.nodes[req.inode.value].entries, KidRanks(pl, s.tree, req), asked, r);
  }

  lemma AskedNobody(pl: Placer, s: Shared, req: Request)
    requires Valid(s.tree) && Usable(pl.lut) && !req.op.LOOKUP? && Serviceable(s.tree, req)
    ensures Asked(pl, s, req, []) == s && Collected(pl, s.tree, req, []) == []
  {
    hide Valid, Dispatch, KidRanks;
  }

  lemma OthersActive(cfg: Config, t: Tree, me: Rank, req: Request)
    requires Booted(cfg) && Valid(t) && !req.op.LOOKUP? && Serviceable(t, req)
    ensures forall x | x in Others(KidRanks(cfg.pl, t, req), me) :: x in cfg.pl.active && x != me
  {
    hide Agreed, Dispatch;
    var ranks, kids := KidRanks(cfg.pl, t, req), t.nodes[req.inode.value].entries;
    ChildrenLive(t, req.inode.value);
    OthersExact(ranks, me);
    forall x | x in Others(ranks, me)
      ensures x in cfg.pl.active
    {
      var k :| 0 <= k < |ranks| && ranks[k] == x;
      DispatchRange(cfg.pl, t, req.fullpath + "/" + t.nodes[kids[k]].name);
    }
  }

  /** What a slave of rank r answers to the master of rank `me`, whose directory it is. */
  lemma SlaveOfMaster(pl: Placer, s: Shared, me: Rank, req: Request, r: Rank)
    requires Valid(s.tree) && Usable(pl.lut) && (req.op.LISTDIR? || req.op.RMDIR?) && Serviceable(s.tree, req)
    requires Dispatch(pl, s.tree, req.fullpath) == -1 || Dispatch(pl, s.tree, req.fullpath) == me
    requires r != me && r != -1
    ensures match Slave(pl, s.tree, r, req.fullpath, req.op, req.inode.value)
      case Silent => Asked(pl, s, req, [r]) == s.(delivered := s.delivered + 1) && Collected(pl, s.tree, req, [r]) == []
      case Answer(inodes, count) =>
        && Asked(pl, s, req, [r]) == s.(delivered := s.delivered + 2, work := s.work + [count])
        && Collected(pl, s.tree, req, [r]) == inodes && (req.op.RMDIR? ==> inodes == [])
  {
    hide Valid, Dispatch, Own, Counts, FromOthers;
    OneServer(s.tree.nodes[req.inode.value].entries, KidRanks(pl, s.tree, req), r);
  }

  /** At the owner of its path a request is executed without being forwarded. */
  lemma RouteAtOwner(pl: Placer, capacity: int, s: Shared, c: nat, me: Rank, req: Request)
    requires Valid(s.tree) && Usable(pl.lut) && Serviceable(s.tree, req) && capacity >= 1 && c in s.clients
    requires Dispatch(pl, s.tree, req.fullpath) == me || Dispatch(pl, s.tree, req.fullpath) == -1
    ensures Executor(pl, s.tree, me, req) == me
    ensures Route(pl, capacity, s, c, me, req) == Serve(pl, capacity, s, c, me, req)
  {
    hide Dispatch, Serve;
  }

  lemma PortsApart(cfg: Config, e: Entity)
    requires Booted(cfg) && e.port >= REV_BASE
    ensures e !in cfg.services
  {
    hide Ready, Agreed;
  }
}
