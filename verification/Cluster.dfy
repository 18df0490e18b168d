/** The running cluster: cluster/Host.cc, cluster/services/MDSService.cc and MONService.cc, and the message side of
    cluster/process/ClientProcess.cc. Handlers run while their caller's send is still active and re-enter
    send_message, so the fields of all processes are kept here, indexed by process. */
module Simulator {
  import opened Collections
  import opened Namespace
  import opened Topology
  import opened Lending
  import opened Placement
  import opened Gather
  import opened Protocol
  import L = LruSpec

  function Weight(m: Message): nat {
    match m
    case ClientRequest(_) => 9
    case ClientRequestForward(_, _) => 7
    case SlaveRequest(_, _, _) => 3
    case SlaveRequestReply(_, _) => 1
    case ClientRequestReply(_) => 1
  }

  class Cluster {
    const cfg: Config

    /** Reverse ports of all hosts. */
    var lent: Lent

    /** MDSService::callback_inolist of each server. */
    var callbackInolist: Scratch

    /** gfs, and the fields of each client. */
    var tree: Tree
    var clients: map<nat, ClientState>

    /** What has happened: entries counted by tick_random("memory", count), requests executed, messages delivered. */
    var work: seq<nat>
    var executed: seq<(Rank, Request)>
    var delivered: nat

    constructor (cfg: Config, clients: map<nat, ClientState>)
      ensures this.cfg == cfg && this.clients == clients && lent == map[] && tree == EMPTY
      ensures callbackInolist.Keys == cfg.whoami.Keys && work == [] && executed == [] && delivered == 0
    {
      this.cfg, this.clients := cfg, clients;
      lent, tree := map[], EMPTY;
      callbackInolist := map i | i in cfg.whoami :: [];
      work, executed, delivered := [], [], 0;
    }

    ghost predicate Running()
      reads this`lent, this`tree, this`callbackInolist
    {
      Booted(cfg) && cfg.capacity >= 1 && Usable(cfg.pl.lut) && Orderly(lent, cfg.hostOf) && Valid(tree)
          && cfg.whoami.Keys <= callbackInolist.Keys
    }

    function View(): Shared
      reads this`tree, this`clients, this`work, this`executed, this`delivered
    {
      Shared(tree, clients, work, executed, delivered)
    }

    /* ---------- Host::send_message ---------- */

    /** send_message: lend the sender a port, hand the message to whoever is at the target, take the port back.
        `done` are the processes that sent anything meanwhile; afterwards none of them holds a port. */
    method Send(p: Proc, target: Option<Entity>, m: Message, ghost c: nat) returns (ret: bool, ghost done: set<Proc>)
      requires Running() && (target.Some? ==> Sendable(cfg, lent, View(), p, target.value, m, c))
      modifies this
      ensures Running() && lent == Released(old(lent), done) && forall x | x in done :: x == p || x.Mds?
      ensures target == None ==> !ret && View() == old(View()) && callbackInolist == old(callbackInolist)
      ensures target.Some? ==> Handled(cfg, old(At(cfg, lent, target.value)), m, c, old(View()),
          old(callbackInolist), View(), callbackInolist, ret)
      decreases Weight(m), 3
    {
      hide Booted, Valid, Sendable, Handled, Released, Orderly;
      if target == None {
        ReleasedNone(lent);
        return false, {};
      }
      var e := Borrow(lent, cfg.hostOf, p);
      lent := lent[e := p];
      LendingIsInvisible(cfg, old(lent), View(), p, e, target.value, m, c);
      ret, done := Receive(p, e, target.value, m, c);
      SendLeaves(old(lent), cfg.hostOf, p, e, done);
      lent := lent - {e};
      done := done + {p};
    }

    /** Network::recv_message and the receivers' handle_message. */
    method Receive(ghost p: Proc, src: Entity, dst: Entity, m: Message, ghost c: nat)
      returns (ret: bool, ghost done: set<Proc>)
      requires Running() && Sendable(cfg, lent, View(), p, dst, m, c)
      requires At(cfg, lent, src) == Some(p)
      modifies this
      ensures Running() && lent == Released(old(lent), done) && forall x | x in done :: x.Mds?
      ensures Handled(cfg, old(At(cfg, lent, dst)), m, c, old(View()), old(callbackInolist), View(),
          callbackInolist, ret)
      decreases Weight(m), 2
    {
      hide Booted, Valid, Perform, Route, Serve, Slave, SlaveDone, Released, Orderly, Dispatch, Serviceable,
        Absorb, Executor;
      delivered := delivered + 1;
      var to := At(cfg, lent, dst);
      done := {};
      if m.ClientRequestForward? {
        RouteAtOwner(cfg.pl, cfg.capacity, View(), c, cfg.whoami[to.value.id], m.req);
      }
      match to
      case Some(Mds(i)) =>
        match m {
          case ClientRequest(req) => ret, done := HandleClientRequest(i, src, req, false, c);
          case ClientRequestForward(origin, req) => ret, done := HandleClientRequest(i, origin, req, true, c);
          case SlaveRequest(fullpath, op, ino) => ret, done := HandleSlaveRequest(i, src, fullpath, op, ino, c);
          case SlaveRequestReply(_, inodes) => ret := HandleSlaveRequestReply(i, inodes); ReleasedNone(lent);
          case _ => ret := false;
        }
      case Some(Client(k)) =>
        match m {
          case ClientRequestReply(reply) => ret := HandleClientRequestReply(k, reply); ReleasedNone(lent);
          case _ => ret := false;
        }
      case _ => ret := false;
    }

    method HandleSlaveRequestReply(i: nat, inodes: seq<Ino>) returns (ret: bool)
      requires i in callbackInolist
      modifies this`callbackInolist
      ensures ret && callbackInolist == old(callbackInolist)[i := old(callbackInolist)[i] + inodes]
    {
      callbackInolist := callbackInolist[i := callbackInolist[i] + inodes];
      return true;
    }

    /** send_request clears the client's callback fields before it sends. */
    method PrepareCallbacks(k: nat)
      requires k in clients
      modifies this`clients
      ensures clients == old(clients)[k := old(clients)[k].(callbackInoptr := None, callbackInolist := [])]
    {
      clients := clients[k := clients[k].(callbackInoptr := None, callbackInolist := [])];
    }

    /** cache.get of one client. */
    method CacheGet(k: nat, path: string) returns (r: Option<Ino>)
      requires k in clients
      modifies this`clients
      ensures clients == old(clients)[k := old(clients)[k].(cache := L.Get(old(clients)[k].cache, path).0)]
      ensures r == L.Get(old(clients)[k].cache, path).1
    {
      var (after, hit) := L.Get(clients[k].cache, path);
      clients := clients[k := clients[k].(cache := after)];
      r := hit;
    }

    method HandleClientRequestReply(k: nat, reply: Reply) returns (ret: bool)
      requires k in clients && cfg.capacity >= 1
      modifies this`clients
      ensures ret && clients == old(clients)[k := Absorb(old(clients)[k], cfg.capacity, reply)]
    {
      clients := clients[k := Absorb(clients[k], cfg.capacity, reply)];
      return true;
    }

    /* ---------- MDSService ---------- */

    /** Forward a request that another rank owns; execute it when it is this server's, or when nobody can tell. A
        forwarded request has reached its owner, so it is never forwarded again. */
    method HandleClientRequest(i: nat, src: Entity, req: Request, forwarded: bool, ghost c: nat)
      returns (ret: bool, ghost done: set<Proc>)
      requires Running() && IsServer(cfg, Mds(i)) && c in clients && Serviceable(tree, req)
      requires At(cfg, lent, src) == Some(Client(c))
      requires forwarded ==> Dispatch(cfg.pl, tree, req.fullpath) == cfg.whoami[i]
      modifies this
      ensures Running() && lent == Released(old(lent), done) && forall x | x in done :: x.Mds?
      ensures ret == Perform(cfg.pl, old(tree), Executor(cfg.pl, old(tree), cfg.whoami[i], req), req).ok
      ensures View() == Route(cfg.pl, cfg.capacity, old(View()), c, cfg.whoami[i], req)
      decreases if forwarded then 7 else 9, 1
    {
      hide Booted, Valid, Perform, Serve, Released, Orderly, Dispatch, Serviceable;
      var target := Dispatch(cfg.pl, tree, req.fullpath);
      if target != -1 && target != cfg.whoami[i] {
        InRange(cfg, tree, req.fullpath);
        ActiveServer(cfg, target);
        ret, done := Send(Mds(i), Pointer(cfg.mdsMap[i], target), ClientRequestForward(src, req), c);
        return;
      }
      ret, done := Execute(i, src, req, c);
    }

    /** The switch over the operation. */
    method Execute(i: nat, src: Entity, req: Request, ghost c: nat) returns (ret: bool, ghost done: set<Proc>)
      requires Running() && IsServer(cfg, Mds(i)) && c in clients && Serviceable(tree, req)
      requires At(cfg, lent, src) == Some(Client(c))
      requires Dispatch(cfg.pl, tree, req.fullpath) == -1 || Dispatch(cfg.pl, tree, req.fullpath) == cfg.whoami[i]
      modifies this
      ensures Running() && lent == Released(old(lent), done) && forall x | x in done :: x.Mds?
      ensures ret == Perform(cfg.pl, old(tree), cfg.whoami[i], req).ok
      ensures View() == Serve(cfg.pl, cfg.capacity, old(View()), c, cfg.whoami[i], req)
      decreases 6, 1
    {
      hide Booted, Valid, Perform, Serve, Released, Orderly, Dispatch, Serviceable;
      RecordedFirst(cfg, View(), c, cfg.whoami[i], req);
      executed := executed + [(cfg.whoami[i], req)];
      match req.op
      case LOOKUP => ret, done := HandleOpLookup(i, src, req, c);
      case CREATE => ret, done := HandleOpCreate(i, src, req, c);
      case READ => ret, done := HandleOpRead(i, src, req, c);
      case WRITE => ret, done := HandleOpWrite(i, src, req, c);
      case RM => ret, done := HandleOpRm(i, src, req, c);
      case MKDIR => ret, done := HandleOpMkdir(i, src, req, c);
      case RMDIR => ret, done := HandleOpRmdir(i, src, req, c);
      case LISTDIR => ret, done := HandleOpListdir(i, src, req, c);
    }

    method HandleOpLookup(i: nat, src: Entity, req: Request, ghost c: nat) returns (ret: bool, ghost done: set<Proc>)
      requires Running() && IsServer(cfg, Mds(i)) && c in clients && Serviceable(tree, req) && req.op.LOOKUP?
      requires At(cfg, lent, src) == Some(Client(c))
      modifies this
      ensures Running() && lent == Released(old(lent), done) && forall x | x in done :: x.Mds?
      ensures Finished(cfg, old(View()), c, cfg.whoami[i], req, View(), ret)
      decreases 5, 1
    {
      hide Booted, Valid, Released, Orderly, Absorb, Lookup, Mkdir, Mknod, Remove, Write;
      RootLive(tree);
      var ino := Lookup(tree, req.path);
      if ino == None {
        ReleasedNone(lent);
        return false, {};
      }
      ret, done := Send(Mds(i), Some(src), ClientRequestReply(Reply(cfg.whoami[i], req.fullpath, ino, "", [])), c);
    }

    method HandleOpCreate(i: nat, src: Entity, req: Request, ghost c: nat) returns (ret: bool, ghost done: set<Proc>)
      requires Running() && IsServer(cfg, Mds(i)) && c in clients && Serviceable(tree, req) && req.op.CREATE?
      requires At(cfg, lent, src) == Some(Client(c))
      modifies this
      ensures Running() && lent == Released(old(lent), done) && forall x | x in done :: x.Mds?
      ensures Finished(cfg, old(View()), c, cfg.whoami[i], req, View(), ret)
      decreases 5, 1
    {
      hide Booted, Valid, Released, Orderly, Absorb, Lookup, Mkdir, Mknod, Remove, Write;
      PerformKeepsTree(cfg.pl, tree, cfg.whoami[i], req);
      var (ino, after) := Mknod(tree, req.inode.value, req.path);
      tree := after;
      if ino == None {
        ReleasedNone(lent);
        return false, {};
      }
      ret, done := Send(Mds(i), Some(src), ClientRequestReply(Reply(cfg.whoami[i], req.fullpath, ino, "", [])), c);
    }

    method HandleOpRead(i: nat, src: Entity, req: Request, ghost c: nat) returns (ret: bool, ghost done: set<Proc>)
      requires Running() && IsServer(cfg, Mds(i)) && c in clients && Serviceable(tree, req) && req.op.READ?
      requires At(cfg, lent, src) == Some(Client(c))
      modifies this
      ensures Running() && lent == Released(old(lent), done) && forall x | x in done :: x.Mds?
      ensures Finished(cfg, old(View()), c, cfg.whoami[i], req, View(), ret)
      decreases 5, 1
    {
      hide Booted, Valid, Released, Orderly, Absorb, Lookup, Mkdir, Mknod, Remove, Write;
      ret, done := Send(Mds(i), Some(src),
        ClientRequestReply(Reply(cfg.whoami[i], req.fullpath, None, tree.nodes[req.inode.value].content, [])), c);
    }

    method HandleOpWrite(i: nat, src: Entity, req: Request, ghost c: nat) returns (ret: bool, ghost done: set<Proc>)
      requires Running() && IsServer(cfg, Mds(i)) && c in clients && Serviceable(tree, req) && req.op.WRITE?
      requires At(cfg, lent, src) == Some(Client(c))
      modifies this
      ensures Running() && lent == Released(old(lent), done) && forall x | x in done :: x.Mds?
      ensures Finished(cfg, old(View()), c, cfg.whoami[i], req, View(), ret)
      decreases 5, 1
    {
      hide Booted, Valid, Released, Orderly, Absorb, Lookup, Mkdir, Mknod, Remove, Write;
      PerformKeepsTree(cfg.pl, tree, cfg.whoami[i], req);
      tree := Write(tree, req.inode.value, req.data);
      ret, done := Send(Mds(i), Some(src), ClientRequestReply(Reply(cfg.whoami[i], req.fullpath, None, "", [])), c);
    }

    method HandleOpRm(i: nat, src: Entity, req: Request, ghost c: nat) returns (ret: bool, ghost done: set<Proc>)
      requires Running() && IsServer(cfg, Mds(i)) && c in clients && Serviceable(tree, req) && req.op.RM?
      requires At(cfg, lent, src) == Some(Client(c))
      modifies this
      ensures Running() && lent == Released(old(lent), done) && forall x | x in done :: x.Mds?
      ensures Finished(cfg, old(View()), c, cfg.whoami[i], req, View(), ret)
      decreases 5, 1
    {
      hide Booted, Valid, Released, Orderly, Absorb, Lookup, Mkdir, Mknod, Remove, Write;
      PerformKeepsTree(cfg.pl, tree, cfg.whoami[i], req);
      tree := Remove(tree, req.inode.value);
      ret, done := Send(Mds(i), Some(src), ClientRequestReply(Reply(cfg.whoami[i], req.fullpath, None, "", [])), c);
    }

    method HandleOpMkdir(i: nat, src: Entity, req: Request, ghost c: nat) returns (ret: bool, ghost done: set<Proc>)
      requires Running() && IsServer(cfg, Mds(i)) && c in clients && Serviceable(tree, req) && req.op.MKDIR?
      requires At(cfg, lent, src) == Some(Client(c))
      modifies this
      ensures Running() && lent == Released(old(lent), done) && forall x | x in done :: x.Mds?
      ensures Finished(cfg, old(View()), c, cfg.whoami[i], req, View(), ret)
      decreases 5, 1
    {
      hide Booted, Valid, Released, Orderly, Absorb, Lookup, Mkdir, Mknod, Remove, Write;
      PerformKeepsTree(cfg.pl, tree, cfg.whoami[i], req);
      var (ino, after) := Mkdir(tree, req.inode.value, req.path);
      tree := after;
      if ino == None {
        ReleasedNone(lent);
        return false, {};
      }
      ret, done := Send(Mds(i), Some(src), ClientRequestReply(Reply(cfg.whoami[i], req.fullpath, ino, "", [])), c);
    }

    method HandleOpListdir(i: nat, src: Entity, req: Request, ghost c: nat) returns (ret: bool, ghost done: set<Proc>)
      requires Running() && IsServer(cfg, Mds(i)) && c in clients && Serviceable(tree, req) && req.op.LISTDIR?
      requires At(cfg, lent, src) == Some(Client(c))
      requires Dispatch(cfg.pl, tree, req.fullpath) == -1 || Dispatch(cfg.pl, tree, req.fullpath) == cfg.whoami[i]
      modifies this
      ensures Running() && lent == Released(old(lent), done) && forall x | x in done :: x.Mds?
      ensures Finished(cfg, old(View()), c, cfg.whoami[i], req, View(), ret)
      decreases 5, 1
    {
      hide Booted, Valid, Released, Orderly, Absorb, Dispatch, FromOthers, Others, Own, Counts;
      var v := Listdir(tree, req.inode.value);
      if v == None {
        ReleasedNone(lent);
        return false, {};
      }
      ChildrenLive(tree, req.inode.value);
      var own, others := SplitChildren(req.fullpath, v.value, cfg.whoami[i]);
      work := work + [|own|];
      var ok, got, asked := AskOthers(i, req, others);
      AtReleased(cfg, old(lent), asked, src, Client(c));
      ghost var sent;
      ret, sent := Send(Mds(i), Some(src),
          ClientRequestReply(Reply(cfg.whoami[i], req.fullpath, None, "", own + got)), c);
      ReleasedTwice(old(lent), asked, sent);
      done := asked + sent;
    }

    method HandleOpRmdir(i: nat, src: Entity, req: Request, ghost c: nat) returns (ret: bool, ghost done: set<Proc>)
      requires Running() && IsServer(cfg, Mds(i)) && c in clients && Serviceable(tree, req) && req.op.RMDIR?
      requires At(cfg, lent, src) == Some(Client(c))
      requires Dispatch(cfg.pl, tree, req.fullpath) == -1 || Dispatch(cfg.pl, tree, req.fullpath) == cfg.whoami[i]
      modifies this
      ensures Running() && lent == Released(old(lent), done) && forall x | x in done :: x.Mds?
      ensures Finished(cfg, old(View()), c, cfg.whoami[i], req, View(), ret)
      decreases 5, 1
    {
      hide Booted, Valid, Released, Orderly, Absorb, Dispatch, FromOthers, Others, Own, Counts, Remove;
      var v := Listdir(tree, req.inode.value);
      if v == None {
        ReleasedNone(lent);
        return false, {};
      }
      ChildrenLive(tree, req.inode.value);
      var own, others := SplitChildren(req.fullpath, v.value, cfg.whoami[i]);
      var ok, _, asked := AskOthers(i, req, others);
      AtReleased(cfg, old(lent), asked, src, Client(c));
      work := work + [|own|];
      PerformKeepsTree(cfg.pl, tree, cfg.whoami[i], req);
      tree := Remove(tree, req.inode.value);
      ghost var sent;
      ret, sent := Send(Mds(i), Some(src), ClientRequestReply(Reply(cfg.whoami[i], req.fullpath, None, "", [])), c);
      ReleasedTwice(old(lent), asked, sent);
      done := asked + sent;
    }

    /** The loop that keeps the children this server answers for and notes the other owners. */
    method SplitChildren(fullpath: string, v: seq<Ino>, me: Rank) returns (own: seq<Ino>, others: seq<Rank>)
      requires Valid(tree) && Usable(cfg.pl.lut) && forall k | k in v :: k in tree.nodes
      ensures own == Own(v, ChildRanks(cfg.pl, tree, fullpath, v), me)
      ensures others == Others(ChildRanks(cfg.pl, tree, fullpath, v), me)
    {
      hide Valid, Dispatch, Usable;
      ghost var ranks := ChildRanks(cfg.pl, tree, fullpath, v);
      own, others := [], [];
      var n := 0;
      while n < |v|
        invariant 0 <= n <= |v|
        invariant own == Own(v[..n], ranks[..n], me)
        invariant others == Others(ranks[..n], me)
      {
        var rank := Dispatch(cfg.pl, tree, fullpath + "/" + tree.nodes[v[n]].name);
        assert v[..n + 1][..n] == v[..n] && ranks[..n + 1][..n] == ranks[..n];
        if rank == me || rank == -1 {
          own := own + [v[n]];
        } else if rank !in others {
          others := others + [rank];
        }
        n := n + 1;
      }
      assert v[..n] == v && ranks[..n] == ranks;
    }

    /** The loop that sends the slave requests; for LISTDIR callback_inolist is cleared before each and added up
        after. */
    method AskOthers(i: nat, req: Request, others: seq<Rank>) returns (ok: bool, got: seq<Ino>, ghost done: set<Proc>)
      requires Running() && IsServer(cfg, Mds(i)) && Serviceable(tree, req)
      requires (req.op.LISTDIR? || req.op.RMDIR?) && tree.nodes[req.inode.value].isDir
      requires Dispatch(cfg.pl, tree, req.fullpath) == -1 || Dispatch(cfg.pl, tree, req.fullpath) == cfg.whoami[i]
      requires others == Others(KidRanks(cfg.pl, tree, req), cfg.whoami[i])
      modifies this
      ensures Running() && lent == Released(old(lent), done) && forall x | x in done :: x.Mds?
      ensures ok && got == Collected(cfg.pl, old(tree), req, others)
      ensures View() == Asked(cfg.pl, old(View()), req, others)
      decreases 5, 0
    {
      hide Booted, Valid, Released, Orderly, Dispatch, Others, Asked, Collected, KidRanks;
      OthersActive(cfg, tree, cfg.whoami[i], req);
      AskedNobody(cfg.pl, View(), req);
      ReleasedNone(lent);
      got, done := [], {};
      var n := 0;
      while n < |others|
        invariant 0 <= n <= |others|
        invariant Running() && lent == Released(old(lent), done) && forall x | x in done :: x.Mds?
        invariant tree == old(tree) && got == Collected(cfg.pl, tree, req, others[..n])
        invariant View() == Asked(cfg.pl, old(View()), req, others[..n])
      {
        ghost var d;
        var part;
        ok, part, d := AskOne(i, req, others[n]);
        if !ok { return; }
        AskedOneMore(cfg.pl, old(View()), req, others[..n], others[n]);
        assert others[..n + 1] == others[..n] + [others[n]];
        ReleasedTwice(old(lent), done, d);
        got, done := got + part, done + d;
        n := n + 1;
      }
      assert others[..n] == others;
      ok := true;
    }

    method AskOne(i: nat, req: Request, r: Rank) returns (ok: bool, got: seq<Ino>, ghost done: set<Proc>)
      requires Running() && IsServer(cfg, Mds(i)) && Serviceable(tree, req)
      requires (req.op.LISTDIR? || req.op.RMDIR?) && tree.nodes[req.inode.value].isDir
      requires Dispatch(cfg.pl, tree, req.fullpath) == -1 || Dispatch(cfg.pl, tree, req.fullpath) == cfg.whoami[i]
      requires r in cfg.pl.active && r != cfg.whoami[i]
      modifies this
      ensures Running() && lent == Released(old(lent), done) && forall x | x in done :: x.Mds?
      ensures ok && tree == old(tree) && got == Collected(cfg.pl, tree, req, [r])
      ensures View() == Asked(cfg.pl, old(View()), req, [r])
      decreases 4, 1
    {
      hide Booted, Valid, Released, Orderly, Dispatch, Asked, Collected, Slave;
      ActiveServer(cfg, r);
      SlaveOfMaster(cfg.pl, View(), cfg.whoami[i], req, r);
      if req.op.LISTDIR? {
        callbackInolist := callbackInolist[i := []];
      }
      assert forall x: seq<Ino> :: [] + x == x;
      ok, done := Send(Mds(i), Pointer(cfg.mdsMap[i], r), SlaveRequest(req.fullpath, req.op, req.inode.value), i);
      if !ok { return false, [], done; }
      got := if req.op.LISTDIR? then callbackInolist[i] else [];
    }

    method HandleSlaveRequest(i: nat, src: Entity, fullpath: string, op: Op, ino: Ino, ghost c: nat)
      returns (ret: bool, ghost done: set<Proc>)
      requires Running() && IsServer(cfg, Mds(i)) && i != c && c in cfg.whoami
      requires At(cfg, lent, src) == Some(Mds(c))
      requires ino in tree.nodes
      modifies this
      ensures Running() && lent == Released(old(lent), done) && forall x | x in done :: x.Mds?
      ensures !((op.RMDIR? || op.LISTDIR?) && old(tree).nodes[ino].isDir) ==>
        && View() == old(View()) && callbackInolist == old(callbackInolist)
        && ret == (Dispatch(cfg.pl, old(tree), fullpath) in {-1, cfg.whoami[i]})
      ensures (op.RMDIR? || op.LISTDIR?) && old(tree).nodes[ino].isDir ==>
          ret && SlaveDone(Slave(cfg.pl, old(tree), cfg.whoami[i], fullpath, op, ino), c, old(View()),
              old(callbackInolist), View(), callbackInolist)
      decreases 3, 1
    {
      hide Booted, Valid, Released, Orderly, Dispatch;
      var target := Dispatch(cfg.pl, tree, fullpath);
      if target == -1 || target == cfg.whoami[i] {
        ReleasedNone(lent);
        return true, {};
      }
      ReleasedNone(lent);
      if !op.RMDIR? && !op.LISTDIR? { return false, {}; }
      var v := Listdir(tree, ino);
      if v == None { return false, {}; }
      ChildrenLive(tree, ino);
      var own := OwnChildren(fullpath, v.value, cfg.whoami[i]);
      work := work + [|own|];
      ret, done := Send(Mds(i), Some(src), SlaveRequestReply(fullpath, if op.LISTDIR? then own else []), c);
    }

    /** The loop of handle_slave_op_listdir and handle_slave_op_rmdir. */
    method OwnChildren(fullpath: string, v: seq<Ino>, me: Rank) returns (own: seq<Ino>)
      requires Valid(tree) && Usable(cfg.pl.lut) && forall k | k in v :: k in tree.nodes
      ensures own == Own(v, ChildRanks(cfg.pl, tree, fullpath, v), me)
    {
      hide Valid, Dispatch, Usable;
      ghost var ranks := ChildRanks(cfg.pl, tree, fullpath, v);
      own := [];
      var n := 0;
      while n < |v|
        invariant 0 <= n <= |v|
        invariant own == Own(v[..n], ranks[..n], me)
      {
        var rank := Dispatch(cfg.pl, tree, fullpath + "/" + tree.nodes[v[n]].name);
        if rank == me || rank == -1 {
          own := own + [v[n]];
        }
        assert v[..n + 1][..n] == v[..n] && ranks[..n + 1][..n] == ranks[..n];
        n := n + 1;
      }
      assert v[..n] == v && ranks[..n] == ranks;
    }
  }

  /** operator[] on a map of pointers: NULL for an absent key. */
  function Pointer(m: map<Rank, Entity>, r: Rank): Option<Entity> {
    if r in m then Some(m[r]) else None
  }

  lemma AtReleased(cfg: Config, lent: Lent, done: set<Proc>, e: Entity, p: Proc)
    requires At(cfg, lent, e) == Some(p) && p !in done
    ensures At(cfg, Released(lent, done), e) == Some(p)
  {
  }

  lemma InRange(cfg: Config, t: Tree, path: string)
    requires Booted(cfg) && Valid(t)
    ensures var r := Dispatch(cfg.pl, t, path); r == -1 || r in cfg.pl.active
  {
    hide Ready, Valid, Dispatch, Agreed;
    DispatchRange(cfg.pl, t, path);
  }
}
