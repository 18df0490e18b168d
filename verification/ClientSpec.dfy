/** What a client knows and why it stays right: its cache against the tree, and its learned routes against the
    dispatcher. */
module ClientSpec {
  import opened Collections
  import opened Paths
  import opened Namespace
  import opened Topology
  import opened Placement
  import opened Protocol
  import opened Routes
  import opened CacheReads
  import opened Coherence
  import L = LruSpec

  /** What a client needs to send requests, whatever the tree. */
  ghost predicate ClientOk(cfg: Config, cs: ClientState) {
    && cs.mdsmap == cfg.pl.active
    && 0 in cfg.pl.active && cs.rootMds == Some(cfg.pl.active[0])
    && (forall k | k in cs.routetable :: cs.routetable[k] in cfg.pl.active)
    && L.Fits(cfg.capacity, cs.cache)
  }

  /** Only the root has a name that is not a path component. */
  ghost predicate NamesValid(t: Tree) {
    forall i | i in t.nodes && i != ROOT :: ValidName(t.nodes[i].name)
  }

  ghost predicate AllOk(cfg: Config, s: Shared) {
    NamesValid(s.tree) && forall c | c in s.clients :: ClientOk(cfg, s.clients[c])
  }

  /** No client can read anything from its cache that is not so. When the cache is off nobody reads it. */
  ghost predicate AllRight(cfg: Config, s: Shared)
    requires Valid(s.tree)
  {
    cfg.cacheEnabled ==> forall c | c in s.clients :: Coherent(s.tree, cfg.capacity, s.clients[c].cache)
  }

  /** What the client puts into a request: a lookup names one path twice; a creation names the last component of its
      path and the inode of the rest. */
  ghost predicate Proper(t: Tree, req: Request, cs: seq<string>)
    requires Valid(t)
  {
    && (req.op.LOOKUP? ==> req.path == req.fullpath)
    && (req.op.CREATE? || req.op.MKDIR? ==> Creates(t, req, cs))
  }

  ghost predicate Creates(t: Tree, req: Request, cs: seq<string>)
    requires Valid(t)
  {
    && Spells(req.fullpath, cs) && cs != [] && req.path == cs[|cs| - 1]
    && req.inode.Some? && Walk(t, ROOT, cs[..|cs| - 1]) == req.inode
  }

  predicate Removes(op: Op) {
    op.RM? || op.RMDIR?
  }

  /** Requests for the path cs after which no cache is wrong: below the depth that can be read from a cache anything
      goes; above it nothing may be removed, and mknod must be for a new name, as the server does not look for an
      old. */
  ghost predicate KeepsCaches(capacity: int, t: Tree, req: Request, cs: seq<string>)
    requires Valid(t)
  {
    match req.op
    case CREATE => Walk(t, ROOT, cs) == None || |cs| >= capacity
    case RM => Walk(t, ROOT, cs) == req.inode && (cs == [] || |cs| >= capacity)
    case RMDIR => Walk(t, ROOT, cs) == req.inode && (cs == [] || |cs| >= capacity || NotADir(t, req.inode))
    case _ => true
  }

  ghost predicate NotADir(t: Tree, i: Option<Ino>) {
    i.Some? && i.value in t.nodes && !t.nodes[i.value].isDir
  }

  /** Whatever inode a successful reply carries, the tree now has it at the reply's path, unless it is a second one of
      its name. */
  lemma ReplyIsTrue(pl: Placer, t: Tree, me: Rank, req: Request, cs: seq<string>)
    requires Valid(t) && Usable(pl.lut) && Serviceable(t, req) && Proper(t, req, cs)
    ensures var o := Perform(pl, t, me, req);
      && Valid(o.tree) && (!Removes(req.op) ==> Grows(t, o.tree))
      && (o.ok && o.reply.inode.Some? && (req.op.CREATE? ==> Walk(t, ROOT, cs) == None) ==>
            Lookup(o.tree, req.fullpath) == o.reply.inode)
  {
    hide Valid, Usable, Serviceable, Grows, Creates;
    PerformKeepsTree(pl, t, me, req);
    if req.op.CREATE? || req.op.MKDIR? {
      CreationIsTrue(pl, t, me, req, cs);
    } else {
      hide Remove, OwnWork, PeerWork, PeerMessages, Lookup, Write;
    }
  }

  lemma CreationIsTrue(pl: Placer, t: Tree, me: Rank, req: Request, cs: seq<string>)
    requires Valid(t) && Usable(pl.lut) && Serviceable(t, req)
    requires (req.op.CREATE? || req.op.MKDIR?) && Creates(t, req, cs)
    ensures var o := Perform(pl, t, me, req);
      && Valid(o.tree)
      && (o.ok && (req.op.CREATE? ==> Walk(t, ROOT, cs) == None) ==> Lookup(o.tree, req.fullpath) == o.reply.inode)
  {
    hide Perform, Usable, AddSub, Step, Grows, Walk;
    CreationMade(pl, t, me, req);
    CreatedAt(t, cs, req.op.MKDIR?);
    SpellsComponents(req.fullpath, cs);
    PerformKeepsTree(pl, t, me, req);
    LookupIsWalk(Perform(pl, t, me, req).tree, req.fullpath);
  }

  lemma CreationMade(pl: Placer, t: Tree, me: Rank, req: Request)
    requires Valid(t) && Usable(pl.lut) && Serviceable(t, req) && (req.op.CREATE? || req.op.MKDIR?)
    ensures var o := Perform(pl, t, me, req);
      o.ok ==>
        && o.tree == AddSub(t, req.inode.value, req.path, req.op.MKDIR?) && o.reply.inode == Some(t.next)
        && (req.op.MKDIR? ==> Step(t, req.inode.value, req.path) == None)
  {
    hide Valid, Usable, AddSub, Step;
  }

  /** Absorbing a reply of an active server leaves the client able to send, with the server as the path's route. */
  lemma AbsorbOk(cfg: Config, cs: ClientState, r: Reply)
    requires ClientOk(cfg, cs) && cfg.capacity >= 1 && r.fromwho in cfg.pl.active
    ensures ClientOk(cfg, Absorb(cs, cfg.capacity, r))
    ensures Absorb(cs, cfg.capacity, r).routetable == cs.routetable[r.fullpath := r.fromwho]
  {
    hide L.Get, L.Set;
    if r.inode.Some? {
      L.SetFacts(cfg.capacity, cs.cache, r.fullpath, r.inode.value, r.fullpath);
    } else {
      L.GetFacts(cfg.capacity, cs.cache, r.fullpath, r.fullpath);
    }
  }

  /** And a cache that was right stays so, if the reply's inode is at its path or the path cannot be read from a
      cache. */
  lemma AbsorbRight(cfg: Config, t: Tree, cs: ClientState, r: Reply)
    requires Valid(t) && ClientOk(cfg, cs) && cfg.capacity >= 1 && Coherent(t, cfg.capacity, cs.cache)
    requires r.inode.Some? && Shallow(cfg.capacity, r.fullpath) ==> Lookup(t, r.fullpath) == r.inode
    ensures Coherent(t, cfg.capacity, Absorb(cs, cfg.capacity, r).cache)
  {
    hide Valid, Coherent, Shallow, Lookup, L.Get, L.Set;
    RootLive(t);
    if r.inode.Some? {
      CoherentSet(t, cfg.capacity, cs.cache, r.fullpath, r.inode.value);
    } else {
      CoherentGet(t, cfg.capacity, cs.cache, r.fullpath);
    }
  }

  lemma NamesStayValid(pl: Placer, t: Tree, me: Rank, req: Request, cs: seq<string>)
    requires Valid(t) && Usable(pl.lut) && Serviceable(t, req) && Proper(t, req, cs) && NamesValid(t)
    ensures NamesValid(Perform(pl, t, me, req).tree)
  {
    hide Valid, Usable, Listdir, Lookup, Cleared, Without;
    if req.op.CREATE? || req.op.MKDIR? {
      assert cs[|cs| - 1] in cs;
    }
  }

  /** Serving any request leaves every client able to send. */
  lemma ServeKeepsAll(cfg: Config, s: Shared, c: nat, me: Rank, req: Request, cs: seq<string>)
    requires Valid(s.tree) && Usable(cfg.pl.lut) && Serviceable(s.tree, req) && cfg.capacity >= 1 && c in s.clients
    requires Proper(s.tree, req, cs) && AllOk(cfg, s) && me in cfg.pl.active
    ensures var s' := Serve(cfg.pl, cfg.capacity, s, c, me, req);
      Valid(s'.tree) && (!Removes(req.op) ==> Grows(s.tree, s'.tree)) && AllOk(cfg, s')
  {
    hide Valid, Grows, Perform, ClientOk, Absorb, Proper, NamesValid;
    var o := Perform(cfg.pl, s.tree, me, req);
    ReplyIsTrue(cfg.pl, s.tree, me, req, cs);
    ReplyFrom(cfg.pl, s.tree, me, req);
    NamesStayValid(cfg.pl, s.tree, me, req, cs);
    if o.ok {
      AbsorbOk(cfg, s.clients[c], o.reply);
    }
  }

  /** What a request that keeps caches does to one of them through the tree. */
  lemma PerformKeepsRight(cfg: Config, t: Tree, me: Rank, req: Request, cs: seq<string>, cache: Cache)
    requires Valid(t) && Usable(cfg.pl.lut) && Serviceable(t, req) && Proper(t, req, cs)
    requires KeepsCaches(cfg.capacity, t, req, cs) && Coherent(t, cfg.capacity, cache)
    ensures var u := Perform(cfg.pl, t, me, req).tree; Valid(u) && Coherent(u, cfg.capacity, cache)
  {
    ReplyIsTrue(cfg.pl, t, me, req, cs);
    var u := Perform(cfg.pl, t, me, req).tree;
    RemovedTree(cfg.pl, t, me, req);
    hide Valid, Grows, Perform, Coherent, Proper, Remove, Walk, Usable;
    if !Removes(req.op) {
      CoherentStable(t, u, cfg.capacity, cache);
    } else if u != t && cs != [] {
      DeepRemoval(t, cfg.capacity, cache, cs);
    } else if cs == [] {
      RootStays(t, req.inode.value, cs);
    }
  }

  lemma RemovedTree(pl: Placer, t: Tree, me: Rank, req: Request)
    requires Valid(t) && Usable(pl.lut) && Serviceable(t, req)
    ensures ROOT in t.nodes
    ensures Removes(req.op) ==>
      Perform(pl, t, me, req).tree == if req.op.RMDIR? && NotADir(t, req.inode) then t else Remove(t, req.inode.value)
  {
    hide Valid, Usable, Remove, Lookup;
    RootLive(t);
  }

  lemma RootStays(t: Tree, i: Ino, cs: seq<string>)
    requires Valid(t) && ROOT in t.nodes && cs == [] && Walk(t, ROOT, cs) == Some(i)
    ensures Remove(t, i) == t
  {
  }

  /** Serving a request that keeps caches makes no client's cache wrong, not only the asking client's. */
  lemma ServeKeepsRight(cfg: Config, s: Shared, c: nat, me: Rank, req: Request, cs: seq<string>)
    requires Valid(s.tree) && Usable(cfg.pl.lut) && Serviceable(s.tree, req) && cfg.capacity >= 1 && c in s.clients
    requires Proper(s.tree, req, cs) && AllOk(cfg, s) && AllRight(cfg, s) && KeepsCaches(cfg.capacity, s.tree, req, cs)
    ensures var s' := Serve(cfg.pl, cfg.capacity, s, c, me, req); Valid(s'.tree) && AllRight(cfg, s')
  {
    ReplyIsTrue(cfg.pl, s.tree, me, req, cs);
    ReplyFrom(cfg.pl, s.tree, me, req);
    DeepCreation(cfg.capacity, s.tree, req, cs);
    hide Valid, Grows, Perform, ClientOk, Absorb, Proper, NamesValid, Coherent, Shallow, Walk, Lookup;
    var o := Perform(cfg.pl, s.tree, me, req);
    var s' := Serve(cfg.pl, cfg.capacity, s, c, me, req);
    if cfg.cacheEnabled {
      forall k | k in s'.clients
        ensures Coherent(s'.tree, cfg.capacity, s'.clients[k].cache)
      {
        PerformKeepsRight(cfg, s.tree, me, req, cs, s.clients[k].cache);
        if k == c && o.ok {
          AbsorbRight(cfg, o.tree, s.clients[c], o.reply);
        }
      }
    }
  }

  lemma DeepCreation(capacity: int, t: Tree, req: Request, cs: seq<string>)
    requires Valid(t) && Proper(t, req, cs)
    ensures req.op.CREATE? && |cs| >= capacity ==> !Shallow(capacity, req.fullpath)
  {
    if req.op.CREATE? {
      SpellsComponents(req.fullpath, cs);
      ComponentsBound(req.fullpath);
    }
  }

  /** A reply names the request's path and the server that executed it. */
  lemma ReplyFrom(pl: Placer, t: Tree, me: Rank, req: Request)
    requires Valid(t) && Usable(pl.lut) && Serviceable(t, req)
    ensures Perform(pl, t, me, req).reply.fromwho == me && Perform(pl, t, me, req).reply.fullpath == req.fullpath
  {
    hide Valid, Usable;
  }

  /* ---------- Learned routes ---------- */

  lemma HybridStable(t: Tree, u: Tree, pl: Placer, path: string, cs: seq<string>)
    requires Valid(t) && Valid(u) && Grows(t, u) && Usable(pl.lut) && Spells(path, cs) && Walk(t, ROOT, cs).Some?
    ensures HybridRank(u, pl.lut, pl.hash, path) == HybridRank(t, pl.lut, pl.hash, path)
  {
    HybridMeaning(t, pl.lut, pl.hash, path, cs);
    HybridMeaning(u, pl.lut, pl.hash, path, cs);
    if cs != [] {
      PrefixExists(t, cs, 0);
      assert cs[..0] == [];
      ChildIndexStable(t, u, [], cs[0]);
    }
  }

  /** Under every strategy the owner of an existing canonical path is unchanged by any run of mknod, mkdir and write.
      */
  lemma DispatchStable(t: Tree, u: Tree, pl: Placer, path: string, cs: seq<string>)
    requires Valid(t) && Valid(u) && Grows(t, u) && Usable(pl.lut) && Spells(path, cs) && Walk(t, ROOT, cs).Some?
    ensures Dispatch(pl, u, path) == Dispatch(pl, t, path)
  {
    match pl.strategy
    case Subtree => SubtreeStable(t, u, pl.lut, path, cs);
    case Hashing =>
    case Hybrid => HybridStable(t, u, pl, path, cs);
  }

  /** Client k has learned a route for the existing path cs, and it leads straight to the owner. */
  ghost predicate Exact(cfg: Config, s: Shared, k: nat, cs: seq<string>)
    requires Valid(s.tree) && Usable(cfg.pl.lut)
  {
    && k in s.clients && ValidNames(cs) && Walk(s.tree, ROOT, cs).Some?
    && Join(cs) in s.clients[k].routetable
    && s.clients[k].routetable[Join(cs)] == Dispatch(cfg.pl, s.tree, Join(cs))
  }

  /** A request for an existing path is executed by the path's owner. */
  lemma ExecutorOwns(cfg: Config, t: Tree, first: Rank, req: Request, cs: seq<string>)
    requires Ready(cfg.pl) && Valid(t) && ValidNames(cs) && req.fullpath == Join(cs) && Walk(t, ROOT, cs).Some?
    ensures Executor(cfg.pl, t, first, req) == Dispatch(cfg.pl, t, req.fullpath)
    ensures Dispatch(cfg.pl, t, req.fullpath) in cfg.pl.active
  {
    DispatchExisting(cfg.pl, t, Join(cs), cs);
  }

  /** Learned routes stay exact whatever honest request whichever client makes next. */
  lemma ServeKeepsExact(cfg: Config, s: Shared, c: nat, first: Rank, req: Request, made: seq<string>, k: nat,
                        cs: seq<string>)
    requires Ready(cfg.pl) && Usable(cfg.pl.lut) && Valid(s.tree) && Serviceable(s.tree, req) && cfg.capacity >= 1
    requires c in s.clients
    requires Proper(s.tree, req, made) && !Removes(req.op) && Exact(cfg, s, k, cs)
    ensures var s' := Serve(cfg.pl, cfg.capacity, s, c, Executor(cfg.pl, s.tree, first, req), req);
      Valid(s'.tree) && Exact(cfg, s', k, cs)
  {
    hide Valid, Usable, Dispatch, Perform, Executor, Proper, Ready, Grows, Join;
    var me := Executor(cfg.pl, s.tree, first, req);
    ReplyIsTrue(cfg.pl, s.tree, me, req, made);
    ReplyFrom(cfg.pl, s.tree, me, req);
    var u := Perform(cfg.pl, s.tree, me, req).tree;
    DispatchStable(s.tree, u, cfg.pl, Join(cs), cs);
    RootLive(s.tree);
    WalkStable(s.tree, u, ROOT, cs);
    if req.fullpath == Join(cs) {
      ExecutorOwns(cfg, s.tree, first, req, cs);
    }
  }

  /** A reply about an existing path teaches the client its owner. */
  lemma ReplyTeaches(cfg: Config, s: Shared, c: nat, first: Rank, req: Request, made: seq<string>, cs: seq<string>)
    requires Ready(cfg.pl) && Usable(cfg.pl.lut) && Valid(s.tree) && Serviceable(s.tree, req) && cfg.capacity >= 1
    requires c in s.clients
    requires Proper(s.tree, req, made) && !Removes(req.op) && ValidNames(cs) && Walk(s.tree, ROOT, cs).Some?
    requires req.fullpath == Join(cs)
    requires Perform(cfg.pl, s.tree, Executor(cfg.pl, s.tree, first, req), req).ok
    ensures var s' := Serve(cfg.pl, cfg.capacity, s, c, Executor(cfg.pl, s.tree, first, req), req);
      Valid(s'.tree) && Exact(cfg, s', c, cs)
  {
    hide Valid, Usable, Dispatch, Perform, Executor, Proper, Ready, Grows, Join;
    var me := Executor(cfg.pl, s.tree, first, req);
    ReplyIsTrue(cfg.pl, s.tree, me, req, made);
    ReplyFrom(cfg.pl, s.tree, me, req);
    var u := Perform(cfg.pl, s.tree, me, req).tree;
    DispatchStable(s.tree, u, cfg.pl, Join(cs), cs);
    RootLive(s.tree);
    WalkStable(s.tree, u, ROOT, cs);
    ExecutorOwns(cfg, s.tree, first, req, cs);
  }

  ghost predicate KeepsRoutes(cfg: Config, s: Shared, s': Shared)
    requires Valid(s.tree) && Valid(s'.tree) && Usable(cfg.pl.lut)
  {
    forall k: nat, cs: seq<string> :: Exact(cfg, s, k, cs) ==> Exact(cfg, s', k, cs)
  }

  /** `path` is the canonical spelling of the existing path cs. */
  ghost predicate Existing(t: Tree, path: string, cs: seq<string>)
    requires Valid(t)
  {
    ValidNames(cs) && path == Join(cs) && Walk(t, ROOT, cs).Some?
  }

  /** The first server asked about an existing path is already its owner: always when the client dispatches by itself,
      and under subtree once it has learned the route. */
  ghost predicate GoesStraight(cfg: Config, s: Shared, c: nat, first: Rank, fullpath: string)
    requires Valid(s.tree) && Usable(cfg.pl.lut)
  {
    forall cs: seq<string> | Existing(s.tree, fullpath, cs) ::
      !cfg.pl.strategy.Subtree? || Exact(cfg, s, c, cs) ==> first == Dispatch(cfg.pl, s.tree, fullpath)
  }

  /** What the client knows about the path: under subtree the rank of the longest cut of it that it has learned, else
      its own dispatcher's answer; -1 for nothing. */
  ghost predicate Chosen(cfg: Config, s: Shared, c: nat, fullpath: string, target: Rank)
    requires Valid(s.tree) && Usable(cfg.pl.lut) && c in s.clients && fullpath != ""
  {
    if cfg.pl.strategy.Subtree? then LongestPrefix(s.clients[c].routetable, Normal(fullpath), target)
    else target == Dispatch(cfg.pl, s.tree, Normal(fullpath))
  }

  /** And that is where its request goes, or to rank 0 when it knows nothing. */
  ghost predicate RoutedTo(cfg: Config, s: Shared, c: nat, fullpath: string, first: Rank)
    requires Valid(s.tree) && Usable(cfg.pl.lut) && c in s.clients && fullpath != ""
  {
    exists target :: Chosen(cfg, s, c, fullpath, target) && first == if target == -1 then 0 else target
  }

  ghost predicate Learned(cfg: Config, s: Shared, c: nat, fullpath: string, s': Shared)
    requires Valid(s.tree) && Valid(s'.tree) && Usable(cfg.pl.lut)
  {
    forall cs: seq<string> | Existing(s.tree, fullpath, cs) :: Exact(cfg, s', c, cs)
  }

  /** send_request clears what the last reply left behind. */
  function Prepared(s: Shared, c: nat): Shared
    requires c in s.clients
  {
    s.(clients := s.clients[c := s.clients[c].(callbackInoptr := None, callbackInolist := [])])
  }

  lemma PreparedOk(cfg: Config, s: Shared, c: nat)
    requires Valid(s.tree) && Usable(cfg.pl.lut) && c in s.clients
    ensures AllOk(cfg, s) ==> AllOk(cfg, Prepared(s, c))
    ensures AllRight(cfg, s) ==> AllRight(cfg, Prepared(s, c))
    ensures KeepsRoutes(cfg, s, Prepared(s, c))
  {
    hide Valid, Usable, Coherent, Dispatch, Join, NamesValid;
    assert AllOk(cfg, s) ==> ClientOk(cfg, s.clients[c]);
  }

  lemma DeliveredIrrelevant(cfg: Config, s: Shared, d: nat)
    requires Valid(s.tree) && Usable(cfg.pl.lut)
    ensures AllOk(cfg, s) ==> AllOk(cfg, s.(delivered := d))
    ensures AllRight(cfg, s) ==> AllRight(cfg, s.(delivered := d))
    ensures KeepsRoutes(cfg, s, s.(delivered := d))
  {
    hide Valid, Usable, ClientOk, Coherent, Dispatch, Join, NamesValid;
  }

  /** What every client operation keeps, whichever client makes it: the tree only grows, the clients stay connected,
      and learned routes stay exact. */
  ghost predicate Kept(cfg: Config, s: Shared, s': Shared)
    requires Valid(s.tree) && Valid(s'.tree) && Usable(cfg.pl.lut)
  {
    Grows(s.tree, s'.tree) && s'.clients.Keys == s.clients.Keys && KeepsRoutes(cfg, s, s')
  }

  lemma KeptReflexive(cfg: Config, s: Shared)
    requires Valid(s.tree) && Usable(cfg.pl.lut)
    ensures Kept(cfg, s, s)
  {
    hide Valid, Usable, Exact;
  }

  lemma KeptTransitive(cfg: Config, s: Shared, u: Shared, v: Shared)
    requires Valid(s.tree) && Valid(u.tree) && Valid(v.tree) && Usable(cfg.pl.lut)
    requires Kept(cfg, s, u) && Kept(cfg, u, v)
    ensures Kept(cfg, s, v)
  {
    hide Valid, Usable, KeepsRoutes, Grows;
    GrowsTransitive(s.tree, u.tree, v.tree);
    KeepsRoutesTransitive(cfg, s, u, v);
  }

  lemma BootedReady(cfg: Config)
    requires Booted(cfg)
    ensures Ready(cfg.pl) && Usable(cfg.pl.lut) && cfg.capacity >= 1 && 0 in cfg.pl.active
  {
    hide Agreed, LutOf;
    IntervalSize(0, |cfg.pl.active|);
    assert |cfg.pl.active.Keys| == |cfg.pl.active|;
    assert |cfg.pl.active| > 0;
    assert 0 in Interval(0, |cfg.pl.active|);
  }

  lemma KeepsRoutesTransitive(cfg: Config, s: Shared, u: Shared, v: Shared)
    requires Valid(s.tree) && Valid(u.tree) && Valid(v.tree) && Usable(cfg.pl.lut)
    requires KeepsRoutes(cfg, s, u) && KeepsRoutes(cfg, u, v)
    ensures KeepsRoutes(cfg, s, v)
  {
    hide Valid, Usable, Exact;
  }

  lemma ServeKeeps(cfg: Config, s: Shared, c: nat, first: Rank, req: Request, made: seq<string>)
    requires Ready(cfg.pl) && Usable(cfg.pl.lut) && Valid(s.tree) && Serviceable(s.tree, req) && cfg.capacity >= 1
    requires c in s.clients
    requires Proper(s.tree, req, made) && !Removes(req.op) && AllOk(cfg, s) && first in cfg.pl.active
    ensures var s' := Serve(cfg.pl, cfg.capacity, s, c, Executor(cfg.pl, s.tree, first, req), req);
      Valid(s'.tree) && Grows(s.tree, s'.tree) && AllOk(cfg, s') && KeepsRoutes(cfg, s, s')
  {
    hide Valid, Usable, Ready, Grows, Serve, Proper, AllOk, Exact, Dispatch, Serviceable;
    DispatchRange(cfg.pl, s.tree, req.fullpath);
    ServeKeepsAll(cfg, s, c, Executor(cfg.pl, s.tree, first, req), req, made);
    var s' := Serve(cfg.pl, cfg.capacity, s, c, Executor(cfg.pl, s.tree, first, req), req);
    forall k: nat, cs: seq<string> | Exact(cfg, s, k, cs)
      ensures Exact(cfg, s', k, cs)
    {
      ServeKeepsExact(cfg, s, c, first, req, made, k, cs);
    }
  }

  /** A request, however it is routed, keeps all clients' caches and routes right. */
  lemma RouteKeeps(cfg: Config, s: Shared, c: nat, first: Rank, req: Request, made: seq<string>)
    requires Ready(cfg.pl) && Usable(cfg.pl.lut) && Valid(s.tree) && Serviceable(s.tree, req) && cfg.capacity >= 1
    requires c in s.clients
    requires Proper(s.tree, req, made) && !Removes(req.op) && AllOk(cfg, s) && first in cfg.pl.active
    ensures var s' := Route(cfg.pl, cfg.capacity, s, c, first, req);
      Valid(s'.tree) && Grows(s.tree, s'.tree) && AllOk(cfg, s') && KeepsRoutes(cfg, s, s')
  {
    hide Valid, Usable, Ready, Grows, Serve, Proper, AllOk, KeepsRoutes, Dispatch, Serviceable, Executor;
    var counted := if Executor(cfg.pl, s.tree, first, req) == first then s else s.(delivered := s.delivered + 1);
    DeliveredIrrelevant(cfg, s, counted.delivered);
    assert counted == s.(delivered := counted.delivered);
    ServeKeeps(cfg, counted, c, first, req, made);
    KeepsRoutesTransitive(cfg, s, counted, Route(cfg.pl, cfg.capacity, s, c, first, req));
  }

  /** However a request is routed, it leaves every client able to send; and all caches right, if it keeps caches. */
  lemma RouteKeepsAll(cfg: Config, s: Shared, c: nat, first: Rank, req: Request, made: seq<string>)
    requires Ready(cfg.pl) && Usable(cfg.pl.lut) && Valid(s.tree) && Serviceable(s.tree, req) && cfg.capacity >= 1
    requires c in s.clients
    requires Proper(s.tree, req, made) && AllOk(cfg, s) && first in cfg.pl.active
    ensures var s' := Route(cfg.pl, cfg.capacity, s, c, first, req);
      && Valid(s'.tree) && AllOk(cfg, s')
      && (AllRight(cfg, s) && KeepsCaches(cfg.capacity, s.tree, req, made) ==> AllRight(cfg, s'))
  {
    hide Valid, Usable, Ready, Serve, AllOk, AllRight, Dispatch, Serviceable, Proper, KeepsCaches;
    DispatchRange(cfg.pl, s.tree, req.fullpath);
    var me := Executor(cfg.pl, s.tree, first, req);
    var counted := if me == first then s else s.(delivered := s.delivered + 1);
    DeliveredIrrelevant(cfg, s, counted.delivered);
    assert counted == s.(delivered := counted.delivered);
    ServeKeepsAll(cfg, counted, c, me, req, made);
    if AllRight(cfg, s) && KeepsCaches(cfg.capacity, s.tree, req, made) {
      ServeKeepsRight(cfg, counted, c, me, req, made);
    }
  }

  lemma RouteTeaches(cfg: Config, s: Shared, c: nat, first: Rank, req: Request, made: seq<string>)
    requires Ready(cfg.pl) && Usable(cfg.pl.lut) && Valid(s.tree) && Serviceable(s.tree, req) && cfg.capacity >= 1
    requires c in s.clients
    requires Proper(s.tree, req, made) && !Removes(req.op)
    requires Perform(cfg.pl, s.tree, Executor(cfg.pl, s.tree, first, req), req).ok
    requires Valid(Route(cfg.pl, cfg.capacity, s, c, first, req).tree)
    ensures Learned(cfg, s, c, req.fullpath, Route(cfg.pl, cfg.capacity, s, c, first, req))
  {
    RootLive(s.tree);
    hide Valid, Usable, Ready, Serve, Proper, Exact, Dispatch, Serviceable, Executor, Perform, Join;
    var counted := if Executor(cfg.pl, s.tree, first, req) == first then s else s.(delivered := s.delivered + 1);
    forall cs: seq<string> | Existing(s.tree, req.fullpath, cs)
      ensures Exact(cfg, Route(cfg.pl, cfg.capacity, s, c, first, req), c, cs)
    {
      ReplyTeaches(cfg, counted, c, first, req, made, cs);
    }
  }

  lemma StraightRoute(cfg: Config, s: Shared, c: nat, target: Rank, fullpath: string)
    requires Ready(cfg.pl) && Valid(s.tree) && Usable(cfg.pl.lut) && fullpath != "" && c in s.clients
    requires !cfg.pl.strategy.Subtree? ==> target == Dispatch(cfg.pl, s.tree, Normal(fullpath))
    requires cfg.pl.strategy.Subtree? ==> LongestPrefix(s.clients[c].routetable, Normal(fullpath), target)
    ensures GoesStraight(cfg, s, c, target, fullpath)
  {
    RootLive(s.tree);
    hide Valid, Usable, Ready, Dispatch, Join;
    forall cs: seq<string> | Existing(s.tree, fullpath, cs) && (!cfg.pl.strategy.Subtree? || Exact(cfg, s, c, cs))
      ensures target == Dispatch(cfg.pl, s.tree, fullpath)
    {
      NormalOfJoin(cs);
      if cfg.pl.strategy.Subtree? {
        WholePathWins(s.clients[c].routetable, fullpath, target);
      }
    }
  }

  lemma WholePathWins(routes: map<string, Rank>, path: string, ret: Rank)
    requires LongestPrefix(routes, path, ret) && path in routes
    ensures ret == routes[path]
  {
    assert path[..|path|] == path;
    assert Known(routes, path, |path|);
  }

  lemma RouteInActive(cfg: Config, t: Tree, cs: ClientState, target: Rank, path: string)
    requires Ready(cfg.pl) && Valid(t) && Usable(cfg.pl.lut) && ClientOk(cfg, cs)
    requires !cfg.pl.strategy.Subtree? ==> target == Dispatch(cfg.pl, t, path)
    requires cfg.pl.strategy.Subtree? ==> LongestPrefix(cs.routetable, path, target)
    ensures target == -1 || target in cfg.pl.active
  {
    hide Valid, Usable, Dispatch, Ready;
    DispatchRange(cfg.pl, t, path);
  }

  /** The state a routed request leaves, in terms of what its executor did. */
  lemma RouteResult(pl: Placer, capacity: int, s: Shared, c: nat, first: Rank, req: Request)
    requires Valid(s.tree) && Usable(pl.lut) && Serviceable(s.tree, req) && capacity >= 1 && c in s.clients
    ensures var o := Perform(pl, s.tree, Executor(pl, s.tree, first, req), req);
      var s' := Route(pl, capacity, s, c, first, req);
      && s'.tree == o.tree && s'.clients.Keys == s.clients.Keys
      && s'.clients[c] == if o.ok then Absorb(s.clients[c], capacity, o.reply) else s.clients[c]
  {
    hide Valid, Usable, Perform, Executor, Absorb, Serviceable;
  }

  /** The server a route leads to, and root_mds when there is no route, are active; and the choice goes straight. */
  lemma RequestReady(cfg: Config, s: Shared, c: nat, target: Rank, fullpath: string)
    requires Booted(cfg) && Valid(s.tree) && Usable(cfg.pl.lut) && AllOk(cfg, s) && fullpath != "" && c in s.clients
    requires Chosen(cfg, s, c, fullpath, target)
    ensures var first := if target == -1 then 0 else target;
      && first in cfg.pl.active && RoutedTo(cfg, s, c, fullpath, first) && GoesStraight(cfg, s, c, first, fullpath)
      && s.clients[c].mdsmap == cfg.pl.active && s.clients[c].rootMds == Some(cfg.pl.active[0])
  {
    hide Booted, Valid, Usable, Ready, Dispatch, LongestPrefix, Coherent, Exact, Join, NamesValid;
    BootedReady(cfg);
    assert ClientOk(cfg, s.clients[c]);
    RouteInActive(cfg, s.tree, s.clients[c], target, Normal(fullpath));
    StraightRoute(cfg, s, c, target, fullpath);
    if target == -1 {
      forall cs: seq<string> | Existing(s.tree, fullpath, cs)
        ensures !cfg.pl.strategy.Subtree? || Exact(cfg, s, c, cs) ==> Dispatch(cfg.pl, s.tree, fullpath) == 0
      {
        ExistingOwned(cfg, s.tree, fullpath, cs);
      }
    }
  }

  lemma ExistingOwned(cfg: Config, t: Tree, path: string, cs: seq<string>)
    requires Ready(cfg.pl) && Usable(cfg.pl.lut) && Valid(t) && Existing(t, path, cs)
    ensures Dispatch(cfg.pl, t, path) in cfg.pl.active && -1 !in cfg.pl.active
  {
    DispatchExisting(cfg.pl, t, path, cs);
  }

  /** A request that has come back leaves the clients able to send; all caches right, if it keeps caches; and all
      learned routes exact, unless it removes something. */
  lemma RequestDone(cfg: Config, s0: Shared, c: nat, at: Proc, first: Rank, req: Request, made: seq<string>,
                    cb: Scratch, s': Shared, cb': Scratch, ret: bool)
    requires Booted(cfg) && Usable(cfg.pl.lut) && cfg.capacity >= 1 && Valid(s0.tree) && AllOk(cfg, s0)
    requires c in s0.clients
    requires Serviceable(s0.tree, req) && Proper(s0.tree, req, made)
    requires first in cfg.pl.active && IsServer(cfg, at) && cfg.whoami[at.id] == first
    requires Handled(cfg, Some(at), ClientRequest(req), c, Prepared(s0, c), cb, s', cb', ret)
    ensures ret == Perform(cfg.pl, s0.tree, Executor(cfg.pl, s0.tree, first, req), req).ok
    ensures var s := Prepared(s0, c);
      s' == Route(cfg.pl, cfg.capacity, s.(delivered := s.delivered + 1), c, first, req)
    ensures Valid(s'.tree) && s'.clients.Keys == s0.clients.Keys && AllOk(cfg, s')
    ensures AllRight(cfg, s0) && KeepsCaches(cfg.capacity, s0.tree, req, made) ==> AllRight(cfg, s')
    ensures !Removes(req.op) ==> Kept(cfg, s0, s') && (ret ==> Learned(cfg, s0, c, req.fullpath, s'))
  {
    hide Booted, Valid, Usable, Ready, Grows, AllOk, AllRight, Proper, KeepsCaches, Serviceable, Exact,
      KeepsRoutes, Route,
      Perform, Executor, Dispatch, Join;
    BootedReady(cfg);
    var s := Prepared(s0, c);
    PreparedOk(cfg, s0, c);
    DeliveredIrrelevant(cfg, s, s.delivered + 1);
    var sent := s.(delivered := s.delivered + 1);
    RouteKeepsAll(cfg, sent, c, first, req, made);
    KeepsRoutesTransitive(cfg, s0, s, sent);
    RouteResult(cfg.pl, cfg.capacity, sent, c, first, req);
    if !Removes(req.op) {
      RouteKeeps(cfg, sent, c, first, req, made);
      KeepsRoutesTransitive(cfg, s0, sent, s');
      if ret {
        RouteTeaches(cfg, sent, c, first, req, made);
      }
    }
  }

  function Touched(s: Shared, c: nat, path: string): Shared
    requires c in s.clients
  {
    s.(clients := s.clients[c := s.clients[c].(cache := L.Get(s.clients[c].cache, path).0)])
  }

  /** Reading a cache leaves everything that matters as it was. */
  lemma TouchKeeps(cfg: Config, s: Shared, c: nat, path: string)
    requires Valid(s.tree) && Usable(cfg.pl.lut) && c in s.clients && AllOk(cfg, s)
    ensures AllOk(cfg, Touched(s, c, path)) && Kept(cfg, s, Touched(s, c, path))
    ensures AllRight(cfg, s) ==> AllRight(cfg, Touched(s, c, path))
  {
    hide Valid, Usable, Coherent, Dispatch, Join, NamesValid, L.Get;
    assert ClientOk(cfg, s.clients[c]);
    L.GetFacts(cfg.capacity, s.clients[c].cache, path, path);
    if AllRight(cfg, s) && cfg.cacheEnabled {
      CoherentGet(s.tree, cfg.capacity, s.clients[c].cache, path);
    }
  }

  /** A remote lookup hands back exactly what the tree holds, and NULL exactly when it holds nothing; what it finds is
      cached. */
  lemma RemoteLookup(cfg: Config, s: Shared, c: nat, first: Rank, path: string)
    requires Valid(s.tree) && Usable(cfg.pl.lut) && cfg.capacity >= 1 && c in s.clients
    ensures var p := Prepared(s, c);
      var after := Route(cfg.pl, cfg.capacity, p.(delivered := p.delivered + 1), c, first,
          Request(path, LOOKUP, path, None, ""));
      && after.tree == s.tree && c in after.clients && after.clients[c].callbackInoptr == Lookup(s.tree, path)
      && after.clients[c].cache
           == if Lookup(s.tree, path).Some? then L.Set(cfg.capacity, s.clients[c].cache, path,
               Lookup(s.tree, path).value)
              else s.clients[c].cache
  {
    hide Valid, Usable, Executor, Lookup, Route, L.Set;
    RootLive(s.tree);
    var p := Prepared(s, c);
    RouteResult(cfg.pl, cfg.capacity, p.(delivered := p.delivered + 1), c, first,
        Request(path, LOOKUP, path, None, ""));
  }

  /** The reply to a successful removal only touches the path in the client's cache; the reply to mknod stores it. */
  lemma CacheAfter(cfg: Config, s: Shared, c: nat, first: Rank, req: Request)
    requires Valid(s.tree) && Usable(cfg.pl.lut) && cfg.capacity >= 1 && c in s.clients && Serviceable(s.tree, req)
    requires Perform(cfg.pl, s.tree, Executor(cfg.pl, s.tree, first, req), req).ok
    ensures var p := Prepared(s, c);
      var after := Route(cfg.pl, cfg.capacity, p.(delivered := p.delivered + 1), c, first, req);
      && c in after.clients
      && (Removes(req.op) ==> after.clients[c].cache == L.Get(s.clients[c].cache, req.fullpath).0)
      && (req.op.CREATE? ==>
            after.clients[c].cache == L.Set(cfg.capacity, s.clients[c].cache, req.fullpath, s.tree.next))
  {
    hide Valid, Usable, Executor, Route, L.Set, L.Get;
    var p := Prepared(s, c);
    RouteResult(cfg.pl, cfg.capacity, p.(delivered := p.delivered + 1), c, first, req);
  }

  lemma OffIsRight(cfg: Config, s: Shared)
    requires Valid(s.tree)
    ensures !cfg.cacheEnabled ==> AllRight(cfg, s)
  {
    hide Valid, Coherent;
  }

  lemma Incoherent(cfg: Config, s: Shared, c: nat)
    requires Valid(s.tree) && cfg.cacheEnabled && c in s.clients && !Coherent(s.tree, cfg.capacity, s.clients[c].cache)
    ensures !AllRight(cfg, s)
  {
    hide Valid, Coherent;
  }
}
