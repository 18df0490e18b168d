/** The operations of cluster/process/ClientProcess.cc, on top of the simulated cluster. */
module Clients {
  import opened Collections
  import opened Paths
  import opened Namespace
  import opened Topology
  import opened Placement
  import opened Protocol
  import opened Routes
  import opened CacheReads
  import opened Coherence
  import opened ClientSpec
  import opened FileLaws
  import opened PlainFs
  import opened Transparency
  import opened Lending
  import opened Simulator
  import L = LruSpec

  class ClientProcess {
    const sim: Cluster
    const id: nat

    constructor (sim: Cluster, id: nat)
      ensures this.sim == sim && this.id == id
    {
      this.sim, this.id := sim, id;
    }

    /** Between operations no send is active, so no reverse port is lent, and every client can send. */
    ghost predicate Attached()
      reads sim
    {
      sim.Running() && sim.lent == map[] && AllOk(sim.cfg, sim.View()) && id in sim.clients
    }

    /** And no client can read anything wrong from its cache. */
    ghost predicate Connected()
      reads sim
    {
      Attached() && AllRight(sim.cfg, sim.View())
    }

    lemma Facts()
      requires sim.Running()
      ensures Valid(sim.tree) && Usable(sim.cfg.pl.lut) && sim.cfg.capacity >= 1 && ROOT in sim.tree.nodes
    {
      hide Booted, Orderly, Usable;
      BootedReady(sim.cfg);
    }

    /** What the client's next lookup of a path will answer, and the cache it leaves. */
    ghost function Reading(path: string): (Cache, Option<Ino>)
      requires Attached()
      reads sim
    {
      var cache := sim.clients[id].cache;
      if path == "" then (cache, None)
      else
        Facts();
        FetchAll(sim.cfg.cacheEnabled, sim.cfg.capacity, sim.tree, cache, KeysRead(Rooted(path)))
    }

    /** send_request. `first` is the rank of the server the request went to. */
    method SendRequest(fullpath: string, op: Op, path: string, ino: Option<Ino>, data: string, ghost made: seq<string>)
      returns (ret: bool, ghost first: Rank)
      requires Attached() && fullpath != ""
      requires path != "" || ino.Some? ==>
        var req := Request(fullpath, op, path, ino, data);
        Serviceable(sim.tree, req) && Proper(sim.tree, req, made)
      modifies sim
      ensures Attached() && sim.clients.Keys == old(sim.clients.Keys)
      ensures old(AllRight(sim.cfg, sim.View())
                && KeepsCaches(sim.cfg.capacity, sim.tree, Request(fullpath, op, path, ino, data), made)) ==>
        AllRight(sim.cfg, sim.View())
      ensures !Removes(op) ==> Kept(sim.cfg, old(sim.View()), sim.View())
      ensures path == "" && ino == None ==> !ret && sim.View() == old(sim.View())
      ensures path != "" || ino.Some? ==>
        var req := Request(fullpath, op, path, ino, data);
        var s := Prepared(old(sim.View()), id);
        && first in sim.cfg.pl.active && RoutedTo(sim.cfg, old(sim.View()), id, fullpath, first)
        && GoesStraight(sim.cfg, old(sim.View()), id, first, fullpath)
        && ret == Perform(sim.cfg.pl, s.tree, Executor(sim.cfg.pl, s.tree, first, req), req).ok
        && sim.View() == Route(sim.cfg.pl, sim.cfg.capacity, s.(delivered := s.delivered + 1), id, first, req)
        && (!Removes(op) && ret ==> Learned(sim.cfg, old(sim.View()), id, fullpath, sim.View()))
    {
      hide Booted, Valid, Usable, Orderly, AllOk, AllRight, KeepsCaches, Proper, Serviceable, Grows, KeepsRoutes,
        Perform,
        Executor, Route, Learned, GoesStraight, RoutedTo, LongestPrefix, Handled, Dispatch, Released;
      ghost var s0 := sim.View();
      KeptReflexive(sim.cfg, s0);
      if path == "" && ino == None {
        return false, 0;
      }
      var req := Request(fullpath, op, path, ino, data);
      sim.PrepareCallbacks(id);
      var target, _ := FindRoute(sim.cfg.pl, sim.tree, sim.clients[id].routetable, fullpath);
      RequestReady(sim.cfg, s0, id, target, fullpath);
      first := if target == -1 then 0 else target;
      ActiveServer(sim.cfg, first);
      var entity := if target != -1 then Pointer(sim.clients[id].mdsmap, target) else sim.clients[id].rootMds;
      ghost var at := sim.cfg.services[entity.value];
      ghost var cb := sim.callbackInolist;
      ghost var done;
      ret, done := sim.Send(Client(id), entity, ClientRequest(req), id);
      ReleasedEmpty(old(sim.lent), done);
      RequestDone(sim.cfg, s0, id, at, first, req, made, cb, sim.View(), sim.callbackInolist, ret);
    }

    /** _lookup: the cache first, if it is on, then a server. */
    method LookupOne(path: string) returns (r: Option<Ino>)
      requires Attached() && path != ""
      modifies sim
      ensures Attached() && Kept(sim.cfg, old(sim.View()), sim.View()) && sim.tree == old(sim.tree)
      ensures old(Connected()) ==> Connected()
      ensures (sim.clients[id].cache, r)
           == old(Fetch(sim.cfg.cacheEnabled, sim.cfg.capacity, sim.tree, sim.clients[id].cache, path))
    {
      hide Booted, Valid, Usable, Orderly, AllOk, AllRight, Kept, Perform, Executor, Route, Learned, GoesStraight,
        RoutedTo, Lookup,
        L.Get, L.Set;
      ghost var s0 := sim.View();
      KeptReflexive(sim.cfg, s0);
      L.HitIs(sim.clients[id].cache, path);
      L.MissIs(sim.clients[id].cache, path);
      if sim.cfg.cacheEnabled {
        TouchKeeps(sim.cfg, s0, id, path);
        r := sim.CacheGet(id, path);
        if r.Some? { return; }
      }
      ghost var s := sim.View();
      var ret;
      ghost var first;
      ret, first := SendRequest(path, LOOKUP, path, None, "", []);
      RemoteLookup(sim.cfg, s, id, first, path);
      KeptTransitive(sim.cfg, s0, s, sim.View());
      r := sim.clients[id].callbackInoptr;
    }

    /** lookup: the root, each directory on the way, then the path itself. */
    method LookupPath(path: string) returns (r: Option<Ino>)
      requires Attached()
      modifies sim
      ensures Attached() && Kept(sim.cfg, old(sim.View()), sim.View()) && sim.tree == old(sim.tree)
      ensures path == "" ==> r == None && sim.View() == old(sim.View())
      ensures (sim.clients[id].cache, r) == old(Reading(path))
      ensures old(Connected()) ==>
        Connected() && r == if path == "" then None else StepwiseLookup(sim.tree, Rooted(path))
    {
      hide Booted, Valid, Usable, Orderly, AllOk, AllRight, Kept, Fetch, FetchAll, KeysRead, StepwiseLookup, MatchAt,
        SlashesOf, HasRead;
      ghost var s0, on, capacity := sim.View(), sim.cfg.cacheEnabled, sim.cfg.capacity;
      ghost var cache := sim.clients[id].cache;
      KeptReflexive(sim.cfg, s0);
      if path == "" { return None; }
      var p := Rooted(path);
      var slashes := FindAll(p, "/");
      FoundSlashes(p, slashes);
      Facts();
      if Connected() { ConnectedReads(path); }
      FirstRead(on, capacity, s0.tree, cache, p, slashes);
      r := LookupOne("/");
      var it := 1;
      while r.Some? && it < |slashes|
        invariant 1 <= it <= |slashes| && Attached() && Kept(sim.cfg, s0, sim.View()) && sim.tree == s0.tree
        invariant old(Connected()) ==> Connected()
        invariant HasRead(on, capacity, s0.tree, cache, p, slashes, it, sim.clients[id].cache, r)
      {
        ghost var s := sim.View();
        NextRead(on, capacity, s0.tree, cache, p, slashes, it, s.clients[id].cache, r);
        r := LookupOne(p[..slashes[it]]);
        KeptTransitive(sim.cfg, s0, s, sim.View());
        it := it + 1;
      }
      ghost var s := sim.View();
      LastRead(on, capacity, s0.tree, cache, p, slashes, it, s.clients[id].cache, r);
      if r == None { return; }
      r := LookupOne(p);
      KeptTransitive(sim.cfg, s0, s, sim.View());
    }

    lemma FoundSlashes(p: string, slashes: seq<nat>)
      requires p != "" && p[0] == '/' && forall j, k | 0 <= j < k < |slashes| :: slashes[j] < slashes[k]
      requires forall k: nat :: k in slashes <==> k < |p| && MatchAt(p, "/", k)
      ensures SlashesOf(p, slashes) && slashes != [] && slashes[0] == 0
    {
      SlashIsMatch(p);
      assert MatchAt(p, "/", 0) && 0 in slashes;
    }

    /** Through a right cache the client reads what the tree holds. */
    lemma ConnectedReads(path: string)
      requires Connected() && path != ""
      ensures Reading(path).1 == StepwiseLookup(sim.tree, Rooted(path))
    {
      hide Booted, Valid, Usable, Orderly, FetchAll, StepwiseLookup, L.Fits, Coherent;
      BootedReady(sim.cfg);
      assert ClientOk(sim.cfg, sim.clients[id]);
      RightLookup(sim.cfg.cacheEnabled, sim.cfg.capacity, sim.tree, sim.clients[id].cache, path);
    }

    /** mknod. With the cache on, a client that makes a second file of a name will find that one, if its path is short
        enough to be read from the cache, and everybody else the first. */
    method Mknod(path: string, ghost cs: seq<string>) returns (ok: bool)
      requires Connected() && path == Join(cs) && WellFormed(MakeFile(cs))
      modifies sim
      ensures Attached() && sim.clients.Keys == old(sim.clients.Keys) && Kept(sim.cfg, old(sim.View()), sim.View())
      ensures (PlainFs.Done(ok), sim.tree) == Plain(old(sim.tree), MakeFile(cs))
      ensures Connected() <==> !sim.cfg.cacheEnabled || CacheSafe(sim.cfg.capacity, old(sim.tree), MakeFile(cs))
      ensures Connected() || Reading(path).1 == Some(old(sim.tree.next))
    {
      hide Booted, Valid, Usable, Orderly, AllOk, AllRight, Kept, Perform, Executor, Route, Learned, GoesStraight,
        RoutedTo, StepwiseLookup, Join, DirOf, BaseOf, Plain, Absorb, Coherent, FetchAll, Walk;
      ghost var s0 := sim.View();
      JoinDirname(cs);
      var dname := Dirname(path);
      CanonicalLookup(sim.tree, cs[..|cs| - 1]);
      var parent := LookupPath(dname);
      NoParent(s0.tree, cs);
      NoParentNoChild(s0.tree, cs);
      KeptClients(sim.cfg, s0, sim.View());
      if parent == None { return false; }
      ghost var s := sim.View();
      ghost var req := Request(path, CREATE, BaseOf(path), parent, "");
      ProperCreation(s.tree, req, cs);
      ghost var first;
      ok, first := SendRequest(path, CREATE, BaseOf(path), parent, "", cs);
      ghost var p := Prepared(s, id);
      RouteResult(sim.cfg.pl, sim.cfg.capacity, p.(delivered := p.delivered + 1), id, first, req);
      PerformIsPlain(sim.cfg.pl, s.tree, Executor(sim.cfg.pl, s.tree, first, req), req, MakeFile(cs));
      KeptTransitive(sim.cfg, s0, s, sim.View());
      if sim.cfg.cacheEnabled && !CacheSafe(sim.cfg.capacity, s0.tree, MakeFile(cs)) {
        SecondSticks(s0, s, first, req, cs);
      }
      OffIsRight(sim.cfg, sim.View());
    }

    /** The client that has made a second file of a name finds it from now on. */
    lemma SecondSticks(s0: Shared, s: Shared, first: Rank, req: Request, cs: seq<string>)
      requires Attached() && id in s0.clients && id in s.clients && Valid(s0.tree) && s.tree == s0.tree
      requires AllOk(sim.cfg, s0)
      requires Usable(sim.cfg.pl.lut) && sim.cfg.capacity >= 1 && sim.cfg.cacheEnabled
      requires WellFormed(MakeFile(cs)) && |cs| < sim.cfg.capacity && Join(cs[..|cs| - 1]) != ""
      requires ROOT in s0.tree.nodes && Walk(s0.tree, ROOT, cs).Some? && Walk(s0.tree, ROOT, cs[..|cs| - 1]).Some?
      requires req.op.CREATE? && req.fullpath == Join(cs) && req.inode == Walk(s0.tree, ROOT, cs[..|cs| - 1])
      requires Serviceable(s.tree, req) && req.path == cs[|cs| - 1]
      requires FetchAll(true, sim.cfg.capacity, s0.tree, s0.clients[id].cache, KeysRead(Join(cs[..|cs| - 1])))
            == (s.clients[id].cache, Walk(s0.tree, ROOT, cs[..|cs| - 1]))
      requires var p := Prepared(s, id);
        sim.View() == Route(sim.cfg.pl, sim.cfg.capacity, p.(delivered := p.delivered + 1), id, first, req)
      ensures Join(cs) != "" && Reading(Join(cs)).1 == Some(s0.tree.next) && !AllRight(sim.cfg, sim.View())
    {
      assert ClientOk(sim.cfg, s0.clients[id]) && ClientOk(sim.cfg, sim.clients[id]);
      CreateSucceeds(sim.cfg.pl, s.tree, Executor(sim.cfg.pl, s.tree, first, req), req, cs);
      hide Booted, Valid, Usable, Orderly, Perform, Executor, Route, Join, Plain, Absorb, Coherent, FetchAll, Walk,
        Lookup,
        L.Set, L.Fits, Sticks, AddSub;
      var i := s0.tree.next;
      CacheAfter(sim.cfg, s, id, first, req);
      StoredSticks(true, sim.cfg.capacity, s0.tree, s0.clients[id].cache, cs, i);
      JoinRooted(cs);
      SpellsComponents(Join(cs), cs);
      MknodCoherent(s0.tree, Join(cs), cs);
      LookupIsWalk(s0.tree, Join(cs));
      var p := Prepared(s, id);
      RouteResult(sim.cfg.pl, sim.cfg.capacity, p.(delivered := p.delivered + 1), id, first, req);
      SticksAnswers(sim.cfg.capacity, sim.tree, sim.clients[id].cache, Join(cs), i);
      RootLive(sim.tree);
      StickyIncoherent(sim.tree, sim.cfg.capacity, sim.clients[id].cache, cs, i);
      Incoherent(sim.cfg, sim.View(), id);
    }

    method Mkdir(path: string, ghost cs: seq<string>) returns (ok: bool)
      requires Connected() && path == Join(cs) && WellFormed(MakeDir(cs))
      modifies sim
      ensures Connected() && Kept(sim.cfg, old(sim.View()), sim.View())
      ensures (PlainFs.Done(ok), sim.tree) == Plain(old(sim.tree), MakeDir(cs))
    {
      hide Booted, Valid, Usable, Orderly, AllOk, AllRight, Kept, Perform, Executor, Route, Learned, GoesStraight,
        RoutedTo, StepwiseLookup, Join, DirOf, BaseOf, Plain, Absorb, Coherent, FetchAll, Walk;
      ghost var s0 := sim.View();
      JoinDirname(cs);
      var dname := Dirname(path);
      CanonicalLookup(sim.tree, cs[..|cs| - 1]);
      var parent := LookupPath(dname);
      NoParent(s0.tree, cs);
      if parent == None { return false; }
      ghost var s := sim.View();
      ghost var req := Request(path, MKDIR, BaseOf(path), parent, "");
      ProperCreation(s.tree, req, cs);
      ghost var first;
      ok, first := SendRequest(path, MKDIR, BaseOf(path), parent, "", cs);
      ghost var p := Prepared(s, id);
      RouteResult(sim.cfg.pl, sim.cfg.capacity, p.(delivered := p.delivered + 1), id, first, req);
      PerformIsPlain(sim.cfg.pl, s.tree, Executor(sim.cfg.pl, s.tree, first, req), req, MakeDir(cs));
      KeptTransitive(sim.cfg, s0, s, sim.View());
    }

    /** exist, is_file and is_dir ask no more than this. */
    method StatPath(path: string, ghost cs: seq<string>) returns (r: Option<Ino>)
      requires Attached() && path == Join(cs) && ValidNames(cs)
      modifies sim
      ensures Attached() && Kept(sim.cfg, old(sim.View()), sim.View()) && sim.tree == old(sim.tree)
      ensures r == old(Reading(path)).1
      ensures old(Connected()) ==> Connected() && (Found(r), sim.tree) == Plain(old(sim.tree), Stat(cs))
    {
      CanonicalLookup(sim.tree, cs);
      hide Booted, Valid, Usable, Orderly, AllOk, AllRight, Kept, StepwiseLookup, Join, FetchAll;
      r := LookupPath(path);
    }

    method Read(path: string, ghost cs: seq<string>) returns (ok: bool, out: string)
      requires Connected() && path == Join(cs) && ValidNames(cs)
      modifies sim
      ensures Connected() && Kept(sim.cfg, old(sim.View()), sim.View())
      ensures (Content(ok, out), sim.tree) == Plain(old(sim.tree), ReadFile(cs))
    {
      hide Booted, Valid, Usable, Orderly, AllOk, AllRight, Kept, Perform, Executor, Route, Learned, GoesStraight,
        RoutedTo, StepwiseLookup, Join, DirOf, BaseOf, Plain, Absorb, Coherent, FetchAll, Walk;
      ghost var s0 := sim.View();
      CanonicalLookup(sim.tree, cs);
      var ino := LookupPath(path);
      NothingThere(s0.tree, cs, "");
      if ino == None { return false, ""; }
      ghost var s := sim.View();
      ghost var req := Request(path, READ, "", ino, "");
      ghost var first;
      ok, first := SendRequest(path, READ, "", ino, "", cs);
      ghost var p := Prepared(s, id);
      RouteResult(sim.cfg.pl, sim.cfg.capacity, p.(delivered := p.delivered + 1), id, first, req);
      PerformIsPlain(sim.cfg.pl, s.tree, Executor(sim.cfg.pl, s.tree, first, req), req, ReadFile(cs));
      ReadSucceeds(sim.cfg.pl, s.tree, Executor(sim.cfg.pl, s.tree, first, req), req);
      KeptTransitive(sim.cfg, s0, s, sim.View());
      AbsorbFields(p.clients[id], sim.cfg.capacity,
          Perform(sim.cfg.pl, s.tree, Executor(sim.cfg.pl, s.tree, first, req), req).reply);
      if !ok { return false, ""; }
      out := sim.clients[id].callbackData;
    }

    method Write(path: string, data: string, ghost cs: seq<string>) returns (ok: bool)
      requires Connected() && path == Join(cs) && ValidNames(cs)
      modifies sim
      ensures Connected() && Kept(sim.cfg, old(sim.View()), sim.View())
      ensures (PlainFs.Done(ok), sim.tree) == Plain(old(sim.tree), WriteFile(cs, data))
    {
      hide Booted, Valid, Usable, Orderly, AllOk, AllRight, Kept, Perform, Executor, Route, Learned, GoesStraight,
        RoutedTo, StepwiseLookup, Join, DirOf, BaseOf, Plain, Absorb, Coherent, FetchAll, Walk;
      ghost var s0 := sim.View();
      CanonicalLookup(sim.tree, cs);
      var ino := LookupPath(path);
      NothingThere(s0.tree, cs, data);
      if ino == None { return false; }
      ghost var s := sim.View();
      ghost var req := Request(path, WRITE, "", ino, data);
      ghost var first;
      ok, first := SendRequest(path, WRITE, "", ino, data, cs);
      ghost var p := Prepared(s, id);
      RouteResult(sim.cfg.pl, sim.cfg.capacity, p.(delivered := p.delivered + 1), id, first, req);
      PerformIsPlain(sim.cfg.pl, s.tree, Executor(sim.cfg.pl, s.tree, first, req), req, WriteFile(cs, data));
      KeptTransitive(sim.cfg, s0, s, sim.View());
    }

    /** rm. With the cache on, a client goes on finding what it has removed, if its path is short enough to be read
        from the cache. */
    method Rm(path: string, ghost cs: seq<string>) returns (ok: bool)
      requires Connected() && path == Join(cs) && ValidNames(cs)
      modifies sim
      ensures Attached() && sim.clients.Keys == old(sim.clients.Keys)
      ensures (PlainFs.Done(ok), sim.tree) == Plain(old(sim.tree), RemoveFile(cs))
      ensures Connected() <==> !sim.cfg.cacheEnabled || CacheSafe(sim.cfg.capacity, old(sim.tree), RemoveFile(cs))
      ensures Connected() || Reading(path).1 == old(Walk(sim.tree, ROOT, cs))
    {
      hide Booted, Valid, Usable, Orderly, AllOk, AllRight, Kept, Perform, Executor, Route, Learned, GoesStraight,
        RoutedTo, StepwiseLookup, Join, DirOf, BaseOf, Plain, Absorb, Coherent, FetchAll, Walk;
      ghost var s0 := sim.View();
      CanonicalLookup(sim.tree, cs);
      var ino := LookupPath(path);
      NothingThere(s0.tree, cs, "");
      KeptClients(sim.cfg, s0, sim.View());
      RootLive(s0.tree);
      if ino == None { return false; }
      ghost var s := sim.View();
      ghost var req := Request(path, RM, "", ino, "");
      ghost var first;
      ok, first := SendRequest(path, RM, "", ino, "", cs);
      RemovalAnswered(s, req, first, RemoveFile(cs));
      if sim.cfg.cacheEnabled && !CacheSafe(sim.cfg.capacity, s0.tree, RemoveFile(cs)) {
        RemovedSticks(s0, s, first, req, cs);
      }
      OffIsRight(sim.cfg, sim.View());
    }

    /** rmdir: the same, for directories only. */
    method Rmdir(path: string, ghost cs: seq<string>) returns (ok: bool)
      requires Connected() && path == Join(cs) && ValidNames(cs)
      modifies sim
      ensures Attached() && sim.clients.Keys == old(sim.clients.Keys)
      ensures (PlainFs.Done(ok), sim.tree) == Plain(old(sim.tree), RemoveDir(cs))
      ensures Connected() <==> !sim.cfg.cacheEnabled || CacheSafe(sim.cfg.capacity, old(sim.tree), RemoveDir(cs))
      ensures Connected() || Reading(path).1 == old(Walk(sim.tree, ROOT, cs))
    {
      hide Booted, Valid, Usable, Orderly, AllOk, AllRight, Kept, Perform, Executor, Route, Learned, GoesStraight,
        RoutedTo, StepwiseLookup, Join, DirOf, BaseOf, Plain, Absorb, Coherent, FetchAll, Walk;
      ghost var s0 := sim.View();
      CanonicalLookup(sim.tree, cs);
      var ino := LookupPath(path);
      NothingThere(s0.tree, cs, "");
      NotADirectory(s0.tree, cs);
      KeptClients(sim.cfg, s0, sim.View());
      if ino == None || !sim.tree.nodes[ino.value].isDir { return false; }
      ghost var s := sim.View();
      ghost var req := Request(path, RMDIR, "", ino, "");
      ghost var first;
      ok, first := SendRequest(path, RMDIR, "", ino, "", cs);
      RemovalAnswered(s, req, first, RemoveDir(cs));
      if sim.cfg.cacheEnabled && !CacheSafe(sim.cfg.capacity, s0.tree, RemoveDir(cs)) {
        RemovedSticks(s0, s, first, req, cs);
      }
      OffIsRight(sim.cfg, sim.View());
    }

    /** The request of rm or rmdir has come back. */
    lemma RemovalAnswered(s: Shared, req: Request, first: Rank, call: Call)
      requires sim.Running() && id in s.clients && Valid(s.tree) && Usable(sim.cfg.pl.lut) && sim.cfg.capacity >= 1
      requires Removal(call) && WellFormed(call) && req.op == Call2Op(call)
      requires ROOT in s.tree.nodes && req.inode.Some? && Walk(s.tree, ROOT, call.cs) == req.inode
      requires Serviceable(s.tree, req)
      requires call.RemoveDir? ==> s.tree.nodes[req.inode.value].isDir
      requires var p := Prepared(s, id);
        sim.View() == Route(sim.cfg.pl, sim.cfg.capacity, p.(delivered := p.delivered + 1), id, first, req)
      ensures sim.tree == Plain(s.tree, call).1 && Plain(s.tree, call).0 == PlainFs.Done(true)
      ensures Perform(sim.cfg.pl, s.tree, Executor(sim.cfg.pl, s.tree, first, req), req).ok
      ensures sim.tree == Remove(s.tree, req.inode.value)
    {
      hide Booted, Valid, Usable, Orderly, Executor, Route, Join, Plain, Absorb, Coherent, Walk, Perform;
      var p := Prepared(s, id);
      var me := Executor(sim.cfg.pl, s.tree, first, req);
      RouteResult(sim.cfg.pl, sim.cfg.capacity, p.(delivered := p.delivered + 1), id, first, req);
      PerformIsPlain(sim.cfg.pl, s.tree, me, req, call);
      RemovedTree(sim.cfg.pl, s.tree, me, req);
      RemovalDone(s.tree, call);
    }

    /** The client that has removed what it looked up finds it from now on. */
    lemma RemovedSticks(s0: Shared, s: Shared, first: Rank, req: Request, cs: seq<string>)
      requires Attached() && id in s0.clients && id in s.clients && Valid(s0.tree) && s.tree == s0.tree
      requires AllOk(sim.cfg, s0)
      requires Usable(sim.cfg.pl.lut) && sim.cfg.capacity >= 1 && sim.cfg.cacheEnabled
      requires ValidNames(cs) && cs != [] && |cs| < sim.cfg.capacity && Join(cs) != ""
      requires ROOT in s0.tree.nodes && Walk(s0.tree, ROOT, cs).Some? && req.inode == Walk(s0.tree, ROOT, cs)
      requires Removes(req.op) && req.fullpath == Join(cs) && Serviceable(s.tree, req)
      requires FetchAll(true, sim.cfg.capacity, s0.tree, s0.clients[id].cache, KeysRead(Join(cs)))
            == (s.clients[id].cache, Walk(s0.tree, ROOT, cs))
      requires Perform(sim.cfg.pl, s.tree, Executor(sim.cfg.pl, s.tree, first, req), req).ok
      requires sim.tree == Remove(s.tree, req.inode.value)
      requires var p := Prepared(s, id);
        sim.View() == Route(sim.cfg.pl, sim.cfg.capacity, p.(delivered := p.delivered + 1), id, first, req)
      ensures Reading(Join(cs)).1 == Walk(s0.tree, ROOT, cs) && !AllRight(sim.cfg, sim.View())
    {
      assert ClientOk(sim.cfg, s0.clients[id]) && ClientOk(sim.cfg, sim.clients[id]);
      hide Booted, Valid, Usable, Orderly, Perform, Executor, Route, Join, Plain, Absorb, Coherent, FetchAll, Walk,
        Lookup,
        L.Get, L.Fits, Sticks, Remove;
      var i := req.inode.value;
      CacheAfter(sim.cfg, s, id, first, req);
      FoundSticks(true, sim.cfg.capacity, s0.tree, s0.clients[id].cache, cs);
      JoinRooted(cs);
      RemovedIsGone(s0.tree, cs);
      SticksAnswers(sim.cfg.capacity, sim.tree, sim.clients[id].cache, Join(cs), i);
      RootLive(sim.tree);
      StickyIncoherent(sim.tree, sim.cfg.capacity, sim.clients[id].cache, cs, i);
      Incoherent(sim.cfg, sim.View(), id);
    }

    /** lsdir: the names of the gathered entries, in the order they came in. */
    method Lsdir(path: string, ghost cs: seq<string>) returns (ok: bool, names: seq<string>)
      requires Connected() && path == Join(cs) && ValidNames(cs)
      modifies sim
      ensures Connected() && Kept(sim.cfg, old(sim.View()), sim.View()) && sim.tree == old(sim.tree)
      ensures Agree(Names(ok, names), Plain(sim.tree, ListDir(cs)).0)
    {
      hide Booted, Valid, Usable, Orderly, AllOk, AllRight, Kept, Perform, Executor, Route, Learned, GoesStraight,
        RoutedTo, StepwiseLookup, Join, DirOf, BaseOf, Plain, Absorb, Agree, NamesOf, Coherent, FetchAll, Walk;
      ghost var s0 := sim.View();
      CanonicalLookup(sim.tree, cs);
      var ino := LookupPath(path);
      names := [];
      NothingListed(s0.tree, cs);
      if ino == None { return false, []; }
      ghost var s := sim.View();
      ghost var req := Request(path, LISTDIR, "", ino, "");
      ghost var first;
      ok, first := SendRequest(path, LISTDIR, "", ino, "", cs);
      KeptTransitive(sim.cfg, s0, s, sim.View());
      ListingArrived(sim.cfg, s, id, first, req, cs);
      var list := sim.clients[id].callbackInolist;
      ListingAnswers(s.tree, cs, ino.value, list);
      if !ok { return false, []; }
      names := CollectNames(list);
    }

    method CollectNames(list: seq<Ino>) returns (names: seq<string>)
      requires forall e | e in list :: e in sim.tree.nodes
      ensures names == NamesOf(sim.tree, list)
    {
      names := [];
      var n := 0;
      while n < |list|
        invariant 0 <= n <= |list|
        invariant forall e | e in list[..n] :: e in sim.tree.nodes
        invariant names == NamesOf(sim.tree, list[..n])
      {
        assert list[..n + 1][..n] == list[..n];
        names := names + [sim.tree.nodes[list[n]].name];
        n := n + 1;
      }
      assert list[..n] == list;
    }

    /** Any call. With the cache on, the safe ones are exactly those that leave every cache right. */
    method Issue(call: Call) returns (a: Answer)
      requires Connected() && WellFormed(call)
      modifies sim
      ensures Attached() && sim.clients.Keys == old(sim.clients.Keys)
      ensures Agree(a, Plain(old(sim.tree), call).0) && sim.tree == Plain(old(sim.tree), call).1
      ensures Connected() <==> !sim.cfg.cacheEnabled || CacheSafe(sim.cfg.capacity, old(sim.tree), call)
      ensures !Removal(call) ==> Kept(sim.cfg, old(sim.View()), sim.View())
      ensures Connected() ||
        Reading(Join(call.cs)).1 == if Removal(call) then old(Walk(sim.tree, ROOT, call.cs))
            else Some(old(sim.tree.next))
    {
      hide Booted, Valid, Usable, AllOk, AllRight, Kept, Walk, Join, Orderly, FetchAll, NamesOf;
      ghost var s0 := sim.View();
      match call {
        case Stat(cs) =>
          var r := StatPath(Join(cs), cs);
          a := Found(r);
        case MakeFile(cs) =>
          var ok := Mknod(Join(cs), cs);
          a := PlainFs.Done(ok);
        case MakeDir(cs) =>
          var ok := Mkdir(Join(cs), cs);
          a := PlainFs.Done(ok);
        case ReadFile(cs) =>
          var ok, out := Read(Join(cs), cs);
          a := Content(ok, out);
        case WriteFile(cs, data) =>
          var ok := Write(Join(cs), data, cs);
          a := PlainFs.Done(ok);
        case ListDir(cs) =>
          var ok, names := Lsdir(Join(cs), cs);
          a := Names(ok, names);
        case RemoveFile(cs) =>
          var ok := Rm(Join(cs), cs);
          a := PlainFs.Done(ok);
        case RemoveDir(cs) =>
          var ok := Rmdir(Join(cs), cs);
          a := PlainFs.Done(ok);
      }
      if !Removal(call) { KeptClients(sim.cfg, s0, sim.View()); }
    }
  }

  /** Which calls a client's next answer is right after: it makes any call, and then looks the path of that call up.
      The answer is what the tree holds there exactly when the cache is off or the call was safe. Otherwise it is the
      inode that has been removed, or the second one of its name. */
  method IssueThenStat(p: ClientProcess, call: Call) returns (a: Answer, again: Option<Ino>)
    requires p.Connected() && WellFormed(call)
    modifies p.sim
    ensures p.Attached() && Agree(a, Plain(old(p.sim.tree), call).0) && p.sim.tree == Plain(old(p.sim.tree), call).1
    ensures ROOT in p.sim.tree.nodes
    ensures again == Walk(p.sim.tree, ROOT, call.cs)
       <==> !p.sim.cfg.cacheEnabled || CacheSafe(p.sim.cfg.capacity, old(p.sim.tree), call)
    ensures again == Walk(p.sim.tree, ROOT, call.cs)
         || again == if Removal(call) then old(Walk(p.sim.tree, ROOT, call.cs)) else Some(old(p.sim.tree.next))
    ensures Removal(call) && a == PlainFs.Done(true) && call.cs != [] ==>
      (again == old(Walk(p.sim.tree, ROOT, call.cs)) <==> p.sim.cfg.cacheEnabled && |call.cs| < p.sim.cfg.capacity)
    ensures call.MakeFile? && old(Walk(p.sim.tree, ROOT, call.cs)).Some? ==>
      (again == Some(old(p.sim.tree.next)) <==> p.sim.cfg.cacheEnabled && |call.cs| < p.sim.cfg.capacity)
  {
    hide Booted, Valid, Usable, AllOk, AllRight, Kept, Walk, Join, Orderly, FetchAll, NamesOf, Agree, Plain, CacheSafe;
    ghost var t := p.sim.tree;
    a := p.Issue(call);
    UnsafeIsWrong(p.sim.cfg.capacity, t, call);
    p.Facts();
    again := p.StatPath(Join(call.cs), call.cs);
    StatPlain(p.sim.tree, call.cs);
    if Removal(call) { AgreeDone(a, Plain(t, call).0); }
  }

  /** What one client writes, any client reads, and no other path shows anything new. */
  method WriteThenRead(p: ClientProcess, q: ClientProcess, cs: seq<string>, data: string, ds: seq<string>)
    returns (ok: bool, found: bool, out: string)
    requires p.sim == q.sim && p.Connected() && q.Connected() && ValidNames(cs) && ValidNames(ds)
    modifies p.sim
    ensures p.Connected() && q.Connected()
    ensures ok == old(Look(p.sim.tree, cs)).Some?
    ensures ok && ds == cs ==> found && out == data
    ensures ds != cs || !ok ==>
      var v := old(Look(p.sim.tree, ds)); found == v.Some? && out == (if v == None then "" else v.value.content)
  {
    hide Booted, Valid, Usable, AllOk, AllRight, Kept, Join, Orderly, Plain, Look;
    ghost var s := p.sim.View();
    WriteLaw(s.tree, cs, data, ds);
    ok := p.Write(Join(cs), data, cs);
    KeptClients(p.sim.cfg, s, p.sim.View());
    p.Facts();
    ReadingLaw(p.sim.tree, ds);
    ghost var s1 := p.sim.View();
    found, out := q.Read(Join(ds), ds);
    KeptClients(p.sim.cfg, s1, p.sim.View());
  }

  /** A directory that one client makes is there for every client, empty, and in the listing of its parent; it can be
      made exactly when its parent exists and its name is free. */
  method MkdirThenLsdir(p: ClientProcess, q: ClientProcess, cs: seq<string>, ds: seq<string>)
    returns (ok: bool, found: bool, names: seq<string>)
    requires p.sim == q.sim && p.Connected() && q.Connected() && WellFormed(MakeDir(cs)) && ValidNames(ds)
    modifies p.sim
    ensures p.Connected() && q.Connected()
    ensures ok == (old(Look(p.sim.tree, Dir(cs))).Some? && old(Look(p.sim.tree, cs)) == None)
    ensures ok && ds == cs ==> found && names == []
    ensures !ok || ds != cs ==> found == Listable(old(Look(p.sim.tree, ds)))
    ensures found && (!ok || ds != cs) ==>
      multiset(names) == multiset(NamesIn(old(Look(p.sim.tree, ds))) + (if ok && ds == Dir(cs) then [Last(cs)] else []))
  {
    hide Booted, Valid, Usable, AllOk, AllRight, Kept, Join, Orderly, Plain, Look;
    ghost var s := p.sim.View();
    MakeDirLaw(s.tree, cs, ds);
    ok := p.Mkdir(Join(cs), cs);
    KeptClients(p.sim.cfg, s, p.sim.View());
    p.Facts();
    ReadingLaw(p.sim.tree, ds);
    ghost var s1 := p.sim.View();
    found, names := q.Lsdir(Join(ds), ds);
    KeptClients(p.sim.cfg, s1, p.sim.View());
    NoNamesAtAll(names);
  }

  predicate Listable(v: Option<View>) {
    v.Some? && v.value.isDir
  }

  lemma NoNamesAtAll(names: seq<string>)
    ensures multiset(names) == multiset([]) ==> names == []
  {
    if names != [] {
      assert names[0] in multiset(names);
    }
  }

  /** Transparency: any interleaving of calls by any clients gets the answers of the plain file system and leaves its
      tree, under every strategy, hash, placement of processes and cache capacity: all calls when the cache is off,
      and the safe ones when it is on. */
  method RunAll(sim: Cluster, procs: seq<ClientProcess>, calls: seq<Call>) returns (answers: seq<Answer>)
    requires |procs| == |calls| && forall p | p in procs :: p.sim == sim && p.Connected()
    requires sim.Running() && AllWellFormed(calls)
    requires (sim.cfg.cacheEnabled ==> CacheSafeRun(sim.cfg.capacity, sim.tree, calls))
    modifies sim
    ensures sim.Running() && (NoRemovals(calls) ==> Kept(sim.cfg, old(sim.View()), sim.View()))
    ensures AgreeAll(answers, PlainRun(old(sim.tree), calls).0) && sim.tree == PlainRun(old(sim.tree), calls).1
    decreases |calls|
  {
    hide Valid, Usable, Booted, AllOk, AllRight, Kept, Plain, WellFormed, CacheSafe, CacheSafeRun, PlainRun,
      AgreeAll, Agree, Orderly;
    ghost var s0 := sim.View();
    KeptReflexive(sim.cfg, s0);
    if calls == [] {
      EmptyRun(sim.tree);
      return [];
    }
    PlainRunUnfolds(sim.tree, calls);
    if sim.cfg.cacheEnabled { SafeRunUnfolds(sim.cfg.capacity, sim.tree, calls); }
    assert procs[0] in procs && calls[0] in calls && forall c | c in calls[1..] :: c in calls;
    var a := procs[0].Issue(calls[0]);
    ghost var s := sim.View();
    assert forall p | p in procs[1..] :: p in procs;
    var rest := RunAll(sim, procs[1..], calls[1..]);
    if NoRemovals(calls) {
      KeptTransitive(sim.cfg, s0, s, sim.View());
    }
    AgreeCons(a, Plain(s0.tree, calls[0]).0, rest, PlainRun(s.tree, calls[1..]).0);
    answers := [a] + rest;
  }
}
