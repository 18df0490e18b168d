/** Each distributed operation against its plain counterpart. */
module Transparency {
  import opened Collections
  import opened Paths
  import opened Namespace
  import opened Topology
  import opened Placement
  import opened Gather
  import opened Protocol
  import opened Coherence
  import opened ClientSpec
  import opened PlainFs

  lemma JoinDirname(cs: seq<string>)
    requires ValidNames(cs) && cs != []
    ensures HasName(Join(cs)) && DirOf(Join(cs)) == Join(cs[..|cs| - 1]) && BaseOf(Join(cs)) == cs[|cs| - 1]
    ensures ValidNames(cs[..|cs| - 1])
  {
    var init, last := cs[..|cs| - 1], cs[|cs| - 1];
    assert last in cs && forall c | c in init :: c in cs;
    CutName(Join(cs), Absolute(init), last);
    if init != [] {
      Routes.AbsoluteStarts(init);
    }
  }

  function Call2Op(call: Call): Op {
    match call
    case Stat(_) => LOOKUP
    case MakeFile(_) => CREATE
    case MakeDir(_) => MKDIR
    case ReadFile(_) => READ
    case WriteFile(_, _) => WRITE
    case ListDir(_) => LISTDIR
    case RemoveFile(_) => RM
    case RemoveDir(_) => RMDIR
  }

  /** What creating, reading, writing and removing do at any server is what they do on the plain file system. */
  lemma PerformIsPlain(pl: Placer, t: Tree, me: Rank, req: Request, call: Call)
    requires Valid(t) && Usable(pl.lut) && WellFormed(call) && req.op == Call2Op(call) && req.inode.Some?
    requires (call.MakeFile? || call.MakeDir?) ==>
        req.path == call.cs[|call.cs| - 1] && Walk(t, ROOT, call.cs[..|call.cs| - 1]) == req.inode
    requires (call.ReadFile? || call.WriteFile? || Removal(call)) ==> Walk(t, ROOT, call.cs) == req.inode
    requires call.WriteFile? ==> req.data == call.data
    requires !call.Stat? && !call.ListDir?
    ensures req.inode.value in t.nodes
    ensures var o, p := Perform(pl, t, me, req), Plain(t, call);
      && o.tree == p.1
      && p.0 == if call.ReadFile? then Content(o.ok, o.reply.data) else PlainFs.Done(o.ok)
  {
    hide Valid, Usable, NamesOf, Mknod, Mkdir, Write, Remove, OwnWork, PeerWork, PeerMessages, Walk;
    RootLive(t);
  }

  /* ---------- Listings ---------- */

  lemma KidRanksFound(cfg: Config, t: Tree, req: Request, cs: seq<string>)
    requires Ready(cfg.pl) && Usable(cfg.pl.lut) && Valid(t) && NamesValid(t) && Existing(t, req.fullpath, cs)
    requires !req.op.LOOKUP? && req.inode == Walk(t, ROOT, cs)
    ensures -1 !in KidRanks(cfg.pl, t, req)
  {
    hide Ready, Usable, Dispatch, Join;
    var ranks, i := KidRanks(cfg.pl, t, req), req.inode.value;
    var kids := t.nodes[i].entries;
    ChildrenLive(t, i);
    forall k | 0 <= k < |ranks|
      ensures ranks[k] != -1
    {
      ChildOwned(cfg, t, cs, i, kids[k]);
    }
  }

  /** Every entry of an existing directory has an owner, under every strategy. */
  lemma ChildOwned(cfg: Config, t: Tree, cs: seq<string>, i: Ino, kid: Ino)
    requires Ready(cfg.pl) && Usable(cfg.pl.lut) && Valid(t) && NamesValid(t) && ValidNames(cs)
    requires Walk(t, ROOT, cs) == Some(i)
    requires kid in t.nodes[i].entries && kid in t.nodes
    ensures Dispatch(cfg.pl, t, Join(cs) + "/" + t.nodes[kid].name) in cfg.pl.active
    ensures Dispatch(cfg.pl, t, Join(cs) + "/" + t.nodes[kid].name) != -1
  {
    hide Ready, Usable, Dispatch, Join;
    var name := t.nodes[kid].name;
    KidNamed(t, i, kid);
    SpellsChild(Join(cs), cs, name);
    StepFinds(t, i, kid);
    WalkConcat(t, ROOT, cs, [name]);
    assert [name][1..] == [] && [name][0] == name;
    DispatchExisting(cfg.pl, t, Join(cs) + "/" + name, cs + [name]);
    ActiveNonNegative(cfg.pl, -1);
  }

  lemma ActiveNonNegative(pl: Placer, r: Rank)
    requires Ready(pl) && r < 0
    ensures r !in pl.active
  {
    hide LutOf, Usable;
    assert r !in Interval(0, |pl.active|);
  }

  lemma KidNamed(t: Tree, i: Ino, kid: Ino)
    requires Valid(t) && NamesValid(t) && i in t.nodes && kid in t.nodes[i].entries && kid in t.nodes
    ensures ValidName(t.nodes[kid].name)
  {
    assert ValidEntries(t, i, t.nodes[i].entries);
  }

  lemma StepFinds(t: Tree, i: Ino, kid: Ino)
    requires Valid(t) && i in t.nodes && kid in t.nodes[i].entries && kid in t.nodes
    ensures Step(t, i, t.nodes[kid].name).Some?
  {
    assert ValidEntries(t, i, t.nodes[i].entries);
  }

  /** A listing gathered for an existing canonical directory is a permutation of its entries, under every strategy and
      wherever the request went first. */
  lemma ListingComplete(cfg: Config, t: Tree, first: Rank, req: Request, cs: seq<string>)
    requires Ready(cfg.pl) && Usable(cfg.pl.lut) && Valid(t) && NamesValid(t) && Existing(t, req.fullpath, cs)
    requires req.op.LISTDIR? && req.inode == Walk(t, ROOT, cs)
    ensures var o := Perform(cfg.pl, t, Executor(cfg.pl, t, first, req), req);
      var i := req.inode.value;
      && o.ok == t.nodes[i].isDir && o.tree == t
      && (o.ok ==> multiset(o.reply.inodes) == multiset(t.nodes[i].entries))
  {
    hide Ready, Usable, Valid, Dispatch, Join, KidRanks, OwnWork, PeerWork, PeerMessages, Listing;
    var me := Executor(cfg.pl, t, first, req);
    ExecutorOwns(cfg, t, first, req, cs);
    ActiveNonNegative(cfg.pl, -1);
    KidRanksFound(cfg, t, req, cs);
    ListingIsDirectory(t.nodes[req.inode.value].entries, KidRanks(cfg.pl, t, req), me,
        Dispatch(cfg.pl, t, req.fullpath));
  }

  /** Listing or removing an existing directory makes the servers that take part count its entries once each, under
      every strategy and wherever the request went first. */
  lemma WorkIsDirectory(cfg: Config, t: Tree, first: Rank, req: Request, cs: seq<string>)
    requires Ready(cfg.pl) && Usable(cfg.pl.lut) && Valid(t) && NamesValid(t) && Existing(t, req.fullpath, cs)
    requires DirAt(t, cs)
    requires (req.op.LISTDIR? || req.op.RMDIR?) && req.inode == Walk(t, ROOT, cs)
    ensures Sum(Perform(cfg.pl, t, Executor(cfg.pl, t, first, req), req).work) == |t.nodes[req.inode.value].entries|
  {
    hide Ready, Usable, Valid, Dispatch, Join, KidRanks, Remove, Listing, Own, Counts, Others, NamesValid;
    var me := Executor(cfg.pl, t, first, req);
    ExecutorOwns(cfg, t, first, req, cs);
    ActiveNonNegative(cfg.pl, -1);
    KidRanksFound(cfg, t, req, cs);
    WorkAddsUp(t.nodes[req.inode.value].entries, KidRanks(cfg.pl, t, req), me);
    var work := PeerWork(cfg.pl, t, me, req);
    SumEnds(work, OwnWork(cfg.pl, t, me, req));
  }

  lemma {:induction false} SumEnds(ns: seq<nat>, n: nat)
    ensures Sum([n] + ns) == n + Sum(ns) && Sum(ns + [n]) == n + Sum(ns)
  {
    assert (ns + [n])[..|ns|] == ns;
    if ns == [] {
      assert [n] + ns == ns + [n] == [n];
    } else {
      var init := ns[..|ns| - 1];
      assert ([n] + ns)[..|ns|] == [n] + init;
      SumEnds(init, n);
    }
  }

  /** Under subtree, listing or removing a directory at depth two or more stays on one server: nobody is asked, and
      that server counts every entry itself. */
  lemma DeepDirectoryIsLocal(cfg: Config, t: Tree, first: Rank, req: Request, cs: seq<string>)
    requires Ready(cfg.pl) && Usable(cfg.pl.lut) && Valid(t) && NamesValid(t) && Existing(t, req.fullpath, cs)
    requires cfg.pl.strategy.Subtree? && |cs| >= 2 && DirAt(t, cs)
    requires (req.op.LISTDIR? || req.op.RMDIR?) && req.inode == Walk(t, ROOT, cs)
    ensures var o := Perform(cfg.pl, t, Executor(cfg.pl, t, first, req), req);
      o.ok && o.messages == 0 && o.work == [|t.nodes[req.inode.value].entries|]
  {
    hide Ready, Usable, Valid, Join, SubtreeRank, Remove, Listing, NamesValid, Own;
    var me, i := Executor(cfg.pl, t, first, req), req.inode.value;
    ExecutorOwns(cfg, t, first, req, cs);
    ChildrenLive(t, i);
    var ranks, kids := KidRanks(cfg.pl, t, req), t.nodes[i].entries;
    forall k | 0 <= k < |ranks|
      ensures ranks[k] == me
    {
      KidNamed(t, i, kids[k]);
      SubtreeLocal(t, cfg.pl.lut, req.fullpath, cs, t.nodes[kids[k]].name);
    }
    NobodyElse(ranks, me);
    OwnCount(kids, ranks, me);
  }

  lemma {:induction false} NobodyElse(ranks: seq<Rank>, me: Rank)
    requires forall k | 0 <= k < |ranks| :: ranks[k] == me
    ensures Others(ranks, me) == []
  {
    if ranks != [] {
      NobodyElse(ranks[..|ranks| - 1], me);
    }
  }

  lemma {:induction false} NamesConcat(t: Tree, a: seq<Ino>, b: seq<Ino>)
    requires (forall e | e in a :: e in t.nodes) && (forall e | e in b :: e in t.nodes)
    ensures forall e | e in a + b :: e in t.nodes
    ensures NamesOf(t, a + b) == NamesOf(t, a) + NamesOf(t, b)
    decreases |b|
  {
    if b == [] {
      assert a + b == a;
    } else {
      var init := b[..|b| - 1];
      assert forall e | e in init :: e in b;
      assert (a + b)[..|a + b| - 1] == a + init;
      NamesConcat(t, a, init);
    }
  }

  /** Permuting the entries permutes the names. */
  lemma {:induction false} NamesPermute(t: Tree, a: seq<Ino>, b: seq<Ino>)
    requires multiset(a) == multiset(b) && forall e | e in b :: e in t.nodes
    ensures forall e | e in a :: e in t.nodes
    ensures multiset(NamesOf(t, a)) == multiset(NamesOf(t, b))
    decreases |a|
  {
    forall e | e in a
      ensures e in t.nodes
    {
      assert e in multiset(a);
    }
    if a == [] {
      assert |multiset(b)| == |b|;
    } else {
      var init, last := a[..|a| - 1], a[|a| - 1];
      var l, r := Around(a, b);
      TakeOut(init, last, l, r);
      NamesPermute(t, init, l + r);
      NamesAround(t, l, last, r);
    }
  }

  /** The last of a, somewhere in b. */
  lemma Around(a: seq<Ino>, b: seq<Ino>) returns (l: seq<Ino>, r: seq<Ino>)
    requires a != [] && multiset(a) == multiset(b)
    ensures a == a[..|a| - 1] + [a[|a| - 1]] && b == l + [a[|a| - 1]] + r
    ensures forall e | e in l + r :: e in b
  {
    var last := a[|a| - 1];
    assert last in a && last in multiset(b);
    var j :| 0 <= j < |b| && b[j] == last;
    l, r := b[..j], b[j + 1..];
  }

  lemma TakeOut<T>(init: seq<T>, last: T, l: seq<T>, r: seq<T>)
    requires multiset(init + [last]) == multiset(l + [last] + r)
    ensures multiset(init) == multiset(l + r)
  {
    assert multiset(init) == multiset(init + [last]) - multiset{last};
    assert multiset(l + r) == multiset(l + [last] + r) - multiset{last};
  }

  lemma NamesAround(t: Tree, l: seq<Ino>, e: Ino, r: seq<Ino>)
    requires forall x | x in l + [e] + r :: x in t.nodes
    ensures forall x | x in l + r :: x in t.nodes
    ensures multiset(NamesOf(t, l + [e] + r)) == multiset(NamesOf(t, l + r)) + multiset{t.nodes[e].name}
  {
    assert forall x | x in l :: x in l + [e] + r;
    assert forall x | x in r :: x in l + [e] + r;
    assert e in l + [e] + r;
    NamesConcat(t, l, r);
    NamesConcat(t, l, [e]);
    NamesConcat(t, l + [e], r);
    assert [e][..0] == [];
  }

  /** The client's callback list after a listing has come back. */
  lemma ListingArrived(cfg: Config, s: Shared, c: nat, first: Rank, req: Request, cs: seq<string>)
    requires Booted(cfg) && Usable(cfg.pl.lut) && cfg.capacity >= 1 && Valid(s.tree) && AllOk(cfg, s) && c in s.clients
    requires Existing(s.tree, req.fullpath, cs) && req.op.LISTDIR? && req.inode == Walk(s.tree, ROOT, cs)
    ensures req.inode.Some? && req.inode.value in s.tree.nodes
    ensures var p := Prepared(s, c);
      var after := Route(cfg.pl, cfg.capacity, p.(delivered := p.delivered + 1), c, first, req);
      var dir := s.tree.nodes[req.inode.value];
      && after.tree == s.tree && c in after.clients
      && Perform(cfg.pl, s.tree, Executor(cfg.pl, s.tree, first, req), req).ok == dir.isDir
      && (dir.isDir ==> multiset(after.clients[c].callbackInolist) == multiset(dir.entries))
  {
    hide Booted, Ready, Usable, Valid, Dispatch, Join, Route, Perform, Executor, Absorb, AllOk;
    RootLive(s.tree);
    var p := Prepared(s, c);
    BootedReady(cfg);
    NamesAreValid(cfg, s);
    RouteResult(cfg.pl, cfg.capacity, p.(delivered := p.delivered + 1), c, first, req);
    ListingComplete(cfg, s.tree, first, req, cs);
    AbsorbFields(p.clients[c], cfg.capacity, Perform(cfg.pl, s.tree, Executor(cfg.pl, s.tree, first, req), req).reply);
  }

  /** Names of a permutation of a directory's entries are a right answer to a listing. */
  lemma ListingAnswers(t: Tree, cs: seq<string>, i: Ino, list: seq<Ino>)
    requires Valid(t) && ValidNames(cs) && Walk(t, ROOT, cs) == Some(i)
    ensures i in t.nodes
    ensures !t.nodes[i].isDir ==> Agree(Names(false, []), Plain(t, ListDir(cs)).0)
    ensures t.nodes[i].isDir && multiset(list) == multiset(t.nodes[i].entries) ==>
      (forall e | e in list :: e in t.nodes) && Agree(Names(true, NamesOf(t, list)), Plain(t, ListDir(cs)).0)
  {
    hide Valid, NamesOf;
    RootLive(t);
    ListPlain(t, cs, i);
    if multiset(list) == multiset(t.nodes[i].entries) {
      NamesPermute(t, list, t.nodes[i].entries);
    }
  }

  /* ---------- Small steps of the client's proofs ---------- */

  lemma NoParent(t: Tree, cs: seq<string>)
    requires Valid(t) && ValidNames(cs) && cs != []
    ensures Walk(t, ROOT, cs[..|cs| - 1]) == None ==>
      Plain(t, MakeFile(cs)) == (PlainFs.Done(false), t) && Plain(t, MakeDir(cs)) == (PlainFs.Done(false), t)
  {
    hide Valid;
    RootLive(t);
  }

  lemma NoParentNoChild(t: Tree, cs: seq<string>)
    requires Valid(t) && cs != []
    ensures ROOT in t.nodes
    ensures Walk(t, ROOT, cs).Some? ==> Walk(t, ROOT, cs[..|cs| - 1]).Some?
  {
    hide Valid, Step;
    RootLive(t);
    assert cs == cs[..|cs| - 1] + [cs[|cs| - 1]];
    WalkConcat(t, ROOT, cs[..|cs| - 1], [cs[|cs| - 1]]);
  }

  lemma CreateSucceeds(pl: Placer, t: Tree, me: Rank, req: Request, cs: seq<string>)
    requires Valid(t) && Usable(pl.lut) && Serviceable(t, req) && req.op.CREATE?
    requires ValidNames(cs) && cs != [] && req.path == cs[|cs| - 1]
    ensures var o := Perform(pl, t, me, req); o.ok && (Some(t.next), o.tree) == Mknod(t, req.inode.value, req.path)
  {
    hide Valid, Usable, AddSub;
    assert cs[|cs| - 1] in cs;
  }

  lemma NothingThere(t: Tree, cs: seq<string>, data: string)
    requires Valid(t) && ValidNames(cs)
    ensures Walk(t, ROOT, cs) == None ==>
      && Plain(t, ReadFile(cs)) == (Content(false, ""), t)
      && Plain(t, WriteFile(cs, data)) == (PlainFs.Done(false), t)
      && Plain(t, ListDir(cs)) == (Names(false, []), t)
      && Plain(t, RemoveFile(cs)) == (PlainFs.Done(false), t) && Plain(t, RemoveDir(cs)) == (PlainFs.Done(false), t)
  {
    hide Valid;
    RootLive(t);
  }

  lemma NotADirectory(t: Tree, cs: seq<string>)
    requires Valid(t) && ValidNames(cs)
    ensures ROOT in t.nodes
    ensures Walk(t, ROOT, cs).Some? && !t.nodes[Walk(t, ROOT, cs).value].isDir ==>
      Plain(t, RemoveDir(cs)) == (PlainFs.Done(false), t)
  {
    hide Valid;
    RootLive(t);
  }

  lemma RemovalDone(t: Tree, call: Call)
    requires Valid(t) && WellFormed(call) && Removal(call) && ROOT in t.nodes && Walk(t, ROOT, call.cs).Some?
    requires call.RemoveDir? ==> t.nodes[Walk(t, ROOT, call.cs).value].isDir
    ensures Plain(t, call).0 == PlainFs.Done(true)
  {
    hide Valid, Remove;
  }

  lemma StatPlain(t: Tree, cs: seq<string>)
    requires Valid(t) && ValidNames(cs)
    ensures ROOT in t.nodes && Plain(t, Stat(cs)) == (Found(Walk(t, ROOT, cs)), t)
  {
    hide Valid;
    RootLive(t);
  }

  lemma AgreeDone(a: Answer, b: Answer)
    ensures Agree(a, b) && a.Done? ==> a == b
  {
  }

  /** After an unsafe call its path does not name what the call's own client has cached. */
  lemma UnsafeIsWrong(capacity: int, t: Tree, call: Call)
    requires Valid(t) && WellFormed(call)
    ensures ROOT in t.nodes && Valid(Plain(t, call).1) && ROOT in Plain(t, call).1.nodes
    ensures Removal(call) && Plain(t, call).0 == PlainFs.Done(true) && call.cs != [] ==>
      && Walk(Plain(t, call).1, ROOT, call.cs) != Walk(t, ROOT, call.cs)
      && (CacheSafe(capacity, t, call) <==> |call.cs| >= capacity)
    ensures call.MakeFile? && Walk(t, ROOT, call.cs).Some? ==>
      && Walk(Plain(t, call).1, ROOT, call.cs) != Some(t.next)
      && (CacheSafe(capacity, t, call) <==> |call.cs| >= capacity)
    ensures !CacheSafe(capacity, t, call) ==>
      Walk(Plain(t, call).1, ROOT, call.cs) != if Removal(call) then Walk(t, ROOT, call.cs) else Some(t.next)
    ensures !CacheSafe(capacity, t, call) && Removal(call) ==> Plain(t, call).0 == PlainFs.Done(true)
  {
    hide Valid, Grows, Walk, Remove, AddSub, Step, Join, NamesOf, OnlyOfItsName, Write, Mkdir, ValidNames;
    PlainGrows(t, call);
    RootLive(t);
    RootLive(Plain(t, call).1);
    if call.cs != [] && Walk(t, ROOT, call.cs).Some? {
      PathMoved(t, call.cs);
      NameMade(call.cs);
    }
  }

  lemma NameMade(cs: seq<string>)
    requires ValidNames(cs) && cs != []
    ensures FilenameValid(cs[|cs| - 1])
  {
    assert cs[|cs| - 1] in cs;
  }

  /** After a removal or a second mknod the path no longer names the removed inode, or not yet the second. */
  lemma PathMoved(t: Tree, cs: seq<string>)
    requires Valid(t) && ValidNames(cs) && cs != [] && ROOT in t.nodes && Walk(t, ROOT, cs).Some?
    ensures Walk(t, ROOT, cs[..|cs| - 1]).Some?
    ensures var u := Remove(t, Walk(t, ROOT, cs).value);
      Valid(u) && ROOT in u.nodes && Walk(u, ROOT, cs) != Walk(t, ROOT, cs)
    ensures var u := AddSub(t, Walk(t, ROOT, cs[..|cs| - 1]).value, cs[|cs| - 1], false);
      Valid(u) && ROOT in u.nodes && Walk(u, ROOT, cs) != Some(t.next)
  {
    hide Valid, Grows, Remove, AddSub, Step, Join, OnlyOfItsName, ValidNames;
    NoParentNoChild(t, cs);
    RemovedIsGone(t, cs);
    CreatedAt(t, cs, false);
    SpellsComponents(Join(cs), cs);
    RootLive(Remove(t, Walk(t, ROOT, cs).value));
    RootLive(AddSub(t, Walk(t, ROOT, cs[..|cs| - 1]).value, cs[|cs| - 1], false));
  }

  lemma NothingListed(t: Tree, cs: seq<string>)
    requires Valid(t) && ValidNames(cs)
    ensures Walk(t, ROOT, cs) == None ==> Agree(Names(false, []), Plain(t, ListDir(cs)).0)
  {
    NothingThere(t, cs, "");
  }

  lemma ListPlain(t: Tree, cs: seq<string>, i: Ino)
    requires Valid(t) && ValidNames(cs) && Walk(t, ROOT, cs) == Some(i)
    ensures i in t.nodes && forall e | e in t.nodes[i].entries :: e in t.nodes
    ensures Plain(t, ListDir(cs))
        == (if t.nodes[i].isDir then Names(true, NamesOf(t, t.nodes[i].entries)) else Names(false, []), t)
  {
    hide Valid, NamesOf;
    RootLive(t);
    ChildrenLive(t, i);
  }

  lemma ProperCreation(t: Tree, req: Request, cs: seq<string>)
    requires Valid(t) && ValidNames(cs) && cs != [] && req.fullpath == Join(cs) && req.path == cs[|cs| - 1]
    requires req.inode.Some? && Walk(t, ROOT, cs[..|cs| - 1]) == req.inode
    requires req.op.MKDIR? || req.op.CREATE?
    ensures Proper(t, req, cs) && Serviceable(t, req)
  {
    hide Valid, Join;
    RootLive(t);
  }

  lemma ReadSucceeds(pl: Placer, t: Tree, me: Rank, req: Request)
    requires Valid(t) && Usable(pl.lut) && Serviceable(t, req) && req.op.READ?
    ensures Perform(pl, t, me, req).ok
  {
    hide Valid, Usable;
  }

  lemma AbsorbFields(cs: ClientState, capacity: int, r: Reply)
    requires capacity >= 1
    ensures Absorb(cs, capacity, r).callbackData == r.data
    ensures Absorb(cs, capacity, r).callbackInolist == cs.callbackInolist + r.inodes
    ensures cs.callbackInolist == [] ==> Absorb(cs, capacity, r).callbackInolist == r.inodes
  {
  }

  lemma NamesAreValid(cfg: Config, s: Shared)
    requires Valid(s.tree) && AllOk(cfg, s)
    ensures NamesValid(s.tree)
  {
    hide Valid, ClientOk;
  }

  lemma EmptyRun(t: Tree)
    requires Valid(t)
    ensures PlainRun(t, []) == ([], t) && AgreeAll([], [])
  {
  }

  lemma KeptClients(cfg: Config, s: Shared, s': Shared)
    requires Valid(s.tree) && Valid(s'.tree) && Usable(cfg.pl.lut) && Kept(cfg, s, s')
    ensures s'.clients.Keys == s.clients.Keys
  {
    hide Valid, Usable, Grows, KeepsRoutes;
  }
}
