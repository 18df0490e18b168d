/** What learned routes are good for: which server a client's request goes to first, and when that saves a forward. */
module RouteLaws {
  import opened Collections
  import opened Paths
  import opened Namespace
  import opened Topology
  import opened Placement
  import opened Protocol
  import opened Routes
  import opened CacheReads
  import opened ClientSpec

  /* ---------- Normalising ---------- */

  predicate OnlySlashes(s: string) {
    forall i | 0 <= i < |s| :: s[i] == '/'
  }

  /** Stripping takes off trailing slashes and nothing else, and all of them but a leading one. */
  lemma {:induction false} StripSlashesLaw(path: string)
    requires path != "" && path[0] == '/'
    ensures var s := StripSlashes(path);
      && s != "" && s <= path && OnlySlashes(path[|s|..])
      && (s == "/" || s[|s| - 1] != '/')
  {
    if |path| > 1 && path[|path| - 1] == '/' {
      var init := path[..|path| - 1];
      StripSlashesLaw(init);
      var s := StripSlashes(path);
      assert forall i | |s| <= i < |init| :: init[|s|..][i - |s|] == path[i];
    }
  }

  lemma {:induction false} TrailingSlashes(s: string, tail: string)
    requires s != "" && OnlySlashes(tail)
    ensures Tokens(s + tail) == Tokens(s)
  {
    if tail != "" {
      var init := tail[..|tail| - 1];
      TrailingSlashes(s, init);
      TokensConcat(s + init, "");
      assert s + tail == (s + init) + "/" + "";
    } else {
      assert s + tail == s;
    }
  }

  /** The normalised path starts with a slash, ends in none unless it is the root, and names what the path names,
      whatever string it was. */
  lemma NormalLaw(t: Tree, path: string)
    requires Valid(t) && path != ""
    ensures var p := Normal(path);
      && p != "" && p[0] == '/' && (p == "/" || p[|p| - 1] != '/') && Normal(p) == p
      && p <= Rooted(path) && OnlySlashes(Rooted(path)[|p|..])
      && Components(p) == Components(path) && Lookup(t, p) == Lookup(t, path)
  {
    hide Valid;
    var r, p := Rooted(path), Normal(path);
    StripSlashesLaw(r);
    TrailingSlashes(p, r[|p|..]);
    assert r == p + r[|p|..];
    assert path[0] != '/' ==> r[1..] == path;
  }

  /* ---------- The first server ---------- */

  /** There is only one longest learned cut. */
  lemma OneRoute(routes: map<string, Rank>, path: string, a: Rank, b: Rank)
    requires LongestPrefix(routes, path, a) && LongestPrefix(routes, path, b)
    ensures a == b
  {
    if exists k: nat :: Known(routes, path, k) {
      var k: nat :| Longest(routes, path, k) && a == routes[path[..k]];
      var l: nat :| Longest(routes, path, l) && b == routes[path[..l]];
      assert k == l;
    }
  }

  lemma OneFirst(cfg: Config, s: Shared, c: nat, fullpath: string, a: Rank, b: Rank)
    requires Valid(s.tree) && Usable(cfg.pl.lut) && c in s.clients && fullpath != ""
    requires RoutedTo(cfg, s, c, fullpath, a) && RoutedTo(cfg, s, c, fullpath, b)
    ensures a == b
  {
    hide Valid, Usable, Dispatch, LongestPrefix, Normal;
    var x :| Chosen(cfg, s, c, fullpath, x) && a == if x == -1 then 0 else x;
    var y :| Chosen(cfg, s, c, fullpath, y) && b == if y == -1 then 0 else y;
    if cfg.pl.strategy.Subtree? {
      OneRoute(s.clients[c].routetable, Normal(fullpath), x, y);
    }
  }

  lemma OwnerExecutes(cfg: Config, s: Shared, c: nat, first: Rank, req: Request, cs: seq<string>)
    requires Ready(cfg.pl) && Valid(s.tree) && Usable(cfg.pl.lut) && Serviceable(s.tree, req) && cfg.capacity >= 1
    requires c in s.clients && Existing(s.tree, req.fullpath, cs)
    ensures var owner := Dispatch(cfg.pl, s.tree, req.fullpath);
      && owner in cfg.pl.active
      && Route(cfg.pl, cfg.capacity, s, c, first, req)
         == Serve(cfg.pl, cfg.capacity, if first == owner then s else s.(delivered := s.delivered + 1), c, owner, req)
  {
    hide Valid, Usable, Ready, Serve, Dispatch, Join, Walk, Executor, Serviceable;
    ExecutorOwns(cfg, s.tree, first, req, cs);
  }

  /** What serving the request of client c for an existing path comes to: the owner executes it, and the one message
      more of a forward is saved exactly when the first server is the owner. */
  lemma ForwardedExactly(cfg: Config, s: Shared, c: nat, first: Rank, req: Request, cs: seq<string>)
    requires Ready(cfg.pl) && Valid(s.tree) && Usable(cfg.pl.lut) && Serviceable(s.tree, req) && cfg.capacity >= 1
    requires c in s.clients && Existing(s.tree, req.fullpath, cs)
    ensures var owner := Dispatch(cfg.pl, s.tree, req.fullpath);
      && owner in cfg.pl.active
      && Route(cfg.pl, cfg.capacity, s, c, first, req)
         == Serve(cfg.pl, cfg.capacity, if first == owner then s else s.(delivered := s.delivered + 1), c, owner, req)
      && Route(cfg.pl, cfg.capacity, s, c, first, req).delivered
         == Serve(cfg.pl, cfg.capacity, s, c, owner, req).delivered + (if first == owner then 0 else 1)
  {
    hide Valid, Usable, Ready, Serve, Route, Dispatch, Join, Walk, Executor, Serviceable;
    OwnerExecutes(cfg, s, c, first, req, cs);
    assert s == s.(delivered := s.delivered);
    ServeCosts(cfg.pl, cfg.capacity, s, s.delivered, c, Dispatch(cfg.pl, s.tree, req.fullpath), req);
    ServeCosts(cfg.pl, cfg.capacity, s, s.delivered + 1, c, Dispatch(cfg.pl, s.tree, req.fullpath), req);
  }

  lemma CutIsFirst(cfg: Config, s: Shared, c: nat, first: Rank, path: string, k: nat)
    requires Ready(cfg.pl) && Valid(s.tree) && Usable(cfg.pl.lut) && c in s.clients && ClientOk(cfg, s.clients[c])
    requires path != "" && Normal(path) == path && cfg.pl.strategy.Subtree? && RoutedTo(cfg, s, c, path, first)
    requires Longest(s.clients[c].routetable, path, k)
    ensures first == s.clients[c].routetable[path[..k]]
  {
    var routes := s.clients[c].routetable;
    NegativeInactive(cfg.pl);
    hide Valid, Usable, Ready, Dispatch, Normal;
    assert LongestPrefix(routes, path, routes[path[..k]]);
    assert Chosen(cfg, s, c, path, routes[path[..k]]);
    assert RoutedTo(cfg, s, c, path, routes[path[..k]]);
    OneFirst(cfg, s, c, path, first, routes[path[..k]]);
  }

  /** Under subtree the first server is the one of the longest learned cut, so the request is forwarded exactly when
      that cut carries another rank than the path's owner. */
  lemma AlongLongestCut(cfg: Config, s: Shared, c: nat, first: Rank, req: Request, cs: seq<string>, k: nat)
    requires Ready(cfg.pl) && Valid(s.tree) && Usable(cfg.pl.lut) && Serviceable(s.tree, req) && cfg.capacity >= 1
    requires c in s.clients && ClientOk(cfg, s.clients[c]) && Existing(s.tree, req.fullpath, cs)
    requires cfg.pl.strategy.Subtree? && req.fullpath != "" && RoutedTo(cfg, s, c, req.fullpath, first)
    requires Longest(s.clients[c].routetable, req.fullpath, k)
    ensures var carried := s.clients[c].routetable[req.fullpath[..k]];
      var owner := Dispatch(cfg.pl, s.tree, req.fullpath);
      && first == carried
      && Route(cfg.pl, cfg.capacity, s, c, first, req).delivered
         == Serve(cfg.pl, cfg.capacity, s, c, owner, req).delivered + (if carried == owner then 0 else 1)
  {
    hide Valid, Usable, Ready, Dispatch, Join, Serve, Route, Normal, Serviceable, RoutedTo, ClientOk, Walk;
    NormalOfJoin(cs);
    CutIsFirst(cfg, s, c, first, req.fullpath, k);
    ForwardedExactly(cfg, s, c, first, req, cs);
  }

  lemma NegativeInactive(pl: Placer)
    requires Ready(pl)
    ensures -1 !in pl.active
  {
    hide LutOf;
    assert -1 !in Interval(0, |pl.active|);
  }

  lemma ChildSpelling(cs: seq<string>, name: string)
    requires ValidNames(cs) && ValidName(name)
    ensures ValidNames(cs + [name]) && Join(cs + [name]) == Absolute(cs) + "/" + name
    ensures cs != [] ==> Join(cs) == Absolute(cs) && Absolute(cs) != ""
    ensures cs == [] ==> Join(cs) == "/" && Absolute(cs) == ""
  {
    assert (cs + [name])[..|cs|] == cs;
    if cs != [] { AbsoluteStarts(cs); }
  }

  /** The cut before the last name is the longest proper one. */
  lemma DirectoryCut(routes: map<string, Rank>, stem: string, name: string)
    requires '/' !in name && name != "" && stem + "/" + name !in routes
    ensures stem != "" && stem in routes ==> LongestPrefix(routes, stem + "/" + name, routes[stem])
    ensures stem == "" && "/" in routes ==> LongestPrefix(routes, stem + "/" + name, routes["/"])
  {
    var p := stem + "/" + name;
    assert forall j | |stem| < j < |p| :: p[j] == name[j - |stem| - 1];
    forall j: nat | Known(routes, p, j)
      ensures 0 < j <= |stem|
    {
      assert p[..|p|] == p;
    }
    assert p[..|stem|] == stem;
    if stem != "" && stem in routes { assert Known(routes, p, |stem|); }
  }

  lemma ChildOwner(pl: Placer, t: Tree, cs: seq<string>, name: string)
    requires Ready(pl) && Valid(t) && Usable(pl.lut) && pl.strategy.Subtree?
    requires ValidNames(cs) && ValidName(name) && DirAt(t, cs) && (|cs| >= 2 || !DirAt(t, cs + [name]))
    ensures Dispatch(pl, t, Join(cs + [name])) == Dispatch(pl, t, Join(cs))
  {
    var child := cs + [name];
    ChildSpelling(cs, name);
    assert child[..|child| - 1] == cs;
    SubtreeMeaning(t, pl.lut, Join(cs), cs);
    SubtreeMeaning(t, pl.lut, Join(child), child);
    if DirAt(t, child) {
      SubtreeLocal(t, pl.lut, Join(cs), cs, name);
    }
    hide Valid, Ready, Usable, SubtreeRank, Join, DirAt, ValidNames, ValidName;
  }

  /** A client that has learned the route of a directory goes straight to the owner of what is in it, without having
      asked about that before: of any file, and from depth two on of any directory too. */
  lemma RouteOfDirectoryServes(cfg: Config, s: Shared, c: nat, first: Rank, cs: seq<string>, name: string)
    requires Ready(cfg.pl) && Valid(s.tree) && Usable(cfg.pl.lut) && cfg.pl.strategy.Subtree?
    requires ValidNames(cs) && ValidName(name)
    requires Exact(cfg, s, c, cs) && DirAt(s.tree, cs) && (|cs| >= 2 || !DirAt(s.tree, cs + [name]))
    requires Join(cs + [name]) !in s.clients[c].routetable
    requires Join(cs + [name]) != "" && RoutedTo(cfg, s, c, Join(cs + [name]), first)
    ensures first == Dispatch(cfg.pl, s.tree, Join(cs + [name]))
  {
    var routes, path := s.clients[c].routetable, Join(cs + [name]);
    ChildOwner(cfg.pl, s.tree, cs, name);
    ChildSpelling(cs, name);
    NormalOfJoin(cs + [name]);
    DirectoryCut(routes, Absolute(cs), name);
    NegativeInactive(cfg.pl);
    RootLive(s.tree);
    DispatchExisting(cfg.pl, s.tree, Join(cs), cs);
    hide Valid, Ready, Usable, Dispatch, Join, Normal, DirAt, LongestPrefix;
    assert Chosen(cfg, s, c, path, routes[Join(cs)]);
    assert RoutedTo(cfg, s, c, path, routes[Join(cs)]);
    OneFirst(cfg, s, c, path, first, routes[Join(cs)]);
  }
}
