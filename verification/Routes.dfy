/** ClientProcess::findroute: which server a client sends a request to first. */
module Routes {
  import opened Paths
  import opened Namespace
  import opened Topology
  import opened Placement

  function StripSlashes(path: string): string {
    if |path| > 1 && path[|path| - 1] == '/' then StripSlashes(path[..|path| - 1]) else path
  }

  /** A leading slash, and no trailing ones. */
  function Normal(path: string): string
    requires path != ""
  {
    StripSlashes(if path[0] == '/' then path else "/" + path)
  }

  lemma {:induction false} NormalOfJoin(cs: seq<string>)
    requires ValidNames(cs)
    ensures Join(cs) != "" && Join(cs)[0] == '/' && Normal(Join(cs)) == Join(cs)
  {
    if cs != [] {
      var last := cs[|cs| - 1];
      assert last in cs;
      AbsoluteStarts(cs);
      var p := Absolute(cs);
      assert p[|p| - 1] == last[|last| - 1];
      assert last[|last| - 1] in last;
    }
  }

  lemma {:induction false} AbsoluteStarts(cs: seq<string>)
    requires cs != []
    ensures Absolute(cs) != "" && Absolute(cs)[0] == '/'
  {
    if |cs| > 1 {
      AbsoluteStarts(cs[..|cs| - 1]);
    }
  }

  /** The first k characters are the whole path, or a proper prefix that ends just before a slash other than the
      first. */
  predicate Cut(path: string, k: nat) {
    k == |path| || (0 < k < |path| && path[k] == '/')
  }

  predicate Known(routes: map<string, Rank>, path: string, k: nat) {
    Cut(path, k) && path[..k] in routes
  }

  /** No longer cut is known. */
  ghost predicate Longest(routes: map<string, Rank>, path: string, k: nat) {
    Known(routes, path, k) && forall j: nat | Known(routes, path, j) :: j <= k
  }

  /** The rank of the longest known cut, else the entry for "/", else -1. */
  ghost predicate LongestPrefix(routes: map<string, Rank>, path: string, ret: Rank) {
    if exists k: nat :: Known(routes, path, k) then
      exists k: nat :: Longest(routes, path, k) && ret == routes[path[..k]]
    else if "/" in routes then ret == routes["/"]
    else ret == -1
  }

  method FindRoute(pl: Placer, t: Tree, routes: map<string, Rank>, fullpath: string) returns (ret: Rank, path: string)
    requires Valid(t) && Usable(pl.lut)
    ensures fullpath == "" ==> ret == -1 && path == ""
    ensures fullpath != "" ==> path == Normal(fullpath)
    ensures fullpath != "" && !pl.strategy.Subtree? ==> ret == Dispatch(pl, t, path)
    ensures fullpath != "" && pl.strategy.Subtree? ==> LongestPrefix(routes, path, ret)
  {
    hide Valid, Usable, Dispatch;
    if fullpath == "" {
      return -1, fullpath;
    }
    path := if fullpath[0] == '/' then fullpath else "/" + fullpath;
    while path[|path| - 1] == '/' && |path| > 1
      invariant path != "" && path[0] == '/' && StripSlashes(path) == Normal(fullpath)
      decreases |path|
    {
      path := path[..|path| - 1];
    }
    if pl.strategy.Hashing? || pl.strategy.Hybrid? {
      ret := Dispatch(pl, t, path);
      return;
    }
    ret := LongestKnown(routes, path);
  }

  method LongestKnown(routes: map<string, Rank>, path: string) returns (ret: Rank)
    requires path != "" && path[0] == '/'
    ensures LongestPrefix(routes, path, ret)
  {
    if path in routes {
      assert path[..|path|] == path;
      assert Known(routes, path, |path|);
      return routes[path];
    }
    var slashes := FindAll(path, "/");
    SlashIsMatch(path);
    assert MatchAt(path, "/", 0);
    assert 0 in slashes;
    SlashesPoint(path, slashes);
    var it := |slashes| - 1;
    while it > 0
      invariant 0 <= it < |slashes|
      invariant forall j | it < j < |slashes| :: path[..slashes[j]] !in routes
    {
      var subpath := path[..slashes[it]];
      if subpath in routes {
        assert slashes[0] < slashes[it] && Known(routes, path, slashes[it]);
        forall j: nat | Known(routes, path, j)
          ensures j <= slashes[it]
        {
          CutIsSlash(routes, path, slashes, j);
        }
        return routes[subpath];
      }
      it := it - 1;
    }
    forall j: nat
      ensures !Known(routes, path, j)
    {
      if Known(routes, path, j) {
        CutIsSlash(routes, path, slashes, j);
        assert false;
      }
    }
    ret := if "/" in routes then routes["/"] else -1;
  }

  lemma SlashIsMatch(path: string)
    ensures forall k: nat :: k < |path| && MatchAt(path, "/", k) <==> k < |path| && path[k] == '/'
  {
    forall k: nat | k < |path|
      ensures MatchAt(path, "/", k) <==> path[k] == '/'
    {
      assert path[k..k + 1] == [path[k]];
    }
  }

  lemma SlashesPoint(path: string, slashes: seq<nat>)
    requires forall k: nat :: k in slashes <==> k < |path| && MatchAt(path, "/", k)
    ensures forall j | 0 <= j < |slashes| :: slashes[j] < |path| && path[slashes[j]] == '/'
  {
    SlashIsMatch(path);
    forall j | 0 <= j < |slashes|
      ensures slashes[j] < |path| && path[slashes[j]] == '/'
    {
      assert slashes[j] in slashes;
    }
  }

  lemma CutIsSlash(routes: map<string, Rank>, path: string, slashes: seq<nat>, j: nat)
    requires Known(routes, path, j) && path !in routes
    requires forall k: nat :: k in slashes <==> k < |path| && MatchAt(path, "/", k)
    ensures 0 < j && j in slashes
  {
    assert path[..|path|] == path;
    SlashIsMatch(path);
  }
}
