/** What a client's lookup reads from its cache: which keys, in which order, and which of them can be hits at all. */
module CacheReads {
  import opened Collections
  import opened Paths
  import opened Namespace
  import L = LruSpec

  type Cache = seq<L.Entry<string, Ino>>

  /* ---------- The keys a lookup reads ---------- */

  function Rooted(path: string): string
    requires path != ""
  {
    if path[0] == '/' then path else "/" + path
  }

  /** The prefixes of p that end before one of its slashes in 1 .. n - 1, shortest first. */
  function Cuts(p: string, n: nat): seq<string>
    requires n <= |p|
  {
    if n <= 1 then []
    else if p[n - 1] == '/' then Cuts(p, n - 1) + [p[..n - 1]]
    else Cuts(p, n - 1)
  }

  lemma {:induction false} CutsFacts(p: string, n: nat)
    requires n <= |p|
    ensures forall x :: x in Cuts(p, n) <==> CutOf(p, n, x)
  {
    if n > 1 {
      CutsFacts(p, n - 1);
      assert p[n - 1] == '/' ==> CutOf(p, n, p[..n - 1]);
      assert forall x :: CutOf(p, n, x) <==> CutOf(p, n - 1, x) || (p[n - 1] == '/' && x == p[..n - 1]);
    }
  }

  ghost predicate CutOf(p: string, n: nat, x: string) {
    0 < |x| < n <= |p| && p[|x|] == '/' && x == p[..|x|]
  }

  /** In order: the root, each cut, and p itself. */
  function KeysRead(p: string): seq<string>
    requires p != ""
  {
    ["/"] + Cuts(p, |p|) + [p]
  }

  /** The shortest cut comes first; between the root and the path itself come exactly the cuts. */
  lemma KeysInOrder(p: string)
    requires p != ""
    ensures var keys, m := KeysRead(p), |KeysRead(p)| - 1;
      && m >= 1 && keys[0] == "/" && keys[m] == p
      && (forall x :: x in keys[1..m] <==> CutOf(p, |p|, x))
      && (forall i, j | 1 <= i < j <= m :: keys[i] < keys[j])
  {
    CutsFacts(p, |p|);
    CutsAscend(p, |p|);
    var cuts := Cuts(p, |p|);
    assert KeysRead(p)[1..|cuts| + 1] == cuts;
    forall i | 0 <= i < |cuts|
      ensures cuts[i] < p
    {
      assert cuts[i] in cuts && CutOf(p, |p|, cuts[i]);
    }
  }

  lemma {:induction false} CutsAscend(p: string, n: nat)
    requires n <= |p|
    ensures forall i, j | 0 <= i < j < |Cuts(p, n)| :: Cuts(p, n)[i] < Cuts(p, n)[j]
  {
    if n > 1 {
      CutsAscend(p, n - 1);
      var before := Cuts(p, n - 1);
      CutsFacts(p, n - 1);
      forall i | 0 <= i < |before|
        ensures before[i] < p[..n - 1]
      {
        assert before[i] in before && CutOf(p, n - 1, before[i]);
      }
    }
  }

  function Elems(keys: seq<string>): (s: set<string>)
    ensures forall x :: x in s <==> x in keys
  {
    set x | x in keys :: x
  }

  /** The keys read before k in any lookup that gets as far as k. */
  function Before(k: string): (s: set<string>)
    ensures forall x :: x in s <==> x != k && (x == "/" || CutOf(k, |k|, x))
  {
    CutsFacts(k, |k|);
    ({"/"} + Elems(Cuts(k, |k|))) - {k}
  }

  /** Each key comes after all that any lookup reads before it; only the root may come twice. */
  ghost predicate Chain(keys: seq<string>) {
    forall j | 0 <= j < |keys| :: Follows(keys[..j], keys[j])
  }

  ghost predicate Follows(earlier: seq<string>, k: string) {
    Before(k) <= Elems(earlier) && (k == "/" || k !in earlier)
  }

  lemma ChainSnoc(keys: seq<string>, k: string)
    requires Chain(keys) && Follows(keys, k)
    ensures Chain(keys + [k])
  {
    var all := keys + [k];
    forall j | 0 <= j < |all|
      ensures Follows(all[..j], all[j])
    {
      assert all[..j] == keys[..j];
    }
  }

  lemma ChainInit(keys: seq<string>)
    requires Chain(keys) && keys != []
    ensures Chain(keys[..|keys| - 1]) && Follows(keys[..|keys| - 1], keys[|keys| - 1])
  {
    var init := keys[..|keys| - 1];
    forall j | 0 <= j < |init|
      ensures Follows(init[..j], init[j])
    {
      assert init[..j] == keys[..j];
    }
  }

  lemma RootChain()
    ensures Chain(["/"])
  {
    assert Follows([], "/");
    assert ["/"][..0] == [];
  }

  lemma {:induction false} CutsChain(p: string, n: nat)
    requires p != "" && p[0] == '/' && 1 <= n <= |p|
    ensures Chain(["/"] + Cuts(p, n))
  {
    hide Chain, Follows, Before, CutOf;
    if n == 1 {
      RootChain();
      assert ["/"] + [] == ["/"];
    } else {
      CutsChain(p, n - 1);
      if p[n - 1] == '/' {
        CutFollows(p, n - 1);
        ChainSnoc(["/"] + Cuts(p, n - 1), p[..n - 1]);
        assert ["/"] + Cuts(p, n) == ["/"] + Cuts(p, n - 1) + [p[..n - 1]];
      }
    }
  }

  lemma CutFollows(p: string, n: nat)
    requires p != "" && p[0] == '/' && 1 <= n <= |p|
    ensures Follows(["/"] + Cuts(p, n), p[..n])
  {
    CutsFacts(p, n);
    var k := p[..n];
    forall x | x in Before(k)
      ensures x in ["/"] + Cuts(p, n)
    {
      assert x != "/" ==> CutOf(p, n, x);
    }
    if n == 1 {
      assert k == "/";
    }
  }

  lemma KeysChain(p: string)
    requires p != "" && p[0] == '/'
    ensures Chain(KeysRead(p))
    ensures Elems(KeysRead(p)) == Before(p) + {p}
  {
    CutsFacts(p, |p|);
    CutsChain(p, |p|);
    CutFollows(p, |p|);
    assert p[..|p|] == p;
    ChainSnoc(["/"] + Cuts(p, |p|), p);
  }

  /* ---------- Depth ---------- */

  lemma BeforeChild(p: string, q: string)
    requires p != "" && '/' !in q
    ensures Before(p + "/" + q) == Before(p) + {p} && p !in Before(p)
  {
    var k := p + "/" + q;
    forall x
      ensures CutOf(k, |k|, x) <==> CutOf(p, |p|, x) || x == p
    {
      assert k[..|p|] == p && k[|p|] == '/';
      assert 0 < |x| < |p| ==> k[..|x|] == p[..|x|] && k[|x|] == p[|x|];
      assert |p| < |x| < |k| ==> k[|x|] == q[|x| - |p| - 1];
    }
  }

  lemma BeforeTop(q: string)
    requires '/' !in q
    ensures Before("/" + q) == if q == "" then {} else {"/"}
    ensures q != "" ==> Before(q) == {"/"}
  {
    var k := "/" + q;
    assert forall i | 0 < i < |k| :: k[i] == q[i - 1];
    assert forall x :: !CutOf(k, |k|, x);
    assert forall x :: !CutOf(q, |q|, x);
  }

  /** Whatever the string, it has at most as many components as keys are read before it. */
  lemma {:induction false} ComponentsBound(k: string)
    ensures |Components(k)| <= |Before(k)|
    decreases |k|
  {
    var j := LastSlash(k);
    var q := k[j + 1..];
    assert '/' !in q;
    FewTokens(q);
    if j > 0 {
      var p := k[..j];
      assert k == p + "/" + q;
      ComponentsBound(p);
      BeforeChild(p, q);
      ComponentsConcat(p, q);
      FoldBound(Components(p), Tokens(q));
    } else if j == 0 {
      assert k == "" + "/" + q;
      assert "/" + q == "" + "/" + q;
      BeforeTop(q);
      ComponentsConcat("", q);
      FoldBound([], Tokens(q));
    } else if k != "" {
      assert k == q;
      BeforeTop(q);
      FoldBound([], Tokens(q));
    }
  }

  lemma FewTokens(q: string)
    requires '/' !in q
    ensures Tokens(q) == if q == "" then [] else [q]
  {
    if q != "" {
      TokensOfWord(q);
    }
  }

  lemma FoldBound(acc: seq<string>, toks: seq<string>)
    requires |toks| <= 1
    ensures |Fold(acc, toks)| <= |acc| + |toks|
  {
    if toks != [] {
      assert toks[1..] == [];
    }
  }

  lemma JoinChild(cs: seq<string>)
    requires ValidNames(cs) && cs != []
    ensures var init, last := cs[..|cs| - 1], cs[|cs| - 1];
      && ValidNames(init) && '/' !in last && last != ""
      && Join(cs) == (if init == [] then "/" + last else Join(init) + "/" + last)
  {
    var init, last := cs[..|cs| - 1], cs[|cs| - 1];
    assert last in cs && forall c | c in init :: c in cs;
    assert Absolute(cs) == Absolute(init) + "/" + last;
    if init == [] {
      assert Absolute(init) == "" && "" + "/" + last == "/" + last;
    }
  }

  lemma JoinRooted(cs: seq<string>)
    requires ValidNames(cs)
    ensures Join(cs) != "" && Join(cs)[0] == '/'
    decreases |cs|
  {
    if cs != [] {
      JoinChild(cs);
      JoinRooted(cs[..|cs| - 1]);
    }
  }

  /** The canonical path of n components is read after n other keys. */
  lemma {:induction false} DepthOfJoin(cs: seq<string>)
    requires ValidNames(cs)
    ensures |Before(Join(cs))| == |cs|
    ensures cs != [] ==>
      ValidNames(cs[..|cs| - 1]) && Before(Join(cs)) == Before(Join(cs[..|cs| - 1])) + {Join(cs[..|cs| - 1])}
  {
    hide Join, Before, CutOf, ValidNames;
    BeforeTop("");
    assert "/" + "" == "/";
    if cs == [] {
      RootIsJoin();
    } else {
      var init, last := cs[..|cs| - 1], cs[|cs| - 1];
      JoinChild(cs);
      DepthOfJoin(init);
      RootIsJoin();
      BeforeTop(last);
      if init != [] {
        JoinRooted(init);
        BeforeChild(Join(init), last);
      }
    }
  }

  lemma RootIsJoin()
    ensures Join([]) == "/"
  {
  }

  /* ---------- Reading ---------- */

  /** Which keys must be right: those some lookup can find in a cache of this capacity. */
  ghost predicate Shallow(capacity: int, k: string) {
    |Before(k)| < capacity
  }

  /** Every cached path that can be read holds what the tree holds there. */
  ghost predicate Coherent(t: Tree, capacity: int, cache: Cache)
    requires Valid(t)
  {
    forall k: string :: Shallow(capacity, k) && L.Find(cache, k).Some? ==> Lookup(t, k) == L.Find(cache, k)
  }

  /** _lookup: a hit when the cache is on, else what the tree holds, stored when there is anything. */
  function Fetch(on: bool, capacity: int, t: Tree, cache: Cache, key: string): (Cache, Option<Ino>)
    requires Valid(t) && capacity >= 1
  {
    if on && L.Find(cache, key).Some? then L.Get(cache, key)
    else
      RootLive(t);
      var i := Lookup(t, key);
      (if i.Some? then L.Set(capacity, cache, key, i.value) else cache, i)
  }

  /** One after the other, up to the first that finds nothing. */
  function FetchAll(on: bool, capacity: int, t: Tree, cache: Cache, keys: seq<string>): (Cache, Option<Ino>)
    requires Valid(t) && capacity >= 1 && keys != []
  {
    var init, last := keys[..|keys| - 1], keys[|keys| - 1];
    if init == [] then Fetch(on, capacity, t, cache, last)
    else
      var (c, r) := FetchAll(on, capacity, t, cache, init);
      if r == None then (c, None) else Fetch(on, capacity, t, c, last)
  }

  lemma FetchSnoc(on: bool, capacity: int, t: Tree, cache: Cache, keys: seq<string>, key: string)
    requires Valid(t) && capacity >= 1 && keys != []
    ensures var (c, r) := FetchAll(on, capacity, t, cache, keys);
      FetchAll(on, capacity, t, cache, keys + [key]) == if r == None then (c, None) else Fetch(on, capacity, t, c, key)
  {
    hide Valid, Fetch;
    assert (keys + [key])[..|keys + [key]| - 1] == keys;
  }

  /** What has found nothing reads nothing more. */
  lemma {:induction false} FetchStops(on: bool, capacity: int, t: Tree, cache: Cache, keys: seq<string>,
                                      all: seq<string>)
    requires Valid(t) && capacity >= 1 && keys != [] && keys <= all
    requires FetchAll(on, capacity, t, cache, keys).1 == None
    ensures FetchAll(on, capacity, t, cache, all) == FetchAll(on, capacity, t, cache, keys)
    decreases |all|
  {
    hide Valid, Fetch;
    if |keys| < |all| {
      var init := all[..|all| - 1];
      assert keys <= init;
      FetchStops(on, capacity, t, cache, keys, init);
    } else {
      assert keys == all;
    }
  }

  predicate NoSlash(p: string, lo: nat, hi: nat) {
    forall i | lo <= i < hi && i < |p| :: p[i] != '/'
  }

  lemma {:induction false} CutsGap(p: string, a: nat, b: nat)
    requires 1 <= a <= b <= |p| && NoSlash(p, a, b)
    ensures Cuts(p, b) == Cuts(p, a)
    decreases b
  {
    if a < b {
      CutsGap(p, a, b - 1);
    }
  }

  lemma {:induction false} CutsPrefix(p: string, a: nat, b: nat)
    requires a <= b <= |p|
    ensures Cuts(p, a) <= Cuts(p, b)
    decreases b
  {
    if a < b {
      CutsPrefix(p, a, b - 1);
    }
  }

  lemma OneKey(on: bool, capacity: int, t: Tree, cache: Cache, p: string)
    requires Valid(t) && capacity >= 1 && p != ""
    ensures FetchAll(on, capacity, t, cache, ["/"]) == Fetch(on, capacity, t, cache, "/")
    ensures ["/"] == ["/"] + Cuts(p, 1) && ["/"] <= KeysRead(p)
  {
    hide Valid, Fetch;
    assert ["/"][..0] == [] && ["/"][0] == "/";
    assert ["/"] + [] == ["/"];
  }

  ghost predicate SlashesOf(p: string, slashes: seq<nat>) {
    && (forall j, k | 0 <= j < k < |slashes| :: slashes[j] < slashes[k])
    && (forall k: nat :: k in slashes <==> k < |p| && p[k] == '/')
  }

  lemma NoneBetween(p: string, slashes: seq<nat>, it: nat)
    requires SlashesOf(p, slashes) && 1 <= it <= |slashes|
    ensures slashes[it - 1] < |p|
    ensures it < |slashes| ==> slashes[it - 1] < slashes[it] < |p| && p[slashes[it]] == '/'
    ensures NoSlash(p, slashes[it - 1] + 1, if it < |slashes| then slashes[it] else |p|)
  {
    assert slashes[it - 1] in slashes && (it < |slashes| ==> slashes[it] in slashes);
    forall i | slashes[it - 1] < i < (if it < |slashes| then slashes[it] else |p|) && i < |p|
      ensures p[i] != '/'
    {
      forall m | 0 <= m < |slashes|
        ensures slashes[m] != i
      {
        assert m < it ==> slashes[m] <= slashes[it - 1];
        assert m > it ==> slashes[m] > slashes[it];
      }
    }
  }

  lemma CutHere(p: string, a: nat, b: nat)
    requires 1 <= a <= b < |p| && p[b] == '/' && NoSlash(p, a, b)
    ensures p[..b] != "" && Cuts(p, b + 1) == Cuts(p, a) + [p[..b]]
  {
    CutsGap(p, a, b);
  }

  lemma CutsAreRead(p: string, n: nat)
    requires p != "" && n <= |p|
    ensures ["/"] + Cuts(p, n) <= KeysRead(p)
  {
    hide Cuts;
    CutsPrefix(p, n, |p|);
    var a, b := Cuts(p, n), Cuts(p, |p|);
    assert b == a + b[|a|..];
    assert KeysRead(p) == (["/"] + a) + (b[|a|..] + [p]);
  }

  /** The loop over the slashes of p reads the cuts of p, one after the other. */
  lemma NextCut(p: string, slashes: seq<nat>, it: nat)
    requires SlashesOf(p, slashes) && 1 <= it < |slashes|
    ensures slashes[it - 1] < slashes[it] < |p| && p[..slashes[it]] != ""
    ensures Cuts(p, slashes[it] + 1) == Cuts(p, slashes[it - 1] + 1) + [p[..slashes[it]]]
    ensures ["/"] + Cuts(p, slashes[it] + 1) <= KeysRead(p)
  {
    hide Cuts, KeysRead, SlashesOf, NoSlash;
    NoneBetween(p, slashes, it);
    var a, b := slashes[it - 1], slashes[it];
    assert a < b < |p| && p[b] == '/' && NoSlash(p, a + 1, b);
    NextCutAt(p, a, b);
  }

  lemma NextCutAt(p: string, a: nat, b: nat)
    requires a < b < |p| && p[b] == '/' && NoSlash(p, a + 1, b)
    ensures p[..b] != "" && Cuts(p, b + 1) == Cuts(p, a + 1) + [p[..b]]
    ensures ["/"] + Cuts(p, b + 1) <= KeysRead(p)
  {
    hide Cuts, KeysRead, NoSlash;
    CutHere(p, a + 1, b);
    CutsAreRead(p, b + 1);
  }

  lemma LastCut(p: string, slashes: seq<nat>)
    requires SlashesOf(p, slashes) && slashes != []
    ensures slashes[|slashes| - 1] < |p| && ["/"] + Cuts(p, slashes[|slashes| - 1] + 1) + [p] == KeysRead(p)
  {
    hide Cuts, SlashesOf, NoSlash;
    NoneBetween(p, slashes, |slashes|);
    CutsGap(p, slashes[|slashes| - 1] + 1, |p|);
  }

  /** The loop over the slashes of p has read the root and it - 1 cuts, and left this cache and answer. */
  ghost predicate HasRead(on: bool, capacity: int, t: Tree, cache: Cache, p: string, slashes: seq<nat>, it: nat,
                          now: Cache, r: Option<Ino>)
    requires Valid(t) && capacity >= 1
  {
    && p != "" && SlashesOf(p, slashes) && 1 <= it <= |slashes| && slashes[it - 1] < |p|
    && (now, r) == FetchAll(on, capacity, t, cache, ["/"] + Cuts(p, slashes[it - 1] + 1))
  }

  lemma FirstRead(on: bool, capacity: int, t: Tree, cache: Cache, p: string, slashes: seq<nat>)
    requires Valid(t) && capacity >= 1 && p != "" && SlashesOf(p, slashes) && slashes != [] && slashes[0] == 0
    ensures var (c, r) := Fetch(on, capacity, t, cache, "/"); HasRead(on, capacity, t, cache, p, slashes, 1, c, r)
  {
    hide Fetch, SlashesOf;
    OneKey(on, capacity, t, cache, p);
  }

  lemma NextRead(on: bool, capacity: int, t: Tree, cache: Cache, p: string, slashes: seq<nat>, it: nat, now: Cache,
                 r: Option<Ino>)
    requires Valid(t) && capacity >= 1 && HasRead(on, capacity, t, cache, p, slashes, it, now, r) && r.Some?
    requires it < |slashes|
    ensures slashes[it] < |p| && p[..slashes[it]] != ""
    ensures var (c, a) := Fetch(on, capacity, t, now, p[..slashes[it]]);
      HasRead(on, capacity, t, cache, p, slashes, it + 1, c, a)
  {
    hide Fetch, FetchAll, SlashesOf, Cuts;
    NextCut(p, slashes, it);
    var keys := ["/"] + Cuts(p, slashes[it - 1] + 1);
    FetchSnoc(on, capacity, t, cache, keys, p[..slashes[it]]);
    assert keys + [p[..slashes[it]]] == ["/"] + Cuts(p, slashes[it] + 1);
  }

  lemma LastRead(on: bool, capacity: int, t: Tree, cache: Cache, p: string, slashes: seq<nat>, it: nat, now: Cache,
                 r: Option<Ino>)
    requires Valid(t) && capacity >= 1 && HasRead(on, capacity, t, cache, p, slashes, it, now, r)
    ensures r == None ==> (now, None) == FetchAll(on, capacity, t, cache, KeysRead(p))
    ensures r.Some? && it == |slashes| ==>
      Fetch(on, capacity, t, now, p) == FetchAll(on, capacity, t, cache, KeysRead(p))
  {
    hide Fetch, FetchAll, SlashesOf, Cuts, KeysRead;
    var keys := ["/"] + Cuts(p, slashes[it - 1] + 1);
    CutsAreRead(p, slashes[it - 1] + 1);
    if r == None {
      FetchStops(on, capacity, t, cache, keys, KeysRead(p));
    } else if it == |slashes| {
      LastCut(p, slashes);
      FetchSnoc(on, capacity, t, cache, keys, p);
    }
  }

  /** The keys just read are more recent than any other. */
  ghost predicate Recent(cache: Cache, keys: seq<string>) {
    forall k: string :: k !in keys && L.Find(cache, k).Some? ==> Elems(keys) <= L.Newer(cache, k)
  }

  /** A key that some lookup reads after at least `capacity` others is never a hit. */
  lemma DeepMisses(capacity: int, cache: Cache, keys: seq<string>, key: string)
    requires capacity >= 1 && L.Fits(capacity, cache) && Recent(cache, keys) && Follows(keys, key)
    ensures !Shallow(capacity, key) ==> L.Find(cache, key) == None
  {
    hide Before, CutOf;
    BeforeTop("");
    assert "/" + "" == "/";
    if !Shallow(capacity, key) && L.Find(cache, key).Some? {
      L.NewerFacts(cache, key, key);
      SubsetSize(Before(key), L.Newer(cache, key));
    }
  }

  lemma TouchRecent(capacity: int, cache: Cache, a: L.Access<string, Ino>, keys: seq<string>)
    requires capacity >= 1 && L.Fits(capacity, cache) && Recent(cache, keys)
    requires a.Read? ==> L.Find(cache, a.key).Some?
    ensures Recent(L.Apply(capacity, cache, a), keys + [a.key])
  {
    var u := L.Apply(capacity, cache, a);
    forall k: string | k !in keys + [a.key] && L.Find(u, k).Some?
      ensures Elems(keys + [a.key]) <= L.Newer(u, k)
    {
      L.TouchNewer(capacity, cache, a, k);
    }
  }

  lemma NothingRecent(cache: Cache)
    ensures Recent(cache, [])
  {
  }

  /** One read of a coherent cache, after the keys that come before it, is right. */
  lemma FetchRight(on: bool, capacity: int, t: Tree, cache: Cache, keys: seq<string>, key: string)
    requires Valid(t) && capacity >= 1 && L.Fits(capacity, cache) && Follows(keys, key)
    requires on ==> Coherent(t, capacity, cache) && Recent(cache, keys)
    ensures ROOT in t.nodes
    ensures var (c, r) := Fetch(on, capacity, t, cache, key);
      && r == Lookup(t, key) && L.Fits(capacity, c)
      && (on ==> Coherent(t, capacity, c) && (r.Some? ==> Recent(c, keys + [key])))
  {
    hide Valid, L.Get, L.Set, L.Find, L.Fits, Recent, Follows, Before, Coherent, Shallow, Lookup;
    RootLive(t);
    if on {
      DeepMisses(capacity, cache, keys, key);
      CoherentAt(t, capacity, cache, key);
    }
    if on && L.Find(cache, key).Some? {
      CoherentGet(t, capacity, cache, key);
      L.GetFacts(capacity, cache, key, key);
      L.HitIs(cache, key);
      TouchRecent(capacity, cache, L.Read(key), keys);
    } else if Lookup(t, key).Some? {
      var i := Lookup(t, key).value;
      L.SetFacts(capacity, cache, key, i, key);
      if on {
        CoherentSet(t, capacity, cache, key, i);
        TouchRecent(capacity, cache, L.Put(key, i), keys);
      }
    }
  }

  lemma CoherentAt(t: Tree, capacity: int, cache: Cache, k: string)
    requires Valid(t) && Coherent(t, capacity, cache)
    ensures ROOT in t.nodes
    ensures Shallow(capacity, k) && L.Find(cache, k).Some? ==> Lookup(t, k) == L.Find(cache, k)
  {
    hide Valid, Shallow, L.Find;
    RootLive(t);
  }

  lemma CoherentSet(t: Tree, capacity: int, cache: Cache, k: string, i: Ino)
    requires Valid(t) && capacity >= 1 && L.Fits(capacity, cache) && Coherent(t, capacity, cache)
    requires ROOT in t.nodes && (Shallow(capacity, k) ==> Lookup(t, k) == Some(i))
    ensures L.Fits(capacity, L.Set(capacity, cache, k, i)) && Coherent(t, capacity, L.Set(capacity, cache, k, i))
  {
    hide Valid, L.Set, L.Find, Shallow, Lookup;
    L.SetFacts(capacity, cache, k, i, k);
    var c := L.Set(capacity, cache, k, i);
    forall j: string | Shallow(capacity, j) && L.Find(c, j).Some?
      ensures Lookup(t, j) == L.Find(c, j)
    {
      L.SetFacts(capacity, cache, k, i, j);
    }
  }

  lemma CoherentGet(t: Tree, capacity: int, cache: Cache, k: string)
    requires Valid(t) && L.Fits(capacity, cache) && Coherent(t, capacity, cache)
    ensures L.Fits(capacity, L.Get(cache, k).0) && Coherent(t, capacity, L.Get(cache, k).0)
    ensures ROOT in t.nodes && (Shallow(capacity, k) && L.Get(cache, k).1.Some? ==> L.Get(cache, k).1 == Lookup(t, k))
  {
    hide Valid, L.Get, L.Find, Shallow, Lookup;
    RootLive(t);
    L.HitIs(cache, k);
    L.GetFacts(capacity, cache, k, k);
    var c := L.Get(cache, k).0;
    forall j: string | Shallow(capacity, j) && L.Find(c, j).Some?
      ensures Lookup(t, j) == L.Find(c, j)
    {
      L.GetFacts(capacity, cache, k, j);
    }
  }

  /** What a lookup of these keys answers on the tree itself. */
  ghost function Seen(t: Tree, keys: seq<string>): Option<Ino>
    requires Valid(t) && keys != []
  {
    RootLive(t);
    if forall k | k in keys :: Lookup(t, k).Some? then Lookup(t, keys[|keys| - 1]) else None
  }

  /** A lookup through a coherent cache, or with the cache off, answers what the tree answers, and leaves the cache
      coherent. */
  lemma {:induction false} FetchAllRight(on: bool, capacity: int, t: Tree, cache: Cache, keys: seq<string>)
    requires Valid(t) && capacity >= 1 && L.Fits(capacity, cache) && Chain(keys) && keys != []
    requires on ==> Coherent(t, capacity, cache)
    ensures var (c, r) := FetchAll(on, capacity, t, cache, keys);
      && r == Seen(t, keys) && L.Fits(capacity, c)
      && (on ==> Coherent(t, capacity, c) && (r.Some? ==> Recent(c, keys)))
    decreases |keys|
  {
    hide Valid, Fetch, L.Fits, Recent, Follows, Coherent, Chain, Lookup;
    RootLive(t);
    var init, last := keys[..|keys| - 1], keys[|keys| - 1];
    ChainInit(keys);
    assert keys == init + [last];
    if init == [] {
      NothingRecent(cache);
      FetchRight(on, capacity, t, cache, [], last);
      assert [] + [last] == keys;
    } else {
      FetchAllRight(on, capacity, t, cache, init);
      var (c, r) := FetchAll(on, capacity, t, cache, init);
      assert forall k | k in init :: k in keys;
      if r.Some? {
        FetchRight(on, capacity, t, c, init, last);
      }
    }
  }

  /* ---------- Reading the same keys again ---------- */

  ghost predicate AllCached(cache: Cache, keys: seq<string>) {
    forall k | k in keys :: L.Find(cache, k).Some?
  }

  /** When every key is cached, a lookup with the cache on asks nobody: it answers whatever is cached under the last.
      */
  lemma {:induction false} AllHits(capacity: int, t: Tree, cache: Cache, keys: seq<string>)
    requires Valid(t) && capacity >= 1 && L.Fits(capacity, cache) && keys != [] && AllCached(cache, keys)
    ensures var (c, r) := FetchAll(true, capacity, t, cache, keys);
      && r == L.Find(cache, keys[|keys| - 1]) && L.Fits(capacity, c)
      && forall k: string :: L.Find(c, k) == L.Find(cache, k)
    decreases |keys|
  {
    hide Valid, L.Get, L.Set, L.Find, L.Fits, Lookup;
    var init, last := keys[..|keys| - 1], keys[|keys| - 1];
    assert last in keys && forall k | k in init :: k in keys;
    if init == [] {
      ReadKeepsAll(capacity, cache, last);
    } else {
      AllHits(capacity, t, cache, init);
      var (c, r) := FetchAll(true, capacity, t, cache, init);
      assert init[|init| - 1] in keys;
      ReadKeepsAll(capacity, c, last);
    }
  }

  lemma NewestAreCached(cache: Cache, keys: seq<string>, all: set<string>, read: seq<string>)
    requires NewestOf(cache, keys, all) && forall k | k in read :: k in keys
    ensures AllCached(cache, read)
  {
    hide L.Find, L.Newer;
  }

  lemma ReadKeepsAll(capacity: int, cache: Cache, key: string)
    requires L.Fits(capacity, cache)
    ensures L.Fits(capacity, L.Get(cache, key).0) && L.Get(cache, key).1 == L.Find(cache, key)
    ensures forall k: string :: L.Find(L.Get(cache, key).0, k) == L.Find(cache, k)
  {
    hide L.Get, L.Find;
    L.HitIs(cache, key);
    L.GetFacts(capacity, cache, key, key);
    forall k: string
      ensures L.Find(L.Get(cache, key).0, k) == L.Find(cache, k)
    {
      L.GetFacts(capacity, cache, key, k);
    }
  }

  /** Each key is cached, and only others of the given set are more recent. */
  ghost predicate NewestOf(cache: Cache, keys: seq<string>, all: set<string>) {
    forall k | k in keys :: L.Find(cache, k).Some? && L.Newer(cache, k) <= all - {k}
  }

  /** Touching one more key of a set that fits into the cache drops none of the others. */
  lemma TouchFresh(capacity: int, cache: Cache, a: L.Access<string, Ino>, keys: seq<string>, all: set<string>)
    requires capacity >= 1 && L.Fits(capacity, cache) && NewestOf(cache, keys, all) && |all| <= capacity
    requires a.key in all && Elems(keys) <= all && (a.Read? ==> L.Find(cache, a.key).Some?)
    ensures L.Fits(capacity, L.Apply(capacity, cache, a)) && NewestOf(L.Apply(capacity, cache, a), keys + [a.key], all)
  {
    hide L.Find, L.Newer;
    FrontKey(capacity, cache, a);
    forall k | k in keys && k != a.key
      ensures L.Find(L.Apply(capacity, cache, a), k).Some? && L.Newer(L.Apply(capacity, cache, a), k) <= all - {k}
    {
      assert k in Elems(keys) && |all - {k}| < |all|;
      L.ApplyRetains(capacity, cache, a, k, all - {k});
    }
  }

  lemma FrontKey(capacity: int, cache: Cache, a: L.Access<string, Ino>)
    requires capacity >= 1 && L.Fits(capacity, cache) && (a.Read? ==> L.Find(cache, a.key).Some?)
    ensures var u := L.Apply(capacity, cache, a);
      L.Fits(capacity, u) && L.Newer(u, a.key) == {} && L.Find(u, a.key) == if a.Put? then Some(a.value)
          else L.Find(cache, a.key)
  {
    match a
    case Read(k) => L.GetFacts(capacity, cache, k, k);
    case Put(k, v) => L.SetFacts(capacity, cache, k, v, k);
  }

  /** After a lookup that has found its path and whose keys fit into the cache, all of them are cached. */
  lemma {:induction false} FetchAllFresh(on: bool, capacity: int, t: Tree, cache: Cache, keys: seq<string>,
                                        all: set<string>)
    requires Valid(t) && capacity >= 1 && L.Fits(capacity, cache) && keys != []
    requires Elems(keys) <= all && |all| <= capacity
    ensures var (c, r) := FetchAll(on, capacity, t, cache, keys);
      L.Fits(capacity, c) && (r.Some? ==> NewestOf(c, keys, all) && L.Find(c, keys[|keys| - 1]) == r)
    decreases |keys|
  {
    hide Valid, L.Get, L.Set, L.Find, L.Fits, L.Newer, NewestOf, Lookup, Fetch, Elems;
    var init, last := keys[..|keys| - 1], keys[|keys| - 1];
    ElemsSplit(keys, all);
    if init == [] {
      assert [] + [last] == keys;
      NothingFresh(cache, all);
      FetchFresh(on, capacity, t, cache, [], last, all);
    } else {
      FetchAllFresh(on, capacity, t, cache, init, all);
      var (c, r) := FetchAll(on, capacity, t, cache, init);
      if r.Some? {
        FetchFresh(on, capacity, t, c, init, last, all);
      }
    }
  }

  lemma ElemsSplit(keys: seq<string>, all: set<string>)
    requires keys != [] && Elems(keys) <= all
    ensures keys == keys[..|keys| - 1] + [keys[|keys| - 1]]
    ensures Elems([]) <= all && Elems(keys[..|keys| - 1]) <= all && keys[|keys| - 1] in all
  {
    hide Elems;
    assert forall x | x in keys[..|keys| - 1] :: x in keys;
    assert keys[|keys| - 1] in Elems(keys);
  }

  lemma NothingFresh(cache: Cache, all: set<string>)
    ensures NewestOf(cache, [], all)
  {
  }

  lemma FetchFresh(on: bool, capacity: int, t: Tree, cache: Cache, keys: seq<string>, key: string, all: set<string>)
    requires Valid(t) && capacity >= 1 && L.Fits(capacity, cache) && NewestOf(cache, keys, all)
    requires Elems(keys) <= all && key in all && |all| <= capacity
    ensures var (c, r) := Fetch(on, capacity, t, cache, key);
      L.Fits(capacity, c) && (r.Some? ==> NewestOf(c, keys + [key], all) && L.Find(c, key) == r)
  {
    hide Valid, L.Get, L.Set, L.Find, L.Fits, L.Newer, NewestOf, Lookup;
    RootLive(t);
    if on && L.Find(cache, key).Some? {
      L.HitIs(cache, key);
      TouchFresh(capacity, cache, L.Read(key), keys, all);
      FrontKey(capacity, cache, L.Read(key));
    } else if Lookup(t, key).Some? {
      TouchFresh(capacity, cache, L.Put(key, Lookup(t, key).value), keys, all);
      FrontKey(capacity, cache, L.Put(key, Lookup(t, key).value));
    }
  }

  /* ---------- Looking up component by component ---------- */

  /** Everything the client looks up on the way exists. */
  ghost predicate PrefixesExist(t: Tree, path: string)
    requires Valid(t)
  {
    forall k | 0 < k < |path| && path[k] == '/' :: Lookup(t, path[..k]).Some?
  }

  /** The client's answer for any path: the tree's, provided every prefix that ends before a slash exists too. */
  ghost function StepwiseLookup(t: Tree, path: string): Option<Ino>
    requires Valid(t)
  {
    if PrefixesExist(t, path) then Lookup(t, path) else None
  }

  lemma RootFound(t: Tree)
    requires Valid(t)
    ensures Lookup(t, "/") == Some(ROOT)
  {
    SpellsComponents("/", []);
  }

  lemma {:induction false} AbsolutePrefix(cs: seq<string>, k: nat)
    requires ValidNames(cs) && 0 < k < |Absolute(cs)| && Absolute(cs)[k] == '/'
    ensures exists n :: 0 < n < |cs| && Absolute(cs)[..k] == Absolute(cs[..n])
  {
    var init, last := cs[..|cs| - 1], cs[|cs| - 1];
    var stem := Absolute(init);
    assert last in cs;
    assert Absolute(cs) == stem + "/" + last;
    forall j | |stem| < j < |Absolute(cs)|
      ensures Absolute(cs)[j] != '/'
    {
      assert Absolute(cs)[j] == last[j - |stem| - 1];
      assert last[j - |stem| - 1] in last;
    }
    if k == |stem| {
      assert Absolute(cs)[..k] == stem;
      assert 0 < |init| < |cs|;
    } else {
      assert forall c | c in init :: c in cs;
      AbsolutePrefix(init, k);
      var n :| 0 < n < |init| && stem[..k] == Absolute(init[..n]);
      assert Absolute(cs)[..k] == stem[..k] && init[..n] == cs[..n];
    }
  }

  /** On canonical paths, looking up step by step is just looking up. */
  lemma CanonicalLookup(t: Tree, cs: seq<string>)
    requires Valid(t) && ValidNames(cs)
    ensures Join(cs) != "" && Rooted(Join(cs)) == Join(cs)
    ensures StepwiseLookup(t, Join(cs)) == Walk(t, ROOT, cs)
  {
    JoinRooted(cs);
    SpellsComponents(Join(cs), cs);
    if Walk(t, ROOT, cs).Some? {
      forall k | 0 < k < |Join(cs)| && Join(cs)[k] == '/'
        ensures Lookup(t, Join(cs)[..k]).Some?
      {
        AbsolutePrefix(cs, k);
        var n :| 0 < n < |cs| && Absolute(cs)[..k] == Absolute(cs[..n]);
        assert forall c | c in cs[..n] :: c in cs;
        SpellsComponents(Absolute(cs[..n]), cs[..n]);
        assert cs == cs[..n] + cs[n..];
        RootLive(t);
        WalkConcat(t, ROOT, cs[..n], cs[n..]);
      }
    }
  }

  /** What a lookup answers on the tree itself: the path, provided everything on the way exists. */
  lemma SeenStepwise(t: Tree, p: string)
    requires Valid(t) && p != "" && p[0] == '/'
    ensures Seen(t, KeysRead(p)) == StepwiseLookup(t, p)
  {
    hide Valid, Lookup;
    RootFound(t);
    CutsFacts(p, |p|);
    var keys := KeysRead(p);
    forall k | 0 < k < |p| && p[k] == '/'
      ensures p[..k] in keys
    {
      assert CutOf(p, |p|, p[..k]);
    }
    assert p in keys;
  }

  lemma RightLookup(on: bool, capacity: int, t: Tree, cache: Cache, path: string)
    requires Valid(t) && capacity >= 1 && L.Fits(capacity, cache) && path != ""
    requires on ==> Coherent(t, capacity, cache)
    ensures FetchAll(on, capacity, t, cache, KeysRead(Rooted(path))).1 == StepwiseLookup(t, Rooted(path))
  {
    hide Valid, KeysRead, FetchAll, L.Fits, Coherent, StepwiseLookup, Chain;
    KeysChain(Rooted(path));
    FetchAllRight(on, capacity, t, cache, KeysRead(Rooted(path)));
    SeenStepwise(t, Rooted(path));
  }
}
