/** What changes of the tree do to caches: nothing tells a client that what it has cached is no longer so. */
module Coherence {
  import opened Collections
  import opened Paths
  import opened Namespace
  import opened CacheReads
  import L = LruSpec

  /** While the tree grows caches stay right. */
  lemma CoherentStable(t: Tree, u: Tree, capacity: int, cache: Cache)
    requires Valid(t) && Valid(u) && Grows(t, u) && Coherent(t, capacity, cache)
    ensures Coherent(u, capacity, cache)
  {
    hide Shallow, L.Find;
    forall k: string | Shallow(capacity, k) && L.Find(cache, k).Some?
      ensures Lookup(u, k) == L.Find(cache, k)
    {
      LookupStable(t, u, k);
    }
  }

  /* ---------- Creating ---------- */

  lemma CreatedAt(t: Tree, cs: seq<string>, isDir: bool)
    requires Valid(t) && cs != [] && Walk(t, ROOT, cs[..|cs| - 1]).Some?
    ensures var d := Walk(t, ROOT, cs[..|cs| - 1]).value;
      var u := AddSub(t, d, cs[|cs| - 1], isDir);
      && Valid(u) && Grows(t, u)
      && (Walk(u, ROOT, cs) == Some(t.next) <==> Walk(t, ROOT, cs) == None)
      && (Walk(t, ROOT, cs) == Step(t, d, cs[|cs| - 1]))
  {
    hide Grows, Step;
    var init, last := cs[..|cs| - 1], cs[|cs| - 1];
    var d := Walk(t, ROOT, init).value;
    var u := AddSub(t, d, last, isDir);
    AddSubGrows(t, d, last, isDir);
    CreatedFound(t, d, last, isDir);
    WalkStable(t, u, ROOT, init);
    WalkConcat(t, ROOT, init, [last]);
    WalkConcat(u, ROOT, init, [last]);
    assert cs == init + [last] && [last][1..] == [];
  }

  /** mknod's inode is what its path names afterwards exactly when the name was new: caching the reply of a second
      mknod of the same name would make the cache disagree with the tree. */
  lemma MknodCoherent(t: Tree, path: string, cs: seq<string>)
    requires Valid(t) && Spells(path, cs) && cs != [] && Walk(t, ROOT, cs[..|cs| - 1]).Some?
    ensures var (i, u) := Mknod(t, Walk(t, ROOT, cs[..|cs| - 1]).value, cs[|cs| - 1]);
      Valid(u) && i.Some? && (Lookup(u, path) == i <==> Lookup(t, path) == None)
  {
    CreatedAt(t, cs, false);
    SpellsComponents(path, cs);
    assert cs[|cs| - 1] in cs;
  }

  lemma LookupIsWalk(t: Tree, path: string)
    requires Valid(t) && path != ""
    ensures ROOT in t.nodes && Lookup(t, path) == Walk(t, ROOT, Components(path))
  {
  }

  /* ---------- Removing ---------- */

  /** A removal invalidates no cache. So a cache stays right exactly when no path that can be read from it goes
      through what was removed. */
  lemma RemovalCoherent(t: Tree, capacity: int, cache: Cache, i: Ino)
    requires Valid(t) && i in t.nodes && t.nodes[i].parent.Some? && Coherent(t, capacity, cache)
    ensures Valid(Remove(t, i))
    ensures Coherent(Remove(t, i), capacity, cache)
       <==> forall k: string :: Shallow(capacity, k) && L.Find(cache, k).Some? ==> !Through(t, ROOT, Components(k), i)
  {
    hide Valid, Walk, Remove, OnlyOfItsName, Through, L.Find, Components, Shallow;
    RootLive(t);
    RemoveValid(t, i);
    forall k: string | Shallow(capacity, k) && L.Find(cache, k).Some?
      ensures Lookup(Remove(t, i), k) == L.Find(cache, k) <==> !Through(t, ROOT, Components(k), i)
    {
      RemoveCutsPaths(t, i, k);
    }
  }

  lemma {:induction false} WalkGoesThrough(t: Tree, x: Ino, names: seq<string>)
    requires Valid(t) && x in t.nodes && Walk(t, x, names).Some?
    ensures Through(t, x, names, Walk(t, x, names).value)
    ensures names != [] ==> t.nodes[Walk(t, x, names).value].parent.Some?
    decreases |names|
  {
    if names != [] {
      assert ValidEntries(t, x, t.nodes[x].entries);
      WalkGoesThrough(t, Step(t, x, names[0]).value, names[1..]);
    }
  }

  lemma {:induction false} ThroughPrefix(t: Tree, x: Ino, names: seq<string>, i: Ino) returns (n: nat)
    requires Valid(t) && x in t.nodes && Through(t, x, names, i)
    ensures n <= |names| && Walk(t, x, names[..n]) == Some(i)
    decreases |names|
  {
    if x == i {
      n := 0;
    } else {
      var m := ThroughPrefix(t, Step(t, x, names[0]).value, names[1..], i);
      n := m + 1;
      assert names[..n][1..] == names[1..][..m];
    }
  }

  /** All walks from the root to an inode are equally long. */
  lemma {:induction false} SameDepth(t: Tree, a: seq<string>, b: seq<string>)
    requires Valid(t) && ROOT in t.nodes && Walk(t, ROOT, a).Some? && Walk(t, ROOT, b) == Walk(t, ROOT, a)
    ensures |a| == |b|
    decreases |a|
  {
    LastStep(t, a);
    LastStep(t, b);
    if a != [] && b != [] {
      SameDepth(t, a[..|a| - 1], b[..|b| - 1]);
    }
  }

  lemma LastStep(t: Tree, a: seq<string>)
    requires Valid(t) && ROOT in t.nodes && Walk(t, ROOT, a).Some?
    ensures a == [] ==> t.nodes[Walk(t, ROOT, a).value].parent == None
    ensures a != [] ==>
      Walk(t, ROOT, a[..|a| - 1]).Some? && t.nodes[Walk(t, ROOT, a).value].parent == Walk(t, ROOT, a[..|a| - 1])
  {
    if a != [] {
      var init, last := a[..|a| - 1], a[|a| - 1];
      assert a == init + [last] && [last][1..] == [] && [last][0] == last;
      WalkConcat(t, ROOT, init, [last]);
      var p := Walk(t, ROOT, init).value;
      assert ValidEntries(t, p, t.nodes[p].entries);
    }
  }

  /** A path of at least `capacity` components can be removed: no cached path that can be read goes through it. */
  lemma DeepRemoval(t: Tree, capacity: int, cache: Cache, cs: seq<string>)
    requires Valid(t) && Coherent(t, capacity, cache) && cs != [] && |cs| >= capacity
    requires ROOT in t.nodes && Walk(t, ROOT, cs).Some?
    ensures var i := Walk(t, ROOT, cs).value; Valid(Remove(t, i)) && Coherent(Remove(t, i), capacity, cache)
  {
    hide Valid, Walk, Remove, Through, L.Find, Components, Before, Coherent;
    var i := Walk(t, ROOT, cs).value;
    WalkGoesThrough(t, ROOT, cs);
    RemovalCoherent(t, capacity, cache, i);
    forall k: string | Shallow(capacity, k)
      ensures !Through(t, ROOT, Components(k), i)
    {
      ComponentsBound(k);
      if Through(t, ROOT, Components(k), i) {
        var n := ThroughPrefix(t, ROOT, Components(k), i);
        SameDepth(t, cs, Components(k)[..n]);
      }
    }
  }

  /** The path of a removed inode no longer names it, and names nothing when no sibling has its name. */
  lemma RemovedIsGone(t: Tree, cs: seq<string>)
    requires Valid(t) && ValidNames(cs) && cs != [] && Walk(t, ROOT, cs).Some?
    ensures var i := Walk(t, ROOT, cs).value;
      && t.nodes[i].parent.Some? && Valid(Remove(t, i))
      && Lookup(Remove(t, i), Join(cs)) != Some(i)
      && (OnlyOfItsName(t, i) ==> Lookup(Remove(t, i), Join(cs)) == None)
  {
    hide Valid, Remove, OnlyOfItsName, Join;
    RootLive(t);
    WalkGoesThrough(t, ROOT, cs);
    var i := Walk(t, ROOT, cs).value;
    RemoveValid(t, i);
    SpellsComponents(Join(cs), cs);
    RemoveCutsPaths(t, i, Join(cs));
  }

  /* ---------- Paths that a client goes on finding ---------- */

  /** Looking up p asks nobody and answers i. */
  ghost predicate Sticks(cache: Cache, p: string, i: Ino) {
    p != "" && AllCached(cache, KeysRead(p)) && L.Find(cache, p) == Some(i)
  }

  lemma SticksAnswers(capacity: int, t: Tree, cache: Cache, p: string, i: Ino)
    requires Valid(t) && capacity >= 1 && L.Fits(capacity, cache) && Sticks(cache, p, i)
    ensures FetchAll(true, capacity, t, cache, KeysRead(p)).1 == Some(i)
  {
    hide Valid, L.Fits, L.Find, AllCached, FetchAll;
    AllHits(capacity, t, cache, KeysRead(p));
  }

  /** A path that has just been found, short enough for its keys to fit into the cache, sticks. */
  lemma FoundSticks(on: bool, capacity: int, t: Tree, cache: Cache, cs: seq<string>)
    requires Valid(t) && capacity >= 1 && L.Fits(capacity, cache) && ValidNames(cs) && |cs| < capacity
    ensures Join(cs) != ""
    ensures var (c, r) := FetchAll(on, capacity, t, cache, KeysRead(Join(cs)));
      r.Some? ==> L.Fits(capacity, L.Get(c, Join(cs)).0) && Sticks(L.Get(c, Join(cs)).0, Join(cs), r.value)
  {
    hide Valid, L.Fits, L.Find, L.Get, FetchAll, Join, ValidNames, L.Newer, Before;
    var p := Join(cs);
    JoinRooted(cs);
    DepthOfJoin(cs);
    KeysChain(p);
    var keys := KeysRead(p);
    FetchAllFresh(on, capacity, t, cache, keys, Elems(keys));
    var (c, r) := FetchAll(on, capacity, t, cache, keys);
    if r.Some? {
      ReadKeepsAll(capacity, c, p);
    }
  }

  /** So does a path stored after its directory has been found. */
  lemma StoredSticks(on: bool, capacity: int, t: Tree, cache: Cache, cs: seq<string>, i: Ino)
    requires Valid(t) && capacity >= 1 && L.Fits(capacity, cache) && ValidNames(cs) && cs != [] && |cs| < capacity
    ensures Join(cs) != "" && Join(cs[..|cs| - 1]) != ""
    ensures var (c, r) := FetchAll(on, capacity, t, cache, KeysRead(Join(cs[..|cs| - 1])));
      r.Some? ==> Sticks(L.Set(capacity, c, Join(cs), i), Join(cs), i)
  {
    hide Valid, L.Fits, L.Find, L.Set, FetchAll, Join, ValidNames, L.Newer, Before, KeysRead;
    var init, p := cs[..|cs| - 1], Join(cs);
    JoinRooted(cs);
    DepthOfJoin(cs);
    DepthOfJoin(init);
    JoinRooted(init);
    KeysChain(p);
    KeysChain(Join(init));
    var keys, all := KeysRead(Join(init)), Before(p) + {p};
    FetchAllFresh(on, capacity, t, cache, keys, all);
    var (c, r) := FetchAll(on, capacity, t, cache, keys);
    if r.Some? {
      TouchFresh(capacity, c, L.Put(p, i), keys, all);
      FrontKey(capacity, c, L.Put(p, i));
      assert Elems(KeysRead(p)) == Elems(keys) + {p};
      forall k | k in KeysRead(p)
        ensures k in keys + [p]
      {
        assert k in Elems(KeysRead(p));
      }
      hide NewestOf, Elems, AllCached;
      NewestAreCached(L.Set(capacity, c, p, i), keys + [p], all, KeysRead(p));
    }
  }

  /** What sticks at a readable path but is not there makes the cache wrong. */
  lemma StickyIncoherent(t: Tree, capacity: int, cache: Cache, cs: seq<string>, i: Ino)
    requires Valid(t) && ValidNames(cs) && |cs| < capacity && Sticks(cache, Join(cs), i)
    requires ROOT in t.nodes && Lookup(t, Join(cs)) != Some(i)
    ensures !Coherent(t, capacity, cache)
  {
    hide Valid, Join, AllCached, Lookup;
    DepthOfJoin(cs);
    assert Shallow(capacity, Join(cs));
  }
}
