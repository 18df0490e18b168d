/** cluster/services/mds/MetadataDispatcher.cc: the lookup table built in place, and the dispatchers that read it. */
module Dispatchers {
  import opened Collections
  import opened Paths
  import opened Namespace
  import opened Topology
  import opened Placement
  import opened DispatchLaws

  class MetadataDispatcher {
    var lut: Lut

    constructor ()
      ensures lut == map[]
    {
      lut := map[];
    }

    /** build_lut: one pass over the monitor's list in rank order. */
    method BuildLut(active: map<Rank, Entity>)
      modifies this`lut
      ensures lut == LutOf(active)
    {
      hide LutUpTo, SortedKeys;
      lut := map[];
      var ranks := SortedKeys(active.Keys);
      assert AllActive(active, ranks);
      EmptyLut(active);
      var n := 0;
      while n < |ranks|
        invariant 0 <= n <= |ranks|
        invariant AllActive(active, ranks[..n]) && lut == LutUpTo(active, ranks[..n])
      {
        LutSnoc(active, ranks, n);
        var r := ranks[n];
        var host := active[r].host;
        if host !in lut {
          lut := lut[host := []];
        }
        lut := lut[host := lut[host] + [r]];
        n := n + 1;
      }
      assert ranks[..n] == ranks;
    }

    method WhichChild(t: Tree, path: string) returns (k: int)
      requires Valid(t) && HasName(path)
      ensures k == Placement.WhichChild(t, path)
    {
      hide Valid, Lookup, DirOf, BaseOf;
      RootLive(t);
      var dir := Dirname(path);
      var parent := Lookup(t, dir);
      if parent == None { return -1; }
      ChildrenLive(t, parent.value);
      var es, name := t.nodes[parent.value].entries, BaseOf(path);
      var n := 0;
      while n < |es|
        invariant 0 <= n <= |es|
        invariant forall j | 0 <= j < n :: t.nodes[es[j]].name != name
      {
        if t.nodes[es[n]].name == name { return n; }
        n := n + 1;
      }
      return -1;
    }

    /** The vector reached by advancing an iterator n times from lut.begin(). */
    method Advance(n: nat) returns (v: seq<Rank>)
      requires Usable(lut) && n < |lut|
      ensures v == NthVector(lut, n)
    {
      var keys := SortedKeys(lut.Keys);
      assert |lut.Keys| == |lut|;
      var it := 0;
      for i := 0 to n
        invariant it == i
      {
        it := it + 1;
      }
      v := lut[keys[it]];
    }

    method SubtreeDispatch(t: Tree, path: string) returns (r: Rank)
      requires Valid(t) && Usable(lut)
      ensures r == SubtreeRank(t, lut, path)
      decreases NameChars(path)
    {
      if path == "" { return -1; }
      if !IsDir(t, path) {
        MissingHasName(t, path);
        DirOfShorter(path);
        var up := Dirname(path);
        r := SubtreeDispatch(t, up);
        return;
      }
      r := SubtreeDirDispatch(t, path);
    }

    method SubtreeDirDispatch(t: Tree, path: string) returns (r: Rank)
      requires Valid(t) && Usable(lut) && path != ""
      ensures r == SubtreeDirRank(t, lut, path)
    {
      hide Valid, Usable, IsDir, Lookup, Components;
      var v := SplitPath(path);
      if |v| == 0 { return 0; }
      if |v| == 1 {
        r := FirstOfTop(t, path);
        return;
      }
      ComponentsValid(path);
      NamedPath(v[0], "");
      NamedPath(v[1], "/" + v[0]);
      var parentRank := WhichChild(t, "/" + v[0]);
      var curRank := WhichChild(t, "/" + v[0] + "/" + v[1]);
      if parentRank == -1 || curRank == -1 { return -1; }
      TableNotEmpty(lut);
      var ranks := Advance(parentRank % |lut|);
      r := ranks[curRank % |ranks|];
    }

    method FirstOfTop(t: Tree, path: string) returns (r: Rank)
      requires Valid(t) && Usable(lut) && path != "" && Components(path) != []
      ensures HasName(path)
      ensures r == var k := Placement.WhichChild(t, path); if k == -1 then -1 else NthVector(lut, k % |lut|)[0]
    {
      hide Valid, Usable, IsDir, Lookup, Components;
      MissingHasName(t, path);
      TableNotEmpty(lut);
      var k := WhichChild(t, path);
      if k == -1 { return -1; }
      var v := Advance(k % |lut|);
      r := v[0];
    }

    method HashingDispatch(active: map<Rank, Entity>, hash: string -> nat, path: string) returns (r: Rank)
      ensures r == -1 <==> path == "" || active == map[]
      ensures r != -1 ==> 0 <= r < |active|
      ensures r != -1 && active.Keys == Interval(0, |active|) ==> r in active
      ensures r != -1 ==> Congruent(|active|, hash(path), r)
      ensures r == HashingRank(|active|, hash, path)
    {
      hide Congruent;
      if path == "" { return -1; }
      var size := |active|;
      r := if size != 0 then hash(path) % size else -1;
      if size != 0 { HashingLaw(size, hash, path, path); }
    }

    method HybridDispatch(t: Tree, hash: string -> nat, path: string) returns (r: Rank)
      requires Valid(t) && Usable(lut)
      ensures r == HybridRank(t, lut, hash, path)
    {
      hide Valid, Usable, IsDir, Lookup, Components;
      if path == "" { return -1; }
      var v := SplitPath(path);
      if |v| == 0 { return 0; }
      if |v| == 1 {
        r := FirstOfTop(t, path);
        return;
      }
      ComponentsValid(path);
      NamedPath(v[0], "");
      var parentRank := WhichChild(t, "/" + v[0]);
      if parentRank == -1 { return -1; }
      TableNotEmpty(lut);
      var ranks := Advance(parentRank % |lut|);
      r := ranks[hash(path) % |ranks|];
    }

    /** global_get_dispatcher_from_conf, and the answer of the dispatcher it picks. */
    method DispatchByConf(pl: Placer, t: Tree, path: string) returns (r: Rank)
      requires Valid(t) && Usable(pl.lut) && lut == pl.lut
      ensures r == Dispatch(pl, t, path)
    {
      hide Valid, Usable, SubtreeRank, HybridRank, HashingRank, Congruent;
      match pl.strategy {
        case Subtree => r := SubtreeDispatch(t, path);
        case Hashing => r := HashingDispatch(pl.active, pl.hash, path);
        case Hybrid => r := HybridDispatch(t, pl.hash, path);
      }
    }
  }

  lemma TableNotEmpty(lut: Lut)
    requires Usable(lut)
    ensures |lut| > 0
  {
  }

  lemma EmptyLut(active: map<Rank, Entity>)
    ensures AllActive(active, []) && LutUpTo(active, []) == map[]
  {
  }

  /** One more round of the loop. */
  lemma LutSnoc(active: map<Rank, Entity>, ranks: seq<Rank>, n: nat)
    requires AllActive(active, ranks) && n < |ranks|
    ensures AllActive(active, ranks[..n]) && AllActive(active, ranks[..n + 1]) && ranks[n] in active
    ensures var before, h := LutUpTo(active, ranks[..n]), active[ranks[n]].host;
      LutUpTo(active, ranks[..n + 1]) == before[h := (if h in before then before[h] else []) + [ranks[n]]]
  {
    assert ranks[n] in ranks;
    forall r | r in ranks[..n + 1]
      ensures r in active
    {
      assert r in ranks;
    }
    assert forall r | r in ranks[..n] :: r in ranks[..n + 1];
    assert ranks[..n + 1][..n] == ranks[..n];
  }
}
