/** What the configured dispatcher answers, strategy by strategy, without mention of how it is computed: hosts are
    counted from below, positions and hashes only matter up to a multiple of how many there are to choose from. */
module DispatchLaws {
  import opened Collections
  import opened Paths
  import opened Namespace
  import opened Topology
  import opened Placement

  /** n divides a - b. */
  predicate Congruent(n: nat, a: int, b: int)
    requires n > 0
  {
    (a - b) % n == 0
  }

  lemma {:induction false} MultiplesApart(n: nat, p: int, q: int)
    requires p > q
    ensures p * n >= q * n + n
    decreases p - q
  {
    assert p * n == (p - 1) * n + n;
    if p - 1 > q {
      MultiplesApart(n, p - 1, q);
    }
  }

  /** The remainder is the one number from 0 to n - 1 that differs by a multiple. */
  lemma UniqueRemainder(n: nat, a: int, q: int, r: int)
    requires n > 0 && a == q * n + r && 0 <= r < n
    ensures a % n == r
  {
    var p, s := a / n, a % n;
    assert p * n + s == q * n + r;
    if p > q {
      MultiplesApart(n, p, q);
    } else if p < q {
      MultiplesApart(n, q, p);
    }
  }

  lemma RemainderCongruent(n: nat, a: int, b: int)
    requires n > 0
    ensures a % n == b % n <==> Congruent(n, a, b)
    ensures Congruent(n, a, a % n)
  {
    var k, r := a / n - b / n, a % n - b % n;
    assert a - b == k * n + r;
    if r >= 0 {
      UniqueRemainder(n, a - b, k, r);
    } else {
      UniqueRemainder(n, a - b, k - 1, r + n);
    }
    UniqueRemainder(n, a - a % n, a / n, 0);
  }

  /* ---------- Hosts in turn ---------- */

  function HostsBelow(lut: Lut, h: HostId): set<HostId> {
    set k | k in lut && k < h
  }

  lemma {:induction false} AscendingBelow(ks: seq<int>, n: nat)
    requires Ascending(ks) && n < |ks|
    ensures |set k | k in ks && k < ks[n]| == n
  {
    var below := set k | k in ks && k < ks[n];
    if n == 0 {
      assert below == {};
    } else {
      AscendingBelow(ks, n - 1);
      assert below == (set k | k in ks && k < ks[n - 1]) + {ks[n - 1]};
    }
  }

  /** A top-level name is served by the host in the table with as many hosts below it as its position in the root, up
      to a multiple of the number of hosts. */
  lemma TopHostLaw(t: Tree, lut: Lut, a: string)
    requires Valid(t) && Usable(lut) && ChildIndex(t, [], a) >= 0
    ensures var h := TopHost(t, lut, a);
      && h in lut && |HostsBelow(lut, h)| < |lut|
      && Congruent(|lut|, ChildIndex(t, [], a), |HostsBelow(lut, h)|)
      && TopVector(t, lut, a) == lut[h]
  {
    hide Valid, ChildIndex;
    assert |lut.Keys| == |lut|;
    var ks, n := SortedKeys(lut.Keys), ChildIndex(t, [], a) % |lut|;
    AscendingBelow(ks, n);
    assert HostsBelow(lut, ks[n]) == set k | k in ks && k < ks[n];
    RemainderCongruent(|lut|, ChildIndex(t, [], a), 0);
  }

  /** r is chosen from v by a number, of which only the remainder matters. */
  ghost predicate ChosenBy(v: seq<Rank>, x: int, r: Rank) {
    exists k: nat :: k < |v| && v[k] == r && Congruent(|v|, x, k)
  }

  lemma ChoiceAt(v: seq<Rank>, x: int)
    requires v != []
    ensures ChosenBy(v, x, v[x % |v|])
  {
    RemainderCongruent(|v|, x, 0);
  }

  /* ---------- The three strategies ---------- */

  /** No dispatcher has an answer for no path. */
  lemma NoPathNoRank(pl: Placer, t: Tree)
    requires Valid(t) && Usable(pl.lut)
    ensures Dispatch(pl, t, "") == -1
  {
  }

  /** Hashing: the rank is the hash up to a multiple of the number of servers, so two paths share a server exactly
      when their hashes differ by one. */
  lemma HashingLaw(n: nat, hash: string -> nat, p: string, q: string)
    requires n >= 1 && p != "" && q != ""
    ensures 0 <= HashingRank(n, hash, p) < n && Congruent(n, hash(p), HashingRank(n, hash, p))
    ensures HashingRank(n, hash, p) == HashingRank(n, hash, q) <==> Congruent(n, hash(p), hash(q))
  {
    hide Congruent;
    RemainderCongruent(n, hash(p), hash(q));
  }

  lemma DispatchHashing(pl: Placer, t: Tree, p: string, q: string)
    requires Valid(t) && Ready(pl) && pl.strategy.Hashing? && p != "" && q != ""
    ensures Dispatch(pl, t, p) in pl.active && Congruent(|pl.active|, pl.hash(p), Dispatch(pl, t, p))
    ensures Dispatch(pl, t, p) == Dispatch(pl, t, q) <==> Congruent(|pl.active|, pl.hash(p), pl.hash(q))
  {
    hide Congruent, Valid, HashingRank, LutOf;
    HashingLaw(|pl.active|, pl.hash, p, q);
  }

  /** Hybrid: the root has rank 0; a path whose top-level name does not exist has none; a top-level path has its
      host's first rank; any other, existing or not, has the rank its hash selects on that host. */
  lemma DispatchHybrid(pl: Placer, t: Tree, path: string, cs: seq<string>)
    requires Valid(t) && Ready(pl) && pl.strategy.Hybrid? && Spells(path, cs)
    ensures cs == [] ==> Dispatch(pl, t, path) == 0
    ensures ROOT in t.nodes
    ensures cs != [] ==> (Dispatch(pl, t, path) == -1 <==> Walk(t, ROOT, cs[..1]) == None)
    ensures cs != [] && Walk(t, ROOT, cs[..1]).Some? ==>
      && ChildIndex(t, [], cs[0]) >= 0 && TopHost(t, pl.lut, cs[0]) in pl.lut
      && var v := pl.lut[TopHost(t, pl.lut, cs[0])];
         v != [] && if |cs| == 1 then Dispatch(pl, t, path) == v[0]
             else ChosenBy(v, pl.hash(path), Dispatch(pl, t, path))
  {
    RootLive(t);
    HybridMeaning(t, pl.lut, pl.hash, path, cs);
    if cs != [] {
      assert cs[..1] == [] + [cs[0]];
      ChildIndexFinds(t, [], cs[0]);
      if ChildIndex(t, [], cs[0]) >= 0 {
        TopHostLaw(t, pl.lut, cs[0]);
        HybridInTopVector(t, pl.lut, pl.hash, path, cs);
        InTableActive(pl.active, Dispatch(pl, t, path));
        ChoiceAt(pl.lut[TopHost(t, pl.lut, cs[0])], pl.hash(path));
      }
    }
    hide Valid, HybridRank, TopHost, TopVector, LutOf, ChildIndex, Walk;
  }

  /** Subtree: what is no directory has the rank of its dirname; the root has rank 0; a top-level directory has its
      host's first rank; any other the rank its second name selects on that host by position. */
  lemma DispatchSubtree(pl: Placer, t: Tree, path: string, cs: seq<string>)
    requires Valid(t) && Ready(pl) && pl.strategy.Subtree? && Spells(path, cs)
    ensures Dispatch(pl, t, path) == OwnerOf(t, pl.lut, cs)
    ensures cs == [] ==> Dispatch(pl, t, path) == 0
    ensures cs != [] ==> HasName(path) && (!DirAt(t, cs) ==> Dispatch(pl, t, path) == Dispatch(pl, t, DirOf(path)))
    ensures cs != [] && DirAt(t, cs) ==>
      && ChildIndex(t, [], cs[0]) >= 0 && TopHost(t, pl.lut, cs[0]) in pl.lut
      && var v := pl.lut[TopHost(t, pl.lut, cs[0])];
         v != [] && if |cs| == 1 then Dispatch(pl, t, path) == v[0]
             else ChosenBy(v, ChildIndex(t, cs[..1], cs[1]), Dispatch(pl, t, path))
  {
    SubtreeMeaning(t, pl.lut, path, cs);
    if cs != [] {
      SpellsDirname(path, cs);
      SubtreeMeaning(t, pl.lut, DirOf(path), cs[..|cs| - 1]);
      if DirAt(t, cs) {
        RankOfDirInTopVector(t, pl.lut, cs);
        TopHostLaw(t, pl.lut, cs[0]);
        if |cs| > 1 { ChoiceAt(pl.lut[TopHost(t, pl.lut, cs[0])], ChildIndex(t, cs[..1], cs[1])); }
      }
    }
    hide Valid, SubtreeRank, TopHost, TopVector, LutOf, ChildIndex, Walk;
  }
}
