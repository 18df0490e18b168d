/** Scatter and gather of LISTDIR and RMDIR in cluster/services/MDSService.cc, over the children of one directory and
    the rank the dispatcher answers for each of them. */
module Gather {
  import opened Collections
  import opened Topology

  /** The children a server of rank r answers for: its own, and those no rank was found for. */
  function Own<I>(kids: seq<I>, ranks: seq<Rank>, r: Rank): seq<I>
    requires |kids| == |ranks|
  {
    if kids == [] then []
    else
      var n := |kids| - 1;
      Own(kids[..n], ranks[..n], r) + (if ranks[n] == r || ranks[n] == -1 then [kids[n]] else [])
  }

  /** other_targeted_mds: the other ranks that own a child, in order of first appearance. */
  function Others(ranks: seq<Rank>, r: Rank): seq<Rank> {
    if ranks == [] then []
    else
      var n := |ranks| - 1;
      var os := Others(ranks[..n], r);
      if ranks[n] != r && ranks[n] != -1 && ranks[n] !in os then os + [ranks[n]] else os
  }

  /** The answers of the other ranks, one after the other. */
  function FromOthers<I>(kids: seq<I>, ranks: seq<Rank>, os: seq<Rank>): seq<I>
    requires |kids| == |ranks|
  {
    if os == [] then []
    else FromOthers(kids, ranks, os[..|os| - 1]) + Own(kids, ranks, os[|os| - 1])
  }

  /** The listing a server of rank r sends for a directory whose own rank is dirRank: the other servers stay silent
      when they cannot tell whose directory it is. */
  function Listing<I>(kids: seq<I>, ranks: seq<Rank>, r: Rank, dirRank: Rank): seq<I>
    requires |kids| == |ranks|
  {
    Own(kids, ranks, r) + (if dirRank == -1 then [] else FromOthers(kids, ranks, Others(ranks, r)))
  }

  /* ---------- Who is asked ---------- */

  ghost predicate NoRepeats<T>(s: seq<T>) {
    forall i, j | 0 <= i < j < |s| :: s[i] != s[j]
  }

  /** The servers asked are exactly the other owners, each asked once, never the asker itself. */
  lemma {:induction false} OthersExact(ranks: seq<Rank>, r: Rank)
    ensures NoRepeats(Others(ranks, r))
    ensures forall x :: x in Others(ranks, r) <==> x in ranks && x != r && x != -1
  {
    if ranks != [] {
      var n := |ranks| - 1;
      OthersExact(ranks[..n], r);
      assert ranks == ranks[..n] + [ranks[n]];
    }
  }

  /* ---------- In which order ---------- */

  /** Where a rank appears for the first time. */
  function FirstAt(ranks: seq<Rank>, x: Rank): (k: nat)
    requires x in ranks
    ensures k < |ranks| && ranks[k] == x && forall i | 0 <= i < k :: ranks[i] != x
  {
    if ranks[0] == x then 0 else 1 + FirstAt(ranks[1..], x)
  }

  /** The servers are asked in the order in which they first appear among the children. */
  lemma {:induction false} OthersInOrder(ranks: seq<Rank>, r: Rank, i: nat, j: nat)
    requires i < j < |Others(ranks, r)|
    ensures Others(ranks, r)[i] in ranks && Others(ranks, r)[j] in ranks
    ensures FirstAt(ranks, Others(ranks, r)[i]) < FirstAt(ranks, Others(ranks, r)[j])
  {
    var n := |ranks| - 1;
    var before, os := Others(ranks[..n], r), Others(ranks, r);
    OthersExact(ranks, r);
    OthersExact(ranks[..n], r);
    assert os[i] in os && os[j] in os && os[i] == before[i] && before[i] in before;
    hide Others;
    FirstAtPrefix(ranks, n, os[i]);
    if j < |before| {
      OthersInOrder(ranks[..n], r, i, j);
      assert os[j] == before[j] && before[j] in before;
      FirstAtPrefix(ranks, n, os[j]);
    } else {
      assert os[j] == ranks[n] && os[j] !in ranks[..n];
      FirstAtLast(ranks, n);
    }
  }

  lemma FirstAtPrefix(ranks: seq<Rank>, n: nat, x: Rank)
    requires n <= |ranks| && x in ranks[..n]
    ensures x in ranks && FirstAt(ranks, x) == FirstAt(ranks[..n], x) < n
  {
    hide FirstAt;
    var k := FirstAt(ranks[..n], x);
    assert ranks[k] == x;
    var l := FirstAt(ranks, x);
    assert l < n ==> ranks[..n][l] == x;
  }

  lemma FirstAtLast(ranks: seq<Rank>, n: nat)
    requires |ranks| == n + 1 && ranks[n] !in ranks[..n]
    ensures FirstAt(ranks, ranks[n]) == n
  {
    hide FirstAt;
    var k := FirstAt(ranks, ranks[n]);
    assert forall i | 0 <= i < n :: ranks[i] == ranks[..n][i] != ranks[n];
  }

  /** A server answers in directory order: for the first children, and then for the rest. */
  lemma {:induction false} OwnInOrder<I>(kids: seq<I>, ranks: seq<Rank>, more: seq<I>, moreRanks: seq<Rank>, r: Rank)
    requires |kids| == |ranks| && |more| == |moreRanks|
    ensures Own(kids + more, ranks + moreRanks, r) == Own(kids, ranks, r) + Own(more, moreRanks, r)
    decreases |more|
  {
    if more == [] {
      assert kids + more == kids && ranks + moreRanks == ranks;
    } else {
      var n, all, allRanks := |more| - 1, kids + more, ranks + moreRanks;
      assert all[..|kids| + n] == kids + more[..n] && all[|kids| + n] == more[n];
      assert allRanks[..|kids| + n] == ranks + moreRanks[..n] && allRanks[|kids| + n] == moreRanks[n];
      OwnInOrder(kids, ranks, more[..n], moreRanks[..n], r);
    }
  }

  /** The listing is one block after the other: the master's, then each other server's in the order they were asked.
      */
  lemma {:induction false} BlocksInOrder<I>(kids: seq<I>, ranks: seq<Rank>, os: seq<Rank>, qs: seq<Rank>)
    requires |kids| == |ranks|
    ensures FromOthers(kids, ranks, os + qs) == FromOthers(kids, ranks, os) + FromOthers(kids, ranks, qs)
    decreases |qs|
  {
    hide Own;
    if qs == [] {
      assert os + qs == os;
    } else {
      var n, all := |qs| - 1, os + qs;
      assert all[..|os| + n] == os + qs[..n] && all[|os| + n] == qs[n];
      assert FromOthers(kids, ranks, all) == FromOthers(kids, ranks, os + qs[..n]) + Own(kids, ranks, qs[n]);
      BlocksInOrder(kids, ranks, os, qs[..n]);
    }
  }

  /* ---------- What is gathered ---------- */

  /** Each child once, except that those without a rank come `unranked` times. */
  function Expected<I>(kids: seq<I>, ranks: seq<Rank>, unranked: nat): multiset<I>
    requires |kids| == |ranks|
  {
    if kids == [] then multiset{}
    else
      var n := |kids| - 1;
      Expected(kids[..n], ranks[..n], unranked) + multiset{}[kids[n] := if ranks[n] == -1 then unranked else 1]
  }

  /** How many of the servers os answer for a child of rank x. */
  function Answers(os: seq<Rank>, x: Rank): nat {
    if os == [] then 0
    else Answers(os[..|os| - 1], x) + (if x == os[|os| - 1] || x == -1 then 1 else 0)
  }

  lemma {:induction false} AnswersOnce(os: seq<Rank>, x: Rank)
    requires NoRepeats(os) && -1 !in os
    ensures Answers(os, x) == if x == -1 then |os| else if x in os then 1 else 0
  {
    if os != [] {
      var init := os[..|os| - 1];
      AnswersOnce(init, x);
      assert os == init + [os[|os| - 1]];
    }
  }

  lemma {:induction false} OneMoreChild<I>(kids: seq<I>, ranks: seq<Rank>, os: seq<Rank>)
    requires |kids| == |ranks| && kids != []
    ensures var n := |kids| - 1;
      multiset(FromOthers(kids, ranks, os))
      == multiset(FromOthers(kids[..n], ranks[..n], os)) + multiset{}[kids[n] := Answers(os, ranks[n])]
  {
    if os != [] {
      OneMoreChild(kids, ranks, os[..|os| - 1]);
    }
  }

  /** The gathered multiset when the servers os are asked. */
  lemma {:induction false} GatheredFrom<I>(kids: seq<I>, ranks: seq<Rank>, r: Rank, os: seq<Rank>)
    requires |kids| == |ranks| && r != -1
    requires NoRepeats(os) && -1 !in os && r !in os
    requires forall x | x in ranks :: x == r || x == -1 || x in os
    ensures multiset(Own(kids, ranks, r) + FromOthers(kids, ranks, os)) == Expected(kids, ranks, 1 + |os|)
    decreases |kids|
  {
    if kids == [] {
      NothingFromOthers(kids, ranks, os);
    } else {
      var n := |kids| - 1;
      assert ranks[n] in ranks && forall x | x in ranks[..n] :: x in ranks;
      GatheredFrom(kids[..n], ranks[..n], r, os);
      OneMoreChild(kids, ranks, os);
      AnswersOnce(os, ranks[n]);
    }
  }

  lemma {:induction false} NothingFromOthers<I>(kids: seq<I>, ranks: seq<Rank>, os: seq<Rank>)
    requires |kids| == |ranks| == 0
    ensures FromOthers(kids, ranks, os) == []
  {
    if os != [] {
      NothingFromOthers(kids, ranks, os[..|os| - 1]);
    }
  }

  /** Gathering is exact up to the unranked: asked of its own server, a directory's listing holds each child with a
      rank once, and each child without one as many times as servers were involved. */
  lemma GatherExact<I>(kids: seq<I>, ranks: seq<Rank>, r: Rank)
    requires |kids| == |ranks| && r != -1
    ensures multiset(Listing(kids, ranks, r, r)) == Expected(kids, ranks, 1 + |Others(ranks, r)|)
  {
    OthersExact(ranks, r);
    GatheredFrom(kids, ranks, r, Others(ranks, r));
  }

  lemma {:induction false} ExpectedPlain<I>(kids: seq<I>, ranks: seq<Rank>, unranked: nat)
    requires |kids| == |ranks|
    ensures |Expected(kids, ranks, unranked)| >= |kids| || unranked == 0
    ensures (-1 !in ranks || unranked == 1) ==> Expected(kids, ranks, unranked) == multiset(kids)
    ensures -1 in ranks && unranked > 1 ==> |Expected(kids, ranks, unranked)| > |kids|
  {
    if kids != [] {
      var n := |kids| - 1;
      ExpectedPlain(kids[..n], ranks[..n], unranked);
      assert kids == kids[..n] + [kids[n]] && ranks == ranks[..n] + [ranks[n]];
    }
  }

  lemma {:induction false} OwnCount<I>(kids: seq<I>, ranks: seq<Rank>, r: Rank)
    requires |kids| == |ranks|
    ensures |Own(kids, ranks, r)| <= |kids|
    ensures |Own(kids, ranks, r)| == |kids| <==> Others(ranks, r) == []
    ensures Others(ranks, r) == [] ==> Own(kids, ranks, r) == kids
  {
    if kids != [] {
      var n := |kids| - 1;
      OwnCount(kids[..n], ranks[..n], r);
      OthersExact(ranks[..n], r);
      assert kids == kids[..n] + [kids[n]];
    }
  }

  /** The listing is the directory exactly when nobody else had to be asked, or the directory has a rank and so has
      every child. */
  lemma ListingIsDirectory<I>(kids: seq<I>, ranks: seq<Rank>, r: Rank, dirRank: Rank)
    requires |kids| == |ranks| && r != -1 && (dirRank == -1 || dirRank == r)
    ensures multiset(Listing(kids, ranks, r, dirRank)) == multiset(kids)
       <==> Others(ranks, r) == [] || (dirRank != -1 && -1 !in ranks)
  {
    var os := Others(ranks, r);
    OwnCount(kids, ranks, r);
    GatherExact(kids, ranks, r);
    ExpectedPlain(kids, ranks, 1 + |os|);
    if dirRank == -1 {
      assert Listing(kids, ranks, r, dirRank) == Own(kids, ranks, r);
      assert |multiset(Own(kids, ranks, r))| == |Own(kids, ranks, r)| && |multiset(kids)| == |kids|;
    } else if os == [] {
      assert Listing(kids, ranks, r, dirRank) == Own(kids, ranks, r) + [];
    } else {
      assert |multiset(kids)| == |kids|;
    }
  }

  /* ---------- Work ---------- */

  function Sum(ns: seq<nat>): nat {
    if ns == [] then 0 else Sum(ns[..|ns| - 1]) + ns[|ns| - 1]
  }

  /** The entries each asked server counts. */
  function Counts<I>(kids: seq<I>, ranks: seq<Rank>, os: seq<Rank>): seq<nat>
    requires |kids| == |ranks|
  {
    if os == [] then [] else Counts(kids, ranks, os[..|os| - 1]) + [|Own(kids, ranks, os[|os| - 1])|]
  }

  lemma OneMoreServer<I>(kids: seq<I>, ranks: seq<Rank>, os: seq<Rank>, r: Rank)
    requires |kids| == |ranks|
    ensures Counts(kids, ranks, os + [r]) == Counts(kids, ranks, os) + Counts(kids, ranks, [r])
    ensures FromOthers(kids, ranks, os + [r]) == FromOthers(kids, ranks, os) + FromOthers(kids, ranks, [r])
  {
    assert (os + [r])[..|os|] == os && [r][..0] == [];
  }

  lemma OneServer<I>(kids: seq<I>, ranks: seq<Rank>, r: Rank)
    requires |kids| == |ranks|
    ensures Counts(kids, ranks, [r]) == [|Own(kids, ranks, r)|]
    ensures FromOthers(kids, ranks, [r]) == Own(kids, ranks, r)
  {
    assert [r][..0] == [];
    assert [] + Own(kids, ranks, r) == Own(kids, ranks, r);
  }

  /** The listing block by block: the master's children, then those of each server asked, in the order of asking. */
  lemma ListingBlocks<I>(kids: seq<I>, ranks: seq<Rank>, r: Rank, dirRank: Rank, n: nat)
    requires |kids| == |ranks| && n < |Others(ranks, r)| && dirRank != -1
    ensures var os := Others(ranks, r);
      Listing(kids, ranks, r, dirRank)
      == Own(kids, ranks, r) + FromOthers(kids, ranks, os[..n]) + Own(kids, ranks, os[n])
         + FromOthers(kids, ranks, os[n + 1..])
  {
    var os := Others(ranks, r);
    hide Own, FromOthers, Others;
    BlocksInOrder(kids, ranks, os[..n], [os[n]]);
    BlocksInOrder(kids, ranks, os[..n] + [os[n]], os[n + 1..]);
    OneServer(kids, ranks, os[n]);
    assert os == os[..n] + [os[n]] + os[n + 1..];
  }

  lemma {:induction false} CountsSum<I>(kids: seq<I>, ranks: seq<Rank>, os: seq<Rank>)
    requires |kids| == |ranks|
    ensures Sum(Counts(kids, ranks, os)) == |FromOthers(kids, ranks, os)|
  {
    if os != [] {
      var init := os[..|os| - 1];
      CountsSum(kids, ranks, init);
      var cs := Counts(kids, ranks, os);
      assert cs[..|cs| - 1] == Counts(kids, ranks, init);
    }
  }

  /** When every child has a rank, the entries counted by the master and by the servers it asks add up to the
      directory. */
  lemma WorkAddsUp<I>(kids: seq<I>, ranks: seq<Rank>, r: Rank)
    requires |kids| == |ranks| && r != -1 && -1 !in ranks
    ensures |Own(kids, ranks, r)| + Sum(Counts(kids, ranks, Others(ranks, r))) == |kids|
  {
    var os := Others(ranks, r);
    CountsSum(kids, ranks, os);
    GatherExact(kids, ranks, r);
    ExpectedPlain(kids, ranks, 1 + |os|);
    var l := Listing(kids, ranks, r, r);
    assert |multiset(l)| == |l| && |multiset(kids)| == |kids|;
  }

  /** At most n - 1 servers are asked when n are active. */
  lemma FewAsked(ranks: seq<Rank>, r: Rank, n: nat)
    requires 0 <= r < n && forall x | x in ranks :: x == -1 || 0 <= x < n
    ensures |Others(ranks, r)| <= n - 1
  {
    OthersExact(ranks, r);
    var os := Others(ranks, r);
    ElementsCount(os);
    IntervalSize(0, n);
    SubsetSize(Elements(os), Interval(0, n) - {r});
  }

  function Elements(s: seq<Rank>): set<Rank> {
    set x | x in s
  }

  lemma {:induction false} ElementsCount(s: seq<Rank>)
    requires NoRepeats(s)
    ensures |Elements(s)| == |s|
  {
    if s != [] {
      var init := s[..|s| - 1];
      ElementsCount(init);
      assert s == init + [s[|s| - 1]];
      assert Elements(s) == Elements(init) + {s[|s| - 1]};
    }
  }
}
