/** cluster/services/mds/MetadataDispatcher.cc: which rank owns a path, as functions of the tree and the lookup
    table. */
module Placement {
  import opened Collections
  import opened Paths
  import opened Namespace
  import opened Topology

  /** Ranks of the active servers on each host. `std::map` orders it by host. */
  type Lut = map<HostId, seq<Rank>>

  /* ---------- The lookup table ---------- */

  predicate AllActive(active: map<Rank, Entity>, ranks: seq<Rank>) {
    forall r | r in ranks :: r in active
  }

  /** The table after the given ranks have been entered: each is appended to its host's vector, started if need be. */
  function LutUpTo(active: map<Rank, Entity>, ranks: seq<Rank>): Lut
    requires AllActive(active, ranks)
  {
    if ranks == [] then map[]
    else
      var init, last := ranks[..|ranks| - 1], ranks[|ranks| - 1];
      assert last in ranks && forall r | r in init :: r in ranks;
      var before, h := LutUpTo(active, init), active[last].host;
      before[h := (if h in before then before[h] else []) + [last]]
  }

  function LutOf(active: map<Rank, Entity>): Lut {
    LutUpTo(active, SortedKeys(active.Keys))
  }

  lemma AscendingAppend(old': seq<Rank>, init: seq<Rank>, last: Rank)
    requires Ascending(init + [last]) && Ascending(old') && forall r | r in old' :: r in init
    ensures Ascending(old' + [last])
  {
    assert (init + [last])[|init|] == last;
    forall i | 0 <= i < |old'|
      ensures old'[i] < last
    {
      assert old'[i] in old';
      assert forall j | 0 <= j < |init| :: (init + [last])[j] == init[j];
    }
  }

  lemma {:induction false} LutUpToHosts(active: map<Rank, Entity>, ranks: seq<Rank>, h: HostId)
    requires AllActive(active, ranks)
    ensures h in LutUpTo(active, ranks) <==> exists r :: r in ranks && active[r].host == h
  {
    if ranks != [] {
      var init, last := ranks[..|ranks| - 1], ranks[|ranks| - 1];
      assert ranks == init + [last];
      LutUpToHosts(active, init, h);
    }
  }

  lemma {:induction false} LutUpToVector(active: map<Rank, Entity>, ranks: seq<Rank>, h: HostId)
    requires AllActive(active, ranks) && Ascending(ranks) && h in LutUpTo(active, ranks)
    ensures var lut := LutUpTo(active, ranks);
      lut[h] != [] && Ascending(lut[h]) && forall r :: r in lut[h] <==> r in ranks && active[r].host == h
  {
    if ranks != [] {
      var init, last := ranks[..|ranks| - 1], ranks[|ranks| - 1];
      assert ranks == init + [last];
      var before := LutUpTo(active, init);
      LutUpToHosts(active, init, h);
      if h in before {
        LutUpToVector(active, init, h);
      }
      if active[last].host == h {
        AscendingAppend(if h in before then before[h] else [], init, last);
      }
    }
  }

  /** What dispatching relies on: a non-empty table of non-empty vectors. */
  predicate Usable(lut: Lut) {
    lut != map[] && forall h | h in lut :: lut[h] != []
  }

  /** The hosts of the table are the hosts of active ranks, and each vector is the ascending list of its host's
      ranks. */
  lemma LutVector(active: map<Rank, Entity>, h: HostId)
    ensures h in LutOf(active) <==> exists r :: r in active && active[r].host == h
    ensures h in LutOf(active) ==> LutOf(active)[h] != [] && Ascending(LutOf(active)[h])
    ensures h in LutOf(active) ==> forall r :: r in LutOf(active)[h] <==> r in active && active[r].host == h
  {
    var ks := SortedKeys(active.Keys);
    assert forall r :: r in ks <==> r in active;
    LutUpToHosts(active, ks, h);
    if h in LutOf(active) {
      LutUpToVector(active, ks, h);
    }
  }

  /** build_lut is a partition: each active rank is in the vector of its own host and in no other, every vector is
      non-empty and strictly ascending, and holds active ranks only. */
  lemma LutPartition(active: map<Rank, Entity>)
    requires active != map[]
    ensures Usable(LutOf(active))
    ensures forall r | r in active :: active[r].host in LutOf(active)
    ensures forall h | h in LutOf(active) :: Ascending(LutOf(active)[h])
    ensures forall h, r | h in LutOf(active) :: r in LutOf(active)[h] <==> r in active && active[r].host == h
  {
    var lut := LutOf(active);
    forall h
      ensures h in lut <==> exists r :: r in active && active[r].host == h
      ensures h in lut ==> lut[h] != [] && Ascending(lut[h]) && forall r :: r in lut[h] <==>
          r in active && active[r].host == h
    {
      LutVector(active, h);
    }
    var r := SomeKey(active);
    assert active[r].host in lut;
  }

  lemma SomeKey<K, V>(m: map<K, V>) returns (k: K)
    requires m != map[]
    ensures k in m
  {
    k :| k in m;
  }

  ghost predicate InTable(lut: Lut, r: Rank) {
    exists h :: h in lut && r in lut[h]
  }

  lemma InTableActive(active: map<Rank, Entity>, r: Rank)
    requires InTable(LutOf(active), r)
    ensures r in active
  {
    var h :| h in LutOf(active) && r in LutOf(active)[h];
    LutVector(active, h);
  }

  /** The vector an iterator advanced n times from begin() points at. */
  function NthVector(lut: Lut, n: nat): (v: seq<Rank>)
    requires Usable(lut) && n < |lut|
    ensures v != [] && exists h :: h in lut && v == lut[h]
    ensures forall r | r in v :: InTable(lut, r)
  {
    assert |lut.Keys| == |lut|;
    lut[SortedKeys(lut.Keys)[n]]
  }

  /* ---------- The three strategies ---------- */

  function NameChars(path: string): nat {
    if path == "" then 0 else NameChars(path[..|path| - 1]) + (if path[|path| - 1] == '/' then 0 else 1)
  }

  lemma {:induction false} NameCharsPrefix(path: string, n: nat)
    requires n <= |path|
    ensures NameChars(path[..n]) <= NameChars(path)
    ensures (exists i :: n <= i < |path| && path[i] != '/') ==> NameChars(path[..n]) < NameChars(path)
  {
    if n < |path| {
      var init := path[..|path| - 1];
      assert init[..n] == path[..n];
      NameCharsPrefix(init, n);
    } else {
      assert path[..n] == path;
    }
  }

  /** dirname always drops a name, which is why subtree dispatch ends. */
  lemma DirOfShorter(path: string)
    requires HasName(path)
    ensures NameChars(DirOf(path)) < NameChars(path)
  {
    TrimFacts(path);
    var t := TrimSlashes(path);
    var k := LastSlash(t);
    var d := if k < 0 then "" else t[..k];
    assert d == path[..|d|];
    NameCharsPrefix(path, |d|);
    assert path[|t| - 1] != '/';
    assert NameChars("/"[..0]) == 0;
  }

  lemma {:induction false} TrimFacts(path: string)
    requires HasName(path)
    ensures TrimSlashes(path) <= path && TrimSlashes(path) != ""
    ensures TrimSlashes(path)[|TrimSlashes(path)| - 1] != '/'
  {
    if path[|path| - 1] == '/' {
      var init := path[..|path| - 1];
      var i :| 0 <= i < |path| && path[i] != '/';
      assert init[i] != '/';
      TrimFacts(init);
    }
  }

  lemma {:induction false} NoNameNoTokens(path: string)
    requires !HasName(path)
    ensures Tokens(path) == []
  {
    if path != "" {
      assert path[0] == '/';
      assert forall i | 0 <= i < |path[1..]| :: path[1..][i] == path[i + 1];
      NoNameNoTokens(path[1..]);
    }
  }

  /** A path with no name in it is the root, so dirname is only ever asked about a path with a name. */
  lemma MissingHasName(t: Tree, path: string)
    requires Valid(t) && path != ""
    ensures !IsDir(t, path) ==> HasName(path)
    ensures Components(path) != [] ==> HasName(path)
  {
    if !HasName(path) {
      NoNameNoTokens(path);
    }
  }

  /** which_child: the position of a path's last name in its directory, or -1. */
  function WhichChild(t: Tree, path: string): (k: int)
    requires Valid(t) && HasName(path)
    ensures k >= -1
  {
    var parent := Lookup(t, DirOf(path));
    if parent == None then -1
    else
      assert ValidEntries(t, parent.value, t.nodes[parent.value].entries);
      FirstNamed(t, t.nodes[parent.value].entries, BaseOf(path))
  }

  lemma NamedPath(c: string, stem: string)
    requires ValidName(c)
    ensures HasName(stem + "/" + c) && HasName("/" + c)
  {
    assert c[0] in c;
    assert (stem + "/" + c)[|stem| + 1] == c[0];
    assert ("/" + c)[1] == c[0];
  }

  /** Whatever the string, the answer is -1, 0 or a rank of the table. */
  function SubtreeRank(t: Tree, lut: Lut, path: string): (r: Rank)
    requires Valid(t) && Usable(lut)
    ensures r == -1 || r == 0 || InTable(lut, r)
    decreases NameChars(path)
  {
    if path == "" then -1
    else if !IsDir(t, path) then
      MissingHasName(t, path);
      DirOfShorter(path);
      SubtreeRank(t, lut, DirOf(path))
    else SubtreeDirRank(t, lut, path)
  }

  /** The switch on the depth of an existing directory. */
  function SubtreeDirRank(t: Tree, lut: Lut, path: string): (r: Rank)
    requires Valid(t) && Usable(lut) && path != ""
    ensures r == -1 || r == 0 || InTable(lut, r)
  {
    var v := Components(path);
    if |v| == 0 then 0
    else if |v| == 1 then
      MissingHasName(t, path);
      var rank := WhichChild(t, path);
      if rank == -1 then -1 else NthVector(lut, rank % |lut|)[0]
    else
      ComponentsValid(path);
      NamedPath(v[0], "");
      NamedPath(v[1], "/" + v[0]);
      var parentRank := WhichChild(t, "/" + v[0]);
      var curRank := WhichChild(t, "/" + v[0] + "/" + v[1]);
      if parentRank == -1 || curRank == -1 then -1
      else
        var ranks := NthVector(lut, parentRank % |lut|);
        ranks[curRank % |ranks|]
  }

  /** std::hash is any function on strings; only its remainder is used. */
  function HashingRank(n: nat, hash: string -> nat, path: string): Rank {
    if path == "" || n == 0 then -1 else hash(path) % n
  }

  function HybridRank(t: Tree, lut: Lut, hash: string -> nat, path: string): (r: Rank)
    requires Valid(t) && Usable(lut)
    ensures r == -1 || r == 0 || InTable(lut, r)
  {
    if path == "" then -1
    else
      var v := Components(path);
      if |v| == 0 then 0
      else if |v| == 1 then
        MissingHasName(t, path);
        var rank := WhichChild(t, path);
        if rank == -1 then -1 else NthVector(lut, rank % |lut|)[0]
      else
        ComponentsValid(path);
        NamedPath(v[0], "");
        var parentRank := WhichChild(t, "/" + v[0]);
        if parentRank == -1 then -1
        else
          var ranks := NthVector(lut, parentRank % |lut|);
          ranks[hash(path) % |ranks|]
  }

  /* ---------- What subtree dispatch means ---------- */

  ghost predicate DirAt(t: Tree, cs: seq<string>)
    requires Valid(t)
  {
    var r := Walk(t, ROOT, cs);
    r.Some? && t.nodes[r.value].isDir
  }

  /** Position of the name among the entries of the inode at cs. */
  function ChildIndex(t: Tree, cs: seq<string>, name: string): (k: int)
    requires Valid(t)
    ensures k >= -1
  {
    var d := Walk(t, ROOT, cs);
    if d == None then -1
    else
      assert ValidEntries(t, d.value, t.nodes[d.value].entries);
      FirstNamed(t, t.nodes[d.value].entries, name)
  }

  lemma ChildIndexFinds(t: Tree, cs: seq<string>, name: string)
    requires Valid(t)
    ensures ChildIndex(t, cs, name) >= 0 <==> Walk(t, ROOT, cs + [name]).Some?
  {
    WalkConcat(t, ROOT, cs, [name]);
    assert [name][1..] == [];
  }

  lemma {:induction false} PrefixExists(t: Tree, cs: seq<string>, n: nat)
    requires Valid(t) && n <= |cs| && Walk(t, ROOT, cs).Some?
    ensures Walk(t, ROOT, cs[..n]).Some?
    ensures n < |cs| ==> ChildIndex(t, cs[..n], cs[n]) >= 0
  {
    WalkConcat(t, ROOT, cs[..n], cs[n..]);
    assert cs == cs[..n] + cs[n..];
    if n < |cs| {
      assert cs[n..][0] == cs[n];
    }
  }

  /** The vector of the host that serves the top-level name a. */
  function TopVector(t: Tree, lut: Lut, a: string): (v: seq<Rank>)
    requires Valid(t) && Usable(lut) && ChildIndex(t, [], a) >= 0
    ensures v != [] && exists h :: h in lut && v == lut[h]
    ensures forall r | r in v :: InTable(lut, r)
  {
    NthVector(lut, ChildIndex(t, [], a) % |lut|)
  }

  /** The rank of a directory: the first of its host's vector at depth one, below that chosen by the second name. */
  function RankOfDir(t: Tree, lut: Lut, cs: seq<string>): Rank
    requires Valid(t) && Usable(lut) && Walk(t, ROOT, cs).Some?
  {
    if cs == [] then 0
    else
      PrefixExists(t, cs, 0);
      var v := TopVector(t, lut, cs[0]);
      if |cs| == 1 then v[0]
      else
        PrefixExists(t, cs, 1);
        v[ChildIndex(t, cs[..1], cs[1]) % |v|]
  }

  /** A path belongs to the rank of the deepest directory on it. */
  ghost function OwnerOf(t: Tree, lut: Lut, cs: seq<string>): Rank
    requires Valid(t) && Usable(lut)
  {
    if DirAt(t, cs) || cs == [] then RankOfDir(t, lut, cs) else OwnerOf(t, lut, cs[..|cs| - 1])
  }

  lemma WhichChildMeaning(t: Tree, path: string, cs: seq<string>)
    requires Valid(t) && Spells(path, cs) && cs != []
    ensures HasName(path) && WhichChild(t, path) == ChildIndex(t, cs[..|cs| - 1], cs[|cs| - 1])
  {
    SpellsDirname(path, cs);
    SpellsComponents(DirOf(path), cs[..|cs| - 1]);
  }

  lemma TopSpellings(cs: seq<string>)
    requires ValidNames(cs) && cs != []
    ensures Spells("/" + cs[0], cs[..1])
    ensures |cs| > 1 ==> Spells("/" + cs[0] + "/" + cs[1], cs[..2])
  {
    assert cs[0] in cs;
    assert cs[..1][..0] == [] && cs[..1][0] == cs[0];
    assert Absolute(cs[..1]) == "" + "/" + cs[0] == "/" + cs[0];
    if |cs| > 1 {
      assert cs[1] in cs;
      assert cs[..2][..1] == cs[..1] && cs[..2][1] == cs[1];
    }
  }

  /** Subtree dispatch of a canonical path, existing or not, is the rank of the deepest directory on it. */
  lemma {:induction false} SubtreeMeaning(t: Tree, lut: Lut, path: string, cs: seq<string>)
    requires Valid(t) && Usable(lut) && Spells(path, cs)
    ensures SubtreeRank(t, lut, path) == OwnerOf(t, lut, cs)
    decreases |cs|
  {
    SpellsComponents(path, cs);
    assert IsDir(t, path) == DirAt(t, cs);
    if !DirAt(t, cs) {
      SpellsDirname(path, cs);
      SubtreeMeaning(t, lut, DirOf(path), cs[..|cs| - 1]);
    } else if cs != [] {
      SubtreeDirMeaning(t, lut, path, cs);
    }
  }

  lemma SubtreeDirMeaning(t: Tree, lut: Lut, path: string, cs: seq<string>)
    requires Valid(t) && Usable(lut) && Spells(path, cs) && DirAt(t, cs) && cs != []
    ensures path != "" && SubtreeDirRank(t, lut, path) == RankOfDir(t, lut, cs)
  {
    SpellsComponents(path, cs);
    PrefixExists(t, cs, 0);
    assert cs[..0] == [];
    if |cs| == 1 {
      WhichChildMeaning(t, path, cs);
    } else {
      PrefixExists(t, cs, 1);
      TopIndexes(t, cs);
    }
  }

  lemma TopIndexes(t: Tree, cs: seq<string>)
    requires Valid(t) && ValidNames(cs) && cs != []
    ensures HasName("/" + cs[0]) && WhichChild(t, "/" + cs[0]) == ChildIndex(t, [], cs[0])
    ensures |cs| > 1 ==> HasName("/" + cs[0] + "/" + cs[1])
    ensures |cs| > 1 ==> WhichChild(t, "/" + cs[0] + "/" + cs[1]) == ChildIndex(t, cs[..1], cs[1])
  {
    TopSpellings(cs);
    WhichChildMeaning(t, "/" + cs[0], cs[..1]);
    assert cs[..1][..0] == [];
    if |cs| > 1 {
      WhichChildMeaning(t, "/" + cs[0] + "/" + cs[1], cs[..2]);
      assert cs[..2][..1] == cs[..1];
    }
  }

  lemma RankOfDirInTopVector(t: Tree, lut: Lut, cs: seq<string>)
    requires Valid(t) && Usable(lut) && Walk(t, ROOT, cs).Some? && cs != []
    ensures ChildIndex(t, [], cs[0]) >= 0 && RankOfDir(t, lut, cs) in TopVector(t, lut, cs[0])
  {
    PrefixExists(t, cs, 0);
    assert cs[..0] == [];
    if |cs| > 1 {
      PrefixExists(t, cs, 1);
    }
  }

  /** Every canonical path, existing or not, has an owner among the active ranks. */
  lemma {:induction false} OwnerActive(t: Tree, active: map<Rank, Entity>, cs: seq<string>)
    requires Valid(t) && 0 in active && Usable(LutOf(active))
    ensures OwnerOf(t, LutOf(active), cs) in active
  {
    if DirAt(t, cs) && cs != [] {
      RankOfDirInTopVector(t, LutOf(active), cs);
      InTableActive(active, RankOfDir(t, LutOf(active), cs));
    } else if cs != [] {
      OwnerActive(t, active, cs[..|cs| - 1]);
    }
  }

  lemma SubtreeTotal(t: Tree, active: map<Rank, Entity>, path: string, cs: seq<string>)
    requires Valid(t) && 0 in active && Spells(path, cs)
    ensures Usable(LutOf(active)) && SubtreeRank(t, LutOf(active), path) in active
  {
    LutPartition(active);
    OwnerActive(t, active, cs);
    SubtreeMeaning(t, LutOf(active), path, cs);
  }

  /** From depth two on, every child of a directory belongs to the directory's own rank. */
  lemma SubtreeLocal(t: Tree, lut: Lut, path: string, cs: seq<string>, name: string)
    requires Valid(t) && Usable(lut) && path == Join(cs) && ValidNames(cs) && ValidName(name)
    requires DirAt(t, cs) && |cs| >= 2
    ensures SubtreeRank(t, lut, path + "/" + name) == SubtreeRank(t, lut, path)
  {
    hide Valid, Usable, SubtreeRank, ValidNames, ValidName;
    SpellsChild(path, cs, name);
    var child := cs + [name];
    SubtreeMeaning(t, lut, path, cs);
    SubtreeMeaning(t, lut, path + "/" + name, child);
    assert child[..|child| - 1] == cs;
    if DirAt(t, child) {
      assert child[0] == cs[0] && child[1] == cs[1] && child[..1] == cs[..1];
    }
  }

  /** Everything under one top-level directory is owned by ranks of one host's vector. */
  lemma {:induction false} OwnerOnTopHost(t: Tree, lut: Lut, cs: seq<string>)
    requires Valid(t) && Usable(lut) && cs != [] && DirAt(t, cs[..1])
    ensures ChildIndex(t, [], cs[0]) >= 0 && OwnerOf(t, lut, cs) in TopVector(t, lut, cs[0])
  {
    PrefixExists(t, cs[..1], 0);
    assert cs[..1][..0] == [] && cs[..1][0] == cs[0];
    assert |cs| == 1 ==> cs[..1] == cs;
    if DirAt(t, cs) {
      RankOfDirInTopVector(t, lut, cs);
    } else {
      var init := cs[..|cs| - 1];
      assert init[..1] == cs[..1];
      OwnerOnTopHost(t, lut, init);
    }
  }

  /* ---------- What hybrid dispatch means ---------- */

  /** Hybrid dispatch of a canonical path: -1 exactly when its top-level name does not exist; otherwise a rank of the
      host serving that name, the first one at depth one and a hashed one below. */
  lemma HybridMeaning(t: Tree, lut: Lut, hash: string -> nat, path: string, cs: seq<string>)
    requires Valid(t) && Usable(lut) && Spells(path, cs)
    ensures HybridRank(t, lut, hash, path) ==
      if cs == [] then 0
      else if ChildIndex(t, [], cs[0]) < 0 then -1
      else
        var v := TopVector(t, lut, cs[0]);
        if |cs| == 1 then v[0] else v[hash(path) % |v|]
  {
    SpellsComponents(path, cs);
    if |cs| == 1 {
      WhichChildMeaning(t, path, cs);
      assert cs[..0] == [];
    } else if |cs| > 1 {
      TopIndexes(t, cs);
    }
  }

  /* ---------- Stability ---------- */

  lemma ChildIndexStable(t: Tree, u: Tree, cs: seq<string>, name: string)
    requires Valid(t) && Valid(u) && Grows(t, u)
    ensures ChildIndex(t, cs, name) >= 0 ==> ChildIndex(u, cs, name) == ChildIndex(t, cs, name)
  {
    var d := Walk(t, ROOT, cs);
    WalkStable(t, u, ROOT, cs);
    if d.Some? {
      assert ValidEntries(t, d.value, t.nodes[d.value].entries);
      assert ValidEntries(u, d.value, u.nodes[d.value].entries);
      FirstNamedStable(t, u, d.value, name);
    }
  }

  lemma RankOfDirStable(t: Tree, u: Tree, lut: Lut, cs: seq<string>)
    requires Valid(t) && Valid(u) && Grows(t, u) && Usable(lut) && Walk(t, ROOT, cs).Some?
    ensures Walk(u, ROOT, cs).Some? && RankOfDir(u, lut, cs) == RankOfDir(t, lut, cs)
  {
    WalkStable(t, u, ROOT, cs);
    if cs != [] {
      PrefixExists(t, cs, 0);
      assert cs[..0] == [];
      ChildIndexStable(t, u, [], cs[0]);
      if |cs| > 1 {
        PrefixExists(t, cs, 1);
        ChildIndexStable(t, u, cs[..1], cs[1]);
      }
    }
  }

  /** The owner of an existing path does not change while the tree grows. */
  lemma {:induction false} OwnerStable(t: Tree, u: Tree, lut: Lut, cs: seq<string>)
    requires Valid(t) && Valid(u) && Grows(t, u) && Usable(lut) && Walk(t, ROOT, cs).Some?
    ensures OwnerOf(u, lut, cs) == OwnerOf(t, lut, cs)
  {
    WalkStable(t, u, ROOT, cs);
    assert SameButLonger(t.nodes[Walk(t, ROOT, cs).value], u.nodes[Walk(t, ROOT, cs).value]);
    if DirAt(t, cs) {
      RankOfDirStable(t, u, lut, cs);
    } else if cs != [] {
      PrefixExists(t, cs, |cs| - 1);
      OwnerStable(t, u, lut, cs[..|cs| - 1]);
    }
  }

  lemma SubtreeStable(t: Tree, u: Tree, lut: Lut, path: string, cs: seq<string>)
    requires Valid(t) && Valid(u) && Grows(t, u) && Usable(lut)
    requires Spells(path, cs) && Walk(t, ROOT, cs).Some?
    ensures SubtreeRank(u, lut, path) == SubtreeRank(t, lut, path)
  {
    SubtreeMeaning(t, lut, path, cs);
    SubtreeMeaning(u, lut, path, cs);
    OwnerStable(t, u, lut, cs);
  }

  /* ---------- A new directory can change hands ---------- */

  lemma CreatedIndex(t: Tree, cs: seq<string>, name: string, isDir: bool)
    requires Valid(t) && Walk(t, ROOT, cs).Some? && Walk(t, ROOT, cs + [name]) == None
    ensures var d := Walk(t, ROOT, cs).value;
            Valid(AddSub(t, d, name, isDir)) && ChildIndex(AddSub(t, d, name, isDir), cs, name) == |t.nodes[d].entries|
  {
    var d := Walk(t, ROOT, cs).value;
    var u := AddSub(t, d, name, isDir);
    AddSubGrows(t, d, name, isDir);
    WalkStable(t, u, ROOT, cs);
    ChildIndexFinds(t, cs, name);
    var es, fs := t.nodes[d].entries, u.nodes[d].entries;
    assert ValidEntries(t, d, es) && ValidEntries(u, d, fs);
    assert fs[|es|] == t.next && u.nodes[t.next].name == name;
    forall j | 0 <= j < |es|
      ensures u.nodes[fs[j]].name != name
    {
      assert fs[j] == es[j] && es[j] in t.nodes;
    }
  }

  /** The new directory's owner is chosen by its own position, while its path was owned by its parent before. */
  lemma MkdirSetup(t: Tree, lut: Lut, cs: seq<string>, name: string)
    requires Valid(t) && Usable(lut)
    requires DirAt(t, cs) && Walk(t, ROOT, cs + [name]) == None
    ensures var u := AddSub(t, Walk(t, ROOT, cs).value, name, true);
      && Valid(u) && Grows(t, u) && Walk(u, ROOT, cs + [name]).Some?
      && OwnerOf(t, lut, cs + [name]) == RankOfDir(t, lut, cs)
      && OwnerOf(u, lut, cs + [name]) == RankOfDir(u, lut, cs + [name])
      && ChildIndex(u, cs, name) == |t.nodes[Walk(t, ROOT, cs).value].entries|
  {
    var d, path := Walk(t, ROOT, cs).value, cs + [name];
    var u := AddSub(t, d, name, true);
    AddSubGrows(t, d, name, true);
    CreatedIndex(t, cs, name, true);
    CreatedFound(t, d, name, true);
    WalkStable(t, u, ROOT, cs);
    ChildIndexFinds(t, cs, name);
    assert path[..|path| - 1] == cs;
    WalkConcat(t, ROOT, cs, [name]);
    WalkConcat(u, ROOT, cs, [name]);
    assert [name][1..] == [];
    assert DirAt(u, path);
  }

  /** The rank that executes a successful mkdir is the owner before it. At depth one it still owns the new directory
      exactly when the host selected by the new entry's position has 0 as its first rank. */
  lemma MkdirTop(t: Tree, lut: Lut, name: string)
    requires Valid(t) && Usable(lut) && Walk(t, ROOT, [] + [name]) == None
    ensures var u := AddSub(t, ROOT, name, true);
      && Valid(u)
      && (OwnerOf(u, lut, [] + [name]) == OwnerOf(t, lut, [] + [name])
          <==> NthVector(lut, |t.nodes[ROOT].entries| % |lut|)[0] == 0)
  {
    MkdirSetup(t, lut, [], name);
  }

  /** At depth two, exactly when the new entry's position selects the first rank of the host again. */
  lemma MkdirSecond(t: Tree, active: map<Rank, Entity>, a: string, name: string)
    requires Valid(t) && Usable(LutOf(active))
    requires DirAt(t, [a]) && Walk(t, ROOT, [a] + [name]) == None
    ensures ChildIndex(t, [], a) >= 0
    ensures var d, lut := Walk(t, ROOT, [a]).value, LutOf(active);
      var u := AddSub(t, d, name, true);
      && Valid(u)
      && (OwnerOf(u, lut, [a] + [name]) == OwnerOf(t, lut, [a] + [name])
          <==> |t.nodes[d].entries| % |TopVector(t, lut, a)| == 0)
  {
    var lut, path := LutOf(active), [a] + [name];
    MkdirSetup(t, lut, [a], name);
    var u := AddSub(t, Walk(t, ROOT, [a]).value, name, true);
    PrefixExists(t, [a], 0);
    assert [a][..0] == [] && path[..1] == [a];
    ChildIndexStable(t, u, [], a);
    TopVectorAscends(t, active, a);
    AscendingFirst(TopVector(t, lut, a), |t.nodes[Walk(t, ROOT, [a]).value].entries|);
  }

  /** From depth three on, always. */
  lemma MkdirDeep(t: Tree, lut: Lut, cs: seq<string>, name: string)
    requires Valid(t) && Usable(lut) && |cs| >= 2
    requires DirAt(t, cs) && Walk(t, ROOT, cs + [name]) == None
    ensures var u := AddSub(t, Walk(t, ROOT, cs).value, name, true);
      Valid(u) && OwnerOf(u, lut, cs + [name]) == OwnerOf(t, lut, cs + [name])
  {
    hide Usable, Grows, ChildIndex;
    var path := cs + [name];
    MkdirSetup(t, lut, cs, name);
    var u := AddSub(t, Walk(t, ROOT, cs).value, name, true);
    PrefixExists(t, cs, 0);
    PrefixExists(t, cs, 1);
    assert cs[..0] == [] && path[..1] == cs[..1] && path[0] == cs[0] && path[1] == cs[1];
    ChildIndexStable(t, u, [], cs[0]);
    ChildIndexStable(t, u, cs[..1], cs[1]);
  }

  lemma AscendingFirst(v: seq<Rank>, n: nat)
    requires v != [] && Ascending(v)
    ensures v[n % |v|] in v && (v[n % |v|] == v[0] <==> n % |v| == 0)
  {
  }

  lemma TopVectorAscends(t: Tree, active: map<Rank, Entity>, a: string)
    requires Valid(t) && Usable(LutOf(active)) && ChildIndex(t, [], a) >= 0
    ensures Ascending(TopVector(t, LutOf(active), a))
  {
    hide LutOf;
    var lut := LutOf(active);
    var v := TopVector(t, lut, a);
    var h :| h in lut && v == lut[h];
    LutVector(active, h);
  }

  /* ---------- Dispatching by configuration ---------- */

  datatype Strategy = Subtree | Hashing | Hybrid

  /** The dispatchers after global_create_dispatchers, and the configured choice among them. */
  datatype Placer = Placer(strategy: Strategy, hash: string -> nat, active: map<Rank, Entity>, lut: Lut)

  function Dispatch(pl: Placer, t: Tree, path: string): Rank
    requires Valid(t) && Usable(pl.lut)
  {
    match pl.strategy
    case Subtree => SubtreeRank(t, pl.lut, path)
    case Hashing => HashingRank(|pl.active|, pl.hash, path)
    case Hybrid => HybridRank(t, pl.lut, pl.hash, path)
  }

  /** The active ranks are 0 .. n - 1, at least one, and the table was built from them. */
  ghost predicate Ready(pl: Placer) {
    && pl.active != map[] && pl.active.Keys == Interval(0, |pl.active|)
    && pl.lut == LutOf(pl.active) && Usable(pl.lut)
  }

  /** On every string at all, a dispatcher answers an active rank or -1. */
  lemma DispatchRange(pl: Placer, t: Tree, path: string)
    requires Ready(pl) && Valid(t)
    ensures var r := Dispatch(pl, t, path); r == -1 || r in pl.active
  {
    var r := Dispatch(pl, t, path);
    if InTable(pl.lut, r) {
      InTableActive(pl.active, r);
    }
  }

  lemma SubtreeSomewhere(pl: Placer, t: Tree, path: string, cs: seq<string>)
    requires Ready(pl) && Valid(t) && Spells(path, cs)
    ensures SubtreeRank(t, pl.lut, path) in pl.active
  {
    SubtreeTotal(t, pl.active, path, cs);
  }

  lemma HybridSomewhere(pl: Placer, t: Tree, path: string, cs: seq<string>)
    requires Ready(pl) && Valid(t) && Spells(path, cs) && Walk(t, ROOT, cs).Some?
    ensures HybridRank(t, pl.lut, pl.hash, path) in pl.active
  {
    HybridMeaning(t, pl.lut, pl.hash, path, cs);
    if cs != [] {
      PrefixExists(t, cs, 0);
      assert cs[..0] == [];
      HybridInTopVector(t, pl.lut, pl.hash, path, cs);
      InTableActive(pl.active, HybridRank(t, pl.lut, pl.hash, path));
    }
  }

  lemma HybridInTopVector(t: Tree, lut: Lut, hash: string -> nat, path: string, cs: seq<string>)
    requires Valid(t) && Usable(lut) && Spells(path, cs) && cs != [] && ChildIndex(t, [], cs[0]) >= 0
    ensures HybridRank(t, lut, hash, path) in TopVector(t, lut, cs[0])
  {
    HybridMeaning(t, lut, hash, path, cs);
    var v := TopVector(t, lut, cs[0]);
    assert v[hash(path) % |v|] in v;
  }

  /** No strategy answers -1 for a canonical path that exists. */
  lemma DispatchExisting(pl: Placer, t: Tree, path: string, cs: seq<string>)
    requires Ready(pl) && Valid(t) && Spells(path, cs) && Walk(t, ROOT, cs).Some?
    ensures Dispatch(pl, t, path) in pl.active
  {
    match pl.strategy
    case Subtree => SubtreeSomewhere(pl, t, path, cs);
    case Hashing => SpellsComponents(path, cs);
    case Hybrid => HybridSomewhere(pl, t, path, cs);
  }

  /** The host whose servers own everything below the top-level name a. */
  function TopHost(t: Tree, lut: Lut, a: string): HostId
    requires Valid(t) && Usable(lut) && ChildIndex(t, [], a) >= 0
  {
    assert |lut.Keys| == |lut|;
    SortedKeys(lut.Keys)[ChildIndex(t, [], a) % |lut|]
  }

  lemma OnTopHost(pl: Placer, t: Tree, a: string, r: Rank)
    requires Ready(pl) && Valid(t) && ChildIndex(t, [], a) >= 0 && r in TopVector(t, pl.lut, a)
    ensures r in pl.active && pl.active[r].host == TopHost(t, pl.lut, a)
  {
    LutVector(pl.active, TopHost(t, pl.lut, a));
    assert |pl.lut.Keys| == |pl.lut|;
  }

  /** Subtree and hybrid keep everything under one top-level directory on one host. */
  lemma HostAffinity(pl: Placer, t: Tree, path: string, cs: seq<string>)
    requires Ready(pl) && Valid(t) && Spells(path, cs) && cs != [] && DirAt(t, cs[..1])
    requires !pl.strategy.Hashing?
    ensures ChildIndex(t, [], cs[0]) >= 0 && Dispatch(pl, t, path) in pl.active
    ensures pl.active[Dispatch(pl, t, path)].host == TopHost(t, pl.lut, cs[0])
  {
    OwnerOnTopHost(t, pl.lut, cs);
    if pl.strategy.Subtree? {
      SubtreeMeaning(t, pl.lut, path, cs);
    } else {
      HybridInTopVector(t, pl.lut, pl.hash, path, cs);
    }
    OnTopHost(pl, t, cs[0], Dispatch(pl, t, path));
  }
}
