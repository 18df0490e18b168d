/** The inode tree of fs/FileSystem.{h,cc} as a value: what the mutable classes in FileSystem.dfy are proved against.
    An inode's identity (its address) is a number; identities are handed out in creation order. */
module Namespace {
  import opened Collections
  import opened Paths

  type Ino = nat

  const ROOT: Ino := 0

  datatype Inode = Inode(name: string, isDir: bool, parent: Option<Ino>, entries: seq<Ino>, content: string)

  datatype Tree = Tree(nodes: map<Ino, Inode>, next: Ino)

  /** The tree every operation keeps: children are younger than their parent and name it. */
  ghost predicate Valid(t: Tree) {
    && ROOT in t.nodes && t.nodes[ROOT].isDir && t.nodes[ROOT].parent == None
    && (forall i | i in t.nodes :: i < t.next && ValidEntries(t, i, t.nodes[i].entries))
  }

  ghost predicate ValidEntries(t: Tree, i: Ino, es: seq<Ino>) {
    && (forall k | 0 <= k < |es| :: i < es[k] && es[k] in t.nodes && t.nodes[es[k]].parent == Some(i))
    && (forall j, k | 0 <= j < k < |es| :: es[j] != es[k])
  }

  /** The tree before anything is created: a directory named "/". */
  const EMPTY: Tree := Tree(map[ROOT := Inode("/", true, None, [], "")], 1)

  lemma RootLive(t: Tree)
    requires Valid(t)
    ensures ROOT in t.nodes
  {
  }

  lemma ChildrenLive(t: Tree, i: Ino)
    requires Valid(t) && i in t.nodes
    ensures forall e | e in t.nodes[i].entries :: e in t.nodes && e != i
    ensures forall j, k | 0 <= j < k < |t.nodes[i].entries| :: t.nodes[i].entries[j] != t.nodes[i].entries[k]
  {
    assert ValidEntries(t, i, t.nodes[i].entries);
  }

  /* ---------- Lookup ---------- */

  /** get_subitr: the first entry with this name, or -1 for end(). */
  function FirstNamed(t: Tree, es: seq<Ino>, name: string): (k: int)
    requires forall e | e in es :: e in t.nodes
    ensures -1 <= k < |es|
    ensures k >= 0 ==> t.nodes[es[k]].name == name
    ensures forall j | 0 <= j < (if k < 0 then |es| else k) :: t.nodes[es[j]].name != name
  {
    if es == [] then -1
    else if t.nodes[es[0]].name == name then 0
    else
      var k := FirstNamed(t, es[1..], name);
      if k < 0 then -1 else k + 1
  }

  /** One step of the lookup loop. */
  function Step(t: Tree, i: Ino, name: string): (r: Option<Ino>)
    requires Valid(t) && i in t.nodes
    ensures r.Some? ==> r.value in t.nodes && r.value in t.nodes[i].entries && t.nodes[r.value].name == name
  {
    assert ValidEntries(t, i, t.nodes[i].entries);
    var k := FirstNamed(t, t.nodes[i].entries, name);
    if k < 0 then None else Some(t.nodes[i].entries[k])
  }

  function Walk(t: Tree, i: Ino, names: seq<string>): (r: Option<Ino>)
    requires Valid(t) && i in t.nodes
    ensures r.Some? ==> r.value in t.nodes
    decreases |names|
  {
    if names == [] then Some(i)
    else
      var s := Step(t, i, names[0]);
      if s.None? then None else Walk(t, s.value, names[1..])
  }

  function Lookup(t: Tree, path: string, start: Ino := ROOT): (r: Option<Ino>)
    requires Valid(t) && start in t.nodes
    ensures r.Some? ==> r.value in t.nodes
  {
    if path == "" then None else Walk(t, start, Components(path))
  }

  predicate IsDir(t: Tree, path: string)
    requires Valid(t)
  {
    var r := Lookup(t, path);
    r.Some? && t.nodes[r.value].isDir
  }

  lemma {:induction false} WalkConcat(t: Tree, i: Ino, a: seq<string>, b: seq<string>)
    requires Valid(t) && i in t.nodes
    ensures Walk(t, i, a + b) == (var m := Walk(t, i, a); if m.None? then None else Walk(t, m.value, b))
    decreases |a|
  {
    if a == [] {
      assert a + b == b;
    } else {
      assert (a + b)[1..] == a[1..] + b;
      var s := Step(t, i, a[0]);
      if s.Some? {
        WalkConcat(t, s.value, a[1..], b);
      }
    }
  }

  /** Looking up p + "/" + q walks the components of p that q does not climb away, whether or not the rest of p
      exists, and then those of q. */
  lemma LookupJoined(t: Tree, p: string, q: string, start: Ino)
    requires Valid(t) && start in t.nodes
    ensures Lookup(t, p + "/" + q, start)
         == (var d := Walk(t, start, Climbed(Components(p), Climb(0, Tokens(q))));
             if d.None? then None else Walk(t, d.value, Components(q)))
  {
    ComponentsJoined(p, q);
    WalkConcat(t, start, Climbed(Components(p), Climb(0, Tokens(q))), Components(q));
  }

  /** So it is looking up q below what p names, as long as q does not climb above its own start. */
  lemma LookupConcat(t: Tree, p: string, q: string, start: Ino)
    requires Valid(t) && start in t.nodes
    requires p != "" && q != "" && Climb(0, Tokens(q)) == 0
    ensures Lookup(t, p + "/" + q, start)
         == (var d := Lookup(t, p, start); if d.None? then None else Lookup(t, q, d.value))
  {
    LookupJoined(t, p, q, start);
    assert Climbed(Components(p), 0) == Components(p);
  }

  /** ".." is resolved on the text alone: after any p, which need not exist, it names what p without its last
      component does. */
  lemma DotDotIgnoresTheTree(t: Tree, p: string, start: Ino)
    requires Valid(t) && start in t.nodes
    ensures Lookup(t, p + "/" + "..", start) == Walk(t, start, Climbed(Components(p), 1))
  {
    hide Valid, Tokens, Components, Climb, Climbed;
    DotDotClimbs();
    LookupJoined(t, p, "..", start);
  }

  /* ---------- Growing: mknod, mkdir, write ---------- */

  function AddSub(t: Tree, parent: Ino, name: string, isDir: bool): Tree
    requires parent in t.nodes
  {
    var p := t.nodes[parent];
    Tree(t.nodes[parent := p.(entries := p.entries + [t.next])]
                [t.next := Inode(name, isDir, Some(parent), [], "")], t.next + 1)
  }

  /** mknod: the new inode, unless the name has a slash. It does not look for a sibling of that name. */
  function Mknod(t: Tree, parent: Ino, name: string): (Option<Ino>, Tree)
    requires parent in t.nodes
  {
    if FilenameValid(name) then (Some(t.next), AddSub(t, parent, name, false)) else (None, t)
  }

  function Mkdir(t: Tree, parent: Ino, name: string): (Option<Ino>, Tree)
    requires Valid(t) && parent in t.nodes
  {
    if !FilenameValid(name) || Step(t, parent, name).Some? then (None, t)
    else (Some(t.next), AddSub(t, parent, name, true))
  }

  function Write(t: Tree, i: Ino, content: string): Tree
    requires i in t.nodes
  {
    t.(nodes := t.nodes[i := t.nodes[i].(content := content)])
  }

  function Listdir(t: Tree, i: Ino): Option<seq<Ino>>
    requires i in t.nodes
  {
    if t.nodes[i].isDir then Some(t.nodes[i].entries) else None
  }

  /** What any run of mknod, mkdir and write does: entries only get longer at the end. */
  ghost predicate Grows(t: Tree, u: Tree) {
    && t.next <= u.next
    && (forall i | i in t.nodes :: i in u.nodes && SameButLonger(t.nodes[i], u.nodes[i]))
    && (forall i | i in u.nodes && i !in t.nodes :: t.next <= i)
  }

  ghost predicate SameButLonger(m: Inode, n: Inode) {
    m.name == n.name && m.isDir == n.isDir && m.parent == n.parent && m.entries <= n.entries
  }

  lemma GrowsTransitive(t: Tree, u: Tree, v: Tree)
    requires Grows(t, u) && Grows(u, v)
    ensures Grows(t, v)
  {
    forall i | i in t.nodes
      ensures i in v.nodes && SameButLonger(t.nodes[i], v.nodes[i])
    {
      assert SameButLonger(t.nodes[i], u.nodes[i]) && SameButLonger(u.nodes[i], v.nodes[i]);
    }
  }

  lemma AddSubGrows(t: Tree, parent: Ino, name: string, isDir: bool)
    requires Valid(t) && parent in t.nodes
    ensures Valid(AddSub(t, parent, name, isDir)) && Grows(t, AddSub(t, parent, name, isDir))
  {
    var u := AddSub(t, parent, name, isDir);
    forall i | i in u.nodes
      ensures i < u.next && ValidEntries(u, i, u.nodes[i].entries)
    {
      if i in t.nodes {
        assert ValidEntries(t, i, t.nodes[i].entries);
      }
    }
  }

  lemma WriteGrows(t: Tree, i: Ino, content: string)
    requires Valid(t) && i in t.nodes
    ensures Valid(Write(t, i, content)) && Grows(t, Write(t, i, content))
  {
    var u := Write(t, i, content);
    forall k | k in u.nodes
      ensures k < u.next && ValidEntries(u, k, u.nodes[k].entries)
    {
      assert ValidEntries(t, k, t.nodes[k].entries);
    }
  }

  /** The position at which a name is first found never changes while the tree grows. */
  lemma FirstNamedStable(t: Tree, u: Tree, i: Ino, name: string)
    requires Valid(t) && Valid(u) && Grows(t, u) && i in t.nodes
    requires ValidEntries(t, i, t.nodes[i].entries) && ValidEntries(u, i, u.nodes[i].entries)
    ensures FirstNamed(t, t.nodes[i].entries, name) >= 0 ==>
              FirstNamed(u, u.nodes[i].entries, name) == FirstNamed(t, t.nodes[i].entries, name)
  {
    assert SameButLonger(t.nodes[i], u.nodes[i]);
    var es, fs := t.nodes[i].entries, u.nodes[i].entries;
    var k := FirstNamed(t, es, name);
    if k >= 0 {
      forall j | 0 <= j <= k
        ensures u.nodes[fs[j]].name == t.nodes[es[j]].name
      {
        assert fs[j] == es[j] && es[j] in t.nodes;
      }
      assert u.nodes[fs[k]].name == name;
    }
  }

  /** While the tree grows, whatever a path names it keeps naming. */
  lemma {:induction false} WalkStable(t: Tree, u: Tree, i: Ino, names: seq<string>)
    requires Valid(t) && Valid(u) && Grows(t, u) && i in t.nodes
    ensures Walk(t, i, names).Some? ==> Walk(u, i, names) == Walk(t, i, names)
    decreases |names|
  {
    if names != [] && Step(t, i, names[0]).Some? {
      FirstNamedStable(t, u, i, names[0]);
      assert SameButLonger(t.nodes[i], u.nodes[i]);
      WalkStable(t, u, Step(t, i, names[0]).value, names[1..]);
    }
  }

  lemma LookupStable(t: Tree, u: Tree, path: string)
    requires Valid(t) && Valid(u) && Grows(t, u)
    ensures Lookup(t, path).Some? ==> Lookup(u, path) == Lookup(t, path) && IsDir(u, path) == IsDir(t, path)
  {
    if Lookup(t, path).Some? {
      WalkStable(t, u, ROOT, Components(path));
      assert SameButLonger(t.nodes[Lookup(t, path).value], u.nodes[Lookup(t, path).value]);
    }
  }

  /** A newly created name is found in its directory exactly when the directory did not have the name before. */
  lemma CreatedFound(t: Tree, parent: Ino, name: string, isDir: bool)
    requires Valid(t) && parent in t.nodes
    ensures Valid(AddSub(t, parent, name, isDir))
    ensures Step(AddSub(t, parent, name, isDir), parent, name) == Some(t.next) <==> Step(t, parent, name) == None
    ensures Step(t, parent, name).Some? ==> Step(AddSub(t, parent, name, isDir), parent, name) == Step(t, parent, name)
  {
    AddSubGrows(t, parent, name, isDir);
    var u := AddSub(t, parent, name, isDir);
    var es, fs := t.nodes[parent].entries, u.nodes[parent].entries;
    assert ValidEntries(t, parent, es) && ValidEntries(u, parent, fs);
    FirstNamedStable(t, u, parent, name);
    var k := FirstNamed(u, fs, name);
    assert fs[|es|] == t.next && u.nodes[t.next].name == name;
    if FirstNamed(t, es, name) < 0 {
      forall j | 0 <= j < |es|
        ensures u.nodes[fs[j]].name != name
      {
        assert fs[j] == es[j];
      }
      assert k == |es|;
    } else {
      assert es[FirstNamed(t, es, name)] in t.nodes;
    }
  }

  /** Creating one inode changes no other answer: a path names what it named, or the new inode. */
  lemma {:induction false} CreateFrame(t: Tree, parent: Ino, name: string, isDir: bool, i: Ino, names: seq<string>)
    requires Valid(t) && parent in t.nodes && i in t.nodes
    ensures Valid(AddSub(t, parent, name, isDir))
    ensures var u := AddSub(t, parent, name, isDir);
            Walk(u, i, names) == Walk(t, i, names) || (Walk(u, i, names) == Some(t.next) && Walk(t, i, names) == None)
    decreases |names|
  {
    AddSubGrows(t, parent, name, isDir);
    var u := AddSub(t, parent, name, isDir);
    if names != [] {
      StepFrame(t, parent, name, isDir, i, names[0]);
      var s := Step(t, i, names[0]);
      if s.Some? {
        CreateFrame(t, parent, name, isDir, s.value, names[1..]);
      } else if Step(u, i, names[0]).Some? {
        assert u.nodes[t.next].entries == [];
        assert names[1..] != [] ==> Step(u, t.next, names[1]) == None;
      }
    }
  }

  lemma StepFrame(t: Tree, parent: Ino, name: string, isDir: bool, i: Ino, sub: string)
    requires Valid(t) && parent in t.nodes && i in t.nodes
    ensures Valid(AddSub(t, parent, name, isDir))
    ensures var u := AddSub(t, parent, name, isDir);
            Step(u, i, sub) == Step(t, i, sub) || (Step(u, i, sub) == Some(t.next) && Step(t, i, sub) == None)
  {
    AddSubGrows(t, parent, name, isDir);
    var u := AddSub(t, parent, name, isDir);
    var es, fs := t.nodes[i].entries, u.nodes[i].entries;
    assert ValidEntries(t, i, es) && ValidEntries(u, i, fs);
    FirstNamedStable(t, u, i, sub);
    var k, m := FirstNamed(t, es, sub), FirstNamed(u, fs, sub);
    forall j | 0 <= j < |es|
      ensures fs[j] == es[j] && u.nodes[fs[j]].name == t.nodes[es[j]].name
    {
      assert es[j] in t.nodes;
    }
  }

  /* ---------- Removing: delete_myself ---------- */

  /** The directories whose entries delete_myself_recur clears, started at i: a file stops it. */
  function Cleared(t: Tree, i: Ino): (s: set<Ino>)
    requires Valid(t) && i in t.nodes
    ensures forall x | x in s :: i <= x && x in t.nodes
    ensures forall x | x in s && x != i :: t.nodes[x].parent.Some? && t.nodes[x].parent.value in s
    decreases t.next - i, 1, 0
  {
    if !t.nodes[i].isDir then {}
    else
      assert ValidEntries(t, i, t.nodes[i].entries);
      {i} + ClearedAll(t, i, t.nodes[i].entries)
  }

  function ClearedAll(t: Tree, i: Ino, es: seq<Ino>): (s: set<Ino>)
    requires Valid(t) && i in t.nodes && ValidEntries(t, i, es)
    ensures forall x | x in s :: i < x && x in t.nodes
    ensures forall x | x in s ::
        t.nodes[x].parent.Some? && (t.nodes[x].parent.value in s || t.nodes[x].parent.value == i)
    decreases t.next - i, 0, |es|
  {
    if es == [] then {}
    else
      assert i < es[0];
      Cleared(t, es[0]) + ClearedAll(t, i, es[1..])
  }

  /** The entries without i. */
  function Without(es: seq<Ino>, i: Ino): (r: seq<Ino>)
    ensures forall x :: x in r <==> x in es && x != i
  {
    if es == [] then []
    else if es[0] == i then Without(es[1..], i)
    else [es[0]] + Without(es[1..], i)
  }

  /** rm and rmdir: nothing happens to the root; anything else is emptied and leaves its parent. */
  function Remove(t: Tree, i: Ino): Tree
    requires Valid(t) && i in t.nodes
  {
    var p := t.nodes[i].parent;
    if p == None then t
    else
      var gone := Cleared(t, i);
      t.(nodes := map x | x in t.nodes ::
        if x in gone then t.nodes[x].(entries := [])
        else if Some(x) == p then t.nodes[x].(entries := Without(t.nodes[x].entries, i))
        else t.nodes[x])
  }

  lemma {:induction false} WithoutKeeps(t: Tree, owner: Ino, es: seq<Ino>, i: Ino)
    requires ValidEntries(t, owner, es)
    ensures ValidEntries(t, owner, Without(es, i))
  {
    if es != [] {
      var rest := es[1..];
      assert forall k | 0 <= k < |rest| :: rest[k] == es[k + 1];
      WithoutKeeps(t, owner, rest, i);
      if es[0] != i {
        var r := Without(rest, i);
        forall k | 0 <= k < |r|
          ensures r[k] != es[0]
        {
          assert r[k] in r;
        }
        assert forall k | 0 < k < |r| + 1 :: ([es[0]] + r)[k] == r[k - 1];
      }
    }
  }

  lemma RemoveValid(t: Tree, i: Ino)
    requires Valid(t) && i in t.nodes
    ensures Valid(Remove(t, i))
  {
    var u := Remove(t, i);
    forall x | x in u.nodes
      ensures x < u.next && ValidEntries(u, x, u.nodes[x].entries)
    {
      assert ValidEntries(t, x, t.nodes[x].entries);
      WithoutKeeps(t, x, t.nodes[x].entries, i);
    }
  }

  /** No other entry of i's directory has i's name. */
  ghost predicate OnlyOfItsName(t: Tree, i: Ino)
    requires Valid(t) && i in t.nodes && t.nodes[i].parent.Some?
  {
    var p := t.nodes[i].parent.value;
    p in t.nodes && forall e | e in t.nodes[p].entries && e in t.nodes && e != i :: t.nodes[e].name != t.nodes[i].name
  }

  /** The walk from x visits i. */
  ghost predicate Through(t: Tree, x: Ino, names: seq<string>, i: Ino)
    requires Valid(t) && x in t.nodes
    decreases |names|
  {
    || x == i
    || (names != [] && Step(t, x, names[0]).Some? && Through(t, Step(t, x, names[0]).value, names[1..], i))
  }

  /** After the entry i is erased a name finds what it found before, unless that was i. */
  lemma {:induction false} FirstNamedWithout(t: Tree, u: Tree, es: seq<Ino>, i: Ino, name: string)
    requires forall e | e in es :: e in t.nodes && e in u.nodes && t.nodes[e].name == u.nodes[e].name
    ensures var k, m := FirstNamed(t, es, name), FirstNamed(u, Without(es, i), name);
      && (k < 0 ==> m < 0)
      && (k >= 0 && es[k] != i ==> m >= 0 && Without(es, i)[m] == es[k])
      && (k >= 0 && es[k] == i && (forall e | e in es && e != i :: t.nodes[e].name != name) ==> m < 0)
  {
    if es != [] {
      var rest := es[1..];
      assert forall e | e in rest :: e in es;
      assert es[0] in es;
      FirstNamedWithout(t, u, rest, i, name);
      if es[0] == i && t.nodes[i].name == name {
        assert forall e | e in Without(rest, i) :: e in es && e != i;
      }
    }
  }

  lemma {:induction false} FirstNamedSame(t: Tree, u: Tree, es: seq<Ino>, name: string)
    requires forall e | e in es :: e in t.nodes && e in u.nodes && t.nodes[e].name == u.nodes[e].name
    ensures FirstNamed(t, es, name) == FirstNamed(u, es, name)
  {
    var k, m := FirstNamed(t, es, name), FirstNamed(u, es, name);
    assert forall j | 0 <= j < |es| :: es[j] in es;
  }

  lemma StepAfterRemove(t: Tree, i: Ino, x: Ino, name: string)
    requires Valid(t) && i in t.nodes && t.nodes[i].parent.Some?
    requires x in t.nodes && x != i && x !in Cleared(t, i)
    ensures Valid(Remove(t, i))
    ensures Step(t, x, name) != Some(i) ==> Step(Remove(t, i), x, name) == Step(t, x, name)
    ensures Step(t, x, name) == Some(i) && OnlyOfItsName(t, i) ==> Step(Remove(t, i), x, name) == None
  {
    RemoveValid(t, i);
    var u, es := Remove(t, i), t.nodes[x].entries;
    assert ValidEntries(t, x, es);
    assert forall e | e in es :: e in t.nodes;
    if Some(x) == t.nodes[i].parent {
      FirstNamedWithout(t, u, es, i, name);
    } else {
      FirstNamedSame(t, u, es, name);
    }
  }

  /** w can be walked to from i. */
  ghost predicate Family(t: Tree, i: Ino, w: Ino)
    requires Valid(t) && i in t.nodes
  {
    exists names: seq<string> :: Walk(t, i, names) == Some(w)
  }

  lemma FamilySteps(t: Tree, i: Ino, w: Ino, name: string)
    requires Valid(t) && i in t.nodes && w in t.nodes
    ensures Family(t, i, i)
    ensures Family(t, i, w) && Step(t, w, name).Some? ==> Family(t, i, Step(t, w, name).value)
    ensures Family(t, i, w) && w != i ==>
      t.nodes[w].parent.Some? && t.nodes[w].parent.value in t.nodes && Family(t, i, t.nodes[w].parent.value)
  {
    assert Walk(t, i, []) == Some(i);
    if Family(t, i, w) {
      var names: seq<string> :| Walk(t, i, names) == Some(w);
      WalkConcat(t, i, names, [name]);
      assert [name][1..] == [] && [name][0] == name;
      if w != i {
        var init, last := names[..|names| - 1], names[|names| - 1];
        assert names == init + [last] && [last][1..] == [];
        WalkConcat(t, i, init, [last]);
        var p := Walk(t, i, init).value;
        assert ValidEntries(t, p, t.nodes[p].entries);
      }
    }
  }

  /** Once i is removed, no walk from outside its family gets into it. */
  lemma {:induction false} FamilyIsGone(t: Tree, i: Ino, x: Ino, names: seq<string>)
    requires Valid(t) && i in t.nodes && t.nodes[i].parent.Some? && x in t.nodes && !Family(t, i, x)
    ensures Valid(Remove(t, i))
    ensures Walk(Remove(t, i), x, names).Some? ==> !Family(t, i, Walk(Remove(t, i), x, names).value)
    decreases |names|
  {
    RemoveValid(t, i);
    if names != [] {
      var s := Step(Remove(t, i), x, names[0]);
      if s.Some? {
        assert ValidEntries(t, x, t.nodes[x].entries);
        assert s.value in t.nodes[x].entries && s.value != i;
        FamilySteps(t, i, s.value, "");
        FamilyIsGone(t, i, s.value, names[1..]);
      }
    }
  }

  /** A walk through i stays in its family from there on. */
  lemma {:induction false} ThroughEndsInFamily(t: Tree, i: Ino, x: Ino, names: seq<string>)
    requires Valid(t) && i in t.nodes && x in t.nodes && (Family(t, i, x) || Through(t, x, names, i))
    ensures Walk(t, x, names).Some? ==> Family(t, i, Walk(t, x, names).value)
    decreases |names|
  {
    FamilySteps(t, i, i, "");
    if names != [] {
      FamilySteps(t, i, x, names[0]);
      if Step(t, x, names[0]).Some? {
        ThroughEndsInFamily(t, i, Step(t, x, names[0]).value, names[1..]);
      }
    }
  }

  /** Removing i changes exactly the walks that go through it: what they named they name no longer, and they name
      nothing when no sibling has i's name. Every other walk keeps naming what it named, and the siblings keep their
      order. */
  lemma {:induction false} RemoveFrame(t: Tree, i: Ino, x: Ino, names: seq<string>)
    requires Valid(t) && i in t.nodes && t.nodes[i].parent.Some?
    requires x in t.nodes && x != i && x !in Cleared(t, i)
    ensures Valid(Remove(t, i))
    ensures !Through(t, x, names, i) ==> Walk(Remove(t, i), x, names) == Walk(t, x, names)
    ensures Through(t, x, names, i) && OnlyOfItsName(t, i) ==> Walk(Remove(t, i), x, names) == None
    ensures Remove(t, i).nodes[x].entries
         == if t.nodes[i].parent == Some(x) then Without(t.nodes[x].entries, i) else t.nodes[x].entries
    decreases |names|
  {
    RemoveValid(t, i);
    if names != [] {
      StepAfterRemove(t, i, x, names[0]);
      var s := Step(t, x, names[0]);
      if s.Some? && s != Some(i) {
        assert ValidEntries(t, x, t.nodes[x].entries);
        assert t.nodes[s.value].parent == Some(x);
        RemoveFrame(t, i, s.value, names[1..]);
      } else if s == Some(i) {
        assert Through(t, i, names[1..], i);
      }
    }
  }

  /** The same, for path strings looked up from the root. */
  lemma RemoveCutsPaths(t: Tree, i: Ino, path: string)
    requires Valid(t) && i in t.nodes && t.nodes[i].parent.Some?
    ensures Valid(Remove(t, i))
    ensures path == "" || !Through(t, ROOT, Components(path), i) ==> Lookup(Remove(t, i), path) == Lookup(t, path)
    ensures path != "" && Through(t, ROOT, Components(path), i) ==>
      && (Lookup(t, path).Some? ==> Lookup(Remove(t, i), path) != Lookup(t, path))
      && (OnlyOfItsName(t, i) ==> Lookup(Remove(t, i), path) == None)
  {
    assert ROOT in Cleared(t, i) ==> ROOT == i;
    RemoveFrame(t, i, ROOT, Components(path));
    if path != "" && Through(t, ROOT, Components(path), i) {
      FamilySteps(t, i, ROOT, "");
      FamilyIsGone(t, i, ROOT, Components(path));
      ThroughEndsInFamily(t, i, ROOT, Components(path));
    }
  }
}
