/** What each call does to the file system, said only in terms of what paths show: a reference for the trees of
    Namespace and the calls of PlainFs that does not mention how they are computed. */
module FileLaws {
  import opened Collections
  import opened Paths
  import opened Namespace
  import opened CacheReads
  import opened Coherence
  import opened PlainFs

  /** What a path shows: the inode's identity, its kind, its content and the names of its entries, in order. */
  datatype View = View(ino: Ino, isDir: bool, content: string, names: seq<string>)

  ghost function ViewOf(t: Tree, i: Ino): View
    requires Valid(t) && i in t.nodes
  {
    ChildrenLive(t, i);
    var n := t.nodes[i];
    View(i, n.isDir, n.content, NamesOf(t, n.entries))
  }

  ghost function Look(t: Tree, cs: seq<string>): (v: Option<View>)
    requires Valid(t)
    ensures ROOT in t.nodes && (v.Some? <==> Walk(t, ROOT, cs).Some?)
  {
    RootLive(t);
    var i := Walk(t, ROOT, cs);
    if i == None then None else Some(ViewOf(t, i.value))
  }

  /** The directory part of a non-empty component list. */
  function Dir(cs: seq<string>): seq<string>
    requires cs != []
  {
    cs[..|cs| - 1]
  }

  function Last(cs: seq<string>): string
    requires cs != []
  {
    cs[|cs| - 1]
  }

  /** v with the names of its entries changed. */
  function Renamed(v: Option<View>, names: seq<string>): Option<View> {
    if v == None then None else Some(v.value.(names := names))
  }

  function NamesIn(v: Option<View>): seq<string> {
    if v == None then [] else v.value.names
  }

  /** The names without the first occurrence of one. */
  function DropFirst(names: seq<string>, name: string): seq<string> {
    if names == [] then []
    else if names[0] == name then names[1..]
    else [names[0]] + DropFirst(names[1..], name)
  }

  /** In the beginning there is only the root, an empty directory. */
  lemma EmptyLaw(ds: seq<string>)
    ensures Valid(EMPTY) && Look(EMPTY, ds) == if ds == [] then Some(View(ROOT, true, "", [])) else None
  {
    assert NamesOf(EMPTY, []) == [];
  }

  /* ---------- Calls that change nothing ---------- */

  /** stat, read and ls answer what the path shows, and change nothing. */
  lemma ReadingLaw(t: Tree, cs: seq<string>)
    requires Valid(t) && ValidNames(cs)
    ensures var v := Look(t, cs);
      && Plain(t, Stat(cs)) == (Found(if v == None then None else Some(v.value.ino)), t)
      && Plain(t, ReadFile(cs)) == (if v == None then Content(false, "") else Content(true, v.value.content), t)
      && Plain(t, ListDir(cs))
           == (if v == None || !v.value.isDir then Names(false, []) else Names(true, v.value.names), t)
  {
    hide Valid, Walk, NamesOf;
    RootLive(t);
  }

  /* ---------- Views under change ---------- */

  /** One inode, one path. */
  lemma {:induction false} WalkInjective(t: Tree, a: seq<string>, b: seq<string>)
    requires Valid(t) && ROOT in t.nodes && Walk(t, ROOT, a).Some? && Walk(t, ROOT, b) == Walk(t, ROOT, a)
    ensures a == b
    decreases |a|
  {
    LastStep(t, a);
    LastStep(t, b);
    if a != [] && b != [] {
      LastName(t, a);
      LastName(t, b);
      WalkInjective(t, Dir(a), Dir(b));
      assert a == Dir(a) + [Last(a)] && b == Dir(b) + [Last(b)];
    }
  }

  lemma LastName(t: Tree, a: seq<string>)
    requires Valid(t) && ROOT in t.nodes && Walk(t, ROOT, a).Some? && a != []
    ensures t.nodes[Walk(t, ROOT, a).value].name == Last(a)
  {
    assert a == Dir(a) + [Last(a)] && [Last(a)][1..] == [] && [Last(a)][0] == Last(a);
    WalkConcat(t, ROOT, Dir(a), [Last(a)]);
  }

  lemma {:induction false} NamesSame(t: Tree, u: Tree, es: seq<Ino>)
    requires forall e | e in es :: e in t.nodes && e in u.nodes && t.nodes[e].name == u.nodes[e].name
    ensures NamesOf(u, es) == NamesOf(t, es)
  {
    if es != [] {
      var init := es[..|es| - 1];
      assert forall e | e in init :: e in es;
      assert es[|es| - 1] in es;
      NamesSame(t, u, init);
    }
  }

  /* ---------- mkdir and mknod ---------- */

  /** In the tree after a creation only one path can lead to the new inode. */
  lemma NewPath(t: Tree, cs: seq<string>, isDir: bool, ds: seq<string>)
    requires Valid(t) && cs != [] && ROOT in t.nodes && Walk(t, ROOT, Dir(cs)).Some?
    ensures var u := AddSub(t, Walk(t, ROOT, Dir(cs)).value, Last(cs), isDir);
      && Valid(u) && ROOT in u.nodes
      && Walk(u, ROOT, ds) == if ds == cs && Walk(t, ROOT, cs) == None then Some(t.next) else Walk(t, ROOT, ds)
  {
    var d := Walk(t, ROOT, Dir(cs)).value;
    var u := AddSub(t, d, Last(cs), isDir);
    CreatedAt(t, cs, isDir);
    RootLive(u);
    CreateFrame(t, d, Last(cs), isDir, ROOT, ds);
    CreateFrame(t, d, Last(cs), isDir, ROOT, Dir(cs));
    if Walk(u, ROOT, ds) == Some(t.next) && Walk(t, ROOT, ds) == None {
      NewPathOnly(u, t.next, cs, ds);
    }
  }

  /** Only one path leads to an inode of a name in a directory. */
  lemma NewPathOnly(u: Tree, i: Ino, cs: seq<string>, ds: seq<string>)
    requires Valid(u) && ROOT in u.nodes && cs != [] && Walk(u, ROOT, ds) == Some(i)
    requires u.nodes[i].name == Last(cs) && u.nodes[i].parent.Some? && Walk(u, ROOT, Dir(cs)) == u.nodes[i].parent
    ensures ds == cs
  {
    LastStep(u, ds);
    assert u.nodes[ROOT].parent == None;
    hide Valid, Walk;
    if ds != [] {
      LastName(u, ds);
      WalkInjective(u, Dir(ds), Dir(cs));
      assert ds == Dir(ds) + [Last(ds)] && cs == Dir(cs) + [Last(cs)];
    }
  }

  /** The views of the inodes themselves. */
  lemma ViewsAfterAddSub(t: Tree, d: Ino, name: string, isDir: bool, x: Ino)
    requires Valid(t) && d in t.nodes && x in t.nodes
    ensures var u := AddSub(t, d, name, isDir);
      && Valid(u) && t.next in u.nodes && ViewOf(u, t.next) == View(t.next, isDir, "", [])
      && x in u.nodes
      && ViewOf(u, x) == if x == d then ViewOf(t, x).(names := ViewOf(t, x).names + [name]) else ViewOf(t, x)
  {
    AddSubGrows(t, d, name, isDir);
    var u := AddSub(t, d, name, isDir);
    ChildrenLive(t, x);
    ChildrenLive(u, x);
    assert t.next !in t.nodes;
    hide Valid, Grows;
    var es := t.nodes[x].entries;
    assert forall e | e in es :: e != t.next;
    assert forall e | e in es && e != d :: u.nodes[e] == t.nodes[e];
    NamesSame(t, u, es);
    if x == d {
      assert (es + [t.next])[..|es|] == es;
    }
  }

  /** What a creation below Dir(cs) makes paths show: the new inode, empty, at cs if the name was free; one name more
      in its directory; everything else as before. */
  lemma CreationLaw(t: Tree, cs: seq<string>, isDir: bool, ds: seq<string>)
    requires Valid(t) && cs != [] && ROOT in t.nodes && Walk(t, ROOT, Dir(cs)).Some?
    ensures var u := AddSub(t, Walk(t, ROOT, Dir(cs)).value, Last(cs), isDir);
      && Valid(u)
      && Look(u, ds) ==
           if ds == cs && Look(t, cs) == None then Some(View(t.next, isDir, "", []))
           else if ds == Dir(cs) then Renamed(Look(t, ds), NamesIn(Look(t, ds)) + [Last(cs)])
           else Look(t, ds)
  {
    hide Valid, Walk, AddSub, ViewOf;
    var d := Walk(t, ROOT, Dir(cs)).value;
    NewPath(t, cs, isDir, ds);
    ViewsAfterAddSub(t, d, Last(cs), isDir, d);
    var i := Walk(t, ROOT, ds);
    if i.Some? {
      ViewsAfterAddSub(t, d, Last(cs), isDir, i.value);
      if i.value == d {
        WalkInjective(t, ds, Dir(cs));
      }
    }
  }

  /** mkdir succeeds exactly when the parent exists and the name is free; then the path shows an empty directory. */
  lemma MakeDirLaw(t: Tree, cs: seq<string>, ds: seq<string>)
    requires Valid(t) && WellFormed(MakeDir(cs))
    ensures var (a, u) := Plain(t, MakeDir(cs));
      && Valid(u) && a == Done(Look(t, Dir(cs)).Some? && Look(t, cs) == None)
      && (a == Done(false) ==> u == t)
      && (a == Done(true) ==>
            Look(u, ds) ==
              if ds == cs then Some(View(t.next, true, "", []))
              else if ds == Dir(cs) then Renamed(Look(t, ds), NamesIn(Look(t, ds)) + [Last(cs)])
              else Look(t, ds))
  {
    PlainGrows(t, MakeDir(cs));
    RootLive(t);
    ValidLast(cs);
    if Walk(t, ROOT, Dir(cs)).Some? {
      CreatedAt(t, cs, true);
      CreationLaw(t, cs, true, ds);
    } else {
      NoParentNone(t, cs);
    }
    hide Valid, Walk, AddSub, Grows, Step, ViewOf;
  }

  /** mknod succeeds exactly when the parent exists. If the name was free the path shows an empty file, else what it
      showed; the directory has the name once more. */
  lemma MakeFileLaw(t: Tree, cs: seq<string>, ds: seq<string>)
    requires Valid(t) && WellFormed(MakeFile(cs))
    ensures var (a, u) := Plain(t, MakeFile(cs));
      && Valid(u) && a == Done(Look(t, Dir(cs)).Some?)
      && (a == Done(false) ==> u == t)
      && (a == Done(true) ==>
            Look(u, ds) ==
              if ds == cs && Look(t, cs) == None then Some(View(t.next, false, "", []))
              else if ds == Dir(cs) then Renamed(Look(t, ds), NamesIn(Look(t, ds)) + [Last(cs)])
              else Look(t, ds))
  {
    PlainGrows(t, MakeFile(cs));
    RootLive(t);
    ValidLast(cs);
    if Walk(t, ROOT, Dir(cs)).Some? {
      CreationLaw(t, cs, false, ds);
    }
    hide Valid, Walk, AddSub, Grows, Step, ViewOf;
  }

  lemma ValidLast(cs: seq<string>)
    requires ValidNames(cs) && cs != []
    ensures FilenameValid(Last(cs)) && ValidNames(Dir(cs))
  {
    assert Last(cs) in cs && forall c | c in Dir(cs) :: c in cs;
  }

  lemma NoParentNone(t: Tree, cs: seq<string>)
    requires Valid(t) && cs != [] && ROOT in t.nodes && Walk(t, ROOT, Dir(cs)) == None
    ensures Walk(t, ROOT, cs) == None
  {
    assert cs == Dir(cs) + [Last(cs)];
    WalkConcat(t, ROOT, Dir(cs), [Last(cs)]);
  }

  /* ---------- write ---------- */

  /** write succeeds exactly when the path exists, and then changes what it shows, and only its content. */
  lemma WriteLaw(t: Tree, cs: seq<string>, data: string, ds: seq<string>)
    requires Valid(t) && WellFormed(WriteFile(cs, data))
    ensures var (a, u) := Plain(t, WriteFile(cs, data));
      && Valid(u) && a == Done(Look(t, cs).Some?)
      && (a == Done(false) ==> u == t)
      && (a == Done(true) ==>
            Look(u, ds) == if ds == cs then Some(Look(t, cs).value.(content := data)) else Look(t, ds))
  {
    PlainGrows(t, WriteFile(cs, data));
    RootLive(t);
    var i := Walk(t, ROOT, cs);
    if i.Some? {
      var u := Write(t, i.value, data);
      WriteKeepsWalks(t, i.value, data, ROOT, ds);
      if Walk(t, ROOT, ds).Some? {
        ViewAfterWrite(t, i.value, data, Walk(t, ROOT, ds).value);
        if Walk(t, ROOT, ds) == i {
          WalkInjective(t, ds, cs);
        }
      }
    }
    hide Valid, Walk, Write, Grows, ViewOf;
  }

  lemma {:induction false} WriteKeepsWalks(t: Tree, i: Ino, data: string, x: Ino, names: seq<string>)
    requires Valid(t) && i in t.nodes && x in t.nodes
    ensures var u := Write(t, i, data); Valid(u) && x in u.nodes && Walk(u, x, names) == Walk(t, x, names)
    decreases |names|
  {
    WriteGrows(t, i, data);
    var u := Write(t, i, data);
    if names != [] {
      ChildrenLive(t, x);
      FirstNamedSame(t, u, t.nodes[x].entries, names[0]);
      var s := Step(t, x, names[0]);
      if s.Some? {
        WriteKeepsWalks(t, i, data, s.value, names[1..]);
      }
    }
  }

  lemma ViewAfterWrite(t: Tree, i: Ino, data: string, x: Ino)
    requires Valid(t) && i in t.nodes && x in t.nodes
    ensures var u := Write(t, i, data);
      && Valid(u) && x in u.nodes
      && ViewOf(u, x) == if x == i then ViewOf(t, x).(content := data) else ViewOf(t, x)
  {
    WriteGrows(t, i, data);
    var u := Write(t, i, data);
    ChildrenLive(t, x);
    NamesSame(t, u, t.nodes[x].entries);
  }

  /* ---------- rm and rmdir ---------- */

  /** The components cs lead through the inode at cs, and so does everything that starts with them; nothing else does.
      */
  lemma ThroughIsPrefix(t: Tree, cs: seq<string>, ds: seq<string>)
    requires Valid(t) && ROOT in t.nodes && Walk(t, ROOT, cs).Some?
    ensures Through(t, ROOT, ds, Walk(t, ROOT, cs).value) <==> cs <= ds
  {
    var i := Walk(t, ROOT, cs).value;
    if Through(t, ROOT, ds, i) {
      var n := ThroughPrefix(t, ROOT, ds, i);
      WalkInjective(t, cs, ds[..n]);
    }
    if cs <= ds {
      WalkGoesThrough(t, ROOT, cs);
      assert ds == cs + ds[|cs|..];
      ThroughExtends(t, ROOT, cs, ds[|cs|..], i);
    }
  }

  lemma {:induction false} ThroughExtends(t: Tree, x: Ino, a: seq<string>, b: seq<string>, i: Ino)
    requires Valid(t) && x in t.nodes && Through(t, x, a, i)
    ensures Through(t, x, a + b, i)
    decreases |a|
  {
    if x != i {
      assert (a + b)[1..] == a[1..] + b;
      ThroughExtends(t, Step(t, x, a[0]).value, a[1..], b, i);
    }
  }

  /** A directory that removing i empties is only reached through i. */
  lemma {:induction false} ClearedIsThrough(t: Tree, i: Ino, ds: seq<string>)
    requires Valid(t) && i in t.nodes && ROOT in t.nodes && Walk(t, ROOT, ds).Some?
    requires Walk(t, ROOT, ds).value in Cleared(t, i)
    ensures Through(t, ROOT, ds, i)
    decreases |ds|
  {
    if Walk(t, ROOT, ds) == Some(i) {
      WalkGoesThrough(t, ROOT, ds);
    } else {
      LastStep(t, ds);
      ClearedIsThrough(t, i, Dir(ds));
      ThroughExtends(t, ROOT, Dir(ds), [Last(ds)], i);
      assert ds == Dir(ds) + [Last(ds)];
    }
  }

  /** The first entry of its name is erased with the first occurrence of that name. */
  lemma {:induction false} NamesWithout(t: Tree, es: seq<Ino>, i: Ino, name: string)
    requires (forall e | e in es :: e in t.nodes) && i in es && t.nodes[i].name == name
    requires forall j, k | 0 <= j < k < |es| :: es[j] != es[k]
    requires FirstNamed(t, es, name) >= 0 && es[FirstNamed(t, es, name)] == i
    ensures (forall e | e in Without(es, i) :: e in t.nodes)
    ensures NamesOf(t, Without(es, i)) == DropFirst(NamesOf(t, es), name)
  {
    var rest := es[1..];
    NamesCons(t, es);
    assert forall e | e in rest :: e in es;
    if es[0] == i {
      WithoutAbsent(rest, i);
    } else {
      assert FirstNamed(t, rest, name) == FirstNamed(t, es, name) - 1;
      NamesWithout(t, rest, i, name);
      NamesCons(t, [es[0]] + Without(rest, i));
      assert ([es[0]] + Without(rest, i))[1..] == Without(rest, i);
    }
  }

  lemma {:induction false} NamesCons(t: Tree, es: seq<Ino>)
    requires es != [] && forall e | e in es :: e in t.nodes
    ensures forall e | e in es[1..] :: e in t.nodes
    ensures NamesOf(t, es) == [t.nodes[es[0]].name] + NamesOf(t, es[1..])
  {
    assert forall e | e in es[1..] :: e in es;
    if |es| > 1 {
      var init := es[..|es| - 1];
      assert forall e | e in init :: e in es;
      NamesCons(t, init);
      assert init[1..] == es[1..][..|es| - 2];
    } else {
      assert es[..0] == [] && es[1..] == [];
    }
  }

  lemma {:induction false} WithoutAbsent(es: seq<Ino>, i: Ino)
    requires i !in es
    ensures Without(es, i) == es
  {
    if es != [] {
      WithoutAbsent(es[1..], i);
      assert es == [es[0]] + es[1..];
    }
  }

  lemma ViewAfterRemove(t: Tree, cs: seq<string>, ds: seq<string>)
    requires Valid(t) && cs != [] && ROOT in t.nodes && Walk(t, ROOT, cs).Some? && Walk(t, ROOT, ds).Some?
    requires !(cs <= ds)
    ensures var u, x := Remove(t, Walk(t, ROOT, cs).value), Walk(t, ROOT, ds).value;
      && Valid(u) && x in u.nodes
      && ViewOf(u, x) ==
           if ds == Dir(cs) then ViewOf(t, x).(names := DropFirst(ViewOf(t, x).names, Last(cs))) else ViewOf(t, x)
  {
    var i, x := Walk(t, ROOT, cs).value, Walk(t, ROOT, ds).value;
    var u := Remove(t, i);
    RemoveValid(t, i);
    LastStep(t, cs);
    LastName(t, cs);
    ThroughIsPrefix(t, cs, ds);
    if x in Cleared(t, i) {
      ClearedIsThrough(t, i, ds);
    }
    ChildrenLive(t, x);
    ChildrenLive(u, x);
    NamesSame(t, u, u.nodes[x].entries);
    if Walk(t, ROOT, Dir(cs)) == Some(x) {
      WalkInjective(t, ds, Dir(cs));
      LastIsFirst(t, cs);
      NamesWithout(t, t.nodes[x].entries, i, Last(cs));
    }
  }

  lemma LastIsFirst(t: Tree, cs: seq<string>)
    requires Valid(t) && cs != [] && ROOT in t.nodes && Walk(t, ROOT, cs).Some?
    ensures Walk(t, ROOT, Dir(cs)).Some?
    ensures var d, i := Walk(t, ROOT, Dir(cs)).value, Walk(t, ROOT, cs).value;
      && (forall e | e in t.nodes[d].entries :: e in t.nodes) && i in t.nodes[d].entries
      && FirstNamed(t, t.nodes[d].entries, Last(cs)) >= 0
      && t.nodes[d].entries[FirstNamed(t, t.nodes[d].entries, Last(cs))] == i
  {
    LastStep(t, cs);
    assert cs == Dir(cs) + [Last(cs)] && [Last(cs)][1..] == [] && [Last(cs)][0] == Last(cs);
    WalkConcat(t, ROOT, Dir(cs), [Last(cs)]);
    ChildrenLive(t, Walk(t, ROOT, Dir(cs)).value);
  }

  /** What removing the inode at cs makes paths show: below cs nothing, or what a namesake shows; in its directory one
      name less, the first of its kind; everywhere else what they showed. */
  lemma RemovalLaw(t: Tree, cs: seq<string>, ds: seq<string>)
    requires Valid(t) && cs != [] && ROOT in t.nodes && Walk(t, ROOT, cs).Some?
    ensures var i := Walk(t, ROOT, cs).value;
      && Valid(Remove(t, i)) && t.nodes[i].parent.Some?
      && (!(cs <= ds) ==>
            Look(Remove(t, i), ds) ==
              if ds == Dir(cs) then Renamed(Look(t, ds), DropFirst(NamesIn(Look(t, ds)), Last(cs))) else Look(t, ds))
      && (cs <= ds && OnlyOfItsName(t, i) ==> Look(Remove(t, i), ds) == None)
      && (cs <= ds && Look(t, ds).Some? && Look(Remove(t, i), ds).Some? ==>
            Look(Remove(t, i), ds).value.ino != Look(t, ds).value.ino)
  {
    var i := Walk(t, ROOT, cs).value;
    LastStep(t, cs);
    RemoveValid(t, i);
    ThroughIsPrefix(t, cs, ds);
    RemoveWalks(t, i, ds);
    if Walk(t, ROOT, ds).Some? && !(cs <= ds) {
      ViewAfterRemove(t, cs, ds);
    }
    hide Valid, Walk, Remove, OnlyOfItsName, Through;
  }

  lemma RemoveWalks(t: Tree, i: Ino, ds: seq<string>)
    requires Valid(t) && i in t.nodes && t.nodes[i].parent.Some? && ROOT in t.nodes
    ensures Valid(Remove(t, i)) && ROOT in Remove(t, i).nodes
    ensures !Through(t, ROOT, ds, i) ==> Walk(Remove(t, i), ROOT, ds) == Walk(t, ROOT, ds)
    ensures Through(t, ROOT, ds, i) ==>
      && (Walk(t, ROOT, ds).Some? ==> Walk(Remove(t, i), ROOT, ds) != Walk(t, ROOT, ds))
      && (OnlyOfItsName(t, i) ==> Walk(Remove(t, i), ROOT, ds) == None)
  {
    assert ROOT in Cleared(t, i) ==> ROOT == i;
    RemoveFrame(t, i, ROOT, ds);
    if Through(t, ROOT, ds, i) {
      FamilySteps(t, i, ROOT, "");
      FamilyIsGone(t, i, ROOT, ds);
      ThroughEndsInFamily(t, i, ROOT, ds);
    }
  }

  /** rm succeeds exactly when the path exists, rmdir exactly when it is a directory; neither touches the root. */
  lemma RemoveLaw(t: Tree, call: Call, ds: seq<string>)
    requires Valid(t) && WellFormed(call) && Removal(call)
    ensures var (a, u) := Plain(t, call);
      var cs := call.cs;
      && Valid(u) && a == Done(Look(t, cs).Some? && (call.RemoveDir? ==> Look(t, cs).value.isDir))
      && (a == Done(false) || cs == [] ==> u == t)
      && (a == Done(true) && cs != [] ==>
            && (!(cs <= ds) ==>
                  Look(u, ds) ==
                    if ds == Dir(cs) then Renamed(Look(t, ds), DropFirst(NamesIn(Look(t, ds)), Last(cs)))
                    else Look(t, ds))
            && (cs <= ds && Look(t, ds).Some? && Look(u, ds).Some? ==> Look(u, ds).value.ino != Look(t, ds).value.ino)
            && Look(t, cs).value.ino in t.nodes && t.nodes[Look(t, cs).value.ino].parent.Some?
            && (cs <= ds && OnlyOfItsName(t, Look(t, cs).value.ino) ==> Look(u, ds) == None))
  {
    PlainGrows(t, call);
    RootLive(t);
    assert t.nodes[ROOT].parent == None;
    var cs := call.cs;
    if Walk(t, ROOT, cs).Some? && cs != [] {
      RemovalLaw(t, cs, ds);
    }
    assert cs == [] ==> Walk(t, ROOT, cs) == Some(ROOT);
    hide Valid, Walk, OnlyOfItsName, Grows, ViewOf;
  }
}
