/** The erase-while-recursing loop of delete_myself_recur, on trees: emptying a directory entry by entry, with each
    entry's own subtree emptied first, empties exactly the directories of Namespace.Cleared. */
module Emptying {
  import opened Collections
  import opened Namespace

  function WithEntries(t: Tree, i: Ino, es: seq<Ino>): Tree
    requires i in t.nodes
  {
    t.(nodes := t.nodes[i := t.nodes[i].(entries := es)])
  }

  function Emptied(t: Tree, gone: set<Ino>): Tree {
    t.(nodes := map x | x in t.nodes :: if x in gone then t.nodes[x].(entries := []) else t.nodes[x])
  }

  /** Every directory listed in a directory of s is in s. */
  ghost predicate Downward(t: Tree, s: set<Ino>)
    requires Valid(t)
  {
    forall x, e | x in s && x in t.nodes && e in t.nodes[x].entries :: Listed(t, s, x, e)
  }

  ghost predicate Listed(t: Tree, s: set<Ino>, x: Ino, e: Ino) {
    e in t.nodes && (t.nodes[e].isDir ==> e in s)
  }

  lemma {:induction false} ClearedDownward(t: Tree, i: Ino)
    requires Valid(t) && i in t.nodes
    ensures Downward(t, Cleared(t, i)) && (t.nodes[i].isDir ==> i in Cleared(t, i))
    decreases t.next - i, 1, 0
  {
    if t.nodes[i].isDir {
      var es := t.nodes[i].entries;
      assert ValidEntries(t, i, es);
      ClearedAllDownward(t, i, es);
      var s := Cleared(t, i);
      forall x, e | x in s && x in t.nodes && e in t.nodes[x].entries
        ensures Listed(t, s, x, e)
      {
        assert x != i ==> Listed(t, ClearedAll(t, i, es), x, e);
      }
    }
  }

  lemma {:induction false} ClearedAllDownward(t: Tree, i: Ino, es: seq<Ino>)
    requires Valid(t) && i in t.nodes && ValidEntries(t, i, es)
    ensures Downward(t, ClearedAll(t, i, es))
    ensures forall e | e in es :: Listed(t, ClearedAll(t, i, es), i, e)
    decreases t.next - i, 0, |es|
  {
    if es != [] {
      assert i < es[0];
      ClearedDownward(t, es[0]);
      ClearedAllDownward(t, i, es[1..]);
      var a, b := Cleared(t, es[0]), ClearedAll(t, i, es[1..]);
      forall x, e | x in a + b && x in t.nodes && e in t.nodes[x].entries
        ensures Listed(t, a + b, x, e)
      {
        assert x in a ==> Listed(t, a, x, e);
        assert x in b ==> Listed(t, b, x, e);
      }
      forall e | e in es
        ensures Listed(t, a + b, i, e)
      {
        assert e != es[0] ==> e in es[1..] && Listed(t, b, i, e);
      }
    }
  }

  lemma {:induction false} ClearedInside(t: Tree, s: set<Ino>, i: Ino)
    requires Valid(t) && i in t.nodes && Downward(t, s) && (t.nodes[i].isDir ==> i in s)
    ensures Cleared(t, i) <= s
    decreases t.next - i, 1, 0
  {
    if t.nodes[i].isDir {
      assert ValidEntries(t, i, t.nodes[i].entries);
      assert forall e | e in t.nodes[i].entries :: Listed(t, s, i, e);
      ClearedAllInside(t, s, i, t.nodes[i].entries);
    }
  }

  lemma {:induction false} ClearedAllInside(t: Tree, s: set<Ino>, i: Ino, es: seq<Ino>)
    requires Valid(t) && i in t.nodes && Downward(t, s) && ValidEntries(t, i, es) && forall e | e in es ::
        Listed(t, s, i, e)
    ensures ClearedAll(t, i, es) <= s
    decreases t.next - i, 0, |es|
  {
    if es != [] {
      assert i < es[0] && Listed(t, s, i, es[0]);
      ClearedInside(t, s, es[0]);
      ClearedAllInside(t, s, i, es[1..]);
    }
  }

  /** u is t after the directories of s above the floor have been emptied. */
  ghost predicate PartlyEmptied(t: Tree, u: Tree, s: set<Ino>, floor: Ino) {
    && u.next == t.next && u.nodes.Keys == t.nodes.Keys
    && forall x | x in t.nodes && floor < x :: u.nodes[x] == if x in s then t.nodes[x].(entries := []) else t.nodes[x]
  }

  /** What has been emptied already makes no difference to what emptying i empties in the end. */
  lemma {:induction false} ClearedAgain(t: Tree, u: Tree, s: set<Ino>, floor: Ino, i: Ino)
    requires Valid(t) && Valid(u) && PartlyEmptied(t, u, s, floor) && Downward(t, s) && i in t.nodes && floor < i
    ensures s + Cleared(u, i) == s + Cleared(t, i)
    decreases t.next - i, 1, 0
  {
    if t.nodes[i].isDir {
      if i in s {
        ClearedInside(t, s, i);
        assert ClearedAll(u, i, []) == {};
      } else {
        assert ValidEntries(t, i, t.nodes[i].entries) && ValidEntries(u, i, t.nodes[i].entries);
        ClearedAllAgain(t, u, s, floor, i, t.nodes[i].entries);
      }
    }
  }

  lemma {:induction false} ClearedAllAgain(t: Tree, u: Tree, s: set<Ino>, floor: Ino, i: Ino, es: seq<Ino>)
    requires Valid(t) && Valid(u) && PartlyEmptied(t, u, s, floor) && Downward(t, s) && i in t.nodes && floor < i
    requires ValidEntries(t, i, es) && ValidEntries(u, i, es)
    ensures s + ClearedAll(u, i, es) == s + ClearedAll(t, i, es)
    decreases t.next - i, 0, |es|
  {
    hide PartlyEmptied, Cleared, Downward;
    if es != [] {
      assert i < es[0];
      ClearedAgain(t, u, s, floor, es[0]);
      ClearedAllAgain(t, u, s, floor, i, es[1..]);
    }
  }

  /* ---------- One turn of the loop over i's entries ---------- */

  /** The tree in the middle of the loop: the first k entries done with. */
  function Midway(t: Tree, i: Ino, s: set<Ino>, es: seq<Ino>): Tree
    requires i in t.nodes
  {
    WithEntries(Emptied(t, s), i, es)
  }

  lemma MidwayValid(t: Tree, i: Ino, s: set<Ino>, es: seq<Ino>)
    requires Valid(t) && i in t.nodes && ValidEntries(t, i, es)
    ensures Valid(Midway(t, i, s, es)) && PartlyEmptied(t, Midway(t, i, s, es), s, i)
  {
    var u := Midway(t, i, s, es);
    forall x | x in u.nodes
      ensures x < u.next && ValidEntries(u, x, u.nodes[x].entries)
    {
      assert ValidEntries(t, x, t.nodes[x].entries);
    }
  }

  lemma EmptiedValid(t: Tree, s: set<Ino>)
    requires Valid(t)
    ensures Valid(Emptied(t, s))
  {
    var u := Emptied(t, s);
    forall x | x in u.nodes
      ensures x < u.next && ValidEntries(u, x, u.nodes[x].entries)
    {
      assert ValidEntries(t, x, t.nodes[x].entries);
    }
  }

  lemma EmptiedTwice(t: Tree, i: Ino, s: set<Ino>, a: set<Ino>, b: set<Ino>, es: seq<Ino>, fs: seq<Ino>)
    requires i in t.nodes && s + a == s + b && i !in a
    ensures var u := Emptied(Midway(t, i, s, es), a);
            i in u.nodes && u.nodes[i].entries == es && WithEntries(u, i, fs) == Midway(t, i, s + b, fs)
  {
    var u := WithEntries(Emptied(Midway(t, i, s, es), a), i, fs);
    forall x | x in t.nodes
      ensures u.nodes[x] == Midway(t, i, s + b, fs).nodes[x]
    {
      assert x in s + a <==> x in s + b;
    }
    assert u.nodes == Midway(t, i, s + b, fs).nodes;
  }

  lemma DownwardUnion(t: Tree, a: set<Ino>, b: set<Ino>)
    requires Valid(t) && Downward(t, a) && Downward(t, b)
    ensures Downward(t, a + b)
  {
    forall x, e | x in a + b && x in t.nodes && e in t.nodes[x].entries
      ensures Listed(t, a + b, x, e)
    {
      assert x in a ==> Listed(t, a, x, e);
      assert x in b ==> Listed(t, b, x, e);
    }
  }

  /** Emptying the entry at the front and dropping it takes one loop state to the next. */
  lemma Turn(t: Tree, i: Ino, s: set<Ino>, es: seq<Ino>)
    requires Valid(t) && i in t.nodes && ValidEntries(t, i, es) && es != [] && Downward(t, s)
    ensures i < es[0] && es[0] in t.nodes && ValidEntries(t, i, es[1..])
    ensures var u := Midway(t, i, s, es);
            var more := s + Cleared(t, es[0]);
            && Valid(u) && Downward(t, more)
            && i in Emptied(u, Cleared(u, es[0])).nodes
            && Emptied(u, Cleared(u, es[0])).nodes[i].entries == es
            && WithEntries(Emptied(u, Cleared(u, es[0])), i, es[1..]) == Midway(t, i, more, es[1..])
            && more + ClearedAll(t, i, es[1..]) == s + ClearedAll(t, i, es)
  {
    hide Valid, Midway, Emptied, WithEntries, PartlyEmptied, Cleared, Downward;
    var u, e := Midway(t, i, s, es), es[0];
    MidwayValid(t, i, s, es);
    KeysKept(t, i, s, es);
    ClearedAgain(t, u, s, i, e);
    ClearedDownward(t, e);
    DownwardUnion(t, s, Cleared(t, e));
    EmptiedTwice(t, i, s, Cleared(u, e), Cleared(t, e), es, es[1..]);
  }

  lemma KeysKept(t: Tree, i: Ino, s: set<Ino>, es: seq<Ino>)
    requires i in t.nodes
    ensures Midway(t, i, s, es).nodes.Keys == t.nodes.Keys
  {
  }

  lemma FirstTurn(t: Tree, i: Ino)
    requires i in t.nodes
    ensures Midway(t, i, {}, t.nodes[i].entries) == t
  {
    assert Midway(t, i, {}, t.nodes[i].entries).nodes == t.nodes;
  }

  lemma EmptiedNothing(t: Tree)
    ensures Emptied(t, {}) == t
  {
    assert Emptied(t, {}).nodes == t.nodes;
  }

  lemma NothingDownward(t: Tree)
    requires Valid(t)
    ensures Downward(t, {})
  {
  }

  lemma ClearedIs(t: Tree, i: Ino)
    requires Valid(t) && i in t.nodes && ValidEntries(t, i, t.nodes[i].entries)
    ensures Cleared(t, i) == if t.nodes[i].isDir then {i} + ClearedAll(t, i, t.nodes[i].entries) else {}
    ensures ClearedAll(t, i, []) == {}
  {
  }

  lemma LastTurn(t: Tree, i: Ino, s: set<Ino>)
    requires i in t.nodes
    ensures Midway(t, i, s, []) == Emptied(t, {i} + s)
  {
    assert Midway(t, i, s, []).nodes == Emptied(t, {i} + s).nodes;
  }

  lemma WithoutNothing(i: Ino)
    ensures Without([], i) == []
  {
  }

  /** Emptying i and taking it out of its parent is Namespace.Remove. */
  lemma EmptiedThenUnlinked(t: Tree, i: Ino, p: Ino)
    requires Valid(t) && i in t.nodes && t.nodes[i].parent == Some(p) && p in t.nodes
    ensures var u := Emptied(t, Cleared(t, i));
      Valid(u) && WithEntries(u, p, Without(u.nodes[p].entries, i)) == Remove(t, i)
  {
    hide Valid, Cleared, Without;
    EmptiedValid(t, Cleared(t, i));
    WithoutNothing(i);
    var u := Emptied(t, Cleared(t, i));
    assert WithEntries(u, p, Without(u.nodes[p].entries, i)).nodes == Remove(t, i).nodes;
  }
}
