/** fs/FileSystem.{h,cc}: inodes as objects that hold each other, changed in place, against the trees of Namespace. */
module FileSystems {
  import opened Collections
  import opened Paths
  import N = Namespace
  import E = Emptying

  class Inode {
    /** Stands for the inode's address. */
    const id: N.Ino
    var name: string
    const isDir: bool
    const parent: Inode?
    var entries: seq<Inode>
    var content: string

    constructor (id: N.Ino, name: string, isDir: bool, parent: Inode?)
      ensures this.id == id && this.name == name && this.isDir == isDir && this.parent == parent
      ensures entries == [] && content == ""
    {
      this.id, this.name, this.isDir, this.parent := id, name, isDir, parent;
      entries, content := [], "";
    }

    /** get_subitr: the position of the first entry with this name, or of end(). */
    method GetSubItr(subpath: string) returns (k: nat)
      ensures k <= |entries| && (k < |entries| ==> entries[k].name == subpath)
      ensures forall j | 0 <= j < k :: entries[j].name != subpath
    {
      k := 0;
      while k < |entries| && entries[k].name != subpath
        invariant k <= |entries|
        invariant forall j | 0 <= j < k :: entries[j].name != subpath
      {
        k := k + 1;
      }
    }

    method AddSub(inode: Inode)
      modifies this`entries
      ensures entries == old(entries) + [inode]
    {
      entries := entries + [inode];
    }

    /** delete_sub: erase every occurrence, keeping the order of the rest. */
    method DeleteSub(inode: Inode)
      modifies this`entries
      ensures entries == Erased(old(entries), inode)
    {
      var it := 0;
      while it < |entries|
        invariant it <= |entries| && inode !in entries[..it]
        invariant entries[..it] + Erased(entries[it..], inode) == Erased(old(entries), inode)
        decreases |entries| - it
      {
        if entries[it] == inode {
          assert entries[it..][1..] == (entries[..it] + entries[it + 1..])[it..];
          entries := entries[..it] + entries[it + 1..];
        } else {
          assert entries[it..] == [entries[it]] + entries[it + 1..];
          assert entries[..it + 1] == entries[..it] + [entries[it]];
          it := it + 1;
        }
      }
      assert entries[it..] == [] && entries[..it] == entries;
    }
  }

  function Erased(es: seq<Inode>, x: Inode): seq<Inode> {
    if es == [] then []
    else if es[0] == x then Erased(es[1..], x)
    else [es[0]] + Erased(es[1..], x)
  }

  function Ids(es: seq<Inode>): (ids: seq<N.Ino>)
    ensures |ids| == |es| && forall k | 0 <= k < |es| :: ids[k] == es[k].id
  {
    seq(|es|, k requires 0 <= k < |es| => es[k].id)
  }

  lemma {:induction false} ErasedIds(es: seq<Inode>, x: Inode)
    requires forall e | e in es :: e.id == x.id ==> e == x
    ensures Ids(Erased(es, x)) == N.Without(Ids(es), x.id)
    ensures forall e | e in Erased(es, x) :: e in es
  {
    if es != [] {
      assert forall e | e in es[1..] :: e in es;
      ErasedIds(es[1..], x);
      assert es[0] in es;
      assert Ids(es) == [es[0].id] + Ids(es[1..]);
      assert Ids(es)[1..] == Ids(es[1..]);
      if es[0] != x {
        assert Ids([es[0]] + Erased(es[1..], x)) == [es[0].id] + Ids(Erased(es[1..], x));
      }
    }
  }

  ghost function Snap(n: Inode): N.Inode
    reads n
  {
    N.Inode(n.name, n.isDir, if n.parent == null then None else Some(n.parent.id), Ids(n.entries), n.content)
  }

  class FileSystem {
    const root: Inode

    /** Every inode ever made, by address; removed ones stay, detached. */
    ghost var heap: map<N.Ino, Inode>
    var next: N.Ino

    ghost function Tree(): N.Tree
      reads this, heap.Values
    {
      N.Tree(map i | i in heap :: Snap(heap[i]), next)
    }

    /** Addresses are the inodes' own, inodes only refer to each other, and together they form a tree. */
    ghost predicate Valid()
      reads this, heap.Values
    {
      && N.ROOT in heap && heap[N.ROOT] == root
      && (forall i | i in heap :: heap[i].id == i && Closed(heap[i]))
      && N.Valid(Tree())
    }

    ghost predicate Closed(n: Inode)
      reads this, n
    {
      && (forall e | e in n.entries :: Known(e))
      && (n.parent != null ==> Known(n.parent))
    }

    ghost predicate Known(n: Inode)
      reads this
    {
      n.id in heap && heap[n.id] == n
    }

    constructor ()
      ensures Valid() && Tree() == N.EMPTY && fresh(heap.Values)
    {
      root := new Inode(N.ROOT, "/", true, null);
      next := 1;
      heap := map[];
      new;
      heap := map[N.ROOT := root];
      assert Tree().nodes == map[N.ROOT := Snap(root)];
    }

    /** lookup: walk the components with a cursor. */
    method Lookup(path: string, start: Inode?) returns (r: Inode?)
      requires Valid() && (start != null ==> Known(start))
      ensures r != null ==> Known(r)
      ensures path == "" ==> r == null
      ensures (if r == null then None else Some(r.id))
          == N.Lookup(Tree(), path, if start == null then N.ROOT else start.id)
    {
      hide N.Valid, N.Step, N.FirstNamed, Components, Snap, Ids, Closed;
      if path == "" { return null; }
      var pathList := SplitPath(path);
      var inode: Inode := root;
      if start != null { inode := start; }
      ghost var from := inode.id;
      var n := 0;
      while n < |pathList|
        invariant 0 <= n <= |pathList| && Known(inode)
        invariant N.Walk(Tree(), from, pathList) == N.Walk(Tree(), inode.id, pathList[n..])
      {
        var it := inode.GetSubItr(pathList[n]);
        StepIs(inode, pathList[n], it);
        assert pathList[n..][1..] == pathList[n + 1..];
        if it == |inode.entries| { return null; }
        inode := inode.entries[it];
        n := n + 1;
      }
      return inode;
    }

    lemma StepIs(n: Inode, name: string, k: nat)
      requires Valid() && Known(n) && k <= |n.entries| && (k < |n.entries| ==> n.entries[k].name == name)
      requires forall j | 0 <= j < k :: n.entries[j].name != name
      ensures n.id in Tree().nodes
      ensures N.Step(Tree(), n.id, name) == if k == |n.entries| then None else Some(n.entries[k].id)
      ensures k < |n.entries| ==> Known(n.entries[k])
    {
      var t := Tree();
      N.ChildrenLive(t, n.id);
      var es := t.nodes[n.id].entries;
      assert es == Ids(n.entries);
      forall j | 0 <= j < |es|
        ensures t.nodes[es[j]].name == n.entries[j].name && Known(n.entries[j])
      {
        assert n.entries[j] in n.entries;
      }
    }

    /* ---------- mknod, mkdir, read, write, listdir ---------- */

    /** The tree after one inode has changed. */
    twostate lemma OneChanged(n: Inode)
      requires old(Valid()) && old(Known(n)) && heap == old(heap) && next == old(next)
      requires forall i | i in heap && heap[i] != n :: unchanged(heap[i])
      ensures Tree() == old(Tree()).(nodes := old(Tree()).nodes[n.id := Snap(n)])
    {
      var t, u := old(Tree()), Tree();
      forall i | i in u.nodes
        ensures u.nodes[i] == if i == n.id then Snap(n) else t.nodes[i]
      {
        assert i != n.id ==> heap[i] != n;
      }
    }

    lemma NextFree()
      requires Valid()
      ensures next !in heap
    {
      assert next in heap ==> next in Tree().nodes;
    }

    /** The tree after a new inode has been hung below a parent. */
    twostate lemma OneAdded(parent: Inode, new ino: Inode)
      requires old(Valid()) && old(Known(parent)) && old(next) !in old(heap)
      requires heap == old(heap)[ino.id := ino] && ino.id == old(next) && next == old(next) + 1 && ino.entries == []
      requires ino.content == ""
      requires ino.parent == parent && parent.entries == old(parent.entries) + [ino]
      requires parent.content == old(parent.content) && parent.name == old(parent.name)
      requires forall i | i in old(heap) && old(heap[i]) != parent :: unchanged(old(heap[i]))
      ensures parent.id in old(Tree()).nodes
      ensures Tree() == N.AddSub(old(Tree()), parent.id, ino.name, ino.isDir)
    {
      hide N.Valid;
      var t, u := old(Tree()), Tree();
      var v := N.AddSub(t, parent.id, ino.name, ino.isDir);
      assert Ids(parent.entries) == old(Ids(parent.entries)) + [ino.id];
      forall i | i in u.nodes
        ensures i in v.nodes && u.nodes[i] == v.nodes[i]
      {
        assert i != parent.id && i != ino.id ==> heap[i] != parent && Snap(heap[i]) == old(Snap(heap[i]));
      }
      assert u.nodes == v.nodes;
    }

    twostate lemma OneAddedClosed(parent: Inode, new ino: Inode)
      requires old(Valid()) && old(Known(parent)) && old(next) !in old(heap)
      requires heap == old(heap)[ino.id := ino] && ino.id == old(next) && ino.entries == [] && ino.parent == parent
      requires parent.entries == old(parent.entries) + [ino]
      requires forall i | i in old(heap) && old(heap[i]) != parent :: unchanged(old(heap[i]))
      ensures forall i | i in heap :: heap[i].id == i && Closed(heap[i])
    {
      hide N.Valid;
      forall i | i in heap
        ensures heap[i].id == i && Closed(heap[i])
      {
        assert i != ino.id ==> heap[i] == old(heap)[i] && old(Closed(heap[i]));
        assert forall n: Inode | n.id in old(heap) && old(heap)[n.id] == n :: Known(n);
      }
    }

    method Create(parent: Inode, name: string, isDir: bool) returns (ino: Inode)
      requires Valid() && Known(parent)
      modifies this, parent`entries
      ensures Valid() && Known(ino) && ino.id == old(next) && fresh(ino)
      ensures ino.id !in old(heap) && heap == old(heap)[ino.id := ino]
      ensures Tree() == N.AddSub(old(Tree()), parent.id, name, isDir)
      ensures ino.name == name && ino.isDir == isDir && ino.entries == [] && ino.content == "" && ino.parent == parent
      ensures parent.entries == old(parent.entries) + [ino]
    {
      hide N.Valid, N.AddSub, N.Grows, Closed, Snap;
      NextFree();
      N.AddSubGrows(Tree(), parent.id, name, isDir);
      ino := new Inode(next, name, isDir, parent);
      parent.AddSub(ino);
      heap := heap[next := ino];
      next := next + 1;
      OneAdded(parent, ino);
      OneAddedClosed(parent, ino);
    }

    method Mknod(parent: Inode?, name: string) returns (ino: Inode?)
      requires Valid() && (parent != null ==> Known(parent))
      modifies this, if parent == null then {} else {parent}
      ensures Valid()
      ensures forall i | i in old(heap) :: i in heap && heap[i] == old(heap[i])
      ensures parent == null ==> ino == null && Tree() == old(Tree())
      ensures ino != null ==> Known(ino) && fresh(ino)
      ensures fresh(heap.Values - old(heap.Values))
      ensures parent != null ==>
        (if ino == null then None else Some(ino.id), Tree()) == N.Mknod(old(Tree()), parent.id, name)
      ensures ino != null <==> parent != null && '/' !in name
      ensures ino != null ==>
        ino.name == name && !ino.isDir && ino.entries == [] && ino.content == "" && ino.parent == parent
      ensures ino != null ==> parent.entries == old(parent.entries) + [ino]
    {
      if parent == null || !FilenameValid(name) { return null; }
      ino := Create(parent, name, false);
    }

    method Mkdir(parent: Inode?, name: string) returns (ino: Inode?)
      requires Valid() && (parent != null ==> Known(parent))
      modifies this, if parent == null then {} else {parent}
      ensures Valid()
      ensures forall i | i in old(heap) :: i in heap && heap[i] == old(heap[i])
      ensures parent == null ==> ino == null && Tree() == old(Tree())
      ensures ino != null ==> Known(ino) && fresh(ino)
      ensures fresh(heap.Values - old(heap.Values))
      ensures parent != null ==>
        (if ino == null then None else Some(ino.id), Tree()) == N.Mkdir(old(Tree()), parent.id, name)
      ensures ino != null <==>
        parent != null && '/' !in name && forall e | e in old(parent.entries) :: old(e.name) != name
      ensures ino != null ==>
        ino.name == name && ino.isDir && ino.entries == [] && ino.content == "" && ino.parent == parent
      ensures ino != null ==> parent.entries == old(parent.entries) + [ino]
    {
      hide N.Valid, N.AddSub, Closed, Snap, Ids;
      if parent == null || !FilenameValid(name) { return null; }
      var it := parent.GetSubItr(name);
      StepIs(parent, name, it);
      if it < |parent.entries| { return null; }
      ino := Create(parent, name, true);
    }

    method Read(ino: Inode?) returns (ok: bool, out: string)
      requires Valid() && (ino != null ==> Known(ino))
      ensures ok == (ino != null) && (ok ==> out == Tree().nodes[ino.id].content == ino.content)
    {
      if ino == null { return false, ""; }
      return true, ino.content;
    }

    method Write(ino: Inode?, content: string) returns (ok: bool)
      requires Valid() && (ino != null ==> Known(ino))
      modifies if ino == null then {} else {ino}
      ensures Valid() && ok == (ino != null)
      ensures Tree() == if ok then N.Write(old(Tree()), ino.id, content) else old(Tree())
      ensures ok ==> ino.content == content && ino.name == old(ino.name) && ino.entries == old(ino.entries)
    {
      if ino == null { return false; }
      ghost var t := Tree();
      N.WriteGrows(t, ino.id, content);
      ino.content := content;
      OneChanged(ino);
      return true;
    }

    method Listdir(parent: Inode?) returns (ok: bool, ret: seq<Inode>)
      requires Valid() && (parent != null ==> Known(parent))
      ensures parent == null ==> !ok
      ensures parent != null ==> (if ok then Some(Ids(ret)) else None) == N.Listdir(Tree(), parent.id)
      ensures ok ==> ret == parent.entries
    {
      if parent == null || !parent.isDir { return false, []; }
      ret := [];
      var it := 0;
      while it < |parent.entries|
        invariant it <= |parent.entries| && ret == parent.entries[..it]
      {
        ret := ret + [parent.entries[it]];
        it := it + 1;
      }
      assert parent.entries[..it] == parent.entries;
      assert Tree().nodes[parent.id] == Snap(parent);
      return true, ret;
    }

    method IsDir(path: string) returns (b: bool)
      requires Valid()
      ensures b == N.IsDir(Tree(), path)
    {
      var inode := Lookup(path, null);
      if inode == null { return false; }
      return inode.isDir;
    }

    /* ---------- rm, rmdir ---------- */

    /** The tree after one inode has lost some of its entries. */
    twostate lemma OneShrunk(n: Inode)
      requires old(Valid()) && old(Known(n)) && heap == old(heap) && next == old(next)
      requires forall i | i in heap && heap[i] != n :: unchanged(heap[i])
      requires n.name == old(n.name) && n.content == old(n.content) && forall e | e in n.entries :: e in old(n.entries)
      ensures n.id in old(Tree()).nodes && Tree() == E.WithEntries(old(Tree()), n.id, Ids(n.entries))
      ensures forall i | i in heap :: heap[i].id == i && Closed(heap[i])
    {
      hide N.Valid;
      OneChanged(n);
      assert old(Closed(n));
      forall i | i in heap
        ensures heap[i].id == i && Closed(heap[i])
      {
        assert old(Closed(heap[i]));
      }
    }

    method EraseFirst(n: Inode)
      requires Valid() && Known(n) && n.entries != []
      requires N.ValidEntries(Tree(), n.id, Ids(n.entries)[1..])
      modifies n`entries
      ensures Valid() && Ids(n.entries) == old(Ids(n.entries))[1..]
      ensures Tree() == E.WithEntries(old(Tree()), n.id, old(Ids(n.entries))[1..])
    {
      hide N.Valid;
      ghost var t, es := Tree(), Ids(n.entries);
      E.MidwayValid(t, n.id, {}, es[1..]);
      E.EmptiedNothing(t);
      n.entries := n.entries[1..];
      assert Ids(n.entries) == es[1..];
      OneShrunk(n);
    }

    /** delete_myself_recur: empty each entry, then erase it, front to back. */
    method DeleteMyselfRecur(n: Inode)
      requires Valid() && Known(n)
      modifies heap.Values`entries
      ensures Valid() && n.id in old(Tree()).nodes
      ensures Tree() == E.Emptied(old(Tree()), N.Cleared(old(Tree()), n.id))
      decreases next - n.id
    {
      hide N.Valid, N.Cleared, N.ClearedAll, E.Downward, E.Emptied, E.Midway, E.WithEntries, Tree;
      ghost var t := Tree();
      InTree(n);
      if !n.isDir {
        E.ClearedIs(t, n.id);
        E.EmptiedNothing(t);
        return;
      }
      ghost var es, done := Ids(n.entries), {};
      E.FirstTurn(t, n.id);
      E.NothingDownward(t);
      while n.entries != []
        invariant Valid() && heap == old(heap) && Ids(n.entries) == es
        invariant E.Downward(t, done) && N.ValidEntries(t, n.id, es)
        invariant done + N.ClearedAll(t, n.id, es) == N.ClearedAll(t, n.id, t.nodes[n.id].entries)
        invariant Tree() == E.Midway(t, n.id, done, es)
        decreases |n.entries|
      {
        E.Turn(t, n.id, done, es);
        FirstEntry(n);
        DeleteMyselfRecur(n.entries[0]);
        InTree(n);
        EraseFirst(n);
        done, es := done + N.Cleared(t, es[0]), es[1..];
      }
      E.LastTurn(t, n.id, done);
      E.ClearedIs(t, n.id);
    }

    lemma FirstEntry(n: Inode)
      requires Valid() && Known(n) && n.entries != []
      ensures Known(n.entries[0]) && n.id < n.entries[0].id < next
    {
      InTree(n);
      assert n.entries[0] in n.entries;
      InTree(n.entries[0]);
    }

    lemma InTree(n: Inode)
      requires Valid() && Known(n)
      ensures n.id in Tree().nodes && Tree().nodes[n.id] == Snap(n)
      ensures n.id < next && N.ValidEntries(Tree(), n.id, Ids(n.entries))
    {
      assert N.ValidEntries(Tree(), n.id, Tree().nodes[n.id].entries);
    }

    method Unlink(p: Inode, n: Inode)
      requires Valid() && Known(p) && Known(n)
      modifies p`entries
      ensures Valid() && p.id in old(Tree()).nodes
      ensures Tree() == E.WithEntries(old(Tree()), p.id, N.Without(old(Tree()).nodes[p.id].entries, n.id))
    {
      hide N.Valid;
      ghost var t, es := Tree(), Ids(p.entries);
      InTree(p);
      assert old(Closed(p));
      ErasedIds(p.entries, n);
      N.WithoutKeeps(t, p.id, es, n.id);
      E.MidwayValid(t, p.id, {}, N.Without(es, n.id));
      E.EmptiedNothing(t);
      p.DeleteSub(n);
      OneShrunk(p);
    }

    /** delete_myself: the root stays; anything else is emptied and leaves its parent's entries. */
    method DeleteMyself(n: Inode)
      requires Valid() && Known(n)
      modifies heap.Values`entries
      ensures Valid() && n.id in old(Tree()).nodes
      ensures Tree() == N.Remove(old(Tree()), n.id)
    {
      hide N.Valid;
      ghost var t := Tree();
      InTree(n);
      if n.parent == null { return; }
      DeleteMyselfRecur(n);
      var p: Inode := n.parent;
      InTree(p);
      Unlink(p, n);
      E.EmptiedThenUnlinked(t, n.id, p.id);
      N.RemoveValid(t, n.id);
    }

    method Rm(ino: Inode?) returns (ok: bool)
      requires Valid() && (ino != null ==> Known(ino))
      modifies heap.Values`entries
      ensures Valid() && ok == (ino != null)
      ensures Tree() == if ok then N.Remove(old(Tree()), ino.id) else old(Tree())
    {
      if ino == null { return false; }
      DeleteMyself(ino);
      return true;
    }

    method Rmdir(ino: Inode?) returns (ok: bool)
      requires Valid() && (ino != null ==> Known(ino))
      modifies heap.Values`entries
      ensures Valid() && ok == (ino != null)
      ensures Tree() == if ok then N.Remove(old(Tree()), ino.id) else old(Tree())
    {
      if ino == null { return false; }
      DeleteMyself(ino);
      return true;
    }
  }
}
