/** The plain file system of PlainFs is what the objects of fs/FileSystem.cc do when they are called directly. */
module Reference {
  import opened Collections
  import opened Paths
  import opened FileSystems
  import opened PlainFs
  import N = Namespace

  /** A call made on the objects themselves. */
  method Ask(fs: FileSystem, call: Call) returns (a: Answer)
    requires fs.Valid() && WellFormed(call)
    modifies fs, fs.heap.Values
    ensures fs.Valid() && fresh(fs.heap.Values - old(fs.heap.Values))
    ensures (a, fs.Tree()) == Plain(old(fs.Tree()), call)
  {
    hide N.Valid, N.Step, N.Walk, N.AddSub, N.Mknod, N.Mkdir, N.Write, N.Listdir, NamesOf, Ids, Snap,
      FileSystem.Tree, FileSystem.Closed;
    match call
    case Stat(cs) =>
      var i := At(fs, cs);
      a := Found(if i == null then None else Some(i.id));
    case MakeFile(cs) =>
      var d := At(fs, cs[..|cs| - 1]);
      var i := fs.Mknod(d, cs[|cs| - 1]);
      a := PlainFs.Done(i != null);
    case MakeDir(cs) =>
      var d := At(fs, cs[..|cs| - 1]);
      var i := fs.Mkdir(d, cs[|cs| - 1]);
      a := PlainFs.Done(i != null);
    case ReadFile(cs) =>
      var i := At(fs, cs);
      var ok, data := fs.Read(i);
      a := Content(ok, if ok then data else "");
    case WriteFile(cs, data) =>
      var i := At(fs, cs);
      var ok := fs.Write(i, data);
      a := PlainFs.Done(ok);
    case ListDir(cs) =>
      var i := At(fs, cs);
      a := List(fs, i);
    case RemoveFile(cs) =>
      var i := At(fs, cs);
      var ok := fs.Rm(i);
      a := PlainFs.Done(ok);
    case RemoveDir(cs) =>
      var i := At(fs, cs);
      if i == null || !i.isDir { return PlainFs.Done(false); }
      var ok := fs.Rmdir(i);
      a := PlainFs.Done(ok);
  }

  method List(fs: FileSystem, i: Inode?) returns (a: Answer)
    requires fs.Valid() && (i != null ==> fs.Known(i))
    ensures i == null ==> a == Names(false, [])
    ensures i != null ==> i.id in fs.Tree().nodes
    ensures i != null && !fs.Tree().nodes[i.id].isDir ==> a == Names(false, [])
    ensures i != null && fs.Tree().nodes[i.id].isDir ==>
      && (forall e | e in fs.Tree().nodes[i.id].entries :: e in fs.Tree().nodes)
      && a == Names(true, NamesOf(fs.Tree(), fs.Tree().nodes[i.id].entries))
  {
    hide N.Valid, Ids;
    var ok, list := fs.Listdir(i);
    if i != null { fs.InTree(i); }
    if !ok { return Names(false, []); }
    var names := NamesIn(fs, i, list);
    a := Names(true, names);
  }

  /** A whole run of calls on the objects is PlainFs's run. */
  method AskAll(fs: FileSystem, calls: seq<Call>) returns (answers: seq<Answer>)
    requires fs.Valid() && AllWellFormed(calls)
    modifies fs, fs.heap.Values
    ensures fs.Valid() && fresh(fs.heap.Values - old(fs.heap.Values))
    ensures (answers, fs.Tree()) == PlainRun(old(fs.Tree()), calls)
    decreases |calls|
  {
    hide N.Valid, FileSystem.Tree, FileSystem.Closed, Plain, WellFormed, PlainRun;
    TreeValid(fs);
    if calls == [] {
      NoCalls(fs.Tree());
      return [];
    }
    PlainRunUnfolds(fs.Tree(), calls);
    var a := Ask(fs, calls[0]);
    var rest := AskAll(fs, calls[1..]);
    answers := [a] + rest;
  }

  lemma TreeValid(fs: FileSystem)
    requires fs.Valid()
    ensures N.Valid(fs.Tree())
  {
  }

  lemma NoCalls(t: N.Tree)
    requires N.Valid(t)
    ensures PlainRun(t, []) == ([], t)
  {
  }

  method At(fs: FileSystem, cs: seq<string>) returns (i: Inode?)
    requires fs.Valid() && ValidNames(cs)
    ensures i != null ==> fs.Known(i) && i in fs.heap.Values
    ensures i != null ==> i.id in fs.Tree().nodes && fs.Tree().nodes[i.id].isDir == i.isDir
    ensures (if i == null then None else Some(i.id)) == N.Walk(fs.Tree(), N.ROOT, cs)
  {
    SpellsComponents(Join(cs), cs);
    i := fs.Lookup(Join(cs), null);
    if i != null { fs.InTree(i); }
  }

  method NamesIn(fs: FileSystem, dir: Inode, list: seq<Inode>) returns (names: seq<string>)
    requires fs.Valid() && fs.Known(dir) && list == dir.entries
    ensures (forall e | e in Ids(list) :: e in fs.Tree().nodes) && names == NamesOf(fs.Tree(), Ids(list))
  {
    hide N.Valid, Ids, NamesOf, FileSystem.Closed;
    EntriesIn(fs, dir);
    names := [];
    var n := 0;
    NoNames(fs, list);
    while n < |list|
      invariant 0 <= n <= |list|
      invariant (forall e | e in Ids(list[..n]) :: e in fs.Tree().nodes) && names == NamesOf(fs.Tree(), Ids(list[..n]))
    {
      OneMoreName(fs, list, n);
      names := names + [list[n].name];
      n := n + 1;
    }
    assert list[..n] == list;
  }

  lemma EntriesIn(fs: FileSystem, dir: Inode)
    requires fs.Valid() && fs.Known(dir)
    ensures forall k | 0 <= k < |dir.entries| :: fs.Known(dir.entries[k])
  {
    assert fs.Closed(dir);
    assert forall k | 0 <= k < |dir.entries| :: dir.entries[k] in dir.entries;
  }

  lemma NoNames(fs: FileSystem, list: seq<Inode>)
    ensures Ids(list[..0]) == [] && NamesOf(fs.Tree(), Ids(list[..0])) == []
  {
  }

  lemma OneMoreName(fs: FileSystem, list: seq<Inode>, n: nat)
    requires fs.Valid() && n < |list| && fs.Known(list[n])
    requires forall e | e in Ids(list[..n]) :: e in fs.Tree().nodes
    ensures forall e | e in Ids(list[..n + 1]) :: e in fs.Tree().nodes
    ensures NamesOf(fs.Tree(), Ids(list[..n + 1])) == NamesOf(fs.Tree(), Ids(list[..n])) + [list[n].name]
  {
    hide N.Valid;
    var es := Ids(list[..n + 1]);
    fs.InTree(list[n]);
    assert es[..n] == Ids(list[..n]) && es[n] == list[n].id;
    assert forall e | e in es :: e in es[..n] || e == es[n];
  }
}
