/** What a client would get from the plain file system, with no servers, messages, caches or routes in between:
    the reference the distributed client is compared with. */
module PlainFs {
  import opened Collections
  import opened Paths
  import opened Namespace

  /** A client call on the canonical path of the components cs. */
  datatype Call =
    | Stat(cs: seq<string>)
    | MakeFile(cs: seq<string>)
    | MakeDir(cs: seq<string>)
    | ReadFile(cs: seq<string>)
    | WriteFile(cs: seq<string>, data: string)
    | ListDir(cs: seq<string>)
    | RemoveFile(cs: seq<string>)
    | RemoveDir(cs: seq<string>)

  datatype Answer =
    | Found(ino: Option<Ino>)
    | Done(ok: bool)
    | Content(ok: bool, data: string)
    | Names(ok: bool, names: seq<string>)

  /** Paths have valid components only, and the root is not created. */
  predicate WellFormed(call: Call) {
    ValidNames(call.cs) && ((call.MakeFile? || call.MakeDir?) ==> call.cs != [])
  }

  predicate Removal(call: Call) {
    call.RemoveFile? || call.RemoveDir?
  }

  predicate NoRemovals(calls: seq<Call>) {
    forall c | c in calls :: !Removal(c)
  }

  /** A call that leaves every client's cache right: its path is too deep to be read from a cache; or it removes
      nothing, and makes no second file of a name. */
  ghost predicate CacheSafe(capacity: int, t: Tree, call: Call)
    requires Valid(t)
  {
    |call.cs| >= capacity || match call
      case MakeFile(cs) => Walk(t, ROOT, cs) == None
      case RemoveFile(cs) => cs == [] || Walk(t, ROOT, cs) == None
      case RemoveDir(cs) => cs == [] || Walk(t, ROOT, cs) == None || !t.nodes[Walk(t, ROOT, cs).value].isDir
      case _ => true
  }

  function NamesOf(t: Tree, es: seq<Ino>): (names: seq<string>)
    requires forall e | e in es :: e in t.nodes
    ensures |names| == |es|
  {
    if es == [] then []
    else
      var init := es[..|es| - 1];
      assert forall e | e in init :: e in es;
      NamesOf(t, init) + [t.nodes[es[|es| - 1]].name]
  }

  function Plain(t: Tree, call: Call): (Answer, Tree)
    requires Valid(t) && WellFormed(call)
  {
    match call
    case Stat(cs) => (Found(Walk(t, ROOT, cs)), t)
    case MakeFile(cs) =>
      var d := Walk(t, ROOT, cs[..|cs| - 1]);
      if d == None then (Done(false), t)
      else
        var (i, u) := Mknod(t, d.value, cs[|cs| - 1]);
        (Done(i.Some?), u)
    case MakeDir(cs) =>
      var d := Walk(t, ROOT, cs[..|cs| - 1]);
      if d == None then (Done(false), t)
      else
        var (i, u) := Mkdir(t, d.value, cs[|cs| - 1]);
        (Done(i.Some?), u)
    case ReadFile(cs) =>
      var i := Walk(t, ROOT, cs);
      (if i == None then Content(false, "") else Content(true, t.nodes[i.value].content), t)
    case WriteFile(cs, data) =>
      var i := Walk(t, ROOT, cs);
      if i == None then (Done(false), t) else (Done(true), Write(t, i.value, data))
    case ListDir(cs) =>
      var i := Walk(t, ROOT, cs);
      if i == None || !t.nodes[i.value].isDir then (Names(false, []), t)
      else
        ChildrenLive(t, i.value);
        (Names(true, NamesOf(t, t.nodes[i.value].entries)), t)
    case RemoveFile(cs) =>
      var i := Walk(t, ROOT, cs);
      if i == None then (Done(false), t) else (Done(true), Remove(t, i.value))
    case RemoveDir(cs) =>
      var i := Walk(t, ROOT, cs);
      if i == None || !t.nodes[i.value].isDir then (Done(false), t) else (Done(true), Remove(t, i.value))
  }

  /** The same answer; a directory listing may come in another order. */
  predicate Agree(a: Answer, b: Answer) {
    if a.Names? && b.Names? then a.ok == b.ok && multiset(a.names) == multiset(b.names) else a == b
  }

  /** Every call leaves a proper tree, and only a removal takes anything out of it. */
  lemma PlainGrows(t: Tree, call: Call)
    requires Valid(t) && WellFormed(call)
    ensures Valid(Plain(t, call).1) && (Removal(call) || Grows(t, Plain(t, call).1))
  {
    hide Valid, Grows, NamesOf, Remove;
    NothingGrows(t);
    RootLive(t);
    match call
    case MakeFile(cs) =>
      var d := Walk(t, ROOT, cs[..|cs| - 1]);
      if d.Some? { AddSubGrows(t, d.value, cs[|cs| - 1], false); }
    case MakeDir(cs) =>
      var d := Walk(t, ROOT, cs[..|cs| - 1]);
      if d.Some? { AddSubGrows(t, d.value, cs[|cs| - 1], true); }
    case WriteFile(cs, data) =>
      var i := Walk(t, ROOT, cs);
      if i.Some? { WriteGrows(t, i.value, data); }
    case RemoveFile(cs) =>
      var i := Walk(t, ROOT, cs);
      if i.Some? { RemoveValid(t, i.value); }
    case RemoveDir(cs) =>
      var i := Walk(t, ROOT, cs);
      if i.Some? { RemoveValid(t, i.value); }
    case _ =>
  }

  lemma NothingGrows(t: Tree)
    ensures Grows(t, t)
  {
  }

  predicate AllWellFormed(calls: seq<Call>) {
    forall c | c in calls :: WellFormed(c)
  }

  /** Every call of a run is safe where it happens. */
  ghost predicate CacheSafeRun(capacity: int, t: Tree, calls: seq<Call>)
    requires Valid(t) && AllWellFormed(calls)
    decreases |calls|
  {
    calls == [] || (
      && CacheSafe(capacity, t, calls[0])
      && (HeadWellFormed(calls); PlainGrows(t, calls[0]); CacheSafeRun(capacity, Plain(t, calls[0]).1, calls[1..])))
  }

  lemma HeadWellFormed(calls: seq<Call>)
    requires AllWellFormed(calls) && calls != []
    ensures WellFormed(calls[0]) && AllWellFormed(calls[1..])
  {
    hide WellFormed;
    assert calls[0] in calls && forall c | c in calls[1..] :: c in calls;
  }

  ghost function PlainRun(t: Tree, calls: seq<Call>): (r: (seq<Answer>, Tree))
    requires Valid(t) && AllWellFormed(calls)
    ensures Valid(r.1) && |r.0| == |calls|
    decreases |calls|
  {
    if calls == [] then ([], t)
    else
      HeadWellFormed(calls);
      PlainGrows(t, calls[0]);
      var (a, u) := Plain(t, calls[0]);
      var (rest, v) := PlainRun(u, calls[1..]);
      ([a] + rest, v)
  }

  predicate AgreeAll(a: seq<Answer>, b: seq<Answer>) {
    |a| == |b| && forall k | 0 <= k < |a| :: Agree(a[k], b[k])
  }

  /** A run is its first call followed by the run of the rest on the tree that call leaves. */
  lemma PlainRunUnfolds(t: Tree, calls: seq<Call>)
    requires Valid(t) && AllWellFormed(calls) && calls != []
    ensures WellFormed(calls[0]) && AllWellFormed(calls[1..])
    ensures var (a, u) := Plain(t, calls[0]);
      && Valid(u)
      && PlainRun(t, calls) == ([a] + PlainRun(u, calls[1..]).0, PlainRun(u, calls[1..]).1)
  {
    hide Valid, Plain, Grows, WellFormed, AllWellFormed, CacheSafe;
    HeadWellFormed(calls);
    PlainGrows(t, calls[0]);
  }

  lemma SafeRunUnfolds(capacity: int, t: Tree, calls: seq<Call>)
    requires Valid(t) && AllWellFormed(calls) && calls != [] && CacheSafeRun(capacity, t, calls)
    ensures WellFormed(calls[0]) && AllWellFormed(calls[1..])
    ensures var u := Plain(t, calls[0]).1;
      Valid(u) && CacheSafe(capacity, t, calls[0]) && CacheSafeRun(capacity, u, calls[1..])
  {
    hide Valid, Plain, Grows, WellFormed, AllWellFormed, CacheSafe;
    HeadWellFormed(calls);
    PlainGrows(t, calls[0]);
  }

  lemma AgreeCons(a: Answer, b: Answer, as': seq<Answer>, bs: seq<Answer>)
    requires Agree(a, b) && AgreeAll(as', bs)
    ensures AgreeAll([a] + as', [b] + bs)
  {
    hide Agree;
  }
}
