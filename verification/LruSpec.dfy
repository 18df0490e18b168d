/** The client cache of include/LRU.h as a value: its recency list, most recent first. */
module LruSpec {
  import opened Collections

  datatype Entry<K, V> = Entry(key: K, value: V)

  function Find<K(==), V>(items: seq<Entry<K, V>>, k: K): Option<V> {
    if items == [] then None
    else if items[0].key == k then Some(items[0].value)
    else Find(items[1..], k)
  }

  /** The list without the entries of key k. */
  function Drop<K(==), V>(items: seq<Entry<K, V>>, k: K): seq<Entry<K, V>> {
    if items == [] then []
    else if items[0].key == k then Drop(items[1..], k)
    else [items[0]] + Drop(items[1..], k)
  }

  /** The list without its last entry. */
  function Init<K, V>(items: seq<Entry<K, V>>): (r: seq<Entry<K, V>>)
    requires items != []
    ensures r == items[..|items| - 1]
  {
    if |items| == 1 then [] else [items[0]] + Init(items[1..])
  }

  /** A hit moves its entry to the front. */
  function Get<K(==), V>(items: seq<Entry<K, V>>, k: K): (seq<Entry<K, V>>, Option<V>) {
    var r := Find(items, k);
    if r.Some? then ([Entry(k, r.value)] + Drop(items, k), r) else (items, None)
  }

  /** The key moves to the front; a new key evicts the last entry of a full list. */
  function Set<K(==), V>(capacity: int, items: seq<Entry<K, V>>, k: K, v: V): seq<Entry<K, V>>
    requires capacity >= 1
  {
    if Find(items, k) == None && |items| == capacity then [Entry(k, v)] + Init(items)
    else [Entry(k, v)] + Drop(items, k)
  }

  predicate Distinct<K(==), V>(items: seq<Entry<K, V>>) {
    items == [] || (Find(items[1..], items[0].key) == None && Distinct(items[1..]))
  }

  /** What both operations keep. */
  predicate Fits<K(==), V>(capacity: int, items: seq<Entry<K, V>>) {
    Distinct(items) && |items| <= capacity
  }

  lemma {:induction false} DropFacts<K, V>(items: seq<Entry<K, V>>, k: K, j: K)
    requires Distinct(items)
    ensures Distinct(Drop(items, k))
    ensures Find(Drop(items, k), j) == if j == k then None else Find(items, j)
    ensures |Drop(items, k)| == if Find(items, k).Some? then |items| - 1 else |items|
    ensures Find(items, k) == None ==> Drop(items, k) == items
  {
    if items != [] {
      DropFacts(items[1..], k, j);
      DropFacts(items[1..], k, items[0].key);
      Cons(items[0], Drop(items[1..], k));
    }
  }

  lemma Cons<T>(e: T, r: seq<T>)
    ensures ([e] + r)[0] == e && ([e] + r)[1..] == r
  {
  }

  lemma {:induction false} InitFacts<K, V>(items: seq<Entry<K, V>>, j: K)
    requires Distinct(items) && items != []
    ensures Distinct(Init(items))
    ensures Find(Init(items), j) == if j == items[|items| - 1].key then None else Find(items, j)
    ensures Find(items, items[|items| - 1].key).Some?
  {
    if |items| > 1 {
      var rest := items[1..];
      assert rest[|rest| - 1] == items[|items| - 1];
      InitFacts(rest, j);
      InitFacts(rest, items[0].key);
      Cons(items[0], Init(rest));
    }
  }

  lemma GetFacts<K, V>(capacity: int, items: seq<Entry<K, V>>, k: K, j: K)
    requires Fits(capacity, items)
    ensures Fits(capacity, Get(items, k).0) && |Get(items, k).0| == |items|
    ensures Find(Get(items, k).0, j) == Find(items, j)
  {
    var r := Find(items, k);
    if r.Some? {
      DropFacts(items, k, j);
      DropFacts(items, k, k);
      Cons(Entry(k, r.value), Drop(items, k));
    }
  }

  lemma SetFacts<K, V>(capacity: int, items: seq<Entry<K, V>>, k: K, v: V, j: K)
    requires capacity >= 1 && Fits(capacity, items)
    ensures Fits(capacity, Set(capacity, items, k, v))
    ensures var r := Find(Set(capacity, items, k, v), j);
            if j == k then r == Some(v) else r == None || r == Find(items, j)
  {
    if Find(items, k) == None && |items| == capacity {
      InitFacts(items, j);
      InitFacts(items, k);
      Cons(Entry(k, v), Init(items));
    } else {
      DropFacts(items, k, j);
      DropFacts(items, k, k);
      Cons(Entry(k, v), Drop(items, k));
    }
  }

  /* ---------- Runs ---------- */

  datatype Access<K, V> = Read(key: K) | Put(key: K, value: V)

  function Apply<K(==), V>(capacity: int, items: seq<Entry<K, V>>, a: Access<K, V>): seq<Entry<K, V>>
    requires capacity >= 1
  {
    match a
    case Read(k) => Get(items, k).0
    case Put(k, v) => Set(capacity, items, k, v)
  }

  /** The list after a history; the latest access comes last. */
  function Run<K(==), V>(capacity: int, history: seq<Access<K, V>>): seq<Entry<K, V>>
    requires capacity >= 1
  {
    if history == [] then []
    else Apply(capacity, Run(capacity, history[..|history| - 1]), history[|history| - 1])
  }

  lemma {:induction false} RunFits<K, V>(capacity: int, history: seq<Access<K, V>>)
    requires capacity >= 1
    ensures Fits(capacity, Run(capacity, history))
  {
    if history != [] {
      var init, a := history[..|history| - 1], history[|history| - 1];
      RunFits(capacity, init);
      match a
      case Read(k) => GetFacts(capacity, Run(capacity, init), k, k);
      case Put(k, v) => SetFacts(capacity, Run(capacity, init), k, v, k);
    }
  }

  /** The value most recently put under k. */
  function LastPut<K(==), V>(history: seq<Access<K, V>>, k: K): Option<V> {
    if history == [] then None
    else
      var a := history[|history| - 1];
      if a.Put? && a.key == k then Some(a.value) else LastPut(history[..|history| - 1], k)
  }

  /** A read is a miss or returns the value last put under its key. */
  lemma {:induction false} HitsAreCurrent<K, V>(capacity: int, history: seq<Access<K, V>>, k: K)
    requires capacity >= 1
    ensures var r := Find(Run(capacity, history), k); r == None || r == LastPut(history, k)
  {
    if history != [] {
      var init, a := history[..|history| - 1], history[|history| - 1];
      RunFits(capacity, init);
      HitsAreCurrent(capacity, init, k);
      match a
      case Read(j) => GetFacts(capacity, Run(capacity, init), j, k);
      case Put(j, v) => SetFacts(capacity, Run(capacity, init), j, v, k);
    }
  }

  /* ---------- A larger cache hits whenever a smaller one does ---------- */

  ghost predicate Subsequence<T>(a: seq<T>, b: seq<T>) {
    if a == [] then true
    else if b == [] then false
    else if a[0] == b[0] then Subsequence(a[1..], b[1..])
    else Subsequence(a, b[1..])
  }

  lemma {:induction false} SubsequenceLength<T>(a: seq<T>, b: seq<T>)
    requires Subsequence(a, b)
    ensures |a| <= |b| && (|a| == |b| ==> a == b)
    decreases |b|
  {
    if a != [] && a[0] == b[0] {
      SubsequenceLength(a[1..], b[1..]);
      assert a == [a[0]] + a[1..] && b == [b[0]] + b[1..];
    } else if a != [] {
      SubsequenceLength(a, b[1..]);
    }
  }

  lemma {:induction false} SubsequenceWider<T>(a: seq<T>, e: T, b: seq<T>)
    requires Subsequence(a, b)
    ensures Subsequence(a, [e] + b)
    decreases |b|, 1
  {
    Cons(e, b);
    if a != [] && a[0] == e {
      if a[0] == b[0] {
        SubsequenceWider(a[1..], b[0], b[1..]);
        assert b == [b[0]] + b[1..];
      } else {
        SubsequenceTail(a, b);
      }
    }
  }

  lemma {:induction false} SubsequenceTail<T>(a: seq<T>, b: seq<T>)
    requires Subsequence(a, b) && a != []
    ensures Subsequence(a[1..], b)
    decreases |b|, 0
  {
    assert b == [b[0]] + b[1..];
    if a[0] == b[0] {
      SubsequenceWider(a[1..], b[0], b[1..]);
    } else {
      SubsequenceTail(a, b[1..]);
      SubsequenceWider(a[1..], b[0], b[1..]);
    }
  }

  lemma {:induction false} SubsequenceDrop<K, V>(a: seq<Entry<K, V>>, b: seq<Entry<K, V>>, k: K)
    requires Subsequence(a, b)
    ensures Subsequence(Drop(a, k), Drop(b, k))
    decreases |b|
  {
    if a != [] {
      var rest := Drop(b[1..], k);
      if a[0] == b[0] {
        SubsequenceDrop(a[1..], b[1..], k);
        Cons(a[0], Drop(a[1..], k));
        Cons(b[0], rest);
      } else {
        SubsequenceDrop(a, b[1..], k);
        SubsequenceWider(Drop(a, k), b[0], rest);
      }
    }
  }

  lemma {:induction false} SubsequenceInit<K, V>(a: seq<Entry<K, V>>, b: seq<Entry<K, V>>)
    requires Subsequence(a, b) && a != []
    ensures Subsequence(Init(a), Init(b)) && Subsequence(Init(a), b)
    decreases |b|
  {
    assert b == [b[0]] + b[1..];
    if a[0] == b[0] {
      if |a| > 1 {
        SubsequenceInit(a[1..], b[1..]);
        Cons(a[0], Init(a[1..]));
        Cons(b[0], Init(b[1..]));
      }
    } else {
      SubsequenceInit(a, b[1..]);
      SubsequenceWider(Init(a), b[0], Init(b[1..]));
      SubsequenceWider(Init(a), b[0], b[1..]);
    }
  }

  lemma {:induction false} SubsequenceFind<K, V>(a: seq<Entry<K, V>>, b: seq<Entry<K, V>>, k: K)
    requires Subsequence(a, b) && Distinct(a) && Distinct(b)
    ensures Find(a, k) == None || Find(a, k) == Find(b, k)
    decreases |b|
  {
    if a != [] {
      if a[0] == b[0] {
        SubsequenceFind(a[1..], b[1..], k);
      } else {
        SubsequenceFind(a, b[1..], k);
      }
    }
  }

  /** How a cache of capacity m relates to one of capacity n >= m after the same accesses. */
  ghost predicate Simulates<K(!new), V>(m: int, n: int, small: seq<Entry<K, V>>, large: seq<Entry<K, V>>) {
    && Fits(m, small) && Fits(n, large)
    && Subsequence(small, large)
    && |small| == (if |large| < m then |large| else m)
  }

  lemma ApplySimulates<K(!new), V>(m: int, n: int, small: seq<Entry<K, V>>, large: seq<Entry<K, V>>, a: Access<K, V>)
    requires 1 <= m <= n && Simulates(m, n, small, large)
    ensures Simulates(m, n, Apply(m, small, a), Apply(n, large, a))
  {
    var k := a.key;
    SubsequenceFind(small, large, k);
    SubsequenceDrop(small, large, k);
    SubsequenceLength(small, large);
    DropFacts(small, k, k);
    DropFacts(large, k, k);
    match a
    case Read(_) =>
      GetFacts(m, small, k, k);
      GetFacts(n, large, k, k);
      if Find(large, k).Some? {
        Cons(Entry(k, Find(large, k).value), Drop(large, k));
        if Find(small, k).Some? {
          Cons(Entry(k, Find(small, k).value), Drop(small, k));
        } else {
          SubsequenceWider(small, Entry(k, Find(large, k).value), Drop(large, k));
        }
      }
    case Put(_, v) =>
      SetFacts(m, small, k, v, k);
      SetFacts(n, large, k, v, k);
      Cons(Entry(k, v), Drop(small, k));
      Cons(Entry(k, v), Drop(large, k));
      if Find(small, k) == None && |small| == m {
        Cons(Entry(k, v), Init(small));
        if Find(large, k) == None && |large| == n {
          SubsequenceInit(small, large);
          Cons(Entry(k, v), Init(large));
        } else {
          SubsequenceInit(small, Drop(large, k));
        }
      }
  }

  /** Run on the same accesses, the smaller cache's list is always a subsequence of the larger one's, with equal
      values: every hit in the smaller cache is the same hit in the larger one. */
  lemma {:induction false} CapacitySimulation<K(!new), V>(m: int, n: int, history: seq<Access<K, V>>, k: K)
    requires 1 <= m <= n
    ensures Simulates(m, n, Run(m, history), Run(n, history))
    ensures Find(Run(m, history), k) == None || Find(Run(m, history), k) == Find(Run(n, history), k)
  {
    if history != [] {
      var init := history[..|history| - 1];
      CapacitySimulation(m, n, init, k);
      ApplySimulates(m, n, Run(m, init), Run(n, init), history[|history| - 1]);
    }
    SubsequenceFind(Run(m, history), Run(n, history), k);
  }

  /* ---------- Retention ---------- */

  /** The keys more recent than k. */
  function Newer<K(==), V>(items: seq<Entry<K, V>>, k: K): set<K> {
    if items == [] || items[0].key == k then {} else {items[0].key} + Newer(items[1..], k)
  }

  function Keys<K(==), V>(accesses: seq<Access<K, V>>): set<K> {
    if accesses == [] then {} else Keys(accesses[..|accesses| - 1]) + {accesses[|accesses| - 1].key}
  }

  lemma {:induction false} NewerFacts<K, V>(items: seq<Entry<K, V>>, k: K, j: K)
    requires Distinct(items) && Find(items, k).Some?
    ensures k !in Newer(items, k) && |Newer(items, k)| < |items|
    ensures j in Newer(items, k) ==> Find(items, j).Some?
    ensures items[|items| - 1].key == k ==> |Newer(items, k)| == |items| - 1
    ensures j != k ==> Newer(Drop(items, j), k) <= Newer(items, k)
    ensures Newer(Init(items), k) <= Newer(items, k)
  {
    if items[0].key != k {
      var rest := items[1..];
      NewerFacts(rest, k, j);
      NewerFacts(rest, k, items[0].key);
      assert rest[|rest| - 1] == items[|items| - 1];
      Cons(items[0], Drop(rest, j));
      Cons(items[0], Init(rest));
    } else if |items| > 1 {
      assert items[1..][|items| - 2] == items[|items| - 1];
      InitFacts(items[1..], k);
      Cons(items[0], Init(items[1..]));
      Cons(items[0], Drop(items[1..], j));
    }
  }

  lemma {:induction false} NewerKept<K, V>(items: seq<Entry<K, V>>, k: K, j: K)
    requires Distinct(items) && Find(items, k).Some?
    ensures j != k ==> Newer(items, k) - {j} <= Newer(Drop(items, j), k)
    ensures items[|items| - 1].key != k ==> Newer(items, k) <= Newer(Init(items), k)
  {
    if items[0].key != k {
      var rest := items[1..];
      NewerKept(rest, k, j);
      assert rest[|rest| - 1] == items[|items| - 1];
      Cons(items[0], Drop(rest, j));
      Cons(items[0], Init(rest));
    }
  }

  /** An access makes its own key newer than every other that is still there, and none older. */
  lemma TouchNewer<K, V>(capacity: int, items: seq<Entry<K, V>>, a: Access<K, V>, k: K)
    requires capacity >= 1 && Fits(capacity, items) && (a.Read? ==> Find(items, a.key).Some?)
    requires k != a.key && Find(Apply(capacity, items, a), k).Some?
    ensures Find(items, k).Some? && Newer(items, k) + {a.key} <= Newer(Apply(capacity, items, a), k)
  {
    var j := a.key;
    DropFacts(items, j, k);
    match a
    case Read(_) =>
      GetFacts(capacity, items, j, k);
      Cons(Entry(j, Find(items, j).value), Drop(items, j));
      NewerKept(items, k, j);
    case Put(_, v) =>
      SetFacts(capacity, items, j, v, k);
      Cons(Entry(j, v), Drop(items, j));
      NewerKept(items, k, j);
      if Find(items, j) == None && |items| == capacity {
        InitFacts(items, k);
        Cons(Entry(j, v), Init(items));
      }
  }

  lemma MissIs<K, V>(items: seq<Entry<K, V>>, k: K)
    ensures Find(items, k) == None ==> Get(items, k).0 == items
  {
  }

  lemma HitIs<K, V>(items: seq<Entry<K, V>>, k: K)
    ensures Get(items, k).1 == Find(items, k)
  {
  }

  /** One access keeps k, and makes nothing but its own key newer than k, unless capacity other keys are newer by
      then. */
  lemma ApplyRetains<K, V>(capacity: int, items: seq<Entry<K, V>>, a: Access<K, V>, k: K, others: set<K>)
    requires capacity >= 1 && Fits(capacity, items) && Find(items, k).Some?
    requires Newer(items, k) <= others && (a.key == k || a.key in others) && k !in others && |others| < capacity
    ensures Find(Apply(capacity, items, a), k).Some?
    ensures Newer(Apply(capacity, items, a), k) <= others
  {
    var j := a.key;
    NewerFacts(items, k, j);
    DropFacts(items, j, k);
    InitFacts(items, k);
    match a
    case Read(_) =>
      GetFacts(capacity, items, j, k);
      if Find(items, j).Some? {
        Cons(Entry(j, Find(items, j).value), Drop(items, j));
      }
    case Put(_, v) =>
      SetFacts(capacity, items, j, v, k);
      Cons(Entry(j, v), Drop(items, j));
      Cons(Entry(j, v), Init(items));
      if j != k && Find(items, j) == None && |items| == capacity {
        SubsetSize(Newer(items, k) + {j}, others);
      }
  }

  /** A key that was just read or put is still cached while fewer than `capacity` distinct other keys have been used
      since. */
  lemma {:induction false} Retention<K, V>(capacity: int, history: seq<Access<K, V>>, k: K, later: seq<Access<K, V>>)
    requires capacity >= 1
    requires Find(Run(capacity, history), k).Some? && history != [] && history[|history| - 1].key == k
    requires |Keys(later) - {k}| < capacity
    ensures Find(Run(capacity, history + later), k).Some?
    ensures Newer(Run(capacity, history + later), k) <= Keys(later) - {k}
  {
    if later == [] {
      assert history + later == history;
      JustUsed(capacity, history, k);
    } else {
      var init, a := later[..|later| - 1], later[|later| - 1];
      SubsetSize(Keys(init) - {k}, Keys(later) - {k});
      Retention(capacity, history, k, init);
      var all := history + later;
      assert all[..|all| - 1] == history + init && all[|all| - 1] == a;
      RunFits(capacity, history + init);
      ApplyRetains(capacity, Run(capacity, history + init), a, k, Keys(later) - {k});
    }
  }

  lemma JustUsed<K, V>(capacity: int, history: seq<Access<K, V>>, k: K)
    requires capacity >= 1 && history != [] && history[|history| - 1].key == k
    requires Find(Run(capacity, history), k).Some?
    ensures Newer(Run(capacity, history), k) == {}
  {
    var items := Run(capacity, history[..|history| - 1]);
    RunFits(capacity, history[..|history| - 1]);
    GetFacts(capacity, items, k, k);
  }
}
