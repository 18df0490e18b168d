/** include/LRU.h: a list of nodes and a map from each key to its node, both updated in place. */
module Lru {
  import opened Collections
  import opened LruSpec

  class Node<K, V> {
    const key: K
    var value: V

    constructor (k: K, v: V)
      ensures key == k && value == v
    {
      key := k;
      value := v;
    }
  }

  /** What std::list::splice leaves behind when it takes one node out. */
  function Minus<T(==)>(s: seq<T>, x: T): (r: seq<T>)
    ensures x !in r
    ensures forall y | y in r :: y in s
    ensures forall y | y in s && y != x :: y in r
  {
    if s == [] then [] else (if s[0] == x then [] else [s[0]]) + Minus(s[1..], x)
  }

  ghost function Items<K, V>(nodes: seq<Node<K, V>>): (r: seq<Entry<K, V>>)
    reads nodes
    ensures |r| == |nodes|
  {
    if nodes == [] then [] else [Entry(nodes[0].key, nodes[0].value)] + Items(nodes[1..])
  }

  /** Every node is the one its key maps to, so the keys of the list are distinct. */
  ghost predicate Indexed<K, V>(nodes: seq<Node<K, V>>, index: map<K, Node<K, V>>) {
    nodes == [] || (
      && nodes[0].key in index && index[nodes[0].key] == nodes[0]
      && nodes[0] !in nodes[1..]
      && Indexed(nodes[1..], index))
  }

  lemma {:induction false} ItemsFacts<K, V>(nodes: seq<Node<K, V>>, index: map<K, Node<K, V>>, k: K)
    requires Indexed(nodes, index)
    ensures Distinct(Items(nodes))
    ensures Find(Items(nodes), k) == if k in index && index[k] in nodes && index[k].key
        == k then Some(index[k].value) else None
  {
    if nodes != [] {
      var rest := nodes[1..];
      ItemsFacts(rest, index, k);
      ItemsFacts(rest, index, nodes[0].key);
      Cons(Entry(nodes[0].key, nodes[0].value), Items(rest));
    }
  }

  lemma {:induction false} MinusFacts<K, V>(nodes: seq<Node<K, V>>, index: map<K, Node<K, V>>, n: Node<K, V>)
    requires Indexed(nodes, index)
    requires n.key in index && index[n.key] == n
    ensures Indexed(Minus(nodes, n), index)
    ensures Items(Minus(nodes, n)) == Drop(Items(nodes), n.key)
  {
    if nodes != [] {
      var rest := nodes[1..];
      MinusFacts(rest, index, n);
      Cons(Entry(nodes[0].key, nodes[0].value), Items(rest));
      if nodes[0] == n {
        assert [] + Minus(rest, n) == Minus(rest, n);
      } else {
        Cons(nodes[0], Minus(rest, n));
        assert nodes[0].key != n.key;
      }
    }
  }

  lemma {:induction false} IndexedFrame<K, V>(nodes: seq<Node<K, V>>, index: map<K, Node<K, V>>, index': map<K,
                                        Node<K, V>>)
    requires Indexed(nodes, index)
    requires forall n | n in nodes && n.key in index :: n.key in index' && index'[n.key] == index[n.key]
    ensures Indexed(nodes, index')
  {
    if nodes != [] {
      assert nodes[0] in nodes && forall n | n in nodes[1..] :: n in nodes;
      IndexedFrame(nodes[1..], index, index');
    }
  }

  lemma {:induction false} DropLast<K, V>(nodes: seq<Node<K, V>>, index: map<K, Node<K, V>>)
    requires Indexed(nodes, index) && nodes != []
    ensures Indexed(nodes[..|nodes| - 1], index)
    ensures Items(nodes[..|nodes| - 1]) == Init(Items(nodes))
    ensures nodes[|nodes| - 1] !in nodes[..|nodes| - 1]
    ensures nodes[|nodes| - 1].key in index && index[nodes[|nodes| - 1].key] == nodes[|nodes| - 1]
  {
    Cons(Entry(nodes[0].key, nodes[0].value), Items(nodes[1..]));
    if |nodes| > 1 {
      var rest := nodes[1..];
      DropLast(rest, index);
      assert nodes[..|nodes| - 1] == [nodes[0]] + rest[..|rest| - 1];
      Cons(nodes[0], rest[..|rest| - 1]);
      assert nodes[|nodes| - 1] == rest[|rest| - 1] && rest[|rest| - 1] in rest;
    }
  }

  lemma {:induction false} IndexedNodes<K, V>(nodes: seq<Node<K, V>>, index: map<K, Node<K, V>>)
    requires Indexed(nodes, index)
    ensures forall n | n in nodes :: n.key in index && index[n.key] == n
  {
    if nodes != [] {
      IndexedNodes(nodes[1..], index);
    }
  }

  class LRUCache<K(==), V> {
    const capacity: int
    var cacheList: seq<Node<K, V>>
    var cacheMap: map<K, Node<K, V>>

    /** The map has exactly the keys of the list, and leads to the node that holds them. */
    ghost predicate Valid()
      reads this
    {
      && capacity >= 1 && |cacheList| <= capacity
      && Indexed(cacheList, cacheMap)
      && forall k | k in cacheMap :: cacheMap[k] in cacheList && cacheMap[k].key == k
    }

    ghost function Contents(): seq<Entry<K, V>>
      reads this, cacheList
    {
      Items(cacheList)
    }

    /** `set` reads the last node of an empty list when the capacity is 0, so the source needs at least 1. */
    constructor (c: int)
      requires c >= 1
      ensures Valid() && capacity == c && Contents() == [] && fresh(cacheList)
    {
      capacity := c;
      cacheList := [];
      cacheMap := map[];
    }

    /** NULL (None) for an absent key. */
    method Get(key: K) returns (r: Option<V>)
      requires Valid()
      modifies this`cacheList, this`cacheMap
      ensures Valid()
      ensures (Contents(), r) == LruSpec.Get(old(Contents()), key)
      ensures fresh(set n | n in cacheList && n !in old(cacheList))
    {
      ItemsFacts(cacheList, cacheMap, key);
      if key !in cacheMap { return None; }
      var n := cacheMap[key];
      r := Some(n.value);
      MoveToFront(n);
    }

    method MoveToFront(n: Node<K, V>)
      requires Valid() && n in cacheList
      modifies this`cacheList, this`cacheMap
      ensures Valid() && cacheList == [n] + Minus(old(cacheList), n) && cacheMap == old(cacheMap)
      ensures Contents() == [Entry(n.key, n.value)] + Drop(old(Contents()), n.key)
    {
      IndexedNodes(cacheList, cacheMap);
      MinusFacts(cacheList, cacheMap, n);
      ghost var rest := Minus(cacheList, n);
      MinusLength(cacheList, cacheMap, n);
      cacheList := [n] + Minus(cacheList, n);
      cacheMap := cacheMap[n.key := n];
      assert cacheMap == old(cacheMap);
      Cons(n, rest);
    }

    method EvictBack()
      requires Valid() && cacheList != []
      modifies this`cacheList, this`cacheMap
      ensures Valid() && cacheList == old(cacheList)[..|old(cacheList)| - 1]
      ensures Contents() == Init(old(Contents()))
      ensures forall k | k in cacheMap :: k in old(cacheMap)
    {
      DropLast(cacheList, cacheMap);
      var back := cacheList[|cacheList| - 1];
      var rest := cacheList[..|cacheList| - 1];
      IndexedNodes(rest, cacheMap);
      IndexedFrame(rest, cacheMap, cacheMap - {back.key});
      assert cacheList == rest + [back];
      cacheMap := cacheMap - {back.key};
      cacheList := rest;
    }

    method PushFront(key: K, value: V)
      requires Valid() && key !in cacheMap && |cacheList| < capacity
      modifies this`cacheList, this`cacheMap
      ensures Valid()
      ensures Contents() == [Entry(key, value)] + old(Contents())
      ensures |cacheList| == |old(cacheList)| + 1 && fresh(cacheList[0]) && cacheList[1..] == old(cacheList)
    {
      var n := new Node(key, value);
      ghost var rest := cacheList;
      IndexedNodes(rest, cacheMap);
      IndexedFrame(rest, cacheMap, cacheMap[key := n]);
      cacheList := [n] + cacheList;
      cacheMap := cacheMap[key := n];
      Cons(n, rest);
    }

    method Set(key: K, value: V)
      requires Valid()
      modifies this`cacheList, this`cacheMap, cacheList
      ensures Valid()
      ensures Contents() == LruSpec.Set(capacity, old(Contents()), key, value)
      ensures forall n | n in cacheList :: n in old(cacheList) || fresh(n)
    {
      hide Indexed, Items, Init;
      ItemsFacts(cacheList, cacheMap, key);
      if key !in cacheMap {
        DropFacts(Contents(), key, key);
        if |cacheList| == capacity {
          EvictBack();
        }
        PushFront(key, value);
      } else {
        var n := cacheMap[key];
        IndexedNodes(cacheList, cacheMap);
        MinusFacts(cacheList, cacheMap, n);
        ghost var rest := Minus(cacheList, n);
        ghost var before := Items(rest);
        n.value := value;
        MinusFacts(cacheList, cacheMap, n);
        assert Items(rest) == before;
        MoveToFront(n);
      }
    }
  }

  lemma {:induction false} MinusLength<K, V>(nodes: seq<Node<K, V>>, index: map<K, Node<K, V>>, n: Node<K, V>)
    requires Indexed(nodes, index) && n in nodes
    ensures |Minus(nodes, n)| == |nodes| - 1
  {
    if nodes[0] == n {
      MinusAbsent(nodes[1..], n);
    } else {
      MinusLength(nodes[1..], index, n);
    }
  }

  lemma {:induction false} MinusAbsent<T>(s: seq<T>, x: T)
    requires x !in s
    ensures Minus(s, x) == s
  {
    if s != [] {
      MinusAbsent(s[1..], x);
      assert s == [s[0]] + s[1..];
    }
  }
}
