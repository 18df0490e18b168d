/** Small facts about options, finite sets of integers and sequences that the rest of the model uses. */
module Collections {

  datatype Option<+T> = None | Some(value: T)

  /** The least element of a non-empty set: the first key a `std::map` iterator yields. */
  function Min(s: set<int>): (m: int)
    requires s != {}
    ensures m in s && forall x | x in s :: m <= x
  {
    MinExists(s);
    var m :| m in s && forall x | x in s :: m <= x;
    m
  }

  lemma Pick<T>(s: set<T>) returns (x: T)
    requires s != {}
    ensures x in s
  {
    x :| x in s;
  }

  lemma {:induction false} MinExists(s: set<int>)
    requires s != {}
    ensures exists m :: m in s && forall x | x in s :: m <= x
  {
    var x := Pick(s);
    var rest := s - {x};
    assert forall y | y in s :: y == x || y in rest;
    if rest == {} {
      assert x in s && forall y | y in s :: x <= y;
    } else {
      MinExists(rest);
      var m :| m in rest && forall y | y in rest :: m <= y;
      var k := if x < m then x else m;
      assert k in s && forall y | y in s :: k <= y;
    }
  }

  /** The keys of a `std::map`, in iteration order. */
  function SortedKeys(s: set<int>): (ks: seq<int>)
    ensures |ks| == |s|
    ensures forall i | 0 <= i < |ks| :: ks[i] in s
    ensures forall x | x in s :: x in ks
    ensures Ascending(ks)
  {
    if s == {} then []
    else
      var m := Min(s);
      var rest := SortedKeys(s - {m});
      assert forall x | x in rest :: x in s && m < x;
      [m] + rest
  }

  predicate Ascending(ks: seq<int>)
  {
    forall i, j | 0 <= i < j < |ks| :: ks[i] < ks[j]
  }

  function Interval(lo: int, n: nat): (s: set<int>)
    ensures forall x :: x in s <==> lo <= x < lo + n
  {
    if n == 0 then {} else Interval(lo, n - 1) + {lo + n - 1}
  }

  lemma {:induction false} IntervalSize(lo: int, n: nat)
    ensures |Interval(lo, n)| == n
  {
    if n > 0 {
      IntervalSize(lo, n - 1);
    }
  }

  lemma {:induction false} SubsetSize<T>(a: set<T>, b: set<T>)
    requires a <= b
    ensures |a| <= |b|
    ensures |a| == |b| ==> a == b
  {
    if a != {} {
      var x :| x in a;
      SubsetSize(a - {x}, b - {x});
    }
  }

  /** Pigeonhole: |s| keys cannot fill |s| + 1 consecutive places. */
  lemma FreePlace(s: set<int>, lo: int)
    ensures exists i :: lo <= i <= lo + |s| && i !in s
  {
    if forall i | lo <= i <= lo + |s| :: i in s {
      IntervalSize(lo, |s| + 1);
      SubsetSize(Interval(lo, |s| + 1), s);
    }
  }
}
