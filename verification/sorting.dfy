/** The stable sort the application uses: `Array.prototype.sort` with a
    numeric comparator `(a, b) => key(a) - key(b)`, which JavaScript
    guarantees to be stable. A descending sort is the same sort on the
    negated key. The SQL `ORDER BY` of the listing query is modelled with the
    same function; SQL leaves the order of ties open, and the contracts
    below say nothing about ties. */
module Sorting {

  predicate SortedBy<T>(s: seq<T>, key: T -> int) {
    forall i, j :: 0 <= i < j < |s| ==> key(s[i]) <= key(s[j])
  }

  predicate SortedDescBy<T>(s: seq<T>, key: T -> int) {
    forall i, j :: 0 <= i < j < |s| ==> key(s[i]) >= key(s[j])
  }

  /** Prepending an element no larger than the head keeps a sorted
      sequence sorted. */
  lemma SortedCons<T>(a: T, t: seq<T>, key: T -> int)
    requires SortedBy(t, key)
    requires |t| == 0 || key(a) <= key(t[0])
    ensures SortedBy([a] + t, key)
  {
    var r := [a] + t;
    forall i, j | 0 <= i < j < |r| ensures key(r[i]) <= key(r[j]) {
      if i > 0 {
        assert r[i] == t[i - 1] && r[j] == t[j - 1];
      } else {
        assert r[j] == t[j - 1];
      }
    }
  }

  /** Inserts `x` before the first element whose key is not smaller, so
      elements with equal keys keep their order. */
  function InsertBy<T>(x: T, s: seq<T>, key: T -> int): (r: seq<T>)
    requires SortedBy(s, key)
    ensures multiset(r) == multiset(s) + multiset{x}
    ensures SortedBy(r, key)
    ensures |r| == |s| + 1
    ensures r[0] == x || (|s| > 0 && r[0] == s[0])
  {
    if |s| == 0 || key(x) <= key(s[0]) then
      SortedCons(x, s, key);
      [x] + s
    else
      var rest := InsertBy(x, s[1..], key);
      assert s == [s[0]] + s[1..];
      SortedCons(s[0], rest, key);
      [s[0]] + rest
  }

  /** Sorts `s` ascending by `key`. */
  function SortBy<T>(s: seq<T>, key: T -> int): (r: seq<T>)
    ensures multiset(r) == multiset(s)
    ensures SortedBy(r, key)
  {
    if |s| == 0 then []
    else
      assert s == [s[0]] + s[1..];
      InsertBy(s[0], SortBy(s[1..], key), key)
  }

  /** Sorts `s` descending by `key`: ascending by the negated key. */
  function SortDescBy<T>(s: seq<T>, key: T -> int): (r: seq<T>)
    ensures multiset(r) == multiset(s)
    ensures SortedDescBy(r, key)
  {
    var r := SortBy(s, x => -key(x));
    assert forall i, j :: 0 <= i < j < |r| ==> -key(r[i]) <= -key(r[j]);
    r
  }

  /** A permutation has the same length as the original. */
  lemma PermutationLength<T>(a: seq<T>, b: seq<T>)
    requires multiset(a) == multiset(b)
    ensures |a| == |b|
  {
    assert |multiset(a)| == |a| && |multiset(b)| == |b|;
  }
}
