/**
 * What an SQL `ORDER BY` on one numeric column promises: the rows come back
 * ordered by that column and are exactly the rows selected. The order of rows
 * with equal keys is not promised.
 */
module Sorting {

  ghost predicate SortedBy<T>(s: seq<T>, key: T -> int) {
    forall i, j :: 0 <= i < j < |s| ==> key(s[i]) <= key(s[j])
  }

  ghost predicate AllAtLeast<T>(s: seq<T>, key: T -> int, bound: int) {
    forall k :: 0 <= k < |s| ==> bound <= key(s[k])
  }

  /** Every element of a permutation of `s + [x]` is in `s` or is `x`, so a
      bound on their keys carries over. */
  lemma BoundOfPermutation<T>(r: seq<T>, s: seq<T>, x: T, key: T -> int, bound: int)
    requires multiset(r) == multiset(s) + multiset{x}
    requires AllAtLeast(s, key, bound) && bound <= key(x)
    ensures AllAtLeast(r, key, bound)
  {
    forall k | 0 <= k < |r| ensures bound <= key(r[k]) {
      assert r[k] in multiset(r);
      if r[k] != x {
        assert r[k] in multiset(s);
        var m :| 0 <= m < |s| && s[m] == r[k];
      }
    }
  }

  /** Inserts `x` before the first element whose key is not smaller. */
  function Insert<T>(x: T, s: seq<T>, key: T -> int): (r: seq<T>)
    requires SortedBy(s, key)
    ensures SortedBy(r, key)
    ensures multiset(r) == multiset(s) + multiset{x}
    decreases |s|
  {
    if s == [] then [x]
    else if key(x) <= key(s[0]) then [x] + s
    else
      var rest := Insert(x, s[1..], key);
      assert s == [s[0]] + s[1..];
      BoundOfPermutation(rest, s[1..], x, key, key(s[0]));
      [s[0]] + rest
  }

  /** The rows of `s` ordered by ascending `key`. */
  function SortBy<T>(s: seq<T>, key: T -> int): (r: seq<T>)
    ensures SortedBy(r, key)
    ensures multiset(r) == multiset(s)
    decreases |s|
  {
    if s == [] then []
    else
      assert s == [s[0]] + s[1..];
      Insert(s[0], SortBy(s[1..], key), key)
  }
}
