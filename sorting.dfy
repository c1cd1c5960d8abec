/** Ordering of rows by a key: the stable insertion sort that serves both as
    the meaning of SQL `ORDER BY` on a table's rows and as the meaning of
    `Array.prototype.sort` with a key-difference comparator. */
module Sorting {

  /** A sort key. Low sorts before every number: MySQL puts NULL first in
      ascending order. */
  datatype SortKey = Low | Num(n: int)

  /** a sorts no later than b. */
  predicate KeyLe(a: SortKey, b: SortKey) {
    a.Low? || (b.Num? && a.n <= b.n)
  }

  /** Every element's key is no greater than the keys after it. */
  predicate SortedBy<T>(s: seq<T>, key: T -> SortKey) {
    forall i, j :: 0 <= i < j < |s| ==> KeyLe(key(s[i]), key(s[j]))
  }

  /** One step of insertion sort: x goes after every element whose key is not
      greater than its own, so equal keys keep their order. */
  function InsertBy<T>(s: seq<T>, x: T, key: T -> SortKey): (r: seq<T>)
    ensures |r| == |s| + 1
    decreases |s|
  {
    if s == [] || KeyLe(key(s[|s| - 1]), key(x)) then s + [x]
    else
      assert s == s[..|s| - 1] + [s[|s| - 1]];
      InsertBy(s[..|s| - 1], x, key) + [s[|s| - 1]]
  }

  /** Stable insertion sort of s by key. */
  function SortBy<T>(s: seq<T>, key: T -> SortKey): (r: seq<T>)
    ensures |r| == |s|
    decreases |s|
  {
    if s == [] then []
    else
      assert s == s[..|s| - 1] + [s[|s| - 1]];
      InsertBy(SortBy(s[..|s| - 1], key), s[|s| - 1], key)
  }

  /** The elements of s whose key is k, in their order in s. */
  function WithKey<T>(s: seq<T>, key: T -> SortKey, k: SortKey): seq<T>
    decreases |s|
  {
    if s == [] then []
    else WithKey(s[..|s| - 1], key, k) + (if key(s[|s| - 1]) == k then [s[|s| - 1]] else [])
  }

  /** Inserting adds exactly x. */
  lemma {:induction false} InsertByPerm<T>(s: seq<T>, x: T, key: T -> SortKey)
    ensures multiset(InsertBy(s, x, key)) == multiset(s) + multiset{x}
    decreases |s|
  {
    if s != [] && !KeyLe(key(s[|s| - 1]), key(x)) {
      var init, last := s[..|s| - 1], s[|s| - 1];
      InsertByPerm(init, x, key);
      assert s == init + [last];
      assert InsertBy(s, x, key) == InsertBy(init, x, key) + [last];
    }
  }

  /** SortBy permutes its input. */
  lemma {:induction false} SortByPerm<T>(s: seq<T>, key: T -> SortKey)
    ensures multiset(SortBy(s, key)) == multiset(s)
    decreases |s|
  {
    if s != [] {
      var init, last := s[..|s| - 1], s[|s| - 1];
      SortByPerm(init, key);
      InsertByPerm(SortBy(init, key), last, key);
      assert s == init + [last];
    }
  }

  lemma {:induction false} InsertBySorted<T>(s: seq<T>, x: T, key: T -> SortKey)
    requires SortedBy(s, key)
    ensures SortedBy(InsertBy(s, x, key), key)
    decreases |s|
  {
    if s == [] || KeyLe(key(s[|s| - 1]), key(x)) {
    } else {
      var init, last := s[..|s| - 1], s[|s| - 1];
      var r' := InsertBy(init, x, key);
      InsertBySorted(init, x, key);
      InsertByPerm(init, x, key);
      forall i | 0 <= i < |r'|
        ensures KeyLe(key(r'[i]), key(last))
      {
        assert r'[i] in multiset(r');
        if r'[i] != x {
          assert r'[i] in multiset(init);
          var j :| 0 <= j < |init| && init[j] == r'[i];
          assert s[j] == init[j];
        }
      }
      assert InsertBy(s, x, key) == r' + [last];
    }
  }

  /** SortBy yields a sorted sequence. */
  lemma {:induction false} SortBySorted<T>(s: seq<T>, key: T -> SortKey)
    ensures SortedBy(SortBy(s, key), key)
    decreases |s|
  {
    if s != [] {
      SortBySorted(s[..|s| - 1], key);
      InsertBySorted(SortBy(s[..|s| - 1], key), s[|s| - 1], key);
    }
  }

  lemma {:induction false} WithKeyAppend<T>(s: seq<T>, x: T, key: T -> SortKey, k: SortKey)
    ensures WithKey(s + [x], key, k) == WithKey(s, key, k) + (if key(x) == k then [x] else [])
  {
    assert (s + [x])[..|s + [x]| - 1] == s;
  }

  lemma {:induction false} WithKeyInsert<T>(s: seq<T>, x: T, key: T -> SortKey, k: SortKey)
    ensures WithKey(InsertBy(s, x, key), key, k)
         == WithKey(s, key, k) + (if key(x) == k then [x] else [])
    decreases |s|
  {
    if s == [] || KeyLe(key(s[|s| - 1]), key(x)) {
      WithKeyAppend(s, x, key, k);
    } else {
      var init, last := s[..|s| - 1], s[|s| - 1];
      assert s == init + [last];
      assert InsertBy(s, x, key) == InsertBy(init, x, key) + [last];
      WithKeyInsert(init, x, key, k);
      WithKeyAppend(InsertBy(init, x, key), last, key, k);
      WithKeyAppend(init, last, key, k);
      // last sorts strictly after x, so at most one of the two joins the class k
      assert key(last) != key(x);
      var w := WithKey(init, key, k);
      if key(x) == k {
        assert WithKey(InsertBy(s, x, key), key, k) == w + [x];
        assert WithKey(s, key, k) == w;
      } else if key(last) == k {
        assert WithKey(InsertBy(s, x, key), key, k) == w + [last];
        assert WithKey(s, key, k) == w + [last];
      } else {
        assert WithKey(InsertBy(s, x, key), key, k) == w;
      }
    }
  }

  /** SortBy is stable: the elements sharing any one key keep their order. */
  lemma {:induction false} SortByStable<T>(s: seq<T>, key: T -> SortKey, k: SortKey)
    ensures WithKey(SortBy(s, key), key, k) == WithKey(s, key, k)
    decreases |s|
  {
    if s != [] {
      var init, last := s[..|s| - 1], s[|s| - 1];
      SortByStable(init, key, k);
      WithKeyInsert(SortBy(init, key), last, key, k);
    }
  }

  /** Sorting one more element of s is inserting it into the sorted prefix. */
  lemma SortByStep<T>(s: seq<T>, i: int, key: T -> SortKey)
    requires 0 <= i < |s|
    ensures SortBy(s[..i + 1], key) == InsertBy(SortBy(s[..i], key), s[i], key)
  {
    assert s[..i + 1][..i] == s[..i];
  }

  /** x lands at position j when the element before j sorts no later than x
      and every element from j on sorts strictly later. */
  lemma {:induction false} InsertByAt<T>(s: seq<T>, j: int, x: T, key: T -> SortKey)
    requires 0 <= j <= |s|
    requires j == 0 || KeyLe(key(s[j - 1]), key(x))
    requires forall k :: j <= k < |s| ==> !KeyLe(key(s[k]), key(x))
    ensures InsertBy(s, x, key) == s[..j] + [x] + s[j..]
    decreases |s|
  {
    if j == |s| {
      assert s[..j] == s;
    } else {
      var init, last := s[..|s| - 1], s[|s| - 1];
      InsertByAt(init, j, x, key);
      InsertByLast(init, last, j, x, key);
      assert s == init + [last];
      assert s[..j] == init[..j] && s[j..] == init[j..] + [last];
    }
  }

  /** The step of InsertByAt: a last element sorting after x stays last. */
  lemma InsertByLast<T>(init: seq<T>, last: T, j: int, x: T, key: T -> SortKey)
    requires 0 <= j <= |init| && !KeyLe(key(last), key(x))
    requires InsertBy(init, x, key) == init[..j] + [x] + init[j..]
    ensures InsertBy(init + [last], x, key) == init[..j] + [x] + (init[j..] + [last])
  {
    var s := init + [last];
    assert s[..|s| - 1] == init;
    assert InsertBy(s, x, key) == InsertBy(init, x, key) + [last];
  }
}
