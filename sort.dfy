/** `Array.prototype.sort` with a comparator `(a, b) => key(a) - key(b)`: a
    stable sort (ECMAScript 2019 and later), ascending by `key`. The message
    stores use it with the creation time as the key. */
module StableSort {

  predicate SortedBy<T>(s: seq<T>, key: T -> int) {
    forall i, j :: 0 <= i < j < |s| ==> key(s[i]) <= key(s[j])
  }

  /** Puts `x` after every element of `s` whose key is not greater than its own. */
  function InsertBy<T>(s: seq<T>, x: T, key: T -> int): seq<T>
    decreases |s|
  {
    if s == [] then [x]
    else if key(s[|s| - 1]) <= key(x) then s + [x]
    else InsertBy(s[..|s| - 1], x, key) + [s[|s| - 1]]
  }

  /** Insertion sort, which is stable: elements with equal keys keep their order. */
  function SortBy<T>(s: seq<T>, key: T -> int): seq<T>
    decreases |s|
  {
    if s == [] then [] else InsertBy(SortBy(s[..|s| - 1], key), s[|s| - 1], key)
  }

  /** The elements of `s` whose key is `k`, in their order in `s`. */
  function WithKey<T>(s: seq<T>, key: T -> int, k: int): seq<T>
    decreases |s|
  {
    if s == [] then []
    else WithKey(s[..|s| - 1], key, k) + (if key(s[|s| - 1]) == k then [s[|s| - 1]] else [])
  }

  lemma {:induction false} WithKeyAppend<T>(s: seq<T>, u: seq<T>, key: T -> int, k: int)
    ensures WithKey(s + u, key, k) == WithKey(s, key, k) + WithKey(u, key, k)
    decreases |u|
  {
    if u == [] {
      assert s + u == s;
    } else {
      var u' := u[..|u| - 1];
      assert (s + u)[..|s + u| - 1] == s + u';
      WithKeyAppend(s, u', key, k);
    }
  }

  lemma WithKeySingle<T>(x: T, key: T -> int, k: int)
    ensures WithKey([x], key, k) == if key(x) == k then [x] else []
  {
    assert [x][..0] == [];
  }

  lemma {:induction false} InsertByCount<T>(s: seq<T>, x: T, key: T -> int)
    ensures multiset(InsertBy(s, x, key)) == multiset(s) + multiset{x}
    ensures |InsertBy(s, x, key)| == |s| + 1
    decreases |s|
  {
    if s != [] && key(s[|s| - 1]) > key(x) {
      var p := s[..|s| - 1];
      assert s == p + [s[|s| - 1]];
      InsertByCount(p, x, key);
    }
  }

  lemma {:induction false} InsertBySorted<T>(s: seq<T>, x: T, key: T -> int)
    requires SortedBy(s, key)
    ensures SortedBy(InsertBy(s, x, key), key)
    decreases |s|
  {
    if s == [] {
    } else if key(s[|s| - 1]) <= key(x) {
      assert SortedBy(s + [x], key);
    } else {
      var p, last := s[..|s| - 1], s[|s| - 1];
      InsertBySorted(p, x, key);
      InsertByCount(p, x, key);
      var r := InsertBy(p, x, key);
      // every element of r is x or an element of p, none of which has a greater key than `last`
      forall i | 0 <= i < |r| ensures key(r[i]) <= key(last) {
        assert r[i] in multiset(r);
        if r[i] != x {
          assert r[i] in multiset(p);
          var j :| 0 <= j < |p| && p[j] == r[i];
          assert s[j] == p[j];
        }
      }
      assert SortedBy(r + [last], key);
    }
  }

  lemma {:induction false} InsertByStable<T>(s: seq<T>, x: T, key: T -> int, k: int)
    ensures WithKey(InsertBy(s, x, key), key, k) == WithKey(s, key, k) + WithKey([x], key, k)
    decreases |s|
  {
    if s == [] {
      WithKeySingle(x, key, k);
    } else if key(s[|s| - 1]) <= key(x) {
      WithKeyAppend(s, [x], key, k);
    } else {
      var p, last := s[..|s| - 1], s[|s| - 1];
      var r := InsertBy(p, x, key);
      InsertByStable(p, x, key, k);
      WithKeyAppend(r, [last], key, k);
      WithKeySingle(last, key, k);
      WithKeySingle(x, key, k);
      // `last` has a strictly greater key than `x`: at most one of them has key k
    }
  }

  lemma {:induction false} SortByFacts<T>(s: seq<T>, key: T -> int)
    ensures SortedBy(SortBy(s, key), key)
    ensures multiset(SortBy(s, key)) == multiset(s)
    ensures |SortBy(s, key)| == |s|
    ensures forall k :: WithKey(SortBy(s, key), key, k) == WithKey(s, key, k)
    decreases |s|
  {
    if s != [] {
      var p, last := s[..|s| - 1], s[|s| - 1];
      assert s == p + [last];
      SortByFacts(p, key);
      InsertByCount(SortBy(p, key), last, key);
      InsertBySorted(SortBy(p, key), last, key);
      forall k ensures WithKey(SortBy(s, key), key, k) == WithKey(s, key, k) {
        InsertByStable(SortBy(p, key), last, key, k);
      }
    }
  }

  /** The sort is ascending, a permutation, and stable: for every key value the
      elements carrying it keep their relative order. */
  lemma SortSpec<T>(s: seq<T>, key: T -> int)
    ensures SortedBy(SortBy(s, key), key)
    ensures multiset(SortBy(s, key)) == multiset(s)
    ensures forall x :: x in SortBy(s, key) <==> x in s
    ensures forall k :: WithKey(SortBy(s, key), key, k) == WithKey(s, key, k)
  {
    SortByFacts(s, key);
    forall x ensures x in SortBy(s, key) <==> x in s {
      assert x in SortBy(s, key) <==> x in multiset(SortBy(s, key));
      assert x in s <==> x in multiset(s);
    }
  }

  /** Sorting an already ordered sequence leaves it as it is. */
  lemma {:induction false} SortSorted<T>(s: seq<T>, key: T -> int)
    requires SortedBy(s, key)
    ensures SortBy(s, key) == s
    decreases |s|
  {
    if s != [] {
      var p := s[..|s| - 1];
      assert SortedBy(p, key);
      SortSorted(p, key);
      assert s == p + [s[|s| - 1]];
    }
  }

  ghost predicate DistinctUnder<T, U>(s: seq<T>, f: T -> U) {
    forall i, j :: 0 <= i < j < |s| ==> f(s[i]) != f(s[j])
  }

  lemma {:induction false} InsertByDistinct<T, U>(s: seq<T>, x: T, key: T -> int, f: T -> U)
    requires DistinctUnder(s, f)
    requires forall y :: y in s ==> f(y) != f(x)
    ensures DistinctUnder(InsertBy(s, x, key), f)
    decreases |s|
  {
    if s == [] {
    } else if key(s[|s| - 1]) <= key(x) {
      assert DistinctUnder(s + [x], f);
    } else {
      var p, last := s[..|s| - 1], s[|s| - 1];
      assert forall y :: y in p ==> y in s;
      InsertByDistinct(p, x, key, f);
      InsertByCount(p, x, key);
      var r := InsertBy(p, x, key);
      forall i | 0 <= i < |r| ensures f(r[i]) != f(last) {
        assert r[i] in multiset(r);
        if r[i] != x {
          assert r[i] in multiset(p);
          var j :| 0 <= j < |p| && p[j] == r[i];
          assert s[j] == p[j];
        }
      }
      assert DistinctUnder(r + [last], f);
    }
  }

  /** Sorting never makes two elements agree under `f` that did not already. */
  lemma {:induction false} SortKeepsDistinct<T, U>(s: seq<T>, key: T -> int, f: T -> U)
    requires DistinctUnder(s, f)
    ensures DistinctUnder(SortBy(s, key), f)
    decreases |s|
  {
    if s != [] {
      var p, last := s[..|s| - 1], s[|s| - 1];
      assert DistinctUnder(p, f);
      SortKeepsDistinct(p, key, f);
      SortByFacts(p, key);
      forall y | y in SortBy(p, key) ensures f(y) != f(last) {
        assert y in multiset(SortBy(p, key));
        assert y in multiset(p);
        var j :| 0 <= j < |p| && p[j] == y;
        assert s[j] == p[j];
      }
      InsertByDistinct(SortBy(p, key), last, key, f);
    }
  }
}
