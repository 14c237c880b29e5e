/** Python's `list.sort(key=..., reverse=True)` and `sorted(..., reverse=True)`: a stable
    sort into descending key order. Elements whose keys are equal keep their original
    relative order (Python documents that `reverse=True` does not break stability).
    Modelled as an insertion sort over sequences. */
module StableSort {

  /** `gt` is a strict total order on keys. */
  ghost predicate StrictTotal<K(!new)>(gt: (K, K) -> bool) {
    && (forall a :: !gt(a, a))
    && (forall a, b, c :: gt(a, b) && gt(b, c) ==> gt(a, c))
    && (forall a, b :: a != b ==> gt(a, b) || gt(b, a))
  }

  /** Places `x` after the leading elements whose key is strictly greater than its own. */
  function Insert<T, K>(x: T, s: seq<T>, key: T -> K, gt: (K, K) -> bool): seq<T> {
    if s == [] || !gt(key(s[0]), key(x)) then [x] + s
    else [s[0]] + Insert(x, s[1..], key, gt)
  }

  /** The stable descending sort. */
  function SortDesc<T, K>(s: seq<T>, key: T -> K, gt: (K, K) -> bool): seq<T> {
    if s == [] then [] else Insert(s[0], SortDesc(s[1..], key, gt), key, gt)
  }

  /** No element has a strictly greater key than an element before it. */
  ghost predicate SortedDesc<T, K>(s: seq<T>, key: T -> K, gt: (K, K) -> bool) {
    forall i, j :: 0 <= i < j < |s| ==> !gt(key(s[j]), key(s[i]))
  }

  /** The elements whose key is `k`, in their order in `s`. */
  function WithKey<T, K(==)>(s: seq<T>, key: T -> K, k: K): seq<T> {
    if s == [] then [] else (if key(s[0]) == k then [s[0]] else []) + WithKey(s[1..], key, k)
  }

  lemma {:induction false} InsertPermutes<T, K>(x: T, s: seq<T>, key: T -> K, gt: (K, K) -> bool)
    ensures multiset(Insert(x, s, key, gt)) == multiset([x] + s)
  {
    if s != [] && gt(key(s[0]), key(x)) {
      InsertPermutes(x, s[1..], key, gt);
      assert s == [s[0]] + s[1..];
    }
  }

  lemma {:induction false} InsertSorted<T, K(!new)>(x: T, s: seq<T>, key: T -> K, gt: (K, K) -> bool)
    requires StrictTotal(gt) && SortedDesc(s, key, gt)
    ensures SortedDesc(Insert(x, s, key, gt), key, gt)
  {
    var r := Insert(x, s, key, gt);
    if s == [] {
    } else if !gt(key(s[0]), key(x)) {
      forall i, j | 0 <= i < j < |r| ensures !gt(key(r[j]), key(r[i])) {
        if i == 0 {
          assert r[j] == s[j - 1];
          if j > 1 { assert !gt(key(s[j - 1]), key(s[0])); }
        } else {
          assert r[i] == s[i - 1] && r[j] == s[j - 1];
        }
      }
    } else {
      InsertSorted(x, s[1..], key, gt);
      var t := Insert(x, s[1..], key, gt);
      assert r == [s[0]] + t;
      InsertPermutes(x, s[1..], key, gt);
      forall i, j | 0 <= i < j < |r| ensures !gt(key(r[j]), key(r[i])) {
        if i == 0 {
          assert r[j] == t[j - 1];
          assert r[j] in multiset([x] + s[1..]);
          assert r[j] == x || r[j] in s[1..];
          if r[j] != x {
            var m :| 0 <= m < |s[1..]| && s[1..][m] == r[j];
            assert s[m + 1] == r[j];
          }
        } else {
          assert r[i] == t[i - 1] && r[j] == t[j - 1];
        }
      }
    }
  }

  lemma {:induction false} InsertKeepsKeyOrder<T, K(!new)>(x: T, s: seq<T>, key: T -> K, gt: (K, K) -> bool, k: K)
    requires forall a :: !gt(a, a)
    ensures WithKey(Insert(x, s, key, gt), key, k) == WithKey([x] + s, key, k)
  {
    if s != [] && gt(key(s[0]), key(x)) {
      InsertKeepsKeyOrder(x, s[1..], key, gt, k);
      assert key(s[0]) != key(x);
      var t := Insert(x, s[1..], key, gt);
      assert WithKey([s[0]] + t, key, k) == (if key(s[0]) == k then [s[0]] else []) + WithKey(t, key, k);
      assert WithKey([x] + s, key, k) == (if key(x) == k then [x] else []) + WithKey(s, key, k);
      assert WithKey(s, key, k) == (if key(s[0]) == k then [s[0]] else []) + WithKey(s[1..], key, k);
      assert WithKey([x] + s[1..], key, k) == (if key(x) == k then [x] else []) + WithKey(s[1..], key, k);
    }
  }

  /** The sort yields a descending order, a permutation of its input, and keeps elements
      with equal keys in their original relative order. */
  lemma {:induction false} SortDescCorrect<T, K(!new)>(s: seq<T>, key: T -> K, gt: (K, K) -> bool)
    requires StrictTotal(gt)
    ensures SortedDesc(SortDesc(s, key, gt), key, gt)
    ensures multiset(SortDesc(s, key, gt)) == multiset(s)
    ensures forall k :: WithKey(SortDesc(s, key, gt), key, k) == WithKey(s, key, k)
  {
    if s != [] {
      var t := SortDesc(s[1..], key, gt);
      SortDescCorrect(s[1..], key, gt);
      InsertSorted(s[0], t, key, gt);
      InsertPermutes(s[0], t, key, gt);
      assert s == [s[0]] + s[1..];
      forall k ensures WithKey(SortDesc(s, key, gt), key, k) == WithKey(s, key, k) {
        InsertKeepsKeyOrder(s[0], t, key, gt, k);
      }
    }
  }

  /** The order and permutation halves of `SortDescCorrect` alone. */
  lemma SortDescPermutes<T, K(!new)>(s: seq<T>, key: T -> K, gt: (K, K) -> bool)
    requires StrictTotal(gt)
    ensures SortedDesc(SortDesc(s, key, gt), key, gt)
    ensures multiset(SortDesc(s, key, gt)) == multiset(s)
  {
    SortDescCorrect(s, key, gt);
  }

  /** Sorting an already sorted sequence changes nothing. */
  lemma {:induction false} SortDescOfSorted<T, K>(s: seq<T>, key: T -> K, gt: (K, K) -> bool)
    requires SortedDesc(s, key, gt)
    ensures SortDesc(s, key, gt) == s
  {
    if s != [] {
      assert SortedDesc(s[1..], key, gt) by {
        forall i, j | 0 <= i < j < |s[1..]| ensures !gt(key(s[1..][j]), key(s[1..][i])) {
          assert s[1..][j] == s[j + 1] && s[1..][i] == s[i + 1];
        }
      }
      SortDescOfSorted(s[1..], key, gt);
      if |s| > 1 { assert !gt(key(s[1]), key(s[0])); }
      assert s == [s[0]] + s[1..];
    }
  }
}
