/**
 Stable sorting by a key under a strict total order, as `Array.prototype.sort`
 does it (stable since ECMAScript 2019), and order-preserving selection as
 `Array.prototype.filter` does it. Stability is stated as: for every key, the
 elements carrying that key keep their relative order.
 */
module StableSort {

  /** `lt` is irreflexive, transitive and total on distinct keys. */
  ghost predicate StrictTotalOrder<K(!new)>(lt: (K, K) -> bool) {
    && (forall a :: !lt(a, a))
    && (forall a, b, c :: lt(a, b) && lt(b, c) ==> lt(a, c))
    && (forall a, b :: a != b ==> lt(a, b) || lt(b, a))
  }

  /** No element is strictly preceded, in key order, by an element after it. */
  ghost predicate Sorted<T, K>(s: seq<T>, key: T -> K, lt: (K, K) -> bool) {
    forall i, j :: 0 <= i < j < |s| ==> !lt(key(s[j]), key(s[i]))
  }

  /** The elements of `s` whose key is `k`, in their order in `s`. */
  function WithKey<T, K(==)>(s: seq<T>, key: T -> K, k: K): (r: seq<T>)
    ensures |r| <= |s|
  {
    if |s| == 0 then [] else (if key(s[0]) == k then [s[0]] else []) + WithKey(s[1..], key, k)
  }

  lemma {:induction false} WithKeyConcat<T, K>(a: seq<T>, b: seq<T>, key: T -> K, k: K)
    ensures WithKey(a + b, key, k) == WithKey(a, key, k) + WithKey(b, key, k)
  {
    if |a| > 0 {
      assert (a + b)[1..] == a[1..] + b;
      WithKeyConcat(a[1..], b, key, k);
    } else {
      assert a + b == b;
    }
  }

  /**
   Places `x` in front of the first element that does not strictly precede it,
   so that `x` lands ahead of the elements whose key equals its own.
   */
  function Insert<T, K>(x: T, s: seq<T>, key: T -> K, lt: (K, K) -> bool): (r: seq<T>)
    ensures |r| == |s| + 1
    ensures multiset(r) == multiset(s) + multiset{x}
  {
    if |s| == 0 || !lt(key(s[0]), key(x)) then [x] + s
    else
      assert s == [s[0]] + s[1..];
      [s[0]] + Insert(x, s[1..], key, lt)
  }

  /** Insertion sort, taking the elements from the back so that earlier ones win ties. */
  function Sort<T, K>(s: seq<T>, key: T -> K, lt: (K, K) -> bool): (r: seq<T>)
    ensures |r| == |s|
    ensures multiset(r) == multiset(s)
  {
    if |s| == 0 then []
    else
      assert s == [s[0]] + s[1..];
      Insert(s[0], Sort(s[1..], key, lt), key, lt)
  }

  lemma {:induction false} InsertSorted<T, K(!new)>(x: T, s: seq<T>, key: T -> K, lt: (K, K) -> bool)
    requires StrictTotalOrder(lt)
    requires Sorted(s, key, lt)
    ensures Sorted(Insert(x, s, key, lt), key, lt)
  {
    var r := Insert(x, s, key, lt);
    if |s| == 0 || !lt(key(s[0]), key(x)) {
      forall j | 1 <= j < |r| ensures !lt(key(r[j]), key(x)) {
        assert r[j] == s[j - 1];
        if j > 1 {
          assert !lt(key(s[j - 1]), key(s[0]));
        }
      }
    } else {
      var t := s[1..];
      assert Sorted(t, key, lt);
      InsertSorted(x, t, key, lt);
      var u := Insert(x, t, key, lt);
      assert r == [s[0]] + u;
      forall m | 0 <= m < |t| ensures !lt(key(t[m]), key(s[0])) {
        assert t[m] == s[m + 1];
      }
      InsertNotBelow(x, t, key, lt, key(s[0]));
    }
  }

  /** Inserting an element not below `b` into a sequence with no key below `b` leaves no key below `b`. */
  lemma InsertNotBelow<T, K>(x: T, t: seq<T>, key: T -> K, lt: (K, K) -> bool, b: K)
    requires !lt(key(x), b)
    requires forall m :: 0 <= m < |t| ==> !lt(key(t[m]), b)
    ensures forall j :: 0 <= j < |Insert(x, t, key, lt)| ==> !lt(key(Insert(x, t, key, lt)[j]), b)
  {
    var u := Insert(x, t, key, lt);
    forall j | 0 <= j < |u| ensures !lt(key(u[j]), b) {
      assert u[j] in multiset(u);
      if u[j] != x {
        assert u[j] in multiset(t);
        var m :| 0 <= m < |t| && t[m] == u[j];
      }
    }
  }

  lemma {:induction false} InsertWithKey<T, K(!new)>(x: T, s: seq<T>, key: T -> K, lt: (K, K) -> bool, k: K)
    requires StrictTotalOrder(lt)
    ensures WithKey(Insert(x, s, key, lt), key, k)
         == (if key(x) == k then [x] else []) + WithKey(s, key, k)
  {
    if |s| == 0 || !lt(key(s[0]), key(x)) {
      assert Insert(x, s, key, lt) == [x] + s;
      WithKeyConcat([x], s, key, k);
    } else {
      InsertWithKey(x, s[1..], key, lt, k);
      assert key(s[0]) != key(x);
      WithKeyConcat([s[0]], Insert(x, s[1..], key, lt), key, k);
      WithKeyConcat([s[0]], s[1..], key, k);
      assert [s[0]] + s[1..] == s;
    }
  }

  /** The sort orders its result. */
  lemma {:induction false} SortSorted<T, K(!new)>(s: seq<T>, key: T -> K, lt: (K, K) -> bool)
    requires StrictTotalOrder(lt)
    ensures Sorted(Sort(s, key, lt), key, lt)
  {
    if |s| > 0 {
      SortSorted(s[1..], key, lt);
      InsertSorted(s[0], Sort(s[1..], key, lt), key, lt);
    }
  }

  /** The sort is stable: elements with equal keys keep their relative order. */
  lemma {:induction false} SortStable<T, K(!new)>(s: seq<T>, key: T -> K, lt: (K, K) -> bool, k: K)
    requires StrictTotalOrder(lt)
    ensures WithKey(Sort(s, key, lt), key, k) == WithKey(s, key, k)
  {
    if |s| > 0 {
      SortStable(s[1..], key, lt, k);
      InsertWithKey(s[0], Sort(s[1..], key, lt), key, lt, k);
    }
  }

  /** Sorting an already sorted sequence changes nothing. */
  lemma {:induction false} SortOfSorted<T, K(!new)>(s: seq<T>, key: T -> K, lt: (K, K) -> bool)
    requires StrictTotalOrder(lt)
    requires Sorted(s, key, lt)
    ensures Sort(s, key, lt) == s
  {
    if |s| > 0 {
      assert Sorted(s[1..], key, lt);
      SortOfSorted(s[1..], key, lt);
      if |s| > 1 {
        assert s[1..][0] == s[1];
        assert !lt(key(s[1]), key(s[0]));
      }
      assert [s[0]] + s[1..] == s;
    }
  }

  /** `s.filter(p)`: the elements satisfying `p`, in their order in `s`. */
  function Keep<T(!new)>(s: seq<T>, p: T -> bool): (r: seq<T>)
    ensures |r| <= |s|
    ensures forall x :: x in r <==> x in s && p(x)
  {
    if |s| == 0 then []
    else
      var rest := Keep(s[1..], p);
      assert s == [s[0]] + s[1..];
      (if p(s[0]) then [s[0]] else []) + rest
  }

  /** Filtering keeps every occurrence of the elements that pass and none of the others. */
  lemma {:induction false} KeepCount<T(!new)>(s: seq<T>, p: T -> bool)
    ensures forall x :: multiset(Keep(s, p))[x] == if p(x) then multiset(s)[x] else 0
  {
    if |s| > 0 {
      KeepCount(s[1..], p);
      assert s == [s[0]] + s[1..];
    }
  }

  lemma {:induction false} KeepConcat<T(!new)>(a: seq<T>, b: seq<T>, p: T -> bool)
    ensures Keep(a + b, p) == Keep(a, p) + Keep(b, p)
  {
    if |a| > 0 {
      var head := if p(a[0]) then [a[0]] else [];
      assert (a + b)[0] == a[0];
      assert (a + b)[1..] == a[1..] + b;
      KeepConcat(a[1..], b, p);
      assert Keep(a + b, p) == head + Keep(a[1..] + b, p);
      assert Keep(a, p) == head + Keep(a[1..], p);
    } else {
      assert a + b == b;
    }
  }

  /** Filtering keeps the elements in their order: the elements of each key are those of `s`, filtered. */
  lemma {:induction false} KeepWithKey<T(!new), K>(s: seq<T>, p: T -> bool, key: T -> K, k: K)
    ensures WithKey(Keep(s, p), key, k) == Keep(WithKey(s, key, k), p)
  {
    if |s| > 0 {
      var x := s[0];
      var h := if p(x) then [x] else [];
      var g := if key(x) == k then [x] else [];
      assert Keep(s, p) == h + Keep(s[1..], p);
      assert WithKey(s, key, k) == g + WithKey(s[1..], key, k);
      WithKeyConcat(h, Keep(s[1..], p), key, k);
      KeepConcat(g, WithKey(s[1..], key, k), p);
      KeepWithKey(s[1..], p, key, k);
      assert WithKey(h, key, k) == Keep(g, p);
    }
  }

  /** Filtering a sorted sequence leaves it sorted. */
  lemma {:induction false} KeepSorted<T(!new), K>(s: seq<T>, p: T -> bool, key: T -> K, lt: (K, K) -> bool)
    requires Sorted(s, key, lt)
    ensures Sorted(Keep(s, p), key, lt)
  {
    if |s| > 0 {
      var rest := Keep(s[1..], p);
      assert Sorted(s[1..], key, lt) by {
        forall i, j | 0 <= i < j < |s| - 1 ensures !lt(key(s[1..][j]), key(s[1..][i])) {
          assert s[1..][i] == s[i + 1] && s[1..][j] == s[j + 1];
        }
      }
      KeepSorted(s[1..], p, key, lt);
      if p(s[0]) {
        var r := [s[0]] + rest;
        assert Keep(s, p) == r;
        forall i, j | 0 <= i < j < |r| ensures !lt(key(r[j]), key(r[i])) {
          if i == 0 {
            assert r[j] == rest[j - 1] && r[j] in s[1..];
            var m :| 0 <= m < |s| - 1 && s[1..][m] == r[j];
            assert s[m + 1] == r[j];
          } else {
            assert r[i] == rest[i - 1] && r[j] == rest[j - 1];
          }
        }
      }
    }
  }

  /** Filtering by a predicate every element passes changes nothing. */
  lemma {:induction false} KeepAll<T(!new)>(s: seq<T>, p: T -> bool)
    requires forall x :: x in s ==> p(x)
    ensures Keep(s, p) == s
  {
    if |s| > 0 {
      KeepAll(s[1..], p);
      assert [s[0]] + s[1..] == s;
    }
  }

  /** Selecting by two predicates that split a third one selects, together, as many elements. */
  lemma {:induction false} KeepSplit<T(!new)>(s: seq<T>, p: T -> bool, q: T -> bool, both: T -> bool)
    requires forall x :: both(x) <==> p(x) || q(x)
    requires forall x :: !(p(x) && q(x))
    ensures |Keep(s, p)| + |Keep(s, q)| == |Keep(s, both)|
  {
    if |s| > 0 {
      KeepSplit(s[1..], p, q, both);
    }
  }
}
