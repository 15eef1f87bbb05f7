/**
 * Python's `list.sort(key=...)` / `sorted(...)`: a stable sort ascending by
 * key. Written as an insertion sort; any stable sort gives the same list,
 * which is pinned down by the three properties proved here: the result is
 * ascending, holds the same elements, and keeps the input order among
 * elements with equal keys.
 */
module StableSort {
  import opened Ordering

  predicate Sorted<T>(s: seq<T>, key: T -> Key)
  {
    forall i, j :: 0 <= i < j < |s| ==> KeyLe(key(s[i]), key(s[j]))
  }

  /** The elements of `s` whose key is `k`, in their order in `s`. */
  function WithKey<T>(s: seq<T>, key: T -> Key, k: Key): seq<T>
  {
    if s == [] then []
    else (if key(s[0]) == k then [s[0]] else []) + WithKey(s[1..], key, k)
  }

  /** Places `x` in front of the first element whose key is not below its own: in front
      of every element of equal key. */
  function Insert<T>(x: T, s: seq<T>, key: T -> Key): seq<T>
  {
    if s == [] then [x]
    else if KeyLe(key(x), key(s[0])) then [x] + s
    else [s[0]] + Insert(x, s[1..], key)
  }

  lemma {:induction false} InsertMultiset<T>(x: T, s: seq<T>, key: T -> Key)
    ensures multiset(Insert(x, s, key)) == multiset(s) + multiset{x}
  {
    if s != [] && !KeyLe(key(x), key(s[0])) {
      InsertMultiset(x, s[1..], key);
      assert s == [s[0]] + s[1..];
    }
  }

  lemma {:induction false} InsertWithKey<T>(x: T, s: seq<T>, key: T -> Key, k: Key)
    ensures WithKey(Insert(x, s, key), key, k) == (if key(x) == k then [x] else []) + WithKey(s, key, k)
  {
    if s == [] {
      assert WithKey([x], key, k) == (if key(x) == k then [x] else []) + WithKey([], key, k);
    } else if KeyLe(key(x), key(s[0])) {
      assert ([x] + s)[1..] == s;
    } else {
      var t := Insert(x, s[1..], key);
      InsertWithKey(x, s[1..], key, k);
      assert ([s[0]] + t)[1..] == t;
      assert key(s[0]) != key(x);
    }
  }

  lemma SortedTail<T>(s: seq<T>, key: T -> Key)
    requires Sorted(s, key) && s != []
    ensures Sorted(s[1..], key)
  {
    forall i, j | 0 <= i < j < |s[1..]| ensures KeyLe(key(s[1..][i]), key(s[1..][j])) {
      assert s[1..][i] == s[i + 1] && s[1..][j] == s[j + 1];
    }
  }

  /** A key no greater than every key of a sorted list can go in front of it. */
  lemma ConsSorted<T>(h: T, t: seq<T>, key: T -> Key)
    requires Sorted(t, key)
    requires forall j :: 0 <= j < |t| ==> KeyLe(key(h), key(t[j]))
    ensures Sorted([h] + t, key)
  {
    var r := [h] + t;
    forall i, j | 0 <= i < j < |r| ensures KeyLe(key(r[i]), key(r[j])) {
      assert r[j] == t[j - 1];
      if i > 0 {
        assert r[i] == t[i - 1];
      }
    }
  }

  /** The head of a sorted list is a lower bound of its other elements. */
  lemma SortedHeadBound<T>(s: seq<T>, key: T -> Key)
    requires Sorted(s, key) && s != []
    ensures forall j :: 0 <= j < |s[1..]| ==> KeyLe(key(s[0]), key(s[1..][j]))
  {
    forall j | 0 <= j < |s[1..]| ensures KeyLe(key(s[0]), key(s[1..][j])) {
      assert s[1..][j] == s[j + 1];
    }
  }

  /** Inserting keeps a lower bound of every key. */
  lemma {:induction false} InsertLowerBound<T>(b: Key, x: T, s: seq<T>, key: T -> Key)
    requires KeyLe(b, key(x))
    requires forall j :: 0 <= j < |s| ==> KeyLe(b, key(s[j]))
    ensures forall j :: 0 <= j < |Insert(x, s, key)| ==> KeyLe(b, key(Insert(x, s, key)[j]))
  {
    var r := Insert(x, s, key);
    if s == [] {
    } else if KeyLe(key(x), key(s[0])) {
      forall j | 0 <= j < |r| ensures KeyLe(b, key(r[j])) {
        if j > 0 {
          assert r[j] == s[j - 1];
        }
      }
    } else {
      var t := Insert(x, s[1..], key);
      forall j | 0 <= j < |s[1..]| ensures KeyLe(b, key(s[1..][j])) {
        assert s[1..][j] == s[j + 1];
      }
      InsertLowerBound(b, x, s[1..], key);
      forall j | 0 <= j < |r| ensures KeyLe(b, key(r[j])) {
        if j > 0 {
          assert r[j] == t[j - 1];
        }
      }
    }
  }

  lemma {:induction false} InsertSorted<T>(x: T, s: seq<T>, key: T -> Key)
    requires Sorted(s, key)
    ensures Sorted(Insert(x, s, key), key)
  {
    if s == [] {
    } else if KeyLe(key(x), key(s[0])) {
      forall j | 0 <= j < |s| ensures KeyLe(key(x), key(s[j])) {
        KeyLeTotalOrder(key(x), key(s[0]), key(s[j]));
      }
      ConsSorted(x, s, key);
    } else {
      SortedTail(s, key);
      SortedHeadBound(s, key);
      KeyLeTotalOrder(key(x), key(s[0]), key(x));
      InsertSorted(x, s[1..], key);
      InsertLowerBound(key(s[0]), x, s[1..], key);
      ConsSorted(s[0], Insert(x, s[1..], key), key);
    }
  }

  /** The stable sort of `s` by `key`. */
  function Sort<T(==)>(s: seq<T>, key: T -> Key): (r: seq<T>)
    ensures Sorted(r, key)
    ensures multiset(r) == multiset(s)
    ensures forall k :: WithKey(r, key, k) == WithKey(s, key, k)
  {
    if s == [] then []
    else
      var rest := Sort(s[1..], key);
      InsertStep(s, rest, key);
      Insert(s[0], rest, key)
  }

  /** Inserting the head of `s` into a stable sort of its tail gives a stable sort of `s`. */
  lemma InsertStep<T>(s: seq<T>, rest: seq<T>, key: T -> Key)
    requires s != [] && Sorted(rest, key) && multiset(rest) == multiset(s[1..])
    requires forall k :: WithKey(rest, key, k) == WithKey(s[1..], key, k)
    ensures Sorted(Insert(s[0], rest, key), key)
    ensures multiset(Insert(s[0], rest, key)) == multiset(s)
    ensures forall k :: WithKey(Insert(s[0], rest, key), key, k) == WithKey(s, key, k)
  {
    InsertSorted(s[0], rest, key);
    InsertMultiset(s[0], rest, key);
    assert s == [s[0]] + s[1..];
    forall k ensures WithKey(Insert(s[0], rest, key), key, k) == WithKey(s, key, k) {
      InsertWithKey(s[0], rest, key, k);
    }
  }

  /** Sorting an already ascending list changes nothing: re-sorting is a no-op. */
  lemma {:induction false} SortSortedIsIdentity<T>(s: seq<T>, key: T -> Key)
    requires Sorted(s, key)
    ensures Sort(s, key) == s
  {
    if s != [] {
      SortedTail(s, key);
      SortSortedIsIdentity(s[1..], key);
      if |s| > 1 {
        assert KeyLe(key(s[0]), key(s[1]));
      }
      assert s == [s[0]] + s[1..];
    }
  }

  /** Sorting is idempotent. */
  lemma SortIdempotent<T>(s: seq<T>, key: T -> Key)
    ensures Sort(Sort(s, key), key) == Sort(s, key)
  {
    SortSortedIsIdentity(Sort(s, key), key);
  }
}
