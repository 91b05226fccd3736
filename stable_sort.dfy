/** Python's `sorted(l, key=...)`: a stable sort by a computed key.

    Both sorts in `generate_bom` use it: `natural_sort` on each row's
    references, and the final sort of the rows by `sort_func`. The model is
    an insertion sort; any sort with the three properties of SortBy
    (sorted, a permutation, equal keys keep their input order) returns the
    same list as Python's. */
module StableSort {
  import opened NaturalOrder

  /** Every element's key is at most every later element's key. */
  ghost predicate SortedBy<T>(s: seq<T>, key: T -> Key) {
    forall i, j :: 0 <= i < j < |s| ==> KeyLeq(key(s[i]), key(s[j]))
  }

  /** The elements of `s` whose key is `k`, in their order in `s`. */
  function WithKey<T>(s: seq<T>, key: T -> Key, k: Key): seq<T> {
    if s == [] then [] else (if key(s[0]) == k then [s[0]] else []) + WithKey(s[1..], key, k)
  }

  /** Places `x` in front of the first element whose key is not below its own. */
  function Insert<T>(x: T, s: seq<T>, key: T -> Key): (r: seq<T>)
    ensures |r| == |s| + 1
  {
    if s == [] || !KeyLess(key(s[0]), key(x)) then [x] + s
    else [s[0]] + Insert(x, s[1..], key)
  }

  /** `sorted(s, key=key)`; SortBySpec states what it returns. */
  function SortBy<T>(s: seq<T>, key: T -> Key): (r: seq<T>)
    ensures |r| == |s|
  {
    if s == [] then [] else Insert(s[0], SortBy(s[1..], key), key)
  }

  /** The sort returns a permutation of its input, ordered by key, in which
      elements with equal keys keep their input order. */
  lemma {:induction false} SortBySpec<T>(s: seq<T>, key: T -> Key)
    ensures multiset(SortBy(s, key)) == multiset(s)
    ensures SortedBy(SortBy(s, key), key)
    ensures forall k :: WithKey(SortBy(s, key), key, k) == WithKey(s, key, k)
    decreases |s|
  {
    if s != [] {
      var rest := SortBy(s[1..], key);
      SortBySpec(s[1..], key);
      assert SortBy(s, key) == Insert(s[0], rest, key);
      InsertPermutes(s[0], rest, key);
      assert s == [s[0]] + s[1..];
      InsertSorted(s[0], rest, key);
      forall k ensures WithKey(Insert(s[0], rest, key), key, k) == WithKey(s, key, k) {
        InsertWithKey(s[0], rest, key, k);
        WithKeyCons(s[0], s[1..], key, k);
      }
    }
  }

  lemma {:induction false} InsertPermutes<T>(x: T, s: seq<T>, key: T -> Key)
    ensures multiset(Insert(x, s, key)) == multiset{x} + multiset(s)
    decreases |s|
  {
    if s != [] && KeyLess(key(s[0]), key(x)) {
      InsertPermutes(x, s[1..], key);
      assert s == [s[0]] + s[1..];
    }
  }

  lemma {:induction false} InsertSorted<T>(x: T, s: seq<T>, key: T -> Key)
    requires SortedBy(s, key)
    ensures SortedBy(Insert(x, s, key), key)
    decreases |s|
  {
    if s == [] {
    } else if !KeyLess(key(s[0]), key(x)) {
      KeyNotLess(key(s[0]), key(x));
      var r := [x] + s;
      forall i, j | 0 <= i < j < |r| ensures KeyLeq(key(r[i]), key(r[j])) {
        if i == 0 && j > 1 {
          KeyLeqTransitive(key(x), key(s[0]), key(s[j - 1]));
        }
      }
    } else {
      var tail := Insert(x, s[1..], key);
      InsertSorted(x, s[1..], key);
      InsertPermutes(x, s[1..], key);
      var r := [s[0]] + tail;
      forall j | 0 <= j < |tail| ensures KeyLeq(key(s[0]), key(tail[j])) {
        assert tail[j] in multiset(tail);
        if tail[j] != x {
          assert tail[j] in multiset(s[1..]);
          var m :| 0 <= m < |s[1..]| && s[1..][m] == tail[j];
          assert s[m + 1] == tail[j];
        }
      }
      forall i, j | 0 <= i < j < |r| ensures KeyLeq(key(r[i]), key(r[j])) {
        if i == 0 { assert r[j] == tail[j - 1]; }
      }
    }
  }

  lemma {:induction false} InsertWithKey<T>(x: T, s: seq<T>, key: T -> Key, k: Key)
    ensures WithKey(Insert(x, s, key), key, k) == (if key(x) == k then [x] else []) + WithKey(s, key, k)
    decreases |s|
  {
    if s == [] || !KeyLess(key(s[0]), key(x)) {
      WithKeyCons(x, s, key, k);
    } else {
      var head := s[0];
      var rest := Insert(x, s[1..], key);
      assert Insert(x, s, key) == [head] + rest;
      InsertWithKey(x, s[1..], key, k);
      WithKeyCons(head, rest, key, k);
      assert s == [head] + s[1..];
      WithKeyCons(head, s[1..], key, k);
      // `head` sorts strictly below `x`, so at most one of the two has key `k`.
      KeyLessIrreflexive(key(x));
      assert !(key(head) == k && key(x) == k);
    }
  }

  /** WithKey keeps or drops the head and goes on with the rest. */
  lemma WithKeyCons<T>(y: T, s: seq<T>, key: T -> Key, k: Key)
    ensures WithKey([y] + s, key, k) == (if key(y) == k then [y] else []) + WithKey(s, key, k)
  {
    assert ([y] + s)[1..] == s;
  }
}
