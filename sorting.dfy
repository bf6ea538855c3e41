/**
 * Sorting a list by a comparer whose order is that of an integer key, as
 * `ImmutableList<T>.Sort(IComparer<T>)` does. The model is an insertion
 * sort that keeps equal keys in their original order.
 */
module Sorting {

  /** Keys never decrease along the list. */
  predicate SortedBy<T>(s: seq<T>, key: T -> int) {
    forall i, j :: 0 <= i < j < |s| ==> key(s[i]) <= key(s[j])
  }

  /** Puts `x` in front of the first element whose key is not smaller than its own. */
  function Insert<T>(x: T, s: seq<T>, key: T -> int): seq<T> {
    if |s| == 0 then [x]
    else if key(x) <= key(s[0]) then [x] + s
    else [s[0]] + Insert(x, s[1..], key)
  }

  /** Inserting adds `x` to the elements. */
  lemma {:induction false} InsertCounts<T>(x: T, s: seq<T>, key: T -> int)
    ensures |Insert(x, s, key)| == |s| + 1
    ensures multiset(Insert(x, s, key)) == multiset(s) + multiset{x}
  {
    if |s| > 0 && key(x) > key(s[0]) {
      InsertCounts(x, s[1..], key);
      assert s == [s[0]] + s[1..];
    }
  }

  /** Every key of `s` is at least `b`. */
  predicate AtLeast<T>(s: seq<T>, key: T -> int, b: int) {
    forall i :: 0 <= i < |s| ==> b <= key(s[i])
  }

  /** Inserting an element whose key is at least `b` keeps every key at least `b`. */
  lemma {:induction false} InsertAtLeast<T>(x: T, s: seq<T>, key: T -> int, b: int)
    requires AtLeast(s, key, b) && b <= key(x)
    ensures AtLeast(Insert(x, s, key), key, b)
  {
    if |s| > 0 && key(x) > key(s[0]) {
      var tail := s[1..];
      assert AtLeast(tail, key, b) by {
        forall i | 0 <= i < |tail| ensures b <= key(tail[i]) {
          assert tail[i] == s[i + 1];
        }
      }
      InsertAtLeast(x, tail, key, b);
    }
  }

  /** Inserting into a sorted list keeps it sorted. */
  lemma {:induction false} InsertSorted<T>(x: T, s: seq<T>, key: T -> int)
    requires SortedBy(s, key)
    ensures SortedBy(Insert(x, s, key), key)
  {
    if |s| > 0 && key(x) > key(s[0]) {
      var tail := s[1..];
      assert SortedBy(tail, key) && AtLeast(tail, key, key(s[0])) by {
        forall i, j | 0 <= i < j < |tail| ensures key(tail[i]) <= key(tail[j]) {
          assert tail[i] == s[i + 1] && tail[j] == s[j + 1];
        }
        forall i | 0 <= i < |tail| ensures key(s[0]) <= key(tail[i]) {
          assert tail[i] == s[i + 1];
        }
      }
      InsertSorted(x, tail, key);
      InsertAtLeast(x, tail, key, key(s[0]));
      var r, t := Insert(x, s, key), Insert(x, tail, key);
      assert r == [s[0]] + t;
      forall a, b | 0 <= a < b < |r| ensures key(r[a]) <= key(r[b]) {
        assert r[b] == t[b - 1];
        if a > 0 {
          assert r[a] == t[a - 1];
        }
      }
    }
  }

  /** The list sorted by `key`, by inserting each element into the sorted rest. */
  function SortBy<T>(s: seq<T>, key: T -> int): seq<T> {
    if |s| == 0 then [] else Insert(s[0], SortBy(s[1..], key), key)
  }

  /** The sorted list is in key order and a permutation of `s`. */
  lemma {:induction false} SortBySpec<T>(s: seq<T>, key: T -> int)
    ensures var r := SortBy(s, key);
      |r| == |s| && SortedBy(r, key) && multiset(r) == multiset(s)
  {
    if |s| > 0 {
      SortBySpec(s[1..], key);
      InsertCounts(s[0], SortBy(s[1..], key), key);
      InsertSorted(s[0], SortBy(s[1..], key), key);
      assert s == [s[0]] + s[1..];
    }
  }

  /** A list already in key order comes back unchanged. */
  lemma {:induction false} SortBySorted<T(!new)>(s: seq<T>, key: T -> int)
    requires SortedBy(s, key)
    ensures SortBy(s, key) == s
  {
    if |s| > 0 {
      var tail := s[1..];
      assert SortedBy(tail, key) by {
        forall i, j | 0 <= i < j < |tail| ensures key(tail[i]) <= key(tail[j]) {
          assert tail[i] == s[i + 1] && tail[j] == s[j + 1];
        }
      }
      SortBySorted(tail, key);
      if |tail| > 0 {
        assert key(s[0]) <= key(tail[0]);
      }
      assert s == [s[0]] + tail;
    }
  }
}
