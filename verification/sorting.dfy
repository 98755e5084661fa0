/** Sorting of thread inventories and snapshots by thread ID. */
module Sorting {

  ghost predicate SortedBy<T>(key: T -> int, s: seq<T>) {
    forall i, j | 0 <= i < j < |s| :: key(s[i]) <= key(s[j])
  }

  predicate Sorted(s: seq<int>) {
    forall i, j | 0 <= i < j < |s| :: s[i] <= s[j]
  }

  predicate StrictlySorted(s: seq<int>) {
    forall i, j | 0 <= i < j < |s| :: s[i] < s[j]
  }

  function Elements(s: seq<int>): set<int> {
    set x | x in s
  }

  function InsertBy<T>(key: T -> int, s: seq<T>, x: T): (r: seq<T>)
    ensures |r| == |s| + 1
    ensures multiset(r) == multiset(s) + multiset{x}
  {
    if s == [] then [x]
    else if key(x) <= key(s[0]) then [x] + s
    else
      assert s == [s[0]] + s[1..];
      [s[0]] + InsertBy(key, s[1..], x)
  }

  lemma {:induction false} InsertKeepsSorted<T>(key: T -> int, s: seq<T>, x: T)
    requires SortedBy(key, s)
    ensures SortedBy(key, InsertBy(key, s, x))
  {
    if s != [] && key(x) > key(s[0]) {
      InsertKeepsSorted(key, s[1..], x);
      var tail := InsertBy(key, s[1..], x);
      forall j | 0 <= j < |tail| ensures key(s[0]) <= key(tail[j]) {
        assert tail[j] in multiset(tail);
        assert s[1..] == s[1..|s|];
      }
    }
  }

  /** A sorted permutation of the input. */
  function SortBy<T>(key: T -> int, s: seq<T>): (r: seq<T>)
    ensures |r| == |s|
    ensures multiset(r) == multiset(s)
  {
    if s == [] then []
    else
      assert s == [s[0]] + s[1..];
      InsertBy(key, SortBy(key, s[1..]), s[0])
  }

  lemma {:induction false} SortBySorts<T>(key: T -> int, s: seq<T>)
    ensures SortedBy(key, SortBy(key, s))
  {
    if s != [] {
      SortBySorts(key, s[1..]);
      InsertKeepsSorted(key, SortBy(key, s[1..]), s[0]);
    }
  }

  /** The same elements in non-decreasing order. */
  function SortIds(s: seq<int>): (r: seq<int>)
    ensures |r| == |s| && multiset(r) == multiset(s) && Sorted(r)
    ensures Elements(r) == Elements(s)
  {
    var key := (x: int) => x;
    SortBySorts(key, s);
    var r := SortBy(key, s);
    assert forall x :: x in r <==> x in multiset(r);
    r
  }

  /** Membership in a sorted range, the contract of std::binary_search. */
  predicate BinarySearch(s: seq<int>, x: int)
    requires Sorted(s)
  {
    x in s
  }

  lemma {:induction false} DistinctSize(s: seq<int>)
    requires StrictlySorted(s)
    ensures |Elements(s)| == |s|
  {
    if s != [] {
      var n := |s| - 1;
      DistinctSize(s[..n]);
      assert Elements(s) == Elements(s[..n]) + {s[n]};
      assert s[n] !in Elements(s[..n]);
    }
  }

  /** Two strictly sorted sequences with the same elements are equal. */
  lemma {:induction false} SameElements(a: seq<int>, b: seq<int>)
    requires StrictlySorted(a) && StrictlySorted(b) && Elements(a) == Elements(b)
    ensures a == b
  {
    DistinctSize(a);
    DistinctSize(b);
    if a != [] {
      var n := |a| - 1;
      assert a[n] in Elements(b) && b[n] in Elements(a);
      assert a[n] == b[n];
      assert Elements(a[..n]) == Elements(a) - {a[n]};
      assert Elements(b[..n]) == Elements(b) - {b[n]};
      SameElements(a[..n], b[..n]);
      assert a == a[..n] + [a[n]] && b == b[..n] + [b[n]];
    }
  }

  predicate NoDuplicates(s: seq<int>) {
    forall i, j | 0 <= i < j < |s| :: s[i] != s[j]
  }
}
