/** Choosing entries at random for fs_obtain_n: a reservoir of indexes, sorted (server/src/file_system.c:306-323). */
module Reservoir {
  import opened Sequences

  const MAX_EJECTED_FILES_AT_SAME_TIME: int := 1024 * 1024

  ghost predicate Increasing(s: seq<int>) {
    forall i, j :: 0 <= i < j < |s| ==> s[i] < s[j]
  }

  ghost predicate Sorted(s: seq<int>) {
    forall i, j :: 0 <= i < j < |s| ==> s[i] <= s[j]
  }

  function Insert(s: seq<int>, x: int): (r: seq<int>)
    ensures multiset(r) == multiset(s) + multiset{x}
  {
    if s == [] || x <= s[0] then [x] + s
    else
      assert s == [s[0]] + s[1..];
      [s[0]] + Insert(s[1..], x)
  }

  lemma {:induction false} InsertSorted(s: seq<int>, x: int)
    requires Sorted(s)
    ensures Sorted(Insert(s, x))
  {
    if s != [] && x > s[0] {
      InsertSorted(s[1..], x);
      var r := Insert(s[1..], x);
      forall k | 0 <= k < |r|
        ensures s[0] <= r[k]
      {
        assert r[k] in multiset(r);
        if r[k] != x {
          assert r[k] in multiset(s[1..]);
          assert r[k] in s[1..];
        }
      }
      assert Insert(s, x) == [s[0]] + r;
    }
  }

  /** qsort with the order of __inn_sort_int_func: some sorted permutation. */
  method Qsort(s: seq<int>) returns (r: seq<int>)
    ensures Sorted(r) && multiset(r) == multiset(s)
  {
    r := [];
    for i := 0 to |s|
      invariant Sorted(r) && multiset(r) == multiset(s[..i])
    {
      assert s[..i + 1] == s[..i] + [s[i]];
      InsertSorted(r, s[i]);
      r := Insert(r, s[i]);
    }
    assert s[..|s|] == s;
  }

  /** A sorted permutation of distinct numbers is increasing and holds the same numbers. */
  lemma SortedDistinct(s: seq<int>, r: seq<int>)
    requires Distinct(s) && Sorted(r) && multiset(r) == multiset(s)
    ensures Increasing(r) && |r| == |s| && forall x :: x in r <==> x in s
  {
    assert |multiset(r)| == |multiset(s)|;
    forall i, j | 0 <= i < j < |r|
      ensures r[i] < r[j]
    {
      if r[i] == r[j] {
        Twice(r, i, j);
        Once(s, r[i]);
      }
    }
    forall x
      ensures x in r <==> x in s
    {
      assert x in multiset(r) <==> x in r;
      assert x in multiset(s) <==> x in s;
    }
  }

  ghost predicate Below(s: seq<int>, bound: int) {
    forall k :: 0 <= k < |s| ==> 0 <= s[k] < bound
  }

  /** A new index takes the place of an old one. */
  lemma Replace(s: seq<int>, m: nat, i: nat)
    requires Distinct(s) && Below(s, i)
    ensures Below(s, i + 1)
    ensures m < |s| ==> Distinct(s[m := i]) && Below(s[m := i], i + 1)
  {
  }

  /** Whatever rand returns on each call, the chosen indexes are n different places of the cache, in order. */
  method Sample(n: nat, slotUsed: nat, rand: nat -> nat) returns (indexes: seq<int>)
    requires n <= slotUsed && n <= MAX_EJECTED_FILES_AT_SAME_TIME
    ensures |indexes| == n && Increasing(indexes) && Below(indexes, slotUsed)
  {
    var buf := new int[MAX_EJECTED_FILES_AT_SAME_TIME];
    for i := 0 to n
      invariant forall k :: 0 <= k < i ==> buf[k] == k
    {
      buf[i] := i;
    }
    var i := n;
    while i < slotUsed && i < MAX_EJECTED_FILES_AT_SAME_TIME
      invariant n <= i <= slotUsed && buf.Length == MAX_EJECTED_FILES_AT_SAME_TIME
      invariant Distinct(buf[..n]) && Below(buf[..n], i)
    {
      hide Distinct, Below;
      var m := rand(i) % (i + 1);
      Replace(buf[..n], m, i);
      if m < n {
        ghost var was := buf[..n];
        buf[m] := i;
        assert forall k :: 0 <= k < n ==> buf[..n][k] == was[m := i][k];
        assert buf[..n] == was[m := i];
      }
      i := i + 1;
    }
    indexes := Qsort(buf[..n]);
    SortedDistinct(buf[..n], indexes);
    forall k | 0 <= k < n
      ensures 0 <= indexes[k] < slotUsed
    {
      assert indexes[k] in indexes && indexes[k] in buf[..n];
    }
  }
}
