/** Sorting by a total preorder, as the schedulers and the reconciler do with sort.Slice.
    Ties may come out in any order, so callers rely only on `IsSortOf`. */
module Ordering {
  import opened Listing

  ghost predicate TotalPreorder<T(!new)>(le: (T, T) -> bool) {
    && (forall x, y :: le(x, y) || le(y, x))
    && (forall x, y, z :: le(x, y) && le(y, z) ==> le(x, z))
  }

  ghost predicate Sorted<T>(s: seq<T>, le: (T, T) -> bool) {
    forall i, j :: 0 <= i < j < |s| ==> le(s[i], s[j])
  }

  /** `sorted` lists exactly the elements of `s`, in an order `le` allows. */
  ghost predicate IsSortOf<T>(sorted: seq<T>, s: seq<T>, le: (T, T) -> bool) {
    multiset(sorted) == multiset(s) && Sorted(sorted, le)
  }

  /** Where `x` belongs in a sorted sequence: after everything that may precede it. */
  method Place<T(!new)>(sorted: seq<T>, x: T, le: (T, T) -> bool) returns (at: nat)
    requires TotalPreorder(le) && Sorted(sorted, le)
    ensures at <= |sorted|
    ensures forall i :: 0 <= i < at ==> le(sorted[i], x)
    ensures forall i :: at <= i < |sorted| ==> le(x, sorted[i])
  {
    at := 0;
    while at < |sorted| && le(sorted[at], x)
      invariant 0 <= at <= |sorted|
      invariant forall i :: 0 <= i < at ==> le(sorted[i], x)
    {
      at := at + 1;
    }
  }

  lemma InsertKeepsSorted<T>(sorted: seq<T>, at: nat, x: T, le: (T, T) -> bool)
    requires Sorted(sorted, le) && at <= |sorted|
    requires forall i :: 0 <= i < at ==> le(sorted[i], x)
    requires forall i :: at <= i < |sorted| ==> le(x, sorted[i])
    ensures Sorted(sorted[..at] + [x] + sorted[at..], le)
    ensures multiset(sorted[..at] + [x] + sorted[at..]) == multiset(sorted + [x])
  {
    assert sorted == sorted[..at] + sorted[at..];
  }

  method Sort<T(!new)>(s: seq<T>, le: (T, T) -> bool) returns (sorted: seq<T>)
    requires TotalPreorder(le)
    ensures IsSortOf(sorted, s, le)
  {
    sorted := [];
    for n := 0 to |s|
      invariant IsSortOf(sorted, s[..n], le)
    {
      var at := Place(sorted, s[n], le);
      InsertKeepsSorted(sorted, at, s[n], le);
      assert s[..n + 1] == s[..n] + [s[n]];
      sorted := sorted[..at] + [s[n]] + sorted[at..];
    }
    assert s[..|s|] == s;
  }

  lemma SortHasSameElements<T(!new)>(sorted: seq<T>, s: seq<T>, le: (T, T) -> bool)
    requires IsSortOf(sorted, s, le)
    ensures |sorted| == |s|
    ensures forall x :: x in sorted <==> x in s
  {
    assert |multiset(sorted)| == |sorted|;
    forall x
      ensures x in sorted <==> x in s
    {
      assert x in sorted <==> x in multiset(sorted);
      assert x in s <==> x in multiset(s);
    }
  }

  lemma TwiceInMultiset<T>(s: seq<T>, i: nat, j: nat)
    requires i < j < |s| && s[i] == s[j]
    ensures multiset(s)[s[i]] >= 2
  {
    assert s == s[..i] + [s[i]] + s[i + 1..j] + [s[j]] + s[j + 1..];
  }

  lemma OnceInMultiset<T>(s: seq<T>, i: nat)
    requires i < |s| && Distinct(s)
    ensures multiset(s)[s[i]] == 1
  {
    assert s == s[..i] + [s[i]] + s[i + 1..];
  }

  /** Reordering keeps elements distinct. */
  lemma SortKeepsDistinct<T(!new)>(sorted: seq<T>, s: seq<T>, le: (T, T) -> bool)
    requires IsSortOf(sorted, s, le) && Distinct(s)
    ensures Distinct(sorted)
  {
    SortHasSameElements(sorted, s, le);
    forall i, j | 0 <= i < j < |sorted| ensures sorted[i] != sorted[j] {
      if sorted[i] == sorted[j] {
        assert sorted[i] in sorted;
        var a :| 0 <= a < |s| && s[a] == sorted[i];
        TwiceInMultiset(sorted, i, j);
        OnceInMultiset(s, a);
      }
    }
  }
}
