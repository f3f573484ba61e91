/** Walking a set in some order, as ranging over a concurrent map does: each element once, in an
    order nobody may rely on. */
module Listing {

  ghost predicate Distinct<T>(s: seq<T>) {
    forall i, j :: 0 <= i < j < |s| ==> s[i] != s[j]
  }

  /** `s` visits every element of `xs` once and nothing else. */
  ghost predicate Enumerates<T(!new)>(s: seq<T>, xs: set<T>) {
    Distinct(s) && (forall x :: x in s <==> x in xs)
  }

  method Enumerate<T(!new)>(xs: set<T>) returns (s: seq<T>)
    ensures Enumerates(s, xs)
  {
    s := [];
    var unseen := xs;
    while unseen != {}
      invariant unseen <= xs
      invariant Enumerates(s, xs - unseen)
      decreases unseen
    {
      var x :| x in unseen;
      s, unseen := s + [x], unseen - {x};
    }
  }

  lemma {:induction false} EnumerationSize<T(!new)>(s: seq<T>, xs: set<T>)
    requires Enumerates(s, xs)
    ensures |s| == |xs|
    decreases |s|
  {
    if s != [] {
      var front, x := s[..|s| - 1], s[|s| - 1];
      assert s == front + [x];
      assert Enumerates(front, xs - {x});
      EnumerationSize(front, xs - {x});
      assert xs == (xs - {x}) + {x};
    } else {
      assert xs == {};
    }
  }

  lemma {:induction false} SubsetSize<T>(a: set<T>, b: set<T>)
    requires a <= b
    ensures |a| <= |b|
    decreases a
  {
    if a == {} {
    } else {
      var x :| x in a;
      SubsetSize(a - {x}, b - {x});
    }
  }
}
