/** Counting facts about finite sequences and sets. */
module Finite {

  ghost predicate Distinct<T(!new)>(s: seq<T>) {
    forall i, j :: 0 <= i < j < |s| ==> s[i] != s[j]
  }

  lemma {:induction false} DistinctFits<T(!new)>(s: seq<T>, all: set<T>)
    requires Distinct(s) && forall x :: x in s ==> x in all
    ensures |s| <= |all|
  {
    if s != [] {
      var n := |s| - 1;
      assert s[n] in s;
      assert forall x :: x in s[..n] ==> x in s;
      DistinctFits(s[..n], all - {s[n]});
    }
  }

  lemma {:induction false} SubsetFits<T>(a: set<T>, b: set<T>)
    requires a <= b
    ensures |a| <= |b|
  {
    if a != {} {
      var x :| x in a;
      SubsetFits(a - {x}, b - {x});
    }
  }

  /** A set of naturals below n with n members is all of them. */
  lemma {:induction false} FullRange(s: set<nat>, n: nat)
    requires forall i :: i in s ==> i < n
    ensures |s| <= n
    ensures |s| == n ==> forall i :: 0 <= i < n ==> i in s
  {
    if n > 0 {
      FullRange(s - {n - 1}, n - 1);
    } else {
      assert s == {};
    }
  }
}
