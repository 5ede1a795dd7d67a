/** Small sequence utilities shared by the router model. */
module Seqs {

  /** The elements of `s` that satisfy `p`, in their original order
      (the rows a query with a WHERE clause returns). */
  function Filter<T(!new,==)>(s: seq<T>, p: T -> bool): (r: seq<T>)
    ensures |r| <= |s|
    ensures forall x :: x in r <==> x in s && p(x)
    ensures IsSubsequence(r, s)
    decreases |s|
  {
    if s == [] then []
    else
      var k := |s| - 1;
      var r := Filter(s[..k], p);
      assert forall x :: x in s <==> x in s[..k] || x == s[k];
      if p(s[k]) then r + [s[k]] else r
  }

  /** `a` is obtained from `b` by deleting elements, keeping the order. */
  predicate IsSubsequence<T(==)>(a: seq<T>, b: seq<T>)
    decreases |b|
  {
    a == [] ||
    (b != [] &&
     ((a[|a| - 1] == b[|b| - 1] && IsSubsequence(a[..|a| - 1], b[..|b| - 1])) ||
      IsSubsequence(a, b[..|b| - 1])))
  }

  /** Every element of a subsequence occurs in the sequence it was taken from. */
  lemma {:induction false} SubsequenceMembers<T>(a: seq<T>, b: seq<T>)
    requires IsSubsequence(a, b)
    ensures forall x :: x in a ==> x in b
    decreases |b|
  {
    if a != [] {
      var k := |b| - 1;
      if a[|a| - 1] == b[k] && IsSubsequence(a[..|a| - 1], b[..k]) {
        SubsequenceMembers(a[..|a| - 1], b[..k]);
        assert forall x :: x in a ==> x in a[..|a| - 1] || x == a[|a| - 1];
      } else {
        SubsequenceMembers(a, b[..k]);
      }
    }
  }
}
