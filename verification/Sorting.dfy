/** Numeric `Array.prototype.sort` as a function, and medians of sorted lists. */
module Sorting {

  predicate IsSorted(xs: seq<int>) {
    forall i, j :: 0 <= i <= j < |xs| ==> xs[i] <= xs[j]
  }

  function Insert(xs: seq<int>, x: int): seq<int> {
    if xs == [] || xs[|xs| - 1] <= x then xs + [x]
    else Insert(xs[..|xs| - 1], x) + [xs[|xs| - 1]]
  }

  function Sort(xs: seq<int>): seq<int> {
    if xs == [] then [] else Insert(Sort(xs[..|xs| - 1]), xs[|xs| - 1])
  }

  lemma {:induction false} InsertMembers(xs: seq<int>, x: int)
    ensures multiset(Insert(xs, x)) == multiset(xs) + multiset{x}
    ensures |Insert(xs, x)| == |xs| + 1
  {
    if xs != [] && xs[|xs| - 1] > x {
      var n := |xs| - 1;
      InsertMembers(xs[..n], x);
      assert xs == xs[..n] + [xs[n]];
    }
  }

  lemma SnocSorted(xs: seq<int>, x: int)
    requires IsSorted(xs) && (xs == [] || xs[|xs| - 1] <= x)
    ensures IsSorted(xs + [x])
  {}

  lemma {:induction false} InsertSorted(xs: seq<int>, x: int)
    requires IsSorted(xs)
    ensures IsSorted(Insert(xs, x))
  {
    if xs == [] || xs[|xs| - 1] <= x {
      SnocSorted(xs, x);
    } else {
      var n := |xs| - 1;
      InsertSorted(xs[..n], x);
      InsertMembers(xs[..n], x);
      var r := Insert(xs[..n], x);
      var top := r[|r| - 1];
      assert top in multiset(r);
      assert top in xs[..n] || top == x;
      hide Insert;
      SnocSorted(r, xs[n]);
    }
  }

  /** Sorting yields the sorted rearrangement of its input. */
  lemma {:induction false} SortSorts(xs: seq<int>)
    ensures IsSorted(Sort(xs)) && multiset(Sort(xs)) == multiset(xs) && |Sort(xs)| == |xs|
  {
    if xs != [] {
      var n := |xs| - 1;
      SortSorts(xs[..n]);
      InsertSorted(Sort(xs[..n]), xs[n]);
      InsertMembers(Sort(xs[..n]), xs[n]);
      assert xs == xs[..n] + [xs[n]];
    }
  }

  /** The sorted rearrangement is unique, so the input order does not matter. */
  lemma {:induction false} SortedUnique(a: seq<int>, b: seq<int>)
    requires IsSorted(a) && IsSorted(b) && multiset(a) == multiset(b)
    ensures a == b
    decreases |a|
  {
    assert |multiset(a)| == |a| && |multiset(b)| == |b|;
    if a != [] {
      var n := |a| - 1;
      assert a[n] in multiset(b) && b[n] in multiset(a);
      assert a[n] == b[n];
      assert a == a[..n] + [a[n]] && b == b[..n] + [b[n]];
      assert multiset(a[..n]) == multiset(a) - multiset{a[n]};
      assert multiset(b[..n]) == multiset(b) - multiset{b[n]};
      SortedUnique(a[..n], b[..n]);
    }
  }

  lemma SortMembers(xs: seq<int>)
    ensures forall i :: 0 <= i < |Sort(xs)| ==> Sort(xs)[i] in xs
  {
    SortSorts(xs);
    forall i | 0 <= i < |Sort(xs)|
      ensures Sort(xs)[i] in xs
    {
      assert Sort(xs)[i] in multiset(Sort(xs));
    }
  }
}
