/** A stable sort over any order, which the sorted lists of the other modules are instances of. */
module Sorting {

  predicate SortedBy<T>(xs: seq<T>, atMost: (T, T) -> bool) {
    forall i, j :: 0 <= i < j < |xs| ==> atMost(xs[i], xs[j])
  }

  /** Each element goes after all that are at most it. */
  function SortBy<T>(xs: seq<T>, atMost: (T, T) -> bool): seq<T> {
    if xs == [] then [] else InsertBy(SortBy(xs[..|xs| - 1], atMost), xs[|xs| - 1], atMost)
  }

  function InsertBy<T>(sorted: seq<T>, x: T, atMost: (T, T) -> bool): seq<T> {
    if sorted == [] || atMost(sorted[|sorted| - 1], x) then sorted + [x]
    else InsertBy(sorted[..|sorted| - 1], x, atMost) + [sorted[|sorted| - 1]]
  }

  ghost predicate IsOrder<T(!new)>(atMost: (T, T) -> bool) {
    && (forall a, b :: atMost(a, b) || atMost(b, a))
    && (forall a, b, c :: atMost(a, b) && atMost(b, c) ==> atMost(a, c))
  }

  lemma {:induction false} InsertByPermutes<T>(sorted: seq<T>, x: T, atMost: (T, T) -> bool)
    ensures multiset(InsertBy(sorted, x, atMost)) == multiset(sorted) + multiset{x}
    ensures forall y :: y in InsertBy(sorted, x, atMost) <==> y == x || y in sorted
  {
    if sorted != [] {
      var n := |sorted| - 1;
      assert sorted == sorted[..n] + [sorted[n]];
      if !atMost(sorted[n], x) {
        InsertByPermutes(sorted[..n], x, atMost);
      }
    }
  }

  lemma {:induction false} InsertBySorts<T(!new)>(sorted: seq<T>, x: T, atMost: (T, T) -> bool)
    requires IsOrder(atMost) && SortedBy(sorted, atMost)
    ensures SortedBy(InsertBy(sorted, x, atMost), atMost)
  {
    if sorted != [] {
      var n := |sorted| - 1;
      if atMost(sorted[n], x) {
        forall i | 0 <= i < n ensures atMost(sorted[i], x) {
          assert atMost(sorted[i], sorted[n]);
        }
      } else {
        InsertBySorts(sorted[..n], x, atMost);
        InsertByPermutes(sorted[..n], x, atMost);
        var inserted := InsertBy(sorted[..n], x, atMost);
        forall i | 0 <= i < |inserted| ensures atMost(inserted[i], sorted[n]) {
          assert inserted[i] in inserted;
        }
      }
    }
  }

  /** Sorting permutes and orders. */
  lemma {:induction false} SortBySorts<T(!new)>(xs: seq<T>, atMost: (T, T) -> bool)
    requires IsOrder(atMost)
    ensures SortedBy(SortBy(xs, atMost), atMost) && multiset(SortBy(xs, atMost)) == multiset(xs)
    ensures forall x :: x in SortBy(xs, atMost) <==> x in xs
  {
    hide InsertBy, IsOrder;
    if xs != [] {
      var n := |xs| - 1;
      SortBySorts(xs[..n], atMost);
      InsertBySorts(SortBy(xs[..n], atMost), xs[n], atMost);
      InsertByPermutes(SortBy(xs[..n], atMost), xs[n], atMost);
      assert xs == xs[..n] + [xs[n]];
    }
  }

  /** The elements of a class, in order. */
  function OfClass<T>(xs: seq<T>, class_: T -> bool): seq<T> {
    if xs == [] then [] else OfClass(xs[..|xs| - 1], class_) + if class_(xs[|xs| - 1]) then [xs[|xs| - 1]] else []
  }

  lemma OfClassSnoc<T>(xs: seq<T>, x: T, class_: T -> bool)
    ensures OfClass(xs + [x], class_) == OfClass(xs, class_) + if class_(x) then [x] else []
  {
    assert (xs + [x])[..|xs|] == xs;
  }

  lemma {:induction false} InsertByIsStable<T(!new)>(sorted: seq<T>, x: T, atMost: (T, T) -> bool, class_: T -> bool)
    requires forall a, b :: class_(a) && class_(b) ==> atMost(a, b)
    ensures OfClass(InsertBy(sorted, x, atMost), class_) == OfClass(sorted, class_) + if class_(x) then [x] else []
  {
    OfClassSnoc(sorted, x, class_);
    if sorted != [] {
      var n := |sorted| - 1;
      assert sorted == sorted[..n] + [sorted[n]];
      if !atMost(sorted[n], x) {
        InsertByIsStable(sorted[..n], x, atMost, class_);
        OfClassSnoc(InsertBy(sorted[..n], x, atMost), sorted[n], class_);
      }
    }
  }

  /** Elements that are at most each other keep their order. */
  lemma {:induction false} SortByIsStable<T(!new)>(xs: seq<T>, atMost: (T, T) -> bool, class_: T -> bool)
    requires forall a, b :: class_(a) && class_(b) ==> atMost(a, b)
    ensures OfClass(SortBy(xs, atMost), class_) == OfClass(xs, class_)
  {
    hide InsertBy;
    if xs != [] {
      SortByIsStable(xs[..|xs| - 1], atMost, class_);
      InsertByIsStable(SortBy(xs[..|xs| - 1], atMost), xs[|xs| - 1], atMost, class_);
    }
  }
}
