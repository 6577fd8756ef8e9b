/** Insertion sort by any order: the specification of the library's sorts. */
module StableSort {
  import opened Filtering

  /** `x` placed before the first element it may precede. */
  function Insert<T>(x: T, xs: seq<T>, first: (T, T) -> bool): (ys: seq<T>)
    ensures multiset(ys) == multiset(xs) + multiset{x} && |ys| == |xs| + 1
  {
    if xs == [] || first(x, xs[0]) then [x] + xs
    else
      assert xs == [xs[0]] + xs[1..];
      [xs[0]] + Insert(x, xs[1..], first)
  }

  /** The elements in order, those of equal rank in the order they came. */
  function Sort<T>(xs: seq<T>, first: (T, T) -> bool): (ys: seq<T>)
    ensures multiset(ys) == multiset(xs) && |ys| == |xs|
  {
    if xs == [] then []
    else
      assert xs == [xs[0]] + xs[1..];
      Insert(xs[0], Sort(xs[1..], first), first)
  }

  lemma InsertHolds<T>(x: T, xs: seq<T>, first: (T, T) -> bool)
    ensures forall y :: y in Insert(x, xs, first) <==> y == x || y in xs
  {
    var ys := Insert(x, xs, first);
    hide Insert;
    assert forall y :: y in ys <==> y in multiset(ys);
    assert forall y :: y in xs <==> y in multiset(xs);
  }

  lemma SortHolds<T>(xs: seq<T>, first: (T, T) -> bool)
    ensures forall y :: y in Sort(xs, first) <==> y in xs
  {
    var ys := Sort(xs, first);
    hide Sort;
    assert forall y :: y in ys <==> y in multiset(ys);
    assert forall y :: y in xs <==> y in multiset(xs);
  }

  ghost predicate TotalOrder<T(!new)>(first: (T, T) -> bool) {
    && (forall x, y :: first(x, y) || first(y, x))
    && forall x, y, z :: first(x, y) && first(y, z) ==> first(x, z)
  }

  /** Every element is related to every later one. */
  ghost predicate Pairwise<T>(xs: seq<T>, related: (T, T) -> bool) {
    forall i, j | 0 <= i < j < |xs| :: related(xs[i], xs[j])
  }

  lemma PairwiseCons<T>(x: T, xs: seq<T>, related: (T, T) -> bool)
    requires Pairwise(xs, related) && forall y | y in xs :: related(x, y)
    ensures Pairwise([x] + xs, related)
  {
  }

  lemma PairwiseTail<T>(xs: seq<T>, related: (T, T) -> bool)
    requires Pairwise(xs, related) && xs != []
    ensures Pairwise(xs[1..], related) && forall y | y in xs[1..] :: related(xs[0], y)
  {
    forall k | 0 <= k < |xs[1..]| ensures related(xs[0], xs[1..][k]) { }
  }

  lemma {:induction false} InsertSorts<T(!new)>(x: T, xs: seq<T>, first: (T, T) -> bool)
    requires TotalOrder(first) && Pairwise(xs, first)
    ensures Pairwise(Insert(x, xs, first), first)
  {
    if xs != [] {
      PairwiseTail(xs, first);
      if first(x, xs[0]) {
        assert forall y | y in xs :: y == xs[0] || y in xs[1..];
        PairwiseCons(x, xs, first);
      } else {
        InsertSorts(x, xs[1..], first);
        InsertHolds(x, xs[1..], first);
        PairwiseCons(xs[0], Insert(x, xs[1..], first), first);
      }
    }
  }

  lemma {:induction false} SortSorts<T(!new)>(xs: seq<T>, first: (T, T) -> bool)
    requires TotalOrder(first)
    ensures Pairwise(Sort(xs, first), first)
  {
    if xs != [] {
      SortSorts(xs[1..], first);
      InsertSorts(xs[0], Sort(xs[1..], first), first);
    }
  }

  ghost predicate Symmetric<T(!new)>(related: (T, T) -> bool) { forall x, y :: related(x, y) ==> related(y, x) }

  lemma {:induction false} InsertKeepsPairwise<T(!new)>(x: T, xs: seq<T>, first: (T, T) -> bool, related: (T, T) -> bool)
    requires Symmetric(related) && Pairwise(xs, related) && forall y | y in xs :: related(x, y)
    ensures Pairwise(Insert(x, xs, first), related)
  {
    if xs == [] || first(x, xs[0]) {
      PairwiseCons(x, xs, related);
    } else {
      PairwiseTail(xs, related);
      InsertKeepsPairwise(x, xs[1..], first, related);
      InsertHolds(x, xs[1..], first);
      PairwiseCons(xs[0], Insert(x, xs[1..], first), related);
    }
  }

  /** A symmetric relation that holds between any two elements still does after sorting. */
  lemma {:induction false} SortKeepsPairwise<T(!new)>(xs: seq<T>, first: (T, T) -> bool, related: (T, T) -> bool)
    requires Symmetric(related) && Pairwise(xs, related)
    ensures Pairwise(Sort(xs, first), related)
  {
    if xs != [] {
      PairwiseTail(xs, related);
      SortKeepsPairwise(xs[1..], first, related);
      SortHolds(xs[1..], first);
      InsertKeepsPairwise(xs[0], Sort(xs[1..], first), first, related);
    }
  }

  lemma Swapped<T>(h: seq<T>, k: seq<T>, t: seq<T>)
    requires h == [] || k == []
    ensures h + (k + t) == k + (h + t)
  {
  }

  lemma {:induction false} InsertStable<T>(x: T, xs: seq<T>, first: (T, T) -> bool, keep: T -> bool)
    requires forall y | y in xs && keep(x) && keep(y) :: first(x, y)
    ensures Keeping(Insert(x, xs, first), keep) == (if keep(x) then [x] else []) + Keeping(xs, keep)
  {
    hide Keeping;
    if xs == [] || first(x, xs[0]) {
      KeepingFront(x, xs, keep);
    } else {
      var tail := xs[1..];
      InsertStable(x, tail, first, keep);
      KeepingFront(xs[0], Insert(x, tail, first), keep);
      KeepingFront(xs[0], tail, keep);
      Swapped(if keep(xs[0]) then [xs[0]] else [], if keep(x) then [x] else [], Keeping(tail, keep));
      assert xs == [xs[0]] + tail;
    }
  }

  /** Elements of equal rank keep their order. */
  lemma {:induction false} SortStable<T(!new)>(xs: seq<T>, first: (T, T) -> bool, keep: T -> bool)
    requires forall x, y | keep(x) && keep(y) :: first(x, y)
    ensures Keeping(Sort(xs, first), keep) == Keeping(xs, keep)
  {
    if xs != [] {
      hide Keeping, Insert;
      SortStable(xs[1..], first, keep);
      InsertStable(xs[0], Sort(xs[1..], first), first, keep);
      KeepingFront(xs[0], xs[1..], keep);
      assert xs == [xs[0]] + xs[1..];
    }
  }
}
