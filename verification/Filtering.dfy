/** The elements of a sequence that a predicate keeps, in their order. */
module Filtering {

  function Keeping<T>(xs: seq<T>, keep: T -> bool): (r: seq<T>)
    ensures |r| <= |xs|
  {
    if xs == [] then []
    else
      var init, last := xs[..|xs| - 1], xs[|xs| - 1];
      Keeping(init, keep) + if keep(last) then [last] else []
  }

  lemma KeepingNext<T>(xs: seq<T>, x: T, keep: T -> bool)
    ensures Keeping(xs + [x], keep) == if keep(x) then Keeping(xs, keep) + [x] else Keeping(xs, keep)
  {
    assert (xs + [x])[..|xs|] == xs;
  }

  lemma KeepingNone<T>(keep: T -> bool)
    ensures Keeping([], keep) == []
  {
  }

  lemma {:induction false} KeepingHolds<T>(xs: seq<T>, x: T, keep: T -> bool)
    ensures x in Keeping(xs, keep) <==> x in xs && keep(x)
  {
    if xs != [] {
      KeepingHolds(xs[..|xs| - 1], x, keep);
      assert xs == xs[..|xs| - 1] + [xs[|xs| - 1]];
    }
  }

  lemma Regrouped<T>(a: seq<T>, b: seq<T>, c: seq<T>)
    ensures a + b + c == a + (b + c)
  {
  }

  lemma {:induction false} KeepingAppend<T>(a: seq<T>, b: seq<T>, keep: T -> bool)
    ensures Keeping(a + b, keep) == Keeping(a, keep) + Keeping(b, keep)
  {
    if b == [] {
      assert a + b == a;
      KeepingNone(keep);
    } else {
      var init, last := b[..|b| - 1], b[|b| - 1];
      KeepingAppend(a, init, keep);
      KeepingSplit(a, init, last, keep);
      assert b == init + [last];
    }
  }

  lemma KeepingSplit<T>(a: seq<T>, init: seq<T>, last: T, keep: T -> bool)
    requires Keeping(a + init, keep) == Keeping(a, keep) + Keeping(init, keep)
    ensures Keeping(a + (init + [last]), keep) == Keeping(a, keep) + Keeping(init + [last], keep)
  {
    hide Keeping;
    KeepingNext(a + init, last, keep);
    KeepingNext(init, last, keep);
    Regrouped(a, init, [last]);
    Regrouped(Keeping(a, keep), Keeping(init, keep), [last]);
  }

  lemma KeepingOne<T>(x: T, keep: T -> bool)
    ensures Keeping([x], keep) == if keep(x) then [x] else []
  {
    var none: seq<T> := [];
    assert [x][..0] == none;
  }

  lemma KeepingFront<T>(x: T, xs: seq<T>, keep: T -> bool)
    ensures Keeping([x] + xs, keep) == (if keep(x) then [x] else []) + Keeping(xs, keep)
  {
    hide Keeping;
    KeepingAppend([x], xs, keep);
    KeepingOne(x, keep);
  }

  /** Filtering in two goes is filtering by both at once. */
  lemma {:induction false} KeepingTwice<T(!new)>(xs: seq<T>, first: T -> bool, second: T -> bool, both: T -> bool)
    requires forall x :: both(x) <==> first(x) && second(x)
    ensures Keeping(Keeping(xs, first), second) == Keeping(xs, both)
  {
    if xs != [] {
      var init, last := xs[..|xs| - 1], xs[|xs| - 1];
      KeepingTwice(init, first, second, both);
      KeepingNext(Keeping(init, first), last, second);
      assert Keeping(xs, first) == if first(last) then Keeping(init, first) + [last] else Keeping(init, first);
    }
  }

  /** Nothing is lost exactly when everything is kept. */
  lemma {:induction false} KeepingAll<T>(xs: seq<T>, keep: T -> bool)
    ensures Keeping(xs, keep) == xs <==> forall x | x in xs :: keep(x)
  {
    if xs != [] {
      var init, last := xs[..|xs| - 1], xs[|xs| - 1];
      KeepingAll(init, keep);
      assert xs == init + [last];
    }
  }

  /** Conditions that agree on the elements keep the same. */
  lemma {:induction false} KeepingSame<T>(xs: seq<T>, one: T -> bool, other: T -> bool)
    requires forall x | x in xs :: one(x) <==> other(x)
    ensures Keeping(xs, one) == Keeping(xs, other)
  {
    if xs != [] {
      KeepingSame(xs[..|xs| - 1], one, other);
    }
  }
}
