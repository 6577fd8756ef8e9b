/** The byte-wise order on strings, sorted sequences of strings, and the one strictly
    sorted listing every finite set of strings has. */
module Sorting {
  import opened StableSort

  predicate Less(a: string, b: string) {
    if b == "" then false
    else if a == "" then true
    else a[0] < b[0] || (a[0] == b[0] && Less(a[1..], b[1..]))
  }

  lemma {:induction false} LessTrichotomy(a: string, b: string)
    ensures Less(a, b) || a == b || Less(b, a)
    ensures !(Less(a, b) && Less(b, a))
    ensures !Less(a, a)
  {
    if a != "" {
      if b != "" {
        LessTrichotomy(a[1..], b[1..]);
        if a[0] == b[0] && a[1..] == b[1..] {
          assert a == [a[0]] + a[1..] == b;
        }
      }
      LessTrichotomy(a[1..], a[1..]);
    }
  }

  lemma {:induction false} LessTransitive(a: string, b: string, c: string)
    requires Less(a, b) && Less(b, c)
    ensures Less(a, c)
  {
    if a != "" && a[0] == b[0] && b[0] == c[0] {
      LessTransitive(a[1..], b[1..], c[1..]);
    }
  }

  /** At position `k` they differ for the first time, and `a` ends there or has the smaller character. */
  predicate SmallerAt(a: string, b: string, k: int) {
    0 <= k <= |a| && k < |b| && a[..k] == b[..k] && (k == |a| || a[k] < b[k])
  }

  ghost predicate ComesBefore(a: string, b: string) { exists k :: SmallerAt(a, b, k) }

  /** The order is that of the first difference, and a prefix comes first. */
  lemma {:induction false} LessExactly(a: string, b: string)
    ensures Less(a, b) <==> ComesBefore(a, b)
  {
    if a != "" && b != "" && a[0] == b[0] {
      LessExactly(a[1..], b[1..]);
      forall k | SmallerAt(a[1..], b[1..], k) ensures SmallerAt(a, b, k + 1) {
        assert a[..k + 1] == [a[0]] + a[1..][..k] == [b[0]] + b[1..][..k] == b[..k + 1];
      }
      forall k | SmallerAt(a, b, k) ensures SmallerAt(a[1..], b[1..], k - 1) {
        assert k > 0;
        assert a[1..][..k - 1] == a[..k][1..] == b[..k][1..] == b[1..][..k - 1];
      }
    } else if b != "" {
      assert a == "" || a[0] < b[0] ==> SmallerAt(a, b, 0);
      forall k | 0 < k <= |a| && k <= |b| ensures !SmallerAt(a, b, k) {
        assert a[..k][0] == a[0] && b[..k][0] == b[0];
      }
    }
  }

  /** Each string comes before every later one. */
  ghost predicate Ascending(xs: seq<string>) {
    forall i, j | 0 <= i < j < |xs| :: ComesBefore(xs[i], xs[j])
  }

  lemma AscendingIs(xs: seq<string>)
    ensures StrictlySorted(xs) <==> Ascending(xs)
  {
    hide Less, ComesBefore;
    forall i, j | 0 <= i < j < |xs| ensures Less(xs[i], xs[j]) <==> ComesBefore(xs[i], xs[j]) {
      LessExactly(xs[i], xs[j]);
    }
  }

  predicate StrictlySorted(xs: seq<string>) {
    forall i, j | 0 <= i < j < |xs| :: Less(xs[i], xs[j])
  }

  function Elements<T>(xs: seq<T>): set<T> { set x | x in xs }

  lemma NoElements(xs: seq<string>)
    ensures Elements(xs) == {} <==> xs == []
  {
    if xs != [] {
      assert xs[0] in Elements(xs);
    }
  }

  predicate Distinct<T(==)>(xs: seq<T>) {
    forall i, j | 0 <= i < j < |xs| :: xs[i] != xs[j]
  }

  /** The order sort.Strings sorts by. */
  predicate InOrder(a: string, b: string) { !Less(b, a) }

  lemma InOrderIsTotal()
    ensures TotalOrder(InOrder)
  {
    forall x, y ensures InOrder(x, y) || InOrder(y, x) {
      LessTrichotomy(x, y);
    }
    forall x, y, z | InOrder(x, y) && InOrder(y, z) ensures InOrder(x, z) {
      InOrderTransitive(x, y, z);
    }
  }

  lemma InOrderTransitive(x: string, y: string, z: string)
    requires InOrder(x, y) && InOrder(y, z)
    ensures InOrder(x, z)
  {
    LessTrichotomy(x, y);
    LessTrichotomy(y, z);
    LessTrichotomy(x, z);
    if x != y && y != z {
      LessTransitive(x, y, z);
    }
  }

  predicate Different(a: string, b: string) { a != b }

  /** sort.Strings: the same elements, in order. */
  function SortStrings(xs: seq<string>): seq<string> { Sort(xs, InOrder) }

  lemma SortDistinct(xs: seq<string>)
    requires Distinct(xs)
    ensures StrictlySorted(SortStrings(xs))
    ensures Elements(SortStrings(xs)) == Elements(xs)
  {
    hide Less;
    InOrderIsTotal();
    SortSorts(xs, InOrder);
    SortKeepsPairwise(xs, InOrder, Different);
    SortHolds(xs, InOrder);
    var ys := SortStrings(xs);
    forall i, j | 0 <= i < j < |ys| ensures Less(ys[i], ys[j]) {
      assert InOrder(ys[i], ys[j]) && Different(ys[i], ys[j]);
      LessTrichotomy(ys[i], ys[j]);
    }
  }

  /** A set of strings has only one strictly sorted listing. */
  lemma {:induction false} SortedListingUnique(xs: seq<string>, ys: seq<string>)
    requires StrictlySorted(xs) && StrictlySorted(ys)
    requires Elements(xs) == Elements(ys)
    ensures xs == ys
  {
    NoElements(xs);
    NoElements(ys);
    if xs != [] {
      assert xs[0] in Elements(ys);
      var x, y := xs[0], ys[0];
      assert y in Elements(xs);
      LessTrichotomy(x, y);
      assert x == y by {
        var i :| 0 <= i < |ys| && ys[i] == x;
        var j :| 0 <= j < |xs| && xs[j] == y;
      }
      assert Elements(xs[1..]) == Elements(xs) - {x} by {
        LessTrichotomy(x, x);
        assert xs == [x] + xs[1..];
      }
      assert Elements(ys[1..]) == Elements(ys) - {x} by {
        LessTrichotomy(x, x);
        assert ys == [x] + ys[1..];
      }
      SortedListingUnique(xs[1..], ys[1..]);
    }
  }

  lemma OneMoreDistinct(x: string, xs: seq<string>)
    requires StrictlySorted(xs) && x !in Elements(xs)
    ensures Distinct([x] + xs) && Elements([x] + xs) == Elements(xs) + {x}
  {
    hide Less;
    forall i, j | 0 <= i < j < |xs| ensures xs[i] != xs[j] {
      LessTrichotomy(xs[i], xs[j]);
    }
    assert forall y :: y in [x] + xs <==> y == x || y in xs;
  }

  /** The strictly sorted listing of a set. */
  ghost function Listing(s: set<string>): (xs: seq<string>)
    ensures StrictlySorted(xs) && Elements(xs) == s
  {
    if s == {} then []
    else
      var x :| x in s;
      var rest := Listing(s - {x});
      OneMoreDistinct(x, rest);
      SortDistinct([x] + rest);
      SortStrings([x] + rest)
  }

  lemma ListingIs(xs: seq<string>)
    requires StrictlySorted(xs)
    ensures xs == Listing(Elements(xs))
  {
    SortedListingUnique(xs, Listing(Elements(xs)));
  }

  /** Item `x` comes before item `y` for the first time. */
  ghost predicate SeenBefore(xs: seq<string>, x: string, y: string) { exists i :: 0 <= i < |xs| && xs[i] == x && y !in xs[..i + 1] }

  lemma SeenBeforeNext(xs: seq<string>, x: string, y: string, last: string)
    requires SeenBefore(xs, x, y)
    ensures SeenBefore(xs + [last], x, y)
  {
    var i :| 0 <= i < |xs| && xs[i] == x && y !in xs[..i + 1];
    assert (xs + [last])[..i + 1] == xs[..i + 1];
  }

  lemma NewComesLast(xs: seq<string>, x: string, y: string)
    requires x in xs && y !in xs
    ensures SeenBefore(xs + [y], x, y)
  {
    var i :| 0 <= i < |xs| && xs[i] == x;
    assert (xs + [y])[..i + 1] == xs[..i + 1];
  }

  /** The first occurrences stand in the order in which they were first seen. */
  lemma {:induction false} FirstOccurrencesInOrder(xs: seq<string>)
    ensures forall i, j | 0 <= i < j < |FirstOccurrences(xs)| ::
              SeenBefore(xs, FirstOccurrences(xs)[i], FirstOccurrences(xs)[j])
  {
    if xs != [] {
      hide SeenBefore;
      var init, last := xs[..|xs| - 1], xs[|xs| - 1];
      FirstOccurrencesInOrder(init);
      assert xs == init + [last];
      var r, r' := FirstOccurrences(init), FirstOccurrences(xs);
      forall i, j | 0 <= i < j < |r'| ensures SeenBefore(xs, r'[i], r'[j]) {
        if j < |r| {
          SeenBeforeNext(init, r[i], r[j], last);
        } else {
          assert r[i] in r;
          NewComesLast(init, r[i], last);
        }
      }
    }
  }

  /** Each item at its first place only. */
  function FirstOccurrences(xs: seq<string>): (r: seq<string>)
    ensures forall x :: x in r <==> x in xs
    ensures Distinct(r)
  {
    if xs == [] then []
    else
      var init, last := xs[..|xs| - 1], xs[|xs| - 1];
      assert forall x :: x in xs <==> x in init || x == last;
      FirstOccurrences(init) + if last in init then [] else [last]
  }
}
