/** The endpoint list of a connection: first occurrences in priority order, and the sticky,
    cyclic failover over it. */
module Endpoints {
  import opened Filtering
  import opened StableSort
  import opened Options

  datatype Endpoint = Endpoint(name: string, address: string, priority: int)

  datatype Parsed = Parsed(endpoint: Endpoint, base: string)

  // ---- building the list ----

  /** Normalising an address is a library call: a base URL, or an error. */
  type Normalise = string -> Option<string>

  function Declared(primary: string, extras: seq<Endpoint>): seq<Endpoint> {
    [Endpoint("primary", primary, 0)] + extras
  }

  predicate AllParse(all: seq<Endpoint>, norm: Normalise) {
    forall k | 0 <= k < |all| :: norm(all[k].address).Some?
  }

  function Bases(ps: seq<Parsed>): set<string> { set p | p in ps :: p.base }

  /** The endpoints whose base was not declared before. */
  function Firsts(all: seq<Endpoint>, norm: Normalise): seq<Parsed>
    requires AllParse(all, norm)
  {
    if all == [] then []
    else
      var init, last := all[..|all| - 1], all[|all| - 1];
      var base := norm(last.address).value;
      Firsts(init, norm) + if base in Bases(Firsts(init, norm)) then [] else [Parsed(last, base)]
  }

  predicate DistinctBases(ps: seq<Parsed>) {
    forall i, j | 0 <= i < j < |ps| :: ps[i].base != ps[j].base
  }

  lemma FirstsNext(all: seq<Endpoint>, i: nat, norm: Normalise)
    requires i < |all| && AllParse(all[..i], norm) && norm(all[i].address).Some?
    ensures AllParse(all[..i + 1], norm)
    ensures var ps, p := Firsts(all[..i], norm), Parsed(all[i], norm(all[i].address).value);
            && Firsts(all[..i + 1], norm) == (if p.base in Bases(ps) then ps else ps + [p])
            && Bases(ps + [p]) == Bases(ps) + {p.base}
  {
    assert all[..i + 1][..i] == all[..i];
    var ps, p := Firsts(all[..i], norm), Parsed(all[i], norm(all[i].address).value);
    assert forall q :: q in ps + [p] <==> q in ps || q == p;
  }

  lemma FirstsNone(norm: Normalise)
    ensures Firsts([], norm) == [] && Bases([]) == {}
  {
  }

  /** One more endpoint, of a base that is not there yet, is one more base. */
  lemma KeptNext(ps: seq<Parsed>, p: Parsed)
    requires DistinctBases(ps) && p.base !in Bases(ps)
    ensures DistinctBases(ps + [p])
  {
    assert forall i | 0 <= i < |ps| :: ps[i] in ps && ps[i].base in Bases(ps);
  }

  /** Each base is kept once, every declared base is kept, and what is kept was declared. */
  lemma {:induction false} FirstsKeepEachBase(all: seq<Endpoint>, norm: Normalise)
    requires AllParse(all, norm)
    ensures DistinctBases(Firsts(all, norm))
    ensures forall e | e in all :: norm(e.address).value in Bases(Firsts(all, norm))
    ensures forall p | p in Firsts(all, norm) :: p.endpoint in all && norm(p.endpoint.address) == Some(p.base)
  {
    hide Firsts, Bases, DistinctBases;
    FirstsNone(norm);
    if all != [] {
      var n := |all| - 1;
      FirstsKeepEachBase(all[..n], norm);
      FirstsNext(all, n, norm);
      assert all[..n + 1] == all == all[..n] + [all[n]];
      KeepsNext(all[..n], all[n], Firsts(all[..n], norm), Firsts(all, norm), norm);
    } else {
      NoBases();
    }
  }

  lemma NoBases()
    ensures DistinctBases([])
  {
  }

  /** One more declared endpoint: its base is kept now, and nothing else was added. */
  lemma KeepsNext(init: seq<Endpoint>, last: Endpoint, ps: seq<Parsed>, ps': seq<Parsed>, norm: Normalise)
    requires AllParse(init, norm) && norm(last.address).Some? && DistinctBases(ps)
    requires forall e | e in init :: norm(e.address).value in Bases(ps)
    requires forall p | p in ps :: p.endpoint in init && norm(p.endpoint.address) == Some(p.base)
    requires var p := Parsed(last, norm(last.address).value);
             ps' == (if p.base in Bases(ps) then ps else ps + [p]) && Bases(ps + [p]) == Bases(ps) + {p.base}
    ensures DistinctBases(ps')
    ensures forall e | e in init + [last] :: norm(e.address).value in Bases(ps')
    ensures forall p | p in ps' :: p.endpoint in init + [last] && norm(p.endpoint.address) == Some(p.base)
  {
    hide Bases, DistinctBases;
    var p := Parsed(last, norm(last.address).value);
    if p.base !in Bases(ps) {
      KeptNext(ps, p);
    }
  }

  predicate PriorityFirst(p: Parsed, q: Parsed) { p.endpoint.priority <= q.endpoint.priority }

  /** sort.SliceStable by priority. */
  function SortStable(ps: seq<Parsed>): (r: seq<Parsed>)
    ensures multiset(r) == multiset(ps) && |r| == |ps|
  {
    Sort(ps, PriorityFirst)
  }

  ghost predicate ByPriority(ps: seq<Parsed>) { Pairwise(ps, PriorityFirst) }

  function HasPriority(priority: int): Parsed -> bool { (p: Parsed) => p.endpoint.priority == priority }

  /** The endpoints of one priority, in their order. */
  function OfPriority(ps: seq<Parsed>, priority: int): seq<Parsed> { Keeping(ps, HasPriority(priority)) }

  lemma OfPriorityFront(ps: seq<Parsed>, priority: int)
    requires ps != []
    ensures OfPriority(ps, priority) ==
            (if ps[0].endpoint.priority == priority then [ps[0]] else []) + OfPriority(ps[1..], priority)
  {
    KeepingFront(ps[0], ps[1..], HasPriority(priority));
    assert ps == [ps[0]] + ps[1..];
  }

  /** The sorted list is in priority order and keeps the declaration order within a priority. */
  lemma SortStableOrders(ps: seq<Parsed>, priority: int)
    ensures ByPriority(SortStable(ps))
    ensures OfPriority(SortStable(ps), priority) == OfPriority(ps, priority)
  {
    SortSorts(ps, PriorityFirst);
    StableSort.SortStable(ps, PriorityFirst, HasPriority(priority));
  }

  lemma OfPriorityHolds(ps: seq<Parsed>, priority: int)
    ensures forall p :: p in OfPriority(ps, priority) <==> p in ps && p.endpoint.priority == priority
  {
    forall p ensures p in OfPriority(ps, priority) <==> p in ps && p.endpoint.priority == priority {
      KeepingHolds(ps, p, HasPriority(priority));
    }
  }

  /** Those two properties leave only one list. */
  lemma {:induction false} StableOrderUnique(xs: seq<Parsed>, ys: seq<Parsed>)
    requires ByPriority(xs) && ByPriority(ys)
    requires forall priority :: OfPriority(xs, priority) == OfPriority(ys, priority)
    ensures xs == ys
  {
    if xs != [] {
      HeadComesFirst(xs, ys);
    }
    if ys != [] {
      HeadComesFirst(ys, xs);
    }
    if xs != [] {
      var p := xs[0].endpoint.priority;
      assert ys[0].endpoint.priority == p;
      OfPriorityFront(xs, p);
      OfPriorityFront(ys, p);
      assert OfPriority(xs, p)[0] == xs[0] && OfPriority(ys, p)[0] == ys[0];
      PairwiseTail(xs, PriorityFirst);
      PairwiseTail(ys, PriorityFirst);
      forall priority ensures OfPriority(xs[1..], priority) == OfPriority(ys[1..], priority) {
        var head := if priority == p then [xs[0]] else [];
        OfPriorityFront(xs, priority);
        OfPriorityFront(ys, priority);
        SameTail(head, OfPriority(xs[1..], priority), OfPriority(ys[1..], priority));
      }
      StableOrderUnique(xs[1..], ys[1..]);
    }
  }

  lemma SameTail(head: seq<Parsed>, xs: seq<Parsed>, ys: seq<Parsed>)
    requires head + xs == head + ys
    ensures xs == ys
  {
    assert (head + xs)[|head|..] == xs && (head + ys)[|head|..] == ys;
  }

  lemma HeadComesFirst(xs: seq<Parsed>, ys: seq<Parsed>)
    requires xs != [] && ByPriority(ys)
    requires forall priority :: OfPriority(xs, priority) == OfPriority(ys, priority)
    ensures ys != [] && ys[0].endpoint.priority <= xs[0].endpoint.priority
  {
    var p := xs[0].endpoint.priority;
    OfPriorityHolds(xs, p);
    OfPriorityHolds(ys, p);
    assert xs[0] in ys;
  }

  /** The list a connection is built with. */
  function Ordered(primary: string, extras: seq<Endpoint>, norm: Normalise): seq<Parsed>
    requires AllParse(Declared(primary, extras), norm)
  {
    SortStable(Firsts(Declared(primary, extras), norm))
  }

  lemma {:induction false} PrimaryIsFirstDeclared(all: seq<Endpoint>, norm: Normalise)
    requires all != [] && AllParse(all, norm)
    ensures Firsts(all, norm) != [] && Firsts(all, norm)[0] == Parsed(all[0], norm(all[0].address).value)
  {
    if |all| > 1 {
      PrimaryIsFirstDeclared(all[..|all| - 1], norm);
    } else {
      assert Firsts(all[..0], norm) == [];
    }
  }

  predicate OtherBase(p: Parsed, q: Parsed) { p.base != q.base }

  lemma SortKeepsDistinct(ps: seq<Parsed>)
    requires DistinctBases(ps)
    ensures DistinctBases(SortStable(ps))
  {
    SortKeepsPairwise(ps, PriorityFirst, OtherBase);
    var r := SortStable(ps);
    forall i, j | 0 <= i < j < |r| ensures r[i].base != r[j].base {
      assert OtherBase(r[i], r[j]);
    }
  }

  /** A connection has at least one endpoint and no base twice, in priority order, keeping the
      declaration order within a priority. */
  lemma OrderedIsStable(primary: string, extras: seq<Endpoint>, norm: Normalise)
    requires AllParse(Declared(primary, extras), norm)
    ensures var firsts, ordered := Firsts(Declared(primary, extras), norm), Ordered(primary, extras, norm);
            && ordered != [] && DistinctBases(ordered) && ByPriority(ordered)
            && multiset(ordered) == multiset(firsts)
            && forall priority :: OfPriority(ordered, priority) == OfPriority(firsts, priority)
  {
    var firsts := Firsts(Declared(primary, extras), norm);
    FirstsKeepEachBase(Declared(primary, extras), norm);
    PrimaryIsFirstDeclared(Declared(primary, extras), norm);
    SortKeepsAll(firsts);
  }

  /** In terms of what was declared: everything is accepted when every address parses; an endpoint is in the
      list exactly when it is the primary, or the first extra of a base that is not the primary's. */
  lemma OrderedHolds(primary: string, extras: seq<Endpoint>, norm: Normalise, p: Parsed)
    ensures AllParse(Declared(primary, extras), norm) <==>
            norm(primary).Some? && forall k | 0 <= k < |extras| :: norm(extras[k].address).Some?
    ensures AllParse(Declared(primary, extras), norm) ==>
              (p in Ordered(primary, extras, norm) <==>
                 || (p.endpoint == Endpoint("primary", primary, 0) && Some(p.base) == norm(primary))
                 || (Some(p.base) != norm(primary)
                     && exists k :: FirstOfBase(extras, k, p.base, norm) && extras[k] == p.endpoint))
  {
    hide FirstOfBase;
    var all := Declared(primary, extras);
    assert all[0].address == primary && forall k | 0 <= k < |extras| :: all[k + 1] == extras[k];
    if norm(primary).Some? && forall k | 0 <= k < |extras| :: norm(extras[k].address).Some? {
      assert AllParse(all, norm);
    }
    if AllParse(all, norm) {
      FirstsHold(all, norm, p);
      SortStableHolds(Firsts(all, norm), p);
      FirstDeclared(primary, extras, norm, p);
    }
  }

  /** The `k`-th of these endpoints has the base, and none before it has. */
  predicate FirstOfBase(all: seq<Endpoint>, k: int, base: string, norm: Normalise) {
    && 0 <= k < |all| && norm(all[k].address) == Some(base)
    && forall j | 0 <= j < k :: norm(all[j].address) != Some(base)
  }

  lemma FirstOfBaseNext(all: seq<Endpoint>, last: Endpoint, k: int, base: string, norm: Normalise)
    ensures k < |all| ==> (FirstOfBase(all + [last], k, base, norm) <==> FirstOfBase(all, k, base, norm))
    ensures FirstOfBase(all + [last], |all|, base, norm) <==> norm(last.address) == Some(base) && !SomeOfBase(all, base, norm)
    ensures FirstOfBase(all + [last], k, base, norm) ==> k <= |all|
  {
    var more := all + [last];
    assert more[|all|] == last && forall j | 0 <= j < |all| :: more[j] == all[j];
    if SomeOfBase(all, base, norm) {
      var j :| 0 <= j < |all| && norm(all[j].address) == Some(base);
      assert norm(more[j].address) == Some(base);
    }
  }

  predicate SomeOfBase(all: seq<Endpoint>, base: string, norm: Normalise) {
    exists j :: 0 <= j < |all| && norm(all[j].address) == Some(base)
  }

  ghost predicate IsFirst(all: seq<Endpoint>, p: Parsed, norm: Normalise) {
    exists k :: FirstOfBase(all, k, p.base, norm) && all[k] == p.endpoint
  }

  lemma IsFirstNext(all: seq<Endpoint>, last: Endpoint, p: Parsed, norm: Normalise)
    ensures IsFirst(all + [last], p, norm) <==>
            IsFirst(all, p, norm) || (p.endpoint == last && norm(last.address) == Some(p.base) && !SomeOfBase(all, p.base, norm))
    ensures !IsFirst([], p, norm)
  {
    hide SomeOfBase;
    var more := all + [last];
    FirstOfBaseNext(all, last, |all|, p.base, norm);
    if k :| FirstOfBase(all, k, p.base, norm) && all[k] == p.endpoint {
      FirstOfBaseNext(all, last, k, p.base, norm);
      assert more[k] == all[k];
    }
    if k :| FirstOfBase(more, k, p.base, norm) && more[k] == p.endpoint {
      FirstOfBaseNext(all, last, k, p.base, norm);
      assert more[k] == if k < |all| then all[k] else last;
    }
  }

  /** An endpoint is kept exactly when it is the first of its base. */
  lemma {:induction false} FirstsHold(all: seq<Endpoint>, norm: Normalise, p: Parsed)
    requires AllParse(all, norm)
    ensures p in Firsts(all, norm) <==> IsFirst(all, p, norm)
  {
    hide Firsts, Bases, IsFirst, SomeOfBase;
    if all != [] {
      var n := |all| - 1;
      var init, last := all[..n], all[n];
      var ps, q := Firsts(init, norm), Parsed(last, norm(last.address).value);
      assert all[..n + 1] == all == init + [last];
      FirstsHold(init, norm, p);
      FirstsNext(all, n, norm);
      BasesHold(init, norm, q.base);
      IsFirstNext(init, last, p, norm);
      assert p in ps + [q] <==> p in ps || p == q;
    } else {
      FirstsNone(norm);
      IsFirstNext([], Endpoint("", "", 0), p, norm);
    }
  }

  /** The base of `p` was declared for the first time before that of `q`. */
  ghost predicate DeclaredBefore(all: seq<Endpoint>, p: Parsed, q: Parsed, norm: Normalise) {
    exists i, j :: i < j && FirstOfBase(all, i, p.base, norm) && FirstOfBase(all, j, q.base, norm)
  }

  lemma DeclaredBeforeNext(all: seq<Endpoint>, last: Endpoint, p: Parsed, q: Parsed, norm: Normalise)
    requires DeclaredBefore(all, p, q, norm)
    ensures DeclaredBefore(all + [last], p, q, norm)
  {
    var i, j :| i < j && FirstOfBase(all, i, p.base, norm) && FirstOfBase(all, j, q.base, norm);
    FirstOfBaseNext(all, last, i, p.base, norm);
    FirstOfBaseNext(all, last, j, q.base, norm);
  }

  lemma NewDeclaredLast(all: seq<Endpoint>, last: Endpoint, p: Parsed, q: Parsed, norm: Normalise)
    requires IsFirst(all, p, norm) && norm(last.address) == Some(q.base) && !SomeOfBase(all, q.base, norm)
    ensures DeclaredBefore(all + [last], p, q, norm)
  {
    hide SomeOfBase;
    var i :| FirstOfBase(all, i, p.base, norm) && all[i] == p.endpoint;
    FirstOfBaseNext(all, last, i, p.base, norm);
    FirstOfBaseNext(all, last, |all|, q.base, norm);
  }

  /** What is kept stands in the order in which it was declared. */
  lemma {:induction false} FirstsInOrder(all: seq<Endpoint>, norm: Normalise)
    requires AllParse(all, norm)
    ensures forall a, b | 0 <= a < b < |Firsts(all, norm)| ::
              DeclaredBefore(all, Firsts(all, norm)[a], Firsts(all, norm)[b], norm)
  {
    hide Firsts, Bases, IsFirst, SomeOfBase, DeclaredBefore;
    if all == [] {
      FirstsNone(norm);
    } else {
      var n := |all| - 1;
      var init, last := all[..n], all[n];
      var ps, q, all' := Firsts(init, norm), Parsed(last, norm(last.address).value), Firsts(all, norm);
      assert all[..n + 1] == all == init + [last];
      FirstsInOrder(init, norm);
      FirstsNext(all, n, norm);
      BasesHold(init, norm, q.base);
      forall a, b | 0 <= a < b < |all'| ensures DeclaredBefore(all, all'[a], all'[b], norm) {
        FirstsHold(init, norm, ps[a]);
        if b < |ps| {
          DeclaredBeforeNext(init, last, ps[a], ps[b], norm);
        } else {
          assert ps[a] in ps;
          NewDeclaredLast(init, last, ps[a], q, norm);
        }
      }
    }
  }

  lemma BasesHold(all: seq<Endpoint>, norm: Normalise, base: string)
    requires AllParse(all, norm)
    ensures base in Bases(Firsts(all, norm)) <==> SomeOfBase(all, base, norm)
  {
    FirstsKeepEachBase(all, norm);
    hide Firsts;
    if base in Bases(Firsts(all, norm)) {
      var p :| p in Firsts(all, norm) && p.base == base;
      var j :| 0 <= j < |all| && all[j] == p.endpoint;
    }
    if j :| 0 <= j < |all| && norm(all[j].address) == Some(base) {
      assert all[j] in all;
    }
  }

  lemma SortStableHolds(ps: seq<Parsed>, p: Parsed)
    ensures p in SortStable(ps) <==> p in ps
  {
    assert p in multiset(SortStable(ps)) <==> p in multiset(ps);
  }

  /** The first of its base among the primary and the extras. */
  lemma FirstDeclared(primary: string, extras: seq<Endpoint>, norm: Normalise, p: Parsed)
    ensures var all := Declared(primary, extras);
            (exists k :: FirstOfBase(all, k, p.base, norm) && all[k] == p.endpoint) <==>
              || (p.endpoint == Endpoint("primary", primary, 0) && Some(p.base) == norm(primary))
              || (Some(p.base) != norm(primary)
                  && exists k :: FirstOfBase(extras, k, p.base, norm) && extras[k] == p.endpoint)
  {
    var all := Declared(primary, extras);
    assert all[0] == Endpoint("primary", primary, 0) && forall k | 0 <= k < |extras| :: all[k + 1] == extras[k];
    assert FirstOfBase(all, 0, p.base, norm) <==> norm(primary) == Some(p.base);
    forall k | 0 <= k < |extras|
      ensures FirstOfBase(all, k + 1, p.base, norm) <==> norm(primary) != Some(p.base) && FirstOfBase(extras, k, p.base, norm)
    {
      ShiftedFirst(primary, extras, k, p.base, norm);
    }
    if k :| FirstOfBase(all, k, p.base, norm) && all[k] == p.endpoint && k > 0 {
      assert FirstOfBase(all, (k - 1) + 1, p.base, norm);
      assert FirstOfBase(extras, k - 1, p.base, norm);
    }
  }

  lemma ShiftedFirst(primary: string, extras: seq<Endpoint>, k: nat, base: string, norm: Normalise)
    requires k < |extras|
    ensures FirstOfBase(Declared(primary, extras), k + 1, base, norm) <==>
            norm(primary) != Some(base) && FirstOfBase(extras, k, base, norm)
  {
    var all := Declared(primary, extras);
    assert all[0].address == primary && forall j | 0 <= j < |extras| :: all[j + 1] == extras[j];
    assert forall j | 1 <= j < |all| :: all[j] == extras[j - 1];
  }

  lemma SortKeepsAll(ps: seq<Parsed>)
    requires ps != [] && DistinctBases(ps)
    ensures SortStable(ps) != [] && DistinctBases(SortStable(ps)) && ByPriority(SortStable(ps))
    ensures forall priority :: OfPriority(SortStable(ps), priority) == OfPriority(ps, priority)
  {
    SortKeepsDistinct(ps);
    SortStableOrders(ps, 0);
    forall priority ensures OfPriority(SortStable(ps), priority) == OfPriority(ps, priority) {
      SortStableOrders(ps, priority);
    }
  }

  /** The primary is tried first if and only if no endpoint that is kept has a negative priority. */
  lemma PrimaryFirst(primary: string, extras: seq<Endpoint>, norm: Normalise)
    requires AllParse(Declared(primary, extras), norm)
    ensures Ordered(primary, extras, norm) != [] && Firsts(Declared(primary, extras), norm) != []
    ensures Firsts(Declared(primary, extras), norm)[0].endpoint == Endpoint("primary", primary, 0)
    ensures var all := Declared(primary, extras);
            Ordered(primary, extras, norm)[0] == Firsts(all, norm)[0]
            <==> forall p | p in Firsts(all, norm) :: p.endpoint.priority >= 0
  {
    var all := Declared(primary, extras);
    var firsts, ordered := Firsts(all, norm), Ordered(primary, extras, norm);
    OrderedIsStable(primary, extras, norm);
    PrimaryIsFirstDeclared(all, norm);
    HeadOfSorted(firsts, ordered);
  }

  lemma HeadOfSorted(firsts: seq<Parsed>, ordered: seq<Parsed>)
    requires firsts != [] && ordered != [] && ByPriority(ordered)
    requires firsts[0].endpoint.priority == 0
    requires multiset(ordered) == multiset(firsts)
    requires OfPriority(ordered, 0) == OfPriority(firsts, 0)
    ensures ordered[0] == firsts[0] <==> forall p | p in firsts :: p.endpoint.priority >= 0
  {
    forall p ensures p in ordered <==> p in firsts {
      assert p in multiset(ordered) <==> p in multiset(firsts);
    }
    assert firsts[0] in ordered;
    assert ordered[0] in firsts;
    OfPriorityFront(firsts, 0);
    OfPriorityFront(ordered, 0);
    if ordered[0].endpoint.priority == 0 {
      assert OfPriority(ordered, 0)[0] == ordered[0] && OfPriority(firsts, 0)[0] == firsts[0];
    }
  }

  // ---- the connection ----

  class Connection {
    const ordered: seq<Parsed>
    var current: nat

    ghost predicate Valid()
      reads this
    {
      current < |ordered|
    }

    constructor (ordered: seq<Parsed>)
      requires ordered != []
      ensures Valid() && this.ordered == ordered && current == 0
    {
      this.ordered, current := ordered, 0;
    }

    method BaseURL() returns (base: string)
      requires Valid()
      ensures base == ordered[current].base
    {
      base := ordered[current].base;
    }

    /** Advance to the next endpoint, cyclically; false when there is nothing to rotate to. */
    method Failover() returns (rotated: bool)
      requires Valid()
      modifies this
      ensures Valid() && rotated == (|ordered| > 1)
      ensures current == if rotated then (old(current) + 1) % |ordered| else old(current)
    {
      if |ordered| <= 1 {
        return false;
      }
      current := (current + 1) % |ordered|;
      return true;
    }
  }

  /** newConnection: nothing when some declared address does not parse. */
  method NewConnection(primary: string, extras: seq<Endpoint>, norm: Normalise) returns (r: Option<Connection>)
    ensures r.Some? <==> AllParse(Declared(primary, extras), norm)
    ensures r.Some? ==> fresh(r.value) && r.value.Valid() && r.value.current == 0
                        && r.value.ordered == Ordered(primary, extras, norm)
  {
    var parsed := ParseEndpoints(Declared(primary, extras), norm);
    if parsed.None? {
      return None;
    }
    OrderedIsStable(primary, extras, norm);
    var c := new Connection(SortStable(parsed.value));
    return Some(c);
  }

  method ParseEndpoints(all: seq<Endpoint>, norm: Normalise) returns (r: Option<seq<Parsed>>)
    ensures r.Some? <==> AllParse(all, norm)
    ensures r.Some? ==> r.value == Firsts(all, norm)
  {
    hide Firsts, Bases;
    FirstsNone(norm);
    var parsed: seq<Parsed> := [];
    var seen: set<string> := {};
    for i := 0 to |all|
      invariant AllParse(all[..i], norm)
      invariant parsed == Firsts(all[..i], norm) && seen == Bases(parsed)
    {
      var base := norm(all[i].address);
      if base.None? {
        return None;
      }
      FirstsNext(all, i, norm);
      if base.value in seen {
        continue;
      }
      seen := seen + {base.value};
      parsed := parsed + [Parsed(all[i], base.value)];
    }
    assert all[..|all|] == all;
    return Some(parsed);
  }
}
