/** Which endpoints a call tries when other callers fail over between its rounds. */
module Disturbance {
  import opened RunLoop
  import opened Sorting
  import opened Interleaving

  // ---- whose failovers they are ----

  /** The failovers a run of actions made: the call's own, or those of all others. */
  function Failovers(n: nat, actions: seq<Action>, id: nat, own: bool): nat {
    if actions == [] then 0
    else
      var last := actions[|actions| - 1];
      Failovers(n, actions[..|actions| - 1], id, own) + if last.Rotate? && n > 1 && (last.id == id) == own then 1 else 0
  }

  function Begins(actions: seq<Action>, id: nat): nat {
    if actions == [] then 0
    else Begins(actions[..|actions| - 1], id) + if actions[|actions| - 1] == Begin(id) then 1 else 0
  }

  /** Action `k` is the call's `i`-th begin, and the rotations it read are the failovers of others
      before it and `i` of its own. */
  predicate ReadBy(n: nat, actions: seq<Action>, id: nat, i: nat, rotations: nat, k: nat) {
    && k < |actions| && actions[k] == Begin(id) && Begins(actions[..k], id) == i
    && rotations == Failovers(n, actions[..k], id, false) + i
  }

  ghost predicate ReadCounted(n: nat, actions: seq<Action>, id: nat, i: nat, rotations: nat) {
    exists k: nat :: ReadBy(n, actions, id, i, rotations, k)
  }

  ghost predicate ReadsCounted(n: nat, actions: seq<Action>, id: nat, seen: seq<Read>) {
    forall i | 0 <= i < |seen| :: ReadCounted(n, actions, id, i, seen[i].rotations)
  }

  predicate Tracked(s: System, actions: seq<Action>, id: nat) {
    && s.rotations == Failovers(s.n, actions, id, true) + Failovers(s.n, actions, id, false)
    && if id !in s.calls then Failovers(s.n, actions, id, true) == Begins(actions, id) == 0
       else
         var c := s.calls[id];
         && (c.phase.Starting? ==> Failovers(s.n, actions, id, true) == Begins(actions, id) == |c.seen|)
         && (c.phase.Trying? ==> Failovers(s.n, actions, id, true) == |c.seen| - 1 && Begins(actions, id) == |c.seen|)
  }

  lemma CountsNext(n: nat, actions: seq<Action>, a: Action, id: nat)
    ensures forall own :: Failovers(n, actions + [a], id, own) ==
              Failovers(n, actions, id, own) + if a.Rotate? && n > 1 && (a.id == id) == own then 1 else 0
    ensures Begins(actions + [a], id) == Begins(actions, id) + if a == Begin(id) then 1 else 0
  {
    assert (actions + [a])[..|actions|] == actions;
  }

  lemma StepTracked(s: System, actions: seq<Action>, a: Action, id: nat)
    requires Kept(s) && Enabled(s, a) && Tracked(s, actions, id)
    ensures Tracked(Do(s, a), actions + [a], id)
  {
    hide Failovers, Begins;
    CountsNext(s.n, actions, a, id);
  }

  lemma ReadGrows(n: nat, actions: seq<Action>, a: Action, id: nat, i: nat, rotations: nat)
    requires ReadCounted(n, actions, id, i, rotations)
    ensures ReadCounted(n, actions + [a], id, i, rotations)
  {
    var k: nat :| ReadBy(n, actions, id, i, rotations, k);
    assert (actions + [a])[..k] == actions[..k];
    assert ReadBy(n, actions + [a], id, i, rotations, k);
  }

  lemma ReadsGrow(n: nat, actions: seq<Action>, a: Action, id: nat, seen: seq<Read>)
    requires ReadsCounted(n, actions, id, seen)
    ensures ReadsCounted(n, actions + [a], id, seen)
  {
    forall i | 0 <= i < |seen| ensures ReadCounted(n, actions + [a], id, i, seen[i].rotations) {
      ReadGrows(n, actions, a, id, i, seen[i].rotations);
    }
  }

  /** A begin that reads is counted. */
  lemma BeginCounted(s: System, actions: seq<Action>, id: nat)
    requires Kept(s) && Enabled(s, Begin(id)) && Tracked(s, actions, id)
    requires ReadsCounted(s.n, actions, id, s.calls[id].seen)
    ensures ReadsCounted(s.n, actions + [Begin(id)], id, Begun(s, s.calls[id]).seen)
  {
    var c, more := s.calls[id], actions + [Begin(id)];
    ReadsGrow(s.n, actions, Begin(id), id, c.seen);
    assert more[..|actions|] == actions;
    assert ReadBy(s.n, more, id, |c.seen|, s.rotations, |actions|);
    LastRead(s.n, more, id, c.seen, Read(s.current, s.rotations));
  }

  lemma LastRead(n: nat, actions: seq<Action>, id: nat, seen: seq<Read>, read: Read)
    requires ReadsCounted(n, actions, id, seen) && ReadCounted(n, actions, id, |seen|, read.rotations)
    ensures ReadsCounted(n, actions, id, seen + [read])
  {
  }

  function SeenBy(s: System, id: nat): seq<Read> { if id in s.calls then s.calls[id].seen else [] }

  lemma OthersSee(s: System, a: Action, id: nat)
    requires Enabled(s, a) && a != Begin(id)
    ensures SeenBy(Do(s, a), id) == SeenBy(s, id)
  {
  }

  lemma {:induction false} RunTracked(s: System, actions: seq<Action>, id: nat)
    requires Reached(s, actions)
    ensures Tracked(s, actions, id) && ReadsCounted(s.n, actions, id, SeenBy(s, id))
    decreases |actions|
  {
    if actions != [] {
      var t, init, a := Before(s, actions), actions[..|actions| - 1], actions[|actions| - 1];
      RunTracked(t, init, id);
      RunKept(t, init);
      assert init + [a] == actions;
      StepTracked(t, init, a, id);
      hide Tracked, ReadsCounted, Kept;
      if a == Begin(id) {
        BeginCounted(t, init, id);
      } else {
        OthersSee(t, a, id);
        ReadsGrow(t.n, init, a, id, SeenBy(t, id));
      }
    }
  }

  lemma {:induction false} CountsSplit(n: nat, actions: seq<Action>, id: nat, k: nat)
    requires k <= |actions|
    ensures Failovers(n, actions, id, false) == Failovers(n, actions[..k], id, false) + Failovers(n, actions[k..], id, false)
    ensures Begins(actions, id) >= Begins(actions[..k], id)
    decreases |actions|
  {
    if k == |actions| {
      assert actions[..k] == actions;
    } else {
      var init, last := actions[..|actions| - 1], actions[|actions| - 1];
      CountsSplit(n, init, id, k);
      assert init[..k] == actions[..k] && actions[k..] == init[k..] + [last];
      CountsNext(n, init[k..], last, id);
    }
  }

  lemma LaterBegins(actions: seq<Action>, id: nat, k: nat, later: nat)
    requires k < later <= |actions| && actions[k] == Begin(id)
    ensures Begins(actions[..later], id) > Begins(actions[..k], id)
  {
    CountsSplit(0, actions[..later], id, k + 1);
    assert actions[..later][..k + 1] == actions[..k] + [Begin(id)];
    CountsNext(0, actions[..k], Begin(id), id);
  }

  /** The foreign failovers of a call's round `i` are exactly the failovers that other callers made
      between the call's first begin and the begin of that round. */
  lemma ForeignIsOthers(s: System, actions: seq<Action>, id: nat, i: nat) returns (first: nat, k: nat)
    requires Reached(s, actions) && id in s.calls && i < |s.calls[id].seen|
    ensures first <= k < |actions| && actions[first] == actions[k] == Begin(id)
    ensures Begins(actions[..first], id) == 0 && Begins(actions[..k], id) == i
    ensures Foreign(s.calls[id], i) == Failovers(s.n, actions[first..k], id, false)
  {
    var c := s.calls[id];
    RunTracked(s, actions, id);
    assert ReadCounted(s.n, actions, id, 0, c.seen[0].rotations) && ReadCounted(s.n, actions, id, i, c.seen[i].rotations);
    first :| ReadBy(s.n, actions, id, 0, c.seen[0].rotations, first);
    k :| ReadBy(s.n, actions, id, i, c.seen[i].rotations, k);
    if k < first {
      LaterBegins(actions, id, k, first);
    }
    CountsSplit(s.n, actions[..k], id, first);
    assert actions[..k][..first] == actions[..first] && actions[..k][first..] == actions[first..k];
  }

  lemma {:induction false} NoneByOthers(n: nat, actions: seq<Action>, id: nat)
    requires forall k | 0 <= k < |actions| && actions[k].Rotate? :: actions[k].id == id
    ensures Failovers(n, actions, id, false) == 0
  {
    if actions != [] {
      NoneByOthers(n, actions[..|actions| - 1], id);
    }
  }

  // ---- which endpoints are tried ----

  /** It tried an endpoint if and only if one of its rounds, moved on by the failovers of others so
      far, falls on it. */
  lemma TriedExactly(s: System, c: Call, e: nat)
    requires Kept(s) && CallKept(s, c) && c.phase == Done(Err(Exhausted)) && s.attempts > 0
    ensures |c.seen| == s.n
    ensures e in Targets(c.sends) <==> exists i :: 0 <= i < s.n && (c.seen[0].endpoint + i + Foreign(c, i)) % s.n == e
  {
    ExhaustedTried(s, c, e);
    forall i | 0 <= i < s.n ensures c.seen[i].endpoint == (c.seen[0].endpoint + i + Foreign(c, i)) % s.n {
      RoundEndpoint(s, c, i);
    }
  }

  /** It tried every endpoint if and only if no two of its rounds fell on the same one. */
  lemma AllTriedExactly(s: System, c: Call)
    requires Kept(s) && CallKept(s, c) && c.phase == Done(Err(Exhausted)) && s.attempts > 0
    ensures |c.seen| == s.n
    ensures (forall e: nat | e < s.n :: e in Targets(c.sends)) <==>
            forall i, j | 0 <= i < j < s.n ::
              (c.seen[0].endpoint + i + Foreign(c, i)) % s.n != (c.seen[0].endpoint + j + Foreign(c, j)) % s.n
  {
    var es := seq(|c.seen|, i requires 0 <= i < |c.seen| => c.seen[i].endpoint);
    forall e: nat | e < s.n ensures e in Targets(c.sends) <==> e in es {
      ExhaustedTried(s, c, e);
      assert forall i | 0 <= i < |es| :: es[i] == c.seen[i].endpoint;
    }
    ExhaustedTried(s, c, 0);
    forall i | 0 <= i < s.n ensures es[i] == (c.seen[0].endpoint + i + Foreign(c, i)) % s.n < s.n {
      RoundEndpoint(s, c, i);
    }
    Pigeonhole(es, s.n);
  }

  /** `n` numbers below `n` are all of them exactly when no two are the same. */
  lemma Pigeonhole(xs: seq<nat>, n: nat)
    requires |xs| == n && forall i | 0 <= i < n :: xs[i] < n
    ensures (forall e: nat | e < n :: e in xs) <==> Distinct(xs)
  {
    BelowIs(n);
    HeldSize(xs);
    assert Elements(xs) <= Below(n);
    if forall e: nat | e < n :: e in xs {
      assert Elements(xs) == Below(n);
    }
    if Distinct(xs) {
      forall e: nat | e < n ensures e in xs {
        if e !in xs {
          SubsetSize(Elements(xs), Below(n) - {e});
        }
      }
    }
  }

  function Below(n: nat): set<nat> { if n == 0 then {} else Below(n - 1) + {n - 1} }

  lemma {:induction false} BelowIs(n: nat)
    ensures |Below(n)| == n && forall e: nat :: e in Below(n) <==> e < n
  {
    if n > 0 {
      BelowIs(n - 1);
    }
  }

  lemma DistinctNext(xs: seq<nat>, x: nat)
    ensures Distinct(xs + [x]) <==> Distinct(xs) && x !in xs
    ensures Elements(xs + [x]) == Elements(xs) + {x}
  {
    var ys := xs + [x];
    assert forall i | 0 <= i < |xs| :: ys[i] == xs[i];
    assert ys[|xs|] == x;
  }

  lemma {:induction false} HeldSize(xs: seq<nat>)
    ensures |Elements(xs)| <= |xs| && (|Elements(xs)| == |xs| <==> Distinct(xs))
  {
    if xs != [] {
      var init, last := xs[..|xs| - 1], xs[|xs| - 1];
      HeldSize(init);
      DistinctNext(init, last);
      assert xs == init + [last];
    }
  }

  lemma {:induction false} SubsetSize(a: set<nat>, b: set<nat>)
    requires a <= b
    ensures |a| <= |b|
  {
    if a != {} {
      var x :| x in a;
      SubsetSize(a - {x}, b - {x});
    }
  }

  /** A call that reports every endpoint exhausted, and after whose first begin no other caller
      failed over, did try every endpoint. */
  lemma UndisturbedTriesAll(s: System, actions: seq<Action>, id: nat, e: nat)
    requires Reached(s, actions) && id in s.calls && s.calls[id].phase == Done(Err(Exhausted)) && s.attempts > 0
    requires forall j, k | 0 <= j < k < |actions| && actions[j] == Begin(id) && actions[k].Rotate? :: actions[k].id == id
    requires e < s.n
    ensures e in Targets(s.calls[id].sends)
  {
    var c := s.calls[id];
    RunKept(s, actions);
    forall i | 0 <= i < |c.seen| ensures Foreign(c, i) == 0 {
      var first, k := ForeignIsOthers(s, actions, id, i);
      NoneByOthers(s.n, actions[first..k], id);
    }
    NoForeignTriesAll(s, c, e);
  }

  lemma NoForeignTriesAll(s: System, c: Call, e: nat)
    requires Kept(s) && CallKept(s, c) && c.phase == Done(Err(Exhausted)) && s.attempts > 0
    requires (forall i | 0 <= i < |c.seen| :: Foreign(c, i) == 0) && e < s.n
    ensures e in Targets(c.sends)
  {
    ExhaustedTried(s, c, e);
    RoundEndpoint(s, c, 0);
    AfterIsModulo(s.start, s.n, c.seen[0].rotations);
    var i := CyclicReach(c.seen[0].endpoint, s.n, e);
    AfterIsModulo(c.seen[0].endpoint, s.n, i);
    RoundEndpoint(s, c, i);
  }
}
