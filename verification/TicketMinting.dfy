/** Any number of callers refreshing one set of user credentials.  Each step is one read or write
    under a lock; the clock may advance between any two of them, but never goes back. */
module TicketMinting {
  import opened Options
  import opened Tickets

  /** Waiting for the mint lock; holding it, before the second check; past the check, with the
      mint request under way; its reply read and stamped, the ticket not yet stored; returned. */
  datatype Phase = Waiting(force: bool) | Holding(force: bool) | Minting(force: bool)
    | Storing(force: bool, at: int) | Returned

  datatype Mint = Mint(at: int, forced: bool)

  datatype System = System(now: int, expiry: Option<int>, lock: Option<nat>, callers: map<nat, Phase>, mints: seq<Mint>)

  datatype Action = Tick(elapsed: nat) | Arrive(id: nat, force: bool) | Acquire(id: nat) | Recheck(id: nat)
    | Refused(id: nat) | Stamp(id: nat) | Store(id: nat)

  function Initial(now: int): System { System(now, None, None, map[], []) }

  /** A caller comes to refresh because its own check found the ticket stale, or, forced, because
      the server called it expired. */
  predicate Enabled(s: System, a: Action) {
    match a
    case Tick(_) => true
    case Arrive(id, force) => id !in s.callers && (force || Stale(s.expiry, s.now))
    case Acquire(id) => s.lock.None? && id in s.callers && s.callers[id].Waiting?
    case Recheck(id) => id in s.callers && s.callers[id].Holding?
    case Refused(id) => id in s.callers && s.callers[id].Minting?
    case Stamp(id) => id in s.callers && s.callers[id].Minting?
    case Store(id) => id in s.callers && s.callers[id].Storing?
  }

  function Do(s: System, a: Action): System
    requires Enabled(s, a)
  {
    match a
    case Tick(elapsed) => s.(now := s.now + elapsed)
    case Arrive(id, force) => s.(callers := s.callers[id := Waiting(force)])
    case Acquire(id) => s.(lock := Some(id), callers := s.callers[id := Holding(s.callers[id].force)])
    case Recheck(id) =>
      if !s.callers[id].force && !Stale(s.expiry, s.now) then Released(s, id)
      else s.(callers := s.callers[id := Minting(s.callers[id].force)])
    case Refused(id) => Released(s, id)
    case Stamp(id) => s.(callers := s.callers[id := Storing(s.callers[id].force, s.now)])
    case Store(id) =>
      var p := s.callers[id];
      Released(s, id).(expiry := Some(p.at + LIFETIME), mints := s.mints + [Mint(p.at, p.force)])
  }

  function Released(s: System, id: nat): System { s.(lock := None, callers := s.callers[id := Returned]) }

  function Run(s: System, actions: seq<Action>): Option<System> {
    if actions == [] then Some(s)
    else
      match Run(s, actions[..|actions| - 1])
      case None => None
      case Some(t) => if Enabled(t, actions[|actions| - 1]) then Some(Do(t, actions[|actions| - 1])) else None
  }

  // ---- what every run keeps ----

  /** How long after one mint the next unforced one comes at the earliest: 115 minutes. */
  const GAP: int := LIFETIME - SKEW

  predicate Spaced(mints: seq<Mint>, m: Mint) {
    mints != [] ==> var last := mints[|mints| - 1].at;
                    last <= m.at && (!m.forced ==> m.at - last > GAP)
  }

  predicate InCritical(p: Phase) { p.Holding? || p.Minting? || p.Storing? }

  predicate PhaseKept(s: System, p: Phase) {
    match p
    case Minting(force) => Spaced(s.mints, Mint(s.now, force))
    case Storing(force, at) => at <= s.now && Spaced(s.mints, Mint(at, force))
    case _ => true
  }

  /** Every mint is spaced from the ones before it. */
  predicate AllSpaced(mints: seq<Mint>) {
    mints == [] || (AllSpaced(mints[..|mints| - 1]) && Spaced(mints[..|mints| - 1], mints[|mints| - 1]))
  }

  predicate Kept(s: System) {
    && s.expiry == (if s.mints == [] then None else Some(s.mints[|s.mints| - 1].at + LIFETIME))
    && (s.mints != [] ==> s.mints[|s.mints| - 1].at <= s.now)
    && AllSpaced(s.mints)
    && (forall id | id in s.callers :: InCritical(s.callers[id]) <==> s.lock == Some(id))
    && (s.lock.Some? ==> s.lock.value in s.callers && PhaseKept(s, s.callers[s.lock.value]))
  }

  lemma OneMoreSpaced(mints: seq<Mint>, m: Mint)
    requires AllSpaced(mints) && Spaced(mints, m)
    ensures AllSpaced(mints + [m])
  {
    assert (mints + [m])[..|mints|] == mints;
  }

  lemma TickKept(s: System, elapsed: nat)
    requires Kept(s)
    ensures Kept(Do(s, Tick(elapsed)))
  {
    hide AllSpaced;
  }

  lemma ArriveKept(s: System, a: Action)
    requires Kept(s) && a.Arrive? && Enabled(s, a)
    ensures Kept(Do(s, a))
  {
    hide AllSpaced, Spaced;
  }

  lemma AcquireKept(s: System, a: Action)
    requires Kept(s) && a.Acquire? && Enabled(s, a)
    ensures Kept(Do(s, a))
  {
    hide AllSpaced, Spaced;
  }

  lemma ReleasedKept(s: System, id: nat)
    requires Kept(s) && s.lock == Some(id)
    ensures Kept(Released(s, id))
  {
    hide AllSpaced, Spaced;
  }

  /** The second check lets an unforced caller through only when the last mint is old enough. */
  lemma RecheckKept(s: System, a: Action)
    requires Kept(s) && a.Recheck? && Enabled(s, a)
    ensures Kept(Do(s, a))
  {
    hide AllSpaced;
    assert s.lock == Some(a.id);
    if !s.callers[a.id].force && !Stale(s.expiry, s.now) {
      ReleasedKept(s, a.id);
    }
  }

  lemma StampKept(s: System, a: Action)
    requires Kept(s) && a.Stamp? && Enabled(s, a)
    ensures Kept(Do(s, a))
  {
    hide AllSpaced, Spaced;
    assert s.lock == Some(a.id);
  }

  lemma MintAdded(s: System, m: Mint)
    requires Kept(s) && s.lock.None? && Spaced(s.mints, m) && m.at <= s.now
    ensures Kept(s.(expiry := Some(m.at + LIFETIME), mints := s.mints + [m]))
  {
    hide AllSpaced, Spaced, InCritical;
    OneMoreSpaced(s.mints, m);
  }

  lemma StoringSpaced(s: System, id: nat)
    requires Kept(s) && id in s.callers && s.callers[id].Storing?
    ensures s.lock == Some(id) && s.callers[id].at <= s.now
    ensures Spaced(s.mints, Mint(s.callers[id].at, s.callers[id].force))
  {
    hide AllSpaced, Spaced;
    assert InCritical(s.callers[id]);
  }

  lemma StoreKept(s: System, a: Action)
    requires Kept(s) && a.Store? && Enabled(s, a)
    ensures Kept(Do(s, a))
  {
    hide Kept, Spaced;
    StoringSpaced(s, a.id);
    ReleasedKept(s, a.id);
    MintAdded(Released(s, a.id), Mint(s.callers[a.id].at, s.callers[a.id].force));
  }

  lemma StepKept(s: System, a: Action)
    requires Kept(s) && Enabled(s, a)
    ensures Kept(Do(s, a))
  {
    match a {
      case Tick(elapsed) => TickKept(s, elapsed);
      case Arrive(_, _) => ArriveKept(s, a);
      case Acquire(_) => AcquireKept(s, a);
      case Recheck(_) => RecheckKept(s, a);
      case Refused(id) => ReleasedKept(s, id);
      case Stamp(_) => StampKept(s, a);
      case Store(_) => StoreKept(s, a);
    }
  }

  predicate Reached(start: int, s: System, actions: seq<Action>) { Run(Initial(start), actions) == Some(s) }

  lemma {:induction false} RunKept(start: int, s: System, actions: seq<Action>)
    requires Reached(start, s, actions)
    ensures Kept(s)
    decreases |actions|
  {
    if actions != [] {
      var t := Run(Initial(start), actions[..|actions| - 1]).value;
      RunKept(start, t, actions[..|actions| - 1]);
      StepKept(t, actions[|actions| - 1]);
    }
  }

  // ---- mints ----

  lemma {:induction false} LastIsSpaced(mints: seq<Mint>, i: nat)
    requires AllSpaced(mints) && i + 1 < |mints|
    ensures mints[i].at <= mints[|mints| - 1].at
    ensures !mints[|mints| - 1].forced ==> mints[|mints| - 1].at - mints[i].at > GAP
  {
    if i + 2 < |mints| {
      LastIsSpaced(mints[..|mints| - 1], i);
    }
  }

  lemma {:induction false} PrefixSpaced(mints: seq<Mint>, k: nat)
    requires AllSpaced(mints) && k <= |mints|
    ensures AllSpaced(mints[..k])
  {
    if k < |mints| {
      PrefixSpaced(mints[..|mints| - 1], k);
      assert mints[..|mints| - 1][..k] == mints[..k];
    } else {
      assert mints[..k] == mints;
    }
  }

  /** An unforced mint comes more than 115 minutes after every mint before it, forced or not. */
  lemma UnforcedMintsSpaced(start: int, s: System, actions: seq<Action>, i: nat, j: nat)
    requires Reached(start, s, actions) && i < j < |s.mints| && !s.mints[j].forced
    ensures s.mints[j].at - s.mints[i].at > GAP == 115 * 60 * 1_000_000_000
  {
    RunKept(start, s, actions);
    PrefixSpaced(s.mints, j + 1);
    LastIsSpaced(s.mints[..j + 1], i);
  }

  function Unforced(mints: seq<Mint>): nat {
    if mints == [] then 0
    else Unforced(mints[..|mints| - 1]) + if mints[|mints| - 1].forced then 0 else 1
  }

  lemma {:induction false} UnforcedSpan(mints: seq<Mint>)
    requires AllSpaced(mints) && mints != []
    ensures (Unforced(mints) - 1) * GAP <= mints[|mints| - 1].at - mints[0].at
  {
    var init := mints[..|mints| - 1];
    if init == [] {
      assert Unforced(init) == 0;
    } else {
      UnforcedSpan(init);
      assert (Unforced(init) + 1 - 1) * GAP == (Unforced(init) - 1) * GAP + GAP;
    }
  }

  /** However many callers there are, their unforced mints number at most one for every 115
      minutes since the first mint, and one more. */
  lemma UnforcedMintsRare(start: int, s: System, actions: seq<Action>)
    requires Reached(start, s, actions) && s.mints != []
    ensures (Unforced(s.mints) - 1) * GAP <= s.now - s.mints[0].at
  {
    RunKept(start, s, actions);
    UnforcedSpan(s.mints);
  }

  /** The stored expiry is two hours after the last mint, and no step takes it back. */
  lemma ExpiryNeverDecreases(start: int, s: System, actions: seq<Action>, a: Action)
    requires Reached(start, s, actions) && Enabled(s, a)
    ensures s.expiry.Some? <==> s.mints != []
    ensures s.expiry.Some? ==> s.expiry.value == s.mints[|s.mints| - 1].at + LIFETIME
    ensures s.expiry.Some? ==> Do(s, a).expiry.Some? && Do(s, a).expiry.value >= s.expiry.value
  {
    RunKept(start, s, actions);
  }

  /** The second check, under the lock: a caller that waited while another minted returns without
      minting, unless it is forced or the last mint is more than 115 minutes old. */
  lemma RecheckMints(start: int, s: System, actions: seq<Action>, id: nat)
    requires Reached(start, s, actions) && Enabled(s, Recheck(id))
    ensures Do(s, Recheck(id)).callers[id].Minting? <==>
            s.callers[id].force || s.mints == [] || s.now - s.mints[|s.mints| - 1].at > GAP
  {
    RunKept(start, s, actions);
  }

  /** At most one caller is minting at any time, and while a caller has not returned some caller
      can take a step. */
  lemma OneMinterNoDeadlock(start: int, s: System, actions: seq<Action>, id: nat, other: nat)
    requires Reached(start, s, actions)
    requires id in s.callers && other in s.callers && !s.callers[id].Returned?
    ensures InCritical(s.callers[id]) && InCritical(s.callers[other]) ==> id == other
    ensures exists a: Action :: !a.Tick? && !a.Arrive? && Enabled(s, a)
  {
    RunKept(start, s, actions);
    if s.lock.None? {
      assert Enabled(s, Acquire(id));
    } else {
      var holder := s.lock.value;
      assert Enabled(s, Recheck(holder)) || Enabled(s, Stamp(holder)) || Enabled(s, Store(holder));
    }
  }

  // ---- forced mints repeat ----

  lemma Extended(start: int, s: System, actions: seq<Action>, a: Action) returns (t: System, more: seq<Action>)
    requires Reached(start, s, actions) && Enabled(s, a)
    ensures t == Do(s, a) && more == actions + [a] && Reached(start, t, more)
  {
    t, more := Do(s, a), actions + [a];
    assert more[..|actions|] == actions;
  }

  /** A caller that goes through a whole refresh. */
  lemma Refreshed(start: int, s: System, actions: seq<Action>, id: nat, force: bool)
    returns (t: System, more: seq<Action>)
    requires Reached(start, s, actions) && s.lock.None? && id !in s.callers
    requires force || Stale(s.expiry, s.now)
    ensures Reached(start, t, more) && t.mints == s.mints + [Mint(s.now, force)] && t.now == s.now
    ensures t.lock.None? && t.callers.Keys == s.callers.Keys + {id}
  {
    t, more := Extended(start, s, actions, Arrive(id, force));
    t, more := Extended(start, t, more, Acquire(id));
    t, more := Extended(start, t, more, Recheck(id));
    t, more := Extended(start, t, more, Stamp(id));
    t, more := Extended(start, t, more, Store(id));
  }

  /** The spacing is a promise about unforced mints only: forced ones can follow a mint, and each
      other, in the same instant. */
  lemma ForcedMintsRepeat(start: int) returns (s: System, actions: seq<Action>)
    ensures Reached(start, s, actions) && s.mints == [Mint(start, false), Mint(start, true), Mint(start, true)]
  {
    s, actions := Initial(start), [];
    s, actions := Refreshed(start, s, actions, 0, false);
    s, actions := Refreshed(start, s, actions, 1, true);
    s, actions := Refreshed(start, s, actions, 2, true);
  }

  /** The spacing is no larger than it must be: an unforced mint can come 115 minutes and a nanosecond
      after another one. */
  lemma UnforcedMintsTight(start: int) returns (s: System, actions: seq<Action>)
    ensures Reached(start, s, actions)
    ensures s.mints == [Mint(start, false), Mint(start + 115 * 60 * 1_000_000_000 + 1, false)]
  {
    s, actions := Initial(start), [];
    s, actions := Refreshed(start, s, actions, 0, false);
    RunKept(start, s, actions);
    s, actions := Extended(start, s, actions, Tick(115 * 60 * 1_000_000_000 + 1));
    s, actions := Refreshed(start, s, actions, 1, false);
  }
}
