/** What one run of the loop waits for: which attempts, and for how long at most. */
module Waiting {
  import opened RetryPolicy
  import opened RunLoop

  /** How often one endpoint is waited for. */
  function Retries(p: Policy): nat { if p.attempts > 1 then p.attempts - 1 else 0 }

  // ---- for which attempts ----

  /** The attempts 1 to `k`. */
  function FirstAttempts(k: nat): (attempts: seq<int>)
    ensures |attempts| == k && forall i | 0 <= i < k :: attempts[i] == i + 1
  {
    seq(k, i => i + 1)
  }

  /** A round of `m` sends waited after each of them but the last, or after all if it was cancelled;
      a round that goes on made all its attempts. */
  predicate RoundWaited(attempts: int, m: int, stopped: bool, r: Result, before: seq<int>, after: seq<int>) {
    && 0 <= m <= (if attempts > 0 then attempts else 0) && (stopped || m == if attempts > 0 then attempts else 0)
    && (r == Err(Cancelled) ==> stopped && m < attempts)
    && after == before + FirstAttempts(if r == Err(Cancelled) || m == 0 then m else m - 1)
  }

  /** The attempts waited for in a run of `m` sends, with `retries` waits in a whole round: no wait
      between two endpoints, and none after the last send unless the run was cancelled. */
  function WaitsOf(retries: nat, m: nat, cancelled: bool): seq<int> {
    if m == 0 then []
    else if m > retries + 1 then FirstAttempts(retries) + WaitsOf(retries, m - retries - 1, cancelled)
    else FirstAttempts(if cancelled && m <= retries then m else m - 1)
  }

  lemma WaitsOfRound(retries: nat, m: nat, cancelled: bool)
    ensures WaitsOf(retries, retries + 1 + m, cancelled) == FirstAttempts(retries) + WaitsOf(retries, m, cancelled)
  {
    if m == 0 {
      assert FirstAttempts(retries) + [] == FirstAttempts(retries);
    }
  }

  /** The attempts waited for in whole rounds, and how many sends those are. */
  function WholeWaits(retries: nat, rounds: nat): seq<int> {
    if rounds == 0 then [] else WholeWaits(retries, rounds - 1) + FirstAttempts(retries)
  }

  function RoundSends(retries: nat, rounds: nat): nat {
    if rounds == 0 then 0 else retries + 1 + RoundSends(retries, rounds - 1)
  }

  /** Whole rounds in front of more sends. */
  lemma {:induction false} WaitsOfRounds(retries: nat, rounds: nat, m: nat, cancelled: bool)
    ensures WaitsOf(retries, RoundSends(retries, rounds) + m, cancelled)
         == WholeWaits(retries, rounds) + WaitsOf(retries, m, cancelled)
  {
    hide WaitsOf, FirstAttempts;
    var rest, one := WaitsOf(retries, m, cancelled), FirstAttempts(retries);
    if rounds == 0 {
      assert WholeWaits(retries, 0) + rest == rest;
    } else {
      WaitsOfRounds(retries, rounds - 1, retries + 1 + m, cancelled);
      WaitsOfRound(retries, m, cancelled);
      assert WholeWaits(retries, rounds - 1) + one + rest == WholeWaits(retries, rounds - 1) + (one + rest);
    }
  }

  /** A run waited for what its whole rounds so far wait for. */
  predicate WaitedSoFar(p: Policy, rounds: nat, m: nat, before: seq<int>, after: seq<int>) {
    if p.attempts > 0 then m == RoundSends(Retries(p), rounds) && after == before + WholeWaits(Retries(p), rounds)
    else m == 0 && after == before
  }

  lemma NothingWaited(p: Policy, before: seq<int>)
    ensures WaitedSoFar(p, 0, 0, before, before)
  {
  }

  /** One more round ends the run with the waits of its sends, or extends it. */
  lemma RunWaited(p: Policy, rounds: nat, m: nat, more: int, stopped: bool, r: Result,
                  before: seq<int>, mid: seq<int>, after: seq<int>)
    requires WaitedSoFar(p, rounds, m, before, mid) && RoundWaited(p.attempts, more, stopped, r, mid, after)
    ensures stopped ==> after == before + WaitsOf(Retries(p), m + more, r == Err(Cancelled))
    ensures !stopped ==> WaitedSoFar(p, rounds + 1, m + more, before, after)
  {
    hide WaitsOf, WholeWaits, RoundSends;
    if p.attempts > 0 {
      var retries, cancelled := Retries(p), r == Err(Cancelled);
      var whole, part := WholeWaits(retries, rounds), FirstAttempts(if cancelled || more == 0 then more else more - 1);
      PartWaits(retries, more, cancelled);
      WaitsOfRounds(retries, rounds, more, cancelled);
      WholeNext(retries, rounds);
      assert before + whole + part == before + (whole + part);
    } else {
      NoWaits(Retries(p), r == Err(Cancelled));
    }
  }

  lemma NoWaits(retries: nat, cancelled: bool)
    ensures WaitsOf(retries, 0, cancelled) == []
  {
  }

  lemma WholeNext(retries: nat, rounds: nat)
    ensures WholeWaits(retries, rounds + 1) == WholeWaits(retries, rounds) + FirstAttempts(retries)
    ensures RoundSends(retries, rounds + 1) == retries + 1 + RoundSends(retries, rounds)
  {
  }

  lemma PartWaits(retries: nat, m: nat, cancelled: bool)
    requires m <= retries + 1 && (cancelled ==> m <= retries)
    ensures WaitsOf(retries, m, cancelled) == FirstAttempts(if cancelled || m == 0 then m else m - 1)
  {
  }

  /** A run whose rounds were all whole waited for what its sends wait for. */
  lemma AllWaited(p: Policy, rounds: nat, m: nat, before: seq<int>, after: seq<int>)
    requires WaitedSoFar(p, rounds, m, before, after)
    ensures after == before + WaitsOf(Retries(p), m, false)
  {
    WaitsOfRounds(Retries(p), rounds, 0, false);
    assert WaitsOf(Retries(p), 0, false) == [];
    assert WholeWaits(Retries(p), rounds) + [] == WholeWaits(Retries(p), rounds);
  }

  // ---- for how long ----

  /** The time the waits for these attempts take at most: each attempt's own delay, jittered. */
  function SleepFor(p: Policy, overflow: Duration, waits: seq<int>): nat {
    if waits == [] then 0
    else SleepFor(p, overflow, waits[..|waits| - 1]) + Longest(BaseDelay(p, waits[|waits| - 1], overflow))
  }

  lemma SleepForNext(p: Policy, overflow: Duration, waits: seq<int>, attempt: int)
    ensures SleepFor(p, overflow, waits + [attempt]) ==
            SleepFor(p, overflow, waits) + Longest(BaseDelay(p, attempt, overflow))
  {
    assert (waits + [attempt])[..|waits|] == waits;
  }

  lemma {:induction false} SleepForAppend(p: Policy, overflow: Duration, waits: seq<int>, more: seq<int>)
    ensures SleepFor(p, overflow, waits + more) == SleepFor(p, overflow, waits) + SleepFor(p, overflow, more)
  {
    if more == [] {
      assert waits + more == waits;
    } else {
      hide BaseDelay, Longest;
      var init, last := more[..|more| - 1], more[|more| - 1];
      SleepForAppend(p, overflow, waits, init);
      SleepForNext(p, overflow, waits + init, last);
      assert waits + more == waits + init + [last];
    }
  }

  /** The time they take at least when nothing cuts them short. */
  function LeastSleep(p: Policy, overflow: Duration, waits: seq<int>): nat {
    if waits == [] then 0
    else LeastSleep(p, overflow, waits[..|waits| - 1]) + Shortest(BaseDelay(p, waits[|waits| - 1], overflow), p.jitter)
  }

  lemma LeastSleepNext(p: Policy, overflow: Duration, waits: seq<int>, attempt: int)
    ensures LeastSleep(p, overflow, waits + [attempt]) ==
            LeastSleep(p, overflow, waits) + Shortest(BaseDelay(p, attempt, overflow), p.jitter)
  {
    assert (waits + [attempt])[..|waits|] == waits;
  }

  lemma {:induction false} LeastSleepAppend(p: Policy, overflow: Duration, waits: seq<int>, more: seq<int>)
    ensures LeastSleep(p, overflow, waits + more) == LeastSleep(p, overflow, waits) + LeastSleep(p, overflow, more)
  {
    if more == [] {
      assert waits + more == waits;
    } else {
      hide BaseDelay, Shortest;
      var init, last := more[..|more| - 1], more[|more| - 1];
      LeastSleepAppend(p, overflow, waits, init);
      LeastSleepNext(p, overflow, waits + init, last);
      assert waits + more == waits + init + [last];
    }
  }

  /** The context never ends. */
  ghost predicate Uncancelled(w: World) { forall k :: !w.cancelled(k) }

  /** Waiting for the attempts that `after` has and `before` has not took this long. */
  ghost predicate Slept(p: Policy, w: World, before: seq<int>, after: seq<int>, time: int) {
    && time <= SleepFor(p, w.overflow, after) - SleepFor(p, w.overflow, before)
    && (Uncancelled(w) ==> time >= LeastSleep(p, w.overflow, after) - LeastSleep(p, w.overflow, before))
  }

  lemma SleptMore(p: Policy, w: World, before: seq<int>, waits: seq<int>, time: int)
    requires Slept(p, w, before, before + waits, time)
    ensures Slept(p, w, [], waits, time)
  {
    hide SleepFor, LeastSleep;
    SleepForAppend(p, w.overflow, before, waits);
    LeastSleepAppend(p, w.overflow, before, waits);
    NothingSlept(p, w.overflow);
  }

  lemma NothingSlept(p: Policy, overflow: Duration)
    ensures SleepFor(p, overflow, []) == LeastSleep(p, overflow, []) == 0
  {
  }

  lemma SleptOnce(p: Policy, w: World, waits: seq<int>, attempt: int, time: int)
    requires time <= Longest(BaseDelay(p, attempt, w.overflow))
    requires Uncancelled(w) ==> time >= Shortest(BaseDelay(p, attempt, w.overflow), p.jitter)
    ensures Slept(p, w, waits, waits + [attempt], time)
  {
    hide SleepFor, LeastSleep, BaseDelay;
    SleepForNext(p, w.overflow, waits, attempt);
    LeastSleepNext(p, w.overflow, waits, attempt);
  }

  /** One wait: no longer than the delay, and no shorter unless the context ended. */
  lemma NapBounds(p: Policy, w: World, attempt: int, random: nat, d: Duration, nap: nat)
    requires d == if p.jitter then Jittered(BaseDelay(p, attempt, w.overflow), random) else BaseDelay(p, attempt, w.overflow)
    requires nap <= (if d > 0 then d else 0) && (Uncancelled(w) ==> nap == if d > 0 then d else 0)
    ensures nap <= Longest(BaseDelay(p, attempt, w.overflow))
    ensures Uncancelled(w) ==> nap >= Shortest(BaseDelay(p, attempt, w.overflow), p.jitter)
  {
    hide BaseDelay, Jittered, Uncancelled;
    var b := BaseDelay(p, attempt, w.overflow);
    JitteredAtMost(b, random);
    if Shortest(b, true) > 0 {
      JitteredAtLeast(b, random);
    }
  }

  lemma {:induction false} SleepForAtMost(p: Policy, overflow: Duration, waits: seq<int>)
    ensures SleepFor(p, overflow, waits) <= |waits| * Longest(Cap(p))
  {
    if waits != [] {
      SleepForAtMost(p, overflow, waits[..|waits| - 1]);
      DelayAtMost(p, waits[|waits| - 1], overflow);
      assert |waits| * Longest(Cap(p)) == (|waits| - 1) * Longest(Cap(p)) + Longest(Cap(p));
    }
  }

  /** A run over `n` endpoints waits at most once for every attempt but the last at each. */
  lemma {:induction false} WaitsCounted(retries: nat, m: nat, cancelled: bool, n: nat)
    requires m <= RoundSends(retries, n)
    ensures |WaitsOf(retries, m, cancelled)| <= n * retries
    decreases n
  {
    if m > retries + 1 {
      WaitsCounted(retries, m - retries - 1, cancelled, n - 1);
    }
    if n > 0 {
      MulAtMost(1, n, retries);
      assert n * retries == (n - 1) * retries + retries;
    }
  }

  lemma {:induction false} RoundSendsIs(retries: nat, n: nat)
    ensures RoundSends(retries, n) == n * (retries + 1)
  {
    if n > 0 {
      RoundSendsIs(retries, n - 1);
      assert n * (retries + 1) == (n - 1) * (retries + 1) + (retries + 1);
    }
  }

  lemma MulRegrouped(a: nat, b: nat, c: nat)
    ensures a * b * c == a * (b * c)
  {
  }

  lemma AtMostProduct(x: nat, count: nat, n: nat, each: nat, size: nat)
    requires x <= count * size && count <= n * each
    ensures x <= n * (each * size)
  {
    MulAtMost(count, n * each, size);
    MulRegrouped(n, each, size);
  }

  /** So one run of any policy sleeps at most one jittered cap for every attempt but the last at every
      endpoint. */
  lemma SleepBounded(p: Policy, overflow: Duration, n: nat, m: nat, cancelled: bool)
    requires m <= if p.attempts > 0 then n * p.attempts else 0
    ensures SleepFor(p, overflow, WaitsOf(Retries(p), m, cancelled)) <= n * (Retries(p) * Longest(Cap(p)))
  {
    hide WaitsOf, SleepFor, Longest, Cap;
    var retries := Retries(p);
    var waits := WaitsOf(retries, m, cancelled);
    RoundSendsIs(retries, n);
    if p.attempts <= 0 {
      MulAtMost(0, n, retries + 1);
    }
    WaitsCounted(retries, m, cancelled, n);
    SleepForAtMost(p, overflow, waits);
    AtMostProduct(SleepFor(p, overflow, waits), |waits|, n, retries, Longest(Cap(p)));
  }
}
