/** What one run of the retry-and-failover loop is: the sends it makes, and where and with
    what it stops. */
module RunLoop {
  import opened ErrorClasses
  import opened RetryPolicy

  datatype Error = Api(outcome: Outcome) | Cancelled | Exhausted | MintRefused(outcome: Outcome) | MintEmpty

  datatype Result = Ok | Err(error: Error)

  /** One send: the index of the endpoint it went to, and how it came out. */
  datatype Send = Send(endpoint: nat, outcome: Outcome)

  const EXPIRED := Err(Api(Failed(TicketExpired)))

  function ResultOf(o: Outcome): Result { if o.Answered? then Ok else Err(Api(o)) }

  function Targets(sends: seq<Send>): (es: seq<nat>)
    ensures |es| == |sends| && forall i | 0 <= i < |sends| :: es[i] == sends[i].endpoint
  {
    seq(|sends|, i requires 0 <= i < |sends| => sends[i].endpoint)
  }

  function Repeat(e: nat, times: nat): (es: seq<nat>)
    ensures |es| == times
  {
    seq(times, _ => e)
  }

  /** The endpoint after `current`, cyclically. */
  function Next(current: nat, n: nat): nat { if current + 1 < n then current + 1 else 0 }

  /** The endpoint reached from `start` by rotating `k` times. */
  function After(start: nat, n: nat, k: nat): nat { if k == 0 then start else Next(After(start, n, k - 1), n) }

  lemma ModOnce(a: nat, n: nat)
    requires 0 < n && a < 2 * n
    ensures a % n == if a < n then a else a - n
  {
    var q := a / n;
    assert a == q * n + a % n;
    if q >= 2 {
      MulAtMost(2, q, n);
    } else if q == 1 {
      assert q * n == n;
    }
  }

  lemma MulAtMost(a: int, b: int, c: int)
    requires a <= b && 0 <= c
    ensures a * c <= b * c
  {
    assert (b - a) * c >= 0;
  }

  /** Rotating one endpoint further is adding one modulo the number of endpoints. */
  lemma NextIsModulo(current: nat, n: nat)
    requires current < n
    ensures Next(current, n) == (current + 1) % n < n
  {
    ModOnce(current + 1, n);
  }

  /** Rotating `k` times from `start` is adding `k` modulo the number of endpoints. */
  lemma {:induction false} AfterIsModulo(start: nat, n: nat, k: nat)
    requires start < n
    ensures After(start, n, k) == (start + k) % n < n
  {
    if k == 0 {
      ModOnce(start, n);
    } else {
      AfterIsModulo(start, n, k - 1);
      NextIsModulo((start + k - 1) % n, n);
      ModSuccessor(start + k - 1, n);
    }
  }

  lemma ModSuccessor(a: nat, n: nat)
    requires n > 0
    ensures (a % n + 1) % n == (a + 1) % n
  {
    var q, r := a / n, a % n;
    assert a == q * n + r && 0 <= r < n;
    ModOnce(r + 1, n);
    if r + 1 < n {
      ModUnique(a + 1, n, q, r + 1);
    } else {
      assert (q + 1) * n == q * n + n;
      ModUnique(a + 1, n, q + 1, 0);
    }
  }

  lemma ModUnique(a: nat, n: nat, q: nat, r: nat)
    requires 0 <= r < n && a == q * n + r
    ensures a % n == r
  {
    var q', r' := a / n, a % n;
    assert a == q' * n + r' && 0 <= r' < n;
    assert (q + 1) * n == q * n + n && (q' + 1) * n == q' * n + n;
    if q' > q {
      MulAtMost(q + 1, q', n);
    } else if q > q' {
      MulAtMost(q' + 1, q, n);
    }
  }

  /** Rotating once per endpoint leads back. */
  lemma FullCircle(start: nat, n: nat)
    requires start < n
    ensures After(start, n, n) == start
  {
    AfterIsModulo(start, n, n);
    ModOnce(start + n, n);
  }

  /** `rounds` rounds over the endpoints from `start` on, cyclically, each tried `attempts` times. */
  function Rounds(start: nat, n: nat, attempts: nat, rounds: nat): seq<nat>
    requires n > 0
  {
    if rounds == 0 then []
    else Rounds(start, n, attempts, rounds - 1) + Repeat(After(start, n, rounds - 1), attempts)
  }

  /** The sends a run makes when all of them fail: one round per endpoint. */
  function Plan(start: nat, n: nat, attempts: int): seq<nat>
    requires n > 0
  {
    Rounds(start, n, if attempts > 0 then attempts else 0, n)
  }

  /** A run that started at endpoint `start` of `n` made `sends`, returned `result`, and left the
      connection at `current`. */
  ghost predicate Finished(n: nat, attempts: int, start: nat, sends: seq<Send>, result: Result, current: nat)
    requires n > 0
  {
    var plan, m := Plan(start, n, attempts), |sends|;
    && Targets(sends) <= plan
    && (forall i | 0 <= i < m - 1 :: IsTransient(sends[i].outcome))
    && (if m > 0 && !IsTransient(sends[m - 1].outcome) then
          result == ResultOf(sends[m - 1].outcome) && current == sends[m - 1].endpoint
        else if m < |plan| then
          result == Err(Cancelled) && current == plan[m]
        else
          current == start
          && result == if n > 1 then Err(Exhausted) else if attempts <= 0 then Ok else Err(Api(Failed(Transient))))
  }

  lemma {:induction false} RoundsLength(start: nat, n: nat, attempts: nat, rounds: nat)
    requires n > 0
    ensures |Rounds(start, n, attempts, rounds)| == rounds * attempts
  {
    if rounds > 0 {
      RoundsLength(start, n, attempts, rounds - 1);
      assert (rounds - 1) * attempts + attempts == rounds * attempts;
    }
  }

  lemma {:induction false} RoundsPrefix(start: nat, n: nat, attempts: nat, r: nat, rounds: nat)
    requires n > 0 && r <= rounds
    ensures Rounds(start, n, attempts, r) <= Rounds(start, n, attempts, rounds)
  {
    if r < rounds {
      RoundsPrefix(start, n, attempts, r, rounds - 1);
    }
  }

  /** Within round `r`, after `a` attempts, the sends so far are a prefix of the plan, and the
      next send of the plan goes to the same endpoint. */
  lemma RoundInPlan(start: nat, n: nat, attempts: nat, r: nat, a: nat)
    requires n > 0 && r < n && a <= attempts
    ensures var done, plan := Rounds(start, n, attempts, r) + Repeat(After(start, n, r), a), Rounds(start, n, attempts, n);
            done <= plan && (a < attempts ==> |done| < |plan| && plan[|done|] == After(start, n, r))
  {
    var e := After(start, n, r);
    var round := Rounds(start, n, attempts, r + 1);
    assert round == Rounds(start, n, attempts, r) + Repeat(e, attempts);
    assert Repeat(e, a) <= Repeat(e, attempts);
    RoundsPrefix(start, n, attempts, r + 1, n);
    if a < attempts {
      assert Repeat(e, attempts)[a] == e;
    }
  }

  /** A run makes at most `attempts` sends per endpoint. */
  lemma PlanLength(start: nat, n: nat, attempts: int)
    requires n > 0
    ensures |Plan(start, n, attempts)| == if attempts > 0 then n * attempts else 0
  {
    RoundsLength(start, n, if attempts > 0 then attempts else 0, n);
  }

  /** A run succeeds exactly when its last send was answered, except that with one endpoint and
      no attempts it succeeds without sending anything. */
  lemma SuccessMeansAnswered(n: nat, attempts: int, start: nat, sends: seq<Send>, result: Result, current: nat)
    requires n > 0 && Finished(n, attempts, start, sends, result, current)
    ensures result == Ok <==> (sends != [] && sends[|sends| - 1].outcome.Answered?) || (n == 1 && attempts <= 0)
  {
    PlanLength(start, n, attempts);
  }

  /** What a run with attempts returns when its last send, if any, was transient: it was cancelled before
      the plan was through, or every endpoint failed. */
  lemma FailedRunReports(n: nat, attempts: int, start: nat, sends: seq<Send>, result: Result, current: nat)
    requires n > 0 && attempts > 0 && Finished(n, attempts, start, sends, result, current)
    requires sends != [] ==> IsTransient(sends[|sends| - 1].outcome)
    ensures |sends| <= n * attempts
    ensures result == if |sends| < n * attempts then Err(Cancelled)
                      else if n > 1 then Err(Exhausted) else Err(Api(Failed(Transient)))
  {
    PlanLength(start, n, attempts);
    assert |Targets(sends)| == |sends|;
  }

  lemma CyclicReach(start: nat, n: nat, e: nat) returns (r: nat)
    requires start < n && e < n
    ensures r < n && After(start, n, r) == e
  {
    r := if e >= start then e - start else e + n - start;
    AfterIsModulo(start, n, r);
    ModOnce(start + r, n);
  }

  lemma PlanCovers(start: nat, n: nat, attempts: nat, e: nat)
    requires start < n && e < n && attempts > 0
    ensures e in Plan(start, n, attempts)
  {
    var r := CyclicReach(start, n, e);
    RoundInPlan(start, n, attempts, r, 0);
    var done := Rounds(start, n, attempts, r) + Repeat(e, 0);
    assert Plan(start, n, attempts)[|done|] == e;
  }

  /** A run that returns because every endpoint failed did try each endpoint `attempts` times, and
      left the connection where it was. */
  lemma ExhaustedTriedAll(n: nat, attempts: int, start: nat, sends: seq<Send>, current: nat)
    requires n > 1 && start < n && Finished(n, attempts, start, sends, Err(Exhausted), current)
    ensures Targets(sends) == Plan(start, n, attempts) && current == start
    ensures attempts > 0 ==> forall e: nat | e < n :: e in Targets(sends)
  {
    var plan := Plan(start, n, attempts);
    assert |Targets(sends)| == |plan|;
    assert Targets(sends) == plan;
    if attempts > 0 {
      forall e: nat | e < n ensures e in plan {
        PlanCovers(start, n, attempts, e);
      }
    }
  }

  // ---- the environment ----

  /** The replies the network gives and the state of the caller's context, by how many sends went
      before, and where a wait meets the end of the context, how far into it. */
  datatype World = World(reply: (nat, string) -> Reply, cancelled: nat -> bool, cut: nat -> nat, now: nat -> int,
                         random: nat -> nat, overflow: Duration)

  /** The sends, from position `from` on, came out as the world says, and none was made after the
      context was cancelled. */
  ghost predicate Followed(w: World, from: nat, bases: seq<string>, wantsOut: bool, sends: seq<Send>) {
    forall i | 0 <= i < |sends| ::
      && sends[i].endpoint < |bases|
      && sends[i].outcome == OutcomeOf(w.reply(from + i, bases[sends[i].endpoint]), wantsOut)
      && !w.cancelled(from + i)
  }

  /** A cancelled run stopped because the context was. */
  ghost predicate Follows(w: World, from: nat, bases: seq<string>, wantsOut: bool, sends: seq<Send>, result: Result) {
    Followed(w, from, bases, wantsOut, sends) && (result == Err(Cancelled) ==> w.cancelled(from + |sends|))
  }

  lemma FollowedAppend(w: World, from: nat, bases: seq<string>, wantsOut: bool, sends: seq<Send>, more: seq<Send>)
    requires Followed(w, from, bases, wantsOut, sends)
    requires Followed(w, from + |sends|, bases, wantsOut, more)
    ensures Followed(w, from, bases, wantsOut, sends + more)
  {
    forall i | 0 <= i < |sends + more|
      ensures (sends + more)[i].endpoint < |bases|
        && (sends + more)[i].outcome == OutcomeOf(w.reply(from + i, bases[(sends + more)[i].endpoint]), wantsOut)
        && !w.cancelled(from + i)
    {
      if i >= |sends| {
        assert more[i - |sends|] == (sends + more)[i];
        assert from + |sends| + (i - |sends|) == from + i;
      }
    }
  }

  lemma FollowsAppend(w: World, from: nat, bases: seq<string>, wantsOut: bool, sends: seq<Send>, more: seq<Send>, result: Result)
    requires Followed(w, from, bases, wantsOut, sends)
    requires Follows(w, from + |sends|, bases, wantsOut, more, result)
    ensures Follows(w, from, bases, wantsOut, sends + more, result)
  {
    FollowedAppend(w, from, bases, wantsOut, sends, more);
  }

  /** The world determines the run: nothing about it is left open. */
  lemma RunDetermined(w: World, from: nat, bases: seq<string>, wantsOut: bool, attempts: int, start: nat,
                      sends1: seq<Send>, result1: Result, current1: nat,
                      sends2: seq<Send>, result2: Result, current2: nat)
    requires |bases| > 0
    requires Finished(|bases|, attempts, start, sends1, result1, current1)
    requires Finished(|bases|, attempts, start, sends2, result2, current2)
    requires Follows(w, from, bases, wantsOut, sends1, result1)
    requires Follows(w, from, bases, wantsOut, sends2, result2)
    ensures sends1 == sends2 && result1 == result2 && current1 == current2
  {
    if |sends1| <= |sends2| {
      SameRun(w, from, bases, wantsOut, attempts, start, sends1, result1, current1, sends2, result2, current2);
    } else {
      SameRun(w, from, bases, wantsOut, attempts, start, sends2, result2, current2, sends1, result1, current1);
    }
  }

  lemma SameRun(w: World, from: nat, bases: seq<string>, wantsOut: bool, attempts: int, start: nat,
                sends1: seq<Send>, result1: Result, current1: nat,
                sends2: seq<Send>, result2: Result, current2: nat)
    requires |bases| > 0 && |sends1| <= |sends2|
    requires Finished(|bases|, attempts, start, sends1, result1, current1)
    requires Finished(|bases|, attempts, start, sends2, result2, current2)
    requires Follows(w, from, bases, wantsOut, sends1, result1)
    requires Follows(w, from, bases, wantsOut, sends2, result2)
    ensures sends1 == sends2 && result1 == result2 && current1 == current2
  {
    var plan, m := Plan(start, |bases|, attempts), |sends1|;
    forall i | 0 <= i < m ensures sends1[i] == sends2[i] {
      assert Targets(sends1)[i] == plan[i] == Targets(sends2)[i];
    }
  }

  // ---- putting a run together, round by round ----

  predicate AllTransient(sends: seq<Send>) { forall i | 0 <= i < |sends| :: IsTransient(sends[i].outcome) }

  /** One endpoint's round: it was tried `sends` times and the run stopped, or went on. */
  ghost predicate RoundDone(attempts: int, current: nat, sends: seq<Send>, stopped: bool, result: Result) {
    var m := |sends|;
    && Targets(sends) == Repeat(current, m)
    && m <= (if attempts > 0 then attempts else 0)
    && AllTransient(if stopped && result != Err(Cancelled) then sends[..m - (if m > 0 then 1 else 0)] else sends)
    && (if !stopped then m == (if attempts > 0 then attempts else 0)
                         && result == (if attempts <= 0 then Ok else Err(Api(Failed(Transient))))
        else if result == Err(Cancelled) then m < attempts
        else m > 0 && !IsTransient(sends[m - 1].outcome) && result == ResultOf(sends[m - 1].outcome))
  }

  /** A run that stops in round `r` is finished. */
  lemma StoppedFinishes(n: nat, attempts: int, start: nat, r: nat, sends: seq<Send>, part: seq<Send>, result: Result)
    requires n > 0 && r < n
    requires Targets(sends) == Rounds(start, n, if attempts > 0 then attempts else 0, r) && AllTransient(sends)
    requires RoundDone(attempts, After(start, n, r), part, true, result)
    ensures Finished(n, attempts, start, sends + part, result, After(start, n, r))
  {
    var all, a, e := sends + part, if attempts > 0 then attempts else 0, After(start, n, r);
    assert Targets(all) == Targets(sends) + Targets(part);
    RoundInPlan(start, n, a, r, |part|);
    if result != Err(Cancelled) {
      assert all[|all| - 1] == part[|part| - 1] && Targets(part)[|part| - 1] == e;
      forall i | 0 <= i < |all| - 1 ensures IsTransient(all[i].outcome) {
        if i >= |sends| {
          assert all[i] == part[..|part| - 1][i - |sends|];
        }
      }
    }
  }

  lemma RoundAppended(n: nat, attempts: int, start: nat, r: nat, sends: seq<Send>, part: seq<Send>, result: Result)
    requires n > 0 && r < n
    requires Targets(sends) == Rounds(start, n, if attempts > 0 then attempts else 0, r) && AllTransient(sends)
    requires RoundDone(attempts, After(start, n, r), part, false, result)
    ensures Targets(sends + part) == Rounds(start, n, if attempts > 0 then attempts else 0, r + 1)
    ensures AllTransient(sends + part)
  {
    assert Targets(sends + part) == Targets(sends) + Targets(part);
  }

  /** After every endpoint's round failed, the run is exhausted and the connection is back where
      it began. */
  lemma AllRoundsFinish(n: nat, attempts: int, start: nat, sends: seq<Send>)
    requires n > 1 && start < n
    requires Targets(sends) == Rounds(start, n, if attempts > 0 then attempts else 0, n) && AllTransient(sends)
    ensures Finished(n, attempts, start, sends, Err(Exhausted), start)
  {
    assert |Targets(sends)| == |sends|;
  }

  /** With one endpoint, its round's result is the run's. */
  lemma OnlyRoundFinishes(attempts: int, sends: seq<Send>, result: Result)
    requires RoundDone(attempts, 0, sends, false, result)
    ensures Finished(1, attempts, 0, sends, result, 0)
  {
    var a := if attempts > 0 then attempts else 0;
    assert Rounds(0, 1, a, 1) == Rounds(0, 1, a, 0) + Repeat(0, a) == Repeat(0, a);
    assert Targets(sends) == Repeat(0, a);
  }
}
