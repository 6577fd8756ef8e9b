/** The transport: one request with retry per endpoint, sticky failover, ticket refresh and a
    single replay, as its one caller sees it. */
module Transport {
  import opened Options
  import opened ErrorClasses
  import opened RetryPolicy
  import opened Endpoints
  import opened RunLoop
  import opened Tickets
  import opened Waiting

  datatype Kind = Token | Ticket | User

  /** What a refresh does to its caller: nothing, or one mint send and what came of it, with the time
      the reply was stamped. */
  datatype Refresh = NotNeeded | Sent(mint: Send, at: int)

  function RefreshResult(refresh: Refresh): Result {
    match refresh
    case NotNeeded => Ok
    case Sent(mint, _) =>
      if !mint.outcome.Answered? then Err(MintRefused(mint.outcome))
      else if mint.outcome.ticket == "" then Err(MintEmpty)
      else Ok
  }

  /** What credentials hold. */
  datatype Held = Held(ticket: string, csrf: string, expiry: Option<int>)

  /** Only a refresh that succeeded replaces it, all of it, for two hours from its stamp. */
  function HeldAfter(held: Held, refresh: Refresh): Held {
    if refresh.Sent? && RefreshResult(refresh) == Ok
    then Held(refresh.mint.outcome.ticket, refresh.mint.outcome.csrf, Some(refresh.at + LIFETIME))
    else held
  }

  class Credentials {
    const kind: Kind
    var ticket: string
    var csrf: string
    var expiry: Option<int>

    constructor (kind: Kind, ticket: string, csrf: string)
      ensures this.kind == kind && this.ticket == ticket && this.csrf == csrf && expiry == None
    {
      this.kind, this.ticket, this.csrf, expiry := kind, ticket, csrf, None;
    }

    /** A pre-minted ticket has no expiry and is never refreshed; a user's is minted before the
        first request and again within the skew of its expiry. */
    predicate NeedsRefresh(now: int)
      reads this
    {
      match kind
      case Token => false
      case Ticket => expiry.Some? && now + SKEW > expiry.value
      case User => Stale(expiry, now)
    }

    function Value(): Held
      reads this
    {
      Held(ticket, csrf, expiry)
    }

    method SetTicket(ticket: string, csrf: string, expiry: int)
      modifies this
      ensures Value() == Held(ticket, csrf, Some(expiry))
    {
      this.ticket, this.csrf, this.expiry := ticket, csrf, Some(expiry);
    }
  }

  // ---- what one request does ----

  /** The parts of one request, in order. */
  datatype Log = Log(refresh: Refresh, first: seq<Send>, firstResult: Result, again: Refresh, second: seq<Send>)

  function RefreshSends(r: Refresh): seq<Send> { if r.Sent? then [r.mint] else [] }

  function SendsOf(log: Log): seq<Send> {
    RefreshSends(log.refresh) + log.first + RefreshSends(log.again) + log.second
  }

  /** A request that started at endpoint `start` returned `result` and left the connection at `current`. */
  ghost predicate Requested(n: nat, attempts: int, start: nat, log: Log, result: Result, current: nat)
    requires n > 0
  {
    if RefreshResult(log.refresh) != Ok then
      result == RefreshResult(log.refresh) && log.first == log.second == [] && log.again == NotNeeded && current == start
    else
      Served(n, attempts, start, log.first, log.firstResult, log.again, log.second, result, current)
  }

  /** The request itself: one run, and after an expired ticket the replay. */
  ghost predicate Served(n: nat, attempts: int, start: nat, first: seq<Send>, firstResult: Result,
                         again: Refresh, second: seq<Send>, result: Result, current: nat)
    requires n > 0
  {
    if firstResult != EXPIRED then
      && Finished(n, attempts, start, first, firstResult, current)
      && result == firstResult && again == NotNeeded && second == []
    else
      exists mid ::
        && Finished(n, attempts, start, first, EXPIRED, mid)
        && Replayed(n, attempts, mid, again, second, result, current)
  }

  /** The second half of a request whose first run found the ticket expired. */
  ghost predicate Replayed(n: nat, attempts: int, mid: nat, again: Refresh, second: seq<Send>, result: Result, current: nat)
    requires n > 0
  {
    if RefreshResult(again) != Ok then result == RefreshResult(again) && second == [] && current == mid
    else Finished(n, attempts, mid, second, result, current)
  }

  /** A mint went to endpoint `e` and came out as the world says. */
  ghost predicate Minted(w: World, from: nat, bases: seq<string>, e: nat, refresh: Refresh) {
    refresh.Sent? ==> e < |bases| && refresh.mint == Send(e, OutcomeOf(w.reply(from, bases[e]), true))
  }

  /** A mint's reply was stamped with the last reading of the clock. */
  ghost predicate Stamped(w: World, ticks: nat, refresh: Refresh) {
    refresh.Sent? && RefreshResult(refresh) == Ok ==> ticks > 0 && refresh.at == w.now(ticks - 1)
  }

  /** A mint stores what the reply carries, for two hours from its stamp, and nothing without a ticket. */
  lemma MintStores(w: World, from: nat, bases: seq<string>, e: nat, refresh: Refresh, held: Held)
    requires Minted(w, from, bases, e, refresh) && refresh.Sent?
    ensures var reply := w.reply(from, bases[e]);
            && (RefreshResult(refresh) == Ok <==> CarriesTicket(reply))
            && HeldAfter(held, refresh) ==
                 if CarriesTicket(reply)
                 then Held(reply.body.ticket, reply.body.csrf, Some(refresh.at + 2 * 60 * 60 * 1_000_000_000)) else held
  {
    OutcomeCases(w.reply(from, bases[e]), true);
  }

  /** The replay's sends, from position `from` on, are what the world says of them. */
  ghost predicate ReplayFollows(w: World, from: nat, bases: seq<string>, wantsOut: bool, mid: nat,
                                again: Refresh, second: seq<Send>, result: Result) {
    && Minted(w, from, bases, mid, again)
    && (RefreshResult(again) == Ok ==> Follows(w, from + |RefreshSends(again)|, bases, wantsOut, second, result))
  }

  /** So are the sends of the request after its first refresh; the replay's mint goes to the
      endpoint that answered. */
  ghost predicate ServeFollows(w: World, from: nat, bases: seq<string>, wantsOut: bool, first: seq<Send>,
                               firstResult: Result, again: Refresh, second: seq<Send>, result: Result) {
    && Follows(w, from, bases, wantsOut, first, firstResult)
    && (firstResult == EXPIRED ==>
          first != [] && ReplayFollows(w, from + |first|, bases, wantsOut, first[|first| - 1].endpoint, again, second, result))
  }

  /** So are all sends of the request. */
  ghost predicate RequestFollows(w: World, from: nat, bases: seq<string>, wantsOut: bool, start: nat, log: Log, result: Result) {
    && Minted(w, from, bases, start, log.refresh)
    && (RefreshResult(log.refresh) == Ok ==>
          ServeFollows(w, from + |RefreshSends(log.refresh)|, bases, wantsOut, log.first, log.firstResult,
                       log.again, log.second, result))
  }

  /** At most two runs of the loop and two mints. */
  lemma RequestBounded(n: nat, attempts: int, start: nat, log: Log, result: Result, current: nat)
    requires n > 0 && Requested(n, attempts, start, log, result, current)
    ensures |SendsOf(log)| <= 2 * (if attempts > 0 then n * attempts else 0) + 2
  {
    PlanLength(start, n, attempts);
    if log.firstResult == EXPIRED && RefreshResult(log.refresh) == Ok {
      var mid :| Finished(n, attempts, start, log.first, EXPIRED, mid)
                 && Replayed(n, attempts, mid, log.again, log.second, result, current);
      PlanLength(mid, n, attempts);
      assert |Targets(log.first)| == |log.first| && |Targets(log.second)| == |log.second|;
    } else {
      assert |Targets(log.first)| == |log.first|;
    }
  }

  /** The request is replayed only after an answer that named the ticket as expired. */
  lemma ReplayOnlyAfterExpiry(n: nat, attempts: int, start: nat, log: Log, result: Result, current: nat)
    requires n > 0 && Requested(n, attempts, start, log, result, current)
    requires log.second != [] || log.again.Sent?
    ensures log.first != [] && log.first[|log.first| - 1].outcome == Failed(TicketExpired)
  {
  }

  /** With attempts, a request succeeds exactly when the last send of its last run was answered; what
      the replay returns is returned as it is, a second expiry included. */
  lemma RequestSuccess(n: nat, attempts: int, start: nat, log: Log, result: Result, current: nat)
    requires n > 0 && attempts > 0 && Requested(n, attempts, start, log, result, current)
    ensures var last := if log.firstResult == EXPIRED then log.second else log.first;
            result == Ok <==> last != [] && last[|last| - 1].outcome.Answered?
    ensures log.second != [] && log.second[|log.second| - 1].outcome == Failed(TicketExpired) ==> result == EXPIRED
    ensures result == EXPIRED ==> log.second != [] && log.second[|log.second| - 1].outcome == Failed(TicketExpired)
  {
    if RefreshResult(log.refresh) == Ok {
      if log.firstResult != EXPIRED {
        SuccessMeansAnswered(n, attempts, start, log.first, log.firstResult, current);
      } else if RefreshResult(log.again) == Ok {
        var mid :| Finished(n, attempts, start, log.first, EXPIRED, mid)
                   && Replayed(n, attempts, mid, log.again, log.second, result, current);
        SuccessMeansAnswered(n, attempts, mid, log.second, result, current);
      }
    }
  }

  lemma ReplayDetermined(w: World, from: nat, bases: seq<string>, wantsOut: bool, attempts: int, mid: nat,
                         again1: Refresh, second1: seq<Send>, result1: Result, current1: nat,
                         again2: Refresh, second2: seq<Send>, result2: Result, current2: nat)
    requires |bases| > 0 && (again1.Sent? <==> again2.Sent?)
    requires Replayed(|bases|, attempts, mid, again1, second1, result1, current1)
    requires Replayed(|bases|, attempts, mid, again2, second2, result2, current2)
    requires ReplayFollows(w, from, bases, wantsOut, mid, again1, second1, result1)
    requires ReplayFollows(w, from, bases, wantsOut, mid, again2, second2, result2)
    ensures RefreshSends(again1) == RefreshSends(again2) && second1 == second2 && result1 == result2 && current1 == current2
  {
    hide Finished, Followed;
    if RefreshResult(again1) == Ok {
      RunDetermined(w, from + |RefreshSends(again1)|, bases, wantsOut, attempts, mid,
                    second1, result1, current1, second2, result2, current2);
    }
  }

  /** A run that found the ticket expired left the connection at the endpoint that said so. */
  lemma ExpiredAt(n: nat, attempts: int, start: nat, sends: seq<Send>, mid: nat)
    requires n > 0 && Finished(n, attempts, start, sends, EXPIRED, mid)
    ensures sends != [] && mid == sends[|sends| - 1].endpoint
  {
  }

  lemma ServeDetermined(w: World, from: nat, bases: seq<string>, wantsOut: bool, attempts: int, start: nat,
                        first1: seq<Send>, firstResult1: Result, again1: Refresh, second1: seq<Send>, result1: Result, current1: nat,
                        first2: seq<Send>, firstResult2: Result, again2: Refresh, second2: seq<Send>, result2: Result, current2: nat,
                        user: bool)
    requires |bases| > 0
    requires again1.Sent? <==> user && firstResult1 == EXPIRED
    requires again2.Sent? <==> user && firstResult2 == EXPIRED
    requires Served(|bases|, attempts, start, first1, firstResult1, again1, second1, result1, current1)
    requires Served(|bases|, attempts, start, first2, firstResult2, again2, second2, result2, current2)
    requires ServeFollows(w, from, bases, wantsOut, first1, firstResult1, again1, second1, result1)
    requires ServeFollows(w, from, bases, wantsOut, first2, firstResult2, again2, second2, result2)
    ensures first1 == first2 && firstResult1 == firstResult2 && RefreshSends(again1) == RefreshSends(again2) && second1 == second2
    ensures result1 == result2 && current1 == current2
  {
    hide Finished, Followed;
    var n := |bases|;
    var mid1 := if firstResult1 == EXPIRED then first1[|first1| - 1].endpoint else current1;
    var mid2 := if firstResult2 == EXPIRED then first2[|first2| - 1].endpoint else current2;
    FirstRun(n, attempts, start, first1, firstResult1, again1, second1, result1, current1);
    FirstRun(n, attempts, start, first2, firstResult2, again2, second2, result2, current2);
    RunDetermined(w, from, bases, wantsOut, attempts, start, first1, firstResult1, mid1, first2, firstResult2, mid2);
    if firstResult1 == EXPIRED {
      ReplayDetermined(w, from + |first1|, bases, wantsOut, attempts, mid1,
                       again1, second1, result1, current1, again2, second2, result2, current2);
    }
  }

  /** Where the first run of a served request left the connection. */
  lemma FirstRun(n: nat, attempts: int, start: nat, first: seq<Send>, firstResult: Result,
                 again: Refresh, second: seq<Send>, result: Result, current: nat)
    requires n > 0 && Served(n, attempts, start, first, firstResult, again, second, result, current)
    ensures firstResult == EXPIRED ==>
              && first != [] && Finished(n, attempts, start, first, EXPIRED, first[|first| - 1].endpoint)
              && Replayed(n, attempts, first[|first| - 1].endpoint, again, second, result, current)
    ensures firstResult != EXPIRED ==> Finished(n, attempts, start, first, firstResult, current)
  {
    if firstResult == EXPIRED {
      var mid :| Finished(n, attempts, start, first, EXPIRED, mid)
                 && Replayed(n, attempts, mid, again, second, result, current);
      ExpiredAt(n, attempts, start, first, mid);
    }
  }

  /** The replies, the clock and the caller's context determine the request: its sends, what it
      returns and the endpoint it leaves active. */
  lemma RequestDetermined(w: World, from: nat, bases: seq<string>, wantsOut: bool, attempts: int, start: nat, user: bool,
                          log1: Log, result1: Result, current1: nat, log2: Log, result2: Result, current2: nat)
    requires |bases| > 0 && (log1.refresh.Sent? <==> log2.refresh.Sent?)
    requires log1.again.Sent? <==> user && RefreshResult(log1.refresh) == Ok && log1.firstResult == EXPIRED
    requires log2.again.Sent? <==> user && RefreshResult(log2.refresh) == Ok && log2.firstResult == EXPIRED
    requires Requested(|bases|, attempts, start, log1, result1, current1)
    requires Requested(|bases|, attempts, start, log2, result2, current2)
    requires RequestFollows(w, from, bases, wantsOut, start, log1, result1)
    requires RequestFollows(w, from, bases, wantsOut, start, log2, result2)
    ensures SendsOf(log1) == SendsOf(log2) && result1 == result2 && current1 == current2
  {
    hide Served, ServeFollows;
    if RefreshResult(log1.refresh) == Ok {
      ServeDetermined(w, from + |RefreshSends(log1.refresh)|, bases, wantsOut, attempts, start,
                      log1.first, log1.firstResult, log1.again, log1.second, result1, current1,
                      log2.first, log2.firstResult, log2.again, log2.second, result2, current2, user);
    }
  }

  // ---- the transport ----

  function BasesOf(ps: seq<Parsed>): (bases: seq<string>)
    ensures |bases| == |ps|
  {
    seq(|ps|, i requires 0 <= i < |ps| => ps[i].base)
  }

  class Transport {
    const conn: Connection
    const creds: Credentials
    const policy: Policy
    /** Every send so far, mints included. */
    var trace: seq<Send>
    /** How often the clock was read so far. */
    var ticks: nat
    ghost var slept: nat
    /** The attempts that were waited for. */
    ghost var waits: seq<int>

    constructor (conn: Connection, creds: Credentials, policy: Policy)
      requires conn.Valid()
      ensures Valid() && this.conn == conn && this.creds == creds && this.policy == policy && trace == []
    {
      this.conn, this.creds, this.policy := conn, creds, policy;
      trace, ticks, slept, waits := [], 0, 0, [];
    }

    ghost predicate Valid()
      reads this, conn
    {
      conn.Valid()
    }

    /** One send through the current endpoint. */
    method Exchange(w: World, base: string, wantsOut: bool) returns (outcome: Outcome)
      requires Valid() && base == conn.ordered[conn.current].base
      modifies `trace
      ensures outcome == OutcomeOf(w.reply(old(|trace|), base), wantsOut)
      ensures trace == old(trace) + [Send(conn.current, outcome)]
    {
      outcome := OutcomeOf(w.reply(|trace|, base), wantsOut);
      trace := trace + [Send(conn.current, outcome)];
    }

    /** The wait between two attempts: the delay, cut short when the context ends meanwhile. */
    method Wait(w: World, attempt: int)
      modifies `slept, `waits
      ensures waits == old(waits) + [attempt]
      ensures Slept(policy, w, old(waits), waits, slept - old(slept))
      ensures var b, at := BaseDelay(policy, attempt, w.overflow), |trace|;
              var d := if policy.jitter then Jittered(b, w.random(at)) else b;
              slept == old(slept) + if d <= 0 then 0 else if w.cancelled(at) && w.cut(at) < d then w.cut(at) else d
    {
      hide BaseDelay, Longest, Shortest, Jittered, Slept;
      var d := Delay(policy, attempt, w.overflow, w.random(|trace|));
      var nap := if d <= 0 then 0 else if w.cancelled(|trace|) && w.cut(|trace|) < d then w.cut(|trace|) else d;
      NapBounds(policy, w, attempt, w.random(|trace|), d, nap);
      SleptOnce(policy, w, waits, attempt, nap);
      slept := slept + nap;
      waits := waits + [attempt];
    }

    /** One attempt: nothing when the context is cancelled, otherwise one send. */
    method Attempt(w: World, wantsOut: bool, base: string, ghost from: nat, ghost sends: seq<Send>)
      returns (outcome: Option<Outcome>)
      requires Valid() && base == conn.ordered[conn.current].base
      requires |trace| == from + |sends| && InRound(w, from, BasesOf(conn.ordered), wantsOut, conn.current, sends)
      modifies `trace
      ensures outcome.None? ==> trace == old(trace) && w.cancelled(|trace|)
      ensures outcome.Some? ==>
                var more := sends + [Send(conn.current, outcome.value)];
                && trace == old(trace) + [Send(conn.current, outcome.value)]
                && Targets(more) == Repeat(conn.current, |more|)
                && Followed(w, from, BasesOf(conn.ordered), wantsOut, more)
                && (IsTransient(outcome.value) ==> InRound(w, from, BasesOf(conn.ordered), wantsOut, conn.current, more))
    {
      if w.cancelled(|trace|) {
        return None;
      }
      var o := Exchange(w, base, wantsOut);
      OneMore(w, from, BasesOf(conn.ordered), wantsOut, conn.current, sends, o);
      return Some(o);
    }

    /** One turn of the inner loop: an attempt, and the wait before the next one. */
    method TryOnce(w: World, wantsOut: bool, base: string, attempt: int, ghost from: nat, ghost sends: seq<Send>)
      returns (stopped: bool, r: Result, ghost all: seq<Send>)
      requires Valid() && base == conn.ordered[conn.current].base
      requires 1 <= attempt <= policy.attempts && |sends| == attempt - 1
      requires |trace| == from + |sends| && InRound(w, from, BasesOf(conn.ordered), wantsOut, conn.current, sends)
      modifies `trace, `slept, `waits
      ensures old(trace) <= trace && all == sends + trace[|old(trace)|..]
      ensures stopped ==> |all| == if r == Err(Cancelled) then attempt - 1 else attempt
      ensures stopped ==> RoundDone(policy.attempts, conn.current, all, true, r)
                          && Follows(w, from, BasesOf(conn.ordered), wantsOut, all, r)
      ensures !stopped ==> |all| == attempt && r == Err(Api(Failed(Transient)))
                           && InRound(w, from, BasesOf(conn.ordered), wantsOut, conn.current, all)
      ensures waits == old(waits) + if !stopped && attempt < policy.attempts then [attempt] else []
      ensures Slept(policy, w, old(waits), waits, slept - old(slept))
    {
      hide InRound, RoundDone, Followed, SleepFor, BaseDelay, Longest;
      all := sends;
      var outcome := Attempt(w, wantsOut, base, from, sends);
      if outcome.None? {
        RoundEnds(w, from, BasesOf(conn.ordered), wantsOut, conn.current, sends, policy.attempts);
        return true, Err(Cancelled), all;
      }
      all := sends + [Send(conn.current, outcome.value)];
      if !IsTransient(outcome.value) {
        RoundStops(w, from, BasesOf(conn.ordered), wantsOut, conn.current, sends, outcome.value, policy.attempts);
        return true, ResultOf(outcome.value), all;
      }
      if attempt < policy.attempts {
        Wait(w, attempt);
      }
      return false, Err(Api(outcome.value)), all;
    }

    /** The attempts at one endpoint. */
    method TryEndpoint(w: World, wantsOut: bool, base: string)
      returns (stopped: bool, r: Result, ghost sends: seq<Send>)
      requires Valid() && base == conn.ordered[conn.current].base
      modifies `trace, `slept, `waits
      ensures trace == old(trace) + sends
      ensures RoundDone(policy.attempts, conn.current, sends, stopped, r)
      ensures Follows(w, old(|trace|), BasesOf(conn.ordered), wantsOut, sends, r)
      ensures RoundWaited(policy.attempts, |sends|, stopped, r, old(waits), waits)
      ensures Slept(policy, w, old(waits), waits, slept - old(slept))
    {
      hide InRound, RoundDone, Followed, SleepFor, ResultOf;
      stopped, r, sends := false, Ok, [];
      EmptyRound(w, |trace|, BasesOf(conn.ordered), wantsOut, conn.current);
      var attempt := 1;
      while attempt <= policy.attempts
        invariant attempt >= 1 && |sends| == attempt - 1
        invariant if policy.attempts > 0 then attempt <= policy.attempts + 1 else attempt == 1
        invariant trace == old(trace) + sends
        invariant InRound(w, old(|trace|), BasesOf(conn.ordered), wantsOut, conn.current, sends)
        invariant r == if attempt == 1 then Ok else Err(Api(Failed(Transient)))
        invariant waits == old(waits) + FirstAttempts(if 1 < attempt == policy.attempts + 1 then attempt - 2 else attempt - 1)
        invariant Slept(policy, w, old(waits), waits, slept - old(slept))
        decreases policy.attempts - attempt
      {
        stopped, r, sends := TryOnce(w, wantsOut, base, attempt, old(|trace|), sends);
        assert trace == old(trace) + sends;
        if stopped {
          return;
        }
        attempt := attempt + 1;
      }
      RoundEnds(w, old(|trace|), BasesOf(conn.ordered), wantsOut, conn.current, sends, policy.attempts);
    }

    /** One turn of the outer loop, up to the failover. */
    method TryRound(w: World, wantsOut: bool, ghost from: nat, ghost start: nat, ghost ep: nat, ghost sends: seq<Send>)
      returns (stopped: bool, r: Result, ghost all: seq<Send>)
      requires Valid() && start < |conn.ordered| && ep < |conn.ordered|
      requires conn.current == After(start, |conn.ordered|, ep) && |trace| == from + |sends|
      requires BetweenRounds(w, from, BasesOf(conn.ordered), wantsOut, policy.attempts, start, ep, sends)
      modifies `trace, `slept, `waits
      ensures sends <= all && trace == old(trace) + all[|sends|..]
      ensures Follows(w, from, BasesOf(conn.ordered), wantsOut, all, r)
      ensures stopped ==> Finished(|conn.ordered|, policy.attempts, start, all, r, conn.current)
      ensures !stopped ==> BetweenRounds(w, from, BasesOf(conn.ordered), wantsOut, policy.attempts, start, ep + 1, all)
      ensures !stopped && |conn.ordered| == 1 ==> Finished(1, policy.attempts, start, all, r, start)
      ensures RoundWaited(policy.attempts, |all| - |sends|, stopped, r, old(waits), waits)
      ensures Slept(policy, w, old(waits), waits, slept - old(slept))
    {
      hide Finished, BetweenRounds, Followed, RoundDone;
      var base := conn.BaseURL();
      ghost var part;
      stopped, r, part := TryEndpoint(w, wantsOut, base);
      NextRound(w, from, BasesOf(conn.ordered), wantsOut, policy.attempts, start, ep, sends, part, stopped, r);
      all := sends + part;
    }

    /** One turn of the outer loop: the attempts at the current endpoint, then the failover. */
    method RunRound(w: World, wantsOut: bool, ghost from: nat, ghost start: nat, ghost ep: nat, ghost sends: seq<Send>)
      returns (stopped: bool, r: Result, ghost all: seq<Send>)
      requires Valid() && start < |conn.ordered| && ep < |conn.ordered| && (|conn.ordered| == 1 ==> ep == 0)
      requires conn.current == After(start, |conn.ordered|, ep) && |trace| == from + |sends|
      requires BetweenRounds(w, from, BasesOf(conn.ordered), wantsOut, policy.attempts, start, ep, sends)
      modifies `trace, `slept, `waits, conn
      ensures Valid() && sends <= all && trace == old(trace) + all[|sends|..]
      ensures stopped ==> Follows(w, from, BasesOf(conn.ordered), wantsOut, all, r)
      ensures stopped ==> Finished(|conn.ordered|, policy.attempts, start, all, r, conn.current)
      ensures !stopped ==> BetweenRounds(w, from, BasesOf(conn.ordered), wantsOut, policy.attempts, start, ep + 1, all)
      ensures !stopped ==> |conn.ordered| > 1 && conn.current == After(start, |conn.ordered|, ep + 1)
      ensures RoundWaited(policy.attempts, |all| - |sends|, stopped, r, old(waits), waits)
      ensures Slept(policy, w, old(waits), waits, slept - old(slept))
    {
      stopped, r, all := TryRound(w, wantsOut, from, start, ep, sends);
      if !stopped {
        NextIsModulo(conn.current, |conn.ordered|);
        var rotated := conn.Failover();
        stopped := !rotated;
      }
    }

    /** execute. */
    method Execute(w: World, wantsOut: bool) returns (r: Result, ghost sends: seq<Send>)
      requires Valid()
      modifies `trace, `slept, `waits, conn
      ensures Valid() && trace == old(trace) + sends
      ensures Finished(|conn.ordered|, policy.attempts, old(conn.current), sends, r, conn.current)
      ensures Follows(w, old(|trace|), BasesOf(conn.ordered), wantsOut, sends, r)
      ensures waits == old(waits) + WaitsOf(Retries(policy), |sends|, r == Err(Cancelled))
      ensures Slept(policy, w, [], WaitsOf(Retries(policy), |sends|, r == Err(Cancelled)), slept - old(slept))
    {
      hide Finished, Followed, WaitedSoFar, RoundWaited, WaitsOf, SleepFor;
      NothingWaited(policy, waits);
      var total := |conn.ordered|;
      ghost var start := conn.current;
      sends := [];
      var ep := 0;
      BeforeRounds(w, |trace|, BasesOf(conn.ordered), wantsOut, policy.attempts, start);
      while ep < total
        invariant 0 <= ep <= total && (total == 1 ==> ep == 0)
        invariant Valid() && conn.current == After(start, total, ep)
        invariant trace == old(trace) + sends
        invariant BetweenRounds(w, old(|trace|), BasesOf(conn.ordered), wantsOut, policy.attempts, start, ep, sends)
        invariant WaitedSoFar(policy, ep, |sends|, old(waits), waits)
        invariant Slept(policy, w, old(waits), waits, slept - old(slept))
      {
        ghost var before, waited := |sends|, waits;
        var stopped, result, all := RunRound(w, wantsOut, old(|trace|), start, ep, sends);
        sends := all;
        RunWaited(policy, ep, before, |sends| - before, stopped, result, old(waits), waited, waits);
        if stopped {
          SleptMore(policy, w, old(waits), WaitsOf(Retries(policy), |sends|, result == Err(Cancelled)), slept - old(slept));
          return result, sends;
        }
        ep := ep + 1;
      }
      FullCircle(start, total);
      AllWaited(policy, total, |sends|, old(waits), waits);
      AllRoundsFinish(total, policy.attempts, start, sends);
      SleptMore(policy, w, old(waits), WaitsOf(Retries(policy), |sends|, false), slept - old(slept));
      return Err(Exhausted), sends;
    }

    /** refresh, with doRaw as its send: one unauthenticated send to the current endpoint, without
        retry or failover. */
    method DoRefresh(w: World, force: bool) returns (r: Result, ghost refresh: Refresh)
      requires Valid()
      modifies `trace, `ticks, creds
      ensures trace == old(trace) + RefreshSends(refresh)
      ensures r == RefreshResult(refresh)
      ensures refresh.Sent? <==> creds.kind == User && (force || old(creds.NeedsRefresh(w.now(ticks))))
      ensures Minted(w, old(|trace|), BasesOf(conn.ordered), conn.current, refresh)
      ensures creds.Value() == HeldAfter(old(creds.Value()), refresh)
      ensures refresh.Sent? ==> refresh.at == w.now(old(ticks) + if force then 0 else 1)
      ensures Stamped(w, ticks, refresh)
      ensures var reply := w.reply(old(|trace|), conn.ordered[conn.current].base);
              if refresh.Sent? && CarriesTicket(reply) then
                r == Ok && creds.ticket == reply.body.ticket && creds.csrf == reply.body.csrf
                && creds.expiry == Some(refresh.at + 2 * 60 * 60 * 1_000_000_000)
              else (r == Ok <==> refresh.NotNeeded?) && creds.Value() == old(creds.Value())
    {
      refresh := NotNeeded;
      if creds.kind != User {
        return Ok, refresh;
      }
      if !force {
        var now := w.now(ticks);
        ticks := ticks + 1;
        if !creds.NeedsRefresh(now) {
          return Ok, refresh;
        }
      }
      var base := conn.BaseURL();
      OutcomeCases(w.reply(|trace|, base), true);
      var outcome := Exchange(w, base, true);
      refresh := Sent(Send(conn.current, outcome), w.now(ticks));
      if !outcome.Answered? {
        return Err(MintRefused(outcome)), refresh;
      }
      if outcome.ticket == "" {
        return Err(MintEmpty), refresh;
      }
      creds.SetTicket(outcome.ticket, outcome.csrf, w.now(ticks) + LIFETIME);
      ticks := ticks + 1;
      return Ok, refresh;
    }

    /** Mint a new ticket whatever the clock says, then run the request once more. */
    method Replay(w: World, wantsOut: bool) returns (r: Result, ghost again: Refresh, ghost second: seq<Send>)
      requires Valid()
      modifies this, conn, creds
      ensures Valid() && trace == old(trace) + (RefreshSends(again) + second)
      ensures Replayed(|conn.ordered|, policy.attempts, old(conn.current), again, second, r, conn.current)
      ensures ReplayFollows(w, old(|trace|), BasesOf(conn.ordered), wantsOut, old(conn.current), again, second, r)
      ensures again.Sent? <==> creds.kind == User
      ensures creds.Value() == HeldAfter(old(creds.Value()), again) && Stamped(w, ticks, again)
    {
      hide Finished, Followed;
      second := [];
      r, again := DoRefresh(w, true);
      if r == Ok {
        ghost var minted := trace;
        r, second := Execute(w, wantsOut);
        assert trace == minted + second;
      }
    }

    /** The refresh before the first run. */
    method RefreshIfNeeded(w: World) returns (r: Result, ghost refresh: Refresh)
      requires Valid()
      modifies `trace, `ticks, creds
      ensures trace == old(trace) + RefreshSends(refresh) && r == RefreshResult(refresh)
      ensures Minted(w, old(|trace|), BasesOf(conn.ordered), conn.current, refresh)
      ensures refresh.Sent? <==> creds.kind == User && old(creds.NeedsRefresh(w.now(ticks)) && creds.NeedsRefresh(w.now(ticks + 1)))
      ensures creds.Value() == HeldAfter(old(creds.Value()), refresh)
      ensures refresh.Sent? ==> refresh.at == w.now(old(ticks) + 2)
    {
      refresh := NotNeeded;
      var needed := creds.NeedsRefresh(w.now(ticks));
      ticks := ticks + 1;
      r := Ok;
      if needed {
        r, refresh := DoRefresh(w, false);
      }
    }

    /** The request itself, after the first refresh. */
    method Serve(w: World, wantsOut: bool)
      returns (r: Result, ghost first: seq<Send>, ghost firstResult: Result, ghost again: Refresh, ghost second: seq<Send>)
      requires Valid()
      modifies this, conn, creds
      ensures Valid() && trace == old(trace) + first + (RefreshSends(again) + second)
      ensures Served(|conn.ordered|, policy.attempts, old(conn.current), first, firstResult, again, second, r, conn.current)
      ensures ServeFollows(w, old(|trace|), BasesOf(conn.ordered), wantsOut, first, firstResult, again, second, r)
      ensures again.Sent? <==> firstResult == EXPIRED && creds.kind == User
      ensures creds.Value() == HeldAfter(old(creds.Value()), again) && Stamped(w, ticks, again)
    {
      hide Finished, Followed;
      again, second := NotNeeded, [];
      r, first := Execute(w, wantsOut);
      firstResult := r;
      if r == EXPIRED {
        ExpiredAt(|conn.ordered|, policy.attempts, old(conn.current), first, conn.current);
        r, again, second := Replay(w, wantsOut);
      }
    }

    /** DoRequest: refresh when needed, run, and after an expired ticket refresh and run once more. */
    method DoRequest(w: World, wantsOut: bool) returns (r: Result, ghost log: Log)
      requires Valid()
      modifies this, conn, creds
      ensures Valid() && trace == old(trace) + SendsOf(log)
      ensures Requested(|conn.ordered|, policy.attempts, old(conn.current), log, r, conn.current)
      ensures RequestFollows(w, old(|trace|), BasesOf(conn.ordered), wantsOut, old(conn.current), log, r)
      ensures log.refresh.Sent? <==>
                creds.kind == User
                && old(creds.expiry.None? || (w.now(ticks) + 300 * 1_000_000_000 > creds.expiry.value
                                              && w.now(ticks + 1) + 300 * 1_000_000_000 > creds.expiry.value))
      ensures log.again.Sent? <==> creds.kind == User && RefreshResult(log.refresh) == Ok && log.firstResult == EXPIRED
      ensures creds.Value() == HeldAfter(HeldAfter(old(creds.Value()), log.refresh), log.again)
      ensures log.refresh.Sent? ==> log.refresh.at == w.now(old(ticks) + 2)
      ensures Stamped(w, ticks, log.again)
    {
      hide Served, ServeFollows;
      ghost var refresh, before := NotNeeded, trace;
      r, refresh := RefreshIfNeeded(w);
      log := Log(refresh, [], Ok, NotNeeded, []);
      if r == Ok {
        ghost var first, firstResult, again, second;
        r, first, firstResult, again, second := Serve(w, wantsOut);
        log := Log(refresh, first, firstResult, again, second);
        SameSends(before, RefreshSends(refresh), first, RefreshSends(again), second);
      }
    }
  }

  lemma SameSends(before: seq<Send>, a: seq<Send>, b: seq<Send>, c: seq<Send>, d: seq<Send>)
    ensures before + a + b + (c + d) == before + (a + b + c + d)
  {
  }

  /** The sends of the first `ep` rounds of a run. */
  ghost predicate BetweenRounds(w: World, from: nat, bases: seq<string>, wantsOut: bool,
                                attempts: int, start: nat, ep: nat, sends: seq<Send>)
    requires |bases| > 0
  {
    && Targets(sends) == Rounds(start, |bases|, if attempts > 0 then attempts else 0, ep)
    && AllTransient(sends)
    && Followed(w, from, bases, wantsOut, sends)
  }

  lemma BeforeRounds(w: World, from: nat, bases: seq<string>, wantsOut: bool, attempts: int, start: nat)
    requires |bases| > 0
    ensures BetweenRounds(w, from, bases, wantsOut, attempts, start, 0, [])
  {
  }

  /** The next round ends the run, or extends it. */
  lemma NextRound(w: World, from: nat, bases: seq<string>, wantsOut: bool, attempts: int, start: nat, ep: nat,
                  sends: seq<Send>, part: seq<Send>, stopped: bool, result: Result)
    requires ep < |bases| && start < |bases|
    requires BetweenRounds(w, from, bases, wantsOut, attempts, start, ep, sends)
    requires RoundDone(attempts, After(start, |bases|, ep), part, stopped, result)
    requires Follows(w, from + |sends|, bases, wantsOut, part, result)
    ensures Follows(w, from, bases, wantsOut, sends + part, result)
    ensures stopped ==> Finished(|bases|, attempts, start, sends + part, result, After(start, |bases|, ep))
    ensures !stopped ==> BetweenRounds(w, from, bases, wantsOut, attempts, start, ep + 1, sends + part)
    ensures !stopped && |bases| == 1 ==> Finished(1, attempts, start, sends + part, result, start)
  {
    FollowsAppend(w, from, bases, wantsOut, sends, part, result);
    RoundFinishes(|bases|, attempts, start, ep, sends, part, stopped, result);
  }

  lemma RoundFinishes(n: nat, attempts: int, start: nat, ep: nat, sends: seq<Send>, part: seq<Send>, stopped: bool, result: Result)
    requires start < n && ep < n
    requires Targets(sends) == Rounds(start, n, if attempts > 0 then attempts else 0, ep) && AllTransient(sends)
    requires RoundDone(attempts, After(start, n, ep), part, stopped, result)
    ensures stopped ==> Finished(n, attempts, start, sends + part, result, After(start, n, ep))
    ensures !stopped ==> Targets(sends + part) == Rounds(start, n, if attempts > 0 then attempts else 0, ep + 1)
                         && AllTransient(sends + part)
    ensures !stopped && n == 1 ==> Finished(1, attempts, start, sends + part, result, start)
  {
    if stopped {
      StoppedFinishes(n, attempts, start, ep, sends, part, result);
    } else {
      RoundAppended(n, attempts, start, ep, sends, part, result);
      if n == 1 {
        assert sends + part == part;
        OnlyRoundFinishes(attempts, part, result);
      }
    }
  }

  /** The sends of a round so far. */
  ghost predicate InRound(w: World, from: nat, bases: seq<string>, wantsOut: bool, current: nat, sends: seq<Send>) {
    && Targets(sends) == Repeat(current, |sends|)
    && AllTransient(sends)
    && Followed(w, from, bases, wantsOut, sends)
  }

  lemma EmptyRound(w: World, from: nat, bases: seq<string>, wantsOut: bool, current: nat)
    ensures InRound(w, from, bases, wantsOut, current, [])
  {
  }

  /** A round in which nothing was answered is over when its attempts are, or was cancelled before. */
  lemma RoundEnds(w: World, from: nat, bases: seq<string>, wantsOut: bool, current: nat, sends: seq<Send>, attempts: int)
    requires InRound(w, from, bases, wantsOut, current, sends)
    ensures Followed(w, from, bases, wantsOut, sends)
    ensures |sends| < attempts ==> RoundDone(attempts, current, sends, true, Err(Cancelled))
    ensures |sends| == (if attempts > 0 then attempts else 0) ==>
              RoundDone(attempts, current, sends, false, if attempts <= 0 then Ok else Err(Api(Failed(Transient))))
  {
  }

  /** A round stops with the first answer that is not transient. */
  lemma RoundStops(w: World, from: nat, bases: seq<string>, wantsOut: bool, current: nat,
                   before: seq<Send>, outcome: Outcome, attempts: int)
    requires InRound(w, from, bases, wantsOut, current, before) && |before| < attempts && !IsTransient(outcome)
    requires Targets(before + [Send(current, outcome)]) == Repeat(current, |before| + 1)
    ensures RoundDone(attempts, current, before + [Send(current, outcome)], true, ResultOf(outcome))
  {
    var sends := before + [Send(current, outcome)];
    assert sends[..|sends| - 1] == before;
  }

  lemma OneMore(w: World, from: nat, bases: seq<string>, wantsOut: bool, current: nat, sends: seq<Send>, outcome: Outcome)
    requires InRound(w, from, bases, wantsOut, current, sends)
    requires current < |bases| && !w.cancelled(from + |sends|)
    requires outcome == OutcomeOf(w.reply(from + |sends|, bases[current]), wantsOut)
    ensures var more := sends + [Send(current, outcome)];
            && Targets(more) == Repeat(current, |more|)
            && Followed(w, from, bases, wantsOut, more)
            && (IsTransient(outcome) ==> InRound(w, from, bases, wantsOut, current, more))
  {
    FollowedAppend(w, from, bases, wantsOut, sends, [Send(current, outcome)]);
  }
}
