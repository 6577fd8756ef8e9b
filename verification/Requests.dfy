/** What a request comes to, in terms of the replies it met. */
module Requests {
  import opened Options
  import opened ErrorClasses
  import opened RunLoop
  import opened Transport

  lemma LastFollowed(w: World, from: nat, bases: seq<string>, wantsOut: bool, sends: seq<Send>)
    requires Followed(w, from, bases, wantsOut, sends) && sends != []
    ensures sends[|sends| - 1].endpoint < |bases|
    ensures sends[|sends| - 1].outcome ==
            OutcomeOf(w.reply(from + |sends| - 1, bases[sends[|sends| - 1].endpoint]), wantsOut)
  {
    assert from + (|sends| - 1) == from + |sends| - 1;
  }

  /** The result that goes with the reply to a run's last send, when that is not retried. */
  predicate Reports(reply: Reply, wantsOut: bool, result: Result) {
    reply.Response? && !reply.body.Unreadable? && reply.status < 500 ==>
      if Succeeded(reply, wantsOut) then result == Ok
      else if 200 <= reply.status < 300 then result == Err(Api(Malformed))
      else result == Err(Api(Failed(match reply.status
                                    case 404 => NotFound
                                    case 409 => Conflict
                                    case 403 => Forbidden
                                    case 401 => (if NamesTicket(MessageOf(reply.body)) then TicketExpired else Unauthorized)
                                    case _ => NoSentinel)))
  }

  /** The result of a run that met a reply which is retried last, or none. */
  predicate GivesUp(n: nat, attempts: int, made: nat, result: Result) {
    result == if made < n * attempts then Err(Cancelled) else if n > 1 then Err(Exhausted) else Err(Api(Failed(Transient)))
  }

  predicate Retried(reply: Reply) { reply.NoResponse? || reply.body.Unreadable? || reply.status >= 500 }

  lemma LastReports(reply: Reply, wantsOut: bool, outcome: Outcome)
    requires outcome == OutcomeOf(reply, wantsOut)
    ensures IsTransient(outcome) <==> Retried(reply)
    ensures !Retried(reply) ==> Reports(reply, wantsOut, ResultOf(outcome))
  {
    hide NamesTicket, OutcomeOf;
    OutcomeCases(reply, wantsOut);
    RetriedExactly(reply, wantsOut);
  }

  /** A run with attempts returns what its last reply says, or gives up. */
  lemma RunReports(w: World, from: nat, bases: seq<string>, wantsOut: bool, attempts: int, start: nat,
                   sends: seq<Send>, result: Result, current: nat)
    requires |bases| > 0 && attempts > 0
    requires Finished(|bases|, attempts, start, sends, result, current) && Followed(w, from, bases, wantsOut, sends)
    ensures sends == [] ==> GivesUp(|bases|, attempts, 0, result)
    ensures sends != [] ==>
              && sends[|sends| - 1].endpoint < |bases|
              && var reply := w.reply(from + |sends| - 1, bases[sends[|sends| - 1].endpoint]);
                 if Retried(reply) then GivesUp(|bases|, attempts, |sends|, result) else Reports(reply, wantsOut, result)
  {
    hide OutcomeOf, Reports, Retried, Finished, Followed, IsTransient;
    if sends == [] {
      FailedRunReports(|bases|, attempts, start, sends, result, current);
    } else {
      var last := sends[|sends| - 1];
      LastFollowed(w, from, bases, wantsOut, sends);
      LastReports(w.reply(from + |sends| - 1, bases[last.endpoint]), wantsOut, last.outcome);
      if IsTransient(last.outcome) {
        FailedRunReports(|bases|, attempts, start, sends, result, current);
      } else {
        StoppedRunReports(|bases|, attempts, start, sends, result, current);
      }
    }
  }

  lemma StoppedRunReports(n: nat, attempts: int, start: nat, sends: seq<Send>, result: Result, current: nat)
    requires n > 0 && Finished(n, attempts, start, sends, result, current)
    requires sends != [] && !IsTransient(sends[|sends| - 1].outcome)
    ensures result == ResultOf(sends[|sends| - 1].outcome)
  {
  }

  /** The last run of a request: the replay, or the only one. */
  function LastRun(log: Log): seq<Send> { if log.firstResult == EXPIRED then log.second else log.first }

  /** When the refreshes succeeded, the request's result is its last run's, and that run's sends are its last. */
  lemma LastRunIs(w: World, from: nat, bases: seq<string>, wantsOut: bool, attempts: int, start: nat,
                  log: Log, result: Result, current: nat) returns (begun: nat)
    requires |bases| > 0 && Requested(|bases|, attempts, start, log, result, current)
    requires RequestFollows(w, from, bases, wantsOut, start, log, result)
    requires RefreshResult(log.refresh) == Ok && (log.firstResult == EXPIRED ==> RefreshResult(log.again) == Ok)
    ensures Finished(|bases|, attempts, begun, LastRun(log), result, current)
    ensures Followed(w, from + |SendsOf(log)| - |LastRun(log)|, bases, wantsOut, LastRun(log))
    ensures |SendsOf(log)| >= |LastRun(log)| && (LastRun(log) != [] ==>
              SendsOf(log)[|SendsOf(log)| - 1] == LastRun(log)[|LastRun(log)| - 1])
  {
    hide Finished, Followed;
    begun := start;
    if log.firstResult == EXPIRED {
      var mid :| Finished(|bases|, attempts, start, log.first, EXPIRED, mid)
                 && Replayed(|bases|, attempts, mid, log.again, log.second, result, current);
      begun := mid;
    }
  }

  /** With attempts, a request whose refreshes succeeded returns what the last reply of its last run says:
      nil if and only if that was a 2xx with a readable body, which fitted where the caller decodes it; the
      error of the status otherwise; and it gives up when that reply is one that is retried. */
  lemma RequestReports(w: World, from: nat, bases: seq<string>, wantsOut: bool, attempts: int, start: nat,
                       log: Log, result: Result, current: nat)
    requires |bases| > 0 && attempts > 0 && Requested(|bases|, attempts, start, log, result, current)
    requires RequestFollows(w, from, bases, wantsOut, start, log, result)
    requires RefreshResult(log.refresh) == Ok && (log.firstResult == EXPIRED ==> RefreshResult(log.again) == Ok)
    ensures LastRun(log) == [] ==> GivesUp(|bases|, attempts, 0, result)
    ensures LastRun(log) != [] ==>
              && SendsOf(log) != [] && SendsOf(log)[|SendsOf(log)| - 1].endpoint < |bases|
              && var reply := w.reply(from + |SendsOf(log)| - 1, bases[SendsOf(log)[|SendsOf(log)| - 1].endpoint]);
                 && (result == Ok <==> Succeeded(reply, wantsOut))
                 && if Retried(reply) then GivesUp(|bases|, attempts, |LastRun(log)|, result) else Reports(reply, wantsOut, result)
  {
    hide Requested, RequestFollows, Finished, Followed, SendsOf, LastRun;
    var begun := LastRunIs(w, from, bases, wantsOut, attempts, start, log, result, current);
    RunReports(w, from + |SendsOf(log)| - |LastRun(log)|, bases, wantsOut, attempts, begun, LastRun(log), result, current);
  }

  /** A request whose mint brought no ticket returns that, and nothing else was sent after it. */
  lemma MintReports(w: World, from: nat, bases: seq<string>, wantsOut: bool, attempts: int, start: nat,
                    log: Log, result: Result, current: nat)
    requires |bases| > 0 && Requested(|bases|, attempts, start, log, result, current)
    requires RequestFollows(w, from, bases, wantsOut, start, log, result)
    requires log.refresh.Sent?
    ensures start < |bases| && SendsOf(log)[0].endpoint == start
    ensures var reply := w.reply(from, bases[start]);
            !CarriesTicket(reply) ==>
              && |SendsOf(log)| == 1 && current == start
              && (result == Err(MintEmpty) <==> Succeeded(reply, true))
              && (result != Err(MintEmpty) ==> result.Err? && result.error.MintRefused?)
  {
    OutcomeCases(w.reply(from, bases[start]), true);
  }

  /** What the credentials hold after a request: the ticket, the token and two hours from the stamp of the
      last mint whose reply carried a ticket; what they held before, if there was none. */
  lemma RequestStores(w: World, from: nat, bases: seq<string>, wantsOut: bool, attempts: int, start: nat,
                      log: Log, result: Result, current: nat, held: Held)
    requires |bases| > 0 && Requested(|bases|, attempts, start, log, result, current)
    requires RequestFollows(w, from, bases, wantsOut, start, log, result)
    ensures log.refresh.Sent? ==> start < |bases|
    ensures log.again.Sent? ==> log.first != [] && log.first[|log.first| - 1].endpoint < |bases|
    ensures var first :=
              if log.refresh.Sent? && CarriesTicket(w.reply(from, bases[start])) then
                var body := w.reply(from, bases[start]).body;
                Held(body.ticket, body.csrf, Some(log.refresh.at + 2 * 60 * 60 * 1_000_000_000))
              else held;
            HeldAfter(HeldAfter(held, log.refresh), log.again) ==
            if log.again.Sent? then
              var reply := w.reply(from + |RefreshSends(log.refresh)| + |log.first|, bases[log.first[|log.first| - 1].endpoint]);
              if CarriesTicket(reply)
              then Held(reply.body.ticket, reply.body.csrf, Some(log.again.at + 2 * 60 * 60 * 1_000_000_000)) else first
            else first
  {
    hide Finished, Followed, OutcomeOf, CarriesTicket;
    if log.refresh.Sent? {
      MintStores(w, from, bases, start, log.refresh, held);
    }
    if log.again.Sent? {
      assert RefreshResult(log.refresh) == Ok && log.firstResult == EXPIRED;
      var e := log.first[|log.first| - 1].endpoint;
      MintStores(w, from + |RefreshSends(log.refresh)| + |log.first|, bases, e, log.again, HeldAfter(held, log.refresh));
    }
  }
}
