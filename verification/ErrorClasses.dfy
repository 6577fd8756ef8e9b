/** How a reply becomes an outcome: reading the envelope and classifying the failure. */
module ErrorClasses {

  datatype Sentinel = NoSentinel | NotFound | Conflict | Unauthorized | TicketExpired | Forbidden | Transient

  /** Lower case as far as ASCII text is concerned: the two letters outside ASCII whose lower
      case lies inside it are the Kelvin sign and the dotted capital I. */
  function LowerChar(c: char): char {
    if 'A' <= c <= 'Z' then c - 'A' + 'a'
    else if c == '\U{212A}' then 'k'
    else if c == '\U{0130}' then 'i'
    else c
  }

  function Lower(s: string): string { seq(|s|, i requires 0 <= i < |s| => LowerChar(s[i])) }

  predicate Contains(s: string, part: string) {
    |part| <= |s| && (s[..|part|] == part || (s != "" && Contains(s[1..], part)))
  }

  predicate NamesTicket(message: string) {
    Contains(Lower(message), "ticket expired") || Contains(Lower(message), "invalid ticket")
  }

  /** Classify, of a response; a send without one is always transient. */
  function Classify(status: int, message: string): Sentinel {
    if status == 404 then NotFound
    else if status == 409 then Conflict
    else if status == 401 then (if NamesTicket(message) then TicketExpired else Unauthorized)
    else if status == 403 then Forbidden
    else if status == 596 then Transient
    else if status >= 500 then Transient
    else NoSentinel
  }

  /** What the body of a response turns out to be: not readable at all, not a JSON envelope, an
      envelope whose data does not fit the caller's type, or data that does.  Of the data only
      the two members of a minted ticket matter here. */
  datatype Body = Unreadable | NotJSON | Misfit(message: string) | Fits(message: string, ticket: string, csrf: string)

  datatype Reply = NoResponse | Response(status: int, body: Body)

  datatype Outcome = Answered(ticket: string, csrf: string) | Failed(kind: Sentinel) | Malformed

  predicate IsSuccess(status: int) { 200 <= status < 300 }

  function MessageOf(body: Body): string {
    match body
    case Misfit(message) => message
    case Fits(message, _, _) => message
    case _ => ""
  }

  /** The send and readResponse together: `wantsOut` says whether the caller decodes the data. */
  function OutcomeOf(reply: Reply, wantsOut: bool): Outcome {
    match reply
    case NoResponse => Failed(Transient)
    case Response(status, body) =>
      if body.Unreadable? then Failed(Transient)
      else if body.NotJSON? && IsSuccess(status) && wantsOut then Malformed
      else if !IsSuccess(status) then Failed(Classify(status, MessageOf(body)))
      else match body
        case Fits(_, ticket, csrf) => Answered(ticket, csrf)
        case Misfit(_) => if wantsOut then Malformed else Answered("", "")
        case _ => Answered("", "")
  }

  predicate IsTransient(o: Outcome) { o == Failed(Transient) }

  /** What is retried: no response, an unreadable one, and a server-side status; nothing else. */
  lemma RetriedExactly(reply: Reply, wantsOut: bool)
    ensures IsTransient(OutcomeOf(reply, wantsOut)) <==>
            reply.NoResponse? || reply.body.Unreadable? || reply.status >= 500
  {
  }

  /** What makes the transport authenticate again: status 401 with a message that names the ticket. */
  lemma ReauthExactly(reply: Reply, wantsOut: bool)
    ensures OutcomeOf(reply, wantsOut) == Failed(TicketExpired) <==>
            reply.Response? && !reply.body.Unreadable? && reply.status == 401 && NamesTicket(MessageOf(reply.body))
  {
  }

  // ---- the same in the reply's own terms ----

  /** The call succeeded: a 2xx with a readable body, which fits where the caller decodes it. */
  predicate Succeeded(reply: Reply, wantsOut: bool) {
    reply.Response? && 200 <= reply.status < 300 && !reply.body.Unreadable? && (wantsOut ==> reply.body.Fits?)
  }

  /** A login that was answered with a ticket. */
  predicate CarriesTicket(reply: Reply) {
    reply.Response? && 200 <= reply.status < 300 && reply.body.Fits? && reply.body.ticket != ""
  }

  /** What every reply comes to. */
  lemma OutcomeCases(reply: Reply, wantsOut: bool)
    ensures Succeeded(reply, wantsOut) <==> OutcomeOf(reply, wantsOut).Answered?
    ensures Succeeded(reply, wantsOut) && reply.body.Fits? ==>
              OutcomeOf(reply, wantsOut).ticket == reply.body.ticket && OutcomeOf(reply, wantsOut).csrf == reply.body.csrf
    ensures reply.Response? && !reply.body.Unreadable? && 200 <= reply.status < 300 && !Succeeded(reply, wantsOut) ==>
              OutcomeOf(reply, wantsOut) == Malformed
    ensures reply.Response? && !reply.body.Unreadable? && !(200 <= reply.status < 300) ==>
              && (reply.status == 404 ==> OutcomeOf(reply, wantsOut) == Failed(NotFound))
              && (reply.status == 409 ==> OutcomeOf(reply, wantsOut) == Failed(Conflict))
              && (reply.status == 403 ==> OutcomeOf(reply, wantsOut) == Failed(Forbidden))
              && (reply.status >= 500 ==> OutcomeOf(reply, wantsOut) == Failed(Transient))
              && (reply.status == 401 && NamesTicket(MessageOf(reply.body)) ==> OutcomeOf(reply, wantsOut) == Failed(TicketExpired))
              && (reply.status == 401 && !NamesTicket(MessageOf(reply.body)) ==> OutcomeOf(reply, wantsOut) == Failed(Unauthorized))
              && (reply.status < 500 && reply.status !in {401, 403, 404, 409} ==> OutcomeOf(reply, wantsOut) == Failed(NoSentinel))
    ensures reply.NoResponse? || reply.body.Unreadable? ==> OutcomeOf(reply, wantsOut) == Failed(Transient)
  {
    hide NamesTicket;
  }

  /** The message an envelope brought, if it was one. */
  lemma MessageCases(body: Body)
    ensures body.Misfit? || body.Fits? ==> MessageOf(body) == body.message
    ensures body.NotJSON? || body.Unreadable? ==> MessageOf(body) == ""
  {
  }

  /** `c` is `p`, a small letter or a space, or else the capital of `p`, two signs of their own kind included. */
  predicate SameLetter(c: char, p: char) {
    c == p || (p != ' ' && c as int + 32 == p as int) || (p == 'k' && c == '\U{212A}') || (p == 'i' && c == '\U{0130}')
  }

  /** From position `i` on the message reads `part`. */
  predicate ReadsAt(message: string, i: int, part: string) {
    0 <= i && i + |part| <= |message| && forall k | 0 <= k < |part| :: SameLetter(message[i + k], part[k])
  }

  predicate StandsAt(s: string, i: int, part: string) {
    0 <= i && i + |part| <= |s| && s[i..i + |part|] == part
  }

  lemma {:induction false} ContainsAt(s: string, part: string)
    ensures Contains(s, part) <==> exists i :: StandsAt(s, i, part)
  {
    assert StandsAt(s, 0, part) <==> |part| <= |s| && s[..|part|] == part;
    if s != "" {
      ContainsAt(s[1..], part);
      forall i | StandsAt(s[1..], i, part) ensures StandsAt(s, i + 1, part) {
        assert s[1..][i..i + |part|] == s[i + 1..i + 1 + |part|];
      }
      forall i | i > 0 && StandsAt(s, i, part) ensures StandsAt(s[1..], i - 1, part) {
        assert s[1..][i - 1..i - 1 + |part|] == s[i..i + |part|];
      }
    }
  }

  predicate SmallText(part: string) { forall k | 0 <= k < |part| :: 'a' <= part[k] <= 'z' || part[k] == ' ' }

  lemma LowerReads(message: string, i: int, part: string)
    requires SmallText(part)
    ensures StandsAt(Lower(message), i, part) <==> ReadsAt(message, i, part)
  {
    if 0 <= i <= |message| - |part| {
      var low := Lower(message)[i..i + |part|];
      forall k | 0 <= k < |part| ensures low[k] == part[k] <==> SameLetter(message[i + k], part[k]) {
        assert low[k] == LowerChar(message[i + k]);
      }
    }
  }

  lemma LowerContains(message: string, part: string)
    requires SmallText(part)
    ensures Contains(Lower(message), part) <==> exists i :: ReadsAt(message, i, part)
  {
    hide Contains, StandsAt, ReadsAt, Lower;
    ContainsAt(Lower(message), part);
    forall i ensures StandsAt(Lower(message), i, part) <==> ReadsAt(message, i, part) {
      LowerReads(message, i, part);
    }
  }

  /** A message names the ticket when one of two phrases stands in it, in capitals or not. */
  lemma NamesTicketExactly(message: string)
    ensures NamesTicket(message) <==>
            exists i :: ReadsAt(message, i, "ticket expired") || ReadsAt(message, i, "invalid ticket")
  {
    hide Contains, Lower;
    LowerContains(message, "ticket expired");
    LowerContains(message, "invalid ticket");
  }
}
