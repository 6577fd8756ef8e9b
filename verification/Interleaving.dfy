/** Any number of callers running the retry-and-failover loop on one connection.  Reading the
    current endpoint and rotating it are atomic; everything else interleaves freely. */
module Interleaving {
  import opened Options
  import opened ErrorClasses
  import opened RunLoop

  /** What a call saw when it read the current endpoint: the endpoint, and how many rotations the
      connection had made. */
  datatype Read = Read(endpoint: nat, rotations: nat)

  datatype Phase = Starting | Trying(attempt: nat, last: Result) | Done(result: Result)

  datatype Call = Call(round: nat, phase: Phase, seen: seq<Read>, sends: seq<Send>)

  datatype System = System(n: nat, attempts: int, start: nat, current: nat, rotations: nat, calls: map<nat, Call>)

  /** A new call; reading the endpoint at the top of a round; giving up on a cancelled context;
      one send and its outcome; the failover after a round. */
  datatype Action = Spawn(id: nat) | Begin(id: nat) | Cancel(id: nat) | Try(id: nat, outcome: Outcome) | Rotate(id: nat)

  function Initial(n: nat, attempts: int, start: nat): System { System(n, attempts, start, start, 0, map[]) }

  const NEW_CALL := Call(0, Starting, [], [])

  predicate CallEnabled(s: System, c: Call, a: Action) {
    match a
    case Spawn(_) => false
    case Begin(_) => c.phase.Starting?
    case Cancel(_) => c.phase.Trying? && c.phase.attempt <= s.attempts
    case Try(_, _) => c.phase.Trying? && c.phase.attempt <= s.attempts
    case Rotate(_) => c.phase.Trying? && c.phase.attempt > s.attempts
  }

  predicate Enabled(s: System, a: Action) {
    if a.Spawn? then a.id !in s.calls else a.id in s.calls && CallEnabled(s, s.calls[a.id], a)
  }

  /** The top of a round: read the current endpoint, or give up after the last one. */
  function Begun(s: System, c: Call): Call {
    if c.round < s.n then c.(phase := Trying(1, Ok), seen := c.seen + [Read(s.current, s.rotations)])
    else c.(phase := Done(Err(Exhausted)))
  }

  /** The endpoint of the call's current round. */
  function Base(c: Call): nat { if c.seen == [] then 0 else c.seen[|c.seen| - 1].endpoint }

  function Tried(c: Call, outcome: Outcome): Call
    requires c.phase.Trying?
  {
    c.(sends := c.sends + [Send(Base(c), outcome)],
       phase := if IsTransient(outcome) then Trying(c.phase.attempt + 1, Err(Api(outcome))) else Done(ResultOf(outcome)))
  }

  /** After a round that failed: the next one, or the end when there is nothing to rotate to. */
  function RoundOver(s: System, c: Call): Call
    requires c.phase.Trying?
  {
    if s.n > 1 then c.(round := c.round + 1, phase := Starting) else c.(phase := Done(c.phase.last))
  }

  /** What the action does to its call. */
  function Moved(s: System, a: Action): Call
    requires Enabled(s, a)
  {
    match a
    case Spawn(_) => NEW_CALL
    case Begin(id) => Begun(s, s.calls[id])
    case Cancel(id) => s.calls[id].(phase := Done(Err(Cancelled)))
    case Try(id, outcome) => Tried(s.calls[id], outcome)
    case Rotate(id) => RoundOver(s, s.calls[id])
  }

  function Do(s: System, a: Action): System
    requires Enabled(s, a)
  {
    var moved := s.(calls := s.calls[a.id := Moved(s, a)]);
    if a.Rotate? && s.n > 1 then moved.(current := Next(s.current, s.n), rotations := s.rotations + 1) else moved
  }

  /** The state a run of actions leads to, when each is enabled in its turn. */
  function Run(s: System, actions: seq<Action>): Option<System> {
    if actions == [] then Some(s)
    else
      match Run(s, actions[..|actions| - 1])
      case None => None
      case Some(t) => if Enabled(t, actions[|actions| - 1]) then Some(Do(t, actions[|actions| - 1])) else None
  }

  // ---- what every run keeps ----

  function Tries(attempts: int): nat { if attempts > 0 then attempts else 0 }

  /** The sends of whole rounds that began with these reads. */
  function Whole(seen: seq<Read>, tries: nat): (es: seq<nat>) {
    if seen == [] then [] else Whole(seen[..|seen| - 1], tries) + Repeat(seen[|seen| - 1].endpoint, tries)
  }

  function Init<T>(xs: seq<T>): seq<T> { if xs == [] then [] else xs[..|xs| - 1] }

  /** Each read saw the endpoint its rotation count stands for, and a call rotates between two reads. */
  predicate ReadsOrdered(s: System, seen: seq<Read>) {
    && (forall i | 0 <= i < |seen| :: seen[i].endpoint == After(s.start, s.n, seen[i].rotations)
                                      && seen[i].rotations <= s.rotations)
    && (forall i | 0 < i < |seen| :: seen[i - 1].rotations < seen[i].rotations)
  }

  /** The call is in its `k`-th round when `k` reads were made. */
  predicate CallKept(s: System, c: Call) {
    && ReadsOrdered(s, c.seen)
    && match c.phase
       case Starting =>
         && c.round == |c.seen| <= s.n
         && (c.seen != [] ==> s.n > 1 && c.seen[|c.seen| - 1].rotations < s.rotations)
         && Targets(c.sends) == Whole(c.seen, Tries(s.attempts)) && AllTransient(c.sends)
       case Trying(attempt, last) =>
         && |c.seen| == c.round + 1 <= s.n && 1 <= attempt <= Tries(s.attempts) + 1
         && last == (if attempt == 1 then Ok else Err(Api(Failed(Transient))))
         && Targets(c.sends) == Whole(Init(c.seen), Tries(s.attempts)) + Repeat(Base(c), attempt - 1)
         && AllTransient(c.sends)
       case Done(result) => Ended(s, c, result)
  }

  /** Position `m` of the call's sends lies in its last round. */
  predicate InLastRound(s: System, c: Call, m: int) {
    c.seen != [] && |Whole(Init(c.seen), Tries(s.attempts))| <= m < |Whole(c.seen, Tries(s.attempts))|
  }

  /** How a call can have ended. */
  predicate Ended(s: System, c: Call, result: Result) {
    var m := |c.sends|;
    && |c.seen| <= s.n
    && Targets(c.sends) <= Whole(c.seen, Tries(s.attempts))
    && AllTransient(Init(c.sends))
    && if m > 0 && !IsTransient(c.sends[m - 1].outcome) then
         result == ResultOf(c.sends[m - 1].outcome) && InLastRound(s, c, m - 1)
       else if result == Err(Cancelled) then
         InLastRound(s, c, m)
       else
         && |c.seen| == s.n && m == |Whole(c.seen, Tries(s.attempts))|
         && result == if s.n > 1 then Err(Exhausted) else if s.attempts <= 0 then Ok else Err(Api(Failed(Transient)))
  }

  predicate Kept(s: System) {
    && s.n > 0 && s.start < s.n
    && s.current == After(s.start, s.n, s.rotations)
    && forall id | id in s.calls :: CallKept(s, s.calls[id])
  }

  lemma BegunKept(s: System, c: Call)
    requires Kept(s) && CallKept(s, c) && c.phase.Starting?
    ensures CallKept(s, Begun(s, c))
  {
    if c.round < s.n {
      assert Init(Begun(s, c).seen) == c.seen;
    }
  }

  lemma CancelledKept(s: System, c: Call)
    requires CallKept(s, c) && CallEnabled(s, c, Cancel(0))
    ensures CallKept(s, c.(phase := Done(Err(Cancelled))))
  {
    PartOfRound(c.seen, Tries(s.attempts), c.phase.attempt - 1);
  }

  lemma OneMoreSend(sends: seq<Send>, send: Send, k: nat)
    requires k > 0
    ensures Targets(sends + [send]) == Targets(sends) + [send.endpoint] && Init(sends + [send]) == sends
    ensures Repeat(send.endpoint, k - 1) + [send.endpoint] == Repeat(send.endpoint, k)
    ensures AllTransient(sends) && IsTransient(send.outcome) ==> AllTransient(sends + [send])
  {
  }

  lemma TriedKept(s: System, c: Call, outcome: Outcome)
    requires CallKept(s, c) && CallEnabled(s, c, Try(0, outcome))
    ensures CallKept(s, Tried(c, outcome))
  {
    hide ReadsOrdered, Targets, Repeat, Whole;
    var send := Send(Base(c), outcome);
    OneMoreSend(c.sends, send, c.phase.attempt);
    PartOfRound(c.seen, Tries(s.attempts), c.phase.attempt);
  }

  lemma WholeRound(s: System, c: Call)
    requires CallKept(s, c) && CallEnabled(s, c, Rotate(0))
    ensures c.seen != [] && Targets(c.sends) == Whole(c.seen, Tries(s.attempts))
    ensures AllTransient(c.sends) && |c.sends| == |Whole(c.seen, Tries(s.attempts))|
    ensures c.phase.last == if s.attempts <= 0 then Ok else Err(Api(Failed(Transient)))
  {
    assert c.phase.attempt - 1 == Tries(s.attempts);
    PartOfRound(c.seen, Tries(s.attempts), Tries(s.attempts));
  }

  lemma RoundOverKept(s: System, s': System, c: Call)
    requires CallKept(s, c) && CallEnabled(s, c, Rotate(0))
    requires s'.n == s.n && s'.attempts == s.attempts && s'.start == s.start
    requires s'.rotations == s.rotations + if s.n > 1 then 1 else 0
    ensures CallKept(s', RoundOver(s, c))
  {
    WholeRound(s, c);
    if s.n > 1 {
      assert ReadsOrdered(s', c.seen);
    } else {
      assert AllTransient(Init(c.sends));
      assert Ended(s', c, c.phase.last);
    }
  }

  /** Part of the last round is a prefix of the whole rounds. */
  lemma PartOfRound(seen: seq<Read>, tries: nat, a: nat)
    requires seen != [] && a <= tries
    ensures var e := seen[|seen| - 1].endpoint;
            && Whole(seen, tries) == Whole(Init(seen), tries) + Repeat(e, tries)
            && Whole(Init(seen), tries) + Repeat(e, a) <= Whole(seen, tries)
  {
    assert Repeat(seen[|seen| - 1].endpoint, a) <= Repeat(seen[|seen| - 1].endpoint, tries);
  }

  /** What a call knows is not disturbed when others act: the rotations only grow. */
  lemma OthersKept(s: System, s': System, c: Call)
    requires CallKept(s, c) && s'.rotations >= s.rotations
    requires s'.n == s.n && s'.attempts == s.attempts && s'.start == s.start
    ensures CallKept(s', c)
  {
  }

  lemma MovedKept(s: System, a: Action)
    requires Kept(s) && Enabled(s, a)
    ensures CallKept(Do(s, a), Moved(s, a))
  {
    var s' := Do(s, a);
    match a {
      case Spawn(_) =>
      case Begin(id) =>
        BegunKept(s, s.calls[id]);
        OthersKept(s, s', Moved(s, a));
      case Cancel(id) =>
        CancelledKept(s, s.calls[id]);
        OthersKept(s, s', Moved(s, a));
      case Try(id, outcome) =>
        TriedKept(s, s.calls[id], outcome);
        OthersKept(s, s', Moved(s, a));
      case Rotate(id) =>
        RoundOverKept(s, s', s.calls[id]);
    }
  }

  lemma StepKept(s: System, a: Action)
    requires Kept(s) && Enabled(s, a)
    ensures Kept(Do(s, a))
  {
    var s' := Do(s, a);
    MovedKept(s, a);
    forall id | id in s'.calls ensures CallKept(s', s'.calls[id]) {
      if id != a.id {
        OthersKept(s, s', s.calls[id]);
      }
    }
  }

  /** The run of these actions from a fresh connection leads to `s`. */
  predicate Reached(s: System, actions: seq<Action>) {
    s.start < s.n && Run(Initial(s.n, s.attempts, s.start), actions) == Some(s)
  }

  /** The state before the last action of a run. */
  function Before(s: System, actions: seq<Action>): (t: System)
    requires Reached(s, actions) && actions != []
    ensures Reached(t, actions[..|actions| - 1]) && Enabled(t, actions[|actions| - 1])
    ensures s == Do(t, actions[|actions| - 1])
  {
    Run(Initial(s.n, s.attempts, s.start), actions[..|actions| - 1]).value
  }

  lemma {:induction false} RunKept(s: System, actions: seq<Action>)
    requires Reached(s, actions)
    ensures Kept(s)
    decreases |actions|
  {
    if actions != [] {
      var t := Before(s, actions);
      RunKept(t, actions[..|actions| - 1]);
      StepKept(t, actions[|actions| - 1]);
    }
  }

  // ---- safety ----

  /** In every interleaving the active endpoint is the starting one moved on by the number of
      failovers so far, whoever made them. */
  lemma CurrentCountsFailovers(s: System, actions: seq<Action>)
    requires Reached(s, actions)
    ensures s.current == (s.start + s.rotations) % s.n < s.n
  {
    RunKept(s, actions);
    AfterIsModulo(s.start, s.n, s.rotations);
  }

  lemma {:induction false} WholeLength(seen: seq<Read>, tries: nat)
    ensures |Whole(seen, tries)| == |seen| * tries
  {
    if seen != [] {
      WholeLength(Init(seen), tries);
      assert |seen| * tries == (|seen| - 1) * tries + tries;
    }
  }

  lemma SendsInRounds(s: System, c: Call)
    requires CallKept(s, c)
    ensures Targets(c.sends) <= Whole(c.seen, Tries(s.attempts)) && |c.seen| <= s.n
  {
    if c.phase.Trying? {
      PartOfRound(c.seen, Tries(s.attempts), c.phase.attempt - 1);
    }
  }

  /** Whatever the others do, a call makes at most `attempts` sends per endpoint. */
  lemma SendsBounded(s: System, actions: seq<Action>, id: nat)
    requires Reached(s, actions) && id in s.calls
    ensures |s.calls[id].sends| <= s.n * Tries(s.attempts)
  {
    var c := s.calls[id];
    RunKept(s, actions);
    SendsInRounds(s, c);
    WholeLength(c.seen, Tries(s.attempts));
    MulAtMost(|c.seen|, s.n, Tries(s.attempts));
    assert |Targets(c.sends)| == |c.sends|;
  }

  lemma {:induction false} WholeAt(seen: seq<Read>, tries: nat, r: nat, j: nat)
    requires r < |seen| && j < tries
    ensures r * tries + j < |Whole(seen, tries)| && Whole(seen, tries)[r * tries + j] == seen[r].endpoint
  {
    WholeLength(seen, tries);
    WholeLength(Init(seen), tries);
    if r < |seen| - 1 {
      WholeAt(Init(seen), tries, r, j);
    }
  }

  /** Position `m` of the whole rounds lies in one of them. */
  lemma InSomeRound(seen: seq<Read>, tries: nat, r: nat, j: nat)
    requires j < tries && r * tries + j < |Whole(seen, tries)|
    ensures r < |seen|
  {
    WholeLength(seen, tries);
    if r >= |seen| {
      MulAtMost(|seen|, r, tries);
    }
  }

  /** All sends of one round of a call go to the endpoint read when the round began. */
  lemma RoundKeepsEndpoint(s: System, c: Call, r: nat, j: nat)
    requires CallKept(s, c) && j < Tries(s.attempts)
    requires r * Tries(s.attempts) + j < |c.sends|
    ensures r < |c.seen| && c.sends[r * Tries(s.attempts) + j].endpoint == c.seen[r].endpoint
  {
    var tries := Tries(s.attempts);
    var m := r * tries + j;
    SendsInRounds(s, c);
    assert |Targets(c.sends)| == |c.sends|;
    InSomeRound(c.seen, tries, r, j);
    WholeAt(c.seen, tries, r, j);
    assert Targets(c.sends)[m] == c.sends[m].endpoint;
  }

  // ---- which endpoints a call tries ----

  /** The failovers other callers made between the call's first round and its round `i`: all that
      happened in between, less the one that ended each of the call's own rounds. */
  function Foreign(c: Call, i: nat): int
    requires i < |c.seen|
  {
    c.seen[i].rotations - c.seen[0].rotations - i
  }

  lemma {:induction false} AfterAdds(start: nat, n: nat, j: nat, k: nat)
    ensures After(start, n, j + k) == After(After(start, n, j), n, k)
  {
    if k > 0 {
      AfterAdds(start, n, j, k - 1);
    }
  }

  lemma {:induction false} ForeignNotNegative(s: System, c: Call, i: nat)
    requires ReadsOrdered(s, c.seen) && i < |c.seen|
    ensures Foreign(c, i) >= 0
  {
    if i > 0 {
      ForeignNotNegative(s, c, i - 1);
    }
  }

  /** Round `i` of a call goes to its first endpoint moved on by `i` and by the failovers of the
      other callers. */
  lemma RoundEndpoint(s: System, c: Call, i: nat)
    requires Kept(s) && CallKept(s, c) && i < |c.seen|
    ensures Foreign(c, i) >= 0
    ensures c.seen[i].endpoint == (c.seen[0].endpoint + i + Foreign(c, i)) % s.n
  {
    var first := c.seen[0].rotations;
    ForeignNotNegative(s, c, i);
    AfterIsModulo(s.start, s.n, first);
    AfterAdds(s.start, s.n, first, i + Foreign(c, i));
    AfterIsModulo(c.seen[0].endpoint, s.n, i + Foreign(c, i));
  }

  lemma RepeatHolds(last: nat, tries: nat, e: nat)
    requires tries > 0
    ensures e in Repeat(last, tries) <==> e == last
  {
    assert Repeat(last, tries)[0] == last;
  }

  lemma {:induction false} WholeHolds(seen: seq<Read>, tries: nat, e: nat)
    requires tries > 0
    ensures e in Whole(seen, tries) <==> exists i :: 0 <= i < |seen| && seen[i].endpoint == e
  {
    if seen != [] {
      hide Repeat;
      var init, last := Init(seen), seen[|seen| - 1];
      WholeHolds(init, tries, e);
      RepeatHolds(last.endpoint, tries, e);
      assert forall i | 0 <= i < |init| :: init[i] == seen[i];
      if e in Whole(init, tries) {
        var i :| 0 <= i < |init| && init[i].endpoint == e;
        assert seen[i].endpoint == e;
      }
    }
  }

  /** A call that reports every endpoint exhausted tried exactly the endpoints its rounds went to,
      one round per endpoint of the list, each `attempts` times. */
  lemma ExhaustedTried(s: System, c: Call, e: nat)
    requires Kept(s) && CallKept(s, c) && c.phase == Done(Err(Exhausted)) && s.attempts > 0
    ensures |c.seen| == s.n && Targets(c.sends) == Whole(c.seen, s.attempts)
    ensures e in Targets(c.sends) <==> exists i :: 0 <= i < s.n && c.seen[i].endpoint == e
  {
    WholeHolds(c.seen, s.attempts, e);
    assert |Targets(c.sends)| == |c.sends|;
  }

  /** With two endpoints, it tried both if and only if the others failed over an even number of
      times between its two rounds. */
  lemma TwoEndpointsTried(s: System, c: Call)
    requires Kept(s) && CallKept(s, c) && c.phase == Done(Err(Exhausted)) && s.attempts > 0 && s.n == 2
    ensures |c.seen| == 2
    ensures (0 in Targets(c.sends) && 1 in Targets(c.sends)) <==> Foreign(c, 1) % 2 == 0
  {
    ExhaustedTried(s, c, 0);
    ExhaustedTried(s, c, 1);
    RoundEndpoint(s, c, 0);
    RoundEndpoint(s, c, 1);
    assert c.seen[0].endpoint < 2 && c.seen[1].endpoint < 2;
  }

  // ---- a call that misses an endpoint ----

  lemma Extended(s: System, actions: seq<Action>, a: Action)
    requires Reached(s, actions) && Enabled(s, a)
    ensures Reached(Do(s, a), actions + [a])
  {
    assert (actions + [a])[..|actions|] == actions;
  }

  const FAILED := Call(0, Trying(2, Err(Api(Failed(Transient)))), [Read(0, 0)], [Send(0, Failed(Transient))])

  /** A new caller that tries the first endpoint once in vain. */
  lemma OneFails(s: System, actions: seq<Action>, id: nat) returns (t: System, more: seq<Action>)
    requires Reached(s, actions) && s.n == 2 && s.attempts == 1 && s.current == s.rotations == 0 && id !in s.calls
    ensures Reached(t, more) && t == s.(calls := s.calls[id := FAILED])
  {
    t, more := Follow(s, actions, Spawn(id));
    t, more := Follow(t, more, Begin(id));
    assert t.calls[id] == Call(0, Trying(1, Ok), [Read(0, 0)], []);
    t, more := Follow(t, more, Try(id, Failed(Transient)));
    assert t.calls[id] == FAILED;
  }

  lemma Follow(s: System, actions: seq<Action>, a: Action) returns (t: System, more: seq<Action>)
    requires Reached(s, actions) && Enabled(s, a)
    ensures t == Do(s, a) && more == actions + [a] && Reached(t, more)
  {
    t, more := Do(s, a), actions + [a];
    Extended(s, actions, a);
  }

  /** A call can report every endpoint exhausted though it never contacted one of them: both callers
      rotate, and the second failover takes the first caller back to where it came from. */
  lemma ExhaustedCanMissOne() returns (s: System, actions: seq<Action>)
    ensures Reached(s, actions) && s.n == 2 && s.attempts == 1
    ensures 0 in s.calls && s.calls[0].phase == Done(Err(Exhausted)) && 1 !in Targets(s.calls[0].sends)
  {
    s, actions := Initial(2, 1, 0), [];
    s, actions := OneFails(s, actions, 0);
    s, actions := OneFails(s, actions, 1);
    s, actions := Follow(s, actions, Rotate(0));
    s, actions := Follow(s, actions, Rotate(1));
    s, actions := Follow(s, actions, Begin(0));
    s, actions := Follow(s, actions, Try(0, Failed(Transient)));
    s, actions := Follow(s, actions, Rotate(0));
    s, actions := Follow(s, actions, Begin(0));
  }

  // ---- termination ----

  /** How many of the actions are the call's own. */
  function Own(actions: seq<Action>, id: nat): nat {
    if actions == [] then 0
    else Own(actions[..|actions| - 1], id) + if actions[|actions| - 1].id == id then 1 else 0
  }

  function Weight(rounds: int, tries: nat): nat { if rounds <= 0 then 0 else Weight(rounds - 1, tries) + tries + 2 }

  /** The steps a call has left at most. */
  function Left(n: nat, tries: nat, c: Call): int {
    match c.phase
    case Starting => Weight(n - c.round, tries) + 1
    case Trying(attempt, _) => Weight(n - c.round - 1, tries) + tries + 3 - attempt
    case Done(_) => 0
  }

  /** Every action of a call takes it closer to its end. */
  lemma OwnStepDecreases(s: System, a: Action)
    requires Kept(s) && Enabled(s, a) && !a.Spawn?
    ensures Left(s.n, Tries(s.attempts), Moved(s, a)) < Left(s.n, Tries(s.attempts), s.calls[a.id])
  {
    hide CallKept, ReadsOrdered, Ended;
    var c := s.calls[a.id];
    PhaseBounds(s, c);
    WeightNext(s.n - c.round, Tries(s.attempts));
  }

  lemma PhaseBounds(s: System, c: Call)
    requires CallKept(s, c) && !c.phase.Done?
    ensures c.phase.Starting? ==> c.round <= s.n
    ensures c.phase.Trying? ==> c.round < s.n && 1 <= c.phase.attempt <= Tries(s.attempts) + 1
  {
  }

  lemma WeightNext(rounds: int, tries: nat)
    ensures Weight(rounds, tries) == if rounds <= 0 then 0 else Weight(rounds - 1, tries) + tries + 2
  {
  }

  /** The steps a call has left, or would have once it is spawned. */
  function Remaining(s: System, id: nat): int {
    if id in s.calls then Left(s.n, Tries(s.attempts), s.calls[id]) else Weight(s.n, Tries(s.attempts)) + 2
  }

  lemma StepRemaining(s: System, a: Action, id: nat)
    requires Kept(s) && Enabled(s, a)
    ensures Remaining(Do(s, a), id) + (if a.id == id then 1 else 0) <= Remaining(s, id)
  {
    if a.id == id && !a.Spawn? {
      OwnStepDecreases(s, a);
    }
  }

  lemma {:induction false} OwnStepsLeft(s: System, actions: seq<Action>, id: nat)
    requires Reached(s, actions)
    ensures Own(actions, id) + Remaining(s, id) <= Weight(s.n, Tries(s.attempts)) + 2
    decreases |actions|
  {
    if actions != [] {
      var t, a := Before(s, actions), actions[|actions| - 1];
      OwnStepsLeft(t, actions[..|actions| - 1], id);
      RunKept(t, actions[..|actions| - 1]);
      StepRemaining(t, a, id);
    }
  }

  lemma LeftNotNegative(s: System, c: Call)
    requires CallKept(s, c)
    ensures Left(s.n, Tries(s.attempts), c) >= 0
  {
  }

  lemma {:induction false} WeightIs(rounds: nat, tries: nat)
    ensures Weight(rounds, tries) == rounds * (tries + 2)
  {
    if rounds > 0 {
      WeightIs(rounds - 1, tries);
      assert rounds * (tries + 2) == (rounds - 1) * (tries + 2) + (tries + 2);
    }
  }

  /** No call takes more than a bounded number of steps, in no interleaving and whatever the others
      do, and one that has not ended is never blocked. */
  lemma CallsTerminate(s: System, actions: seq<Action>, id: nat)
    requires Reached(s, actions)
    ensures Own(actions, id) <= s.n * (Tries(s.attempts) + 2) + 2
    ensures id in s.calls && !s.calls[id].phase.Done? ==> exists a: Action :: a.id == id && Enabled(s, a)
  {
    hide Kept, Weight, Left, CallKept, Enabled, Reached;
    OwnStepsLeft(s, actions, id);
    RunKept(s, actions);
    if id in s.calls {
      KeptCall(s, id);
      LeftNotNegative(s, s.calls[id]);
    }
    WeightIs(s.n, Tries(s.attempts));
    if id in s.calls && !s.calls[id].phase.Done? {
      NotBlocked(s, id);
    }
  }

  lemma KeptCall(s: System, id: nat)
    requires Kept(s) && id in s.calls
    ensures CallKept(s, s.calls[id])
  {
  }

  lemma NotBlocked(s: System, id: nat)
    requires id in s.calls && !s.calls[id].phase.Done?
    ensures exists a: Action :: a.id == id && Enabled(s, a)
  {
    assert Enabled(s, Begin(id)) || Enabled(s, Rotate(id)) || Enabled(s, Cancel(id));
  }

  // ---- a lone caller ----

  /** One call on its own made every failover itself. */
  predicate Alone(s: System, id: nat) {
    && s.calls.Keys <= {id}
    && if id !in s.calls then s.rotations == 0 else
         var c := s.calls[id];
         && (forall i | 0 <= i < |c.seen| :: c.seen[i].rotations == i)
         && match c.phase
            case Starting => s.rotations == |c.seen|
            case Trying(_, _) => s.rotations == |c.seen| - 1
            case Done(result) => s.rotations == if result == Err(Exhausted) then |c.seen| else |c.seen| - 1
  }

  lemma {:induction false} AloneKept(s: System, actions: seq<Action>, id: nat)
    requires Reached(s, actions) && forall i | 0 <= i < |actions| :: actions[i].id == id
    ensures Alone(s, id)
    decreases |actions|
  {
    if actions != [] {
      var t, a := Before(s, actions), actions[|actions| - 1];
      AloneKept(t, actions[..|actions| - 1], id);
      RunKept(t, actions[..|actions| - 1]);
      AloneStep(t, a, id);
    }
  }

  lemma AloneStep(s: System, a: Action, id: nat)
    requires Kept(s) && Alone(s, id) && Enabled(s, a) && a.id == id
    ensures Alone(Do(s, a), id)
  {
    hide ReadsOrdered, Targets, Whole, AllTransient;
    if id in s.calls && a.Begin? {
      AloneBegins(s, s.calls[id]);
    }
  }

  lemma AloneBegins(s: System, c: Call)
    requires c.phase.Starting? && s.rotations == |c.seen| && forall i | 0 <= i < |c.seen| :: c.seen[i].rotations == i
    ensures forall i | 0 <= i < |Begun(s, c).seen| :: Begun(s, c).seen[i].rotations == i
  {
  }

  lemma {:induction false} WholeIsRounds(s: System, seen: seq<Read>)
    requires s.n > 0 && ReadsOrdered(s, seen) && forall i | 0 <= i < |seen| :: seen[i].rotations == i
    ensures Whole(seen, Tries(s.attempts)) == Rounds(s.start, s.n, Tries(s.attempts), |seen|)
    decreases |seen|
  {
    if seen != [] {
      WholeIsRounds(s, Init(seen));
    }
  }

  /** The endpoint of the last round is where the rest of the plan goes on. */
  lemma InLastRoundTarget(s: System, c: Call, m: nat)
    requires s.n > 0 && InLastRound(s, c, m) && |c.seen| <= s.n
    requires ReadsOrdered(s, c.seen) && forall i | 0 <= i < |c.seen| :: c.seen[i].rotations == i
    ensures var plan := Plan(s.start, s.n, s.attempts);
            m < |plan| && plan[m] == After(s.start, s.n, |c.seen| - 1)
            && Whole(c.seen, Tries(s.attempts)) <= plan
  {
    WholeIsRounds(s, c.seen);
    RoundsPrefix(s.start, s.n, Tries(s.attempts), |c.seen|, s.n);
    assert Whole(c.seen, Tries(s.attempts))[m] == c.seen[|c.seen| - 1].endpoint;
  }

  /** Such a call ended as the sequential loop would, with the connection `moved` endpoints on. */
  lemma EndedFinishes(s: System, c: Call, result: Result)
    requires s.n > 0 && s.start < s.n && ReadsOrdered(s, c.seen) && Ended(s, c, result)
    requires forall i | 0 <= i < |c.seen| :: c.seen[i].rotations == i
    requires s.current == After(s.start, s.n, if result == Err(Exhausted) then |c.seen| else |c.seen| - 1)
    ensures Finished(s.n, s.attempts, s.start, c.sends, result, s.current)
  {
    var m, tries := |c.sends|, Tries(s.attempts);
    assert |Targets(c.sends)| == m;
    if m > 0 && !IsTransient(c.sends[m - 1].outcome) {
      InLastRoundTarget(s, c, m - 1);
      assert Targets(c.sends)[m - 1] == c.sends[m - 1].endpoint;
    } else if result == Err(Cancelled) {
      InLastRoundTarget(s, c, m);
    } else {
      WholeIsRounds(s, c.seen);
      FullCircle(s.start, s.n);
    }
  }

  /** A caller alone on its connection makes exactly the run that the sequential loop makes. */
  lemma LoneCallFinishes(s: System, actions: seq<Action>, id: nat)
    requires Reached(s, actions) && forall i | 0 <= i < |actions| :: actions[i].id == id
    requires id in s.calls && s.calls[id].phase.Done?
    ensures Finished(s.n, s.attempts, s.start, s.calls[id].sends, s.calls[id].phase.result, s.current)
  {
    RunKept(s, actions);
    AloneKept(s, actions, id);
    EndedFinishes(s, s.calls[id], s.calls[id].phase.result);
  }

  // ---- every sequential run is a run of a lone caller ----

  /** A lone call that made these sends and is about to make the next one of its plan. */
  predicate Ready(s: System, actions: seq<Action>, sends: seq<Send>) {
    && Reached(s, actions) && (forall i | 0 <= i < |actions| :: actions[i].id == 0)
    && 0 in s.calls && s.calls[0].phase.Trying? && s.calls[0].phase.attempt <= s.attempts && s.calls[0].sends == sends
  }

  /** A lone call that ended with this result after these sends. */
  predicate LoneEnded(s: System, actions: seq<Action>, sends: seq<Send>, result: Result) {
    && Reached(s, actions) && (forall i | 0 <= i < |actions| :: actions[i].id == 0)
    && 0 in s.calls && s.calls[0].phase == Done(result) && s.calls[0].sends == sends
  }

  predicate OfSize(s: System, n: nat, attempts: int, start: nat) { s.n == n && s.attempts == attempts && s.start == start }

  lemma LoneFollow(s: System, actions: seq<Action>, a: Action) returns (t: System, more: seq<Action>)
    requires Reached(s, actions) && Enabled(s, a) && a.id == 0 && forall i | 0 <= i < |actions| :: actions[i].id == 0
    ensures t == Do(s, a) && more == actions + [a] && Reached(t, more)
    ensures forall i | 0 <= i < |more| :: more[i].id == 0
  {
    t, more := Follow(s, actions, a);
  }

  /** A lone call's sends so far go where the plan says. */
  lemma LoneSends(s: System, actions: seq<Action>)
    requires Reached(s, actions) && 0 in s.calls && forall i | 0 <= i < |actions| :: actions[i].id == 0
    ensures Targets(s.calls[0].sends) <= Plan(s.start, s.n, s.attempts)
  {
    var c := s.calls[0];
    RunKept(s, actions);
    AloneKept(s, actions, 0);
    SendsInRounds(s, c);
    WholeIsRounds(s, c.seen);
    RoundsPrefix(s.start, s.n, Tries(s.attempts), |c.seen|, s.n);
  }

  /** The next send of a lone call goes to the next endpoint of the plan. */
  lemma LoneTry(s: System, actions: seq<Action>, sends: seq<Send>, next: Send) returns (t: System, more: seq<Action>)
    requires Ready(s, actions, sends) && Targets(sends + [next]) <= Plan(s.start, s.n, s.attempts)
    ensures t == Do(s, Try(0, next.outcome)) && t.calls[0].sends == sends + [next]
    ensures Reached(t, more) && forall i | 0 <= i < |more| :: more[i].id == 0
  {
    t, more := LoneFollow(s, actions, Try(0, next.outcome));
    LoneSends(t, more);
    var base := Base(s.calls[0]);
    assert t.calls[0].sends == sends + [Send(base, next.outcome)];
    assert Targets(sends + [Send(base, next.outcome)])[|sends|] == base;
    assert Targets(sends + [next])[|sends|] == next.endpoint;
  }

  /** What a run that fails everywhere returns. */
  function Failure(n: nat, attempts: int): Result {
    if n > 1 then Err(Exhausted) else if attempts <= 0 then Ok else Err(Api(Failed(Transient)))
  }

  lemma LoneStart(n: nat, attempts: int, start: nat) returns (s: System, actions: seq<Action>)
    requires start < n
    ensures Reached(s, actions) && OfSize(s, n, attempts, start) && forall i | 0 <= i < |actions| :: actions[i].id == 0
    ensures 0 in s.calls && s.calls[0].phase == Trying(1, Ok) && s.calls[0].round == 0 && s.calls[0].sends == []
  {
    s, actions := Initial(n, attempts, start), [];
    s, actions := LoneFollow(s, actions, Spawn(0));
    s, actions := LoneFollow(s, actions, Begin(0));
  }

  /** After the last attempt of a round: the next round, or the end. */
  lemma LoneRoundOver(s: System, actions: seq<Action>, sends: seq<Send>) returns (t: System, more: seq<Action>)
    requires Reached(s, actions) && forall i | 0 <= i < |actions| :: actions[i].id == 0
    requires 0 in s.calls && s.calls[0].phase.Trying? && s.calls[0].phase.attempt > s.attempts && s.calls[0].sends == sends
    ensures Reached(t, more) && OfSize(t, s.n, s.attempts, s.start) && forall i | 0 <= i < |more| :: more[i].id == 0
    ensures 0 in t.calls && t.calls[0].sends == sends
    ensures if s.n > 1 && s.calls[0].round + 1 < s.n
            then t.calls[0].phase == Trying(1, Ok) && t.calls[0].round == s.calls[0].round + 1
            else t.calls[0].phase == Done(if s.n > 1 then Err(Exhausted) else s.calls[0].phase.last)
  {
    t, more := LoneFollow(s, actions, Rotate(0));
    if s.n > 1 {
      t, more := LoneFollow(t, more, Begin(0));
    }
  }

  /** A transient send leaves the call ready for the next one, or ends it. */
  lemma LoneMore(s: System, actions: seq<Action>, sends: seq<Send>, next: Send) returns (t: System, more: seq<Action>)
    requires s.attempts > 0 && IsTransient(next.outcome)
    requires Ready(s, actions, sends) && Targets(sends + [next]) <= Plan(s.start, s.n, s.attempts)
    ensures OfSize(t, s.n, s.attempts, s.start)
    ensures Ready(t, more, sends + [next]) || LoneEnded(t, more, sends + [next], Failure(s.n, s.attempts))
  {
    hide Targets, Plan, Reached;
    t, more := LoneTry(s, actions, sends, next);
    if t.calls[0].phase.attempt > t.attempts {
      t, more := LoneRoundOver(t, more, sends + [next]);
    }
  }

  /** The call is ready as long as there is more of the plan, and over when there is none. */
  lemma LoneProgress(s: System, actions: seq<Action>, sends: seq<Send>)
    requires s.attempts > 0
    ensures Ready(s, actions, sends) ==> |sends| < |Plan(s.start, s.n, s.attempts)|
    ensures LoneEnded(s, actions, sends, Failure(s.n, s.attempts)) && AllTransient(sends) ==> |sends| == |Plan(s.start, s.n, s.attempts)|
  {
    hide Reached;
    if 0 in s.calls && Reached(s, actions) {
      var c := s.calls[0];
      RunKept(s, actions);
      PlanLength(s.start, s.n, s.attempts);
      WholeLength(c.seen, Tries(s.attempts));
      WholeLength(Init(c.seen), Tries(s.attempts));
      MulAtMost(|c.seen|, s.n, s.attempts);
      assert |Targets(c.sends)| == |c.sends|;
      assert c.seen != [] ==> |c.seen| * s.attempts == (|c.seen| - 1) * s.attempts + s.attempts;
    }
  }

  /** A lone call can make any transient sends that follow the plan. */
  lemma {:induction false} LoneTransient(n: nat, attempts: int, start: nat, sends: seq<Send>) returns (s: System, actions: seq<Action>)
    requires start < n && attempts > 0 && Targets(sends) <= Plan(start, n, attempts) && AllTransient(sends)
    ensures OfSize(s, n, attempts, start)
    ensures if |sends| < |Plan(start, n, attempts)| then Ready(s, actions, sends)
            else LoneEnded(s, actions, sends, Failure(n, attempts))
  {
    hide Ready, LoneEnded, Plan, Failure;
    if sends == [] {
      s, actions := LoneStart(n, attempts, start);
      LoneReady(s, actions);
    } else {
      var m := |sends| - 1;
      assert |Targets(sends)| == |sends|;
      assert Targets(sends[..m]) == Targets(sends)[..m];
      s, actions := LoneTransient(n, attempts, start, sends[..m]);
      assert sends == sends[..m] + [sends[m]];
      s, actions := LoneMore(s, actions, sends[..m], sends[m]);
    }
    LoneProgress(s, actions, sends);
  }

  lemma LoneReady(s: System, actions: seq<Action>)
    requires Reached(s, actions) && s.attempts > 0 && forall i | 0 <= i < |actions| :: actions[i].id == 0
    requires 0 in s.calls && s.calls[0].phase == Trying(1, Ok) && s.calls[0].sends == []
    ensures Ready(s, actions, [])
  {
  }

  /** Without attempts a lone call goes through its rounds and sends nothing. */
  lemma {:induction false} LoneIdle(n: nat, attempts: int, start: nat, k: nat) returns (s: System, actions: seq<Action>)
    requires start < n && attempts <= 0 && k < n
    ensures Reached(s, actions) && OfSize(s, n, attempts, start) && forall i | 0 <= i < |actions| :: actions[i].id == 0
    ensures 0 in s.calls && s.calls[0].phase == Trying(1, Ok) && s.calls[0].round == k && s.calls[0].sends == []
  {
    hide Reached;
    if k == 0 {
      s, actions := LoneStart(n, attempts, start);
    } else {
      s, actions := LoneIdle(n, attempts, start, k - 1);
      s, actions := LoneRoundOver(s, actions, []);
    }
  }

  lemma FinishedOnce(n: nat, attempts: int, start: nat, sends: seq<Send>, result: Result, current1: nat, current2: nat)
    requires n > 0 && Finished(n, attempts, start, sends, result, current1) && Finished(n, attempts, start, sends, result, current2)
    ensures current1 == current2
  {
  }

  /** Nothing is missing: every run that the sequential loop can make is one a lone caller can make here,
      send by send, with the same result, and it leaves the same endpoint active. */
  lemma LoneCallReaches(n: nat, attempts: int, start: nat, sends: seq<Send>, result: Result, current: nat)
    returns (s: System, actions: seq<Action>)
    requires start < n && Finished(n, attempts, start, sends, result, current)
    ensures Reached(s, actions) && OfSize(s, n, attempts, start) && forall i | 0 <= i < |actions| :: actions[i].id == 0
    ensures 0 in s.calls && s.calls[0].phase == Done(result) && s.calls[0].sends == sends && s.current == current
  {
    s, actions := LoneEnds(n, attempts, start, sends, result, current);
    LoneCallFinishes(s, actions, 0);
    FinishedOnce(n, attempts, start, sends, result, current, s.current);
  }

  lemma LoneEnds(n: nat, attempts: int, start: nat, sends: seq<Send>, result: Result, current: nat)
    returns (s: System, actions: seq<Action>)
    requires start < n && Finished(n, attempts, start, sends, result, current)
    ensures OfSize(s, n, attempts, start) && LoneEnded(s, actions, sends, result)
  {
    hide Reached;
    var m, plan := |sends|, Plan(start, n, attempts);
    assert |Targets(sends)| == m;
    PlanLength(start, n, attempts);
    if attempts <= 0 {
      s, actions := LoneIdle(n, attempts, start, n - 1);
      s, actions := LoneRoundOver(s, actions, []);
    } else if m > 0 && !IsTransient(sends[m - 1].outcome) {
      assert Targets(sends[..m - 1]) == Targets(sends)[..m - 1];
      s, actions := LoneTransient(n, attempts, start, sends[..m - 1]);
      assert sends == sends[..m - 1] + [sends[m - 1]];
      s, actions := LoneTry(s, actions, sends[..m - 1], sends[m - 1]);
    } else {
      s, actions := LoneTransient(n, attempts, start, sends);
      if m < |plan| {
        s, actions := LoneFollow(s, actions, Cancel(0));
      }
    }
  }
}
