/** Any number of whole requests on one transport, sharing its active endpoint and one set of user
    credentials: each refreshes the ticket if it has to, runs, and after an expired ticket
    refreshes again and replays.  A step of a request is one step of the loop or of the refresh. */
module ConcurrentRequests {
  import opened Options
  import opened ErrorClasses
  import opened RunLoop
  import opened Tickets
  import I = Interleaving
  import M = TicketMinting

  /** Refreshing, from the moment it mints with the endpoint the mint is addressed to; in the
      loop; returned.  The second time around it refreshes by force. */
  datatype Stage = Refreshing(again: bool, aim: Option<nat>) | Running(again: bool) | Returned(result: Result)

  /** A request, and the sends that its two refreshes made. */
  datatype Request = Request(stage: Stage, mint: Option<Send>, remint: Option<Send>)

  datatype System = System(net: I.System, creds: M.System, requests: map<nat, Request>)

  /** The clock; DoRequest with its first check; the mint lock; the check under it; addressing a
      mint to the active endpoint; its reply; storing the ticket; a step of the loop. */
  datatype Action = Tick(elapsed: nat) | Start(k: nat) | Lock(k: nat) | Check(k: nat) | Aim(k: nat)
    | Reply(k: nat, outcome: Outcome) | Store(k: nat) | Loop(k: nat, step: I.Action)

  function Initial(n: nat, attempts: int, start: nat, now: int): System {
    System(I.Initial(n, attempts, start), M.Initial(now), map[])
  }

  /** The name under which request `k` runs the loop, and under which it refreshes. */
  function Id(k: nat, again: bool): nat { 2 * k + if again then 1 else 0 }

  /** Whether the reply to a mint carries a ticket. */
  predicate Minted(o: Outcome) { o.Answered? && o.ticket != "" }

  function MintError(o: Outcome): Error { if o.Answered? then MintEmpty else MintRefused(o) }

  predicate IsRefreshing(s: System, k: nat) { k in s.requests && s.requests[k].stage.Refreshing? }

  predicate IsRunning(s: System, k: nat) { k in s.requests && s.requests[k].stage.Running? }

  /** The name a request goes by in its present stage. */
  function Now(s: System, k: nat): nat
    requires IsRefreshing(s, k) || IsRunning(s, k)
  {
    Id(k, s.requests[k].stage.again)
  }

  /** Whether request `k` is at the stage the action belongs to. */
  predicate AtStage(s: System, a: Action) {
    match a
    case Tick(_) => true
    case Start(k) => k !in s.requests
    case Lock(k) => IsRefreshing(s, k) && M.Enabled(s.creds, M.Acquire(Now(s, k)))
    case Check(k) => IsRefreshing(s, k) && M.Enabled(s.creds, M.Recheck(Now(s, k)))
    case Aim(k) => IsRefreshing(s, k) && s.requests[k].stage.aim.None? && M.Enabled(s.creds, M.Stamp(Now(s, k)))
    case Reply(k, _) => IsRefreshing(s, k) && s.requests[k].stage.aim.Some? && M.Enabled(s.creds, M.Stamp(Now(s, k)))
    case Store(k) => IsRefreshing(s, k) && M.Enabled(s.creds, M.Store(Now(s, k)))
    case Loop(k, step) => IsRunning(s, k) && step.id == Now(s, k) && !step.Spawn? && I.Enabled(s.net, step)
  }

  /** The loop ended with an expired ticket for the first time. */
  predicate FoundExpired(s: System, a: Action)
    requires a.Loop? && AtStage(s, a)
  {
    !s.requests[a.k].stage.again && I.Moved(s.net, a.step).phase == I.Done(EXPIRED)
  }

  /** The check under the lock found that nothing needs to be minted. */
  predicate NothingToMint(s: System, a: Action)
    requires a.Check? && AtStage(s, a)
  {
    M.Do(s.creds, M.Recheck(Now(s, a.k))).callers[Now(s, a.k)].Returned?
  }

  /** What the action does on the connection. */
  function NetStep(s: System, a: Action): Option<I.Action>
    requires AtStage(s, a)
  {
    match a
    case Start(k) => if Stale(s.creds.expiry, s.creds.now) then None else Some(I.Spawn(Id(k, false)))
    case Check(k) => if NothingToMint(s, a) then Some(I.Spawn(Now(s, k))) else None
    case Store(k) => Some(I.Spawn(Now(s, k)))
    case Loop(_, step) => Some(step)
    case _ => None
  }

  /** What the action does to the credentials. */
  function CredStep(s: System, a: Action): Option<M.Action>
    requires AtStage(s, a)
  {
    match a
    case Tick(elapsed) => Some(M.Tick(elapsed))
    case Start(k) => if Stale(s.creds.expiry, s.creds.now) then Some(M.Arrive(Id(k, false), false)) else None
    case Lock(k) => Some(M.Acquire(Now(s, k)))
    case Check(k) => Some(M.Recheck(Now(s, k)))
    case Aim(k) => None
    case Reply(k, o) => Some(if Minted(o) then M.Stamp(Now(s, k)) else M.Refused(Now(s, k)))
    case Store(k) => Some(M.Store(Now(s, k)))
    case Loop(k, _) => if FoundExpired(s, a) then Some(M.Arrive(Id(k, true), true)) else None
  }

  /** The request after its action. */
  function Moved(s: System, a: Action): Request
    requires AtStage(s, a) && !a.Tick?
  {
    match a
    case Start(_) => Request(if Stale(s.creds.expiry, s.creds.now) then Refreshing(false, None) else Running(false), None, None)
    case Lock(k) => s.requests[k]
    case Check(k) =>
      var r := s.requests[k];
      if NothingToMint(s, a) then r.(stage := Running(r.stage.again)) else r
    case Aim(k) => s.requests[k].(stage := Refreshing(s.requests[k].stage.again, Some(s.net.current)))
    case Reply(k, o) =>
      var r := s.requests[k];
      var sent := Some(Send(r.stage.aim.value, o));
      var answered := if r.stage.again then r.(remint := sent) else r.(mint := sent);
      if Minted(o) then answered else answered.(stage := Returned(Err(MintError(o))))
    case Store(k) => s.requests[k].(stage := Running(s.requests[k].stage.again))
    case Loop(k, step) =>
      var r := s.requests[k];
      match I.Moved(s.net, step).phase
      case Done(result) => r.(stage := if FoundExpired(s, a) then Refreshing(true, None) else Returned(result))
      case _ => r
  }

  predicate NetReady(net: I.System, step: Option<I.Action>) { step.Some? ==> I.Enabled(net, step.value) }

  predicate CredsReady(creds: M.System, step: Option<M.Action>) { step.Some? ==> M.Enabled(creds, step.value) }

  predicate Enabled(s: System, a: Action) {
    AtStage(s, a) && NetReady(s.net, NetStep(s, a)) && CredsReady(s.creds, CredStep(s, a))
  }

  function NetAfter(net: I.System, step: Option<I.Action>): I.System
    requires NetReady(net, step)
  {
    if step.Some? then I.Do(net, step.value) else net
  }

  function CredsAfter(creds: M.System, step: Option<M.Action>): M.System
    requires CredsReady(creds, step)
  {
    if step.Some? then M.Do(creds, step.value) else creds
  }

  function Do(s: System, a: Action): System
    requires Enabled(s, a)
  {
    System(NetAfter(s.net, NetStep(s, a)), CredsAfter(s.creds, CredStep(s, a)),
           if a.Tick? then s.requests else s.requests[a.k := Moved(s, a)])
  }

  function Run(s: System, actions: seq<Action>): Option<System> {
    if actions == [] then Some(s)
    else
      match Run(s, actions[..|actions| - 1])
      case None => None
      case Some(t) => if Enabled(t, actions[|actions| - 1]) then Some(Do(t, actions[|actions| - 1])) else None
  }

  predicate Reached(now: int, s: System, actions: seq<Action>) {
    s.net.start < s.net.n && Run(Initial(s.net.n, s.net.attempts, s.net.start, now), actions) == Some(s)
  }

  /** The state before the last action of a run. */
  function Before(now: int, s: System, actions: seq<Action>): (t: System)
    requires Reached(now, s, actions) && actions != []
    ensures Reached(now, t, actions[..|actions| - 1]) && Enabled(t, actions[|actions| - 1])
    ensures s == Do(t, actions[|actions| - 1])
  {
    Run(Initial(s.net.n, s.net.attempts, s.net.start, now), actions[..|actions| - 1]).value
  }

  // ---- a run of requests is a run of calls and a run of refreshes ----

  function Told<T>(steps: seq<T>, step: Option<T>): seq<T> { if step.Some? then steps + [step.value] else steps }

  lemma NetFollows(net: I.System, steps: seq<I.Action>, step: Option<I.Action>)
    requires I.Reached(net, steps) && NetReady(net, step)
    ensures I.Reached(NetAfter(net, step), Told(steps, step))
  {
    if step.Some? {
      I.Extended(net, steps, step.value);
    }
  }

  lemma CredsFollow(now: int, creds: M.System, steps: seq<M.Action>, step: Option<M.Action>)
    requires M.Reached(now, creds, steps) && CredsReady(creds, step)
    ensures M.Reached(now, CredsAfter(creds, step), Told(steps, step))
  {
    if step.Some? {
      var _, _ := M.Extended(now, creds, steps, step.value);
    }
  }

  /** Whatever the requests do, their calls run as in Interleaving and their refreshes as in
      TicketMinting, so that all that is proved there of every run holds here. */
  lemma {:induction false} Projected(now: int, s: System, actions: seq<Action>)
    returns (calls: seq<I.Action>, refreshes: seq<M.Action>)
    requires Reached(now, s, actions)
    ensures I.Reached(s.net, calls) && M.Reached(now, s.creds, refreshes)
    decreases |actions|
  {
    calls, refreshes := [], [];
    if actions != [] {
      var t, a := Before(now, s, actions), actions[|actions| - 1];
      calls, refreshes := Projected(now, t, actions[..|actions| - 1]);
      NetFollows(t.net, calls, NetStep(t, a));
      CredsFollow(now, t.creds, refreshes, CredStep(t, a));
      calls, refreshes := Told(calls, NetStep(t, a)), Told(refreshes, CredStep(t, a));
    }
  }

  // ---- one request's part of the state ----

  function Get<V>(m: map<nat, V>, id: nat): Option<V> { if id in m then Some(m[id]) else None }

  /** All that the two systems know of one request: its two calls and its two refreshes. */
  datatype View = View(request: Option<Request>, first: Option<I.Call>, second: Option<I.Call>,
                       refresh: Option<M.Phase>, again: Option<M.Phase>)

  function ViewOf(s: System, k: nat): View {
    View(Get(s.requests, k), Get(s.net.calls, Id(k, false)), Get(s.net.calls, Id(k, true)),
         Get(s.creds.callers, Id(k, false)), Get(s.creds.callers, Id(k, true)))
  }

  /** A refresh under way: nothing is addressed before the check, and a reply with a ticket is
      what is being stored. */
  predicate Underway(p: Option<M.Phase>, force: bool, aim: Option<nat>, mint: Option<Send>) {
    && p.Some? && !p.value.Returned? && p.value.force == force
    && (p.value.Waiting? || p.value.Holding? ==> aim.None?)
    && (p.value.Storing? <==> mint.Some?)
    && (mint.Some? ==> Minted(mint.value.outcome))
  }

  predicate Renewed(p: Option<M.Phase>, mint: Option<Send>) {
    p == Some(M.Returned) && mint.Some? && Minted(mint.value.outcome)
  }

  /** The first refresh is over, or was not called for. */
  predicate Refreshed(p: Option<M.Phase>, mint: Option<Send>) {
    Renewed(p, mint) || (mint.None? && (p.None? || p == Some(M.Returned)))
  }

  predicate Refused(p: Option<M.Phase>, mint: Option<Send>, result: Result) {
    p == Some(M.Returned) && mint.Some? && !Minted(mint.value.outcome) && result == Err(MintError(mint.value.outcome))
  }

  predicate Going(c: Option<I.Call>) { c.Some? && !c.value.phase.Done? }

  predicate Over(c: Option<I.Call>, result: Result) { c.Some? && c.value.phase == I.Done(result) }

  predicate NotAgain(v: View) { v.second.None? && v.again.None? && v.request.Some? && v.request.value.remint.None? }

  /** Where a request stands, by its calls and refreshes. */
  predicate ViewKept(v: View) {
    match v.request
    case None => v.first.None? && v.second.None? && v.refresh.None? && v.again.None?
    case Some(r) =>
      match r.stage
      case Refreshing(false, aim) => Underway(v.refresh, false, aim, r.mint) && v.first.None? && NotAgain(v)
      case Running(false) => Refreshed(v.refresh, r.mint) && Going(v.first) && NotAgain(v)
      case Refreshing(true, aim) =>
        && Refreshed(v.refresh, r.mint) && Over(v.first, EXPIRED)
        && Underway(v.again, true, aim, r.remint) && v.second.None?
      case Running(true) =>
        && Refreshed(v.refresh, r.mint) && Over(v.first, EXPIRED)
        && Renewed(v.again, r.remint) && Going(v.second)
      case Returned(result) => Ended(v, r, result)
  }

  /** The four ways a request returns: its refresh fails; its run ends, but not for an expired
      ticket; the forced refresh after that fails; the replay ends. */
  predicate Ended(v: View, r: Request, result: Result) {
    || (Refused(v.refresh, r.mint, result) && v.first.None? && NotAgain(v))
    || (Refreshed(v.refresh, r.mint) && Over(v.first, result) && result != EXPIRED && NotAgain(v))
    || (Refreshed(v.refresh, r.mint) && Over(v.first, EXPIRED) && Refused(v.again, r.remint, result) && v.second.None?)
    || (Refreshed(v.refresh, r.mint) && Over(v.first, EXPIRED) && Renewed(v.again, r.remint) && Over(v.second, result))
  }

  ghost predicate Kept(s: System) {
    I.Kept(s.net) && M.Kept(s.creds) && forall k: nat :: ViewKept(ViewOf(s, k))
  }

  lemma NetOthers(net: I.System, step: Option<I.Action>, id: nat)
    requires NetReady(net, step) && (step.Some? ==> step.value.id != id)
    ensures Get(NetAfter(net, step).calls, id) == Get(net.calls, id)
  {
    hide I.Moved;
  }

  lemma CredsOthers(creds: M.System, step: Option<M.Action>, id: nat)
    requires CredsReady(creds, step) && (step.Some? && !step.value.Tick? ==> step.value.id != id)
    ensures Get(CredsAfter(creds, step).callers, id) == Get(creds.callers, id)
  {
  }

  /** An action moves nothing but its own request's calls and refreshes. */
  lemma OthersKeepView(s: System, a: Action, k: nat)
    requires Enabled(s, a) && (a.Tick? || a.k != k)
    ensures ViewOf(Do(s, a), k) == ViewOf(s, k)
  {
    hide Moved, NetAfter, CredsAfter, FoundExpired, NothingToMint;
    NetOthers(s.net, NetStep(s, a), Id(k, false));
    NetOthers(s.net, NetStep(s, a), Id(k, true));
    CredsOthers(s.creds, CredStep(s, a), Id(k, false));
    CredsOthers(s.creds, CredStep(s, a), Id(k, true));
  }

  lemma StartKept(s: System, a: Action)
    requires Enabled(s, a) && a.Start? && ViewKept(ViewOf(s, a.k))
    ensures ViewKept(ViewOf(Do(s, a), a.k))
  {
  }

  lemma LockKept(s: System, a: Action)
    requires Enabled(s, a) && a.Lock? && ViewKept(ViewOf(s, a.k))
    ensures ViewKept(ViewOf(Do(s, a), a.k))
  {
  }

  lemma CheckKept(s: System, a: Action)
    requires Enabled(s, a) && a.Check? && ViewKept(ViewOf(s, a.k))
    ensures ViewKept(ViewOf(Do(s, a), a.k))
  {
  }

  lemma AimKept(s: System, a: Action)
    requires Enabled(s, a) && a.Aim? && ViewKept(ViewOf(s, a.k))
    ensures ViewKept(ViewOf(Do(s, a), a.k))
  {
  }

  lemma ReplyKept(s: System, a: Action)
    requires Enabled(s, a) && a.Reply? && ViewKept(ViewOf(s, a.k))
    ensures ViewKept(ViewOf(Do(s, a), a.k))
  {
  }

  lemma StoreKept(s: System, a: Action)
    requires Enabled(s, a) && a.Store? && ViewKept(ViewOf(s, a.k))
    ensures ViewKept(ViewOf(Do(s, a), a.k))
  {
  }

  lemma LoopKept(s: System, a: Action)
    requires Enabled(s, a) && a.Loop? && ViewKept(ViewOf(s, a.k))
    ensures ViewKept(ViewOf(Do(s, a), a.k))
  {
  }

  lemma ActorKept(s: System, a: Action)
    requires Enabled(s, a) && !a.Tick? && ViewKept(ViewOf(s, a.k))
    ensures ViewKept(ViewOf(Do(s, a), a.k))
  {
    hide ViewKept;
    match a {
      case Start(_) => StartKept(s, a);
      case Lock(_) => LockKept(s, a);
      case Check(_) => CheckKept(s, a);
      case Aim(_) => AimKept(s, a);
      case Reply(_, _) => ReplyKept(s, a);
      case Store(_) => StoreKept(s, a);
      case Loop(_, _) => LoopKept(s, a);
    }
  }

  lemma StepKeepsView(s: System, a: Action, k: nat)
    requires Enabled(s, a) && ViewKept(ViewOf(s, k))
    ensures ViewKept(ViewOf(Do(s, a), k))
  {
    hide ViewKept, ViewOf, Do, Enabled;
    if a.Tick? || a.k != k {
      OthersKeepView(s, a, k);
    } else {
      ActorKept(s, a);
    }
  }

  lemma {:induction false} RunKeepsView(now: int, s: System, actions: seq<Action>, k: nat)
    requires Reached(now, s, actions)
    ensures ViewKept(ViewOf(s, k))
    decreases |actions|
  {
    hide Do, Enabled, Reached;
    if actions != [] {
      var t := Before(now, s, actions);
      RunKeepsView(now, t, actions[..|actions| - 1], k);
      StepKeepsView(t, actions[|actions| - 1], k);
    } else {
      NoneStarted(now, s, k);
    }
  }

  lemma NoneStarted(now: int, s: System, k: nat)
    requires Reached(now, s, [])
    ensures ViewOf(s, k) == View(None, None, None, None, None)
  {
  }

  /** In every interleaving each request stands where its stage says, and the calls and the
      refreshes are those of Interleaving and TicketMinting. */
  lemma RunKept(now: int, s: System, actions: seq<Action>)
    requires Reached(now, s, actions)
    ensures Kept(s)
  {
    hide I.Kept, M.Kept, ViewKept, ViewOf, Reached;
    var calls, refreshes := Projected(now, s, actions);
    I.RunKept(s.net, calls);
    M.RunKept(now, s.creds, refreshes);
    forall k: nat ensures ViewKept(ViewOf(s, k)) {
      RunKeepsView(now, s, actions, k);
    }
  }

  // ---- the sends of one request ----

  function SendOf(mint: Option<Send>): seq<Send> { if mint.Some? then [mint.value] else [] }

  function CallSends(c: Option<I.Call>): seq<Send> { if c.Some? then c.value.sends else [] }

  /** Mint, run, mint again, replay: what of these there was. */
  function Sends(v: View): seq<Send> {
    (if v.request.Some? then SendOf(v.request.value.mint) else []) + CallSends(v.first)
    + (if v.request.Some? then SendOf(v.request.value.remint) else []) + CallSends(v.second)
  }

  /** The send an action makes, if any. */
  function Sent(s: System, a: Action): seq<Send>
    requires Enabled(s, a)
  {
    match a
    case Reply(k, o) => [Send(s.requests[k].stage.aim.value, o)]
    case Loop(_, Try(id, o)) => [Send(I.Base(s.net.calls[id]), o)]
    case _ => []
  }

  lemma ReplySends(s: System, a: Action)
    requires Enabled(s, a) && a.Reply? && ViewKept(ViewOf(s, a.k))
    ensures Sends(ViewOf(Do(s, a), a.k)) == Sends(ViewOf(s, a.k)) + Sent(s, a)
  {
  }

  lemma CallGrows(s: System, a: Action)
    requires Enabled(s, a) && a.Loop?
    ensures I.Moved(s.net, a.step).sends == s.net.calls[a.step.id].sends + Sent(s, a)
  {
  }

  lemma LoopView(s: System, a: Action)
    requires Enabled(s, a) && a.Loop?
    ensures var v, v', c := ViewOf(s, a.k), ViewOf(Do(s, a), a.k), Some(I.Moved(s.net, a.step));
            && v.request.Some? && v.request.value.stage.Running? && v'.request.Some?
            && v'.request.value.mint == v.request.value.mint && v'.request.value.remint == v.request.value.remint
            && v'.first == (if v.request.value.stage.again then v.first else c)
            && v'.second == (if v.request.value.stage.again then c else v.second)
            && Get(s.net.calls, a.step.id) == if v.request.value.stage.again then v.second else v.first
  {
    hide I.Moved;
  }

  lemma LoopSends(s: System, a: Action)
    requires Enabled(s, a) && a.Loop? && ViewKept(ViewOf(s, a.k))
    ensures Sends(ViewOf(Do(s, a), a.k)) == Sends(ViewOf(s, a.k)) + Sent(s, a)
  {
    hide ViewOf, Do, I.Moved, Sent, Refreshed, Renewed, Over;
    CallGrows(s, a);
    LoopView(s, a);
  }

  lemma QuietSends(s: System, a: Action)
    requires Enabled(s, a) && !a.Tick? && !a.Reply? && !a.Loop? && ViewKept(ViewOf(s, a.k))
    ensures Sends(ViewOf(Do(s, a), a.k)) == Sends(ViewOf(s, a.k))
  {
  }

  lemma StepSends(s: System, a: Action, k: nat)
    requires Enabled(s, a) && ViewKept(ViewOf(s, k))
    ensures Sends(ViewOf(Do(s, a), k)) == Sends(ViewOf(s, k)) + if !a.Tick? && a.k == k then Sent(s, a) else []
  {
    hide ViewKept, ViewOf, Do, Enabled, Sends;
    if a.Tick? || a.k != k {
      OthersKeepView(s, a, k);
    } else {
      match a {
        case Reply(_, _) => ReplySends(s, a);
        case Loop(_, _) => LoopSends(s, a);
        case _ => QuietSends(s, a);
      }
    }
  }

  /** The sends of request `k` in the order in which the run makes them. */
  function Trace(now: int, s: System, actions: seq<Action>, k: nat): seq<Send>
    requires Reached(now, s, actions)
    decreases |actions|
  {
    if actions == [] then []
    else
      var t, a := Before(now, s, actions), actions[|actions| - 1];
      Trace(now, t, actions[..|actions| - 1], k) + if !a.Tick? && a.k == k then Sent(t, a) else []
  }

  /** In every interleaving, what a request sends is its mint if it made one, then its run, then
      the mint and the run of its replay. */
  lemma {:induction false} RequestSends(now: int, s: System, actions: seq<Action>, k: nat)
    requires Reached(now, s, actions)
    ensures Trace(now, s, actions, k) == Sends(ViewOf(s, k))
    decreases |actions|
  {
    hide Do, Enabled, Sends, Reached;
    if actions == [] {
      NoneStarted(now, s, k);
      SendsNone();
    } else {
      var t := Before(now, s, actions);
      RequestSends(now, t, actions[..|actions| - 1], k);
      RunKeepsView(now, t, actions[..|actions| - 1], k);
      StepSends(t, actions[|actions| - 1], k);
    }
  }

  lemma SendsNone()
    ensures Sends(View(None, None, None, None, None)) == []
  {
  }

  lemma CallBounded(now: int, s: System, actions: seq<Action>, id: nat)
    requires Reached(now, s, actions)
    ensures |CallSends(Get(s.net.calls, id))| <= s.net.n * I.Tries(s.net.attempts)
  {
    var calls, _ := Projected(now, s, actions);
    MulAtMost(0, s.net.n, I.Tries(s.net.attempts));
    if id in s.net.calls {
      I.SendsBounded(s.net, calls, id);
    }
  }

  /** Whatever the other requests do to the endpoint and the ticket, a request makes two runs and
      two mints at most. */
  lemma RequestBounded(now: int, s: System, actions: seq<Action>, k: nat)
    requires Reached(now, s, actions)
    ensures |Trace(now, s, actions, k)| <= 2 * (s.net.n * I.Tries(s.net.attempts)) + 2
  {
    hide Reached, I.Tries, ViewKept;
    RequestSends(now, s, actions, k);
    CallBounded(now, s, actions, Id(k, false));
    CallBounded(now, s, actions, Id(k, true));
  }

  /** A mint goes to the endpoint that is active when it is addressed: the starting one moved on by the
      failovers so far, whoever made them; and its reply is from there, whatever they do meanwhile. */
  lemma MintGoesToActive(now: int, s: System, actions: seq<Action>, k: nat, outcome: Outcome)
    requires Reached(now, s, actions)
    ensures Enabled(s, Aim(k)) ==>
              Do(s, Aim(k)).requests[k].stage.aim == Some((s.net.start + s.net.rotations) % s.net.n)
    ensures Enabled(s, Reply(k, outcome)) ==> Sent(s, Reply(k, outcome)) == [Send(s.requests[k].stage.aim.value, outcome)]
  {
    hide Reached;
    var calls, _ := Projected(now, s, actions);
    I.CurrentCountsFailovers(s.net, calls);
  }

  // ---- how a request ends ----

  predicate LastWas(sends: seq<Send>, o: Outcome) { sends != [] && sends[|sends| - 1].outcome == o }

  predicate LastAnswered(sends: seq<Send>) { sends != [] && sends[|sends| - 1].outcome.Answered? }

  lemma CallResult(net: I.System, c: I.Call, result: Result)
    requires I.CallKept(net, c) && c.phase == I.Done(result)
    ensures result == EXPIRED <==> LastWas(c.sends, Failed(TicketExpired))
    ensures net.attempts > 0 ==> (result == Ok <==> LastAnswered(c.sends))
    ensures result.Err? ==> !result.error.MintRefused? && !result.error.MintEmpty?
  {
  }

  lemma RunResult(s: System, c: Option<I.Call>, id: nat, result: Result)
    requires Kept(s) && c == Get(s.net.calls, id) && Over(c, result)
    ensures result == EXPIRED <==> LastWas(CallSends(c), Failed(TicketExpired))
    ensures s.net.attempts > 0 ==> (result == Ok <==> LastAnswered(CallSends(c)))
  {
    CallResult(s.net, c.value, result);
  }

  /** A request mints by force, and replays, only after its own first run ended with an answer that
      named the ticket as expired, and it replays only with a ticket it minted after that. */
  lemma ReplayFollowsExpiry(now: int, s: System, actions: seq<Action>, k: nat)
    requires Reached(now, s, actions)
    ensures var v := ViewOf(s, k);
            && (v.again.Some? ==> LastWas(CallSends(v.first), Failed(TicketExpired)))
            && (v.second.Some? ==> v.again.Some? && v.request.Some? && Renewed(v.again, v.request.value.remint))
  {
    hide I.Kept, M.Kept, Reached, LastWas, ViewOf, CallSends;
    RunKept(now, s, actions);
    var v := ViewOf(s, k);
    assert ViewKept(v);
    ViewHas(s, k);
    if v.again.Some? {
      assert Over(v.first, EXPIRED);
      RunResult(s, v.first, Id(k, false), EXPIRED);
    }
  }

  lemma ViewHas(s: System, k: nat)
    ensures var v := ViewOf(s, k);
            && v.first == Get(s.net.calls, Id(k, false)) && v.second == Get(s.net.calls, Id(k, true))
            && v.request == Get(s.requests, k)
  {
  }

  /** With attempts, a request returns nil if and only if the last send of its last run was
      answered; it returns an expired ticket exactly when the replay met one. */
  lemma RequestResult(now: int, s: System, actions: seq<Action>, k: nat)
    requires Reached(now, s, actions) && s.net.attempts > 0
    requires k in s.requests && s.requests[k].stage.Returned?
    ensures var v, result := ViewOf(s, k), s.requests[k].stage.result;
            && (result == Ok <==> LastAnswered(CallSends(if v.second.Some? then v.second else v.first)))
            && (result == EXPIRED <==> LastWas(CallSends(v.second), Failed(TicketExpired)))
  {
    hide I.Kept, M.Kept, Reached, ViewOf;
    RunKept(now, s, actions);
    var v, result := ViewOf(s, k), s.requests[k].stage.result;
    assert ViewKept(v);
    ViewHas(s, k);
    if v.second.Some? {
      RunResult(s, v.second, Id(k, true), result);
    } else if v.first.Some? {
      RunResult(s, v.first, Id(k, false), v.first.value.phase.result);
    }
  }

  /** A request that returns an error of its mint sent nothing after that mint: without a ticket in the answer
      the error says so, and otherwise it carries what came instead of an answer. */
  lemma MintResult(now: int, s: System, actions: seq<Action>, k: nat)
    requires Reached(now, s, actions) && k in s.requests && s.requests[k].stage.Returned?
    ensures var sends, result := Trace(now, s, actions, k), s.requests[k].stage.result;
            result.Err? && (result.error.MintEmpty? || result.error.MintRefused?) ==>
              && sends != []
              && var o := sends[|sends| - 1].outcome;
                 if result.error.MintEmpty? then o.Answered? && o.ticket == "" else !o.Answered? && result.error.outcome == o
  {
    hide I.Kept, M.Kept, Reached, ViewOf, Sends, Ended;
    RunKept(now, s, actions);
    RequestSends(now, s, actions, k);
    var v, result := ViewOf(s, k), s.requests[k].stage.result;
    assert ViewKept(v);
    ViewHas(s, k);
    if IsMintError(result) {
      RunNoMintError(s, v.first, Id(k, false), result);
      RunNoMintError(s, v.second, Id(k, true), result);
      MintEnds(v, s.requests[k], result);
    }
  }

  predicate IsMintError(result: Result) { result.Err? && (result.error.MintEmpty? || result.error.MintRefused?) }

  lemma RunNoMintError(s: System, c: Option<I.Call>, id: nat, result: Result)
    requires Kept(s) && c == Get(s.net.calls, id) && IsMintError(result)
    ensures !Over(c, result)
  {
    hide I.CallKept;
    if Over(c, result) {
      I.KeptCall(s.net, id);
      CallResult(s.net, c.value, c.value.phase.result);
    }
  }

  lemma MintEnds(v: View, r: Request, result: Result)
    requires v.request == Some(r) && Ended(v, r, result) && !Over(v.first, result) && !Over(v.second, result)
    ensures Sends(v) != []
    ensures var o := Sends(v)[|Sends(v)| - 1].outcome;
            result == Err(if o.Answered? then MintEmpty else MintRefused(o)) && (o.Answered? ==> o.ticket == "")
  {
  }

  // ---- mints and replays ----

  function Forced(mints: seq<M.Mint>, forced: bool): nat {
    if mints == [] then 0
    else Forced(mints[..|mints| - 1], forced) + if mints[|mints| - 1].forced == forced then 1 else 0
  }

  /** The first, or the forced, refresh of the request stored a ticket. */
  predicate HasStored(v: View, forced: bool) {
    v.request.Some? && if forced then Renewed(v.again, v.request.value.remint) else Renewed(v.refresh, v.request.value.mint)
  }

  function Storers(s: System, forced: bool): set<nat> {
    set k | k in s.requests && HasStored(ViewOf(s, k), forced)
  }

  lemma IsStorer(s: System, k: nat, forced: bool)
    ensures k in Storers(s, forced) <==> HasStored(ViewOf(s, k), forced)
  {
  }

  lemma MintsAfter(creds: M.System, step: Option<M.Action>)
    requires CredsReady(creds, step)
    ensures CredsAfter(creds, step).mints ==
            if step.Some? && step.value.Store? then
              var p := creds.callers[step.value.id];
              creds.mints + [M.Mint(p.at, p.force)]
            else creds.mints
  {
  }

  /** Only storing a ticket makes the request one that has stored it. */
  lemma StepStores(s: System, a: Action, forced: bool)
    requires Enabled(s, a) && !a.Tick? && ViewKept(ViewOf(s, a.k))
    ensures HasStored(ViewOf(Do(s, a), a.k), forced) <==>
            HasStored(ViewOf(s, a.k), forced) || (a.Store? && s.requests[a.k].stage.again == forced)
    ensures a.Store? && s.requests[a.k].stage.again == forced ==> !HasStored(ViewOf(s, a.k), forced)
    ensures a.Store? ==> s.creds.callers[Now(s, a.k)].Storing? && s.creds.callers[Now(s, a.k)].force == s.requests[a.k].stage.again
  {
  }

  predicate Stores(s: System, a: Action, forced: bool)
    requires Enabled(s, a)
  {
    a.Store? && s.requests[a.k].stage.again == forced
  }

  lemma StorersAfter(s: System, a: Action, forced: bool)
    requires Enabled(s, a) && (a.Tick? || ViewKept(ViewOf(s, a.k)))
    ensures Storers(Do(s, a), forced) == Storers(s, forced) + if Stores(s, a, forced) then {a.k} else {}
    ensures Stores(s, a, forced) ==> a.k !in Storers(s, forced)
  {
    hide ViewKept, ViewOf, Do, Enabled, HasStored, Storers;
    if !a.Tick? {
      StepStores(s, a, forced);
      IsStorer(s, a.k, forced);
    }
    forall k: nat
      ensures k in Storers(Do(s, a), forced) <==> k in Storers(s, forced) || (Stores(s, a, forced) && k == a.k)
    {
      IsStorer(s, k, forced);
      IsStorer(Do(s, a), k, forced);
      if a.Tick? || k != a.k {
        OthersKeepView(s, a, k);
      }
    }
  }

  lemma ForcedAfter(mints: seq<M.Mint>, m: M.Mint, forced: bool)
    ensures Forced(mints + [m], forced) == Forced(mints, forced) + if m.forced == forced then 1 else 0
  {
    assert (mints + [m])[..|mints|] == mints;
  }

  lemma MintsGrow(s: System, a: Action, forced: bool)
    requires Enabled(s, a) && (a.Tick? || ViewKept(ViewOf(s, a.k)))
    ensures Forced(Do(s, a).creds.mints, forced) == Forced(s.creds.mints, forced) + if Stores(s, a, forced) then 1 else 0
  {
    hide ViewKept, ViewOf, HasStored, Moved, Forced;
    MintsAfter(s.creds, CredStep(s, a));
    if a.Store? {
      StepStores(s, a, forced);
      var p := s.creds.callers[Now(s, a.k)];
      ForcedAfter(s.creds.mints, M.Mint(p.at, p.force), forced);
    }
  }

  lemma {:induction false} MintsCounted(now: int, s: System, actions: seq<Action>, forced: bool)
    requires Reached(now, s, actions)
    ensures Forced(s.creds.mints, forced) == |Storers(s, forced)|
    decreases |actions|
  {
    hide Do, Enabled, ViewKept, Stores;
    if actions != [] {
      var t, a := Before(now, s, actions), actions[|actions| - 1];
      MintsCounted(now, t, actions[..|actions| - 1], forced);
      if !a.Tick? {
        RunKeepsView(now, t, actions[..|actions| - 1], a.k);
      }
      StorersAfter(t, a, forced);
      MintsGrow(t, a, forced);
    }
  }

  function Replaying(s: System): set<nat> { set k | k in s.requests && Id(k, true) in s.net.calls }

  lemma ReplayStored(s: System, k: nat)
    requires ViewKept(ViewOf(s, k))
    ensures HasStored(ViewOf(s, k), true) <==> k in Replaying(s)
  {
  }

  lemma SubsetSize<T>(xs: set<T>, ys: set<T>)
    requires xs <= ys
    ensures |xs| <= |ys|
  {
    assert ys == xs + (ys - xs);
  }

  /** In every interleaving the forced mints are exactly as many as the replays begun, and the
      unforced ones as many as the requests whose own first refresh got a ticket. */
  lemma MintsAreReplays(now: int, s: System, actions: seq<Action>)
    requires Reached(now, s, actions)
    ensures Forced(s.creds.mints, true) == |Replaying(s)|
    ensures Forced(s.creds.mints, false) == |Storers(s, false)| <= |s.requests.Keys|
  {
    hide Reached, ViewOf, HasStored, Storers, Replaying, Forced, ViewKept;
    MintsCounted(now, s, actions, true);
    MintsCounted(now, s, actions, false);
    forall k: nat ensures k in Storers(s, true) <==> k in Replaying(s) {
      IsStorer(s, k, true);
      RunKeepsView(now, s, actions, k);
      ReplayStored(s, k);
    }
    assert Storers(s, true) == Replaying(s);
    StorersStarted(s);
    SubsetSize(Storers(s, false), s.requests.Keys);
  }

  lemma StorersStarted(s: System)
    ensures Storers(s, false) <= s.requests.Keys
  {
  }

  // ---- every request gets to its end ----

  /** The steps of one run at most, its beginning included. */
  function RunSteps(net: I.System): nat { I.Weight(net.n, I.Tries(net.attempts)) + 2 }

  function RefreshLeft(p: M.Phase, aim: Option<nat>): nat {
    match p
    case Waiting(_) => 5
    case Holding(_) => 4
    case Minting(_) => if aim.None? then 3 else 2
    case Storing(_, _) => 1
    case Returned => 0
  }

  function CallLeft(net: I.System, c: Option<I.Call>): int {
    if c.Some? then I.Left(net.n, I.Tries(net.attempts), c.value) else 0
  }

  /** The steps a request has left at most. */
  function Left(net: I.System, v: View): int {
    if v.request.None? then 2 * RunSteps(net) + 11
    else match v.request.value.stage
      case Refreshing(false, aim) => (if v.refresh.Some? then RefreshLeft(v.refresh.value, aim) else 0) + 2 * RunSteps(net) + 5
      case Running(false) => CallLeft(net, v.first) + RunSteps(net) + 5
      case Refreshing(true, aim) => (if v.again.Some? then RefreshLeft(v.again.value, aim) else 0) + RunSteps(net)
      case Running(true) => CallLeft(net, v.second)
      case Returned(_) => 0
  }

  lemma LoopLeft(s: System, a: Action)
    requires Enabled(s, a) && a.Loop? && ViewKept(ViewOf(s, a.k)) && I.Kept(s.net)
    ensures Left(Do(s, a).net, ViewOf(Do(s, a), a.k)) < Left(s.net, ViewOf(s, a.k))
  {
    hide I.Weight, I.Kept, Refreshed, Renewed;
    I.OwnStepDecreases(s.net, a.step);
    I.WeightNext(s.net.n, I.Tries(s.net.attempts));
  }

  lemma StartLeft(s: System, a: Action)
    requires Enabled(s, a) && a.Start? && ViewKept(ViewOf(s, a.k))
    ensures Left(Do(s, a).net, ViewOf(Do(s, a), a.k)) < Left(s.net, ViewOf(s, a.k))
  {
    hide I.Weight, Refreshed, Renewed, Ended;
    I.WeightNext(s.net.n, I.Tries(s.net.attempts));
  }

  lemma MintStepLeft(s: System, a: Action)
    requires Enabled(s, a) && (a.Lock? || a.Aim? || a.Reply?) && ViewKept(ViewOf(s, a.k))
    ensures Left(Do(s, a).net, ViewOf(Do(s, a), a.k)) < Left(s.net, ViewOf(s, a.k))
  {
    hide I.Weight, Refreshed, Renewed, Ended;
    I.WeightNext(s.net.n, I.Tries(s.net.attempts));
  }

  lemma CheckLeft(s: System, a: Action)
    requires Enabled(s, a) && a.Check? && ViewKept(ViewOf(s, a.k))
    ensures Left(Do(s, a).net, ViewOf(Do(s, a), a.k)) < Left(s.net, ViewOf(s, a.k))
  {
    hide I.Weight, Refreshed, Renewed, Ended;
    I.WeightNext(s.net.n, I.Tries(s.net.attempts));
  }

  lemma StoreLeft(s: System, a: Action)
    requires Enabled(s, a) && a.Store? && ViewKept(ViewOf(s, a.k))
    ensures Left(Do(s, a).net, ViewOf(Do(s, a), a.k)) < Left(s.net, ViewOf(s, a.k))
  {
    hide I.Weight, Refreshed, Renewed, Ended;
    I.WeightNext(s.net.n, I.Tries(s.net.attempts));
  }

  lemma RefreshStepLeft(s: System, a: Action)
    requires Enabled(s, a) && !a.Loop? && !a.Tick? && ViewKept(ViewOf(s, a.k))
    ensures Left(Do(s, a).net, ViewOf(Do(s, a), a.k)) < Left(s.net, ViewOf(s, a.k))
  {
    hide ViewKept, ViewOf, Do, Enabled, Left;
    match a {
      case Start(_) => StartLeft(s, a);
      case Check(_) => CheckLeft(s, a);
      case Store(_) => StoreLeft(s, a);
      case _ => MintStepLeft(s, a);
    }
  }

  lemma SystemSize(s: System, a: Action)
    requires Enabled(s, a)
    ensures Do(s, a).net.n == s.net.n && Do(s, a).net.attempts == s.net.attempts
  {
  }

  lemma OthersLeft(net: I.System, net': I.System, v: View)
    requires net.n == net'.n && net.attempts == net'.attempts
    ensures Left(net, v) == Left(net', v)
  {
  }

  lemma StepLeft(s: System, a: Action, k: nat)
    requires Enabled(s, a) && ViewKept(ViewOf(s, k)) && I.Kept(s.net)
    ensures Left(Do(s, a).net, ViewOf(Do(s, a), k)) + (if !a.Tick? && a.k == k then 1 else 0) <= Left(s.net, ViewOf(s, k))
  {
    hide ViewKept, ViewOf, Do, Enabled, I.Kept, Left;
    if a.Tick? || a.k != k {
      OthersKeepView(s, a, k);
      SystemSize(s, a);
      OthersLeft(s.net, Do(s, a).net, ViewOf(s, k));
    } else if a.Loop? {
      LoopLeft(s, a);
    } else {
      RefreshStepLeft(s, a);
    }
  }

  /** How many of the actions are the request's own. */
  function Own(actions: seq<Action>, k: nat): nat {
    if actions == [] then 0
    else Own(actions[..|actions| - 1], k) + if !actions[|actions| - 1].Tick? && actions[|actions| - 1].k == k then 1 else 0
  }

  lemma {:induction false} OwnStepsLeft(now: int, s: System, actions: seq<Action>, k: nat)
    requires Reached(now, s, actions)
    ensures Own(actions, k) + Left(s.net, ViewOf(s, k)) <= 2 * RunSteps(s.net) + 11
    decreases |actions|
  {
    hide Do, Enabled, ViewKept, ViewOf, I.Kept, M.Kept, Left, Reached;
    if actions == [] {
      NoneStarted(now, s, k);
      LeftNotStarted(s.net);
    } else {
      var t, a := Before(now, s, actions), actions[|actions| - 1];
      OwnStepsLeft(now, t, actions[..|actions| - 1], k);
      KeptParts(now, t, actions[..|actions| - 1], k);
      StepLeft(t, a, k);
      SystemSize(t, a);
    }
  }

  lemma LeftNotStarted(net: I.System)
    ensures Left(net, View(None, None, None, None, None)) == 2 * RunSteps(net) + 11
  {
  }

  lemma KeptParts(now: int, s: System, actions: seq<Action>, k: nat)
    requires Reached(now, s, actions)
    ensures I.Kept(s.net) && M.Kept(s.creds) && ViewKept(ViewOf(s, k))
  {
    hide Reached, ViewKept, ViewOf, I.Kept, M.Kept;
    RunKept(now, s, actions);
  }

  lemma LeftNotNegative(s: System, k: nat)
    requires I.Kept(s.net) && ViewKept(ViewOf(s, k))
    ensures Left(s.net, ViewOf(s, k)) >= 0
  {
    hide I.CallKept;
    var v := ViewOf(s, k);
    if v.first.Some? {
      I.KeptCall(s.net, Id(k, false));
      I.LeftNotNegative(s.net, v.first.value);
    }
    if v.second.Some? {
      I.KeptCall(s.net, Id(k, true));
      I.LeftNotNegative(s.net, v.second.value);
    }
  }

  // ---- no deadlock ----

  /** A request in the loop can go on. */
  lemma RunnerMoves(s: System, k: nat) returns (a: Action)
    requires ViewKept(ViewOf(s, k)) && IsRunning(s, k)
    ensures a.Loop? && Enabled(s, a)
  {
    I.NotBlocked(s.net, Now(s, k));
    var step: I.Action :| step.id == Now(s, k) && I.Enabled(s.net, step);
    a := Loop(k, step);
  }

  /** A request past the mint lock can go on. */
  lemma HolderMoves(s: System, k: nat) returns (a: Action)
    requires ViewKept(ViewOf(s, k)) && IsRefreshing(s, k)
    requires Now(s, k) in s.creds.callers && M.InCritical(s.creds.callers[Now(s, k)])
    ensures !a.Tick? && !a.Start? && Enabled(s, a)
  {
    var p := s.creds.callers[Now(s, k)];
    a := if p.Holding? then Check(k)
         else if p.Storing? then Store(k)
         else if s.requests[k].stage.aim.None? then Aim(k)
         else Reply(k, Malformed);
  }

  /** Whoever is past the mint lock is a request that is refreshing. */
  lemma HolderRefreshes(s: System, holder: nat)
    requires ViewKept(ViewOf(s, holder / 2)) && holder in s.creds.callers && M.InCritical(s.creds.callers[holder])
    ensures IsRefreshing(s, holder / 2) && Now(s, holder / 2) == holder
  {
    assert holder == Id(holder / 2, false) || holder == Id(holder / 2, true);
  }

  lemma RefresherMoves(s: System, k: nat) returns (a: Action)
    requires Kept(s) && IsRefreshing(s, k)
    ensures !a.Tick? && !a.Start? && Enabled(s, a)
  {
    hide I.Kept;
    var id := Now(s, k);
    assert ViewKept(ViewOf(s, k));
    if s.creds.lock.Some? {
      var holder := s.creds.lock.value;
      assert ViewKept(ViewOf(s, holder / 2));
      HolderRefreshes(s, holder);
      a := HolderMoves(s, holder / 2);
    } else {
      assert !M.InCritical(s.creds.callers[id]);
      a := Lock(k);
    }
  }

  /** In every interleaving a request takes a bounded number of steps, and while one has not
      returned, some request can take a step that is not a new request's first. */
  lemma RequestsTerminate(now: int, s: System, actions: seq<Action>, k: nat)
    requires Reached(now, s, actions)
    ensures Own(actions, k) <= 2 * (s.net.n * (I.Tries(s.net.attempts) + 2)) + 15
    ensures k in s.requests && !s.requests[k].stage.Returned? ==>
              exists a: Action :: !a.Tick? && !a.Start? && Enabled(s, a)
  {
    hide Reached, Left, ViewOf, ViewKept, Own, Enabled, I.Kept, M.Kept, I.Weight, I.Tries;
    OwnStepsLeft(now, s, actions, k);
    RunKept(now, s, actions);
    KeptParts(now, s, actions, k);
    LeftNotNegative(s, k);
    I.WeightIs(s.net.n, I.Tries(s.net.attempts));
    if IsRunning(s, k) {
      var a := RunnerMoves(s, k);
    } else if IsRefreshing(s, k) {
      var a := RefresherMoves(s, k);
    }
  }

  // ---- a request that goes all the way ----

  lemma Extended(now: int, s: System, actions: seq<Action>, a: Action) returns (t: System, more: seq<Action>)
    requires Reached(now, s, actions) && Enabled(s, a)
    ensures t == Do(s, a) && more == actions + [a] && Reached(now, t, more)
  {
    t, more := Do(s, a), actions + [a];
    assert more[..|actions|] == actions;
  }

  predicate Waits(s: System, again: bool, p: M.Phase, aim: Option<nat>) {
    && 0 in s.requests && s.requests[0].stage == Refreshing(again, aim)
    && Id(0, again) in s.creds.callers && s.creds.callers[Id(0, again)] == p
  }

  function WithPhase(s: System, again: bool, p: M.Phase, lock: Option<nat>): M.System {
    s.creds.(lock := lock, callers := s.creds.callers[Id(0, again) := p])
  }

  lemma LockStep(s: System, again: bool)
    requires Waits(s, again, M.Waiting(again), None) && s.creds.lock.None?
    ensures Enabled(s, Lock(0)) && Do(s, Lock(0)) == s.(creds := WithPhase(s, again, M.Holding(again), Some(Id(0, again))))
  {
    assert s.requests[0 := s.requests[0]] == s.requests;
  }

  lemma CheckStep(s: System, again: bool)
    requires Waits(s, again, M.Holding(again), None) && (again || Stale(s.creds.expiry, s.creds.now))
    ensures Enabled(s, Check(0)) && Do(s, Check(0)) == s.(creds := WithPhase(s, again, M.Minting(again), s.creds.lock))
  {
    assert s.requests[0 := s.requests[0]] == s.requests;
  }

  lemma AimStep(s: System, again: bool)
    requires Waits(s, again, M.Minting(again), None)
    ensures Enabled(s, Aim(0))
    ensures Do(s, Aim(0)) == s.(requests := s.requests[0 := s.requests[0].(stage := Refreshing(again, Some(s.net.current)))])
  {
  }

  function Answer(r: Request, again: bool, sent: Send): Request {
    if again then r.(remint := Some(sent)) else r.(mint := Some(sent))
  }

  lemma ReplyStep(s: System, again: bool, e: nat, ticket: string)
    requires Waits(s, again, M.Minting(again), Some(e)) && ticket != ""
    ensures var reply := Reply(0, Answered(ticket, ""));
            Enabled(s, reply) && Do(s, reply) == System(s.net, WithPhase(s, again, M.Storing(again, s.creds.now), s.creds.lock),
              s.requests[0 := Answer(s.requests[0], again, Send(e, Answered(ticket, "")))])
  {
  }

  lemma StoreStep(s: System, again: bool, e: nat, at: int)
    requires Waits(s, again, M.Storing(again, at), Some(e)) && Id(0, again) !in s.net.calls
    ensures Enabled(s, Store(0))
    ensures var t := Do(s, Store(0));
            && t.net == s.net.(calls := s.net.calls[Id(0, again) := I.NEW_CALL])
            && t.creds == WithPhase(s, again, M.Returned, None).(expiry := Some(at + LIFETIME), mints := s.creds.mints + [M.Mint(at, again)])
            && t.requests == s.requests[0 := s.requests[0].(stage := Running(again))]
  {
  }

  /** Request 0 refreshes with success. */
  lemma Refreshes(now: int, s: System, actions: seq<Action>, again: bool, ticket: string) returns (t: System, more: seq<Action>)
    requires Reached(now, s, actions) && ticket != "" && s.requests.Keys == {0}
    requires Waits(s, again, M.Waiting(again), None) && s.creds.lock.None?
    requires again || Stale(s.creds.expiry, s.creds.now)
    requires Id(0, again) !in s.net.calls
    ensures Reached(now, t, more) && t.creds.lock.None? && t.creds.now == s.creds.now
    ensures t.net == s.net.(calls := s.net.calls[Id(0, again) := I.NEW_CALL])
    ensures t.creds.callers == s.creds.callers[Id(0, again) := M.Returned]
    ensures t.requests == map[0 := Answer(s.requests[0], again, Send(s.net.current, Answered(ticket, ""))).(stage := Running(again))]
  {
    hide Reached, Enabled, Do;
    var e := s.net.current;
    LockStep(s, again);
    t, more := Extended(now, s, actions, Lock(0));
    CheckStep(t, again);
    t, more := Extended(now, t, more, Check(0));
    AimStep(t, again);
    t, more := Extended(now, t, more, Aim(0));
    ReplyStep(t, again, e, ticket);
    t, more := Extended(now, t, more, Reply(0, Answered(ticket, "")));
    StoreStep(t, again, e, s.creds.now);
    t, more := Extended(now, t, more, Store(0));
  }

  predicate Runs(s: System, again: bool, c: I.Call) {
    && 0 in s.requests && s.requests[0].stage == Running(again)
    && Id(0, again) in s.net.calls && s.net.calls[Id(0, again)] == c && s.net.n > 0 && s.net.attempts == 1
  }

  function BegunCall(s: System): I.Call { I.Call(0, I.Trying(1, Ok), [I.Read(s.net.current, s.net.rotations)], []) }

  lemma BeginStep(s: System, again: bool)
    requires Runs(s, again, I.NEW_CALL)
    ensures var a := Loop(0, I.Begin(Id(0, again)));
            Enabled(s, a) && Do(s, a) == s.(net := s.net.(calls := s.net.calls[Id(0, again) := BegunCall(s)]))
  {
    var a, read := Loop(0, I.Begin(Id(0, again))), I.Read(s.net.current, s.net.rotations);
    assert s.requests[0 := s.requests[0]] == s.requests && [] + [read] == [read];
    assert AtStage(s, a) && I.Moved(s.net, a.step) == BegunCall(s);
  }

  lemma AnsweredStep(s: System, again: bool, o: Outcome)
    requires Runs(s, again, BegunCall(s)) && !IsTransient(o)
    requires !again && o == Failed(TicketExpired) ==> Id(0, true) !in s.creds.callers
    ensures var a, id := Loop(0, I.Try(Id(0, again), o)), Id(0, again);
            && Enabled(s, a)
            && Do(s, a).net == s.net.(calls := s.net.calls[id := BegunCall(s).(phase := I.Done(ResultOf(o)), sends := [Send(s.net.current, o)])])
            && if !again && o == Failed(TicketExpired) then
                 && Do(s, a).creds == s.creds.(callers := s.creds.callers[Id(0, true) := M.Waiting(true)])
                 && Do(s, a).requests == s.requests[0 := s.requests[0].(stage := Refreshing(true, None))]
               else
                 Do(s, a).creds == s.creds && Do(s, a).requests == s.requests[0 := s.requests[0].(stage := Returned(ResultOf(o)))]
  {
    hide FoundExpired;
    var a := Loop(0, I.Try(Id(0, again), o));
    assert AtStage(s, a);
    assert I.Moved(s.net, a.step) == BegunCall(s).(phase := I.Done(ResultOf(o)), sends := [Send(s.net.current, o)]);
    ExpiryFound(s, a);
    assert FoundExpired(s, a) <==> !again && o == Failed(TicketExpired);
  }

  lemma ExpiryFound(s: System, a: Action)
    requires a.Loop? && AtStage(s, a)
    ensures FoundExpired(s, a) <==> !s.requests[a.k].stage.again && I.Moved(s.net, a.step).phase == I.Done(EXPIRED)
  {
  }

  lemma StartStep(n: nat, attempts: int, start: nat, now: int)
    requires start < n
    ensures var s := Initial(n, attempts, start, now);
            && Enabled(s, Start(0)) && Do(s, Start(0)).net == s.net
            && Do(s, Start(0)).creds == s.creds.(callers := map[0 := M.Waiting(false)])
            && Do(s, Start(0)).requests == map[0 := Request(Refreshing(false, None), None, None)]
  {
  }

  /** A login, and a run that finds the ticket expired. */
  lemma ExpiredRequest(now: int) returns (s: System, actions: seq<Action>)
    ensures Reached(now, s, actions) && s.creds.lock.None?
    ensures s.creds.callers == map[0 := M.Returned, 1 := M.Waiting(true)]
    ensures s.net == I.Initial(1, 1, 0).(calls := map[0 := I.Call(0, I.Done(EXPIRED), [I.Read(0, 0)], [Send(0, Failed(TicketExpired))])])
    ensures s.requests == map[0 := Request(Refreshing(true, None), Some(Send(0, Answered("T1", ""))), None)]
  {
    hide Enabled, Do, Reached, Stale, ResultOf;
    s, actions := Initial(1, 1, 0, now), [];
    NothingDone(1, 1, 0, now);
    StartStep(1, 1, 0, now);
    s, actions := Extended(now, s, actions, Start(0));
    s, actions := Refreshes(now, s, actions, false, "T1");
    s, actions := RunsOnce(now, s, actions, false, Failed(TicketExpired));
  }

  /** The whole course can happen: a login, a run that finds the ticket expired, a second login and a replay
      that is answered. */
  lemma FullRequest(now: int) returns (s: System, actions: seq<Action>)
    ensures Reached(now, s, actions) && 0 in s.requests && s.requests[0].stage == Returned(Ok)
    ensures Trace(now, s, actions, 0) ==
            [Send(0, Answered("T1", "")), Send(0, Failed(TicketExpired)), Send(0, Answered("T2", "")), Send(0, Answered("", ""))]
  {
    hide Enabled, Do, Reached, Stale, ResultOf;
    NothingDone(1, 1, 0, now);
    s, actions := ExpiredRequest(now);
    s, actions := Refreshes(now, s, actions, true, "T2");
    s, actions := RunsOnce(now, s, actions, true, Answered("", ""));
    RequestSends(now, s, actions, 0);
  }

  lemma NothingDone(n: nat, attempts: int, start: nat, now: int)
    requires start < n
    ensures Reached(now, Initial(n, attempts, start, now), []) && Stale(None, now)
    ensures ResultOf(Failed(TicketExpired)) == EXPIRED && ResultOf(Answered("", "")) == Ok
  {
  }

  /** Request 0 makes one send of its run. */
  lemma RunsOnce(now: int, s: System, actions: seq<Action>, again: bool, o: Outcome) returns (t: System, more: seq<Action>)
    requires Reached(now, s, actions) && Runs(s, again, I.NEW_CALL) && !IsTransient(o) && s.requests.Keys == {0}
    requires if again then o != Failed(TicketExpired) else o == Failed(TicketExpired) && Id(0, true) !in s.creds.callers
    ensures Reached(now, t, more)
    ensures t.net == s.net.(calls := s.net.calls[Id(0, again) :=
              BegunCall(s).(phase := I.Done(ResultOf(o)), sends := [Send(s.net.current, o)])])
    ensures t.creds == if again then s.creds else s.creds.(callers := s.creds.callers[Id(0, true) := M.Waiting(true)])
    ensures t.requests == map[0 := s.requests[0].(stage := if again then Returned(ResultOf(o)) else Refreshing(true, None))]
  {
    hide Reached, Enabled, Do;
    BeginStep(s, again);
    t, more := Extended(now, s, actions, Loop(0, I.Begin(Id(0, again))));
    AnsweredStep(t, again, o);
    t, more := Extended(now, t, more, Loop(0, I.Try(Id(0, again), o)));
  }
}
