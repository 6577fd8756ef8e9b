/** The mock's cluster formation: one node creates the cluster, others join it under the names
    queued for them. */
module ClusterFormation {
  import opened Forms
  import opened Sorting

  const FINGERPRINT := "A1:B2:C3:D4:E5:F6:07:18:29:3A:4B:5C:6D:7E:8F:90:A1:B2:C3:D4:E5:F6:07:18:29:3A:4B:5C:6D:7E:8F:90"

  datatype State = State(clustered: bool, name: string, selfNode: string, members: seq<string>, queue: seq<string>)

  const STANDALONE := State(false, "", "", [], [])

  datatype Reply = Refused | Duplicate(node: string) | Finished(task: string, node: string, id: string) | Silent

  function Self(s: State): string { if s.selfNode != "" then s.selfNode else "pve" }

  function Created(s: State, form: Form): (State, Reply) {
    var name := FormValue(form, "clustername");
    if name == "" || s.clustered then (s, Refused)
    else (s.(clustered := true, name := name, members := [Self(s)]), Finished("clustercreate", Self(s), name))
  }

  predicate Admissible(form: Form) {
    FormValue(form, "hostname") != "" && FormValue(form, "password") != "" && FormValue(form, "fingerprint") == FINGERPRINT
  }

  /** A join takes the next queued name even when it then refuses it as a duplicate. */
  function Joined(s: State, form: Form): (State, Reply) {
    if !Admissible(form) || !s.clustered || s.queue == [] then (s, Refused)
    else
      var next := s.(queue := s.queue[1..]);
      if s.queue[0] in s.members then (next, Duplicate(s.queue[0]))
      else (next.(members := s.members + [s.queue[0]]), Finished("clusterjoin", Self(s), s.queue[0]))
  }

  datatype Op = SetSelf(node: string) | Queue(node: string) | CreateOp(form: Form) | JoinOp(form: Form)

  function Step(s: State, op: Op): (State, Reply) {
    match op
    case SetSelf(node) => (s.(selfNode := node), Silent)
    case Queue(node) => (s.(queue := s.queue + [node]), Silent)
    case CreateOp(form) => Created(s, form)
    case JoinOp(form) => Joined(s, form)
  }

  /** The state after a run of operations. */
  function Run(ops: seq<Op>): State {
    if ops == [] then STANDALONE else Step(Run(ops[..|ops| - 1]), ops[|ops| - 1]).0
  }

  /** A create founds the cluster under its name with the self node alone, when there is a name and no
      cluster yet, and changes nothing otherwise. */
  lemma CreateEffect(s: State, form: Form)
    ensures var (s', reply) := Step(s, CreateOp(form));
            var self := if s.selfNode != "" then s.selfNode else "pve";
            if "clustername" in form && form["clustername"] != "" && !s.clustered then
              && s'.clustered && s'.name == form["clustername"] && s'.members == [self]
              && s'.selfNode == s.selfNode && s'.queue == s.queue
              && reply == Finished("clustercreate", self, form["clustername"])
            else s' == s && reply == Refused
  {
  }

  /** A join takes the first name off the queue, when the cluster stands, a name is queued, and the form
      names a host and a password and shows the cluster's fingerprint; it puts the name behind the
      members unless it is one, and changes nothing else. */
  lemma JoinEffect(s: State, form: Form)
    ensures var (s', reply) := Step(s, JoinOp(form));
            && (reply != Refused <==>
                  && s.clustered && |s.queue| > 0
                  && "hostname" in form && form["hostname"] != "" && "password" in form && form["password"] != ""
                  && "fingerprint" in form && form["fingerprint"] == FINGERPRINT)
            && (reply == Refused ==> s' == s)
            && (reply != Refused ==>
                  && [s.queue[0]] + s'.queue == s.queue && s'.name == s.name && s'.selfNode == s.selfNode && s'.clustered
                  && if s.queue[0] in s.members then s'.members == s.members && reply == Duplicate(s.queue[0])
                     else s'.members == s.members + [s.queue[0]]
                          && reply == Finished("clusterjoin", if s.selfNode != "" then s.selfNode else "pve", s.queue[0]))
  {
    assert FINGERPRINT != "";
  }

  // ---- the server ----

  class Cluster {
    var clustered: bool
    var name: string
    var selfNode: string
    var members: seq<string>
    var joinQueue: seq<string>

    constructor ()
      ensures Value() == STANDALONE
    {
      clustered, name, selfNode, members, joinQueue := false, "", "", [], [];
    }

    ghost function Value(): State
      reads this
    {
      State(clustered, name, selfNode, members, joinQueue)
    }

    method SelfNode() returns (node: string)
      ensures node == Self(Value())
    {
      if selfNode != "" {
        return selfNode;
      }
      return "pve";
    }

    /** handleClusterCreate. */
    method HandleCreate(form: Form) returns (r: Reply)
      modifies this
      ensures (Value(), r) == Created(old(Value()), form)
    {
      var clustername := FormValue(form, "clustername");
      if clustername == "" {
        return Refused;
      }
      if clustered {
        return Refused;
      }
      var self := SelfNode();
      clustered := true;
      name := clustername;
      members := [self];
      return Finished("clustercreate", self, clustername);
    }

    /** handleClusterJoin. */
    method HandleJoin(form: Form) returns (r: Reply)
      modifies this
      ensures (Value(), r) == Joined(old(Value()), form)
    {
      if FormValue(form, "hostname") == "" || FormValue(form, "password") == "" || FormValue(form, "fingerprint") == "" {
        return Refused;
      }
      if FormValue(form, "fingerprint") != FINGERPRINT {
        return Refused;
      }
      if !clustered {
        return Refused;
      }
      if |joinQueue| == 0 {
        return Refused;
      }
      var joined := joinQueue[0];
      joinQueue := joinQueue[1..];
      if joined in members {
        return Duplicate(joined);
      }
      members := members + [joined];
      var self := SelfNode();
      return Finished("clusterjoin", self, joined);
    }

    /** handleClusterConfigNodes: members with their node ids. */
    method HandleConfigNodes() returns (nodes: seq<(string, nat)>)
      ensures |nodes| == |Value().members| && forall i | 0 <= i < |nodes| :: nodes[i] == (Value().members[i], i + 1)
    {
      nodes := [];
      for i := 0 to |members|
        invariant |nodes| == i && forall k | 0 <= k < i :: nodes[k] == (members[k], k + 1)
      {
        nodes := nodes + [(members[i], i + 1)];
      }
    }
  }

  // ---- every reachable state ----

  /** The names queued by a run, in order. */
  function Queued(ops: seq<Op>): seq<string> {
    if ops == [] then []
    else
      var last := ops[|ops| - 1];
      Queued(ops[..|ops| - 1]) + if last.Queue? then [last.node] else []
  }

  /** The queued names the joins have taken. */
  function Taken(ops: seq<Op>): seq<string>
    requires |Run(ops).queue| <= |Queued(ops)|
  {
    Queued(ops)[..|Queued(ops)| - |Run(ops).queue|]
  }

  /** The queue is what is left of the queued names, and the members are the founder and the taken
      names, each where it first appears. */
  lemma {:induction false} MembersAreFirstTaken(ops: seq<Op>)
    ensures |Run(ops).queue| <= |Queued(ops)| && Queued(ops) == Taken(ops) + Run(ops).queue
    ensures Run(ops).clustered <==> Run(ops).members != []
    ensures !Run(ops).clustered ==> Taken(ops) == []
    ensures Run(ops).clustered ==> Run(ops).members == FirstOccurrences([Run(ops).members[0]] + Taken(ops))
  {
    if ops != [] {
      var before, op := ops[..|ops| - 1], ops[|ops| - 1];
      MembersAreFirstTaken(before);
      StepKeeps(Run(before), op, Queued(before), Taken(before));
    }
  }

  ghost predicate Accounted(s: State, queued: seq<string>, taken: seq<string>) {
    && queued == taken + s.queue
    && (s.clustered <==> s.members != [])
    && (!s.clustered ==> taken == [])
    && (s.clustered ==> s.members == FirstOccurrences([s.members[0]] + taken))
  }

  lemma Regrouped(first: string, taken: seq<string>, queue: seq<string>)
    requires queue != []
    ensures taken + queue == taken + [queue[0]] + queue[1..]
    ensures [first] + (taken + [queue[0]]) == [first] + taken + [queue[0]]
    ensures (taken + queue)[..|taken| + 1] == taken + [queue[0]]
  {
  }

  lemma JoinKeeps(s: State, form: Form, taken: seq<string>)
    requires Accounted(s, taken + s.queue, taken) && s.clustered && s.queue != [] && Admissible(form)
    ensures Accounted(Joined(s, form).0, taken + s.queue, taken + [s.queue[0]])
  {
    hide FirstOccurrences, Admissible;
    FirstOfMore([s.members[0]] + taken, s.queue[0]);
    Regrouped(s.members[0], taken, s.queue);
  }

  lemma CreateKeeps(s: State, form: Form, queued: seq<string>, taken: seq<string>)
    requires Accounted(s, queued, taken)
    ensures Accounted(Created(s, form).0, queued, taken)
  {
    hide FirstOccurrences;
    FirstOfOne(Self(s));
    assert [Self(s)] + [] == [Self(s)];
  }

  lemma TakenIs(queued: seq<string>, taken: seq<string>, queue: seq<string>)
    requires queued == taken + queue
    ensures queued[..|queued| - |queue|] == taken
  {
  }

  lemma StepKeeps(s: State, op: Op, queued: seq<string>, taken: seq<string>)
    requires Accounted(s, queued, taken)
    ensures var queued' := queued + if op.Queue? then [op.node] else [];
            var s' := Step(s, op).0;
            |s'.queue| <= |queued'| && Accounted(s', queued', queued'[..|queued'| - |s'.queue|])
  {
    hide FirstOccurrences, Admissible;
    assert queued + [] == queued;
    TakenIs(queued, taken, s.queue);
    match op {
      case SetSelf(_) =>
      case Queue(node) =>
        assert queued + [node] == taken + (s.queue + [node]);
        TakenIs(queued + [node], taken, s.queue + [node]);
      case CreateOp(form) =>
        CreateKeeps(s, form, queued, taken);
      case JoinOp(form) =>
        if Admissible(form) && s.clustered && s.queue != [] {
          JoinKeeps(s, form, taken);
          Regrouped(s.members[0], taken, s.queue);
        }
    }
  }

  lemma FirstOfMore(xs: seq<string>, x: string)
    ensures FirstOccurrences(xs + [x]) == if x in FirstOccurrences(xs) then FirstOccurrences(xs) else FirstOccurrences(xs) + [x]
  {
    assert (xs + [x])[..|xs|] == xs;
  }

  lemma FirstOfOne(x: string)
    ensures FirstOccurrences([x]) == [x]
  {
    FirstOfMore([], x);
  }

  /** Members are pairwise distinct. */
  lemma MembersDistinct(ops: seq<Op>)
    ensures Distinct(Run(ops).members)
  {
    MembersAreFirstTaken(ops);
  }

  lemma StepGrows(s: State, op: Op)
    requires !s.clustered ==> s.members == []
    ensures s.members <= Step(s, op).0.members
  {
  }

  /** Whatever happens next, a member keeps its node id: the list only grows at its end. */
  lemma {:induction false} NodeIdsStable(ops: seq<Op>, more: seq<Op>)
    ensures Run(ops).members <= Run(ops + more).members
  {
    if more == [] {
      assert ops + more == ops;
    } else {
      var init := more[..|more| - 1];
      NodeIdsStable(ops, init);
      assert (ops + more)[..|ops + more| - 1] == ops + init;
      MembersAreFirstTaken(ops + init);
      StepGrows(Run(ops + init), more[|more| - 1]);
    }
  }

  /** Operation `k` of a run founded the cluster. */
  predicate Founds(ops: seq<Op>, k: nat)
    requires k < |ops|
  {
    ops[k].CreateOp? && Created(Run(ops[..k]), ops[k].form).1.Finished?
  }

  lemma RunNext(ops: seq<Op>, k: nat)
    requires k < |ops|
    ensures Run(ops[..k + 1]) == Step(Run(ops[..k]), ops[k]).0
  {
    assert ops[..k + 1][..k] == ops[..k];
  }

  lemma StepFounds(s: State, op: Op)
    ensures var founds := op.CreateOp? && Created(s, op.form).1.Finished?;
            && (Step(s, op).0.clustered <==> s.clustered || founds)
            && (founds ==> !s.clustered && Step(s, op).0.members == [Self(s)])
  {
  }

  /** The first member is the node that was self when the cluster was created, whatever the server
      calls itself later. */
  lemma FounderIsSelf(ops: seq<Op>, k: nat)
    requires k < |ops| && Founds(ops, k)
    ensures Run(ops).members != [] && Run(ops).members[0] == Self(Run(ops[..k]))
  {
    hide Run, Step, Created, Self;
    RunNext(ops, k);
    StepFounds(Run(ops[..k]), ops[k]);
    NodeIdsStable(ops[..k + 1], ops[k + 1..]);
    assert ops[..k + 1] + ops[k + 1..] == ops;
  }

  /** A server is clustered exactly after one create that founded the cluster. */
  lemma {:induction false} ClusteredByCreate(ops: seq<Op>)
    ensures Run(ops).clustered <==> exists k | 0 <= k < |ops| :: Founds(ops, k)
    ensures forall j, k | 0 <= j < k < |ops| :: !(Founds(ops, j) && Founds(ops, k))
    decreases |ops|
  {
    if ops != [] {
      var last := |ops| - 1;
      var init := ops[..last];
      ClusteredByCreate(init);
      FoundsBefore(ops);
      RunNext(ops, last);
      assert ops[..last + 1] == ops;
      StepFounds(Run(init), ops[last]);
      assert Founds(ops, last) <==> ops[last].CreateOp? && Created(Run(init), ops[last].form).1.Finished?;
      hide Run, Step, Created, Founds;
      if Run(init).clustered {
        var k :| 0 <= k < |init| && Founds(init, k);
        assert Founds(ops, k);
      }
    }
  }

  lemma FoundsBefore(ops: seq<Op>)
    requires ops != []
    ensures forall k | 0 <= k < |ops| - 1 :: Founds(ops, k) <==> Founds(ops[..|ops| - 1], k)
  {
    forall k | 0 <= k < |ops| - 1 ensures Founds(ops, k) <==> Founds(ops[..|ops| - 1], k) {
      assert ops[..|ops| - 1][..k] == ops[..k];
    }
  }

  /** How many of a run's joins were accepted, and how many refused as duplicates. */
  function Joins(ops: seq<Op>): (nat, nat) {
    if ops == [] then (0, 0)
    else
      var before, op := ops[..|ops| - 1], ops[|ops| - 1];
      var (accepted, duplicates) := Joins(before);
      match Step(Run(before), op).1
      case Duplicate(_) => (accepted, duplicates + 1)
      case Finished(_, _, _) => (if op.JoinOp? then accepted + 1 else accepted, duplicates)
      case _ => (accepted, duplicates)
  }

  lemma StepJoins(s: State, op: Op)
    requires s.clustered <==> s.members != []
    ensures var (s', reply) := Step(s, op);
            && |s'.members| == |s.members| + (if reply.Finished? then 1 else 0)
            && |s'.queue| == |s.queue| + (if op.Queue? then 1 else 0)
                             - (if op.JoinOp? && (reply.Finished? || reply.Duplicate?) then 1 else 0)
            && (reply.Duplicate? ==> op.JoinOp?)
            && (s'.clustered <==> s.clustered || (op.CreateOp? && reply.Finished?))
            && (reply.Finished? ==> (op.JoinOp? && s.clustered) || (op.CreateOp? && !s.clustered))
            && (reply.Duplicate? ==> s.clustered)
  {
  }

  /** Every name taken from the queue either joined or was a duplicate, and the members are the
      founder and those that joined. */
  lemma {:induction false} JoinsConserved(ops: seq<Op>)
    ensures |Run(ops).queue| <= |Queued(ops)|
    ensures Joins(ops).0 + Joins(ops).1 == |Queued(ops)| - |Run(ops).queue|
    ensures |Run(ops).members| == if Run(ops).clustered then 1 + Joins(ops).0 else 0
    ensures !Run(ops).clustered ==> Joins(ops) == (0, 0)
  {
    if ops != [] {
      hide Step;
      JoinsConserved(ops[..|ops| - 1]);
      StepJoins(Run(ops[..|ops| - 1]), ops[|ops| - 1]);
    }
  }
}
