/** The mock's OSD tree: the flat list of OSDs grouped by host. */
module OsdTree {
  import opened Filtering
  import opened Numerals
  import opened Sorting

  datatype Osd = Osd(id: int, host: string)

  datatype Leaf = Leaf(id: int, name: string, status: string)

  datatype Host = Host(name: string, children: seq<Leaf>)

  function LeafOf(id: int): Leaf { Leaf(id, "osd." + Itoa(id), "up") }

  function Leaves(osds: seq<Osd>): seq<Leaf> { seq(|osds|, i requires 0 <= i < |osds| => LeafOf(osds[i].id)) }

  function Hosts(osds: seq<Osd>): seq<string> { seq(|osds|, i requires 0 <= i < |osds| => osds[i].host) }

  function On(host: string): Osd -> bool { (osd: Osd) => osd.host == host }

  /** One host's subtree: its OSDs in the order of the list. */
  function HostOf(osds: seq<Osd>, host: string): Host { Host(host, Leaves(Keeping(osds, On(host)))) }

  /** The subtrees of these hosts. */
  function HostsOf(osds: seq<Osd>, hosts: seq<string>): seq<Host> {
    seq(|hosts|, i requires 0 <= i < |hosts| => HostOf(osds, hosts[i]))
  }

  /** The children of the root: each host where it is first seen. */
  function Tree(osds: seq<Osd>): seq<Host> { HostsOf(osds, FirstOccurrences(Hosts(osds))) }

  /** The hosts seen so far, each with its subtree. */
  ghost predicate Grouped(osds: seq<Osd>, hosts: map<string, Host>, order: seq<string>) {
    && order == FirstOccurrences(Hosts(osds))
    && (forall h :: h in hosts <==> h in order)
    && (forall h | h in hosts :: hosts[h] == HostOf(osds, h))
  }

  /** One turn of the loop over the records. */
  method AddOsd(ghost osds: seq<Osd>, osd: Osd, hosts: map<string, Host>, order: seq<string>)
    returns (hosts': map<string, Host>, order': seq<string>)
    requires Grouped(osds, hosts, order)
    ensures Grouped(osds + [osd], hosts', order')
  {
    hide Leaves, Keeping, LeafOf, FirstOccurrences;
    hosts', order' := hosts, order;
    if osd.host !in hosts {
      NotSeen(osds, osd.host);
      hosts' := hosts[osd.host := Host(osd.host, [])];
      order' := order + [osd.host];
    }
    var h := hosts'[osd.host];
    hosts' := hosts'[osd.host := h.(children := h.children + [LeafOf(osd.id)])];
    NextOrder(osds, osd);
    forall other | other in hosts' ensures hosts'[other] == HostOf(osds + [osd], other) {
      NextHost(osds, osd, other);
    }
  }

  /** buildOSDTreeLocked. */
  method BuildTree(osds: seq<Osd>) returns (root: seq<Host>)
    ensures root == Tree(osds)
  {
    hide HostOf, Tree;
    var hosts: map<string, Host> := map[];
    var order: seq<string> := [];
    for i := 0 to |osds|
      invariant Grouped(osds[..i], hosts, order)
    {
      hosts, order := AddOsd(osds[..i], osds[i], hosts, order);
      assert osds[..i + 1] == osds[..i] + [osds[i]];
    }
    assert osds[..|osds|] == osds;
    root := Assemble(osds, hosts, order);
  }

  /** The second loop: the subtrees in the order the hosts were seen. */
  method Assemble(ghost osds: seq<Osd>, hosts: map<string, Host>, order: seq<string>) returns (root: seq<Host>)
    requires Grouped(osds, hosts, order)
    ensures root == Tree(osds)
  {
    hide HostOf, FirstOccurrences;
    root := [];
    for i := 0 to |order|
      invariant |root| == i && forall k | 0 <= k < i :: root[k] == HostOf(osds, order[k])
    {
      root := root + [hosts[order[i]]];
    }
  }

  lemma NextOrder(osds: seq<Osd>, osd: Osd)
    ensures var order := FirstOccurrences(Hosts(osds));
            FirstOccurrences(Hosts(osds + [osd])) == if osd.host in order then order else order + [osd.host]
  {
    var all := Hosts(osds + [osd]);
    assert all[..|all| - 1] == Hosts(osds);
  }

  /** One more OSD joins the end of its host's children, and changes no other host. */
  lemma NextHost(osds: seq<Osd>, osd: Osd, h: string)
    ensures HostOf(osds + [osd], h) ==
            if h == osd.host then Host(h, HostOf(osds, h).children + [LeafOf(osd.id)]) else HostOf(osds, h)
  {
    KeepingNext(osds, osd, On(h));
    assert Leaves(Keeping(osds, On(h)) + [osd]) == Leaves(Keeping(osds, On(h))) + [LeafOf(osd.id)];
  }

  lemma NotSeen(osds: seq<Osd>, host: string)
    requires host !in FirstOccurrences(Hosts(osds))
    ensures HostOf(osds, host) == Host(host, [])
  {
    NoneOn(osds, host);
  }

  lemma HostListed(osds: seq<Osd>, osd: Osd)
    requires osd in osds
    ensures osd.host in Hosts(osds)
  {
    var i :| 0 <= i < |osds| && osds[i] == osd;
    assert Hosts(osds)[i] == osd.host;
  }

  lemma NoneOn(osds: seq<Osd>, host: string)
    requires host !in Hosts(osds)
    ensures Keeping(osds, On(host)) == []
  {
    var r := Keeping(osds, On(host));
    if r != [] {
      KeepingHolds(osds, r[0], On(host));
      HostListed(osds, r[0]);
    }
  }

  // ---- the tree holds the list ----

  function Attached(host: Host): seq<Osd> {
    seq(|host.children|, i requires 0 <= i < |host.children| => Osd(host.children[i].id, host.name))
  }

  /** The OSDs of the tree, host by host. */
  function Flatten(tree: seq<Host>): seq<Osd> {
    if tree == [] then [] else Flatten(tree[..|tree| - 1]) + Attached(tree[|tree| - 1])
  }

  lemma AttachedIs(osds: seq<Osd>, host: string)
    ensures Attached(HostOf(osds, host)) == Keeping(osds, On(host))
  {
    var kept := Keeping(osds, On(host));
    forall i | 0 <= i < |kept| ensures kept[i].host == host {
      KeepingHolds(osds, kept[i], On(host));
    }
  }

  function OnAny(hosts: seq<string>): Osd -> bool { (osd: Osd) => osd.host in hosts }

  /** Splitting by disjoint conditions splits the elements. */
  lemma {:induction false} KeepingSplits<T(!new)>(xs: seq<T>, one: T -> bool, other: T -> bool, either: T -> bool)
    requires forall x :: (either(x) <==> one(x) || other(x)) && !(one(x) && other(x))
    ensures multiset(Keeping(xs, either)) == multiset(Keeping(xs, one)) + multiset(Keeping(xs, other))
  {
    if xs != [] {
      KeepingSplits(xs[..|xs| - 1], one, other, either);
    }
  }

  lemma {:induction false} FlattenHosts(osds: seq<Osd>, hosts: seq<string>)
    requires Distinct(hosts)
    ensures multiset(Flatten(HostsOf(osds, hosts))) == multiset(Keeping(osds, OnAny(hosts)))
  {
    if hosts == [] {
      var r := Keeping(osds, OnAny(hosts));
      if r != [] {
        KeepingHolds(osds, r[0], OnAny(hosts));
      }
    } else {
      var init, last := hosts[..|hosts| - 1], hosts[|hosts| - 1];
      FlattenHosts(osds, init);
      assert HostsOf(osds, hosts)[..|hosts| - 1] == HostsOf(osds, init);
      AttachedIs(osds, last);
      assert hosts == init + [last];
      KeepingSplits(osds, OnAny(init), On(last), OnAny(hosts));
    }
  }

  /** The OSDs of the tree together are the list's, each once, under their own host. */
  lemma TreeHoldsList(osds: seq<Osd>)
    ensures multiset(Flatten(Tree(osds))) == multiset(osds)
  {
    var hosts := FirstOccurrences(Hosts(osds));
    FlattenHosts(osds, hosts);
    forall osd | osd in osds ensures OnAny(hosts)(osd) {
      HostListed(osds, osd);
    }
    KeepingAll(osds, OnAny(hosts));
  }

  /** Each leaf is an OSD of its host, in the order of the list, under its own name and up. */
  lemma LeavesAre(osds: seq<Osd>, i: nat, j: nat)
    requires i < |Tree(osds)| && j < |Tree(osds)[i].children|
    ensures var name := Tree(osds)[i].name;
            && j < |Keeping(osds, On(name))| == |Tree(osds)[i].children|
            && var osd := Keeping(osds, On(name))[j];
               osd in osds && osd.host == name && Tree(osds)[i].children[j] == Leaf(osd.id, "osd." + Itoa(osd.id), "up")
  {
    var name := Tree(osds)[i].name;
    KeepingHolds(osds, Keeping(osds, On(name))[j], On(name));
  }

  /** The hosts stand in the order in which the list first names them. */
  lemma HostsInOrder(osds: seq<Osd>, i: nat, j: nat)
    requires i < j < |Tree(osds)|
    ensures SeenBefore(Hosts(osds), Tree(osds)[i].name, Tree(osds)[j].name)
  {
    FirstOccurrencesInOrder(Hosts(osds));
  }

  /** Each host is in the tree once, and its children are its OSDs in the order of the list, at
      least one. */
  lemma TreeGroups(osds: seq<Osd>, i: nat)
    requires i < |Tree(osds)|
    ensures forall j | 0 <= j < i :: Tree(osds)[j].name != Tree(osds)[i].name
    ensures Attached(Tree(osds)[i]) == Keeping(osds, On(Tree(osds)[i].name)) != []
  {
    var hosts := FirstOccurrences(Hosts(osds));
    var name := hosts[i];
    AttachedIs(osds, name);
    assert name in Hosts(osds);
    var k :| 0 <= k < |osds| && osds[k].host == name;
    KeepingHolds(osds, osds[k], On(name));
  }
}
