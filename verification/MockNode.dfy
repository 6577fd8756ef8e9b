/** The mock server's side of a node's configuration: the stored keys, the update handler,
    and its own reader of the ACME strings, which decides what names an order certifies. */
module MockNode {
  import opened Strings
  import opened Forms
  import opened Options
  import opened Numerals
  import opened Sorting
  import opened NodeConfig

  const NODE_DIGEST := "mockpve-node-config-digest"
  const SLOT_COUNT := 6

  type Stored = map<string, string>

  // ---- the handlers ----

  /** Whether the digest guard lets the form through. */
  predicate Accepted(form: Form) {
    "digest" !in form || form["digest"] == "" || form["digest"] == NODE_DIGEST
  }

  function DeletedKeys(form: Form): set<string> {
    if "delete" in form && form["delete"] != "" then TrimmedItems(Split(form["delete"], ',')) else {}
  }

  /** Deletes first, then every other submitted key as it came. */
  function Applied(config: Stored, form: Form): Stored {
    (config - DeletedKeys(form)) + (form - {"digest", "delete"})
  }

  method DeleteKeys(start: Stored, form: Form) returns (config: Stored)
    ensures config == start - DeletedKeys(form)
  {
    config := start;
    if "delete" in form && form["delete"] != "" {
      var items := Split(form["delete"], ',');
      for i := 0 to |items|
        invariant config == start - TrimmedItems(items[..i])
      {
        config := config - {Trim(items[i])};
        NextTrimmed(items, i);
      }
      assert items[..|items|] == items;
    }
  }

  /** Every key but the two that steer the update, visited in an arbitrary order. */
  method StoreKeys(start: Stored, form: Form) returns (config: Stored)
    ensures config == start + (form - {"digest", "delete"})
  {
    config := start;
    var todo := form.Keys;
    while todo != {}
      invariant todo <= form.Keys
      invariant config == start + (form - (todo + {"digest", "delete"}))
      decreases todo
    {
      var key :| key in todo;
      todo := todo - {key};
      if key != "digest" && key != "delete" {
        config := config[key := form[key]];
      }
    }
    assert todo + {"digest", "delete"} == {"digest", "delete"};
  }

  class NodeStore {
    var nodes: map<string, Stored>

    constructor ()
      ensures nodes == map[]
    {
      nodes := map[];
    }

    function ConfigOf(node: string): Stored
      reads this
    {
      if node in nodes then nodes[node] else map[]
    }

    /** handleNodeConfigSet. */
    method SetConfig(node: string, form: Form) returns (ok: bool)
      modifies this
      ensures ok == Accepted(form)
      ensures nodes == if ok then old(nodes)[node := Applied(old(ConfigOf(node)), form)] else old(nodes)
    {
      if "digest" in form && form["digest"] != "" && form["digest"] != NODE_DIGEST {
        return false;
      }
      var config := DeleteKeys(ConfigOf(node), form);
      config := StoreKeys(config, form);
      nodes := nodes[node := config];
      ok := true;
    }

    /** handleNodeConfigGet: the stored keys and the digest, or the one property asked for. */
    method GetConfig(node: string, property: string) returns (out: Stored)
      ensures var all := Response(ConfigOf(node));
              out == if property == "" then all
                     else map key | key in all && key == property :: all[key]
    {
      out := Response(ConfigOf(node));
      if property != "" {
        out := if property in out then map[property := out[property]] else map[];
      }
    }
  }

  function Response(config: Stored): Stored { config["digest" := NODE_DIGEST] }

  /** The JSON object a read answers with. */
  function ResponseObject(config: Stored): Object {
    map key | key in Response(config) :: Text(Response(config)[key])
  }

  // ---- the mock's own reader ----

  function CutPrefix(s: string, prefix: string): Option<string> {
    if HasPrefix(s, prefix) then Some(s[|prefix|..]) else None
  }

  function SlotDomainFrom(parts: seq<string>, first: bool): string {
    if parts == [] then ""
    else
      var part := Trim(parts[0]);
      match CutPrefix(part, Keyed("domain", ""))
      case Some(rest) => rest
      case None => if first && '=' !in part then part else SlotDomainFrom(parts[1..], false)
  }

  function SlotDomain(v: string): string { SlotDomainFrom(Split(v, ','), true) }

  /** The names of the slots below `n`, in slot order. */
  function SlotNames(config: Stored, n: nat): seq<string> {
    if n == 0 then []
    else SlotNames(config, n - 1)
         + if SlotKey(n - 1) in config then [SlotDomain(config[SlotKey(n - 1)])] else []
  }

  function LegacyNames(parts: seq<string>): seq<string> {
    if parts == [] then []
    else LegacyNames(parts[..|parts| - 1]) + LegacyItems(parts[|parts| - 1])
  }

  function LegacyItems(part: string): seq<string> {
    match CutPrefix(Trim(part), Keyed("domains", ""))
    case Some(rest) => Split(rest, ';')
    case None => []
  }

  function ACMEParts(config: Stored): seq<string> {
    Split(if "acme" in config then config["acme"] else "", ',')
  }

  /** The names left after adding the candidates one by one. */
  function Names(candidates: seq<string>): seq<string> {
    if candidates == [] then []
    else
      var rest, name := Names(candidates[..|candidates| - 1]), Trim(candidates[|candidates| - 1]);
      if name == "" || name in rest then rest else rest + [name]
  }

  /** They are the trimmed, non-empty candidates, each at its first place. */
  lemma {:induction false} NamesAreFirstOccurrences(candidates: seq<string>)
    ensures Names(candidates) == FirstOccurrences(Clean(candidates))
  {
    if candidates != [] {
      var init, name := candidates[..|candidates| - 1], Trim(candidates[|candidates| - 1]);
      NamesAreFirstOccurrences(init);
      assert Clean(candidates) == Clean(init) + if name == "" then [] else [name];
      if name != "" {
        assert Clean(candidates)[..|Clean(init)|] == Clean(init);
      } else {
        assert Clean(candidates) == Clean(init);
      }
    }
  }

  /** The names an order on this node would certify. */
  function CertifiedNames(config: Stored): seq<string> {
    Names(SlotNames(config, SLOT_COUNT) + LegacyNames(ACMEParts(config)))
  }

  /** A part of the account string lists the name: after "domains=", between semicolons. */
  predicate PartLists(part: string, name: string) {
    |part| >= 8 && part[..8] == "domains="
    && exists j :: 0 <= j < |Split(part[8..], ';')| && Trim(Split(part[8..], ';')[j]) == name
  }

  predicate SomeLists(parts: seq<string>, name: string) {
    exists k :: 0 <= k < |parts| && PartLists(Trim(parts[k]), name)
  }

  predicate SlotGives(config: Stored, i: nat, name: string) {
    "acmedomain" + Itoa(i) in config && Trim(SlotDomain(config["acmedomain" + Itoa(i)])) == name
  }

  predicate Holds(items: seq<string>, name: string) { exists k :: 0 <= k < |items| && Trim(items[k]) == name }

  lemma HoldsAppend(a: seq<string>, b: seq<string>, name: string)
    ensures Holds(a + b, name) <==> Holds(a, name) || Holds(b, name)
  {
    hide Trim;
    if Holds(a, name) {
      var k :| 0 <= k < |a| && Trim(a[k]) == name;
      assert (a + b)[k] == a[k];
    }
    if Holds(b, name) {
      var k :| 0 <= k < |b| && Trim(b[k]) == name;
      assert (a + b)[|a| + k] == b[k];
    }
    if Holds(a + b, name) {
      var k :| 0 <= k < |a + b| && Trim((a + b)[k]) == name;
      assert if k < |a| then Trim(a[k]) == name else Trim(b[k - |a|]) == name;
    }
  }

  predicate SomeGives(config: Stored, n: nat, name: string) { exists i :: 0 <= i < n && SlotGives(config, i, name) }

  lemma SomeGivesNext(config: Stored, n: nat, name: string)
    ensures SomeGives(config, n + 1, name) <==> SomeGives(config, n, name) || SlotGives(config, n, name)
    ensures !SomeGives(config, 0, name)
  {
    hide SlotGives;
  }

  lemma {:induction false} SlotNamesHold(config: Stored, n: nat, name: string)
    ensures Holds(SlotNames(config, n), name) <==> SomeGives(config, n, name)
  {
    hide SomeGives, Holds, SlotGives, SlotKey, SlotDomain;
    if n == 0 {
      SomeGivesNext(config, 0, name);
      HoldsNone(name);
    } else {
      SlotNamesHold(config, n - 1, name);
      SomeGivesNext(config, n - 1, name);
      SlotHolds(config, n - 1, name);
      HoldsAppend(SlotNames(config, n - 1), if SlotKey(n - 1) in config then [SlotDomain(config[SlotKey(n - 1)])] else [], name);
    }
  }

  lemma HoldsNone(name: string)
    ensures !Holds([], name)
  {
  }

  lemma SlotHolds(config: Stored, i: nat, name: string)
    ensures Holds(if SlotKey(i) in config then [SlotDomain(config[SlotKey(i)])] else [], name) <==> SlotGives(config, i, name)
  {
    hide Trim, SlotDomain, Itoa;
    if SlotKey(i) in config {
      HoldsOne(SlotDomain(config[SlotKey(i)]), name);
    }
  }

  lemma LegacyItemsHold(part: string, name: string)
    ensures Holds(LegacyItems(part), name) <==> PartLists(Trim(part), name)
  {
    hide Trim, Split;
    assert Keyed("domains", "") == "domains=";
  }

  lemma SomeListsNext(parts: seq<string>, part: string, name: string)
    ensures SomeLists(parts + [part], name) <==> SomeLists(parts, name) || PartLists(Trim(part), name)
    ensures !SomeLists([], name)
  {
    hide Trim, PartLists;
    var all := parts + [part];
    assert all[|parts|] == part && forall k | 0 <= k < |parts| :: all[k] == parts[k];
    if k :| 0 <= k < |parts| && PartLists(Trim(parts[k]), name) {
      assert PartLists(Trim(all[k]), name);
    }
  }

  lemma {:induction false} LegacyNamesHold(parts: seq<string>, name: string)
    ensures Holds(LegacyNames(parts), name) <==> SomeLists(parts, name)
  {
    hide Trim, PartLists, LegacyItems, SomeLists, Holds;
    SomeListsNext([], "", name);
    HoldsNone(name);
    if parts != [] {
      var init, last := parts[..|parts| - 1], parts[|parts| - 1];
      LegacyNamesHold(init, name);
      LegacyItemsHold(last, name);
      HoldsAppend(LegacyNames(init), LegacyItems(last), name);
      SomeListsNext(init, last, name);
      assert parts == init + [last];
    }
  }

  lemma {:induction false} NamesHold(candidates: seq<string>, name: string)
    ensures name in Names(candidates) <==> name != "" && Holds(candidates, name)
  {
    if candidates != [] {
      hide Trim, Holds;
      var init, last := candidates[..|candidates| - 1], candidates[|candidates| - 1];
      NamesHold(init, name);
      HoldsAppend(init, [last], name);
      HoldsOne(last, name);
      assert candidates == init + [last];
    }
  }

  lemma HoldsOne(item: string, name: string)
    ensures Holds([item], name) <==> Trim(item) == name
  {
    assert [item][0] == item;
  }

  /** On every configuration, what an order certifies is what the mock's reader finds in the six slots and
      what the account string lists, trimmed and not empty. */
  lemma CertifiedExactly(config: Stored, name: string)
    ensures name in CertifiedNames(config) <==>
              name != "" && (SomeGives(config, 6, name) || ("acme" in config && SomeLists(Split(config["acme"], ','), name)))
  {
    hide Trim, Split, Holds, SomeLists, SomeGives, SlotNames, LegacyNames;
    NamesHold(SlotNames(config, SLOT_COUNT) + LegacyNames(ACMEParts(config)), name);
    HoldsAppend(SlotNames(config, SLOT_COUNT), LegacyNames(ACMEParts(config)), name);
    SlotNamesHold(config, SLOT_COUNT, name);
    LegacyNamesHold(ACMEParts(config), name);
    NoAccountLists(name);
  }

  lemma NoAccountLists(name: string)
    ensures !SomeLists(Split("", ','), name)
  {
    assert Split("", ',') == [""] && Trim("") == "";
  }

  lemma NamesStep(offered: seq<string>, domain: string)
    ensures var name := Trim(domain);
            Names(offered + [domain]) ==
            if name == "" || name in Names(offered) then Names(offered) else Names(offered) + [name]
  {
    assert (offered + [domain])[..|offered|] == offered;
  }

  method AddName(san: seq<string>, seen: set<string>, ghost offered: seq<string>, domain: string)
    returns (san': seq<string>, seen': set<string>)
    requires san == Names(offered) && seen == Elements(san)
    ensures san' == Names(offered + [domain]) && seen' == Elements(san')
  {
    NamesStep(offered, domain);
    var name := Trim(domain);
    san', seen' := san, seen;
    if name != "" && name !in seen {
      san', seen' := san + [name], seen + {name};
    }
  }

  method AddNames(san: seq<string>, seen: set<string>, ghost offered: seq<string>, items: seq<string>)
    returns (san': seq<string>, seen': set<string>)
    requires san == Names(offered) && seen == Elements(san)
    ensures san' == Names(offered + items) && seen' == Elements(san')
  {
    hide Names, Elements;
    san', seen' := san, seen;
    ghost var all := offered;
    for i := 0 to |items|
      invariant all == offered + items[..i]
      invariant san' == Names(all) && seen' == Elements(san')
    {
      san', seen' := AddName(san', seen', all, items[i]);
      all := all + [items[i]];
    }
    assert items[..|items|] == items;
  }

  /** acmeSANsLocked: the slots first, then the legacy list. */
  method CollectNames(config: Stored) returns (san: seq<string>)
    ensures san == CertifiedNames(config)
  {
    var seen: set<string>;
    san, seen := CollectSlotNames(config);
    san := CollectLegacyNames(san, seen, SlotNames(config, SLOT_COUNT), ACMEParts(config));
  }

  method CollectLegacyNames(start: seq<string>, startSeen: set<string>, ghost offered: seq<string>, parts: seq<string>)
    returns (san: seq<string>)
    requires start == Names(offered) && startSeen == Elements(start)
    ensures san == Names(offered + LegacyNames(parts))
  {
    san := start;
    var seen := startSeen;
    ghost var all := offered;
    assert offered + LegacyNames(parts[..0]) == offered;
    for i := 0 to |parts|
      invariant all == offered + LegacyNames(parts[..i])
      invariant san == Names(all) && seen == Elements(san)
    {
      san, seen := AddLegacyPart(san, seen, all, parts[i]);
      LegacyStep(offered, parts, i);
      all := offered + LegacyNames(parts[..i + 1]);
    }
    assert parts[..|parts|] == parts;
  }

  method AddLegacyPart(san: seq<string>, seen: set<string>, ghost offered: seq<string>, part: string)
    returns (san': seq<string>, seen': set<string>)
    requires san == Names(offered) && seen == Elements(san)
    ensures san' == Names(offered + LegacyItems(part)) && seen' == Elements(san')
  {
    var list := CutPrefix(Trim(part), Keyed("domains", ""));
    if list.None? {
      assert offered + [] == offered;
      return san, seen;
    }
    san', seen' := AddNames(san, seen, offered, Split(list.value, ';'));
  }

  lemma LegacyStep(offered: seq<string>, parts: seq<string>, i: nat)
    requires i < |parts|
    ensures offered + LegacyNames(parts[..i + 1]) == offered + LegacyNames(parts[..i]) + LegacyItems(parts[i])
  {
    hide LegacyItems;
    assert parts[..i + 1][..i] == parts[..i];
  }

  method CollectSlotNames(config: Stored) returns (san: seq<string>, seen: set<string>)
    ensures san == Names(SlotNames(config, SLOT_COUNT)) && seen == Elements(san)
  {
    san, seen := [], {};
    for i := 0 to SLOT_COUNT
      invariant san == Names(SlotNames(config, i)) && seen == Elements(san)
    {
      var key := SlotKey(i);
      if key in config {
        san, seen := AddName(san, seen, SlotNames(config, i), SlotDomain(config[key]));
      } else {
        assert SlotNames(config, i + 1) == SlotNames(config, i);
      }
    }
  }
}
