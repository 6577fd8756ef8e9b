/** What the SDK reads from a property string under each key, on every string: the last part that
    assigns to the key decides. */
module PartReaders {
  import opened Strings
  import opened PropertyStrings

  /** The part's first equals sign is at `i`. */
  predicate EqualsAt(part: string, i: int) { 0 <= i < |part| && part[i] == '=' && '=' !in part[..i] }

  /** The part assigns the trimmed text after its first equals sign to the trimmed text before it. */
  ghost predicate Assigns(part: string, key: string, value: string) {
    exists i :: EqualsAt(part, i) && Trim(part[..i]) == key && Trim(part[i + 1..]) == value
  }

  ghost predicate AssignsTo(part: string, key: string) { exists i :: EqualsAt(part, i) && Trim(part[..i]) == key }

  lemma CutIs(part: string, key: string, value: string)
    ensures var cut := CutAt(part, '=');
            && (AssignsTo(part, key) <==> cut.Found? && Trim(cut.before) == key)
            && (Assigns(part, key, value) <==> cut.Found? && Trim(cut.before) == key && Trim(cut.after) == value)
  {
    hide Trim;
    var cut := CutAt(part, '=');
    if cut.Found? {
      var at := |cut.before|;
      assert part[..at] == cut.before && part[at + 1..] == cut.after && EqualsAt(part, at);
      forall i | 0 <= i < |part| && i != at ensures !EqualsAt(part, i) {
        if i < at {
          assert part[..at][i] == part[i];
        } else {
          assert part[..i][at] == '=';
        }
      }
    }
  }

  // ---- the slot string ----

  /** The slot's plugin or alias. */
  function Field(d: ACMEDomain, key: string): string { if key == "plugin" then d.plugin else d.alias }

  lemma SlotPartReads(out: ACMEDomain, part: string, key: string)
    requires key == "plugin" || key == "alias"
    ensures AssignsTo(Trim(part), key) ==> Assigns(Trim(part), key, Field(ACMEDomainPart(out, part), key))
    ensures !AssignsTo(Trim(part), key) ==> Field(ACMEDomainPart(out, part), key) == Field(out, key)
  {
    hide AssignsTo, Assigns;
    CutIs(Trim(part), key, Field(ACMEDomainPart(out, part), key));
  }

  lemma SlotPartsNext(parts: seq<string>)
    ensures ACMEDomainParts(parts) ==
            if parts == [] then NO_DOMAIN
            else ACMEDomainPart(ACMEDomainParts(parts[..|parts| - 1]), parts[|parts| - 1])
  {
  }

  /** Plugin and alias are each what the last part assigns that assigns to them, and empty without one. */
  lemma {:induction false} SlotReads(parts: seq<string>, key: string, l: int)
    requires key == "plugin" || key == "alias"
    requires -1 <= l < |parts| && (l >= 0 ==> AssignsTo(Trim(parts[l]), key))
    requires forall j | l < j < |parts| :: !AssignsTo(Trim(parts[j]), key)
    ensures l < 0 ==> Field(ACMEDomainParts(parts), key) == ""
    ensures l >= 0 ==> Assigns(Trim(parts[l]), key, Field(ACMEDomainParts(parts), key))
  {
    hide AssignsTo, Assigns, Trim, ACMEDomainParts, ACMEDomainPart;
    SlotPartsNext(parts);
    if parts != [] {
      var n := |parts| - 1;
      var init := parts[..n];
      SlotPartReads(ACMEDomainParts(init), parts[n], key);
      if l < n {
        assert forall j | 0 <= j < n :: init[j] == parts[j];
        SlotReads(init, key, l);
      }
    }
  }

  // ---- the account string ----

  lemma AccountPartReads(out: NodeACME, part: string)
    ensures AssignsTo(part, "account") ==> Assigns(part, "account", NodeACMEPart(out, part).account)
    ensures !AssignsTo(part, "account") ==> NodeACMEPart(out, part).account == out.account
  {
    hide AssignsTo, Assigns, Clean, Split;
    CutIs(part, "account", NodeACMEPart(out, part).account);
  }

  lemma AccountPartsNext(parts: seq<string>)
    ensures NodeACMEParts(parts) ==
            if parts == [] then NO_ACME
            else NodeACMEPart(NodeACMEParts(parts[..|parts| - 1]), parts[|parts| - 1])
  {
  }

  /** The account is what the last part assigns that assigns to it, and empty without one. */
  lemma {:induction false} AccountReads(parts: seq<string>, l: int)
    requires -1 <= l < |parts| && (l >= 0 ==> AssignsTo(parts[l], "account"))
    requires forall j | l < j < |parts| :: !AssignsTo(parts[j], "account")
    ensures l < 0 ==> NodeACMEParts(parts).account == ""
    ensures l >= 0 ==> Assigns(parts[l], "account", NodeACMEParts(parts).account)
  {
    hide AssignsTo, Assigns, NodeACMEParts, NodeACMEPart;
    AccountPartsNext(parts);
    if parts != [] {
      var n := |parts| - 1;
      var init := parts[..n];
      AccountPartReads(NodeACMEParts(init), parts[n]);
      if l < n {
        assert forall j | 0 <= j < n :: init[j] == parts[j];
        AccountReads(init, l);
      }
    }
  }

  lemma DomainsPartReads(out: NodeACME, part: string, list: string)
    ensures Assigns(part, "domains", list) ==> NodeACMEPart(out, part).domains == out.domains + Clean(Split(list, ';'))
    ensures !AssignsTo(part, "domains") ==> NodeACMEPart(out, part).domains == out.domains
  {
    hide AssignsTo, Assigns, Clean, Split;
    CutIs(part, "domains", list);
  }

  /** The domains are those of every part that assigns a list to them, in order. */
  lemma DomainsRead(parts: seq<string>, list: string)
    requires parts != []
    ensures var init, last := parts[..|parts| - 1], parts[|parts| - 1];
            && (Assigns(last, "domains", list) ==>
                  NodeACMEParts(parts).domains == NodeACMEParts(init).domains + Clean(Split(list, ';')))
            && (!AssignsTo(last, "domains") ==> NodeACMEParts(parts).domains == NodeACMEParts(init).domains)
    ensures NodeACMEParts([]).domains == []
  {
    hide AssignsTo, Assigns, NodeACMEPart, Clean, Split;
    DomainsPartReads(NodeACMEParts(parts[..|parts| - 1]), parts[|parts| - 1], list);
  }
}
