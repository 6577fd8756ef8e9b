/** The two ACME property strings of a node's configuration, as the SDK parses and prints
    them: the account string "acme" and the slot string "acmedomain[n]". */
module PropertyStrings {
  import opened Strings
  import opened Options

  datatype NodeACME = NodeACME(account: string, domains: seq<string>)

  datatype ACMEDomain = ACMEDomain(index: int, domain: string, plugin: string, alias: string)

  const NO_ACME := NodeACME("", [])
  const NO_DOMAIN := ACMEDomain(0, "", "", "")

  /** Text a property string can carry as a value: no comma, no space at either end. */
  predicate Plain(s: string) { Trimmed(s) && ',' !in s }

  /** Text the legacy domain list can carry as an item. */
  predicate PlainItem(s: string) { s != "" && Plain(s) && ';' !in s }

  predicate PlainNodeACME(a: NodeACME) {
    Plain(a.account) && forall k | 0 <= k < |a.domains| :: PlainItem(a.domains[k])
  }

  predicate PlainTexts(d: ACMEDomain) { Plain(d.domain) && Plain(d.plugin) && Plain(d.alias) }

  predicate PlainACMEDomain(d: ACMEDomain) { d.domain != "" && PlainTexts(d) }

  // ---- the account string ----

  /** What one comma-separated part does to the value read so far. */
  function NodeACMEPart(out: NodeACME, part: string): NodeACME {
    match CutAt(part, '=')
    case Missing => out
    case Found(key, value) => SetAccountKey(out, Trim(key), Trim(value))
  }

  function SetAccountKey(out: NodeACME, key: string, value: string): NodeACME {
    if key == "account" then out.(account := value)
    else if key == "domains" then out.(domains := out.domains + Clean(Split(value, ';')))
    else out
  }

  function NodeACMEParts(parts: seq<string>): NodeACME {
    if parts == [] then NO_ACME
    else NodeACMEPart(NodeACMEParts(parts[..|parts| - 1]), parts[|parts| - 1])
  }

  function ParsedNodeACME(s: string): NodeACME { NodeACMEParts(Split(s, ',')) }

  method ParseNodeACME(s: string) returns (out: NodeACME)
    ensures out == ParsedNodeACME(s)
    ensures PlainNodeACME(out)
  {
    out := NO_ACME;
    var parts := Split(s, ',');
    for i := 0 to |parts|
      invariant out == NodeACMEParts(parts[..i])
    {
      assert parts[..i + 1][..i] == parts[..i];
      var cut := CutAt(parts[i], '=');
      if cut.Missing? {
        continue;
      }
      var key := Trim(cut.before);
      if key == "account" {
        out := out.(account := Trim(cut.after));
      } else if key == "domains" {
        var domains := AppendItems(out.domains, Split(Trim(cut.after), ';'));
        out := out.(domains := domains);
      }
    }
    assert parts[..|parts|] == parts;
    NodeACMEPartsPlain(parts);
  }

  method AppendItems(domains: seq<string>, items: seq<string>) returns (out: seq<string>)
    ensures out == domains + Clean(items)
  {
    hide Clean, Trim;
    out := domains;
    CleanNone();
    for j := 0 to |items|
      invariant out == domains + Clean(items[..j])
    {
      CleanNext(items, j);
      var domain := Trim(items[j]);
      if domain != "" {
        out := out + [domain];
      }
    }
    assert items[..|items|] == items;
  }

  function EncodeNodeACME(a: NodeACME): string {
    Join(AccountParts(a) + DomainsParts(a), ',')
  }

  /** Whatever the parts, the value read from them is one a property string can carry. */
  lemma {:induction false} NodeACMEPartsPlain(parts: seq<string>)
    requires forall k | 0 <= k < |parts| :: ',' !in parts[k]
    ensures PlainNodeACME(NodeACMEParts(parts))
  {
    if parts != [] {
      NodeACMEPartsPlain(parts[..|parts| - 1]);
      NodeACMEPartPlain(NodeACMEParts(parts[..|parts| - 1]), parts[|parts| - 1]);
    }
  }

  lemma NodeACMEPartPlain(out: NodeACME, part: string)
    requires ',' !in part && PlainNodeACME(out)
    ensures PlainNodeACME(NodeACMEPart(out, part))
  {
    var cut := CutAt(part, '=');
    if cut.Found? {
      hide Trim, Clean, Split, PlainItem;
      CleanItemsPlain(Trim(cut.after));
      AccountKeyPlain(out, Trim(cut.before), Trim(cut.after));
    }
  }

  lemma AccountKeyPlain(out: NodeACME, key: string, value: string)
    requires PlainNodeACME(out) && Plain(value)
    requires forall k | 0 <= k < |Clean(Split(value, ';'))| :: PlainItem(Clean(Split(value, ';'))[k])
    ensures PlainNodeACME(SetAccountKey(out, key, value))
  {
    hide Clean, Split, PlainItem, Trim;
  }

  lemma CleanItemsPlain(list: string)
    requires ',' !in list
    ensures forall k | 0 <= k < |Clean(Split(list, ';'))| :: PlainItem(Clean(Split(list, ';'))[k])
  {
    SplitChars(list, ';', ',');
    CleanChars(Split(list, ';'), ',');
    CleanChars(Split(list, ';'), ';');
  }

  predicate IsWord(key: string) {
    key != "" && forall k | 0 <= k < |key| :: 'a' <= key[k] <= 'z'
  }

  lemma WordIsPlain(key: string)
    requires IsWord(key)
    ensures '=' !in key && ',' !in key && Trim(key) == key
  {
  }

  lemma KeysAreWords()
    ensures IsWord("account") && IsWord("domains")
    ensures IsWord("domain") && IsWord("plugin") && IsWord("alias")
  {
  }

  lemma ReadAccountPart(out: NodeACME, account: string)
    requires Plain(account)
    ensures NodeACMEPart(out, Keyed("account", account)) == out.(account := account)
    ensures ',' !in Keyed("account", account)
  {
    KeysAreWords();
    WordIsPlain("account");
    CutKeyed("account", account);
  }

  lemma ReadDomainsPart(out: NodeACME, domains: seq<string>, list: string)
    requires Trimmed(list) && ',' !in list && Clean(Split(list, ';')) == domains
    ensures NodeACMEPart(out, Keyed("domains", list)) == out.(domains := out.domains + domains)
    ensures ',' !in Keyed("domains", list)
  {
    KeysAreWords();
    WordIsPlain("domains");
    CutKeyed("domains", list);
  }

  lemma ReadDomainList(domains: seq<string>)
    requires |domains| > 0
    requires forall k | 0 <= k < |domains| :: PlainItem(domains[k])
    ensures var list := Join(domains, ';');
            Trimmed(list) && ',' !in list && Clean(Split(list, ';')) == domains
  {
    JoinTrimmed(domains);
    SplitJoin(domains, ';');
    CleanFixed(domains);
    JoinChars(domains, ';', ',');
  }

  lemma {:induction false} JoinTrimmed(items: seq<string>)
    requires |items| > 0
    requires forall k | 0 <= k < |items| :: items[k] != "" && Trimmed(items[k])
    ensures Trimmed(Join(items, ';')) && Join(items, ';') != ""
  {
    if |items| > 1 {
      JoinTrimmed(items[1..]);
    }
  }

  /** A value survives being written and read back if and only if its texts are plain. */
  lemma NodeACMERoundTrip(a: NodeACME)
    ensures ParsedNodeACME(EncodeNodeACME(a)) == a <==> PlainNodeACME(a)
  {
    NodeACMEPartsPlain(Split(EncodeNodeACME(a), ','));
    if PlainNodeACME(a) {
      ReadWrittenNodeACME(a);
    }
  }

  function AccountParts(a: NodeACME): seq<string> {
    if a.account != "" then [Keyed("account", a.account)] else []
  }

  function DomainsParts(a: NodeACME): seq<string> {
    if |a.domains| > 0 then [Keyed("domains", Join(a.domains, ';'))] else []
  }

  lemma ReadAccountParts(a: NodeACME)
    requires PlainNodeACME(a)
    ensures NodeACMEParts(AccountParts(a)) == NO_ACME.(account := a.account)
    ensures forall k | 0 <= k < |AccountParts(a)| :: ',' !in AccountParts(a)[k]
  {
    ReadAccountPart(NO_ACME, a.account);
    if a.account != "" {
      assert AccountParts(a)[..0] == [];
    }
  }

  /** At most one more part. */
  lemma NextAccountPart(parts: seq<string>, more: seq<string>)
    requires |more| <= 1
    ensures NodeACMEParts(parts + more) ==
            if more == [] then NodeACMEParts(parts) else NodeACMEPart(NodeACMEParts(parts), more[0])
  {
    if more == [] {
      assert parts + more == parts;
    } else {
      assert (parts + more)[..|parts|] == parts;
    }
  }

  lemma ReadWrittenNodeACME(a: NodeACME)
    requires PlainNodeACME(a)
    ensures ParsedNodeACME(EncodeNodeACME(a)) == a
  {
    hide NodeACMEParts, NodeACMEPart, Split, Join, Clean, Trim;
    var first, second := AccountParts(a), DomainsParts(a);
    ReadAccountParts(a);
    NextAccountPart(first, second);
    if |a.domains| > 0 {
      ReadDomainList(a.domains);
      ReadDomainsPart(NodeACMEParts(first), a.domains, Join(a.domains, ';'));
    }
    SplitEncoded(first + second, a);
  }

  lemma SplitEncoded(parts: seq<string>, a: NodeACME)
    requires forall k | 0 <= k < |parts| :: ',' !in parts[k]
    requires NodeACMEParts(parts) == a
    ensures NodeACMEParts(Split(Join(parts, ','), ',')) == a
  {
    if parts == [] {
      assert Split("", ',') == [""] && [""][..0] == [];
    } else {
      SplitJoin(parts, ',');
    }
  }

  /** Reading is stable: writing what was read and reading again changes nothing. */
  lemma NodeACMEStable(s: string)
    ensures ParsedNodeACME(EncodeNodeACME(ParsedNodeACME(s))) == ParsedNodeACME(s)
  {
    NodeACMEPartsPlain(Split(s, ','));
    NodeACMERoundTrip(ParsedNodeACME(s));
  }

  lemma EncodesEmpty(a: NodeACME)
    ensures EncodeNodeACME(a) == "" <==> a == NO_ACME
  {
    assert a.account != "" ==> |AccountParts(a)[0]| > 0;
    assert |a.domains| > 0 ==> |DomainsParts(a)[0]| > 0;
  }

  /** The account string as it is written. */
  lemma AccountText(a: NodeACME)
    ensures EncodeNodeACME(a) ==
            (if a.account != "" then "account=" + a.account else "")
            + (if a.account != "" && |a.domains| > 0 then "," else "")
            + (if |a.domains| > 0 then "domains=" + Join(a.domains, ';') else "")
  {
    hide Join, Keyed;
    var list := Join(a.domains, ';');
    var account, domains := Keyed("account", a.account), Keyed("domains", list);
    KeyedText(a.account, list);
    JoinNone(',');
    JoinOne(account, ',');
    JoinOne(domains, ',');
    JoinCons(account, [domains], ',');
    assert [account] + [] == [account] && [] + [domains] == [domains];
  }

  lemma JoinNone(sep: char)
    ensures Join([], sep) == ""
  {
  }

  lemma KeyedText(a: string, b: string)
    ensures Keyed("account", a) == "account=" + a && Keyed("domains", b) == "domains=" + b
  {
  }

  // ---- the slot string ----

  function ACMEDomainPart(out: ACMEDomain, rawPart: string): ACMEDomain {
    var part := Trim(rawPart);
    if part == "" then out
    else match CutAt(part, '=')
      case Missing => if out.domain == "" then out.(domain := part) else out
      case Found(key, value) => SetSubKey(out, Trim(key), Trim(value))
  }

  function SetSubKey(out: ACMEDomain, key: string, value: string): ACMEDomain {
    if key == "domain" then out.(domain := value)
    else if key == "plugin" then out.(plugin := value)
    else if key == "alias" then out.(alias := value)
    else out
  }

  function ACMEDomainParts(parts: seq<string>): ACMEDomain {
    if parts == [] then NO_DOMAIN
    else ACMEDomainPart(ACMEDomainParts(parts[..|parts| - 1]), parts[|parts| - 1])
  }

  /** The slot a string describes, at index 0, or nothing when it names no domain. */
  function ParsedACMEDomain(s: string): Option<ACMEDomain> {
    var out := ACMEDomainParts(Split(s, ','));
    if out.domain == "" then None else Some(out)
  }

  method ParseACMEDomain(s: string) returns (r: Option<ACMEDomain>)
    ensures r == ParsedACMEDomain(s)
    ensures r.Some? ==> PlainACMEDomain(r.value) && r.value.index == 0
  {
    var out := NO_DOMAIN;
    var parts := Split(s, ',');
    for i := 0 to |parts|
      invariant out == ACMEDomainParts(parts[..i])
    {
      assert parts[..i + 1][..i] == parts[..i];
      var part := Trim(parts[i]);
      if part == "" {
        continue;
      }
      var cut := CutAt(part, '=');
      if cut.Missing? {
        if out.domain == "" {
          out := out.(domain := part);
        }
        continue;
      }
      match Trim(cut.before) {
        case "domain" => out := out.(domain := Trim(cut.after));
        case "plugin" => out := out.(plugin := Trim(cut.after));
        case "alias" => out := out.(alias := Trim(cut.after));
        case _ =>
      }
    }
    assert parts[..|parts|] == parts;
    ACMEDomainPartsPlain(parts);
    r := if out.domain == "" then None else Some(out);
  }

  function EncodeACMEDomain(d: ACMEDomain): string {
    Join([Keyed("domain", d.domain)]
         + (if d.plugin != "" then [Keyed("plugin", d.plugin)] else [])
         + (if d.alias != "" then [Keyed("alias", d.alias)] else []), ',')
  }

  /** The slot string as it is written. */
  lemma SlotText(d: ACMEDomain)
    ensures EncodeACMEDomain(d) ==
            "domain=" + d.domain + (if d.plugin != "" then ",plugin=" + d.plugin else "")
            + (if d.alias != "" then ",alias=" + d.alias else "")
  {
    hide Join, Keyed;
    var first, second, third := Keyed("domain", d.domain), Keyed("plugin", d.plugin), Keyed("alias", d.alias);
    KeyedSlotText(d);
    JoinOne(first, ',');
    JoinOne(second, ',');
    JoinOne(third, ',');
    JoinCons(first, [second], ',');
    JoinCons(first, [third], ',');
    JoinCons(second, [third], ',');
    JoinCons(first, [second] + [third], ',');
    assert [first] + [] + [] == [first] && [first] + [second] + [] == [first] + [second];
    assert [first] + [] + [third] == [first] + [third] && [first] + [second] + [third] == [first] + ([second] + [third]);
    assert first + [','] + (second + [','] + third) == first + ([','] + second) + ([','] + third);
    assert first + [','] + second == first + ([','] + second) + "" && first + [','] + third == first + "" + ([','] + third);
  }

  lemma KeyedSlotText(d: ACMEDomain)
    ensures Keyed("domain", d.domain) == "domain=" + d.domain
    ensures [','] + Keyed("plugin", d.plugin) == ",plugin=" + d.plugin
    ensures [','] + Keyed("alias", d.alias) == ",alias=" + d.alias
  {
  }

  lemma {:induction false} ACMEDomainPartsPlain(parts: seq<string>)
    requires forall k | 0 <= k < |parts| :: ',' !in parts[k]
    ensures PlainTexts(ACMEDomainParts(parts)) && ACMEDomainParts(parts).index == 0
  {
    if parts != [] {
      ACMEDomainPartsPlain(parts[..|parts| - 1]);
      ACMEDomainPartPlain(ACMEDomainParts(parts[..|parts| - 1]), parts[|parts| - 1]);
    }
  }

  lemma ACMEDomainPartPlain(out: ACMEDomain, part: string)
    requires ',' !in part && PlainTexts(out)
    ensures PlainTexts(ACMEDomainPart(out, part)) && ACMEDomainPart(out, part).index == out.index
  {
    var cut := CutAt(Trim(part), '=');
    if cut.Found? {
      SetSubKeyPlain(out, Trim(cut.before), Trim(cut.after));
    }
  }

  lemma SetSubKeyPlain(out: ACMEDomain, key: string, value: string)
    requires Plain(value) && PlainTexts(out)
    ensures PlainTexts(SetSubKey(out, key, value)) && SetSubKey(out, key, value).index == out.index
  {
  }

  lemma ReadKeyedPart(key: string, value: string, out: ACMEDomain)
    requires key == "domain" || key == "plugin" || key == "alias"
    requires Plain(value)
    ensures ACMEDomainPart(out, Keyed(key, value)) ==
            if key == "domain" then out.(domain := value)
            else if key == "plugin" then out.(plugin := value)
            else out.(alias := value)
    ensures ',' !in Keyed(key, value)
  {
    KeysAreWords();
    WordIsPlain(key);
    TrimKeyed(key, value);
    CutKeyed(key, value);
  }

  /** A slot survives being written and read back if and only if it names a domain and its
      texts are plain; the index travels in the key, not in the string. */
  lemma ACMEDomainRoundTrip(d: ACMEDomain)
    ensures ParsedACMEDomain(EncodeACMEDomain(d)) == Some(d.(index := 0)) <==> PlainACMEDomain(d)
  {
    ACMEDomainPartsPlain(Split(EncodeACMEDomain(d), ','));
    if PlainACMEDomain(d) {
      ReadWrittenSlot(d);
    }
  }

  lemma NoParts()
    ensures ACMEDomainParts([]) == NO_DOMAIN
  {
  }

  /** At most one more part. */
  lemma NextPart(parts: seq<string>, more: seq<string>)
    requires |more| <= 1
    ensures ACMEDomainParts(parts + more) ==
            if more == [] then ACMEDomainParts(parts) else ACMEDomainPart(ACMEDomainParts(parts), more[0])
  {
    if more == [] {
      assert parts + more == parts;
    } else {
      assert (parts + more)[..|parts|] == parts;
    }
  }

  lemma ReadWrittenSlot(d: ACMEDomain)
    requires PlainACMEDomain(d)
    ensures ParsedACMEDomain(EncodeACMEDomain(d)) == Some(d.(index := 0))
  {
    hide ACMEDomainPart, ACMEDomainParts, Split, Join;
    var first := [Keyed("domain", d.domain)];
    var second := if d.plugin != "" then [Keyed("plugin", d.plugin)] else [];
    var third := if d.alias != "" then [Keyed("alias", d.alias)] else [];
    var read1 := NO_DOMAIN.(domain := d.domain);
    var read2 := read1.(plugin := d.plugin);
    ReadKeyedPart("domain", d.domain, NO_DOMAIN);
    ReadKeyedPart("plugin", d.plugin, read1);
    ReadKeyedPart("alias", d.alias, read2);
    NoParts();
    NextPart([], first);
    NextPart(first, second);
    NextPart(first + second, third);
    assert [] + first == first;
    SplitJoin(first + second + third, ',');
  }

  lemma ACMEDomainStable(s: string)
    requires ParsedACMEDomain(s).Some?
    ensures ParsedACMEDomain(EncodeACMEDomain(ParsedACMEDomain(s).value)) == ParsedACMEDomain(s)
  {
    ACMEDomainPartsPlain(Split(s, ','));
    ACMEDomainRoundTrip(ParsedACMEDomain(s).value);
  }
}
