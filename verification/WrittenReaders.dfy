/** What the SDK's reader and the mock's make of the strings the SDK writes, for every value. */
module WrittenReaders {
  import opened Filtering
  import opened Pieces
  import opened PropertyStrings
  import opened AccountReaders
  import opened MockNode
  import opened SlotReaders
  import opened Strings

  // ---- the pieces of a slot string ----

  function SlotTail(d: ACMEDomain): seq<string> {
    (if d.plugin != "" then [Keyed("plugin", d.plugin)] else [])
    + (if d.alias != "" then [Keyed("alias", d.alias)] else [])
  }

  lemma WrittenParts(d: ACMEDomain)
    ensures EncodeACMEDomain(d) == Join([Keyed("domain", d.domain)] + SlotTail(d), ',')
  {
    assert [Keyed("domain", d.domain)]
           + (if d.plugin != "" then [Keyed("plugin", d.plugin)] else [])
           + (if d.alias != "" then [Keyed("alias", d.alias)] else [])
        == [Keyed("domain", d.domain)] + SlotTail(d);
  }

  /** What stands before the first comma of a text, and the pieces after it. */
  function FirstPiece(s: string): string { Split(s, ',')[0] }

  function LaterPieces(s: string): seq<string> { Split(s, ',')[1..] }

  lemma NoLaterPieces(s: string)
    requires ',' !in s
    ensures FirstPiece(s) == s && LaterPieces(s) == []
  {
    SplitFirst(s, ',');
  }

  lemma KeyedPieces(key: string, value: string)
    requires ',' !in key
    ensures Split(Keyed(key, value), ',') == [Keyed(key, FirstPiece(value))] + LaterPieces(value)
  {
    SplitKeyed(key, value, ',');
  }

  /** The pieces an optional part contributes. */
  function OptionalPieces(key: string, value: string): seq<string> {
    if value == "" then [] else [Keyed(key, FirstPiece(value))] + LaterPieces(value)
  }

  function SlotPieces(d: ACMEDomain): seq<string> {
    [Keyed("domain", FirstPiece(d.domain))] + LaterPieces(d.domain)
    + OptionalPieces("plugin", d.plugin) + OptionalPieces("alias", d.alias)
  }

  lemma KeysWithoutComma()
    ensures ',' !in "domain" && ',' !in "plugin" && ',' !in "alias" && ',' !in "account" && ',' !in "domains"
  {
    KeysAreWords();
    WordIsPlain("domain");
    WordIsPlain("plugin");
    WordIsPlain("alias");
    WordIsPlain("account");
    WordIsPlain("domains");
  }

  lemma SplitAllCons(part: string, rest: seq<string>)
    ensures SplitAll([part] + rest, ',') == Split(part, ',') + SplitAll(rest, ',')
  {
    hide Split;
    assert ([part] + rest)[1..] == rest;
  }

  lemma {:induction false} SplitAllAppend(a: seq<string>, b: seq<string>)
    ensures SplitAll(a + b, ',') == SplitAll(a, ',') + SplitAll(b, ',')
  {
    if a == [] {
      assert a + b == b && SplitAll(a, ',') == [];
    } else {
      hide Split, SplitAll;
      var first, rest := a[0], a[1..];
      SplitAllAppend(rest, b);
      SplitAllCons(first, rest);
      SplitAllCons(first, rest + b);
      Regrouped([first], rest, b);
      Regrouped(Split(first, ','), SplitAll(rest, ','), SplitAll(b, ','));
      assert a == [first] + rest;
    }
  }

  lemma SplitAllOne(s: string)
    ensures SplitAll([s], ',') == Split(s, ',')
  {
    hide Split;
    assert [s][1..] == [];
  }

  lemma OptionalSplit(key: string, value: string)
    requires ',' !in key
    ensures SplitAll(if value != "" then [Keyed(key, value)] else [], ',') == OptionalPieces(key, value)
  {
    KeyedPieces(key, value);
    SplitAllOne(Keyed(key, value));
  }

  lemma SplitWritten(d: ACMEDomain)
    ensures Split(EncodeACMEDomain(d), ',') == SlotPieces(d)
  {
    hide Split, Join, SplitAll, OptionalPieces, FirstPiece, LaterPieces;
    KeysWithoutComma();
    WrittenParts(d);
    var domain := [Keyed("domain", d.domain)];
    var plugin := if d.plugin != "" then [Keyed("plugin", d.plugin)] else [];
    var alias := if d.alias != "" then [Keyed("alias", d.alias)] else [];
    SplitJoinAll(domain + SlotTail(d), ',');
    SplitAllAppend(domain, plugin + alias);
    SplitAllAppend(plugin, alias);
    SplitAllOne(Keyed("domain", d.domain));
    KeyedPieces("domain", d.domain);
    OptionalSplit("plugin", d.plugin);
    OptionalSplit("alias", d.alias);
    ThreeRegrouped(SplitAll(domain, ','), SplitAll(plugin, ','), SplitAll(alias, ','));
  }

  lemma ThreeRegrouped(a: seq<string>, b: seq<string>, c: seq<string>)
    ensures a + (b + c) == a + b + c
  {
  }

  // ---- what the pieces say ----

  lemma TrimTrimRight(s: string)
    ensures Trim(TrimRight(s)) == Trim(s)
  {
    if s != "" && IsSpace(s[|s| - 1]) {
      TrimTrimRight(s[..|s| - 1]);
      TrimDropLast(s);
    }
  }

  lemma KeyedSaying(key: string, value: string)
    requires IsWord(key)
    ensures Says(Keyed(key, value)) == if key == "domain" then Domain(Trim(value), true) else Other
  {
    WordIsPlain(key);
    TrimKeyed(key, value);
    CutKeyed(key, TrimRight(value));
    TrimTrimRight(value);
    hide Trim, TrimRight, CutAt;
    assert Keyed(key, TrimRight(value)) != "";
  }

  /** The domain the mock takes from a written slot. */
  function Named0(d: ACMEDomain): string { Trim(FirstPiece(d.domain)) }

  /** What the pieces after the first of the slot's texts say. */
  function Further(d: ACMEDomain): seq<Saying> {
    Sayings(LaterPieces(d.domain)) + Sayings(LaterPieces(d.plugin)) + Sayings(LaterPieces(d.alias))
  }

  lemma SayingsAppend(a: seq<string>, b: seq<string>)
    ensures Sayings(a + b) == Sayings(a) + Sayings(b)
  {
    hide Says, Sayings;
  }

  lemma SayingsOne(part: string)
    ensures Sayings([part]) == [Says(part)]
  {
    hide Says, Sayings;
  }

  function OptionalSayings(value: string): seq<Saying> {
    if value == "" then [] else [Other] + Sayings(LaterPieces(value))
  }

  lemma OptionalSays(key: string, value: string)
    requires IsWord(key) && key != "domain"
    ensures Sayings(OptionalPieces(key, value)) == OptionalSayings(value)
  {
    hide Says, Sayings, FirstPiece, LaterPieces;
    KeyedSaying(key, FirstPiece(value));
    SayingsOne(Keyed(key, FirstPiece(value)));
    SayingsAppend([Keyed(key, FirstPiece(value))], LaterPieces(value));
  }

  lemma WrittenSay(d: ACMEDomain)
    ensures PartsSay(EncodeACMEDomain(d)) ==
            [Domain(Named0(d), true)] + Sayings(LaterPieces(d.domain)) + OptionalSayings(d.plugin) + OptionalSayings(d.alias)
  {
    hide Says, Sayings, FirstPiece, LaterPieces, OptionalPieces, OptionalSayings, Split, EncodeACMEDomain;
    SplitWritten(d);
    KeysAreWords();
    KeysDistinct();
    KeyedSaying("domain", FirstPiece(d.domain));
    OptionalSays("plugin", d.plugin);
    OptionalSays("alias", d.alias);
    var domain := [Keyed("domain", FirstPiece(d.domain))];
    SayingsOne(domain[0]);
    SayingsAppend(domain, LaterPieces(d.domain));
    SayingsAppend(domain + LaterPieces(d.domain), OptionalPieces("plugin", d.plugin));
    SayingsAppend(domain + LaterPieces(d.domain) + OptionalPieces("plugin", d.plugin), OptionalPieces("alias", d.alias));
  }

  lemma KeysDistinct()
    ensures "plugin" != "domain" && "alias" != "domain"
  {
  }

  /** A part about another key makes no difference to the SDK. */
  lemma {:induction false} FoldSkipsOther(a: seq<Saying>, b: seq<Saying>)
    ensures SDKFold(a + [Other] + b) == SDKFold(a + b)
  {
    if b == [] {
      assert a + [Other] + b == a + [Other] && a + b == a;
      assert (a + [Other])[..|a|] == a;
    } else {
      var init, last := b[..|b| - 1], b[|b| - 1];
      FoldSkipsOther(a, init);
      var with, without := a + [Other] + b, a + b;
      assert with[..|with| - 1] == a + [Other] + init && without[..|without| - 1] == a + init;
    }
  }

  lemma FoldSkipsOptional(a: seq<Saying>, value: string, b: seq<Saying>)
    ensures SDKFold(a + OptionalSayings(value) + b) == SDKFold(a + Sayings(LaterPieces(value)) + b)
  {
    hide Sayings, SDKFold, Split;
    var later := Sayings(LaterPieces(value));
    if value == "" {
      NoLaterPieces("");
      NoSayings();
      assert a + [] == a;
    } else {
      FoldSkipsOther(a, later + b);
      assert a + ([Other] + later) + b == a + [Other] + (later + b);
      assert a + later + b == a + (later + b);
    }
  }

  lemma NoSayings()
    ensures Sayings([]) == []
  {
  }

  lemma NothingAfter(ss: seq<Saying>)
    ensures ss + [] == ss
  {
  }

  lemma FoldSkipsBoth(a: seq<Saying>, plugin: string, alias: string)
    ensures SDKFold(a + OptionalSayings(plugin) + OptionalSayings(alias))
         == SDKFold(a + (Sayings(LaterPieces(plugin)) + Sayings(LaterPieces(alias))))
  {
    hide Sayings, SDKFold, OptionalSayings, LaterPieces;
    var p, q := Sayings(LaterPieces(plugin)), Sayings(LaterPieces(alias));
    FoldSkipsOptional(a, plugin, OptionalSayings(alias));
    FoldSkipsOptional(a + p, alias, []);
    NothingAfter(a + p + OptionalSayings(alias));
    NothingAfter(a + p + q);
    Regrouped(a, p, q);
  }

  /** The SDK reads a written slot by what its further pieces say. */
  lemma SDKReadsWritten(d: ACMEDomain)
    ensures SDKDomain(EncodeACMEDomain(d)) == SDKTakes([Domain(Named0(d), true)] + Further(d))
  {
    hide Sayings, SDKFold, SDKTakes, OptionalSayings, LaterPieces, EncodeACMEDomain, SDKDomain, PartsSay, BareNamed, Named0;
    var s, first, own := EncodeACMEDomain(d), [Domain(Named0(d), true)], Sayings(LaterPieces(d.domain));
    WrittenSay(d);
    ReadersTake(s);
    BareNamedSays(s);
    SDKFoldTakes(PartsSay(s));
    FoldSkipsBoth(first + own, d.plugin, d.alias);
    FurtherGrouped(first, d);
    FurtherBareNamed(d);
    SDKFoldTakes(first + Further(d));
  }

  lemma FurtherGrouped(first: seq<Saying>, d: ACMEDomain)
    ensures first + Sayings(LaterPieces(d.domain)) + (Sayings(LaterPieces(d.plugin)) + Sayings(LaterPieces(d.alias)))
         == first + Further(d)
  {
    hide Sayings, LaterPieces;
    var own, plugin, alias := Sayings(LaterPieces(d.domain)), Sayings(LaterPieces(d.plugin)), Sayings(LaterPieces(d.alias));
    Regrouped(own, plugin, alias);
    Regrouped(first, own, plugin + alias);
  }

  lemma FurtherBareNamed(d: ACMEDomain)
    ensures BareNamed([Domain(Named0(d), true)] + Further(d))
  {
    SayingsBareNamed(LaterPieces(d.domain));
    SayingsBareNamed(LaterPieces(d.plugin));
    SayingsBareNamed(LaterPieces(d.alias));
    hide Sayings, LaterPieces;
  }

  /** The mock takes the domain up to its first comma, whatever the slot's texts hold. */
  lemma MockReadsWritten(d: ACMEDomain)
    ensures Trim(SlotDomain(EncodeACMEDomain(d))) == Named0(d)
  {
    hide Sayings, SDKTakes, OptionalSayings, LaterPieces, EncodeACMEDomain, SlotDomain, Trim;
    WrittenSay(d);
    ReadersTake(EncodeACMEDomain(d));
  }

  // ---- when the readers agree on a written slot ----

  predicate SlotAgrees(d: ACMEDomain) { SDKTakes([Domain(Named0(d), true)] + Further(d)) == Named0(d) }

  /** For every slot the SDK writes: the readers agree if and only if the further pieces of its texts
      leave the SDK with the domain's own first piece. */
  lemma SlotAgreesExactly(d: ACMEDomain)
    ensures ReadersAgree(EncodeACMEDomain(d)) <==> SlotAgrees(d)
  {
    SDKReadsWritten(d);
    MockReadsWritten(d);
  }

  lemma {:induction false} LastDomainBehind(s: Saying, ss: seq<Saying>)
    requires s.Domain?
    ensures LastDomain([s] + ss) == LastDomain(ss) + 1
  {
    if ss == [] {
      assert [s] + ss == [s];
    } else {
      LastDomainBehind(s, ss[..|ss| - 1]);
      assert ([s] + ss)[..|ss|] == [s] + ss[..|ss| - 1];
    }
  }

  lemma AfterLastBehind(s: Saying, ss: seq<Saying>)
    requires s.Domain?
    ensures AfterLast([s] + ss) == AfterLast(ss)
    ensures LastName([s] + ss) == if LastDomain(ss) >= 0 then LastName(ss) else s.name
  {
    LastDomainBehind(s, ss);
    var l := LastDomain(ss);
    hide LastDomain;
    BehindAt(s, ss, l);
  }

  lemma BehindAt(s: Saying, ss: seq<Saying>, l: int)
    requires -1 <= l < |ss|
    ensures ([s] + ss)[l + 2..] == ss[l + 1..] && ([s] + ss)[l + 1] == if l >= 0 then ss[l] else s
  {
    var more, rest := ([s] + ss)[l + 2..], ss[l + 1..];
    assert |more| == |rest| && forall k | 0 <= k < |rest| :: more[k] == rest[k];
  }

  /** In plain terms: when no further piece is keyed with the domain, they agree on a first piece that is
      not blank, and on a blank one when no further piece is bare; otherwise the last such piece, or if it
      is blank the first bare one after it, must name the domain's first piece again. */
  lemma SlotAgreesWhen(d: ACMEDomain)
    ensures var f, l := Further(d), LastDomain(Further(d));
            && (l < 0 && Named0(d) != "" ==> SlotAgrees(d))
            && (l < 0 && Named0(d) == "" ==> (SlotAgrees(d) <==> FirstBare(f) == ""))
            && (l >= 0 && f[l].name != "" ==> (SlotAgrees(d) <==> f[l].name == Named0(d)))
            && (l >= 0 && f[l].name == "" ==> (SlotAgrees(d) <==> FirstBare(f[l + 1..]) == Named0(d)))
  {
    hide Further, Named0, FirstBare;
    AfterLastBehind(Domain(Named0(d), true), Further(d));
    assert LastDomain(Further(d)) < 0 ==> AfterLast(Further(d)) == Further(d);
  }

  lemma NothingFurther(d: ACMEDomain)
    requires ',' !in d.domain && ',' !in d.plugin && ',' !in d.alias
    ensures Further(d) == [] && Named0(d) == Trim(d.domain)
  {
    NoLaterPieces(d.domain);
    NoLaterPieces(d.plugin);
    NoLaterPieces(d.alias);
    NoSayings();
  }

  /** Texts without commas are always agreed on. */
  lemma CommaFreeAgrees(d: ACMEDomain)
    requires ',' !in d.domain && ',' !in d.plugin && ',' !in d.alias
    ensures SlotAgrees(d)
  {
    hide Further, Named0;
    NothingFurther(d);
    SlotAgreesWhen(d);
  }

  /** The mock reads a written domain back exactly when it is trimmed and holds no comma. */
  lemma MockReadsBack(d: ACMEDomain)
    ensures Trim(SlotDomain(EncodeACMEDomain(d))) == d.domain <==> ',' !in d.domain && Trimmed(d.domain)
  {
    MockReadsWritten(d);
    SplitPieceFree(d.domain);
    if ',' !in d.domain {
      NoLaterPieces(d.domain);
    }
  }

  lemma SplitPieceFree(s: string)
    ensures ',' !in FirstPiece(s)
  {
  }

  /** A plugin text that holds a keyed domain: the SDK takes that one, the mock the slot's own. */
  lemma PluginNamesDomain(domain: string, plugin: string, other: string)
    requires Plain(domain) && ',' !in plugin && Plain(other) && other != ""
    ensures var d := ACMEDomain(0, domain, plugin + [','] + Keyed("domain", other), "");
            && SDKDomain(EncodeACMEDomain(d)) == other && Trim(SlotDomain(EncodeACMEDomain(d))) == domain
            && (ReadersAgree(EncodeACMEDomain(d)) <==> domain == other)
  {
    hide Further, Named0, Split, Trim, Keyed, EncodeACMEDomain;
    var d := ACMEDomain(0, domain, plugin + [','] + Keyed("domain", other), "");
    PluginFurther(domain, plugin, other);
    SDKReadsWritten(d);
    MockReadsWritten(d);
    TakesSecond(domain, other);
  }

  lemma PluginFurther(domain: string, plugin: string, other: string)
    requires Plain(domain) && ',' !in plugin && Plain(other)
    ensures var d := ACMEDomain(0, domain, plugin + [','] + Keyed("domain", other), "");
            Further(d) == [Domain(other, true)] && Named0(d) == domain
  {
    var piece := Keyed("domain", other);
    PluginPieces(plugin, other);
    NoLaterPieces(domain);
    NoLaterPieces("");
    KeysAreWords();
    KeyedSaying("domain", other);
    PlainTrimmed(domain);
    PlainTrimmed(other);
    hide Says, Sayings, Split, Trim, Keyed;
    NoSayings();
    SayingsOne(piece);
  }

  lemma PlainTrimmed(s: string)
    requires Plain(s)
    ensures Trim(s) == s
  {
  }

  lemma PluginPieces(plugin: string, other: string)
    requires ',' !in plugin && ',' !in other
    ensures LaterPieces(plugin + [','] + Keyed("domain", other)) == [Keyed("domain", other)]
  {
    KeysWithoutComma();
    SplitBefore(plugin, Keyed("domain", other), ',');
    NoLaterPieces(Keyed("domain", other));
    SplitFirst(Keyed("domain", other), ',');
  }

  lemma TakesSecond(domain: string, other: string)
    requires other != ""
    ensures SDKTakes([Domain(domain, true)] + [Domain(other, true)]) == other
  {
  }

  // ---- when they agree on a written account string ----

  /** The pieces after the first of the account's texts. */
  function FurtherPieces(a: NodeACME): seq<string> { LaterPieces(a.account) + LaterPieces(Join(a.domains, ';')) }

  function AccountPieces(a: NodeACME): seq<string> {
    OptionalPieces("account", a.account) + OptionalDomains(a.domains)
  }

  function OptionalDomains(domains: seq<string>): seq<string> {
    if domains == [] then [] else Split(Keyed("domains", Join(domains, ';')), ',')
  }

  lemma DomainsSplit(domains: seq<string>)
    ensures SplitAll(if |domains| > 0 then [Keyed("domains", Join(domains, ';'))] else [], ',') == OptionalDomains(domains)
  {
    hide Split, Join;
    if domains != [] {
      SplitAllOne(Keyed("domains", Join(domains, ';')));
    }
  }

  lemma SplitAccount(a: NodeACME)
    ensures Split(EncodeNodeACME(a), ',') == if a == NO_ACME then [""] else AccountPieces(a)
  {
    hide Split, Join, SplitAll, OptionalPieces, OptionalDomains;
    KeysWithoutComma();
    var account, domains := AccountParts(a), DomainsParts(a);
    if a == NO_ACME {
      SplitFirst("", ',');
      EncodesEmpty(a);
    } else {
      SplitJoinAll(account + domains, ',');
      SplitAllAppend(account, domains);
      OptionalSplit("account", a.account);
      DomainsSplit(a.domains);
    }
  }

  lemma AllHarmlessAppend(a: seq<string>, b: seq<string>)
    ensures AllHarmless(a + b) <==> AllHarmless(a) && AllHarmless(b)
  {
    hide Harmless;
    assert forall k | 0 <= k < |a| :: (a + b)[k] == a[k];
    assert forall k | 0 <= k < |b| :: (a + b)[|a| + k] == b[k];
  }

  lemma OwnPartsHarmless(value: string)
    ensures Harmless(Keyed("account", value)) && Harmless(Keyed("domains", value)) && Harmless("")
  {
    var key := "domains";
    KeysAreWords();
    WordIsPlain("account");
    WordIsPlain(key);
    CutKeyed("account", value);
    TrimKeyed(key, value);
    assert Trim(Keyed(key, value))[..|key| + 1] == Keyed(key, "");
    KeysDiffer();
    hide Trim, ItemsOf;
  }

  lemma OneHarmless(part: string)
    requires Harmless(part)
    ensures AllHarmless([part])
  {
  }

  /** For every account string the SDK writes: the readers agree if and only if no further piece of its
      texts is keyed with the domain list and holds items without being spelled just so. */
  lemma WrittenAccountAgrees(a: NodeACME)
    ensures AccountReadersAgree(EncodeNodeACME(a)) <==> AllHarmless(FurtherPieces(a))
  {
    hide AccountReadersAgree, AllHarmless, Harmless, Split, Join, FirstPiece;
    AccountAgreesExactly(EncodeNodeACME(a));
    SplitAccount(a);
    AccountPiecesHarmless(a);
    if a == NO_ACME {
      OwnPartsHarmless("");
      OneHarmless("");
    }
  }

  lemma AccountPiecesHarmless(a: NodeACME)
    ensures AllHarmless(AccountPieces(a)) <==> AllHarmless(FurtherPieces(a))
    ensures a == NO_ACME ==> AllHarmless(FurtherPieces(a))
  {
    hide AllHarmless, Harmless, Split, FirstPiece;
    var list := Join(a.domains, ';');
    AllHarmlessAppend(LaterPieces(a.account), LaterPieces(list));
    AllHarmlessAppend(OptionalPieces("account", a.account), OptionalDomains(a.domains));
    KeysWithoutComma();
    NoLaterPieces("");
    NoneHarmless();
    OwnPartsHarmless(FirstPiece(a.account));
    OneHarmless(Keyed("account", FirstPiece(a.account)));
    AllHarmlessAppend([Keyed("account", FirstPiece(a.account))], LaterPieces(a.account));
    KeyedPieces("domains", list);
    OwnPartsHarmless(FirstPiece(list));
    OneHarmless(Keyed("domains", FirstPiece(list)));
    AllHarmlessAppend([Keyed("domains", FirstPiece(list))], LaterPieces(list));
  }

  lemma NoneHarmless()
    ensures AllHarmless([])
  {
  }

  /** Texts without commas are always agreed on. */
  lemma CommaFreeAccountAgrees(a: NodeACME)
    requires ',' !in a.account && ',' !in Join(a.domains, ';')
    ensures AllHarmless(FurtherPieces(a))
  {
    NoLaterPieces(a.account);
    NoLaterPieces(Join(a.domains, ';'));
  }

  /** An account text that holds a list with a space after its key: the SDK reads the item, the mock
      does not. */
  lemma AccountNamesDomains(account: string, item: string)
    requires ',' !in account && PlainItem(item)
    ensures !AccountReadersAgree(EncodeNodeACME(NodeACME(account + [','] + Keyed("domains" + [' '], item), [])))
  {
    var key := "domains";
    var loose := Keyed(key + [' '], item);
    var a := NodeACME(account + [','] + loose, []);
    KeysAreWords();
    WordIsPlain(key);
    LooseIsHarmful(key, item);
    hide Harmless, EncodeNodeACME, AccountReadersAgree;
    LoosePieces(account, loose);
    assert FurtherPieces(a) == [loose];
    WrittenAccountAgrees(a);
    assert [loose][0] == loose;
  }

  lemma LoosePieces(account: string, loose: string)
    requires ',' !in account && ',' !in loose
    ensures FurtherPieces(NodeACME(account + [','] + loose, [])) == [loose]
  {
    hide Split;
    SplitBefore(account, loose, ',');
    NoLaterPieces(loose);
    SplitFirst(loose, ',');
    NoLaterPieces("");
  }

  lemma LooseIsHarmful(key: string, item: string)
    requires key == "domains" && IsWord(key) && '=' !in key && PlainItem(item)
    ensures !Harmless(Keyed(key + [' '], item))
  {
    var part := Keyed(key + [' '], item);
    CutKeyed(key + [' '], item);
    SpacedKey(key);
    TrimKeyed(key + [' '], item);
    KeyedPrefix(part, key);
    ItemAlone(item);
    assert TrimRight(item) == item;
  }

  lemma SpacedKey(key: string)
    requires IsWord(key)
    ensures Trim(key + [' ']) == key && TrimmedLeft(key + [' '])
  {
    WordIsPlain(key);
    TrimDropLast(key + [' ']);
    assert (key + [' '])[..|key|] == key;
  }

  lemma ItemAlone(item: string)
    requires PlainItem(item)
    ensures Clean(Split(Trim(item), ';')) == [item]
  {
    assert Trim(item) == item;
    SplitFirst(item, ';');
    CleanFixed([item]);
  }
}
