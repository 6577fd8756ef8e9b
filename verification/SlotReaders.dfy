/** The two readers of a slot string, the SDK's and the mock's, on every string: what each takes as
    the domain, and when they take the same. */
module SlotReaders {
  import opened Pieces
  import opened Strings
  import opened PropertyStrings
  import opened MockNode

  // ---- what a part says about the domain ----

  /** Nothing at all; a bare text; a keyed value, spelled just so or with space around the key; or
      something about another key. */
  datatype Saying = Blank | Bare(name: string) | Domain(name: string, exact: bool) | Other

  function Says(rawPart: string): Saying {
    var part := Trim(rawPart);
    if part == "" then Blank
    else match CutAt(part, '=')
      case Missing => Bare(part)
      case Found(key, value) => if Trim(key) == "domain" then Domain(Trim(value), key == "domain") else Other
  }

  function Sayings(parts: seq<string>): (ss: seq<Saying>)
    ensures |ss| == |parts| && forall k | 0 <= k < |ss| :: ss[k] == Says(parts[k])
  {
    seq(|parts|, k requires 0 <= k < |parts| => Says(parts[k]))
  }

  lemma SayingsInit(parts: seq<string>)
    requires parts != []
    ensures var n := |parts| - 1;
            Sayings(parts)[..n] == Sayings(parts[..n]) && Sayings(parts)[n] == Says(parts[n])
  {
    hide Says, Sayings;
  }

  lemma SayingsTail(parts: seq<string>)
    requires parts != []
    ensures Sayings(parts)[0] == Says(parts[0]) && Sayings(parts)[1..] == Sayings(parts[1..])
  {
    hide Says, Sayings;
  }

  /** The domain a part names; empty when it names none. */
  function NameOf(s: Saying): string { if s.Bare? || s.Domain? then s.name else "" }

  lemma SaidNames(rawPart: string)
    ensures Says(rawPart).Bare? ==> Says(rawPart).name != ""
  {
  }

  // ---- the SDK's reader ----

  function SDKNext(before: string, s: Saying): string {
    match s
    case Bare(name) => if before == "" then name else before
    case Domain(name, _) => name
    case _ => before
  }

  function SDKFold(ss: seq<Saying>): string {
    if ss == [] then "" else SDKNext(SDKFold(ss[..|ss| - 1]), ss[|ss| - 1])
  }

  lemma SubKeyDomain(out: ACMEDomain, key: string, value: string)
    ensures SetSubKey(out, key, value).domain == if key == "domain" then value else out.domain
  {
  }

  lemma PartDomain(out: ACMEDomain, rawPart: string)
    ensures ACMEDomainPart(out, rawPart).domain == SDKNext(out.domain, Says(rawPart))
  {
    hide Trim, SetSubKey;
    var cut := CutAt(Trim(rawPart), '=');
    if cut.Found? {
      SubKeyDomain(out, Trim(cut.before), Trim(cut.after));
    }
  }

  lemma {:induction false} SDKReadsSayings(parts: seq<string>)
    ensures ACMEDomainParts(parts).domain == SDKFold(Sayings(parts))
  {
    if parts != [] {
      var init := parts[..|parts| - 1];
      SDKReadsSayings(init);
      PartDomain(ACMEDomainParts(init), parts[|parts| - 1]);
      SayingsInit(parts);
    }
  }

  /** The place of the last part that is keyed with the domain, or -1. */
  function LastDomain(ss: seq<Saying>): (l: int)
    ensures -1 <= l < |ss| && (l >= 0 ==> ss[l].Domain?)
    ensures forall j | l < j < |ss| :: !ss[j].Domain?
  {
    if ss == [] then -1 else if ss[|ss| - 1].Domain? then |ss| - 1 else LastDomain(ss[..|ss| - 1])
  }

  /** The first bare text. */
  function FirstBare(ss: seq<Saying>): string {
    if ss == [] then "" else if ss[0].Bare? then ss[0].name else FirstBare(ss[1..])
  }

  function LastName(ss: seq<Saying>): string {
    if LastDomain(ss) >= 0 then ss[LastDomain(ss)].name else ""
  }

  function AfterLast(ss: seq<Saying>): seq<Saying> { ss[LastDomain(ss) + 1..] }

  /** What the SDK takes: the last keyed domain, or if it is blank or missing the first bare text
      after it. */
  function SDKTakes(ss: seq<Saying>): string {
    if LastName(ss) != "" then LastName(ss) else FirstBare(AfterLast(ss))
  }

  predicate BareNamed(ss: seq<Saying>) { forall k | 0 <= k < |ss| && ss[k].Bare? :: ss[k].name != "" }

  lemma {:induction false} FirstBareNext(ss: seq<Saying>, s: Saying)
    requires BareNamed(ss)
    ensures FirstBare(ss + [s]) == if FirstBare(ss) != "" then FirstBare(ss) else if s.Bare? then s.name else ""
  {
    if ss == [] {
      assert [s][1..] == [];
    } else {
      assert (ss + [s])[1..] == ss[1..] + [s];
      if !ss[0].Bare? {
        FirstBareNext(ss[1..], s);
      }
    }
  }

  lemma BareNamedPart(ss: seq<Saying>, i: nat, j: nat)
    requires BareNamed(ss) && i <= j <= |ss|
    ensures BareNamed(ss[i..j])
  {
  }

  lemma LastDomainNext(ss: seq<Saying>, s: Saying)
    ensures LastDomain(ss + [s]) == if s.Domain? then |ss| else LastDomain(ss)
  {
    assert (ss + [s])[..|ss|] == ss;
  }

  lemma AfterLastNext(ss: seq<Saying>, s: Saying)
    ensures LastName(ss + [s]) == if s.Domain? then s.name else LastName(ss)
    ensures AfterLast(ss + [s]) == if s.Domain? then [] else AfterLast(ss) + [s]
  {
    LastDomainNext(ss, s);
  }

  lemma AfterLastNamed(ss: seq<Saying>)
    requires BareNamed(ss)
    ensures BareNamed(AfterLast(ss))
  {
    BareNamedPart(ss, LastDomain(ss) + 1, |ss|);
    assert ss[LastDomain(ss) + 1..|ss|] == AfterLast(ss);
  }

  /** One more part. */
  lemma SDKTakesNext(ss: seq<Saying>, s: Saying)
    requires BareNamed(ss)
    ensures SDKTakes(ss + [s]) == SDKNext(SDKTakes(ss), s)
  {
    hide FirstBare, BareNamed, LastName, AfterLast;
    AfterLastNext(ss, s);
    AfterLastNamed(ss);
    FirstBareNext(AfterLast(ss), s);
    NoBareIn();
  }

  lemma NoBareIn()
    ensures FirstBare([]) == ""
  {
  }

  lemma {:induction false} SDKFoldTakes(ss: seq<Saying>)
    requires BareNamed(ss)
    ensures SDKFold(ss) == SDKTakes(ss)
  {
    if ss == [] {
      NoBareIn();
    } else {
      hide SDKTakes, SDKNext, BareNamed;
      BareNamedPart(ss, 0, |ss| - 1);
      var init := ss[..|ss| - 1];
      SDKFoldTakes(init);
      SDKTakesNext(init, ss[|ss| - 1]);
      assert ss == init + [ss[|ss| - 1]];
    }
  }

  // ---- the mock's reader ----

  /** The first part keyed with the domain exactly, blank or not. */
  function FirstExact(ss: seq<Saying>): string {
    if ss == [] then "" else if ss[0].Domain? && ss[0].exact then ss[0].name else FirstExact(ss[1..])
  }

  /** What the mock takes: the first part if it is bare, nothing if it is blank, and otherwise the
      first exactly keyed domain. */
  function MockTakes(ss: seq<Saying>): string {
    if ss == [] || ss[0].Blank? then "" else if ss[0].Bare? then ss[0].name else FirstExact(ss)
  }

  lemma ExactPrefix(part: string)
    ensures CutPrefix(part, Keyed("domain", "")).Some? <==> CutAt(part, '=').Found? && CutAt(part, '=').before == "domain"
    ensures CutPrefix(part, Keyed("domain", "")).Some? ==>
              CutPrefix(part, Keyed("domain", "")).value == CutAt(part, '=').after
  {
    var key := "domain";
    KeysAreWords();
    WordIsPlain(key);
    KeyedPrefix(part, key);
  }

  lemma {:induction false} FirstExactRead(parts: seq<string>)
    ensures Trim(SlotDomainFrom(parts, false)) == FirstExact(Sayings(parts))
  {
    hide Trim, CutAt, CutPrefix;
    if parts == [] {
      assert Trimmed("");
    } else {
      FirstExactRead(parts[1..]);
      SayingsTail(parts);
      OneExactRead(parts[0]);
    }
  }

  lemma OneExactRead(rawPart: string)
    ensures var said, cut := Says(rawPart), CutPrefix(Trim(rawPart), Keyed("domain", ""));
            && (cut.Some? <==> said.Domain? && said.exact)
            && (cut.Some? ==> Trim(cut.value) == said.name)
            && ('=' !in Trim(rawPart) <==> said.Blank? || said.Bare?)
            && (said.Bare? ==> Trim(Trim(rawPart)) == said.name)
            && (said.Blank? ==> Trim(Trim(rawPart)) == "")
  {
    var part := Trim(rawPart);
    ExactPrefix(part);
    KeysAreWords();
    WordIsPlain("domain");
    assert Trim(part) == part;
  }

  lemma MockReadsSayings(parts: seq<string>)
    requires parts != []
    ensures Trim(SlotDomainFrom(parts, true)) == MockTakes(Sayings(parts))
  {
    hide Trim, CutAt, CutPrefix;
    SayingsTail(parts);
    OneExactRead(parts[0]);
    FirstExactRead(parts[1..]);
  }

  // ---- when they agree ----

  /** What the SDK reads as the domain of a slot; nothing when it cannot read the slot. */
  function SDKDomain(s: string): string {
    match ParsedACMEDomain(s)
    case Some(d) => d.domain
    case None => ""
  }

  /** Both readers take the same domain of the string; the mock trims what it takes. */
  predicate ReadersAgree(s: string) { Trim(SlotDomain(s)) == SDKDomain(s) }

  function PartsSay(s: string): seq<Saying> { Sayings(Split(s, ',')) }

  lemma SayingsBareNamed(parts: seq<string>)
    ensures BareNamed(Sayings(parts))
  {
    forall k: nat | k < |parts| && Sayings(parts)[k].Bare? ensures Sayings(parts)[k].name != "" {
      SaidNames(parts[k]);
    }
  }

  /** On every string: the SDK takes the last keyed domain or a bare text after it, the mock the first
      part or the first exactly keyed domain, and they agree exactly when those are the same. */
  lemma ReadersTake(s: string)
    ensures SDKDomain(s) == SDKTakes(PartsSay(s)) && Trim(SlotDomain(s)) == MockTakes(PartsSay(s))
    ensures ReadersAgree(s) <==> SDKTakes(PartsSay(s)) == MockTakes(PartsSay(s))
  {
    hide SlotDomainFrom, Sayings, Trim, Split;
    var parts := Split(s, ',');
    SDKReadsSayings(parts);
    SayingsBareNamed(parts);
    SDKFoldTakes(Sayings(parts));
    MockReadsSayings(parts);
  }

  /** Part `k` alone names a domain that is not blank. */
  predicate OnlyName(ss: seq<Saying>, k: nat) {
    k < |ss| && NameOf(ss[k]) != "" && forall j | 0 <= j < |ss| && j != k :: NameOf(ss[j]) == ""
  }

  lemma {:induction false} FirstBareOnly(ss: seq<Saying>, k: nat)
    requires BareNamed(ss) && k < |ss| && ss[k].Bare? && forall j | 0 <= j < k :: NameOf(ss[j]) == ""
    ensures FirstBare(ss) == ss[k].name
  {
    if k > 0 {
      FirstBareOnly(ss[1..], k - 1);
    }
  }

  lemma {:induction false} NoBare(ss: seq<Saying>)
    requires forall j | 0 <= j < |ss| :: !ss[j].Bare?
    ensures FirstBare(ss) == ""
  {
    if ss != [] {
      NoBare(ss[1..]);
    }
  }

  lemma SDKTakesOnly(ss: seq<Saying>, k: nat)
    requires BareNamed(ss) && OnlyName(ss, k)
    ensures SDKTakes(ss) == if forall j | k < j < |ss| :: !ss[j].Domain? then NameOf(ss[k]) else ""
  {
    hide FirstBare, BareNamed;
    var l := LastDomain(ss);
    AfterLastNamed(ss);
    if l < k && ss[k].Bare? {
      assert AfterLast(ss)[k - l - 1] == ss[k];
      FirstBareOnly(AfterLast(ss), k - l - 1);
    } else if l != k {
      NoBareAfter(ss, k);
    }
  }

  lemma NoBareAfter(ss: seq<Saying>, k: nat)
    requires BareNamed(ss) && OnlyName(ss, k) && (LastDomain(ss) > k || !ss[k].Bare?)
    ensures FirstBare(AfterLast(ss)) == ""
  {
    var rest := AfterLast(ss);
    forall j | 0 <= j < |rest| ensures !rest[j].Bare? {
      assert rest[j] == ss[LastDomain(ss) + 1 + j];
    }
    NoBare(rest);
  }

  lemma {:induction false} FirstExactOnly(ss: seq<Saying>, k: nat)
    requires OnlyName(ss, k)
    ensures FirstExact(ss) ==
            if ss[k].Domain? && ss[k].exact && forall j | 0 <= j < k :: !(ss[j].Domain? && ss[j].exact) then ss[k].name else ""
  {
    if k > 0 {
      if !(ss[0].Domain? && ss[0].exact) {
        assert forall j | 0 <= j < k - 1 :: ss[1..][j] == ss[j + 1];
        FirstExactOnly(ss[1..], k - 1);
      }
    } else if !(ss[0].Domain? && ss[0].exact) {
      NoExactName(ss[1..]);
    }
  }

  lemma {:induction false} NoExactName(ss: seq<Saying>)
    requires forall j | 0 <= j < |ss| :: NameOf(ss[j]) == ""
    ensures FirstExact(ss) == ""
  {
    if ss != [] {
      NoExactName(ss[1..]);
    }
  }

  /** Whether the mock takes part `k`: it stands first and bare, or is keyed exactly, no such part
      stands before it, and the first part is neither blank nor bare. */
  predicate MockTakesPart(ss: seq<Saying>, k: nat)
    requires k < |ss|
  {
    || (k == 0 && ss[k].Bare?)
    || (ss[k].Domain? && ss[k].exact && !ss[0].Blank? && !ss[0].Bare?
        && forall j | 0 <= j < k :: !(ss[j].Domain? && ss[j].exact))
  }

  lemma {:induction false} FirstExactAt(ss: seq<Saying>, k: nat)
    requires k < |ss| && ss[k].Domain? && ss[k].exact && forall j | 0 <= j < k :: !(ss[j].Domain? && ss[j].exact)
    ensures FirstExact(ss) == ss[k].name
  {
    if k > 0 {
      assert forall j | 0 <= j < k - 1 :: ss[1..][j] == ss[j + 1];
      FirstExactAt(ss[1..], k - 1);
    }
  }

  /** The part it takes is what it reads. */
  lemma MockTakesAt(ss: seq<Saying>, k: nat)
    requires k < |ss| && MockTakesPart(ss, k)
    ensures MockTakes(ss) == NameOf(ss[k])
  {
    if !ss[0].Bare? {
      FirstExactAt(ss, k);
    }
  }

  lemma MockTakesOnly(ss: seq<Saying>, k: nat)
    requires BareNamed(ss) && OnlyName(ss, k)
    ensures MockTakes(ss) == if MockTakesPart(ss, k) then NameOf(ss[k]) else ""
  {
    FirstExactOnly(ss, k);
  }

  /** One name: the SDK takes it unless a part keyed with the domain, then blank, follows.  They agree
      exactly when both take it or neither does. */
  lemma OneNameAgreesExactly(s: string, k: nat)
    requires OnlyName(PartsSay(s), k)
    ensures ReadersAgree(s) <==>
            ((forall j | k < j < |PartsSay(s)| :: !PartsSay(s)[j].Domain?) <==> MockTakesPart(PartsSay(s), k))
  {
    hide PartsSay, ReadersAgree, MockTakesPart;
    var ss := PartsSay(s);
    ReadersTake(s);
    BareNamedSays(s);
    SDKTakesOnly(ss, k);
    MockTakesOnly(ss, k);
  }

  lemma BareNamedSays(s: string)
    ensures BareNamed(PartsSay(s))
  {
    SayingsBareNamed(Split(s, ','));
  }

  /** Where no other part is keyed with the domain at all, they agree exactly when the name stands
      first and bare, or is keyed exactly and the first part is not blank. */
  lemma LoneNameAgreesExactly(s: string, k: nat)
    requires OnlyName(PartsSay(s), k)
    requires forall j | 0 <= j < |PartsSay(s)| && j != k :: !PartsSay(s)[j].Domain?
    ensures var ss := PartsSay(s);
            ReadersAgree(s) <==> (k == 0 && ss[k].Bare?) || (ss[k].Domain? && ss[k].exact && !ss[0].Blank?)
  {
    hide PartsSay, ReadersAgree;
    BareNamedSays(s);
    OneNameAgreesExactly(s, k);
  }

  /** Where the mock takes part `f` and the last part keyed with the domain, `l`, is not blank, they
      agree exactly when the two name the same. */
  lemma FirstAgainstLast(s: string, f: nat, l: nat)
    requires f < |PartsSay(s)| && l < |PartsSay(s)| && MockTakesPart(PartsSay(s), f)
    requires PartsSay(s)[l].Domain? && PartsSay(s)[l].name != ""
    requires forall j | l < j < |PartsSay(s)| :: !PartsSay(s)[j].Domain?
    ensures ReadersAgree(s) <==> NameOf(PartsSay(s)[f]) == PartsSay(s)[l].name
  {
    hide PartsSay, ReadersAgree, MockTakesPart;
    ReadersTake(s);
    MockTakesAt(PartsSay(s), f);
    assert LastDomain(PartsSay(s)) == l;
  }

  /** A bare domain after a keyed part: the SDK's domain, and none to the mock. */
  lemma BareAfterKeyedDiffers(plugin: string, host: string)
    requires Plain(plugin) && Plain(host) && host != "" && '=' !in host
    ensures var s := Join([Keyed("plugin", plugin), host], ',');
            SDKDomain(s) == host && Trim(SlotDomain(s)) == ""
  {
    hide Join, Split, Trim, Says, Sayings, SlotDomain, ParsedACMEDomain;
    var s, parts := Join([Keyed("plugin", plugin), host], ','), [Keyed("plugin", plugin), host];
    KeyedSays(plugin, host);
    SplitJoin(parts, ',');
    TwoSayings(Sayings(parts), host);
    ReadersTake(s);
  }

  lemma KeyedSays(plugin: string, host: string)
    requires Plain(plugin) && Plain(host) && host != "" && '=' !in host
    ensures Says(Keyed("plugin", plugin)) == Other && Says(host) == Bare(host) && ',' !in Keyed("plugin", plugin)
  {
    KeysAreWords();
    WordIsPlain("plugin");
    TrimKeyed("plugin", plugin);
    CutKeyed("plugin", plugin);
    assert Trim(host) == host;
    assert "plugin"[0] == 'p' && "domain"[0] == 'd';
  }

  lemma TwoSayings(ss: seq<Saying>, host: string)
    requires |ss| == 2 && ss[0] == Other && ss[1] == Bare(host)
    ensures SDKTakes(ss) == host && MockTakes(ss) == ""
  {
    assert ss[0..] == ss && ss[1..][1..] == [];
    assert LastDomain(ss) == -1;
    assert FirstBare(ss) == FirstBare(ss[1..]) == host;
    assert FirstExact(ss) == FirstExact(ss[1..]) == FirstExact(ss[1..][1..]);
  }
}
