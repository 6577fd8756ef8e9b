/** How the configuration the mock stores, the SDK's decode and the names the mock certifies fit
    together. */
module NodeRoundTrip {
  import opened Strings
  import opened Filtering
  import opened Numerals
  import opened Options
  import opened Pieces
  import opened Sorting
  import opened PropertyStrings
  import opened NodeConfig
  import opened MockNode
  import opened SlotReaders
  import opened AccountReaders

  // ---- the decoded slots ----

  /** The slots below `n`, in slot order. */
  function SlotsBelow(slots: map<string, ACMEDomain>, n: nat): seq<ACMEDomain> {
    if n == 0 then []
    else SlotsBelow(slots, n - 1) + if SlotKey(n - 1) in slots then [slots[SlotKey(n - 1)]] else []
  }

  predicate KeyedByIndex(slots: map<string, ACMEDomain>) {
    forall key | key in slots :: SlotIndex(key) == Some(slots[key].index)
  }

  lemma {:induction false} SlotsBelowHolds(slots: map<string, ACMEDomain>, n: nat)
    requires KeyedByIndex(slots) && n <= MAX_INT
    ensures IncreasingIndex(SlotsBelow(slots, n))
    ensures forall d :: d in SlotsBelow(slots, n) <==> d in slots.Values && d.index < n
  {
    if n == 0 {
      forall d | d in slots.Values ensures d.index >= 0 { IndexedSlot(slots, d); }
    } else {
      SlotsBelowHolds(slots, n - 1);
      NextSlotBelow(slots, n - 1, SlotsBelow(slots, n - 1), SlotKey(n - 1));
    }
  }

  lemma IndexedSlot(slots: map<string, ACMEDomain>, d: ACMEDomain)
    requires KeyedByIndex(slots) && d in slots.Values
    ensures d.index >= 0 && SlotKey(d.index) in slots && slots[SlotKey(d.index)] == d
  {
    var key :| key in slots && slots[key] == d;
    SlotIndexInverse(key, d.index);
  }

  lemma NextSlotBelow(slots: map<string, ACMEDomain>, n: nat, below: seq<ACMEDomain>, key: string)
    requires KeyedByIndex(slots) && n <= MAX_INT && key == SlotKey(n)
    requires IncreasingIndex(below)
    requires forall d :: d in below <==> d in slots.Values && d.index < n
    ensures var next := below + if key in slots then [slots[key]] else [];
            IncreasingIndex(next) && forall d :: d in next <==> d in slots.Values && d.index < n + 1
  {
    hide SlotKey, SlotIndex;
    SlotIndexInverse(key, n);
    forall k | 0 <= k < |below| ensures below[k].index < n {
      assert below[k] in below;
    }
    forall d | d in slots.Values && d.index == n ensures key in slots && slots[key] == d {
      IndexedSlot(slots, d);
    }
    if key in slots {
      assert forall d :: d in below + [slots[key]] <==> d in below || d == slots[key];
    }
  }

  predicate Writable(d: ACMEDomain) { d.index <= MAX_SLOT }

  lemma {:induction false} KeepingIncreases(ds: seq<ACMEDomain>, keep: ACMEDomain -> bool)
    requires IncreasingIndex(ds)
    ensures IncreasingIndex(Keeping(ds, keep))
  {
    if ds != [] {
      var init, last := ds[..|ds| - 1], ds[|ds| - 1];
      KeepingIncreases(init, keep);
      var kept := Keeping(init, keep);
      forall k | 0 <= k < |kept| ensures kept[k].index < last.index {
        KeepingHolds(init, kept[k], keep);
      }
    }
  }

  /** Of the decoded slots, those in the writable range are exactly the stored ones in slot order. */
  lemma DecodedSlots(config: Stored, c: Config)
    requires Decodes(ResponseObject(config), c)
    ensures Keeping(c.domains, Writable) == SlotsBelow(Slots(ResponseObject(config)), SLOT_COUNT)
  {
    var slots := Slots(ResponseObject(config));
    SlotsBelowHolds(slots, SLOT_COUNT);
    KeepingIncreases(c.domains, Writable);
    forall d ensures d in Keeping(c.domains, Writable) <==> d in SlotsBelow(slots, SLOT_COUNT) {
      KeepingHolds(c.domains, d, Writable);
    }
    IncreasingUnique(Keeping(c.domains, Writable), SlotsBelow(slots, SLOT_COUNT));
  }

  function DomainNames(ds: seq<ACMEDomain>): seq<string> {
    if ds == [] then [] else DomainNames(ds[..|ds| - 1]) + [ds[|ds| - 1].domain]
  }

  lemma SlotKeyIsPlain(i: nat)
    requires i <= MAX_INT
    ensures SlotIndex(SlotKey(i)) == Some(i) && SlotKey(i) != "digest" && SlotKey(i) != "acme" && SlotKey(i) != "delete"
  {
    SlotIndexInverse(SlotKey(i), i);
    assert |SlotKey(i)| > 6;
  }

  lemma NamesAppend(ds: seq<ACMEDomain>, d: ACMEDomain)
    ensures DomainNames(ds + [d]) == DomainNames(ds) + [d.domain]
  {
    assert (ds + [d])[..|ds|] == ds;
  }

  function LegacyDomains(c: Config): seq<string> {
    if c.acme.Some? then c.acme.value.domains else []
  }

  // ---- where the two readers meet ----

  /** Whether both readers take the same from what is stored under a key, if they read it at all. */
  predicate KeyMeets(key: string, text: string) {
    && (key == "acme" ==> AccountReadersAgree(text))
    && (SlotIndex(key).Some? && SlotIndex(key).value <= MAX_SLOT ==> ReadersAgree(text))
  }

  predicate Meets(config: Stored) { forall key | key in config :: KeyMeets(key, config[key]) }

  /** What a slot's key holds, to the SDK. */
  lemma SlotRead(config: Stored, i: nat)
    requires i <= MAX_SLOT
    ensures var slots, key := Slots(ResponseObject(config)), SlotKey(i);
            && (key in slots <==> key in config && SDKDomain(config[key]) != "")
            && (key in slots ==> slots[key].domain == SDKDomain(config[key]))
  {
    SlotKeyIsPlain(i);
    var key := SlotKey(i);
    hide SlotKey;
    if key in config {
      assert ResponseObject(config)[key] == Text(config[key]);
      assert key in Slots(ResponseObject(config)) <==> IsSlot(ResponseObject(config), key);
    }
  }

  /** A slot's name is what the SDK reads there, if it reads a slot at all. */
  lemma SlotNameRead(config: Stored, i: nat)
    requires Meets(config) && i <= MAX_SLOT
    ensures var slots, key := Slots(ResponseObject(config)), SlotKey(i);
            Clean(if key in config then [SlotDomain(config[key])] else [])
            == if key in slots then [slots[key].domain] else []
  {
    SlotRead(config, i);
    SlotKeyIsPlain(i);
    CleanNone();
    var key := SlotKey(i);
    if key in config {
      assert KeyMeets(key, config[key]);
      CleanMore([], SlotDomain(config[key]));
    }
  }

  lemma {:induction false} SlotNamesRead(config: Stored, n: nat)
    requires Meets(config) && n <= SLOT_COUNT
    ensures Clean(SlotNames(config, n)) == DomainNames(SlotsBelow(Slots(ResponseObject(config)), n))
  {
    if n == 0 {
      CleanNone();
    } else {
      SlotNamesRead(config, n - 1);
      SlotNameRead(config, n - 1);
      NextSlotName(config, Slots(ResponseObject(config)), n - 1, SlotKey(n - 1));
    }
  }

  lemma NextSlotName(config: Stored, slots: map<string, ACMEDomain>, n: nat, key: string)
    requires key == SlotKey(n)
    requires Clean(SlotNames(config, n)) == DomainNames(SlotsBelow(slots, n))
    requires Clean(if key in config then [SlotDomain(config[key])] else []) == if key in slots then [slots[key].domain] else []
    ensures Clean(SlotNames(config, n + 1)) == DomainNames(SlotsBelow(slots, n + 1))
  {
    hide Clean, SlotDomain, SlotKey;
    CleanAppend(SlotNames(config, n), if key in config then [SlotDomain(config[key])] else []);
    if key in slots {
      NamesAppend(SlotsBelow(slots, n), slots[key]);
    } else {
      assert SlotsBelow(slots, n) + [] == SlotsBelow(slots, n);
    }
  }

  lemma LegacyRead(config: Stored, c: Config)
    requires Meets(config) && Decodes(ResponseObject(config), c)
    ensures Clean(LegacyNames(ACMEParts(config))) == LegacyDomains(c)
  {
    hide Clean, Split, LegacyNames, ParsedNodeACME, Slots;
    if "acme" in config {
      assert ResponseObject(config)["acme"] == Text(config["acme"]);
      assert KeyMeets("acme", config["acme"]);
    } else {
      NoLegacy();
    }
  }

  lemma NoLegacy()
    ensures Clean(LegacyNames(Split("", ','))) == []
  {
    SplitFirst("", ',');
    NoLegacyPart();
  }

  lemma NoLegacyPart()
    ensures Clean(LegacyNames([""])) == []
  {
    assert [""][..0] == [];
    assert LegacyItems("") == [];
  }

  /** On every node whose strings both readers take alike, the names the mock certifies are the domains
      of the writable slots the SDK reads, in index order, then the legacy domains it reads, first
      occurrences only. */
  lemma NamesCertified(config: Stored, c: Config)
    requires Meets(config) && Decodes(ResponseObject(config), c)
    ensures CertifiedNames(config) == FirstOccurrences(DomainNames(Keeping(c.domains, Writable)) + LegacyDomains(c))
  {
    hide Decodes, Meets, Names, FirstOccurrences, Clean, SlotNames, LegacyNames, ACMEParts;
    DecodedSlots(config, c);
    SlotNamesRead(config, SLOT_COUNT);
    LegacyRead(config, c);
    NamesAreFirstOccurrences(SlotNames(config, SLOT_COUNT) + LegacyNames(ACMEParts(config)));
    CleanAppend(SlotNames(config, SLOT_COUNT), LegacyNames(ACMEParts(config)));
  }
}
