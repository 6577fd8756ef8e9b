/** Updates of a node's configuration over whole runs: what one update changes, what every
    update keeps, and what a read followed by a write of the same value does. */
module NodeUpdates {
  import opened Strings
  import opened Forms
  import opened Options
  import opened Sorting
  import opened PropertyStrings
  import opened NodeConfig
  import opened MockNode
  import opened NodeRoundTrip
  import opened AccountReaders
  import opened Filtering
  import opened SlotReaders
  import opened WrittenReaders

  // ---- the form, key by key ----

  predicate IsGuard(key: string) { key == "delete" || key == "digest" }

  /** A key outside the account and the guards carries its slot's string, or its unmodelled value. */
  lemma FormSlotOrExtra(u: Update, key: string)
    requires key != "acme" && !IsGuard(key)
    ensures key in FormOf(u) <==> key in u.extra || exists d :: d in u.domains && SlotKey(d.index) == key
    ensures key in FormOf(u) ==>
              || (exists d :: d in u.domains && SlotEntry(d) == (key, FormOf(u)[key]))
              || (key in u.extra && FormOf(u)[key] == u.extra[key] && !exists d :: d in u.domains && SlotKey(d.index) == key)
  {
    hide Overlay, SlotKey, EncodeACMEDomain, EncodeNodeACME, Join, SlotEntries;
    var es := Entries(u);
    OverlayAt(es, key);
    forall e: Entry | e in es && e.0 == key ensures exists d :: d in u.domains && SlotEntry(d) == e {
      assert e in SlotEntries(u.domains);
      SlotEntriesHold(u.domains, e);
    }
    forall d | d in u.domains && SlotKey(d.index) == key ensures SlotEntry(d) in es {
      SlotEntriesHold(u.domains, SlotEntry(d));
      assert SlotEntry(d) in SlotEntries(u.domains);
    }
  }

  lemma SlotEntriesKeys(ds: seq<ACMEDomain>, e: Entry)
    requires e in SlotEntries(ds)
    ensures |e.0| > 6
  {
    SlotEntriesHold(ds, e);
    var d :| d in ds && SlotEntry(d) == e;
    assert |SlotKey(d.index)| > 6;
  }

  /** The account string is the update's when it has one, and the unmodelled value otherwise. */
  lemma FormACME(u: Update)
    ensures u.acme.Some? ==> "acme" in FormOf(u) && FormOf(u)["acme"] == EncodeNodeACME(u.acme.value)
    ensures u.acme.None? ==> ("acme" in FormOf(u) <==> "acme" in u.extra)
    ensures u.acme.None? && "acme" in u.extra ==> FormOf(u)["acme"] == u.extra["acme"]
  {
    var es := Entries(u);
    OverlayAt(es, "acme");
    forall e: Entry | e in es && e.0 == "acme" ensures e in ACMEEntries(u) {
      if e in SlotEntries(u.domains) {
        SlotEntriesKeys(u.domains, e);
      }
    }
    if u.acme.Some? {
      assert ("acme", EncodeNodeACME(u.acme.value)) == es[0];
    }
  }

  lemma FormGuard(u: Update, key: string)
    requires IsGuard(key)
    ensures key in FormOf(u) <==> key in u.extra || (key == "delete" && |u.deletes| > 0) || (key == "digest" && u.digest != "")
    ensures key == "delete" && |u.deletes| > 0 ==> FormOf(u)[key] == Join(u.deletes, ',')
    ensures key == "digest" && u.digest != "" ==> FormOf(u)[key] == u.digest
    ensures key in u.extra && (key == "delete" ==> |u.deletes| == 0) && (key == "digest" ==> u.digest == "") ==>
              FormOf(u)[key] == u.extra[key]
  {
    var es := Entries(u);
    OverlayAt(es, key);
    forall e: Entry | e in es && e.0 == key ensures e in GuardEntries(u) {
      if e in SlotEntries(u.domains) {
        SlotEntriesKeys(u.domains, e);
      }
    }
    forall e | e in GuardEntries(u) ensures e in es { }
  }

  // ---- one update ----

  /** The delete list an update is sent with. */
  function DeleteText(u: Update): string {
    if |u.deletes| > 0 then Join(u.deletes, ',') else if "delete" in u.extra then u.extra["delete"] else ""
  }

  /** An update names what it deletes and what it sets, and nothing else changes. */
  lemma UpdateEffect(config: Stored, u: Update, key: string)
    requires !IsGuard(key)
    ensures var after := Applied(config, FormOf(u));
            if key in FormOf(u) then key in after && after[key] == FormOf(u)[key]
            else if DeleteText(u) != "" && key in TrimmedItems(Split(DeleteText(u), ',')) then key !in after
            else (key in after <==> key in config) && (key in config ==> after[key] == config[key])
  {
    hide FormOf, Split, Join, Trim;
    FormGuard(u, "delete");
    FormDelete(u);
  }

  lemma FormDelete(u: Update)
    ensures FormValue(FormOf(u), "delete") == DeleteText(u)
  {
    FormGuard(u, "delete");
  }

  // ---- updates that keep the readers together ----

  /** Every value the update sends is one both readers take alike; what it deletes does not matter. */
  predicate UpdateMeets(u: Update) {
    && (u.acme.Some? ==> AllHarmless(FurtherPieces(u.acme.value)))
    && (forall k | 0 <= k < |u.domains| :: SlotAgrees(u.domains[k]))
    && (forall key | key in u.extra :: KeyMeets(key, u.extra[key]))
  }

  lemma FormMeets(u: Update, key: string)
    requires UpdateMeets(u) && key in FormOf(u) && !IsGuard(key)
    ensures KeyMeets(key, FormOf(u)[key])
  {
    hide SlotAgrees, AccountReadersAgree, ReadersAgree, AllHarmless, FormOf, EncodeACMEDomain, EncodeNodeACME;
    if key == "acme" {
      FormACME(u);
      AccountIsNoSlot();
      if u.acme.Some? {
        WrittenAccountAgrees(u.acme.value);
      }
    } else {
      FormSlotOrExtra(u, key);
      if d :| d in u.domains && SlotEntry(d) == (key, FormOf(u)[key]) {
        var k :| 0 <= k < |u.domains| && u.domains[k] == d;
        SlotAgreesExactly(d);
      }
    }
  }

  lemma AccountIsNoSlot()
    ensures SlotIndex("acme") == None
  {
  }

  lemma UpdateKeepsMeeting(config: Stored, u: Update)
    requires Meets(config) && UpdateMeets(u)
    ensures Meets(Applied(config, FormOf(u)))
  {
    hide UpdateMeets, KeyMeets, FormOf, DeletedKeys;
    var after := Applied(config, FormOf(u));
    forall key | key in after ensures KeyMeets(key, after[key]) {
      if key in FormOf(u) && !IsGuard(key) {
        FormMeets(u, key);
      }
    }
  }

  lemma SlotInForm(u: Update, k: nat)
    requires Acceptable(u) && k < |u.domains|
    ensures var d := u.domains[k];
            SlotKey(d.index) in FormOf(u) && FormOf(u)[SlotKey(d.index)] == EncodeACMEDomain(d) && !IsGuard(SlotKey(d.index))
  {
    hide FormOf, EncodeACMEDomain;
    var d := u.domains[k];
    var key := SlotKey(d.index);
    SlotKeyIsPlain(d.index);
    FormSlotOrExtra(u, key);
    assert d in u.domains;
    var e :| e in u.domains && SlotEntry(e) == (key, FormOf(u)[key]);
    var j :| 0 <= j < |u.domains| && u.domains[j] == e;
    SlotIndexInverse(key, e.index);
    SlotIndexInverse(key, d.index);
    assert j == k;
  }

  /** For a first update without raw ACME keys this is exact: the readers meet on the node it leaves if
      and only if they take all its values alike. */
  lemma FirstUpdateMeetsExactly(u: Update)
    requires Acceptable(u) && forall key | key in u.extra :: key != "acme" && SlotIndex(key).None?
    ensures Meets(Applied(map[], FormOf(u))) <==> UpdateMeets(u)
  {
    var after := Applied(map[], FormOf(u));
    hide SlotAgrees, AllHarmless, AccountReadersAgree, ReadersAgree, FormOf, DeletedKeys, EncodeACMEDomain, EncodeNodeACME;
    if UpdateMeets(u) {
      UpdateKeepsMeeting(map[], u);
    }
    if Meets(after) {
      if u.acme.Some? {
        FormACME(u);
        assert KeyMeets("acme", after["acme"]);
        WrittenAccountAgrees(u.acme.value);
      }
      forall k | 0 <= k < |u.domains| ensures SlotAgrees(u.domains[k]) {
        SlotMet(u, k, after);
      }
    }
  }

  lemma SlotMet(u: Update, k: nat, after: Stored)
    requires Acceptable(u) && k < |u.domains| && after == Applied(map[], FormOf(u)) && Meets(after)
    ensures SlotAgrees(u.domains[k])
  {
    hide SlotAgrees, FormOf, DeletedKeys, EncodeACMEDomain, ReadersAgree;
    var d := u.domains[k];
    SlotInForm(u, k);
    SlotKeyIsPlain(d.index);
    assert KeyMeets(SlotKey(d.index), after[SlotKey(d.index)]);
    SlotAgreesExactly(d);
  }

  /** The configuration after the store has been sent an update. */
  function Sent(config: Stored, u: Update): Stored {
    if Accepted(FormOf(u)) then Applied(config, FormOf(u)) else config
  }

  /** The configuration after a run of updates. */
  function Run(config: Stored, us: seq<Update>): Stored {
    if us == [] then config else Sent(Run(config, us[..|us| - 1]), us[|us| - 1])
  }

  lemma {:induction false} RunKeepsMeeting(config: Stored, us: seq<Update>)
    requires Meets(config)
    requires forall k | 0 <= k < |us| :: UpdateMeets(us[k])
    ensures Meets(Run(config, us))
  {
    if us != [] {
      RunKeepsMeeting(config, us[..|us| - 1]);
      UpdateKeepsMeeting(Run(config, us[..|us| - 1]), us[|us| - 1]);
    }
  }

  /** End to end: after any run of such updates of a fresh node, an order certifies exactly the names
      the SDK reads back, writable slots first, each once. */
  lemma RunCertifies(us: seq<Update>, c: Config)
    requires forall k | 0 <= k < |us| :: UpdateMeets(us[k])
    requires Decodes(ResponseObject(Run(map[], us)), c)
    ensures CertifiedNames(Run(map[], us)) == FirstOccurrences(DomainNames(Keeping(c.domains, Writable)) + LegacyDomains(c))
  {
    hide Decodes, CertifiedNames, UpdateMeets, Run, ResponseObject, KeyMeets;
    assert Meets(map[]);
    RunKeepsMeeting(map[], us);
    NamesCertified(Run(map[], us), c);
  }

  /** The texts of an update hold no comma, and its unmodelled keys are not read by either reader. */
  predicate CommaFree(u: Update) {
    && (u.acme.Some? ==> ',' !in u.acme.value.account && ',' !in Join(u.acme.value.domains, ';'))
    && (forall k | 0 <= k < |u.domains| ::
          ',' !in u.domains[k].domain && ',' !in u.domains[k].plugin && ',' !in u.domains[k].alias)
    && (forall key | key in u.extra :: key != "acme" && SlotIndex(key).None?)
  }

  /** All updates of ordinary values are such. */
  lemma CommaFreeMeets(u: Update)
    requires CommaFree(u)
    ensures UpdateMeets(u)
  {
    hide SlotAgrees, AllHarmless, Join;
    if u.acme.Some? {
      CommaFreeAccountAgrees(u.acme.value);
    }
    forall k | 0 <= k < |u.domains| ensures SlotAgrees(u.domains[k]) {
      CommaFreeAgrees(u.domains[k]);
    }
  }

  // ---- read, then write the same value back ----

  /** The update that writes back everything a read returned. */
  function WriteBack(c: Config): Update { Update(c.acme, c.domains, [], c.digest, c.extra) }

  /** It is refused exactly when the account string carried nothing the SDK models, or a
      slot above the writable range was read. */
  lemma WriteBackAccepted(config: Stored, c: Config)
    requires Decodes(ResponseObject(config), c)
    ensures Acceptable(WriteBack(c)) <==>
            c.acme != Some(NO_ACME) && forall k | 0 <= k < |c.domains| :: c.domains[k].index <= MAX_SLOT
  {
    var obj := ResponseObject(config);
    forall k | 0 <= k < |c.domains| ensures c.domains[k].index >= 0 && c.domains[k].domain != "" {
      assert c.domains[k] in c.domains;
      var key :| key in Slots(obj) && Slots(obj)[key] == c.domains[k];
      SlotIndexInverse(key, c.domains[k].index);
    }
  }

  /** A write-back deletes nothing. */
  lemma WriteBackKeeps(config: Stored, c: Config, key: string)
    requires Decodes(ResponseObject(config), c) && "delete" !in config && key != "digest"
    ensures var form := FormOf(WriteBack(c));
            "delete" !in form
            && (key in Applied(config, form) <==> key in form || key in config)
            && (key in Applied(config, form) ==> Applied(config, form)[key] == if key in form then form[key] else config[key])
  {
    hide FormOf, Entries, Split, Trim, Slots;
    FormGuard(WriteBack(c), "delete");
  }

  /** What is written back under a slot's key, and under a key that is neither a slot nor the account. */
  lemma WriteBackSlot(config: Stored, c: Config, key: string)
    requires Decodes(ResponseObject(config), c)
    requires key != "acme" && !IsGuard(key)
    ensures var form, slots := FormOf(WriteBack(c)), Slots(ResponseObject(config));
            && (key in form <==> key in config)
            && (key in slots ==> key in form && form[key] == EncodeACMEDomain(slots[key]))
            && (key in config && key !in slots ==> form[key] == config[key])
  {
    var u, slots := WriteBack(c), Slots(ResponseObject(config));
    FormSlotOrExtra(u, key);
    forall d | d in u.domains && SlotKey(d.index) == key ensures key in slots && slots[key] == d {
      var k :| k in slots && slots[k] == d;
      SlotIndexInverse(k, d.index);
    }
    if key in slots {
      SlotIndexInverse(key, slots[key].index);
      assert slots[key] in u.domains;
    }
  }

  lemma WriteBackAccount(config: Stored, c: Config)
    requires Decodes(ResponseObject(config), c)
    ensures var form := FormOf(WriteBack(c));
            && ("acme" in form <==> "acme" in config)
            && ("acme" in config ==> form["acme"] == EncodeNodeACME(ParsedNodeACME(config["acme"])))
  {
    FormACME(WriteBack(c));
    assert "acme" in config ==> IsTyped(ResponseObject(config), "acme");
  }

  lemma WriteBackKey(config: Stored, c: Config, key: string)
    requires Decodes(ResponseObject(config), c) && "delete" !in config
    ensures SameReading(ResponseObject(config), ResponseObject(Applied(config, FormOf(WriteBack(c)))), key)
  {
    if key == "acme" {
      WriteBackKeeps(config, c, key);
      WriteBackAccount(config, c);
      if key in config {
        NodeACMEStable(config[key]);
      }
    } else if !IsGuard(key) {
      WriteBackKeeps(config, c, key);
      WriteBackSlot(config, c, key);
      var slots := Slots(ResponseObject(config));
      if key in slots {
        ACMEDomainStable(config[key]);
        EncodeIgnoresIndex(ParsedACMEDomain(config[key]).value, slots[key].index);
      }
    } else if key == "delete" {
      WriteBackKeeps(config, c, key);
    }
  }

  /** Both objects hold the key or neither, and they mean the same under it. */
  predicate SameReading(obj: Object, obj': Object, key: string) {
    && (key in obj' <==> key in obj)
    && (IsTyped(obj', key) <==> IsTyped(obj, key))
    && SameEntry(Slots(obj), Slots(obj'), key)
    && (key in obj && !IsTyped(obj, key) ==> obj'[key] == obj[key])
    && (key == "acme" && IsTyped(obj, key) ==> ParsedNodeACME(obj'[key].text) == ParsedNodeACME(obj[key].text))
    && (key == "digest" && IsTyped(obj, key) ==> RawText(obj'[key]) == RawText(obj[key]))
  }

  predicate SameEntry<V(==)>(m: map<string, V>, m': map<string, V>, key: string) {
    (key in m <==> key in m') && (key in m ==> m[key] == m'[key])
  }

  lemma SameMaps<V>(m: map<string, V>, m': map<string, V>)
    requires forall key :: SameEntry(m, m', key)
    ensures m == m'
  {
    assert forall key :: key in m ==> SameEntry(m, m', key);
    assert forall key :: key in m' ==> SameEntry(m, m', key);
  }

  function Extra(obj: Object): map<string, string> {
    map key | key in obj && !IsTyped(obj, key) :: RawText(obj[key])
  }

  lemma SameReadingDecodes(obj: Object, obj': Object, c: Config)
    requires Decodes(obj, c)
    requires forall key :: SameReading(obj, obj', key)
    ensures Decodes(obj', c)
  {
    forall key ensures SameEntry(Slots(obj), Slots(obj'), key) && SameEntry(Extra(obj), Extra(obj'), key) {
      assert SameReading(obj, obj', key);
    }
    SameMaps(Slots(obj), Slots(obj'));
    SameMaps(Extra(obj), Extra(obj'));
    assert SameReading(obj, obj', "acme") && SameReading(obj, obj', "digest");
    assert c.extra == Extra(obj');
  }

  lemma ServedDigest(config: Stored)
    ensures "digest" in ResponseObject(config) && ResponseObject(config)["digest"] == Text(NODE_DIGEST)
  {
    hide NODE_DIGEST;
  }

  lemma DigestRead(config: Stored, c: Config)
    requires Decodes(ResponseObject(config), c)
    ensures c.digest == NODE_DIGEST
  {
    hide Slots, ParsedNodeACME, IncreasingIndex, NODE_DIGEST, ResponseObject;
    ServedDigest(config);
    assert IsTyped(ResponseObject(config), "digest");
  }

  /** A write-back is let through and reads as the same value again, although the stored
      text may change. */
  lemma WriteBackReadsSame(config: Stored, c: Config)
    requires Decodes(ResponseObject(config), c) && "delete" !in config
    ensures Accepted(FormOf(WriteBack(c)))
    ensures Decodes(ResponseObject(Applied(config, FormOf(WriteBack(c)))), c)
  {
    hide Slots, ResponseObject, Applied, FormOf, SameReading, Decodes;
    FormGuard(WriteBack(c), "digest");
    DigestRead(config, c);
    forall key ensures SameReading(ResponseObject(config), ResponseObject(Applied(config, FormOf(WriteBack(c)))), key) {
      WriteBackKey(config, c, key);
    }
    SameReadingDecodes(ResponseObject(config), ResponseObject(Applied(config, FormOf(WriteBack(c)))), c);
  }

  lemma EncodeIgnoresIndex(d: ACMEDomain, index: int)
    ensures EncodeACMEDomain(d.(index := index)) == EncodeACMEDomain(d)
  {
  }
}
