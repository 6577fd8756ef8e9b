/** What the SDK reads back after an update: the update's own values, and of everything else what was
    read before. */
module NodeReadBack {
  import opened Strings
  import opened Forms
  import opened Options
  import opened Numerals
  import opened PropertyStrings
  import opened NodeConfig
  import opened MockNode
  import opened NodeUpdates
  import opened NodeRoundTrip

  /** The update's delete list names the key. */
  predicate Deleted(u: Update, key: string) {
    DeleteText(u) != "" && exists k :: 0 <= k < |Split(DeleteText(u), ',')| && Trim(Split(DeleteText(u), ',')[k]) == key
  }

  predicate NoRawACME(u: Update) { forall key | key in u.extra :: key != "acme" && SlotIndex(key).None? }

  /** An update with a digest goes through if and only if that is the digest a read reports. */
  lemma DigestGuards(config: Stored, c: Config, u: Update)
    requires Decodes(ResponseObject(config), c) && u.digest != ""
    ensures Accepted(FormOf(u)) <==> u.digest == c.digest
    ensures u.digest != c.digest ==> Sent(config, u) == config
  {
    hide FormOf, NODE_DIGEST;
    FormGuard(u, "digest");
    DigestRead(config, c);
  }

  /** What is stored under a key that is no guard, after an update that went through. */
  lemma SentKey(config: Stored, u: Update, key: string)
    requires Accepted(FormOf(u)) && !IsGuard(key)
    ensures var after := Sent(config, u);
            if key in FormOf(u) then key in after && after[key] == FormOf(u)[key]
            else if Deleted(u, key) then key !in after
            else (key in after <==> key in config) && (key in config ==> after[key] == config[key])
  {
    hide FormOf, Applied, Split, Trim, Accepted, DeleteText;
    UpdateEffect(config, u, key);
  }

  lemma ServedText(config: Stored, key: string)
    requires key != "digest"
    ensures key in ResponseObject(config) <==> key in config
    ensures key in config ==> ResponseObject(config)[key] == Text(config[key])
  {
  }

  lemma SlotFree(u: Update, i: nat)
    requires NoRawACME(u) && Acceptable(u) && i <= MAX_INT && forall d | d in u.domains :: d.index != i
    ensures SlotKey(i) !in FormOf(u)
  {
    hide FormOf, SlotIndex, SlotKey;
    SlotKeyIsPlain(i);
    FormSlotOrExtra(u, SlotKey(i));
    forall d | d in u.domains ensures SlotKey(d.index) != SlotKey(i) {
      SlotKeyIsPlain(d.index);
    }
  }

  lemma SlotStored(config: Stored, u: Update, d: ACMEDomain)
    requires Acceptable(u) && Accepted(FormOf(u)) && d in u.domains
    ensures var after, key := Sent(config, u), SlotKey(d.index);
            0 <= d.index <= MAX_SLOT && d.domain != "" && key in after && after[key] == EncodeACMEDomain(d) && key != "digest"
  {
    hide FormOf, Sent, Accepted, EncodeACMEDomain, SlotKey;
    var k :| 0 <= k < |u.domains| && u.domains[k] == d;
    SlotInForm(u, k);
    SentKey(config, u, SlotKey(d.index));
  }

  /** A slot that was sent reads back as it was given if and only if its texts are plain. */
  lemma SentSlotReadsBack(config: Stored, u: Update, c: Config, d: ACMEDomain)
    requires Acceptable(u) && Accepted(FormOf(u)) && d in u.domains
    requires Decodes(ResponseObject(Sent(config, u)), c)
    ensures d in c.domains <==> PlainTexts(d)
  {
    hide FormOf, Sent, Accepted, EncodeACMEDomain, ParsedACMEDomain, Decodes, PlainTexts, ResponseObject;
    SlotStored(config, u, d);
    ServedText(Sent(config, u), SlotKey(d.index));
    DecodedSlot(ResponseObject(Sent(config, u)), c, d);
    ACMEDomainRoundTrip(d);
  }

  lemma SlotKeyNoGuard(i: int)
    ensures !IsGuard(SlotKey(i)) && SlotKey(i) != "acme"
  {
    assert |SlotKey(i)| > 6;
  }

  /** After an update of plain values that went through, the SDK reads exactly the update's slots, and of the
      slots it read before those whose index the update does not give and whose key it does not delete. */
  lemma SlotsAfterUpdate(config: Stored, c: Config, u: Update, c': Config, d: ACMEDomain)
    requires Acceptable(u) && NoRawACME(u) && Accepted(FormOf(u)) && forall e | e in u.domains :: PlainTexts(e)
    requires Decodes(ResponseObject(config), c) && Decodes(ResponseObject(Sent(config, u)), c')
    ensures d in c'.domains <==>
              || d in u.domains
              || (d in c.domains && (forall e | e in u.domains :: e.index != d.index) && !Deleted(u, SlotKey(d.index)))
  {
    hide FormOf, Sent, Accepted, ResponseObject, PlainTexts, Deleted, SlotKey;
    if e :| e in u.domains && e.index == d.index {
      SentSlotReadsBack(config, u, c', e);
      OneSlotAnIndex(ResponseObject(Sent(config, u)), c', d, e);
      var j, k :| 0 <= j < |u.domains| && u.domains[j] == e && (d in u.domains ==> 0 <= k < |u.domains| && u.domains[k] == d);
      assert d in u.domains ==> j == k;
    } else {
      OtherSlot(config, c, u, c', d);
    }
  }

  lemma OneSlotAnIndex(obj: Object, c: Config, d: ACMEDomain, e: ACMEDomain)
    requires Decodes(obj, c) && d.index == e.index && e in c.domains
    ensures d in c.domains <==> d == e
  {
    hide ParsedACMEDomain, Itoa;
    DecodedSlot(obj, c, d);
    DecodedSlot(obj, c, e);
    assert d.(index := 0) == e.(index := 0) ==> d == e;
  }

  lemma OtherSlot(config: Stored, c: Config, u: Update, c': Config, d: ACMEDomain)
    requires Acceptable(u) && NoRawACME(u) && Accepted(FormOf(u)) && forall e | e in u.domains :: e.index != d.index
    requires Decodes(ResponseObject(config), c) && Decodes(ResponseObject(Sent(config, u)), c')
    ensures d in c'.domains <==> d in c.domains && !Deleted(u, SlotKey(d.index))
  {
    hide FormOf, Sent, Accepted, ResponseObject, Decodes, Deleted, ParsedACMEDomain, Itoa;
    DecodedSlot(ResponseObject(config), c, d);
    DecodedSlot(ResponseObject(Sent(config, u)), c', d);
    if 0 <= d.index <= MAX_INT {
      SlotKeyNoGuard(d.index);
      SlotFree(u, d.index);
      SentKey(config, u, SlotKey(d.index));
      ServedText(config, SlotKey(d.index));
      ServedText(Sent(config, u), SlotKey(d.index));
    }
  }

  /** The account reads back as it was given if and only if its texts are plain; without one in the update, it
      is what was read before, or nothing when its key is deleted. */
  lemma AccountAfterUpdate(config: Stored, c: Config, u: Update, c': Config)
    requires NoRawACME(u) && Accepted(FormOf(u))
    requires Decodes(ResponseObject(config), c) && Decodes(ResponseObject(Sent(config, u)), c')
    ensures u.acme.Some? ==> (c'.acme == u.acme <==> PlainNodeACME(u.acme.value))
    ensures u.acme.None? ==> c'.acme == if Deleted(u, "acme") then None else c.acme
  {
    hide FormOf, Sent, Accepted, ResponseObject, Decodes, Deleted, ParsedNodeACME, EncodeNodeACME, PlainNodeACME;
    AccountKey();
    FormACME(u);
    SentKey(config, u, "acme");
    ServedText(config, "acme");
    ServedText(Sent(config, u), "acme");
    DecodeValues(ResponseObject(config), c, "acme");
    DecodeValues(ResponseObject(Sent(config, u)), c', "acme");
    if u.acme.Some? {
      NodeACMERoundTrip(u.acme.value);
    }
  }
}
