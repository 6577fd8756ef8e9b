/** The SDK's view of a node's configuration: the slot keys, the lossless decode of a
    configuration object, and the form a partial update is sent as. */
module NodeConfig {
  import opened Strings
  import opened Forms
  import opened Numerals
  import opened StableSort
  import opened Options
  import opened PropertyStrings

  const MAX_SLOT := 5
  const SLOT_PREFIX := "acmedomain"

  // ---- slot keys ----

  function SlotKey(index: int): string { SLOT_PREFIX + Itoa(index) }

  /** The slot a configuration key names, if it names one. */
  function SlotIndex(key: string): Option<int> {
    if !HasPrefix(key, SLOT_PREFIX) || |key| == |SLOT_PREFIX| then None
    else
      var suffix := key[|SLOT_PREFIX|..];
      match Atoi(suffix)
      case None => None
      case Some(index) => if index < 0 || Itoa(index) != suffix then None else Some(index)
  }

  /** The keys read as slots are exactly those printed for a slot, each with its own index. */
  lemma SlotIndexInverse(key: string, index: int)
    ensures SlotIndex(key) == Some(index) <==> 0 <= index <= MAX_INT && key == SlotKey(index)
  {
    hide Itoa, Atoi;
    AtoiItoa(index);
    if HasPrefix(key, SLOT_PREFIX) {
      assert key == SLOT_PREFIX + key[|SLOT_PREFIX|..];
    }
    if key == SlotKey(index) {
      assert key[|SLOT_PREFIX|..] == Itoa(index);
    }
  }

  // ---- reading ----

  /** A member of the JSON object: a string, null, or any other token kept as text. */
  datatype Json = Text(text: string) | Null | Token(token: string)

  type Object = map<string, Json>

  datatype Config = Config(acme: Option<NodeACME>, domains: seq<ACMEDomain>, digest: string, extra: map<string, string>)

  /** The text an unmodelled member is preserved as. */
  function RawText(j: Json): string {
    match j
    case Text(text) => text
    case Null => ""
    case Token(token) => token
  }

  predicate IsSlot(obj: Object, key: string) {
    key in obj && key != "acme" && key != "digest"
    && SlotIndex(key).Some? && obj[key].Text? && ParsedACMEDomain(obj[key].text).Some?
  }

  /** The keys that end up in a typed field. */
  predicate IsTyped(obj: Object, key: string) {
    || (key == "acme" && key in obj && obj[key].Text?)
    || (key == "digest" && key in obj && !obj[key].Token?)
    || IsSlot(obj, key)
  }

  function SlotAt(obj: Object, key: string): ACMEDomain
    requires IsSlot(obj, key)
  {
    ParsedACMEDomain(obj[key].text).value.(index := SlotIndex(key).value)
  }

  /** The slots of the object, by key. */
  function Slots(obj: Object): (slots: map<string, ACMEDomain>)
    ensures forall key | key in slots :: SlotIndex(key) == Some(slots[key].index)
  {
    map key | key in obj && IsSlot(obj, key) :: SlotAt(obj, key)
  }

  predicate IncreasingIndex(ds: seq<ACMEDomain>) {
    forall i, j | 0 <= i < j < |ds| :: ds[i].index < ds[j].index
  }

  /** What it means for `c` to be the decoded form of `obj`. */
  ghost predicate Decodes(obj: Object, c: Config) {
    && c.acme == (if IsTyped(obj, "acme") then Some(ParsedNodeACME(obj["acme"].text)) else None)
    && c.digest == (if IsTyped(obj, "digest") then RawText(obj["digest"]) else "")
    && IncreasingIndex(c.domains)
    && (forall d :: d in c.domains <==> d in Slots(obj).Values)
    && c.extra == (map key | key in obj && !IsTyped(obj, key) :: RawText(obj[key]))
  }

  lemma {:induction false} IncreasingUnique(xs: seq<ACMEDomain>, ys: seq<ACMEDomain>)
    requires IncreasingIndex(xs) && IncreasingIndex(ys)
    requires forall d :: d in xs <==> d in ys
    ensures xs == ys
  {
    assert xs != [] ==> xs[0] in ys;
    if ys != [] {
      assert ys[0] in xs;
      assert xs[0] == ys[0];
      forall d ensures d in xs[1..] <==> d in ys[1..] {
        assert d in xs[1..] ==> d in xs && d != xs[0];
        assert d in ys[1..] ==> d in ys && d != ys[0];
        assert d in xs && d != xs[0] ==> d in xs[1..];
        assert d in ys && d != ys[0] ==> d in ys[1..];
      }
      IncreasingUnique(xs[1..], ys[1..]);
    }
  }

  /** An object has one decoded form, so the order its keys are visited in cannot matter. */
  lemma DecodeUnique(obj: Object, c1: Config, c2: Config)
    requires Decodes(obj, c1) && Decodes(obj, c2)
    ensures c1 == c2
  {
    IncreasingUnique(c1.domains, c2.domains);
  }

  /** Every key of the object ends up in exactly one place, and nothing else does. */
  lemma DecodePartition(obj: Object, c: Config, key: string)
    requires Decodes(obj, c)
    ensures key in obj <==> (key == "acme" && c.acme.Some?)
                            || (key == "digest" && IsTyped(obj, key))
                            || (exists d :: d in c.domains && SlotKey(d.index) == key)
                            || key in c.extra
    ensures key in c.extra ==> !(key == "acme" && c.acme.Some?) && !(key == "digest" && IsTyped(obj, key))
                               && !(exists d :: d in c.domains && SlotKey(d.index) == key)
  {
    var slots := Slots(obj);
    if key in slots {
      SlotIndexInverse(key, SlotIndex(key).value);
      assert slots[key] in c.domains;
    }
    forall d | d in c.domains && SlotKey(d.index) == key
      ensures key in slots
    {
      var k :| k in slots && slots[k] == d;
      SlotIndexInverse(k, d.index);
    }
  }

  /** What a decoded form holds, in terms of the object's members: the account and the digest when they
      are text, under every slot's key the slot that its text describes, and any other member in Extra, a
      string as its text, any other token as it stands, null as an empty text. */
  lemma DecodeValues(obj: Object, c: Config, key: string)
    requires Decodes(obj, c)
    ensures c.acme == if "acme" in obj && obj["acme"].Text? then Some(ParsedNodeACME(obj["acme"].text)) else None
    ensures c.digest == if "digest" in obj && obj["digest"].Text? then obj["digest"].text else ""
    ensures key in c.extra <==>
              && key in obj
              && if key == "acme" then !obj[key].Text?
                 else if key == "digest" then obj[key].Token?
                 else !(SlotIndex(key).Some? && obj[key].Text? && ParsedACMEDomain(obj[key].text).Some?)
    ensures key in c.extra ==>
              && (obj[key].Text? ==> c.extra[key] == obj[key].text)
              && (obj[key].Token? ==> c.extra[key] == obj[key].token)
              && (obj[key].Null? ==> c.extra[key] == "")
  {
    hide SlotIndex, ParsedACMEDomain, ParsedNodeACME, Slots, IncreasingIndex;
    AccountKey();
  }

  lemma AccountKey()
    ensures "acme" != "digest" && SlotIndex("acme").None? && SlotIndex("digest").None?
  {
  }

  /** The slots of a decoded form are those the object holds under their keys. */
  lemma DecodedSlot(obj: Object, c: Config, d: ACMEDomain)
    requires Decodes(obj, c)
    ensures d in c.domains <==>
              && 0 <= d.index <= MAX_INT && "acmedomain" + Itoa(d.index) in obj
              && obj["acmedomain" + Itoa(d.index)].Text?
              && ParsedACMEDomain(obj["acmedomain" + Itoa(d.index)].text) == Some(d.(index := 0))
  {
    var key := "acmedomain" + Itoa(d.index);
    hide ParsedNodeACME, Itoa, IncreasingIndex, SlotIndex;
    AccountKey();
    SlotIndexInverse(key, d.index);
    if d in c.domains {
      var k :| k in Slots(obj) && Slots(obj)[k] == d;
      SlotIndexInverse(k, d.index);
      ParsedAtZero(obj[k].text);
    }
    assert key in Slots(obj) ==> Slots(obj)[key] in Slots(obj).Values;
  }

  lemma ParsedAtZero(s: string)
    ensures ParsedACMEDomain(s).Some? ==> ParsedACMEDomain(s).value.index == 0
  {
    ACMEDomainPartsPlain(Split(s, ','));
  }

  /** Two members that Extra cannot tell apart: null and an empty text, a token and the text that reads the same. */
  predicate SameRaw(a: Json, b: Json) {
    match (a, b)
    case (Text(s), Text(t)) => s == t
    case (Token(s), Token(t)) => s == t
    case (Text(s), Token(t)) => s == t
    case (Token(s), Text(t)) => s == t
    case (Null, Null) => true
    case (Null, Text(t)) => t == ""
    case (Text(s), Null) => s == ""
    case (Null, Token(t)) => t == ""
    case (Token(s), Null) => s == ""
  }

  /** Nothing else is lost: two objects with one decoded form have the same keys, the digest aside, and
      the same members under every key of Extra. */
  lemma DecodeLossless(obj1: Object, obj2: Object, c: Config, key: string)
    requires Decodes(obj1, c) && Decodes(obj2, c)
    ensures key != "digest" ==> (key in obj1 <==> key in obj2)
    ensures key in c.extra ==> key in obj1 && key in obj2 && SameRaw(obj1[key], obj2[key])
  {
    hide Decodes;
    DecodePartition(obj1, c, key);
    DecodePartition(obj2, c, key);
    DecodeValues(obj1, c, key);
    DecodeValues(obj2, c, key);
  }

  predicate IndexFirst(d: ACMEDomain, e: ACMEDomain) { d.index <= e.index }

  predicate OtherIndex(d: ACMEDomain, e: ACMEDomain) { d.index != e.index }

  /** The sort the decode ends with. */
  function SortByIndex(ds: seq<ACMEDomain>): seq<ACMEDomain> { Sort(ds, IndexFirst) }

  predicate DistinctIndex(ds: seq<ACMEDomain>) {
    forall i, j | 0 <= i < j < |ds| :: ds[i].index != ds[j].index
  }

  lemma SortIncreasing(ds: seq<ACMEDomain>)
    requires DistinctIndex(ds)
    ensures IncreasingIndex(SortByIndex(ds))
    ensures forall d :: d in SortByIndex(ds) <==> d in ds
  {
    var r := SortByIndex(ds);
    SortSorts(ds, IndexFirst);
    SortKeepsPairwise(ds, IndexFirst, OtherIndex);
    SortHolds(ds, IndexFirst);
    forall i, j | 0 <= i < j < |r| ensures r[i].index < r[j].index {
      assert IndexFirst(r[i], r[j]) && OtherIndex(r[i], r[j]);
    }
  }

  /** `ds` holds the slots of the known keys, each once. */
  ghost predicate HoldsSlots(slots: map<string, ACMEDomain>, known: set<string>, ds: seq<ACMEDomain>) {
    && DistinctIndex(ds)
    && forall d :: d in ds <==> exists key :: key in known && key in slots && slots[key] == d
  }

  /** NodeConfig.UnmarshalJSON.  The keys are visited in an arbitrary order. */
  method Decode(obj: Object) returns (c: Config)
    ensures Decodes(obj, c)
  {
    var acme: Option<NodeACME>, digest, domains: seq<ACMEDomain> := None, "", [];
    var known: set<string> := {};
    var todo := obj.Keys;
    while todo != {}
      invariant todo <= obj.Keys
      invariant forall key :: key in known <==> key in obj && key !in todo && IsTyped(obj, key)
      invariant acme == if "acme" in known then Some(ParsedNodeACME(obj["acme"].text)) else None
      invariant digest == if "digest" in known then RawText(obj["digest"]) else ""
      invariant HoldsSlots(Slots(obj), known, domains)
      decreases todo
    {
      var key :| key in todo;
      todo := todo - {key};
      if obj[key].Token? {
        continue;
      }
      ghost var before := known;
      if key == "acme" {
        if obj[key].Null? {
          continue;
        }
        var parsed := ParseNodeACME(RawText(obj[key]));
        acme := Some(parsed);
        known := known + {key};
        OtherKeyKeepsSlots(Slots(obj), before, key, domains);
      } else if key == "digest" {
        digest := RawText(obj[key]);
        known := known + {key};
        OtherKeyKeepsSlots(Slots(obj), before, key, domains);
      } else {
        var slot := DecodeSlot(obj, key);
        if slot.Some? {
          known := known + {key};
          SlotKeepsSlots(Slots(obj), before, key, domains);
          domains := domains + [slot.value];
        }
      }
    }
    var sorted := SortByIndex(domains);
    SortIncreasing(domains);
    AllSlotsKnown(Slots(obj), known, domains);
    c := Config(acme, sorted, digest, map key | key in obj && key !in known :: RawText(obj[key]));
  }

  method DecodeSlot(obj: Object, key: string) returns (r: Option<ACMEDomain>)
    requires key in obj && key != "acme" && key != "digest" && !obj[key].Token?
    ensures r == if IsSlot(obj, key) then Some(SlotAt(obj, key)) else None
  {
    var slot := SlotIndex(key);
    if slot.None? {
      return None;
    }
    var parsed := ParseACMEDomain(RawText(obj[key]));
    if parsed.None? {
      return None;
    }
    NullIsNoDomain();
    return Some(parsed.value.(index := slot.value));
  }

  lemma NullIsNoDomain()
    ensures ParsedACMEDomain("") == None
  {
    assert Split("", ',') == [""] && [""][..0] == [];
  }

  lemma AllSlotsKnown(slots: map<string, ACMEDomain>, known: set<string>, ds: seq<ACMEDomain>)
    requires HoldsSlots(slots, known, ds) && slots.Keys <= known
    ensures forall d :: d in ds <==> d in slots.Values
  {
  }

  lemma OtherKeyKeepsSlots(slots: map<string, ACMEDomain>, known: set<string>, key: string, ds: seq<ACMEDomain>)
    requires HoldsSlots(slots, known, ds) && key !in slots
    ensures HoldsSlots(slots, known + {key}, ds)
  {
    forall d | d in ds ensures exists k :: k in known + {key} && k in slots && slots[k] == d {
      var k :| k in known && k in slots && slots[k] == d;
      assert k in known + {key};
    }
  }

  lemma SlotKeepsSlots(slots: map<string, ACMEDomain>, known: set<string>, key: string, ds: seq<ACMEDomain>)
    requires forall k | k in slots :: SlotIndex(k) == Some(slots[k].index)
    requires HoldsSlots(slots, known, ds) && key !in known && key in slots
    ensures HoldsSlots(slots, known + {key}, ds + [slots[key]])
  {
    hide SlotIndex, DistinctIndex;
    SlotIsNew(slots, known, key, ds);
    DistinctNext(ds, slots[key]);
    assert key in known + {key};
    forall d | d in ds ensures exists k :: k in known + {key} && k in slots && slots[k] == d {
      var k :| k in known && k in slots && slots[k] == d;
      assert k in known + {key};
    }
  }

  lemma DistinctNext(ds: seq<ACMEDomain>, slot: ACMEDomain)
    requires DistinctIndex(ds) && forall d | d in ds :: d.index != slot.index
    ensures DistinctIndex(ds + [slot])
  {
  }

  lemma SlotIsNew(slots: map<string, ACMEDomain>, known: set<string>, key: string, ds: seq<ACMEDomain>)
    requires forall k | k in slots :: SlotIndex(k) == Some(slots[k].index)
    requires HoldsSlots(slots, known, ds) && key !in known && key in slots
    ensures forall d | d in ds :: d.index != slots[key].index
  {
    hide SlotIndex, DistinctIndex;
    forall d | d in ds ensures d.index != slots[key].index {
      var k :| k in known && k in slots && slots[k] == d;
      SlotIndexInverse(k, d.index);
      SlotIndexInverse(key, slots[key].index);
    }
  }

  // ---- writing ----

  datatype Update = Update(acme: Option<NodeACME>, domains: seq<ACMEDomain>, deletes: seq<string>,
                           digest: string, extra: map<string, string>)

  datatype Refusal = NilUpdate | MissingNode | EmptyACME | IndexOutOfRange | MissingDomain | GivenTwice

  datatype Prepared = Refused(why: Refusal) | Sends(form: Form)

  predicate Acceptable(u: Update) {
    u.acme != Some(NO_ACME) && SlotsAcceptable(u.domains)
  }

  type Entry = (string, string)

  /** Setting the entries one after the other; a later one wins. */
  function Overlay(es: seq<Entry>): Form {
    if es == [] then map[] else Overlay(es[..|es| - 1])[es[|es| - 1].0 := es[|es| - 1].1]
  }

  lemma OverlaySet(base: Form, es: seq<Entry>, e: Entry)
    ensures (base + Overlay(es))[e.0 := e.1] == base + Overlay(es + [e])
  {
    assert (es + [e])[..|es|] == es;
  }

  lemma {:induction false} OverlayAt(es: seq<Entry>, key: string)
    ensures key in Overlay(es) <==> exists e :: e in es && e.0 == key
    ensures key in Overlay(es) ==> (key, Overlay(es)[key]) in es
  {
    if es != [] {
      var init, last := es[..|es| - 1], es[|es| - 1];
      OverlayAt(init, key);
      assert forall e :: e in es <==> e in init || e == last;
      assert last == (last.0, last.1);
    }
  }

  function SlotEntry(d: ACMEDomain): Entry { (SlotKey(d.index), EncodeACMEDomain(d)) }

  function SlotEntries(ds: seq<ACMEDomain>): seq<Entry> {
    if ds == [] then [] else SlotEntries(ds[..|ds| - 1]) + [SlotEntry(ds[|ds| - 1])]
  }

  lemma {:induction false} SlotEntriesHold(ds: seq<ACMEDomain>, e: Entry)
    ensures e in SlotEntries(ds) <==> exists d :: d in ds && SlotEntry(d) == e
  {
    if ds != [] {
      var init, last := ds[..|ds| - 1], ds[|ds| - 1];
      SlotEntriesHold(init, e);
      assert forall d :: d in ds <==> d in init || d == last;
    }
  }

  function ACMEEntries(u: Update): seq<Entry> {
    if u.acme.Some? then [("acme", EncodeNodeACME(u.acme.value))] else []
  }

  function GuardEntries(u: Update): seq<Entry> {
    (if |u.deletes| > 0 then [("delete", Join(u.deletes, ','))] else [])
    + (if u.digest != "" then [("digest", u.digest)] else [])
  }

  /** What an update sets besides its unmodelled keys, in the order it sets it. */
  function Entries(u: Update): seq<Entry> { ACMEEntries(u) + SlotEntries(u.domains) + GuardEntries(u) }

  /** The form an update is sent as. */
  function FormOf(u: Update): Form { u.extra + Overlay(Entries(u)) }

  predicate FirstSlotsAcceptable(ds: seq<ACMEDomain>, n: nat)
    requires n <= |ds|
  {
    && (forall k | 0 <= k < n :: 0 <= ds[k].index <= MAX_SLOT && ds[k].domain != "")
    && (forall j, k | 0 <= j < k < n :: ds[j].index != ds[k].index)
  }

  /** In range, naming a domain, and each index once. */
  predicate SlotsAcceptable(ds: seq<ACMEDomain>) { FirstSlotsAcceptable(ds, |ds|) }

  function Indexes(ds: seq<ACMEDomain>, n: nat): set<int>
    requires n <= |ds|
  {
    set k | 0 <= k < n :: ds[k].index
  }

  lemma NextSlotAcceptable(ds: seq<ACMEDomain>, i: nat)
    requires i < |ds| && FirstSlotsAcceptable(ds, i)
    ensures FirstSlotsAcceptable(ds, i + 1) <==>
            CheckSlot(ds[i], Indexes(ds, i)) == None
    ensures Indexes(ds, i + 1) == Indexes(ds, i) + {ds[i].index}
    ensures FirstSlotsAcceptable(ds, |ds|) ==> FirstSlotsAcceptable(ds, i + 1)
  {
    forall k | 0 <= k < i ensures ds[k].index in Indexes(ds, i) { }
  }

  /** Why a slot cannot be sent after slots of the indexes `seen`, if it cannot. */
  function CheckSlot(domain: ACMEDomain, seen: set<int>): Option<Refusal> {
    if domain.index < 0 || domain.index > MAX_SLOT then Some(IndexOutOfRange)
    else if domain.domain == "" then Some(MissingDomain)
    else if domain.index in seen then Some(GivenTwice)
    else None
  }

  /** `why` is what is wrong with the first slot that cannot be sent. */
  ghost predicate FirstOffence(ds: seq<ACMEDomain>, why: Refusal) {
    exists i | 0 <= i < |ds| :: FirstSlotsAcceptable(ds, i) && CheckSlot(ds[i], Indexes(ds, i)) == Some(why)
  }

  /** Slot `i` is the first that cannot be sent, and `why` is the first thing wrong with it: its index, else
      its missing domain, else that its index was given before. */
  predicate OffenceAt(ds: seq<ACMEDomain>, i: int, why: Refusal) {
    && 0 <= i < |ds|
    && (forall k | 0 <= k < i :: 0 <= ds[k].index <= 5 && ds[k].domain != "")
    && (forall j, k | 0 <= j < k < i :: ds[j].index != ds[k].index)
    && match why
       case IndexOutOfRange => ds[i].index < 0 || ds[i].index > 5
       case MissingDomain => 0 <= ds[i].index <= 5 && ds[i].domain == ""
       case GivenTwice => 0 <= ds[i].index <= 5 && ds[i].domain != "" && exists j :: 0 <= j < i && ds[j].index == ds[i].index
       case _ => false
  }

  lemma FirstOffenceExactly(ds: seq<ACMEDomain>, why: Refusal)
    ensures FirstOffence(ds, why) <==> exists i :: OffenceAt(ds, i, why)
    ensures SlotsAcceptable(ds) <==> forall i, any: Refusal :: !OffenceAt(ds, i, any)
  {
    forall i | 0 <= i < |ds|
      ensures OffenceAt(ds, i, why) <==> FirstSlotsAcceptable(ds, i) && CheckSlot(ds[i], Indexes(ds, i)) == Some(why)
    {
    }
    SomeOffence(ds, |ds|);
  }

  /** Slots that cannot all be sent have a first offence. */
  lemma {:induction false} SomeOffence(ds: seq<ACMEDomain>, n: nat)
    requires n <= |ds|
    ensures FirstSlotsAcceptable(ds, n) <==> forall i, why: Refusal | i < n :: !OffenceAt(ds, i, why)
  {
    if n > 0 {
      SomeOffence(ds, n - 1);
      var i := n - 1;
      if FirstSlotsAcceptable(ds, i) {
        if ds[i].index < 0 || ds[i].index > MAX_SLOT {
          assert OffenceAt(ds, i, IndexOutOfRange);
        } else if ds[i].domain == "" {
          assert OffenceAt(ds, i, MissingDomain);
        } else if exists j :: 0 <= j < i && ds[j].index == ds[i].index {
          assert OffenceAt(ds, i, GivenTwice);
        }
      }
    }
  }

  /** The form with the slots set, or the first reason, in slot order, not to send them. */
  method PrepareSlots(base: Form, ghost written: seq<Entry>, ghost extra: Form, ds: seq<ACMEDomain>)
    returns (r: Prepared)
    requires base == extra + Overlay(written)
    ensures r.Sends? <==> SlotsAcceptable(ds)
    ensures r.Sends? ==> r.form == extra + Overlay(written + SlotEntries(ds))
    ensures r.Refused? ==> FirstOffence(ds, r.why)
  {
    hide SlotEntries, Overlay, CheckSlot, FirstSlotsAcceptable, Indexes, FirstOffence;
    var form := base;
    var seen: set<int> := {};
    ghost var done := written;
    NoSlots(ds);
    assert written + [] == written;
    for i := 0 to |ds|
      invariant seen == Indexes(ds, i)
      invariant FirstSlotsAcceptable(ds, i)
      invariant done == written + SlotEntries(ds[..i])
      invariant form == extra + Overlay(done)
    {
      NextSlotAcceptable(ds, i);
      var problem := CheckSlot(ds[i], seen);
      if problem.Some? {
        Offends(ds, i, problem.value);
        return Refused(problem.value);
      }
      seen := seen + {ds[i].index};
      form, done := SetSlot(form, done, extra, ds[i]);
      assert done == written + SlotEntries(ds[..i + 1]) by { NextSlot(ds, i); }
    }
    assert ds[..|ds|] == ds;
    return Sends(form);
  }

  lemma NoSlots(ds: seq<ACMEDomain>)
    ensures SlotEntries(ds[..0]) == [] && FirstSlotsAcceptable(ds, 0) && Indexes(ds, 0) == {}
  {
  }

  lemma Offends(ds: seq<ACMEDomain>, i: nat, why: Refusal)
    requires i < |ds| && FirstSlotsAcceptable(ds, i) && CheckSlot(ds[i], Indexes(ds, i)) == Some(why)
    ensures FirstOffence(ds, why)
  {
  }

  method SetSlot(base: Form, ghost written: seq<Entry>, ghost extra: Form, d: ACMEDomain)
    returns (form: Form, ghost now: seq<Entry>)
    requires base == extra + Overlay(written)
    ensures now == written + SlotEntries([d])
    ensures form == extra + Overlay(now)
  {
    form, now := SetEntry(base, written, extra, SlotKey(d.index), EncodeACMEDomain(d));
    assert [d][..0] == [];
  }

  lemma NextSlot(ds: seq<ACMEDomain>, i: nat)
    requires i < |ds|
    ensures SlotEntries(ds[..i + 1]) == SlotEntries(ds[..i]) + SlotEntries([ds[i]])
  {
    assert [ds[i]][..0] == [];
    assert ds[..i + 1][..i] == ds[..i];
  }

  /** Service.SetNodeConfig up to the send: everything is checked before anything is sent. */
  method PrepareUpdate(node: string, update: Option<Update>) returns (r: Prepared)
    ensures r.Sends? <==> update.Some? && node != "" && Acceptable(update.value)
    ensures r.Sends? ==> r.form == FormOf(update.value)
    ensures r == Refused(NilUpdate) <==> update.None?
    ensures r == Refused(MissingNode) <==> update.Some? && node == ""
    ensures r == Refused(EmptyACME) <==> update.Some? && node != "" && update.value.acme == Some(NO_ACME)
    ensures r.Refused? && update.Some? && node != "" && update.value.acme != Some(NO_ACME) ==>
              FirstOffence(update.value.domains, r.why)
  {
    if update.None? {
      return Refused(NilUpdate);
    }
    var u := update.value;
    if node == "" {
      return Refused(MissingNode);
    }
    if u.acme.Some? {
      EncodesEmpty(u.acme.value);
      if EncodeNodeACME(u.acme.value) == "" {
        return Refused(EmptyACME);
      }
    }
    var form := SetACME(u);
    r := PrepareSlots(form, ACMEEntries(u), u.extra, u.domains);
    if r.Refused? {
      return;
    }
    form := SetGuards(u, r.form);
    r := Sends(form);
  }

  method SetACME(u: Update) returns (form: Form)
    ensures form == u.extra + Overlay(ACMEEntries(u))
  {
    form := u.extra;
    if u.acme.Some? {
      ghost var written: seq<Entry>;
      form, written := SetEntry(form, [], u.extra, "acme", EncodeNodeACME(u.acme.value));
      assert ACMEEntries(u) == [] + [("acme", EncodeNodeACME(u.acme.value))];
    }
  }

  method SetGuards(u: Update, base: Form) returns (form: Form)
    requires base == u.extra + Overlay(ACMEEntries(u) + SlotEntries(u.domains))
    ensures form == FormOf(u)
  {
    form := base;
    ghost var written := ACMEEntries(u) + SlotEntries(u.domains);
    if |u.deletes| > 0 {
      form, written := SetEntry(form, written, u.extra, "delete", Join(u.deletes, ','));
    }
    if u.digest != "" {
      form, written := SetEntry(form, written, u.extra, "digest", u.digest);
    }
    assert written == Entries(u);
  }

  method SetEntry(base: Form, ghost written: seq<Entry>, ghost extra: Form, key: string, value: string)
    returns (form: Form, ghost now: seq<Entry>)
    requires base == extra + Overlay(written)
    ensures now == written + [(key, value)]
    ensures form == extra + Overlay(now)
  {
    OverlaySet(extra, written, (key, value));
    form, now := base[key := value], written + [(key, value)];
  }
}
