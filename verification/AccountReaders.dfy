/** The two readers of the legacy domain list in an account string, the SDK's and the mock's, on every
    string. */
module AccountReaders {
  import opened Pieces
  import opened PropertyStrings
  import opened MockNode
  import opened Strings

  /** A part keyed with the domain list, and one whose key is spelled just so. */
  predicate NamesDomains(part: string) {
    var cut := CutAt(part, '=');
    cut.Found? && Trim(cut.before) == "domains"
  }

  predicate Spelled(part: string) { HasPrefix(Trim(part), Keyed("domains", "")) }

  /** The items of a part's list. */
  function ItemsOf(part: string): seq<string> {
    if NamesDomains(part) then Clean(Split(Trim(CutAt(part, '=').after), ';')) else []
  }

  lemma SpelledNames(part: string)
    requires Spelled(part)
    ensures NamesDomains(part)
    ensures Trim(CutAt(part, '=').after) == Trim(Trim(part)[|"domains"| + 1..])
  {
    var key := "domains";
    KeysAreWords();
    WordIsPlain(key);
    KeyedPrefix(Trim(part), key);
    CutTrim(part, '=');
  }

  /** The mock splits the list as it finds it, the SDK trims it first; the items are the same. */
  lemma SpelledItemsRead(part: string)
    ensures Clean(LegacyItems(part)) == if Spelled(part) then ItemsOf(part) else []
  {
    hide Trim, Split, Clean, CutAt;
    CleanNone();
    if Spelled(part) {
      SpelledNames(part);
      var rest := Trim(part)[|"domains"| + 1..];
      CleanTrimList(rest, ';');
    }
  }

  /** The items of all parts keyed with the list: what the SDK reads. */
  function AllItems(parts: seq<string>): seq<string> {
    if parts == [] then [] else AllItems(parts[..|parts| - 1]) + ItemsOf(parts[|parts| - 1])
  }

  /** The items of those spelled just so: what the mock reads. */
  function SpelledItems(parts: seq<string>): seq<string> {
    if parts == [] then []
    else
      var last := parts[|parts| - 1];
      SpelledItems(parts[..|parts| - 1]) + if Spelled(last) then ItemsOf(last) else []
  }

  lemma PartDomains(out: NodeACME, part: string)
    ensures NodeACMEPart(out, part).domains == out.domains + ItemsOf(part)
  {
    hide Trim, Split, Clean, CutAt;
    KeysDiffer();
  }

  lemma KeysDiffer()
    ensures "account" != "domains"
  {
  }

  lemma {:induction false} SDKReadsAll(parts: seq<string>)
    ensures NodeACMEParts(parts).domains == AllItems(parts)
  {
    if parts != [] {
      hide NodeACMEPart, ItemsOf;
      SDKReadsAll(parts[..|parts| - 1]);
      PartDomains(NodeACMEParts(parts[..|parts| - 1]), parts[|parts| - 1]);
    }
  }

  lemma {:induction false} MockReadsSpelled(parts: seq<string>)
    ensures Clean(LegacyNames(parts)) == SpelledItems(parts)
  {
    if parts == [] {
      CleanNone();
    } else {
      hide Clean, LegacyItems, ItemsOf, Spelled;
      var init, last := parts[..|parts| - 1], parts[|parts| - 1];
      MockReadsSpelled(init);
      CleanAppend(LegacyNames(init), LegacyItems(last));
      SpelledItemsRead(last);
    }
  }

  /** A part the SDK reads and the mock does not yields no item. */
  predicate Harmless(part: string) { NamesDomains(part) && !Spelled(part) ==> ItemsOf(part) == [] }

  predicate AllHarmless(parts: seq<string>) { forall k | 0 <= k < |parts| :: Harmless(parts[k]) }

  lemma AllHarmlessNext(parts: seq<string>)
    requires parts != []
    ensures AllHarmless(parts) <==> AllHarmless(parts[..|parts| - 1]) && Harmless(parts[|parts| - 1])
  {
    hide Harmless;
  }

  lemma {:induction false} SpelledAgainstAll(parts: seq<string>)
    ensures |SpelledItems(parts)| <= |AllItems(parts)|
    ensures |SpelledItems(parts)| == |AllItems(parts)| <==> AllHarmless(parts)
    ensures AllHarmless(parts) ==> SpelledItems(parts) == AllItems(parts)
  {
    if parts != [] {
      hide NamesDomains, Spelled, AllHarmless;
      SpelledAgainstAll(parts[..|parts| - 1]);
      AllHarmlessNext(parts);
      UnnamedHasNone(parts[|parts| - 1]);
    } else {
      assert AllHarmless(parts);
    }
  }

  lemma UnnamedHasNone(part: string)
    ensures !NamesDomains(part) ==> ItemsOf(part) == []
  {
  }

  /** Both readers take the same list of domains. */
  predicate AccountReadersAgree(s: string) { Clean(LegacyNames(Split(s, ','))) == ParsedNodeACME(s).domains }

  /** They do if and only if every part keyed with the list, but not spelled just so, is without items. */
  lemma AccountAgreesExactly(s: string)
    ensures AccountReadersAgree(s) <==> AllHarmless(Split(s, ','))
  {
    hide Clean, Split, LegacyNames, NodeACMEParts, AllHarmless, SpelledItems, AllItems;
    MockReadsSpelled(Split(s, ','));
    SDKReadsAll(Split(s, ','));
    SpelledAgainstAll(Split(s, ','));
  }
}
