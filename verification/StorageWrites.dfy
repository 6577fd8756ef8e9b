/** What the SDK sends for a datastore update, and what the mock then stores. */
module StorageWrites {
  import opened Strings
  import opened Forms
  import opened Sorting
  import opened StorageConfig
  import opened StorageServer

  /** An update: the flat fields that are set, the digest among them; the lists; and the
      unmodelled parameters. */
  datatype Edit = Edit(fields: Form, content: seq<string>, nodes: seq<string>, deletes: seq<string>, extra: Form)

  // ---- encoding ----

  /** The list sent under a key; empty when there is none. */
  function ListOf(e: Edit, key: string): seq<string> {
    match key
    case "content" => e.content
    case "nodes" => e.nodes
    case "delete" => e.deletes
    case _ => []
  }

  /** What is sent under a key: a list that is not empty, or else an unmodelled parameter, or else a
      field; an empty list is not sent. */
  predicate EncodedAt(e: Edit, form: Form, key: string) {
    if ListOf(e, key) != [] then key in form && form[key] == Join(ListOf(e, key), ',')
    else if key in e.extra then key in form && form[key] == e.extra[key]
    else if key in e.fields then key in form && form[key] == e.fields[key]
    else key !in form
  }

  /** `form` is the form of the edit. */
  ghost predicate Encodes(e: Edit, form: Form) { forall key :: EncodedAt(e, form, key) }

  function WithList(form: Form, key: string, items: seq<string>): Form {
    if items == [] then form else form[key := Join(items, ',')]
  }

  method JoinCSV(form: Form, key: string, items: seq<string>) returns (r: Form)
    ensures r == WithList(form, key, items)
  {
    r := form;
    if |items| > 0 {
      r := r[key := Join(items, ',')];
    }
  }

  /** encodeDatastoreUpdate.  An unmodelled parameter is what is sent under its key, unless a list
      that differs from it is. */
  method EncodeUpdate(e: Edit) returns (form: Form)
    ensures Encodes(e, form)
    ensures forall key | key in e.extra ::
              key in form && (form[key] == e.extra[key] <==> ListOf(e, key) == [] || Join(ListOf(e, key), ',') == e.extra[key])
  {
    hide WithList;
    form := e.fields + e.extra;
    form := JoinCSV(form, "content", e.content);
    form := JoinCSV(form, "nodes", e.nodes);
    form := JoinCSV(form, "delete", e.deletes);
    ListKeys(e);
    ListsSet(e, "content", "nodes", "delete");
    assert forall key | key in e.extra :: EncodedAt(e, form, key);
  }

  lemma WithListAt(form: Form, at: string, items: seq<string>, key: string)
    ensures var r := WithList(form, at, items);
            if key == at && items != [] then key in r && r[key] == Join(items, ',')
            else (key in r <==> key in form) && (key in r ==> r[key] == form[key])
  {
    hide Join;
  }

  lemma ListsSet(e: Edit, first: string, second: string, third: string)
    requires first != second && first != third && second != third
    requires forall key | ListOf(e, key) != [] :: key == first || key == second || key == third
    ensures Encodes(e, WithList(WithList(WithList(e.fields + e.extra, first, ListOf(e, first)),
                                         second, ListOf(e, second)), third, ListOf(e, third)))
  {
    hide ListOf, Join, WithList;
    var form0 := e.fields + e.extra;
    var form1 := WithList(form0, first, ListOf(e, first));
    var form2 := WithList(form1, second, ListOf(e, second));
    var form3 := WithList(form2, third, ListOf(e, third));
    forall key ensures EncodedAt(e, form3, key) {
      WithListAt(form0, first, ListOf(e, first), key);
      WithListAt(form1, second, ListOf(e, second), key);
      WithListAt(form2, third, ListOf(e, third), key);
    }
  }

  /** What the form holds, key by key: each list that is not empty, joined; every other unmodelled parameter;
      every other field; and nothing more. */
  lemma EncodesExactly(e: Edit, form: Form, key: string)
    requires Encodes(e, form)
    ensures e.content != [] ==> "content" in form && form["content"] == Join(e.content, ',')
    ensures e.nodes != [] ==> "nodes" in form && form["nodes"] == Join(e.nodes, ',')
    ensures e.deletes != [] ==> "delete" in form && form["delete"] == Join(e.deletes, ',')
    ensures !(key == "content" && e.content != []) && !(key == "nodes" && e.nodes != []) && !(key == "delete" && e.deletes != []) ==>
              && (key in form <==> key in e.extra || key in e.fields)
              && (key in e.extra ==> form[key] == e.extra[key])
              && (key in e.fields && key !in e.extra ==> form[key] == e.fields[key])
  {
    ListKeys(e);
    assert EncodedAt(e, form, "content") && EncodedAt(e, form, "nodes") && EncodedAt(e, form, "delete") && EncodedAt(e, form, key);
  }

  /** Nothing is sent exactly when nothing is set. */
  lemma NothingSent(e: Edit)
    ensures Encodes(e, map[]) <==> e == Edit(map[], [], [], [], map[])
  {
    if Encodes(e, map[]) {
      ListKeys(e);
      var none: Form := map[];
      forall key ensures key !in e.fields && key !in e.extra {
        assert EncodedAt(e, none, key);
      }
      assert EncodedAt(e, none, "content") && EncodedAt(e, none, "nodes") && EncodedAt(e, none, "delete");
      assert e.fields == map[] && e.extra == map[];
    }
  }

  lemma ListKeys(e: Edit)
    ensures ListOf(e, "content") == e.content && ListOf(e, "nodes") == e.nodes && ListOf(e, "delete") == e.deletes
    ensures forall key | ListOf(e, key) != [] :: key == "content" || key == "nodes" || key == "delete"
  {
  }

  // ---- stored and read back ----

  lemma NotGuards(key: string)
    requires key == "content" || key == "nodes"
    ensures key != "delete" && key != "digest"
  {
  }

  /** A list the SDK sends is stored in the normal form of its joined text: where no item holds a
      comma, as the set of its trimmed, non-empty items, in one spelling. */
  lemma ListStored(rec: Record, e: Edit, form: Form, key: string)
    requires Encodes(e, form) && (key == "content" || key == "nodes") && ListOf(e, key) != []
    ensures Get(Updated(rec, form), key) == Normalized(Join(ListOf(e, key), ','))
    ensures (forall k | 0 <= k < |ListOf(e, key)| :: ',' !in ListOf(e, key)[k]) ==>
              Get(Updated(rec, form), key) == Join(Listing(Elements(Clean(ListOf(e, key)))), ',')
  {
    hide ListOf, Get, Updated, Join, Clean, Normalized;
    NotGuards(key);
    assert EncodedAt(e, form, key);
    UpdateKeyByKey(rec, form, key);
    if forall k | 0 <= k < |ListOf(e, key)| :: ',' !in ListOf(e, key)[k] {
      JoinedItems(ListOf(e, key));
    }
  }

  lemma CleanElements(items: seq<string>)
    ensures Elements(Clean(items)) == Elements(items) <==> forall k | 0 <= k < |items| :: items[k] != "" && Trimmed(items[k])
  {
    if forall k | 0 <= k < |items| :: items[k] != "" && Trimmed(items[k]) {
      CleanFixed(items);
    }
    if Elements(Clean(items)) == Elements(items) {
      forall k | 0 <= k < |items| ensures items[k] != "" && Trimmed(items[k]) {
        assert items[k] in Elements(items);
      }
    }
  }

  /** An item that comes back as it was sent. */
  predicate PlainListItem(item: string) { item != "" && Trimmed(item) && ',' !in item }

  /** The set of a joined list is the list's if and only if every item is plain. */
  lemma JoinedSet(items: seq<string>)
    requires items != []
    ensures Items(Join(items, ',')) == Elements(items) <==> forall k | 0 <= k < |items| :: PlainListItem(items[k])
  {
    if forall k | 0 <= k < |items| :: PlainListItem(items[k]) {
      SplitJoin(items, ',');
      CleanElements(items);
    }
    if Items(Join(items, ',')) == Elements(items) {
      ItemsPlain(Join(items, ','));
      forall k | 0 <= k < |items| ensures PlainListItem(items[k]) {
        assert items[k] in Elements(items);
      }
    }
  }

  /** Read back as a set it is the list that was sent, if and only if every item was trimmed, not
      empty and free of commas. */
  lemma ListReadsBack(rec: Record, e: Edit, form: Form, key: string)
    requires Encodes(e, form) && (key == "content" || key == "nodes") && ListOf(e, key) != []
    ensures Items(Get(Updated(rec, form), key)) == Elements(ListOf(e, key)) <==>
            forall k | 0 <= k < |ListOf(e, key)| :: PlainListItem(ListOf(e, key)[k])
  {
    hide ListOf, Get, Updated, Join, Items, Normalized, PlainListItem;
    ListStored(rec, e, form, key);
    NormalizedIdempotent(Join(ListOf(e, key), ','));
    JoinedSet(ListOf(e, key));
  }

  /** The same edit but for the order and spelling of its lists. */
  ghost predicate SameLists(e1: Edit, e2: Edit) {
    && e1.fields == e2.fields && e1.extra == e2.extra
    && forall key :: (ListOf(e1, key) == [] <==> ListOf(e2, key) == [])
                     && Items(Join(ListOf(e1, key), ',')) == Items(Join(ListOf(e2, key), ','))
  }

  lemma {:induction false} CleanTrimmed(items: seq<string>, item: string)
    ensures item in Clean(items) <==> item != "" && item in TrimmedItems(items)
  {
    if items != [] {
      CleanTrimmed(items[..|items| - 1], item);
      NextTrimmed(items, |items| - 1);
      assert items[..|items|] == items;
    }
  }

  /** The keys an update deletes are the items of its list. */
  lemma DeletedAreItems(form: Form, key: string)
    requires key != ""
    ensures key in DeleteList(form) <==> key in Items(FormValue(form, "delete"))
  {
    CleanTrimmed(Split(FormValue(form, "delete"), ','), key);
    if FormValue(form, "delete") == "" {
      assert Split("", ',') == [""] && TrimmedItems([""]) == {""};
    }
  }

  lemma SameDeletes(e1: Edit, form1: Form, e2: Edit, form2: Form, key: string)
    requires SameLists(e1, e2) && Encodes(e1, form1) && Encodes(e2, form2) && key != ""
    ensures key in DeleteList(form1) <==> key in DeleteList(form2)
  {
    hide ListOf, Join, Items, DeleteList;
    DeletedAreItems(form1, key);
    DeletedAreItems(form2, key);
    assert EncodedAt(e1, form1, "delete") && EncodedAt(e2, form2, "delete");
    assert ListOf(e1, "delete") == [] <==> ListOf(e2, "delete") == [];
  }

  /** Such edits leave the same value under every key. */
  lemma ListOrderIrrelevant(rec: Record, e1: Edit, form1: Form, e2: Edit, form2: Form, key: string)
    requires SameLists(e1, e2) && Encodes(e1, form1) && Encodes(e2, form2)
    requires key != "" && key != "delete" && key != "digest"
    ensures Get(Updated(rec, form1), key) == Get(Updated(rec, form2), key)
  {
    UpdateKeyByKey(rec, form1, key);
    UpdateKeyByKey(rec, form2, key);
    SameStored(e1, form1, e2, form2, key);
    SameDeletes(e1, form1, e2, form2, key);
  }

  lemma SameStored(e1: Edit, form1: Form, e2: Edit, form2: Form, key: string)
    requires SameLists(e1, e2) && Encodes(e1, form1) && Encodes(e2, form2)
    requires key != "delete" && key != "digest"
    ensures key in form1 <==> key in form2
    ensures key in form1 ==> StoredAs(key, form1[key]) == StoredAs(key, form2[key])
  {
    hide ListOf, Join, Items, Normalized;
    assert EncodedAt(e1, form1, key) && EncodedAt(e2, form2, key);
    if ListOf(e1, key) != [] {
      ListKeys(e1);
      NormalizedCanonical(form1[key], form2[key]);
    }
  }
}
