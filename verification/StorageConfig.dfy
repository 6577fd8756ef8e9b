/** The mock's storage.cfg: datastore records, the order-free update, and the digest that
    guards concurrent edits. */
module StorageConfig {
  import opened Strings
  import opened Forms
  import opened Sorting

  // ---- list-valued options as sets ----

  /** The trimmed, non-empty items of a comma-separated list. */
  function Items(csv: string): set<string> { Elements(Clean(Split(csv, ','))) }

  /** The one spelling of the list's set. */
  ghost function Normalized(csv: string): string { Join(Listing(Items(csv)), ',') }

  method NormalizeSet(csv: string) returns (r: string)
    ensures r == Normalized(csv)
  {
    if csv == "" {
      assert Split("", ',') == [""];
      assert Clean([""]) == Clean([""][..0]) + [];
      assert Listing({}) == [];
      return "";
    }
    var seen := CollectItems(Split(csv, ','));
    var items: seq<string> := [];
    var todo := seen;
    while todo != {}
      invariant todo <= seen
      invariant forall item :: item in items <==> item in seen && item !in todo
      invariant Distinct(items)
      decreases todo
    {
      var item :| item in todo;
      todo := todo - {item};
      items := items + [item];
    }
    SortDistinct(items);
    assert Elements(items) == seen;
    ListingIs(SortStrings(items));
    r := Join(SortStrings(items), ',');
  }

  method CollectItems(parts: seq<string>) returns (seen: set<string>)
    ensures seen == Elements(Clean(parts))
  {
    hide Clean, Trim;
    seen := {};
    CleanNone();
    for i := 0 to |parts|
      invariant seen == Elements(Clean(parts[..i]))
    {
      CleanNext(parts, i);
      var item := Trim(parts[i]);
      if item != "" {
        seen := seen + {item};
      }
    }
    assert parts[..|parts|] == parts;
  }

  lemma ItemsPlain(csv: string)
    ensures forall item | item in Items(csv) :: item != "" && Trimmed(item) && ',' !in item
  {
    CleanChars(Split(csv, ','), ',');
  }

  /** Splitting the spelling of a set of plain items gives the set back. */
  lemma ItemsOfListing(items: set<string>)
    requires forall item | item in items :: item != "" && Trimmed(item) && ',' !in item
    ensures Items(Join(Listing(items), ',')) == items
  {
    var xs := Listing(items);
    assert forall k | 0 <= k < |xs| :: xs[k] in Elements(xs);
    if xs == [] {
      assert Split("", ',') == [""] && [""][..0] == [];
      NoElements(xs);
    } else {
      SplitJoin(xs, ',');
      CleanFixed(xs);
    }
  }

  /** The normal form keeps the set, and normalising it again changes nothing. */
  lemma NormalizedIdempotent(csv: string)
    ensures Items(Normalized(csv)) == Items(csv)
    ensures Normalized(Normalized(csv)) == Normalized(csv)
  {
    ItemsPlain(csv);
    ItemsOfListing(Items(csv));
  }

  /** Two lists have one normal form exactly when they hold the same items. */
  lemma NormalizedCanonical(a: string, b: string)
    ensures Normalized(a) == Normalized(b) <==> Items(a) == Items(b)
  {
    NormalizedIdempotent(a);
    NormalizedIdempotent(b);
  }

  /** A list the SDK joins is read back as the set of its trimmed, non-empty items, whatever
      the order it was joined in. */
  lemma JoinedItems(items: seq<string>)
    requires |items| > 0 && forall k | 0 <= k < |items| :: ',' !in items[k]
    ensures Normalized(Join(items, ',')) == Join(Listing(Elements(Clean(items))), ',')
  {
    SplitJoin(items, ',');
  }

  // ---- records ----

  datatype Record = Record(storage: string, typ: string, content: string, path: string, pool: string,
                           nodes: string, shared: bool, disable: bool, extra: map<string, string>)

  /** The keys a record has a field for. */
  const TYPED: set<string> := {"content", "nodes", "path", "pool", "shared", "disable"}

  function FreshRecord(id: string, typ: string): Record { Record(id, typ, "", "", "", "", false, false, map[]) }

  /** applyStorageForm: one submitted key. */
  method ApplyKey(rec: Record, key: string, val: string) returns (r: Record)
    ensures r == Overlaid(rec, {key}, map[key := val])
  {
    match key {
      case "content" =>
        var v := NormalizeSet(val);
        r := rec.(content := v);
      case "nodes" =>
        var v := NormalizeSet(val);
        r := rec.(nodes := v);
      case "path" => r := rec.(path := val);
      case "pool" => r := rec.(pool := val);
      case "shared" => r := rec.(shared := val == "1");
      case "disable" => r := rec.(disable := val == "1");
      case _ => r := rec.(extra := rec.extra[key := val]);
    }
    ApplyKeyExtra(rec.extra, key, val);
  }

  lemma ApplyKeyExtra(extra: Form, key: string, val: string)
    ensures key in TYPED ==> extra + Restricted(map[key := val], {key} - TYPED) == extra
    ensures key !in TYPED ==> extra + Restricted(map[key := val], {key} - TYPED) == extra[key := val]
  {
  }

  function Restricted(form: Form, keys: set<string>): Form { map key | key in keys && key in form :: form[key] }

  /** clearStorageKey: one key of the delete list. */
  function ClearKey(rec: Record, key: string): Record {
    match key
    case "content" => rec.(content := "")
    case "nodes" => rec.(nodes := "")
    case "path" => rec.(path := "")
    case "pool" => rec.(pool := "")
    case "shared" => rec.(shared := false)
    case "disable" => rec.(disable := false)
    case _ => rec.(extra := rec.extra - {key})
  }

  /** The record after the keys `keys` of the form were set, in no particular order. */
  ghost function Overlaid(rec: Record, keys: set<string>, form: Form): Record
    requires keys <= form.Keys
  {
    OverlaidFields(rec, keys, form).(extra := rec.extra + Restricted(form, keys - TYPED))
  }

  ghost function OverlaidFields(rec: Record, keys: set<string>, form: Form): Record
    requires keys <= form.Keys
  {
    rec.(content := if "content" in keys then Normalized(form["content"]) else rec.content,
         nodes := if "nodes" in keys then Normalized(form["nodes"]) else rec.nodes,
         path := if "path" in keys then form["path"] else rec.path,
         pool := if "pool" in keys then form["pool"] else rec.pool,
         shared := if "shared" in keys then form["shared"] == "1" else rec.shared,
         disable := if "disable" in keys then form["disable"] == "1" else rec.disable)
  }

  /** The record after the keys `keys` were cleared, in no particular order. */
  function Cleared(rec: Record, keys: set<string>): Record {
    rec.(content := if "content" in keys then "" else rec.content,
         nodes := if "nodes" in keys then "" else rec.nodes,
         path := if "path" in keys then "" else rec.path,
         pool := if "pool" in keys then "" else rec.pool,
         shared := rec.shared && "shared" !in keys,
         disable := rec.disable && "disable" !in keys,
         extra := rec.extra - (keys - TYPED))
  }

  method ApplyKeys(rec: Record, form: Form, skip: set<string>) returns (r: Record)
    ensures r == Overlaid(rec, form.Keys - skip, form)
  {
    r := rec;
    var todo := form.Keys;
    assert form.Keys - todo - skip == {};
    assert rec.extra + map[] == rec.extra;
    while todo != {}
      invariant todo <= form.Keys
      invariant r == Overlaid(rec, form.Keys - todo - skip, form)
      decreases todo
    {
      var key :| key in todo;
      ghost var done := form.Keys - todo - skip;
      todo := todo - {key};
      if key !in skip {
        r := ApplyKey(r, key, form[key]);
        OverlaidStep(rec, done, form, key);
        assert form.Keys - todo - skip == done + {key};
      } else {
        assert form.Keys - todo - skip == done;
      }
    }
    assert form.Keys - todo - skip == form.Keys - skip;
  }

  lemma OverlaidStep(rec: Record, done: set<string>, form: Form, key: string)
    requires done <= form.Keys && key in form
    ensures Overlaid(Overlaid(rec, done, form), {key}, map[key := form[key]]) == Overlaid(rec, done + {key}, form)
  {
    RestrictedStep(rec.extra, form, done - TYPED, {key} - TYPED, key);
    assert (done + {key}) - TYPED == (done - TYPED) + ({key} - TYPED);
    OverlaidFieldsStep(rec, done, form, key);
  }

  lemma RestrictedStep(extra: Form, form: Form, done: set<string>, one: set<string>, key: string)
    requires key in form && one <= {key}
    ensures (extra + Restricted(form, done)) + Restricted(map[key := form[key]], one) == extra + Restricted(form, done + one)
  {
  }

  lemma OverlaidFieldsStep(rec: Record, done: set<string>, form: Form, key: string)
    requires done <= form.Keys && key in form
    ensures OverlaidFields(OverlaidFields(rec, done, form), {key}, map[key := form[key]])
         == OverlaidFields(rec, done + {key}, form)
  {
    assert forall k :: k in {key} ==> map[key := form[key]][k] == form[k];
  }

  method ClearKeys(rec: Record, list: seq<string>) returns (r: Record)
    ensures r == Cleared(rec, TrimmedItems(list))
  {
    r := rec;
    for i := 0 to |list|
      invariant r == Cleared(rec, TrimmedItems(list[..i]))
    {
      NextTrimmed(list, i);
      ClearedStep(rec, TrimmedItems(list[..i]), Trim(list[i]));
      r := ClearKey(r, Trim(list[i]));
    }
    assert list[..|list|] == list;
  }

  lemma ClearedStep(rec: Record, keys: set<string>, key: string)
    ensures ClearKey(Cleared(rec, keys), key) == Cleared(rec, keys + {key})
  {
    assert (keys + {key}) - TYPED == (keys - TYPED) + ({key} - TYPED);
    assert Cleared(rec, keys).extra - ({key} - TYPED) == Cleared(rec, keys + {key}).extra;
    if key in TYPED {
      assert {key} - TYPED == {};
    } else {
      assert {key} - TYPED == {key};
    }
  }
}
