/** What each handler of the mock's datastores does to the stored entries, field by field, and what
    reads report afterwards. */
module StorageEffects {
  import opened Strings
  import opened Forms
  import opened Sorting
  import opened StorageConfig
  import opened StorageServer

  // ---- stored values ----

  /** The text lists the trimmed, non-empty items of the list, each once, in ascending order. */
  ghost predicate SetListing(csv: string, text: string) {
    exists xs :: text == Join(xs, ',') && Ascending(xs) && AreItems(xs, csv)
  }

  predicate AreItems(xs: seq<string>, csv: string) {
    && (forall i | 0 <= i < |xs| :: IsItem(xs[i], csv))
    && (forall k | 0 <= k < |Split(csv, ',')| :: Trim(Split(csv, ',')[k]) == "" || Trim(Split(csv, ',')[k]) in xs)
  }

  predicate IsItem(item: string, csv: string) {
    item != "" && exists k :: 0 <= k < |Split(csv, ',')| && Trim(Split(csv, ',')[k]) == item
  }

  lemma {:induction false} CleanHolds(items: seq<string>, x: string)
    ensures x in Clean(items) <==> x != "" && exists k :: 0 <= k < |items| && Trim(items[k]) == x
  {
    hide Trim;
    if items != [] {
      var init, last := items[..|items| - 1], items[|items| - 1];
      CleanHolds(init, x);
      CleanNext(items, |items| - 1);
      assert items[..|items| - 1 + 1] == items;
      assert forall k | 0 <= k < |init| :: init[k] == items[k];
      if k :| 0 <= k < |items| && Trim(items[k]) == x && k < |init| {
        assert Trim(init[k]) == x;
      }
    }
  }

  lemma ItemsExactly(csv: string, x: string)
    ensures x in Items(csv) <==> IsItem(x, csv)
  {
    CleanHolds(Split(csv, ','), x);
  }

  /** Normalising gives the one text that lists the set. */
  lemma NormalizedExactly(csv: string, text: string)
    ensures SetListing(csv, text) <==> text == Normalized(csv)
  {
    hide Split, Join, Trim;
    forall xs ensures AreItems(xs, csv) <==> Elements(xs) == Items(csv) {
      AreItemsIs(xs, csv);
    }
    var listing := Listing(Items(csv));
    AscendingIs(listing);
    forall xs | Ascending(xs) && Elements(xs) == Items(csv) ensures xs == listing {
      AscendingIs(xs);
      SortedListingUnique(xs, listing);
    }
  }

  lemma AreItemsIs(xs: seq<string>, csv: string)
    ensures AreItems(xs, csv) <==> Elements(xs) == Items(csv)
  {
    hide Split, Trim, Clean, Items;
    forall x ensures x in Items(csv) <==> IsItem(x, csv) {
      ItemsExactly(csv, x);
    }
    if AreItems(xs, csv) {
      forall x ensures x in xs <==> IsItem(x, csv) { }
    }
    if Elements(xs) == Items(csv) {
      forall i | 0 <= i < |xs| ensures IsItem(xs[i], csv) {
        assert xs[i] in Elements(xs);
      }
      forall k | 0 <= k < |Split(csv, ',')| && Trim(Split(csv, ',')[k]) != "" ensures Trim(Split(csv, ',')[k]) in xs {
        assert IsItem(Trim(Split(csv, ',')[k]), csv);
        assert Trim(Split(csv, ',')[k]) in Elements(xs);
      }
    }
  }

  // ---- an update ----

  /** The form's delete list names the key. */
  predicate Deletes(form: Form, key: string) {
    "delete" in form && form["delete"] != ""
    && exists k :: 0 <= k < |Split(form["delete"], ',')| && Trim(Split(form["delete"], ',')[k]) == key
  }

  lemma DeletesIs(form: Form, key: string)
    ensures key in DeleteList(form) <==> Deletes(form, key)
  {
    hide Split, Trim;
  }

  predicate TextAfter(form: Form, key: string, before: string, after: string) {
    after == if key in form then form[key] else if Deletes(form, key) then "" else before
  }

  ghost predicate ListAfter(form: Form, key: string, before: string, after: string) {
    if key in form then SetListing(form[key], after) else after == if Deletes(form, key) then "" else before
  }

  predicate FlagAfter(form: Form, key: string, before: bool, after: bool) {
    after == if key in form then form[key] == "1" else before && !Deletes(form, key)
  }

  /** The keys a record has a field for. */
  predicate HasField(key: string) {
    key == "content" || key == "nodes" || key == "path" || key == "pool" || key == "shared" || key == "disable"
  }

  predicate SameAt(m: map<string, string>, m': map<string, string>, key: string) {
    (key in m <==> key in m') && (key in m ==> m'[key] == m[key])
  }

  predicate ExtraAfter(form: Form, key: string, before: map<string, string>, after: map<string, string>) {
    if key in form && key != "delete" && key != "digest" then key in after && after[key] == form[key]
    else if Deletes(form, key) then key !in after
    else SameAt(before, after, key)
  }

  /** Every field and unmodelled key of an entry after an update: the submitted value, or else nothing if
      it is in the delete list, or else what was there. */
  ghost predicate EntryAfter(form: Form, rec: Record, rec': Record) {
    && rec'.storage == rec.storage && rec'.typ == rec.typ
    && TextAfter(form, "path", rec.path, rec'.path) && TextAfter(form, "pool", rec.pool, rec'.pool)
    && ListAfter(form, "content", rec.content, rec'.content) && ListAfter(form, "nodes", rec.nodes, rec'.nodes)
    && FlagAfter(form, "shared", rec.shared, rec'.shared) && FlagAfter(form, "disable", rec.disable, rec'.disable)
    && (forall key :: if HasField(key) then SameAt(rec.extra, rec'.extra, key) else ExtraAfter(form, key, rec.extra, rec'.extra))
  }

  /** The keys that only a create accepts. */
  predicate CreateOnly(key: string) {
    || key == "type" || key == "path" || key == "export" || key == "share" || key == "target" || key == "portal"
    || key == "vgname" || key == "thinpool" || key == "base" || key == "datastore" || key == "iscsiprovider"
    || key == "authsupported"
  }

  lemma FixedExactly(form: Form)
    ensures FIXED !! form.Keys <==> forall key | key in form :: !CreateOnly(key)
  {
    assert forall key :: key in FIXED <==> CreateOnly(key);
  }

  lemma TypedExactly(key: string)
    ensures key in TYPED <==> HasField(key)
  {
  }

  lemma GuardKeys()
    ensures !HasField("delete") && !HasField("digest") && !HasField("storage") && !HasField("type") && !HasField("mountpoint")
    ensures "delete" != "digest" && "storage" != "type" && "mountpoint" != "storage" && "mountpoint" != "type"
  {
  }

  lemma UpdatedFields(rec: Record, form: Form)
    ensures var rec' := Updated(rec, form);
            && rec'.storage == rec.storage && rec'.typ == rec.typ
            && TextAfter(form, "path", rec.path, rec'.path) && TextAfter(form, "pool", rec.pool, rec'.pool)
            && ListAfter(form, "content", rec.content, rec'.content) && ListAfter(form, "nodes", rec.nodes, rec'.nodes)
            && FlagAfter(form, "shared", rec.shared, rec'.shared) && FlagAfter(form, "disable", rec.disable, rec'.disable)
  {
    hide Deletes, DeleteList, Normalized, SetListing, TYPED;
    forall key ensures key in DeleteList(form) <==> Deletes(form, key) {
      DeletesIs(form, key);
    }
    forall csv ensures SetListing(csv, Normalized(csv)) {
      NormalizedExactly(csv, Normalized(csv));
    }
  }

  lemma UpdatedExtra(rec: Record, form: Form, key: string)
    ensures var rec' := Updated(rec, form);
            if HasField(key) then SameAt(rec.extra, rec'.extra, key) else ExtraAfter(form, key, rec.extra, rec'.extra)
  {
    hide Deletes, DeleteList, Normalized, TYPED, HasField;
    DeletesIs(form, key);
    TypedExactly(key);
  }

  lemma UpdatedExactly(rec: Record, form: Form)
    ensures EntryAfter(form, rec, Updated(rec, form))
  {
    hide Updated, ListAfter, FlagAfter, TextAfter, ExtraAfter, HasField;
    UpdatedFields(rec, form);
    forall key ensures if HasField(key) then SameAt(rec.extra, Updated(rec, form).extra, key)
                       else ExtraAfter(form, key, rec.extra, Updated(rec, form).extra) {
      UpdatedExtra(rec, form, key);
    }
  }

  /** Only the entry `id` changed, with one more write counted. */
  ghost predicate OnlyEntry(c: Config, c': Config, id: string) {
    && c'.version == c.version + 1
    && forall other | other != id :: (other in c'.stores <==> other in c.stores)
                                     && (other in c.stores ==> c'.stores[other] == c.stores[other])
  }

  /** When an update is let through, and what it does: its entry holds what it should field by field, every
      other entry is as before, and the write is counted; refused, it changes nothing. */
  lemma UpdateEffect(c: Config, id: string, form: Form)
    ensures var (c', r) := Apply(c, UpdateOp(id, form));
            && (r.Refused? <==> (exists key :: key in form && CreateOnly(key)) || id !in c.stores
                                || ("digest" in form && form["digest"] != "" && form["digest"] != Digest(c.version)))
            && (r.Refused? ==> c' == c)
            && (r == Refused(404) <==> id !in c.stores && forall key | key in form :: !CreateOnly(key))
            && (!r.Refused? ==>
                  && id in c'.stores && OnlyEntry(c, c', id) && EntryAfter(form, c.stores[id], c'.stores[id])
                  && r == Wrote(c.stores[id].storage, c.stores[id].typ))
  {
    hide Updated, EntryAfter, FIXED, CreateOnly, Digest;
    FixedExactly(form);
    if id in c.stores {
      UpdatedExactly(c.stores[id], form);
    }
  }

  // ---- a create and a delete ----

  /** An entry made from a form: its fields and unmodelled keys are what was submitted, and nothing more
      than the mount point of a ZFS pool that came without one. */
  ghost predicate EntryMade(form: Form, rec: Record) {
    && rec.storage == FormValue(form, "storage") && rec.typ == FormValue(form, "type")
    && rec.path == FormValue(form, "path") && rec.pool == FormValue(form, "pool")
    && SetListing(FormValue(form, "content"), rec.content) && SetListing(FormValue(form, "nodes"), rec.nodes)
    && rec.shared == (FormValue(form, "shared") == "1") && rec.disable == (FormValue(form, "disable") == "1")
    && (forall key :: ExtraMade(form, rec, key))
  }

  predicate ExtraMade(form: Form, rec: Record, key: string) {
    if HasField(key) || key == "storage" || key == "type" then key !in rec.extra
    else if key == "mountpoint" && FormValue(form, "type") == "zfspool" && FormValue(form, "pool") != ""
            && FormValue(form, "mountpoint") == ""
    then key in rec.extra && rec.extra[key] == "/" + FormValue(form, "pool")
    else SameAt(form, rec.extra, key)
  }

  lemma EmptyNormalized()
    ensures Normalized("") == ""
  {
    assert Split("", ',') == [""] && [""][..0] == [];
    assert Listing({}) == [] by { NoElements(Listing({})); }
  }

  lemma CreatedFields(form: Form)
    ensures var rec := Created(form);
            && rec.storage == FormValue(form, "storage") && rec.typ == FormValue(form, "type")
            && rec.path == FormValue(form, "path") && rec.pool == FormValue(form, "pool")
            && rec.content == Normalized(FormValue(form, "content")) && rec.nodes == Normalized(FormValue(form, "nodes"))
            && rec.shared == (FormValue(form, "shared") == "1") && rec.disable == (FormValue(form, "disable") == "1")
  {
    hide Normalized, TYPED;
    EmptyNormalized();
  }

  lemma CreatedExtras(form: Form, key: string)
    ensures ExtraMade(form, Created(form), key)
  {
    hide Normalized, TYPED, HasField;
    TypedExactly(key);
    TypedExactly("mountpoint");
    GuardKeys();
    PoolIsField();
  }

  lemma PoolIsField()
    ensures HasField("pool") && "pool" != "storage" && "pool" != "type"
  {
  }

  /** When a create is let through, and what it does. */
  lemma CreateEffect(c: Config, form: Form)
    ensures var (c', r) := Apply(c, CreateOp(form));
            var id := FormValue(form, "storage");
            && (r.Refused? <==> id == "" || FormValue(form, "type") == "" || id in c.stores)
            && (r.Refused? ==> c' == c && r.status == 400)
            && (!r.Refused? ==>
                  && id in c'.stores && OnlyEntry(c, c', id) && EntryMade(form, c'.stores[id])
                  && r == Wrote(id, FormValue(form, "type")))
  {
    hide Created, ExtraMade;
    CreatedFields(form);
    NormalizedExactly(FormValue(form, "content"), Normalized(FormValue(form, "content")));
    NormalizedExactly(FormValue(form, "nodes"), Normalized(FormValue(form, "nodes")));
    forall key ensures ExtraMade(form, Created(form), key) {
      CreatedExtras(form, key);
    }
    hide Normalized, SetListing;
  }

  /** A delete removes an entry that is there, and that alone. */
  lemma DeleteEffect(c: Config, id: string)
    ensures var (c', r) := Apply(c, DeleteOp(id));
            if id in c.stores then r == Removed && id !in c'.stores && OnlyEntry(c, c', id)
            else r == Refused(404) && c' == c
  {
  }

  // ---- what a read reports ----

  /** The text a field is reported as; nothing is reported for an empty one. */
  function FieldText(rec: Record, digest: string, key: string): string {
    if key == "storage" then rec.storage
    else if key == "type" then rec.typ
    else if key == "digest" then digest
    else if key == "content" then rec.content
    else if key == "nodes" then rec.nodes
    else if key == "path" then rec.path
    else if key == "pool" then rec.pool
    else if key == "shared" then (if rec.shared then "1" else "")
    else if key == "disable" then (if rec.disable then "1" else "")
    else ""
  }

  predicate HoldsText(m: map<string, string>, key: string, text: string) {
    if text == "" then key !in m else key in m && m[key] == text
  }

  lemma MemberLaid(m: map<string, string>, at: string, value: string, key: string)
    ensures var m' := m + Member(at, value);
            if key == at && value != "" then key in m' && m'[key] == value else SameAt(m, m', key)
  {
  }

  lemma TypedMembersExactly(rec: Record, key: string)
    ensures HoldsText(TypedMembers(rec), key, if HasField(key) then FieldText(rec, "", key) else "")
  {
    hide Member;
    var m1 := Member("content", rec.content) + Member("path", rec.path);
    var m2 := m1 + Member("pool", rec.pool);
    var m3 := m2 + Member("nodes", rec.nodes);
    var m4 := m3 + Member("shared", if rec.shared then "1" else "");
    var none: map<string, string> := map[];
    MemberLaid(none, "content", rec.content, key);
    assert none + Member("content", rec.content) == Member("content", rec.content);
    MemberLaid(Member("content", rec.content), "path", rec.path, key);
    MemberLaid(m1, "pool", rec.pool, key);
    MemberLaid(m2, "nodes", rec.nodes, key);
    MemberLaid(m3, "shared", if rec.shared then "1" else "", key);
    MemberLaid(m4, "disable", if rec.disable then "1" else "", key);
  }

  lemma OwnMembersExactly(rec: Record, digest: string, key: string)
    ensures var own := OwnMembers(rec, digest);
            && (key in own <==> FieldText(rec, digest, key) != "" || key == "storage" || key == "type")
            && (key in own ==> own[key] == FieldText(rec, digest, key))
  {
    hide TypedMembers, Member;
    TypedMembersExactly(rec, key);
    MemberLaid(map["storage" := rec.storage, "type" := rec.typ] + TypedMembers(rec), "digest", digest, key);
  }

  /** A read reports an unmodelled key as it is, and otherwise the field of that name, when it holds
      something; name and type always. */
  lemma PayloadExactly(rec: Record, digest: string, key: string)
    ensures var payload := Payload(rec, digest);
            && (key in payload <==> key in rec.extra || FieldText(rec, digest, key) != "" || key == "storage" || key == "type")
            && (key in payload ==> payload[key] == if key in rec.extra then rec.extra[key] else FieldText(rec, digest, key))
  {
    hide OwnMembers, FieldText;
    OwnMembersExactly(rec, digest, key);
  }

  // ---- over whole runs ----

  /** What a read of an entry reports under a key; missing reads as empty. */
  function Reported(c: Config, id: string, key: string): string
    requires id in c.stores
  {
    FormValue(Payload(c.stores[id], Digest(c.version)), key)
  }

  /** The operation neither removes the entry nor writes or deletes the key in it. */
  predicate Untouched(op: Op, id: string, key: string) {
    op != DeleteOp(id) && (op.UpdateOp? && op.id == id ==> key !in op.form && !Deletes(op.form, key))
  }

  lemma ReportedIs(c: Config, id: string, key: string)
    requires id in c.stores
    ensures Reported(c, id, key) ==
            if key in c.stores[id].extra then c.stores[id].extra[key] else FieldText(c.stores[id], Digest(c.version), key)
  {
    hide Payload, FieldText;
    PayloadExactly(c.stores[id], Digest(c.version), key);
  }

  lemma UntouchedEntry(form: Form, rec: Record, rec': Record, digest: string, digest': string, key: string)
    requires EntryAfter(form, rec, rec') && key !in form && !Deletes(form, key) && key != "digest"
    ensures SameAt(rec.extra, rec'.extra, key) && FieldText(rec', digest', key) == FieldText(rec, digest, key)
  {
    hide SetListing, Deletes;
  }

  lemma StepKeepsReport(c: Config, op: Op, id: string, key: string)
    requires id in c.stores && Untouched(op, id, key) && key != "digest"
    ensures var c' := Apply(c, op).0; id in c'.stores && Reported(c', id, key) == Reported(c, id, key)
  {
    hide EntryAfter, EntryMade, Deletes, FieldText, Reported, Apply, Digest, CreateOnly;
    var c' := Apply(c, op).0;
    match op {
      case CreateOp(form) => CreateEffect(c, form);
      case UpdateOp(other, form) => UpdateEffect(c, other, form);
      case DeleteOp(other) => DeleteEffect(c, other);
    }
    ReportedIs(c, id, key);
    ReportedIs(c', id, key);
    if op.UpdateOp? && op.id == id && c' != c {
      UntouchedEntry(op.form, c.stores[id], c'.stores[id], Digest(c.version), Digest(c'.version), key);
    } else {
      OtherDigest(c.stores[id], Digest(c.version), Digest(c'.version), key);
    }
  }

  lemma OtherDigest(rec: Record, digest: string, digest': string, key: string)
    requires key != "digest"
    ensures FieldText(rec, digest', key) == FieldText(rec, digest, key)
  {
  }

  lemma {:induction false} RunKeepsReport(c: Config, ops: seq<Op>, id: string, key: string)
    requires id in c.stores && key != "digest" && forall k | 0 <= k < |ops| :: Untouched(ops[k], id, key)
    ensures id in Run(c, ops).stores && Reported(Run(c, ops), id, key) == Reported(c, id, key)
  {
    if ops != [] {
      hide Reported, Untouched, Apply;
      RunKeepsReport(c, ops[..|ops| - 1], id, key);
      StepKeepsReport(Run(c, ops[..|ops| - 1]), ops[|ops| - 1], id, key);
    }
  }

  predicate RecordApart(rec: Record) { forall key | key in rec.extra :: !HasField(key) }

  /** No entry holds an unmodelled key named like a field. */
  predicate FieldsApart(c: Config) { forall id | id in c.stores :: RecordApart(c.stores[id]) }

  lemma MadeApart(form: Form, rec: Record)
    requires EntryMade(form, rec)
    ensures RecordApart(rec)
  {
    hide HasField, SetListing;
    forall key | key in rec.extra ensures !HasField(key) {
      assert ExtraMade(form, rec, key);
    }
  }

  lemma AfterApart(form: Form, rec: Record, rec': Record)
    requires EntryAfter(form, rec, rec') && RecordApart(rec)
    ensures RecordApart(rec')
  {
    hide HasField, SetListing, TextAfter, FlagAfter, ListAfter, ExtraAfter;
  }

  lemma StepKeepsApart(c: Config, op: Op)
    requires FieldsApart(c)
    ensures FieldsApart(Apply(c, op).0)
  {
    hide Apply, EntryMade, EntryAfter, RecordApart, CreateOnly, Digest;
    var c' := Apply(c, op).0;
    match op {
      case CreateOp(form) =>
        CreateEffect(c, form);
        if c' != c {
          MadeApart(form, c'.stores[FormValue(form, "storage")]);
        }
      case UpdateOp(id, form) =>
        UpdateEffect(c, id, form);
        if c' != c {
          AfterApart(form, c.stores[id], c'.stores[id]);
        }
      case DeleteOp(id) => DeleteEffect(c, id);
    }
  }

  lemma {:induction false} RunKeepsApart(ops: seq<Op>)
    ensures FieldsApart(Run(EMPTY, ops))
  {
    if ops != [] {
      RunKeepsApart(ops[..|ops| - 1]);
      StepKeepsApart(Run(EMPTY, ops[..|ops| - 1]), ops[|ops| - 1]);
    }
  }

  /** A submitted value as it is reported: a list as its set, a flag as "1" or not at all, any other as it came. */
  ghost predicate ReportedAs(key: string, value: string, out: string) {
    if key == "content" || key == "nodes" then SetListing(value, out)
    else if key == "shared" || key == "disable" then out == if value == "1" then "1" else ""
    else out == value
  }

  lemma UpdateReports(c: Config, id: string, form: Form, key: string)
    requires FieldsApart(c) && Succeeds(c, UpdateOp(id, form)) && key != "digest" && key != "delete"
    ensures var c' := Apply(c, UpdateOp(id, form)).0;
            && id in c'.stores
            && (key in form ==> ReportedAs(key, form[key], Reported(c', id, key)))
            && (key !in form && Deletes(form, key) && key != "storage" && key != "type" ==> Reported(c', id, key) == "")
  {
    hide Apply, Reported, Digest, CreateOnly, EntryAfter, ReportedAs, Deletes, RecordApart;
    var c' := Apply(c, UpdateOp(id, form)).0;
    UpdateEffect(c, id, form);
    ReportedIs(c', id, key);
    StepKeepsApart(c, UpdateOp(id, form));
    EntryReports(form, c.stores[id], c'.stores[id], Digest(c'.version), key);
  }

  lemma EntryReports(form: Form, rec: Record, rec': Record, digest: string, key: string)
    requires EntryAfter(form, rec, rec') && RecordApart(rec') && key != "digest" && key != "delete"
    ensures var out := if key in rec'.extra then rec'.extra[key] else FieldText(rec', digest, key);
            && (key in form ==> ReportedAs(key, form[key], out))
            && (key !in form && Deletes(form, key) && key != "storage" && key != "type" ==> out == "")
  {
    hide Deletes, SetListing;
    assert HasField(key) || ExtraAfter(form, key, rec.extra, rec'.extra);
  }

  lemma {:induction false} RunAppend(c: Config, ops: seq<Op>, more: seq<Op>)
    ensures Run(c, ops + more) == Run(Run(c, ops), more)
  {
    if more == [] {
      assert ops + more == ops;
    } else {
      hide Apply;
      assert (ops + more)[..|ops + more| - 1] == ops + more[..|more| - 1];
      RunAppend(c, ops, more[..|more| - 1]);
    }
  }

  lemma RunOne(c: Config, op: Op)
    ensures Run(c, [op]) == Apply(c, op).0
  {
    assert Run(c, [op][..0]) == c;
  }

  /** In every run, what the last update to write a key submitted for it is what every later read reports,
      until the key is written or deleted again or the entry is removed; and nothing after a delete. */
  lemma LastWriteReads(ops: seq<Op>, id: string, form: Form, more: seq<Op>, key: string)
    requires Succeeds(Run(EMPTY, ops), UpdateOp(id, form)) && key != "digest" && key != "delete"
    requires forall k | 0 <= k < |more| :: Untouched(more[k], id, key)
    ensures var c := Run(EMPTY, ops + ([UpdateOp(id, form)] + more));
            && id in c.stores
            && (key in form ==> ReportedAs(key, form[key], Reported(c, id, key)))
            && (key !in form && Deletes(form, key) && key != "storage" && key != "type" ==> Reported(c, id, key) == "")
  {
    hide Run, Apply, Reported, ReportedAs, Untouched, Deletes, FieldsApart, Succeeds;
    var c, op := Run(EMPTY, ops), UpdateOp(id, form);
    RunKeepsApart(ops);
    UpdateReports(c, id, form, key);
    RunAppend(EMPTY, ops, [op] + more);
    RunAppend(c, [op], more);
    RunOne(c, op);
    RunKeepsReport(Apply(c, op).0, more, id, key);
  }
}
