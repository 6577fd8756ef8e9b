/** The mock's datastore handlers as a state machine, and what its digest guarantees over
    whole runs of writes. */
module StorageServer {
  import opened Strings
  import opened Forms
  import opened Numerals
  import opened Options
  import opened StorageConfig

  /** The configuration: its entries, and how many writes it has seen. */
  datatype Config = Config(stores: map<string, Record>, version: nat)

  const EMPTY := Config(map[], 0)

  /** The digest every read reports; none before the first write. */
  function Digest(version: nat): string { if version == 0 then "" else Hex40(version) }

  const FIXED: set<string> := {"type", "path", "export", "share", "target", "portal", "vgname",
                               "thinpool", "base", "datastore", "iscsiprovider", "authsupported"}

  datatype Response = Refused(status: int) | Wrote(storage: string, typ: string) | Removed

  // ---- the handlers on values ----

  function Mounted(rec: Record): Record {
    if rec.typ == "zfspool" && rec.pool != "" && FormValue(rec.extra, "mountpoint") == ""
    then rec.(extra := rec.extra["mountpoint" := "/" + rec.pool])
    else rec
  }

  ghost function Created(form: Form): Record {
    Mounted(Overlaid(FreshRecord(FormValue(form, "storage"), FormValue(form, "type")), form.Keys - {"storage", "type"}, form))
  }

  ghost function Create(c: Config, form: Form): (Config, Response) {
    var id, typ := FormValue(form, "storage"), FormValue(form, "type");
    if id == "" || typ == "" || id in c.stores then (c, Refused(400))
    else (Config(c.stores[id := Created(form)], c.version + 1), Wrote(id, typ))
  }

  function DeleteList(form: Form): set<string> {
    if FormValue(form, "delete") == "" then {} else TrimmedItems(Split(form["delete"], ','))
  }

  ghost function Updated(rec: Record, form: Form): Record {
    Overlaid(Cleared(rec, DeleteList(form)), form.Keys - {"delete", "digest"}, form)
  }

  /** Whether the digest a form carries lets it through. */
  predicate GuardPasses(c: Config, form: Form) {
    FormValue(form, "digest") == "" || FormValue(form, "digest") == Digest(c.version)
  }

  ghost function Update(c: Config, id: string, form: Form): (Config, Response) {
    if !(FIXED !! form.Keys) then (c, Refused(400))
    else if id !in c.stores then (c, Refused(404))
    else if !GuardPasses(c, form) then (c, Refused(400))
    else (Config(c.stores[id := Updated(c.stores[id], form)], c.version + 1), Wrote(c.stores[id].storage, c.stores[id].typ))
  }

  ghost function Delete(c: Config, id: string): (Config, Response) {
    if id !in c.stores then (c, Refused(404)) else (Config(c.stores - {id}, c.version + 1), Removed)
  }

  /** The flat object a read of an entry returns; unmodelled keys are laid over the rest. */
  function Payload(rec: Record, digest: string): map<string, string> { OwnMembers(rec, digest) + rec.extra }

  function OwnMembers(rec: Record, digest: string): map<string, string> {
    map["storage" := rec.storage, "type" := rec.typ] + TypedMembers(rec) + Member("digest", digest)
  }

  function TypedMembers(rec: Record): map<string, string> {
    Member("content", rec.content) + Member("path", rec.path) + Member("pool", rec.pool) + Member("nodes", rec.nodes)
    + Member("shared", if rec.shared then "1" else "") + Member("disable", if rec.disable then "1" else "")
  }

  lemma TypedMembersTyped(rec: Record)
    ensures TypedMembers(rec).Keys <= TYPED
  {
    hide Member;
    AllTyped();
  }

  lemma AllTyped()
    ensures {"content"} <= TYPED && {"path"} <= TYPED && {"pool"} <= TYPED
    ensures {"nodes"} <= TYPED && {"shared"} <= TYPED && {"disable"} <= TYPED
  {
  }

  function Member(key: string, value: string): (m: map<string, string>)
    ensures m.Keys <= {key}
  {
    if value == "" then map[] else map[key := value]
  }

  // ---- the server ----

  class Server {
    var stores: map<string, Record>
    var cfgVersion: nat
    var cfgDigest: string

    ghost predicate Valid()
      reads this
    {
      cfgDigest == Digest(cfgVersion)
    }

    ghost function State(): Config
      reads this
    {
      Config(stores, cfgVersion)
    }

    constructor ()
      ensures Valid() && State() == EMPTY
    {
      stores, cfgVersion, cfgDigest := map[], 0, "";
    }

    method BumpDigest()
      modifies `cfgVersion, `cfgDigest
      ensures Valid() && cfgVersion == old(cfgVersion) + 1
    {
      cfgVersion := cfgVersion + 1;
      cfgDigest := Hex40(cfgVersion);
    }

    method HandleCreate(form: Form) returns (r: Response)
      requires Valid()
      modifies this
      ensures Valid() && (State(), r) == Create(old(State()), form)
    {
      var id, typ := FormValue(form, "storage"), FormValue(form, "type");
      if id == "" || typ == "" {
        return Refused(400);
      }
      if id in stores {
        return Refused(400);
      }
      var rec := FreshRecord(id, typ);
      rec := ApplyKeys(rec, form, {"storage", "type"});
      if typ == "zfspool" && rec.pool != "" && FormValue(rec.extra, "mountpoint") == "" {
        rec := rec.(extra := rec.extra["mountpoint" := "/" + rec.pool]);
      }
      stores := stores[id := rec];
      BumpDigest();
      return Wrote(id, typ);
    }

    method HandleUpdate(id: string, form: Form) returns (r: Response)
      requires Valid()
      modifies this
      ensures Valid() && (State(), r) == Update(old(State()), id, form)
    {
      if !(FIXED !! form.Keys) {
        return Refused(400);
      }
      if id !in stores {
        return Refused(404);
      }
      var digest := FormValue(form, "digest");
      if digest != "" && digest != cfgDigest {
        return Refused(400);
      }
      var rec := stores[id];
      r := Wrote(rec.storage, rec.typ);
      if FormValue(form, "delete") != "" {
        rec := ClearKeys(rec, Split(form["delete"], ','));
      } else {
        ClearedNothing(rec);
      }
      rec := ApplyKeys(rec, form, {"delete", "digest"});
      stores := stores[id := rec];
      BumpDigest();
    }

    method HandleDelete(id: string) returns (r: Response)
      requires Valid()
      modifies this
      ensures Valid() && (State(), r) == Delete(old(State()), id)
    {
      if id !in stores {
        return Refused(404);
      }
      stores := stores - {id};
      BumpDigest();
      return Removed;
    }

    /** The payload of one entry, or nothing, which the server answers as status 500. */
    method HandleGet(id: string) returns (r: Option<map<string, string>>)
      requires Valid()
      ensures r == if id in stores then Some(Payload(stores[id], Digest(cfgVersion))) else None
    {
      r := if id in stores then Some(Payload(stores[id], cfgDigest)) else None;
    }
  }

  lemma ClearedNothing(rec: Record)
    ensures Cleared(rec, {}) == rec
  {
    assert rec.extra - ({} - TYPED) == rec.extra;
  }

  // ---- runs ----

  datatype Op = CreateOp(form: Form) | UpdateOp(id: string, form: Form) | DeleteOp(id: string)

  ghost function Apply(c: Config, op: Op): (Config, Response) {
    match op
    case CreateOp(form) => Create(c, form)
    case UpdateOp(id, form) => Update(c, id, form)
    case DeleteOp(id) => Delete(c, id)
  }

  ghost function Run(c: Config, ops: seq<Op>): Config {
    if ops == [] then c else Apply(Run(c, ops[..|ops| - 1]), ops[|ops| - 1]).0
  }

  /** Whether an operation was let through. */
  ghost predicate Succeeds(c: Config, op: Op) { !Apply(c, op).1.Refused? }

  /** The version counts the successful writes, so an unchanged version means nothing happened. */
  lemma {:induction false} VersionTells(c: Config, ops: seq<Op>)
    ensures Run(c, ops).version >= c.version
    ensures Run(c, ops).version == c.version ==> Run(c, ops) == c
  {
    if ops != [] {
      VersionTells(c, ops[..|ops| - 1]);
    }
  }

  lemma DigestInjective(v: nat, w: nat)
    requires Digest(v) == Digest(w)
    ensures v == w
  {
    if v > 0 && w > 0 {
      Hex40Injective(v, w);
    }
  }

  /** An update carrying the digest of an earlier configuration is let through if and only if
      the configuration is still that one, the entry exists, and no fixed key is submitted. */
  lemma GuardedUpdate(c: Config, ops: seq<Op>, id: string, form: Form)
    requires c.version > 0 && FormValue(form, "digest") == Digest(c.version)
    ensures Succeeds(Run(c, ops), UpdateOp(id, form)) <==>
            Run(c, ops) == c && id in c.stores && FIXED !! form.Keys
  {
    VersionTells(c, ops);
    var now := Run(c, ops);
    if GuardPasses(now, form) {
      DigestInjective(now.version, c.version);
    }
  }

  /** After one guarded update succeeded, no later update carrying the same digest does. */
  lemma DigestSpent(c: Config, op1: Op, ops: seq<Op>, op2: Op)
    requires op1.UpdateOp? && op2.UpdateOp?
    requires FormValue(op1.form, "digest") == FormValue(op2.form, "digest") != ""
    requires Succeeds(c, op1)
    ensures !Succeeds(Run(Apply(c, op1).0, ops), op2)
  {
    var next := Apply(c, op1).0;
    VersionTells(next, ops);
    if Succeeds(Run(next, ops), op2) {
      DigestInjective(Run(next, ops).version, c.version);
    }
  }

  // ---- which reads can be trusted ----

  /** The digest the SDK takes from a read of an entry; missing reads as empty. */
  function ReadDigest(c: Config, id: string): string
    requires id in c.stores
  {
    FormValue(Payload(c.stores[id], Digest(c.version)), "digest")
  }

  /** A read reports an entry's own name, type and the digest, unless an unmodelled key of that
      name lies over them. */
  lemma PayloadReports(rec: Record, digest: string, key: string)
    requires key == "storage" || key == "type" || key == "digest"
    ensures FormValue(Payload(rec, digest), key) ==
            if key in rec.extra then rec.extra[key]
            else if key == "storage" then rec.storage else if key == "type" then rec.typ else digest
  {
    OwnMembersReport(rec, digest);
  }

  lemma OwnMembersReport(rec: Record, digest: string)
    ensures FormValue(OwnMembers(rec, digest), "storage") == rec.storage
    ensures FormValue(OwnMembers(rec, digest), "type") == rec.typ
    ensures FormValue(OwnMembers(rec, digest), "digest") == digest
  {
    hide TypedMembers, TYPED;
    TypedMembersTyped(rec);
    ReservedKeys();
    assert Member("digest", digest).Keys <= {"digest"};
  }

  lemma ReservedKeys()
    ensures "storage" !in TYPED && "type" !in TYPED && "digest" !in TYPED
    ensures "storage" != "type" && "storage" != "digest" && "type" != "digest"
  {
  }

  lemma ReadDigestIs(c: Config, id: string)
    requires id in c.stores
    ensures ReadDigest(c, id) ==
            if "digest" in c.stores[id].extra then c.stores[id].extra["digest"] else Digest(c.version)
  {
    PayloadReports(c.stores[id], Digest(c.version), "digest");
  }

  /** No update carrying the digest of this read can overwrite a later write. */
  ghost predicate ReadProtects(c: Config, id: string)
    requires id in c.stores
  {
    forall ops, other, form |
      FormValue(form, "digest") == ReadDigest(c, id) && Succeeds(Run(c, ops), UpdateOp(other, form)) :: Run(c, ops) == c
  }

  function Touches(id: string, n: nat): seq<Op> { seq(n, _ => UpdateOp(id, map[])) }

  lemma {:induction false} TouchesRun(c: Config, id: string, n: nat)
    requires id in c.stores
    ensures id in Run(c, Touches(id, n)).stores && Run(c, Touches(id, n)).version == c.version + n
  {
    if n > 0 {
      TouchesRun(c, id, n - 1);
      assert Touches(id, n)[..n - 1] == Touches(id, n - 1);
    }
  }

  /** A read protects the read-modify-write that follows it if and only if its digest is not
      empty and is not the digest of a later version. */
  lemma ReadProtectsExactly(c: Config, id: string)
    requires id in c.stores
    ensures ReadProtects(c, id) <==>
            ReadDigest(c, id) != "" && forall v: nat | v > c.version :: ReadDigest(c, id) != Hex40(v)
  {
    var d := ReadDigest(c, id);
    if d != "" && forall v: nat | v > c.version :: d != Hex40(v) {
      forall ops, other, form | FormValue(form, "digest") == d && Succeeds(Run(c, ops), UpdateOp(other, form))
        ensures Run(c, ops) == c
      {
        VersionTells(c, ops);
      }
    }
    if ReadProtects(c, id) {
      if d == "" {
        Stale(c, id, 1);
      } else if v: nat :| v > c.version && d == Hex40(v) {
        Stale(c, id, v - c.version);
      }
    }
  }

  /** `n` writes later, an update carrying the read's digest still succeeds, if that digest is
      empty or the one of that later version. */
  lemma Stale(c: Config, id: string, n: nat)
    requires id in c.stores && n > 0
    requires ReadDigest(c, id) == "" || ReadDigest(c, id) == Hex40(c.version + n)
    ensures !ReadProtects(c, id)
  {
    hide Hex40, Payload, ReadProtects;
    TouchesRun(c, id, n);
    GuardAlone(Run(c, Touches(id, n)), id, ReadDigest(c, id));
    Overwritten(c, id, Touches(id, n), map["digest" := ReadDigest(c, id)]);
  }

  lemma Overwritten(c: Config, id: string, ops: seq<Op>, form: Form)
    requires id in c.stores && FormValue(form, "digest") == ReadDigest(c, id)
    requires Run(c, ops) != c && Succeeds(Run(c, ops), UpdateOp(id, form))
    ensures !ReadProtects(c, id)
  {
  }

  lemma GuardAlone(c: Config, id: string, digest: string)
    requires id in c.stores && (digest == "" || digest == Digest(c.version))
    ensures FormValue(map["digest" := digest], "digest") == digest
    ensures Succeeds(c, UpdateOp(id, map["digest" := digest]))
  {
    assert FIXED !! {"digest"};
    assert map["digest" := digest].Keys == {"digest"};
  }

  // ---- what every run keeps ----

  /** Creates name no digest: reads of what they made report the configuration's own. */
  predicate NamesNoDigest(op: Op) { op.CreateOp? ==> "digest" !in op.form }

  /** Updates name no storage: reads of what they changed report the entry's own name. */
  predicate NamesNoStorage(op: Op) { op.UpdateOp? ==> "storage" !in op.form }

  /** Every entry is filed under its own name, and entries exist only after a write. */
  predicate Consistent(c: Config) {
    && (forall id | id in c.stores :: c.stores[id].storage == id && c.stores[id].typ != "")
    && (forall id | id in c.stores :: "type" !in c.stores[id].extra)
    && (c.stores != map[] ==> c.version > 0)
  }

  /** No entry holds an unmodelled key of this name. */
  predicate FreeOf(c: Config, key: string) { forall id | id in c.stores :: key !in c.stores[id].extra }

  lemma CreatedEntry(form: Form)
    ensures Created(form).storage == FormValue(form, "storage") && Created(form).typ == FormValue(form, "type")
    ensures "type" !in Created(form).extra && "storage" !in Created(form).extra
    ensures "digest" in Created(form).extra ==> "digest" in form
  {
    var keys := form.Keys - {"storage", "type"};
    assert forall key :: key in Restricted(form, keys - TYPED) ==> key in keys;
  }

  lemma UpdatedEntry(rec: Record, form: Form)
    requires FIXED !! form.Keys
    ensures Updated(rec, form).storage == rec.storage && Updated(rec, form).typ == rec.typ
    ensures "type" in Updated(rec, form).extra ==> "type" in rec.extra
    ensures "digest" in Updated(rec, form).extra ==> "digest" in rec.extra
    ensures "storage" in Updated(rec, form).extra ==> "storage" in rec.extra || "storage" in form
  {
    assert "type" in FIXED;
    var keys := form.Keys - {"delete", "digest"};
    assert forall key :: key in Restricted(form, keys - TYPED) ==> key in keys;
    assert forall key :: key in Cleared(rec, DeleteList(form)).extra ==> key in rec.extra;
  }

  lemma StepKeepsConsistent(c: Config, op: Op)
    requires Consistent(c)
    ensures Consistent(Apply(c, op).0)
    ensures NamesNoDigest(op) && FreeOf(c, "digest") ==> FreeOf(Apply(c, op).0, "digest")
    ensures NamesNoStorage(op) && FreeOf(c, "storage") ==> FreeOf(Apply(c, op).0, "storage")
  {
    hide Created, Updated;
    match op {
      case CreateOp(form) => CreatedEntry(form);
      case UpdateOp(id, form) =>
        if FIXED !! form.Keys && id in c.stores {
          UpdatedEntry(c.stores[id], form);
        }
      case DeleteOp(id) =>
    }
  }

  lemma {:induction false} RunKeepsConsistent(ops: seq<Op>)
    ensures Consistent(Run(EMPTY, ops))
    ensures (forall k | 0 <= k < |ops| :: NamesNoDigest(ops[k])) ==> FreeOf(Run(EMPTY, ops), "digest")
    ensures (forall k | 0 <= k < |ops| :: NamesNoStorage(ops[k])) ==> FreeOf(Run(EMPTY, ops), "storage")
  {
    if ops != [] {
      RunKeepsConsistent(ops[..|ops| - 1]);
      StepKeepsConsistent(Run(EMPTY, ops[..|ops| - 1]), ops[|ops| - 1]);
    }
  }

  /** In every run whose creates carry no digest, the digest of every read protects the write that
      follows. */
  lemma NoLostUpdate(ops: seq<Op>, id: string)
    requires forall k | 0 <= k < |ops| :: NamesNoDigest(ops[k])
    requires id in Run(EMPTY, ops).stores
    ensures ReadProtects(Run(EMPTY, ops), id)
  {
    hide Hex40, Payload, ReadProtects, Run;
    var c := Run(EMPTY, ops);
    RunKeepsConsistent(ops);
    ReadDigestIs(c, id);
    ReadProtectsExactly(c, id);
    forall v: nat | v > c.version ensures Digest(c.version) != Hex40(v) {
      if Digest(c.version) == Hex40(v) {
        Hex40Injective(c.version, v);
      }
    }
  }

  /** In every run every read reports the entry's own type, and its own name too when the updates
      carry none. */
  lemma ReadsReportOwn(ops: seq<Op>, id: string)
    requires id in Run(EMPTY, ops).stores
    ensures var c := Run(EMPTY, ops);
            var read := Payload(c.stores[id], Digest(c.version));
            && FormValue(read, "type") == c.stores[id].typ
            && ((forall k | 0 <= k < |ops| :: NamesNoStorage(ops[k])) ==> FormValue(read, "storage") == id)
  {
    hide Hex40, Payload, Run;
    var c := Run(EMPTY, ops);
    RunKeepsConsistent(ops);
    PayloadReports(c.stores[id], Digest(c.version), "storage");
    PayloadReports(c.stores[id], Digest(c.version), "type");
  }

  /** A create that carries a digest of its own breaks this: its reads report that digest, and
      protect nothing if it is empty or that of a later version. */
  lemma ForgedDigest(c: Config, form: Form)
    requires "digest" in form && Create(c, form).1.Wrote?
    ensures var next, id := Create(c, form).0, FormValue(form, "storage");
            id in next.stores
            && (ReadProtects(next, id) <==>
                  form["digest"] != "" && forall v: nat | v > next.version :: form["digest"] != Hex40(v))
  {
    var next, id := Create(c, form).0, FormValue(form, "storage");
    CreatedExtra(form, "digest");
    ReadDigestIs(next, id);
    ReadProtectsExactly(next, id);
  }

  lemma CreatedExtra(form: Form, key: string)
    requires key in form && key != "storage" && key != "type" && key !in TYPED && key != "mountpoint"
    ensures key in Created(form).extra && Created(form).extra[key] == form[key]
  {
  }

  /** An entry keeps its type from its creation to its deletion. */
  lemma {:induction false} TypeKept(c: Config, ops: seq<Op>, id: string)
    requires id in c.stores && forall k | 0 <= k < |ops| :: ops[k] != DeleteOp(id)
    ensures id in Run(c, ops).stores && Run(c, ops).stores[id].typ == c.stores[id].typ
  {
    if ops != [] {
      TypeKept(c, ops[..|ops| - 1], id);
    }
  }

  // ---- one update, key by key ----

  /** What a record holds under a key. */
  function Get(rec: Record, key: string): string {
    match key
    case "content" => rec.content
    case "nodes" => rec.nodes
    case "path" => rec.path
    case "pool" => rec.pool
    case "shared" => if rec.shared then "1" else ""
    case "disable" => if rec.disable then "1" else ""
    case _ => FormValue(rec.extra, key)
  }

  /** What a submitted value is stored as. */
  ghost function StoredAs(key: string, val: string): string {
    if key == "content" || key == "nodes" then Normalized(val)
    else if key == "shared" || key == "disable" then (if val == "1" then "1" else "")
    else val
  }

  lemma GetOverlaid(rec: Record, keys: set<string>, form: Form, key: string)
    requires keys <= form.Keys
    ensures Get(Overlaid(rec, keys, form), key) == if key in keys then StoredAs(key, form[key]) else Get(rec, key)
  {
    assert key !in TYPED ==> FormValue(rec.extra + Restricted(form, keys - TYPED), key)
                             == if key in keys then form[key] else FormValue(rec.extra, key);
  }

  /** Whether a create adds a mount point of its own making. */
  predicate AddsMountpoint(form: Form) {
    FormValue(form, "type") == "zfspool" && FormValue(form, "pool") != "" && FormValue(form, "mountpoint") == ""
  }

  lemma MountpointIsExtra()
    ensures "mountpoint" !in TYPED && "mountpoint" != "storage" && "mountpoint" != "type"
    ensures "pool" in TYPED && "pool" != "storage" && "pool" != "type"
  {
  }

  /** A new entry holds what was submitted, nothing under any other key, and on a ZFS pool without a
      mount point the one derived from the pool's name. */
  lemma CreateKeyByKey(form: Form, key: string)
    requires key != "storage" && key != "type"
    ensures Get(Created(form), key) ==
            if key == "mountpoint" && AddsMountpoint(form) then "/" + FormValue(form, "pool")
            else if key in form then StoredAs(key, form[key]) else ""
  {
    var keys, fresh0 := form.Keys - {"storage", "type"}, FreshRecord(FormValue(form, "storage"), FormValue(form, "type"));
    MountpointIsExtra();
    GetOverlaid(fresh0, keys, form, key);
    GetOverlaid(fresh0, keys, form, "pool");
    GetOverlaid(fresh0, keys, form, "mountpoint");
    GetFresh(FormValue(form, "storage"), FormValue(form, "type"), key);
    GetMounted(Overlaid(fresh0, keys, form), key);
    MountedWhen(form);
  }

  lemma GetFresh(id: string, typ: string, key: string)
    ensures Get(FreshRecord(id, typ), key) == ""
  {
  }

  lemma GetMounted(rec: Record, key: string)
    ensures Get(Mounted(rec), key) ==
            if key == "mountpoint" && rec.typ == "zfspool" && rec.pool != "" && FormValue(rec.extra, "mountpoint") == ""
            then "/" + rec.pool else Get(rec, key)
  {
  }

  lemma MountedWhen(form: Form)
    ensures var rec := Overlaid(FreshRecord(FormValue(form, "storage"), FormValue(form, "type")), form.Keys - {"storage", "type"}, form);
            rec.typ == FormValue(form, "type") && rec.pool == FormValue(form, "pool")
            && FormValue(rec.extra, "mountpoint") == FormValue(form, "mountpoint")
  {
    MountpointIsExtra();
  }

  lemma GetCleared(rec: Record, keys: set<string>, key: string)
    ensures Get(Cleared(rec, keys), key) == if key in keys then "" else Get(rec, key)
  {
    assert key !in TYPED ==> FormValue(rec.extra - (keys - TYPED), key)
                             == if key in keys then "" else FormValue(rec.extra, key);
  }

  /** A key that is set ends set, also when it is deleted too; a key that is only deleted ends
      empty; any other key keeps its value. */
  lemma UpdateKeyByKey(rec: Record, form: Form, key: string)
    requires key != "delete" && key != "digest"
    ensures Get(Updated(rec, form), key) ==
            if key in form then StoredAs(key, form[key])
            else if key in DeleteList(form) then ""
            else Get(rec, key)
  {
    GetCleared(rec, DeleteList(form), key);
    GetOverlaid(Cleared(rec, DeleteList(form)), form.Keys - {"delete", "digest"}, form, key);
  }
}
