/** The mock's access control list: granting appends entries, revoking compacts the table's own
    storage in place. */
module AccessList {
  import opened Strings
  import opened Filtering
  import opened Forms

  datatype Entry = Entry(path: string, role: string, kind: string, ugid: string, propagate: bool)

  datatype Subject = Subject(ugid: string, kind: string)

  /** A comma-separated parameter; an absent one has no items. */
  function SplitCSV(s: string): seq<string> { if s == "" then [] else Split(s, ',') }

  /** Joined items come back exactly when no item holds a comma and they are not one empty item. */
  lemma CSVRoundTrip(items: seq<string>)
    ensures SplitCSV(Join(items, ',')) == items <==> items != [""] && forall k | 0 <= k < |items| :: ',' !in items[k]
  {
    var s := Join(items, ',');
    if items == [] || items == [""] {
      assert s == "";
    } else if forall k | 0 <= k < |items| :: ',' !in items[k] {
      SplitJoin(items, ',');
    }
  }

  // ---- what the handler does, on values ----

  function OfKind(ugids: seq<string>, kind: string): (r: seq<Subject>) {
    seq(|ugids|, i requires 0 <= i < |ugids| => Subject(ugids[i], kind))
  }

  function Subjects(form: Form): seq<Subject> {
    OfKind(SplitCSV(FormValue(form, "users")), "user")
    + OfKind(SplitCSV(FormValue(form, "groups")), "group")
    + OfKind(SplitCSV(FormValue(form, "tokens")), "token")
  }

  function Granted(path: string, propagate: bool, subject: Subject, roles: seq<string>): (r: seq<Entry>)
    ensures |r| == |roles|
  {
    seq(|roles|, i requires 0 <= i < |roles| => Entry(path, roles[i], subject.kind, subject.ugid, propagate))
  }

  /** The entries a grant appends: for each subject in turn, one for each role. */
  function Grants(path: string, propagate: bool, subjects: seq<Subject>, roles: seq<string>): seq<Entry> {
    if subjects == [] then []
    else
      Grants(path, propagate, subjects[..|subjects| - 1], roles)
      + Granted(path, propagate, subjects[|subjects| - 1], roles)
  }

  /** Whose roles: the holder's id and the role. */
  type Holding = (string, string)

  function Pairs(subjects: seq<Subject>, roles: seq<string>): set<Holding> {
    set s, r | s in subjects && r in roles :: (s.ugid, r)
  }

  function Holdings(ugid: string, roles: seq<string>): set<Holding> { set r | r in roles :: (ugid, r) }

  predicate Covered(e: Entry, path: string, gone: set<Holding>) { e.path == path && (e.ugid, e.role) in gone }

  function Spared(path: string, gone: set<Holding>): Entry -> bool { (e: Entry) => !Covered(e, path, gone) }

  lemma SparedOne(e: Entry, path: string, ugid: string, role: string)
    ensures Spared(path, {(ugid, role)})(e) <==> !(e.path == path && e.ugid == ugid && e.role == role)
  {
  }

  /** The entries a revocation leaves, in their order. */
  function Uncovered(acls: seq<Entry>, path: string, gone: set<Holding>): seq<Entry> {
    Keeping(acls, Spared(path, gone))
  }

  lemma NoneGone(acls: seq<Entry>, path: string)
    ensures Uncovered(acls, path, {}) == acls
  {
    KeepingAll(acls, Spared(path, {}));
  }

  /** Revoking in two goes is revoking both at once. */
  lemma UncoveredTwice(acls: seq<Entry>, path: string, gone: set<Holding>, more: set<Holding>)
    ensures Uncovered(Uncovered(acls, path, gone), path, more) == Uncovered(acls, path, gone + more)
  {
    KeepingTwice(acls, Spared(path, gone), Spared(path, more), Spared(path, gone + more));
  }

  lemma {:induction false} GrantsCovered(path: string, propagate: bool, subjects: seq<Subject>, roles: seq<string>)
    ensures forall e | e in Grants(path, propagate, subjects, roles) :: Covered(e, path, Pairs(subjects, roles))
  {
    if subjects != [] {
      var init, last := subjects[..|subjects| - 1], subjects[|subjects| - 1];
      GrantsCovered(path, propagate, init, roles);
      assert last in subjects && forall s | s in init :: s in subjects;
      assert Pairs(init, roles) <= Pairs(subjects, roles);
      forall e | e in Grants(path, propagate, subjects, roles) ensures Covered(e, path, Pairs(subjects, roles)) {
        if e !in Grants(path, propagate, init, roles) {
          var i :| 0 <= i < |roles| && e == Granted(path, propagate, last, roles)[i];
          assert roles[i] in roles;
        }
      }
    }
  }

  datatype Reply = Done | BadRequest

  /** The list after a request, and the reply. */
  function Set(acls: seq<Entry>, form: Form): (seq<Entry>, Reply) {
    var path, roles := FormValue(form, "path"), SplitCSV(FormValue(form, "roles"));
    if path == "" || roles == [] then (acls, BadRequest)
    else if FormValue(form, "delete") == "1" then (Uncovered(acls, path, Pairs(Subjects(form), roles)), Done)
    else (acls + Grants(path, FormValue(form, "propagate") != "0", Subjects(form), roles), Done)
  }

  // ---- what a request does, in the form's own terms ----

  /** A request is refused, and changes nothing, exactly when it has no path or no roles. */
  lemma RefusedExactly(acls: seq<Entry>, form: Form)
    ensures Set(acls, form).1 == BadRequest <==> FormValue(form, "path") == "" || FormValue(form, "roles") == ""
    ensures Set(acls, form).1 == BadRequest ==> Set(acls, form).0 == acls
  {
  }

  lemma GrantsNext(path: string, propagate: bool, subjects: seq<Subject>, roles: seq<string>)
    ensures Grants(path, propagate, subjects, roles) ==
            if subjects == [] then []
            else Grants(path, propagate, subjects[..|subjects| - 1], roles)
                 + Granted(path, propagate, subjects[|subjects| - 1], roles)
  {
  }

  /** Place `j` of row `i` comes before row `n`. */
  lemma PlaceInRows(i: nat, n: nat, width: nat, j: nat)
    requires i < n && j < width
    ensures 0 <= i * width + j < n * width
  {
    var rest := n - i - 1;
    assert n * width == i * width + width + rest * width;
    assert i * width >= 0 && rest * width >= 0;
  }

  lemma {:induction false} GrantsAt(path: string, propagate: bool, subjects: seq<Subject>, roles: seq<string>, i: nat, j: nat)
    ensures |Grants(path, propagate, subjects, roles)| == |subjects| * |roles|
    ensures i < |subjects| && j < |roles| ==>
              && 0 <= i * |roles| + j < |subjects| * |roles|
              && Grants(path, propagate, subjects, roles)[i * |roles| + j] ==
                 Entry(path, roles[j], subjects[i].kind, subjects[i].ugid, propagate)
  {
    hide Grants;
    GrantsNext(path, propagate, subjects, roles);
    if subjects != [] {
      var n, width := |subjects| - 1, |roles|;
      GrantsAt(path, propagate, subjects[..n], roles, i, j);
      assert |subjects| * width == n * width + width;
      if i < |subjects| && j < width {
        PlaceInRows(i, |subjects|, width, j);
        if i < n {
          PlaceInRows(i, n, width, j);
        }
      }
    }
  }

  /** Who a request is about: its users, then its groups, then its tokens. */
  lemma SubjectsAt(form: Form, i: nat)
    ensures var users, groups, tokens :=
              SplitCSV(FormValue(form, "users")), SplitCSV(FormValue(form, "groups")), SplitCSV(FormValue(form, "tokens"));
            && |Subjects(form)| == |users| + |groups| + |tokens|
            && (i < |users| ==> Subjects(form)[i] == Subject(users[i], "user"))
            && (i < |groups| ==> Subjects(form)[|users| + i] == Subject(groups[i], "group"))
            && (i < |tokens| ==> Subjects(form)[|users| + |groups| + i] == Subject(tokens[i], "token"))
  {
    hide SplitCSV, FormValue;
  }

  /** An accepted grant leaves the list as it was and puts one entry for each subject and role behind it:
      for the subjects in turn, the roles in turn, to be inherited unless the form says "0". */
  lemma GrantAppends(acls: seq<Entry>, form: Form, i: nat, j: nat)
    requires FormValue(form, "path") != "" && FormValue(form, "roles") != "" && FormValue(form, "delete") != "1"
    ensures var users, groups, tokens :=
              SplitCSV(FormValue(form, "users")), SplitCSV(FormValue(form, "groups")), SplitCSV(FormValue(form, "tokens"));
            var (after, reply) := Set(acls, form);
            var roles, subjects, propagate :=
              SplitCSV(FormValue(form, "roles")), |users| + |groups| + |tokens|, FormValue(form, "propagate") != "0";
            && reply == Done && |after| == |acls| + subjects * |roles| && after[..|acls|] == acls
            && (i < subjects && j < |roles| ==>
                  && 0 <= i * |roles| + j < subjects * |roles|
                  && after[|acls| + (i * |roles| + j)] ==
                       if i < |users| then Entry(FormValue(form, "path"), roles[j], "user", users[i], propagate)
                       else if i < |users| + |groups| then
                         Entry(FormValue(form, "path"), roles[j], "group", groups[i - |users|], propagate)
                       else Entry(FormValue(form, "path"), roles[j], "token", tokens[i - |users| - |groups|], propagate))
  {
    hide Subjects, Grants, SplitCSV, FormValue;
    CSVOfText(FormValue(form, "roles"));
    var users, groups := SplitCSV(FormValue(form, "users")), SplitCSV(FormValue(form, "groups"));
    var path, roles := FormValue(form, "path"), SplitCSV(FormValue(form, "roles"));
    GrantsAt(path, FormValue(form, "propagate") != "0", Subjects(form), roles, i, j);
    SubjectsAt(form, if i < |users| then i else if i < |users| + |groups| then i - |users| else i - |users| - |groups|);
  }

  /** The form names the holder and the role of an entry, under its path. */
  predicate NamedBy(e: Entry, form: Form) {
    && e.path == FormValue(form, "path") && e.role in SplitCSV(FormValue(form, "roles"))
    && (e.ugid in SplitCSV(FormValue(form, "users")) || e.ugid in SplitCSV(FormValue(form, "groups"))
        || e.ugid in SplitCSV(FormValue(form, "tokens")))
  }

  lemma OfKindIds(ugids: seq<string>, kind: string, ugid: string)
    ensures (exists s :: s in OfKind(ugids, kind) && s.ugid == ugid) <==> ugid in ugids
  {
    if ugid in ugids {
      var i :| 0 <= i < |ugids| && ugids[i] == ugid;
      assert OfKind(ugids, kind)[i].ugid == ugid;
    }
  }

  lemma SubjectIds(form: Form, ugid: string)
    ensures (exists s :: s in Subjects(form) && s.ugid == ugid) <==>
            ugid in SplitCSV(FormValue(form, "users")) || ugid in SplitCSV(FormValue(form, "groups"))
            || ugid in SplitCSV(FormValue(form, "tokens"))
  {
    hide SplitCSV, FormValue, OfKind;
    OfKindIds(SplitCSV(FormValue(form, "users")), "user", ugid);
    OfKindIds(SplitCSV(FormValue(form, "groups")), "group", ugid);
    OfKindIds(SplitCSV(FormValue(form, "tokens")), "token", ugid);
  }

  /** An accepted revocation leaves, in their order, exactly the entries that the form does not name. */
  lemma RevokeLeaves(acls: seq<Entry>, form: Form)
    requires FormValue(form, "path") != "" && FormValue(form, "roles") != "" && FormValue(form, "delete") == "1"
    ensures Set(acls, form) == (Keeping(acls, e => !NamedBy(e, form)), Done)
  {
    hide SplitCSV, Grants, Keeping, Subjects, Pairs;
    var path, subjects, roles := FormValue(form, "path"), Subjects(form), SplitCSV(FormValue(form, "roles"));
    CSVOfText(FormValue(form, "roles"));
    forall e | e in acls ensures Spared(path, Pairs(subjects, roles))(e) <==> !NamedBy(e, form) {
      CoveredIs(e, path, subjects, roles);
      SubjectIds(form, e.ugid);
    }
    KeepingSame(acls, Spared(path, Pairs(subjects, roles)), e => !NamedBy(e, form));
  }

  /** The items of a list are the pieces between its commas, none of an absent one. */
  lemma CSVOfText(s: string)
    ensures SplitCSV(s) == [] <==> s == ""
    ensures Join(SplitCSV(s), ',') == s && forall k | 0 <= k < |SplitCSV(s)| :: ',' !in SplitCSV(s)[k]
  {
    JoinSplit(s, ',');
  }

  // ---- granting and revoking ----

  /** A grant revoked with the same spec leaves what was there before, in its order, less the
      entries the spec covers: the original list if and only if it held none of them. */
  lemma GrantThenRevoke(acls: seq<Entry>, form: Form)
    requires FormValue(form, "delete") != "1"
    ensures var path, gone := FormValue(form, "path"), Pairs(Subjects(form), SplitCSV(FormValue(form, "roles")));
            var after := Set(Set(acls, form).0, form["delete" := "1"]);
            && (after.1 == Done ==> after.0 == Uncovered(acls, path, gone))
            && (after.1 == Done ==> (after.0 == acls <==> forall e | e in acls :: !Covered(e, path, gone)))
            && (after.1 == BadRequest ==> after.0 == acls)
  {
    hide Subjects, SplitCSV, Grants, Pairs, Keeping, FormValue;
    var path, roles := FormValue(form, "path"), SplitCSV(FormValue(form, "roles"));
    var subjects, propagate := Subjects(form), FormValue(form, "propagate") != "0";
    var granted, gone := Grants(path, propagate, subjects, roles), Pairs(subjects, roles);
    DeleteKeepsSpec(form);
    GrantsCovered(path, propagate, subjects, roles);
    KeepingAppend(acls, granted, Spared(path, gone));
    AllCovered(granted, path, gone);
    KeepingAll(acls, Spared(path, gone));
  }

  lemma DeleteKeepsSpec(form: Form)
    ensures var f := form["delete" := "1"];
            && FormValue(f, "path") == FormValue(form, "path") && FormValue(f, "roles") == FormValue(form, "roles")
            && Subjects(f) == Subjects(form) && FormValue(f, "delete") == "1"
  {
    assert "delete"[0] == 'd' && "path"[0] == 'p' && "roles"[0] == 'r';
    assert "users"[0] == 'u' && "groups"[0] == 'g' && "tokens"[0] == 't';
  }

  lemma AllCovered(acls: seq<Entry>, path: string, gone: set<Holding>)
    requires forall e | e in acls :: Covered(e, path, gone)
    ensures Uncovered(acls, path, gone) == []
  {
    var r := Uncovered(acls, path, gone);
    if r != [] {
      KeepingHolds(acls, r[0], Spared(path, gone));
    }
  }

  /** Whether the spec names the holder of an entry, its kind included. */
  predicate Named(e: Entry, subjects: seq<Subject>) { Subject(e.ugid, e.kind) in subjects }

  /** Revoking compares ids only: it spares every entry whose holder the spec does not name, if and
      only if no such entry it would otherwise cover shares its id with a subject of the spec. */
  lemma RevokeSparesOthersExactly(acls: seq<Entry>, path: string, subjects: seq<Subject>, roles: seq<string>)
    ensures (forall e | e in acls && !Named(e, subjects) :: e in Uncovered(acls, path, Pairs(subjects, roles)))
            <==> forall e, s | e in acls && !Named(e, subjects) && e.path == path && e.role in roles && s in subjects ::
                   s.ugid != e.ugid
  {
    var gone := Pairs(subjects, roles);
    forall e | e in acls
      ensures e in Uncovered(acls, path, gone) <==>
              !(e.path == path && e.role in roles && exists s :: s in subjects && s.ugid == e.ugid)
    {
      KeepingHolds(acls, e, Spared(path, gone));
      CoveredIs(e, path, subjects, roles);
    }
  }

  lemma CoveredIs(e: Entry, path: string, subjects: seq<Subject>, roles: seq<string>)
    ensures Covered(e, path, Pairs(subjects, roles)) <==>
            e.path == path && e.role in roles && exists s :: s in subjects && s.ugid == e.ugid
  {
  }

  /** Otherwise it does not: revoking a user's role takes it from a group of the same name as well. */
  lemma RevokeTakesFromGroup(e: Entry, user: Subject)
    requires e.kind == "group" && user == Subject(e.ugid, "user")
    ensures Uncovered([e], e.path, Pairs([user], [e.role])) == []
  {
    assert user in [user] && e.role in [e.role];
    AllCovered([e], e.path, Pairs([user], [e.role]));
  }

  // ---- the table ----

  /** The backing array of a list that grows by doubling, as append does. */
  class Table {
    var data: array<Entry>
    var len: nat

    ghost predicate Valid()
      reads this
    {
      len <= data.Length
    }

    function Contents(): (s: seq<Entry>)
      requires Valid()
      reads this, data
    {
      data[..len]
    }

    constructor ()
      ensures Valid() && Contents() == [] && fresh(data)
    {
      data, len := new Entry[0], 0;
    }

    method Append(e: Entry)
      requires Valid()
      modifies this, data
      ensures Valid() && Contents() == old(Contents()) + [e]
      ensures data == old(data) || fresh(data)
    {
      if len == data.Length {
        var bigger := new Entry[2 * len + 1](_ => e);
        forall i | 0 <= i < len {
          bigger[i] := data[i];
        }
        data := bigger;
      }
      data[len] := e;
      len := len + 1;
    }

    /** removeACL: what is kept moves down over what is not, in the same array. */
    method Remove(path: string, ugid: string, role: string)
      requires Valid()
      modifies this, data
      ensures Valid() && data == old(data)
      ensures Contents() == Uncovered(old(Contents()), path, {(ugid, role)})
    {
      hide Keeping, Covered;
      ghost var was, keep := Contents(), Spared(path, {(ugid, role)});
      var kept := 0;
      for i := 0 to len
        invariant kept <= i <= len == |was| && data == old(data)
        invariant forall k | i <= k < len :: data[k] == was[k]
        invariant data[..kept] == Keeping(was[..i], keep)
      {
        var a := data[i];
        assert was[..i + 1] == was[..i] + [a];
        KeepingNext(was[..i], a, keep);
        SparedOne(a, path, ugid, role);
        if !(a.path == path && a.ugid == ugid && a.role == role) {
          data[kept] := a;
          kept := kept + 1;
        }
      }
      assert was[..len] == was;
      len := kept;
    }

    method GrantSubject(path: string, propagate: bool, subject: Subject, roles: seq<string>)
      requires Valid()
      modifies this, data
      ensures Valid() && Contents() == old(Contents()) + Granted(path, propagate, subject, roles)
      ensures data == old(data) || fresh(data)
    {
      for i := 0 to |roles|
        invariant Valid() && (data == old(data) || fresh(data))
        invariant Contents() == old(Contents()) + Granted(path, propagate, subject, roles)[..i]
      {
        Append(Entry(path, roles[i], subject.kind, subject.ugid, propagate));
      }
    }

    method RevokeSubject(path: string, ugid: string, roles: seq<string>)
      requires Valid()
      modifies this, data
      ensures Valid() && data == old(data)
      ensures Contents() == Uncovered(old(Contents()), path, Holdings(ugid, roles))
    {
      hide Uncovered;
      ghost var gone: set<Holding> := {};
      NoneGone(Contents(), path);
      for i := 0 to |roles|
        invariant Valid() && data == old(data)
        invariant gone == Holdings(ugid, roles[..i])
        invariant Contents() == Uncovered(old(Contents()), path, gone)
      {
        Remove(path, ugid, roles[i]);
        UncoveredTwice(old(Contents()), path, gone, {(ugid, roles[i])});
        gone := gone + {(ugid, roles[i])};
        assert roles[..i + 1] == roles[..i] + [roles[i]];
      }
      assert roles[..|roles|] == roles;
    }

    method Grant(path: string, propagate: bool, subjects: seq<Subject>, roles: seq<string>)
      requires Valid()
      modifies this, data
      ensures Valid() && Contents() == old(Contents()) + Grants(path, propagate, subjects, roles)
    {
      for i := 0 to |subjects|
        invariant Valid() && (data == old(data) || fresh(data))
        invariant Contents() == old(Contents()) + Grants(path, propagate, subjects[..i], roles)
      {
        assert subjects[..i + 1][..i] == subjects[..i];
        GrantSubject(path, propagate, subjects[i], roles);
      }
      assert subjects[..|subjects|] == subjects;
    }

    method Revoke(path: string, subjects: seq<Subject>, roles: seq<string>)
      requires Valid()
      modifies this, data
      ensures Valid() && Contents() == Uncovered(old(Contents()), path, Pairs(subjects, roles))
    {
      ghost var gone: set<Holding> := {};
      NoneGone(Contents(), path);
      for i := 0 to |subjects|
        invariant Valid() && data == old(data)
        invariant gone == Pairs(subjects[..i], roles)
        invariant Contents() == Uncovered(old(Contents()), path, gone)
      {
        ghost var more := Holdings(subjects[i].ugid, roles);
        RevokeSubject(path, subjects[i].ugid, roles);
        UncoveredTwice(old(Contents()), path, gone, more);
        MorePairs(subjects, i, roles);
        gone := gone + more;
      }
      assert subjects[..|subjects|] == subjects;
    }

    /** handleACLSet. */
    method HandleSet(form: Form) returns (reply: Reply)
      requires Valid()
      modifies this, data
      ensures Valid() && (Contents(), reply) == Set(old(Contents()), form)
    {
      var path, roles := FormValue(form, "path"), SplitCSV(FormValue(form, "roles"));
      if path == "" || |roles| == 0 {
        return BadRequest;
      }
      var remove, propagate := FormValue(form, "delete") == "1", FormValue(form, "propagate") != "0";
      var subjects := Subjects(form);
      if remove {
        Revoke(path, subjects, roles);
      } else {
        Grant(path, propagate, subjects, roles);
      }
      return Done;
    }
  }

  lemma MorePairs(subjects: seq<Subject>, i: nat, roles: seq<string>)
    requires i < |subjects|
    ensures Pairs(subjects[..i + 1], roles) == Pairs(subjects[..i], roles) + Holdings(subjects[i].ugid, roles)
  {
    assert subjects[..i + 1] == subjects[..i] + [subjects[i]];
  }
}
