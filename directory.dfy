/** Membership resolution against the directory (Microsoft Graph): partition of a
    group's transitive members by their `@odata.type` tag, the key whitelists applied
    to groups and users, and the per-group scan for service principals among direct
    members. HTTP responses are given as values: a transitive-member payload is a
    sequence of records, and the directory's groups are a sequence searched in order. */
module Directory {
  import opened Seqs
  import opened Records

  const TYPE_KEY: string := "@odata.type"
  const GROUP_TAG: string := "#microsoft.graph.group"
  const USER_TAG: string := "#microsoft.graph.user"
  const SP_TAG: string := "#microsoft.graph.servicePrincipal"

  /** Keys kept for a sub-group and for a user. */
  const GROUP_KEYS: seq<string> := ["displayName"]
  const USER_KEYS: seq<string> := ["userPrincipalName", "givenName", "familyName", "displayName"]

  /** A directory group as the name query followed by `$expand=members` sees it. */
  datatype DirectoryGroup = DirectoryGroup(id: string, displayName: string, members: seq<Record>)

  // ---------------------------------------------------------------------------
  // Partition and projection of the transitive-member payload
  // ---------------------------------------------------------------------------

  /** Every entry carries `@odata.type`; otherwise `d['@odata.type']` raises. */
  predicate AllTagged(entries: seq<Record>) {
    forall i :: 0 <= i < |entries| ==> TYPE_KEY in entries[i]
  }

  predicate TaggedAs(tag: string, e: Record) {
    TYPE_KEY in e && e[TYPE_KEY] == tag
  }

  /** `[d for d in groups_users if d['@odata.type'] == tag]` on a fully tagged payload. */
  function OfKind(entries: seq<Record>, tag: string): (r: seq<Record>)
    ensures |r| <= |entries|
    ensures forall i :: 0 <= i < |r| ==> TaggedAs(tag, r[i])
  {
    var keep := (e: Record) => TaggedAs(tag, e);
    FilterKeeps(keep, entries);
    Filter(keep, entries)
  }

  function ProjectAll(rs: seq<Record>, keys: seq<string>): (ps: seq<Record>)
    ensures |ps| == |rs|
    ensures forall i :: 0 <= i < |rs| ==> ps[i] == Project(rs[i], keys)
  {
    seq(|rs|, i requires 0 <= i < |rs| => Project(rs[i], keys))
  }

  /** get_all_group_details: the originating group's record, then every sub-group
      reduced to its display name. */
  function GroupDetails(entries: seq<Record>, origin: Record): (r: Result<seq<Record>>)
    ensures r.Ok? <==> AllTagged(entries)
    ensures r.KeyError? ==> r.key == TYPE_KEY
    ensures r.Ok? ==> |r.value| == 1 + |OfKind(entries, GROUP_TAG)| && r.value[0] == origin
  {
    if AllTagged(entries) then Ok([origin] + ProjectAll(OfKind(entries, GROUP_TAG), GROUP_KEYS))
    else KeyError(TYPE_KEY)
  }

  /** get_all_user_details: every user reduced to the whitelisted keys it has. */
  function UserDetails(entries: seq<Record>): (r: Result<seq<Record>>)
    ensures r.Ok? <==> AllTagged(entries)
    ensures r.KeyError? ==> r.key == TYPE_KEY
    ensures r.Ok? ==> |r.value| == |OfKind(entries, USER_TAG)|
  {
    if AllTagged(entries) then Ok(ProjectAll(OfKind(entries, USER_TAG), USER_KEYS))
    else KeyError(TYPE_KEY)
  }

  /** The kind filter keeps exactly the entries with that tag, each as often as it
      occurs in the payload, in payload order. */
  lemma OfKindSpec(entries: seq<Record>, tag: string)
    ensures forall e :: e in OfKind(entries, tag) <==> e in entries && TaggedAs(tag, e)
    ensures forall e :: multiset(OfKind(entries, tag))[e] == if TaggedAs(tag, e) then multiset(entries)[e] else 0
    ensures IsSubsequence(OfKind(entries, tag), entries)
  {
    FilterSpec((e: Record) => TaggedAs(tag, e), entries);
  }

  /** Every projected record comes from an entry, and every entry is projected. */
  lemma ProjectAllSpec(rs: seq<Record>, keys: seq<string>)
    ensures forall k :: 0 <= k < |rs| ==> ProjectAll(rs, keys)[k] == Project(rs[k], keys) && rs[k] in rs
    ensures forall e :: e in rs ==> Project(e, keys) in ProjectAll(rs, keys)
  {
    var ps := ProjectAll(rs, keys);
    forall e | e in rs
      ensures Project(e, keys) in ps
    {
      var i :| 0 <= i < |rs| && rs[i] == e;
      assert ps[i] == Project(e, keys);
    }
  }

  /** The group list is the origin record followed by the projected sub-groups. */
  lemma GroupDetailsShape(entries: seq<Record>, origin: Record)
    requires AllTagged(entries)
    ensures var r := GroupDetails(entries, origin).value;
      r[0] == origin && r[1..] == ProjectAll(OfKind(entries, GROUP_TAG), GROUP_KEYS)
  {
    var r := GroupDetails(entries, origin).value;
    assert r == [origin] + ProjectAll(OfKind(entries, GROUP_TAG), GROUP_KEYS);
  }

  /** A projected sub-group holds at most the key `displayName`. */
  lemma GroupKeysOnly(entries: seq<Record>, origin: Record)
    requires AllTagged(entries)
    ensures var r := GroupDetails(entries, origin).value;
      forall k :: 0 <= k < |r[1..]| ==> r[1..][k].Keys <= {"displayName"}
  {
    GroupDetailsShape(entries, origin);
  }

  /** Each projected sub-group comes from a group-tagged entry. */
  lemma GroupsFromEntries(entries: seq<Record>, origin: Record)
    requires AllTagged(entries)
    ensures var r := GroupDetails(entries, origin).value;
      forall k :: 0 <= k < |r[1..]| ==>
        exists e :: e in entries && TaggedAs(GROUP_TAG, e) && r[1..][k] == Project(e, GROUP_KEYS)
  {
    var gs := OfKind(entries, GROUP_TAG);
    var ps := GroupDetails(entries, origin).value[1..];
    GroupDetailsShape(entries, origin);
    OfKindSpec(entries, GROUP_TAG);
    forall k | 0 <= k < |ps|
      ensures exists e :: e in entries && TaggedAs(GROUP_TAG, e) && ps[k] == Project(e, GROUP_KEYS)
    {
      assert ps[k] == Project(gs[k], GROUP_KEYS) && gs[k] in gs;
    }
  }

  /** Each group-tagged entry is projected into the list. */
  lemma EntriesInGroups(entries: seq<Record>, origin: Record)
    requires AllTagged(entries)
    ensures var r := GroupDetails(entries, origin).value;
      forall e :: e in entries && TaggedAs(GROUP_TAG, e) ==> Project(e, GROUP_KEYS) in r[1..]
  {
    var gs := OfKind(entries, GROUP_TAG);
    GroupDetailsShape(entries, origin);
    OfKindSpec(entries, GROUP_TAG);
    ProjectAllSpec(gs, GROUP_KEYS);
  }

  /** The group list is the origin record followed by the display-name projection of
      each group-tagged entry, in order; every group-tagged entry is represented and
      nothing else is. */
  lemma GroupDetailsSpec(entries: seq<Record>, origin: Record)
    requires AllTagged(entries)
    ensures GroupDetails(entries, origin).Ok?
    ensures var r := GroupDetails(entries, origin).value;
      && |r| == 1 + |OfKind(entries, GROUP_TAG)|
      && r[0] == origin
      && r[1..] == ProjectAll(OfKind(entries, GROUP_TAG), GROUP_KEYS)
      && IsSubsequence(OfKind(entries, GROUP_TAG), entries)
    ensures var r := GroupDetails(entries, origin).value;
      forall k :: 0 <= k < |r[1..]| ==> r[1..][k].Keys <= {"displayName"}
    ensures var r := GroupDetails(entries, origin).value;
      forall k :: 0 <= k < |r[1..]| ==>
        exists e :: e in entries && TaggedAs(GROUP_TAG, e) && r[1..][k] == Project(e, GROUP_KEYS)
    ensures var r := GroupDetails(entries, origin).value;
      forall e :: e in entries && TaggedAs(GROUP_TAG, e) ==> Project(e, GROUP_KEYS) in r[1..]
  {
    GroupDetailsShape(entries, origin);
    OfKindSpec(entries, GROUP_TAG);
    GroupKeysOnly(entries, origin);
    GroupsFromEntries(entries, origin);
    EntriesInGroups(entries, origin);
  }

  /** The users are exactly the user-tagged entries, in order, each projected onto the
      whitelisted keys it actually has: absent keys are omitted, present ones copied. */
  lemma UserDetailsSpec(entries: seq<Record>)
    requires AllTagged(entries)
    ensures UserDetails(entries).Ok?
    ensures var r := UserDetails(entries).value;
      var us := OfKind(entries, USER_TAG);
      && |r| == |us|
      && IsSubsequence(us, entries)
      && (forall e :: e in us <==> e in entries && TaggedAs(USER_TAG, e))
      && (forall e :: multiset(us)[e] == if TaggedAs(USER_TAG, e) then multiset(entries)[e] else 0)
      && (forall k, key :: 0 <= k < |r| ==> (key in r[k] <==> key in USER_KEYS && key in us[k]))
      && (forall k, key :: 0 <= k < |r| && key in r[k] ==> r[k][key] == us[k][key])
  {
    OfKindSpec(entries, USER_TAG);
  }

  /** The partition is disjoint: no entry is both a group and a user, so the kinds
      together never hold more entries than the payload. */
  lemma {:induction false} PartitionByTag(entries: seq<Record>)
    ensures |OfKind(entries, GROUP_TAG)| + |OfKind(entries, USER_TAG)| + |OfKind(entries, SP_TAG)| <= |entries|
    ensures forall e :: !(e in OfKind(entries, GROUP_TAG) && e in OfKind(entries, USER_TAG))
  {
    OfKindSpec(entries, GROUP_TAG);
    OfKindSpec(entries, USER_TAG);
    if entries != [] {
      PartitionByTag(entries[..|entries| - 1]);
    }
  }

  // ---------------------------------------------------------------------------
  // Directory look-ups by name (first match wins)
  // ---------------------------------------------------------------------------

  /** `groups?$filter=displayName eq '<name>'` followed by `value[0]`. */
  function FirstNamed(dir: seq<DirectoryGroup>, name: string): (r: Option<DirectoryGroup>)
    ensures r.None? <==> forall i :: 0 <= i < |dir| ==> dir[i].displayName != name
    ensures r.Some? ==> exists i :: 0 <= i < |dir| && dir[i] == r.value && dir[i].displayName == name &&
                                    forall j :: 0 <= j < i ==> dir[j].displayName != name
  {
    var k := FirstIndex((d: DirectoryGroup) => d.displayName == name, dir);
    if k < |dir| then Some(dir[k]) else None
  }

  /** get_group_id_from_name: `startswith(displayName, '<name>')`, first match's id,
      None where the source returns False. */
  function GroupIdFromName(dir: seq<DirectoryGroup>, name: string): (r: Option<string>)
    ensures r.None? <==> forall i :: 0 <= i < |dir| ==> !StartsWith(dir[i].displayName, name)
    ensures r.Some? ==> exists i :: 0 <= i < |dir| && dir[i].id == r.value && StartsWith(dir[i].displayName, name) &&
                                    forall j :: 0 <= j < i ==> !StartsWith(dir[j].displayName, name)
  {
    var k := FirstIndex((d: DirectoryGroup) => StartsWith(d.displayName, name), dir);
    if k < |dir| then Some(dir[k].id) else None
  }

  // ---------------------------------------------------------------------------
  // Service-principal discovery among the direct members of each listed group
  // ---------------------------------------------------------------------------

  /** `"#microsoft.graph.servicePrincipal" in sps.values()` */
  predicate IsServicePrincipal(m: Record) {
    SP_TAG in m.Values
  }

  /** The keys a member's handling reads with a subscript: a service principal needs
      the group's and its own `displayName` and its `id`; any other member needs its
      own `displayName` for the log line. A missing one raises KeyError. */
  predicate Scannable(group: Record, m: Record) {
    if IsServicePrincipal(m) then "displayName" in group && "displayName" in m && "id" in m
    else "displayName" in m
  }

  /** The record written to the service-principal file for one member. */
  function SpRecord(accountNumber: string, m: Record): Record
    requires "id" in m && "displayName" in m
  {
    map["account_id" := accountNumber, "id" := m["id"], "displayName" := m["displayName"],
        "applicationId" := m["id"], "active" := "true"]
  }

  /** The fixed shape of a service-principal record. */
  predicate SpShaped(accountNumber: string, r: Record) {
    && r.Keys == {"account_id", "id", "displayName", "applicationId", "active"}
    && r["account_id"] == accountNumber
    && r["applicationId"] == r["id"]
    && r["active"] == "true"
  }

  function SpRecords(accountNumber: string, ps: seq<Record>): (rs: seq<Record>)
    requires forall i :: 0 <= i < |ps| ==> "id" in ps[i] && "displayName" in ps[i]
    ensures |rs| == |ps|
  {
    seq(|ps|, i requires 0 <= i < |ps| && "id" in ps[i] && "displayName" in ps[i] => SpRecord(accountNumber, ps[i]))
  }

  /** What a scan has appended to the output file, and whether it ran to the end. */
  datatype Scan = Scan(emitted: seq<Record>, ok: bool)

  /** Run b after a, unless a has already raised. */
  function Then(a: Scan, b: Scan): Scan {
    if a.ok then Scan(a.emitted + b.emitted, b.ok) else a
  }

  /** One direct member: a KeyError on a missing subscript, one record for a service
      principal, nothing otherwise. */
  function ScanMember(accountNumber: string, group: Record, m: Record): (r: Scan)
    ensures r.ok <==> Scannable(group, m)
    ensures |r.emitted| <= 1
    ensures r.emitted != [] ==> IsServicePrincipal(m) && SpShaped(accountNumber, r.emitted[0])
  {
    if !Scannable(group, m) then Scan([], false)
    else if IsServicePrincipal(m) then Scan([SpRecord(accountNumber, m)], true)
    else Scan([], true)
  }

  /** The member loop: at most one record per member. */
  function ScanMembers(accountNumber: string, group: Record, ms: seq<Record>): (r: Scan)
    ensures |r.emitted| <= |ms|
  {
    if ms == [] then Scan([], true)
    else Then(ScanMembers(accountNumber, group, ms[..|ms| - 1]), ScanMember(accountNumber, group, ms[|ms| - 1]))
  }

  /** The directory has a group named like the listed group. */
  predicate Found(dir: seq<DirectoryGroup>, group: Record) {
    FirstNamed(dir, Get(group, "displayName", "None")).Some?
  }

  /** One listed group: look it up by `str(group.get("displayName"))`, take the first
      match (IndexError when there is none), then scan its direct members; a group
      without members only logs, which reads `group['displayName']`. */
  function ScanGroup(dir: seq<DirectoryGroup>, accountNumber: string, group: Record): (r: Scan)
    ensures r.ok ==> Found(dir, group)
    ensures r.emitted != [] ==>
      FirstNamed(dir, Get(group, "displayName", "None")).Some? &&
      |r.emitted| <= |FirstNamed(dir, Get(group, "displayName", "None")).value.members|
  {
    match FirstNamed(dir, Get(group, "displayName", "None"))
    case None => Scan([], false)
    case Some(d) =>
      if |d.members| > 0 then ScanMembers(accountNumber, group, d.members)
      else Scan([], "displayName" in group)
  }

  /** The group loop: a scan that runs to the end found every listed group in the
      directory. */
  function ScanGroups(dir: seq<DirectoryGroup>, accountNumber: string, groups: seq<Record>): (r: Scan)
    ensures r.ok ==> forall i :: 0 <= i < |groups| ==> Found(dir, groups[i])
  {
    if groups == [] then Scan([], true)
    else
      var init := groups[..|groups| - 1];
      assert forall i :: 0 <= i < |init| ==> init[i] == groups[i];
      Then(ScanGroups(dir, accountNumber, init), ScanGroup(dir, accountNumber, groups[|groups| - 1]))
  }

  /** Once a member has raised, the rest of the member list changes nothing. */
  lemma {:induction false} ScanMembersStops(accountNumber: string, group: Record, ms: seq<Record>, k: nat)
    requires k <= |ms| && !ScanMembers(accountNumber, group, ms[..k]).ok
    ensures ScanMembers(accountNumber, group, ms) == ScanMembers(accountNumber, group, ms[..k])
    decreases |ms|
  {
    if k < |ms| {
      var init := ms[..|ms| - 1];
      assert init[..k] == ms[..k];
      ScanMembersStops(accountNumber, group, init, k);
    } else {
      assert ms[..k] == ms;
    }
  }

  /** Once a group has raised, the rest of the group list changes nothing. */
  lemma {:induction false} ScanGroupsStops(dir: seq<DirectoryGroup>, accountNumber: string, groups: seq<Record>, k: nat)
    requires k <= |groups| && !ScanGroups(dir, accountNumber, groups[..k]).ok
    ensures ScanGroups(dir, accountNumber, groups) == ScanGroups(dir, accountNumber, groups[..k])
    decreases |groups|
  {
    if k < |groups| {
      var init := groups[..|groups| - 1];
      assert init[..k] == groups[..k];
      ScanGroupsStops(dir, accountNumber, init, k);
    } else {
      assert groups[..k] == groups;
    }
  }

  /** The inner loop of get_service_principal_details over one group's direct members:
      appends one record per service principal to `file`, and stops at the first
      member whose handling raises KeyError. */
  method ScanMembersInto(group: Record, members: seq<Record>, accountNumber: string, file: seq<Record>)
    returns (emitted: seq<Record>, ok: bool)
    ensures emitted == file + ScanMembers(accountNumber, group, members).emitted
    ensures ok == ScanMembers(accountNumber, group, members).ok
  {
    emitted := file;
    var j := 0;
    while j < |members|
      invariant 0 <= j <= |members|
      invariant ScanMembers(accountNumber, group, members[..j]).ok
      invariant emitted == file + ScanMembers(accountNumber, group, members[..j]).emitted
    {
      var m := members[j];
      assert members[..j + 1][..j] == members[..j];
      if !Scannable(group, m) {
        ok := false;
        ScanMembersStops(accountNumber, group, members, j + 1);
        return;
      }
      if IsServicePrincipal(m) {
        emitted := emitted + [SpRecord(accountNumber, m)];
      }
      j := j + 1;
    }
    assert members[..j] == members;
    ok := true;
  }

  /** get_service_principal_details: for each listed group, look it up, fetch its
      direct members and append one record per service principal to the output. On a
      KeyError or IndexError the scan stops; what it had appended stays in the file. */
  method ScanServicePrincipals(dir: seq<DirectoryGroup>, groups: seq<Record>, accountNumber: string)
    returns (emitted: seq<Record>, ok: bool)
    ensures Scan(emitted, ok) == ScanGroups(dir, accountNumber, groups)
  {
    emitted := [];
    var i := 0;
    while i < |groups|
      invariant 0 <= i <= |groups|
      invariant ScanGroups(dir, accountNumber, groups[..i]) == Scan(emitted, true)
    {
      var group := groups[i];
      assert groups[..i + 1][..i] == groups[..i];
      var found := FirstNamed(dir, Get(group, "displayName", "None"));
      if found.None? {
        ok := false;
        ScanGroupsStops(dir, accountNumber, groups, i + 1);
        return;
      }
      var members := found.value.members;
      if |members| > 0 {
        var groupOk;
        emitted, groupOk := ScanMembersInto(group, members, accountNumber, emitted);
        if !groupOk {
          ok := false;
          ScanGroupsStops(dir, accountNumber, groups, i + 1);
          return;
        }
      } else if "displayName" !in group {
        ok := false;
        ScanGroupsStops(dir, accountNumber, groups, i + 1);
        return;
      }
      i := i + 1;
    }
    assert groups[..i] == groups;
    ok := true;
  }

  lemma SpRecordsSnoc(accountNumber: string, ps: seq<Record>, p: Record)
    requires forall i :: 0 <= i < |ps| ==> "id" in ps[i] && "displayName" in ps[i]
    requires "id" in p && "displayName" in p
    ensures SpRecords(accountNumber, ps + [p]) == SpRecords(accountNumber, ps) + [SpRecord(accountNumber, p)]
  {
  }

  /** Handleable service-principal members carry the keys their record is built from. */
  lemma SpMembersHaveKeys(group: Record, ms: seq<Record>)
    requires forall j :: 0 <= j < |ms| ==> Scannable(group, ms[j])
    ensures forall i :: 0 <= i < |Filter(IsServicePrincipal, ms)| ==>
              "id" in Filter(IsServicePrincipal, ms)[i] && "displayName" in Filter(IsServicePrincipal, ms)[i]
  {
    FilterMembers(IsServicePrincipal, ms);
    forall i | 0 <= i < |Filter(IsServicePrincipal, ms)|
      ensures "id" in Filter(IsServicePrincipal, ms)[i] && "displayName" in Filter(IsServicePrincipal, ms)[i]
    {
      var p := Filter(IsServicePrincipal, ms)[i];
      assert p in Filter(IsServicePrincipal, ms);
      var j :| 0 <= j < |ms| && ms[j] == p;
      assert Scannable(group, ms[j]) && IsServicePrincipal(p);
    }
  }

  /** When every member can be handled, the scan emits exactly one fixed-shape record
      per service-principal member, in member order, and nothing for other members. */
  lemma {:induction false} ScanMembersComplete(accountNumber: string, group: Record, ms: seq<Record>)
    requires forall j :: 0 <= j < |ms| ==> Scannable(group, ms[j])
    ensures forall i :: 0 <= i < |Filter(IsServicePrincipal, ms)| ==>
              "id" in Filter(IsServicePrincipal, ms)[i] && "displayName" in Filter(IsServicePrincipal, ms)[i]
    ensures ScanMembers(accountNumber, group, ms) == Scan(SpRecords(accountNumber, Filter(IsServicePrincipal, ms)), true)
  {
    SpMembersHaveKeys(group, ms);
    if ms != [] {
      var init, last := ms[..|ms| - 1], ms[|ms| - 1];
      assert Scannable(group, last);
      ScanMembersComplete(accountNumber, group, init);
      var ps := Filter(IsServicePrincipal, init);
      var before := ScanMembers(accountNumber, group, init);
      assert before == Scan(SpRecords(accountNumber, ps), true);
      assert ScanMembers(accountNumber, group, ms) == Then(before, ScanMember(accountNumber, group, last));
      if IsServicePrincipal(last) {
        assert Filter(IsServicePrincipal, ms) == ps + [last];
        assert ScanMember(accountNumber, group, last) == Scan([SpRecord(accountNumber, last)], true);
        SpRecordsSnoc(accountNumber, ps, last);
      } else {
        assert Filter(IsServicePrincipal, ms) == ps;
        assert ScanMember(accountNumber, group, last) == Scan([], true);
        assert before.emitted + [] == before.emitted;
      }
    }
  }

  /** At the first member that cannot be handled the scan stops; the file then holds
      the records of the service principals before it. */
  lemma ScanMembersFirstFailure(accountNumber: string, group: Record, ms: seq<Record>, k: nat)
    requires k < |ms| && !Scannable(group, ms[k])
    requires forall j :: 0 <= j < k ==> Scannable(group, ms[j])
    ensures forall i :: 0 <= i < |Filter(IsServicePrincipal, ms[..k])| ==>
              "id" in Filter(IsServicePrincipal, ms[..k])[i] && "displayName" in Filter(IsServicePrincipal, ms[..k])[i]
    ensures ScanMembers(accountNumber, group, ms) == Scan(SpRecords(accountNumber, Filter(IsServicePrincipal, ms[..k])), false)
  {
    var pre := ms[..k];
    ScanMembersComplete(accountNumber, group, pre);
    assert ms[..k + 1][..k] == pre;
    ScanMembersStops(accountNumber, group, ms, k + 1);
  }

  /** A record the member scan emits comes from a service-principal member of that list. */
  predicate FromMember(accountNumber: string, ms: seq<Record>, r: Record) {
    exists m :: m in ms && IsServicePrincipal(m) && "id" in m && "displayName" in m && r == SpRecord(accountNumber, m)
  }

  lemma {:induction false} ScanMembersSound(accountNumber: string, group: Record, ms: seq<Record>)
    ensures forall r :: r in ScanMembers(accountNumber, group, ms).emitted ==> FromMember(accountNumber, ms, r)
  {
    if ms != [] {
      var init := ms[..|ms| - 1];
      ScanMembersSound(accountNumber, group, init);
      forall r | r in ScanMembers(accountNumber, group, ms).emitted
        ensures FromMember(accountNumber, ms, r)
      {
        if r in ScanMembers(accountNumber, group, init).emitted {
          var m :| m in init && IsServicePrincipal(m) && "id" in m && "displayName" in m && r == SpRecord(accountNumber, m);
          assert m in ms;
        } else {
          assert ms[|ms| - 1] in ms;
        }
      }
    }
  }

  /** A record emitted for a listed group comes from a service principal among the
      direct members of the directory group that group's name resolves to. */
  predicate FromListedGroup(dir: seq<DirectoryGroup>, accountNumber: string, groups: seq<Record>, r: Record) {
    exists i :: 0 <= i < |groups| && FromGroup(dir, accountNumber, groups[i], r)
  }

  predicate FromGroup(dir: seq<DirectoryGroup>, accountNumber: string, group: Record, r: Record) {
    var found := FirstNamed(dir, Get(group, "displayName", "None"));
    found.Some? && FromMember(accountNumber, found.value.members, r)
  }

  /** A record emitted for one listed group comes from a service-principal member of
      the directory group its name resolves to. */
  lemma ScanGroupSound(dir: seq<DirectoryGroup>, accountNumber: string, group: Record)
    ensures forall r :: r in ScanGroup(dir, accountNumber, group).emitted ==>
              SpShaped(accountNumber, r) && FromGroup(dir, accountNumber, group, r)
  {
    var found := FirstNamed(dir, Get(group, "displayName", "None"));
    if found.Some? {
      ScanMembersSound(accountNumber, group, found.value.members);
    }
  }

  /** Every emitted record has the fixed service-principal shape (`id` equal to
      `applicationId`, `active` "true") and stems from a direct service-principal
      member of a listed group. */
  lemma {:induction false} ScanGroupsSound(dir: seq<DirectoryGroup>, accountNumber: string, groups: seq<Record>)
    ensures forall r :: r in ScanGroups(dir, accountNumber, groups).emitted ==>
              SpShaped(accountNumber, r) && FromListedGroup(dir, accountNumber, groups, r)
  {
    if groups != [] {
      var init, last := groups[..|groups| - 1], groups[|groups| - 1];
      var before, step := ScanGroups(dir, accountNumber, init), ScanGroup(dir, accountNumber, last);
      assert ScanGroups(dir, accountNumber, groups) == Then(before, step);
      ScanGroupsSound(dir, accountNumber, init);
      ScanGroupSound(dir, accountNumber, last);
      forall r | r in Then(before, step).emitted
        ensures SpShaped(accountNumber, r) && FromListedGroup(dir, accountNumber, groups, r)
      {
        if r in before.emitted {
          var i :| 0 <= i < |init| && FromGroup(dir, accountNumber, init[i], r);
          assert groups[i] == init[i];
        } else {
          assert FromGroup(dir, accountNumber, groups[|groups| - 1], r);
        }
      }
    }
  }
}
