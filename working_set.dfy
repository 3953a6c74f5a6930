/** The working set between resolution and reconciliation: one file per target group
    and member kind, named `<group id>_tmp_groups.txt`, `<group id>_tmp_users.txt` and
    `<group id>_tmp_sp.txt`. This module models the listing filter applied before a
    group is reconciled, the derivation of group ids from file names, the selection of
    configuration keys, and the case split of process_files. */
module WorkingSet {
  import opened Seqs
  import opened Records

  const GROUPS_SUFFIX: string := "_tmp_groups.txt"
  const USERS_SUFFIX: string := "_tmp_users.txt"
  const SP_SUFFIX: string := "_tmp_sp.txt"

  datatype FileKind = GroupsFile | UsersFile | SpFile

  function Suffix(k: FileKind): string {
    match k
    case GroupsFile => GROUPS_SUFFIX
    case UsersFile => USERS_SUFFIX
    case SpFile => SP_SUFFIX
  }

  /** `f"{group_id}_tmp_users.txt"` and its two siblings. */
  function FileName(groupId: string, k: FileKind): string {
    groupId + Suffix(k)
  }

  // ---------------------------------------------------------------------------
  // filter_tmp_files_by_group_id
  // ---------------------------------------------------------------------------

  predicate Selected(groupId: string, name: string) {
    StartsWith(name, groupId) && (EndsWith(name, SP_SUFFIX) || EndsWith(name, USERS_SUFFIX))
  }

  /** The names of the listing that belong to the group's users or service-principal
      files, in listing order. */
  function FilteredNames(listing: seq<string>, groupId: string): (r: seq<string>)
    ensures |r| <= |listing|
    ensures forall i :: 0 <= i < |r| ==> Selected(groupId, r[i])
  {
    var keep := (name: string) => Selected(groupId, name);
    FilterKeeps(keep, listing);
    Filter(keep, listing)
  }

  /** filter_tmp_files_by_group_id over a directory listing given in listing order. */
  method FilterTmpFiles(listing: seq<string>, groupId: string) returns (matching: seq<string>)
    ensures matching == FilteredNames(listing, groupId)
  {
    matching := [];
    for i := 0 to |listing|
      invariant matching == FilteredNames(listing[..i], groupId)
    {
      FilterSnoc((name: string) => Selected(groupId, name), listing, i);
      var name := listing[i];
      if StartsWith(name, groupId) && (EndsWith(name, SP_SUFFIX) || EndsWith(name, USERS_SUFFIX)) {
        matching := matching + [name];
      }
    }
    assert listing[..|listing|] == listing;
  }

  lemma SpNameIsNotGroupsName(name: string)
    requires EndsWith(name, SP_SUFFIX)
    ensures !EndsWith(name, GROUPS_SUFFIX)
  {
    assert name[|name| - 11..][4] == name[|name| - 7] == '_';
    assert |name| >= 15 ==> name[|name| - 15..][8] == name[|name| - 7];
  }

  lemma UsersNameIsNotGroupsName(name: string)
    requires EndsWith(name, USERS_SUFFIX)
    ensures !EndsWith(name, GROUPS_SUFFIX)
  {
    assert name[|name| - 14..][7] == name[|name| - 7] == 'e';
    assert |name| >= 15 ==> name[|name| - 15..][8] == name[|name| - 7];
  }

  /** The filter returns, in listing order, exactly the names that start with the
      group id and end in the users or service-principal suffix; a groups file is
      never among them. */
  lemma FilteredNamesSpec(listing: seq<string>, groupId: string)
    ensures forall n :: n in FilteredNames(listing, groupId) <==>
              n in listing && StartsWith(n, groupId) && (EndsWith(n, SP_SUFFIX) || EndsWith(n, USERS_SUFFIX))
    ensures forall n :: n in FilteredNames(listing, groupId) ==> !EndsWith(n, GROUPS_SUFFIX)
    ensures IsSubsequence(FilteredNames(listing, groupId), listing)
  {
    FilterSpec((name: string) => Selected(groupId, name), listing);
    forall n | n in FilteredNames(listing, groupId)
      ensures !EndsWith(n, GROUPS_SUFFIX)
    {
      if EndsWith(n, SP_SUFFIX) {
        SpNameIsNotGroupsName(n);
      } else {
        UsersNameIsNotGroupsName(n);
      }
    }
  }

  /** The users and service-principal files written for a group are selected for it,
      its groups file is not. */
  lemma ConventionNamesSelected(groupId: string)
    ensures Selected(groupId, FileName(groupId, UsersFile))
    ensures Selected(groupId, FileName(groupId, SpFile))
    ensures !Selected(groupId, FileName(groupId, GroupsFile))
  {
    var u, s, g := FileName(groupId, UsersFile), FileName(groupId, SpFile), FileName(groupId, GroupsFile);
    assert u[..|groupId|] == groupId && u[|u| - |USERS_SUFFIX|..] == USERS_SUFFIX;
    assert s[..|groupId|] == groupId && s[|s| - |SP_SUFFIX|..] == SP_SUFFIX;
    assert g[|g| - |GROUPS_SUFFIX|..] == GROUPS_SUFFIX;
    if EndsWith(g, SP_SUFFIX) { SpNameIsNotGroupsName(g); }
    if EndsWith(g, USERS_SUFFIX) { UsersNameIsNotGroupsName(g); }
  }

  /** The filter matches by prefix only: a group id that is a prefix of another group
      id also selects that other group's files. */
  lemma PrefixIdSelectsOtherGroup(groupId: string, otherId: string, k: FileKind)
    requires StartsWith(otherId, groupId) && k != GroupsFile
    ensures Selected(groupId, FileName(otherId, k))
  {
    var n := FileName(otherId, k);
    assert n[..|groupId|] == otherId[..|groupId|];
    ConventionNamesSelected(otherId);
  }

  // ---------------------------------------------------------------------------
  // Group ids from file names: `{file.split('_')[0] for file in file_names}`
  // ---------------------------------------------------------------------------

  /** `name.split('_')[0]`: the longest prefix of the name without an underscore. */
  function FirstSegment(name: string): (seg: string)
    ensures '_' !in seg
    ensures StartsWith(name, seg)
    ensures seg == name || name[|seg|] == '_'
  {
    if name == [] then []
    else if name[0] == '_' then []
    else [name[0]] + FirstSegment(name[1..])
  }

  /** `{file.split('_')[0] for file in file_names}`: every id is underscore-free and
      begins some file name. */
  function GroupIds(names: seq<string>): (ids: set<string>)
    ensures forall id :: id in ids ==> '_' !in id
    ensures forall id :: id in ids ==> exists n :: n in names && StartsWith(n, id)
  {
    set n | n in names :: FirstSegment(n)
  }

  /** A working-set file name gives back the id it was written for, provided the id
      has no underscore (a directory group id is a GUID). */
  lemma {:induction false} FirstSegmentOfFileName(groupId: string, k: FileKind)
    requires '_' !in groupId
    ensures FirstSegment(FileName(groupId, k)) == groupId
    decreases |groupId|
  {
    var n := FileName(groupId, k);
    if groupId == [] {
      assert n[0] == '_';
    } else {
      assert n[1..] == FileName(groupId[1..], k);
      FirstSegmentOfFileName(groupId[1..], k);
    }
  }

  /** The three files written for each id of `ids`, id by id. */
  function WorkingSetNames(ids: seq<string>): (names: seq<string>)
    ensures |names| == 3 * |ids|
  {
    if ids == [] then []
    else
      var id := ids[|ids| - 1];
      WorkingSetNames(ids[..|ids| - 1]) + [FileName(id, GroupsFile), FileName(id, UsersFile), FileName(id, SpFile)]
  }

  lemma GroupIdsAppend(a: seq<string>, b: seq<string>)
    ensures GroupIds(a + b) == GroupIds(a) + GroupIds(b)
  {
  }

  /** The id set of a working set written for ids without underscores (directory
      group ids are GUIDs) is exactly the set of those ids. */
  lemma {:induction false} GroupIdsOfWorkingSet(ids: seq<string>)
    requires forall i :: 0 <= i < |ids| ==> '_' !in ids[i]
    ensures GroupIds(WorkingSetNames(ids)) == set id | id in ids
  {
    if ids != [] {
      var init, id := ids[..|ids| - 1], ids[|ids| - 1];
      assert ids == init + [id];
      assert forall i :: 0 <= i < |init| ==> init[i] == ids[i];
      GroupIdsOfWorkingSet(init);
      GroupIdsOfOneGroup(id);
      GroupIdsAppend(WorkingSetNames(init), [FileName(id, GroupsFile), FileName(id, UsersFile), FileName(id, SpFile)]);
      assert (set x | x in ids) == (set x | x in init) + {id};
    }
  }

  lemma GroupIdsOfOneGroup(groupId: string)
    requires '_' !in groupId
    ensures GroupIds([FileName(groupId, GroupsFile), FileName(groupId, UsersFile), FileName(groupId, SpFile)]) == {groupId}
  {
    FirstSegmentOfFileName(groupId, GroupsFile);
    FirstSegmentOfFileName(groupId, UsersFile);
    FirstSegmentOfFileName(groupId, SpFile);
  }

  // ---------------------------------------------------------------------------
  // Configuration keys: `[key for key, value in items if isinstance(value, list) and len(value) > 0]`
  // ---------------------------------------------------------------------------

  /** A value of the sync configuration: a list, or anything else. */
  datatype ConfigValue = ListValue(items: seq<string>) | OtherValue

  predicate NonEmptyList(v: ConfigValue) {
    v.ListValue? && |v.items| > 0
  }

  /** The keys processed, in the configuration's order. */
  function SelectedKeys(config: seq<(string, ConfigValue)>): (keys: seq<string>)
    ensures |keys| <= |config|
  {
    var keep := (entry: (string, ConfigValue)) => NonEmptyList(entry.1);
    FilterKeeps(keep, config);
    var kept := Filter(keep, config);
    seq(|kept|, i requires 0 <= i < |kept| => kept[i].0)
  }

  lemma SelectedKeysSpec(config: seq<(string, ConfigValue)>)
    ensures forall k :: k in SelectedKeys(config) <==>
              exists i :: 0 <= i < |config| && config[i].0 == k && NonEmptyList(config[i].1)
    ensures |SelectedKeys(config)| <= |config|
  {
    var keep := (entry: (string, ConfigValue)) => NonEmptyList(entry.1);
    var kept := Filter(keep, config);
    FilterMembers(keep, config);
    forall k | k in SelectedKeys(config)
      ensures exists i :: 0 <= i < |config| && config[i].0 == k && NonEmptyList(config[i].1)
    {
      var j :| 0 <= j < |kept| && kept[j].0 == k;
      assert kept[j] in config;
    }
    forall k | exists i :: 0 <= i < |config| && config[i].0 == k && NonEmptyList(config[i].1)
      ensures k in SelectedKeys(config)
    {
      var i :| 0 <= i < |config| && config[i].0 == k && NonEmptyList(config[i].1);
      assert config[i] in kept;
      var j :| 0 <= j < |kept| && kept[j] == config[i];
      assert SelectedKeys(config)[j] == k;
    }
  }

  // ---------------------------------------------------------------------------
  // process_files: which files are reconciled, in which order
  // ---------------------------------------------------------------------------

  /** The first name ending in the suffix: `[f for f in files if f.endswith(s)][0]`,
      None where that subscript raises IndexError. */
  function FirstEndingWith(files: seq<string>, suffix: string): (r: Option<string>)
    ensures r.None? <==> forall i :: 0 <= i < |files| ==> !EndsWith(files[i], suffix)
    ensures r.Some? ==> exists i :: 0 <= i < |files| && files[i] == r.value && EndsWith(r.value, suffix) &&
                                    forall j :: 0 <= j < i ==> !EndsWith(files[j], suffix)
  {
    var k := FirstIndex((f: string) => EndsWith(f, suffix), files);
    if k < |files| then Some(files[k]) else None
  }

  /** `any(suffix in file for file in files)`: a substring test. */
  predicate AnyContains(files: seq<string>, t: string) {
    exists i :: 0 <= i < |files| && Contains(files[i], t)
  }

  /** The users file and the service-principal file process_files hands on, in that
      order (None: that kind is not processed), and whether a subscript on an empty
      suffix list raises IndexError after them; or exit code 99. */
  datatype Plan = Dispatch(users: Option<string>, sps: Option<string>, indexError: bool) | Exit99

  function PlanFor(matching: seq<string>): (p: Plan)
    ensures p.Dispatch? && p.users.Some? ==> p.users.value in matching && EndsWith(p.users.value, USERS_SUFFIX)
    ensures p.Dispatch? && p.sps.Some? ==> p.sps.value in matching && EndsWith(p.sps.value, SP_SUFFIX)
  {
    var hasUsers := AnyContains(matching, USERS_SUFFIX);
    var hasSp := AnyContains(matching, SP_SUFFIX);
    var u := FirstEndingWith(matching, USERS_SUFFIX);
    var s := FirstEndingWith(matching, SP_SUFFIX);
    if hasUsers && hasSp then
      (if u.None? then Dispatch(None, None, true)
       else if s.None? then Dispatch(u, None, true)
       else Dispatch(u, s, false))
    else if hasUsers then
      (if u.None? then Dispatch(None, None, true) else Dispatch(u, None, false))
    else if hasSp then
      (if s.None? then Dispatch(None, None, true) else Dispatch(None, s, false))
    else Exit99
  }

  /** Every name's substring test agrees with its suffix test. */
  predicate SuffixTestsAgree(files: seq<string>) {
    forall i :: 0 <= i < |files| ==>
      (Contains(files[i], USERS_SUFFIX) <==> EndsWith(files[i], USERS_SUFFIX)) &&
      (Contains(files[i], SP_SUFFIX) <==> EndsWith(files[i], SP_SUFFIX))
  }

  /** Where the two tests agree, "some name contains t" and "some name ends with t"
      coincide. */
  lemma AnyContainsIsSome(files: seq<string>, t: string)
    requires forall i :: 0 <= i < |files| ==> (Contains(files[i], t) <==> EndsWith(files[i], t))
    ensures AnyContains(files, t) <==> FirstEndingWith(files, t).Some?
  {
    if AnyContains(files, t) {
      var i :| 0 <= i < |files| && Contains(files[i], t);
      assert EndsWith(files[i], t);
    }
    if FirstEndingWith(files, t).Some? {
      var i :| 0 <= i < |files| && EndsWith(files[i], t);
      assert Contains(files[i], t);
    }
  }

  /** When the substring and suffix tests agree, process_files handles the first users
      file if there is one, then the first service-principal file if there is one,
      and exits with 99 exactly when there is neither. */
  lemma PlanForSpec(matching: seq<string>)
    requires SuffixTestsAgree(matching)
    ensures PlanFor(matching).Exit99? <==>
              forall i :: 0 <= i < |matching| ==> !EndsWith(matching[i], USERS_SUFFIX) && !EndsWith(matching[i], SP_SUFFIX)
    ensures PlanFor(matching).Dispatch? ==>
              && !PlanFor(matching).indexError
              && PlanFor(matching).users == FirstEndingWith(matching, USERS_SUFFIX)
              && PlanFor(matching).sps == FirstEndingWith(matching, SP_SUFFIX)
  {
    AnyContainsIsSome(matching, USERS_SUFFIX);
    AnyContainsIsSome(matching, SP_SUFFIX);
  }

  /** The lists the driver passes on come from the filter and are non-empty, so
      process_files never exits with 99 on them. */
  lemma FilteredListNeverExits(listing: seq<string>, groupId: string)
    requires FilteredNames(listing, groupId) != []
    ensures !PlanFor(FilteredNames(listing, groupId)).Exit99?
  {
    var m := FilteredNames(listing, groupId);
    assert Selected(groupId, m[0]);
    if EndsWith(m[0], USERS_SUFFIX) {
      EndsWithContains(m[0], USERS_SUFFIX);
      assert AnyContains(m, USERS_SUFFIX);
    } else {
      EndsWithContains(m[0], SP_SUFFIX);
      assert AnyContains(m, SP_SUFFIX);
    }
    PlanForExit(m);
  }

  /** process_files exits with 99 exactly when no name contains either suffix. */
  lemma PlanForExit(matching: seq<string>)
    ensures PlanFor(matching).Exit99? <==> !AnyContains(matching, USERS_SUFFIX) && !AnyContains(matching, SP_SUFFIX)
  {
  }

  lemma ContainsAt(s: string, t: string, i: nat)
    requires i <= |s| && StartsWith(s[i..], t)
    ensures Contains(s, t)
    decreases i
  {
    if i > 0 {
      assert s[1..][i - 1..] == s[i..];
      ContainsAt(s[1..], t, i - 1);
    }
  }

  /** The two tests can disagree. When some name contains the users suffix but none
      ends in it, process_files sees users, finds no users file, and raises IndexError
      (logged) before anything is processed. */
  lemma UsersMismatchRaises(matching: seq<string>)
    requires AnyContains(matching, USERS_SUFFIX)
    requires forall i :: 0 <= i < |matching| ==> !EndsWith(matching[i], USERS_SUFFIX)
    ensures PlanFor(matching) == Dispatch(None, None, true)
  {
  }

  /** process_files raises IndexError exactly when a kind passes the substring test
      but no name ends in its suffix. */
  lemma PlanForIndexError(matching: seq<string>)
    ensures (PlanFor(matching).Dispatch? && PlanFor(matching).indexError) <==>
              (AnyContains(matching, USERS_SUFFIX) && FirstEndingWith(matching, USERS_SUFFIX).None?) ||
              (AnyContains(matching, SP_SUFFIX) && FirstEndingWith(matching, SP_SUFFIX).None?)
  {
  }

  /** A witness for the mismatch: a service-principal file whose name also contains the
      users suffix, alone in the list. */
  lemma SubstringTestMismatch()
    ensures PlanFor(["g" + USERS_SUFFIX + SP_SUFFIX]) == Dispatch(None, None, true)
  {
    var name := "g" + USERS_SUFFIX + SP_SUFFIX;
    var files := [name];
    assert name[1..][..|USERS_SUFFIX|] == USERS_SUFFIX;
    ContainsAt(name, USERS_SUFFIX, 1);
    assert name[|name| - |USERS_SUFFIX|..][7] != USERS_SUFFIX[7];
    assert !EndsWith(name, USERS_SUFFIX);
    assert files[0] == name;
    assert AnyContains(files, USERS_SUFFIX);
    UsersMismatchRaises(files);
  }
}
