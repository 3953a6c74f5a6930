/** Reconciliation of the working set against the destination account (the Databricks
    account identity API). The account is abstract state: users and service principals
    looked up by display name, and groups with a member list. For each record of a
    users or service-principal file the program looks the identity up by display name,
    creates it when absent, extends an accumulator of membership entries and republishes
    the group's member list with `groups.update`. Decisions the account service makes
    out of sight (refusing a creation) are an `Env` parameter; new ids come from a
    counter. */
module Reconcile {
  import opened Seqs
  import opened Records
  import opened WorkingSet
  import Directory

  type Id = nat

  datatype Identity =
    | User(id: Id, displayName: string, userName: string, active: bool)
    | ServicePrincipal(id: Id, displayName: string, applicationId: string, active: bool)

  /** A membership entry, `ComplexValue(display=…, value=…)`. */
  datatype Member = Member(display: string, value: Id)

  datatype AccountGroup = AccountGroup(id: Id, displayName: string, members: seq<Member>)

  datatype AccountState = AccountState(users: seq<Identity>, sps: seq<Identity>, groups: seq<AccountGroup>, nextId: Id)

  datatype Kind = Users | ServicePrincipals

  /** What the account service decides: whether `groups.create` raises although no
      group of that name exists, and the display names whose identity creation raises. */
  datatype Env = Env(refuseGroupCreate: bool, refusedIdentities: set<string>)

  /** Ids handed out so far are below nextId, each roster holds its own kind, and
      group ids are distinct. */
  predicate ValidState(s: AccountState) {
    && (forall i :: 0 <= i < |s.users| ==> s.users[i].User? && s.users[i].id < s.nextId)
    && (forall i :: 0 <= i < |s.sps| ==> s.sps[i].ServicePrincipal? && s.sps[i].id < s.nextId)
    && (forall i :: 0 <= i < |s.groups| ==> s.groups[i].id < s.nextId)
    && (forall i, j :: 0 <= i < j < |s.groups| ==> s.groups[i].id != s.groups[j].id)
  }

  function Roster(s: AccountState, kind: Kind): seq<Identity> {
    match kind
    case Users => s.users
    case ServicePrincipals => s.sps
  }

  function WithRoster(s: AccountState, kind: Kind, roster: seq<Identity>): AccountState {
    match kind
    case Users => s.(users := roster)
    case ServicePrincipals => s.(sps := roster)
  }

  /** No identity of the roster carries that display name. */
  predicate Absent(roster: seq<Identity>, name: string) {
    forall j :: 0 <= j < |roster| ==> roster[j].displayName != name
  }

  /** `list(filter=f"displayName eq …")` on users or service principals, then the first
      item's id; None where the list is empty. */
  function FirstId(roster: seq<Identity>, name: string): (r: Option<Id>)
    ensures r.None? <==> Absent(roster, name)
  {
    if roster == [] then None
    else if roster[0].displayName == name then Some(roster[0].id)
    else FirstId(roster[1..], name)
  }

  /** The id found belongs to the first identity of that display name. */
  lemma {:induction false} FirstIdSpec(roster: seq<Identity>, name: string)
    requires FirstId(roster, name).Some?
    ensures exists i :: 0 <= i < |roster| && roster[i].id == FirstId(roster, name).value && roster[i].displayName == name &&
                        forall j :: 0 <= j < i ==> roster[j].displayName != name
  {
    if roster[0].displayName != name {
      FirstIdSpec(roster[1..], name);
      var i :| 0 <= i < |roster[1..]| && roster[1..][i].id == FirstId(roster, name).value && roster[1..][i].displayName == name &&
               forall j :: 0 <= j < i ==> roster[1..][j].displayName != name;
      assert roster[i + 1] == roster[1..][i];
      assert forall j :: 0 <= j < i + 1 ==> roster[j].displayName != name by {
        forall j | 0 <= j < i + 1 ensures roster[j].displayName != name {
          if j > 0 { assert roster[j] == roster[1..][j - 1]; }
        }
      }
    } else {
      assert roster[0].id == FirstId(roster, name).value;
    }
  }

  /** `a.groups.list(filter=f"displayName eq …")` then `[0]`; None where that raises. */
  function FirstGroupNamed(groups: seq<AccountGroup>, name: string): (r: Option<AccountGroup>)
    ensures r.None? <==> forall i :: 0 <= i < |groups| ==> groups[i].displayName != name
    ensures r.Some? ==> exists i :: 0 <= i < |groups| && groups[i] == r.value && groups[i].displayName == name &&
                                    forall j :: 0 <= j < i ==> groups[j].displayName != name
  {
    var k := FirstIndex((g: AccountGroup) => g.displayName == name, groups);
    if k < |groups| then Some(groups[k]) else None
  }

  /** The member list of the group with that id. */
  function MembersOf(groups: seq<AccountGroup>, gid: Id): Option<seq<Member>> {
    if groups == [] then None
    else if groups[0].id == gid then Some(groups[0].members)
    else MembersOf(groups[1..], gid)
  }

  /** `ast.literal_eval(line).get("displayName", "None")` */
  function DisplayName(rec: Record): string {
    Get(rec, "displayName", "None")
  }

  /** `users.create(active=True, display_name=d, user_name=d)` or
      `service_principals.create(active=True, display_name=d, application_id=…)`. */
  function NewIdentity(kind: Kind, id: Id, rec: Record): Identity {
    match kind
    case Users => User(id, DisplayName(rec), DisplayName(rec), true)
    case ServicePrincipals => ServicePrincipal(id, DisplayName(rec), Get(rec, "applicationId", "None"), true)
  }

  function Created(s: AccountState, kind: Kind, rec: Record): AccountState {
    WithRoster(s, kind, Roster(s, kind) + [NewIdentity(kind, s.nextId, rec)]).(nextId := s.nextId + 1)
  }

  /** `groups.update(id=gid, …, members=ms)`: the group's member list becomes ms. */
  function Publish(groups: seq<AccountGroup>, gid: Id, ms: seq<Member>): (r: seq<AccountGroup>)
    ensures |r| == |groups|
    ensures forall i :: 0 <= i < |groups| ==> r[i].id == groups[i].id && r[i].displayName == groups[i].displayName
    ensures forall i :: 0 <= i < |groups| && groups[i].id != gid ==> r[i] == groups[i]
  {
    if groups == [] then []
    else [if groups[0].id == gid then groups[0].(members := ms) else groups[0]] + Publish(groups[1..], gid, ms)
  }

  datatype StepResult = StepResult(state: AccountState, acc: seq<Member>, ok: bool)

  /** One record of create_users_add_to_groups / create_sps_add_to_groups. */
  function Step(s: AccountState, kind: Kind, gid: Id, acc: seq<Member>, rec: Record, env: Env): (r: StepResult)
    ensures !r.ok ==> r.state == s && r.acc == acc
    ensures s.nextId <= r.state.nextId <= s.nextId + 1
    ensures |r.state.groups| == |s.groups|
  {
    var display := DisplayName(rec);
    match FirstId(Roster(s, kind), display)
    case Some(id) =>
      var acc' := acc + [Member(display, id)];
      StepResult(s.(groups := Publish(s.groups, gid, acc')), acc', true)
    case None =>
      if display in env.refusedIdentities then StepResult(s, acc, false)
      else
        var s1 := Created(s, kind, rec);
        var m := Member(display, s.nextId);
        if acc != [] then StepResult(s1.(groups := Publish(s1.groups, gid, acc + [m])), acc + [m], true)
        else StepResult(s1.(groups := Publish(s1.groups, gid, [m])), [], true)
  }

  /** All records of a file, stopping at the first creation that raises. */
  function AddAll(s: AccountState, kind: Kind, gid: Id, acc: seq<Member>, recs: seq<Record>, env: Env): (r: StepResult)
    ensures s.nextId <= r.state.nextId <= s.nextId + |recs|
    ensures |r.state.groups| == |s.groups|
    decreases |recs|
  {
    if recs == [] then StepResult(s, acc, true)
    else
      var r := Step(s, kind, gid, acc, recs[0], env);
      if !r.ok then r else AddAll(r.state, kind, gid, r.acc, recs[1..], env)
  }

  /** One record, then the rest of the file from index i + 1. */
  lemma AddAllUnfold(s: AccountState, kind: Kind, gid: Id, acc: seq<Member>, recs: seq<Record>, i: nat, env: Env)
    requires i < |recs|
    ensures var r := Step(s, kind, gid, acc, recs[i], env);
      AddAll(s, kind, gid, acc, recs[i..], env) == if !r.ok then r else AddAll(r.state, kind, gid, r.acc, recs[i + 1..], env)
  {
    assert recs[i..][0] == recs[i] && recs[i..][1..] == recs[i + 1..];
  }

  /** create_db_account_group: the created group, or None for the "Exists" answer the
      program gives to any exception (here: the name is taken, or the service refuses). */
  function CreateGroup(s: AccountState, name: string, env: Env): (r: (Option<AccountGroup>, AccountState))
    ensures r.0.None? ==> r.1 == s
    ensures r.0.Some? ==> FirstGroupNamed(s.groups, name).None? && r.0.value.displayName == name && r.0.value.members == [] &&
                          r.1.groups == s.groups + [r.0.value]
  {
    if env.refuseGroupCreate || FirstGroupNamed(s.groups, name).Some? then (None, s)
    else
      var g := AccountGroup(s.nextId, name, []);
      (Some(g), s.(groups := s.groups + [g], nextId := s.nextId + 1))
  }

  /** create_db_users_add_to_group / create_db_sps_add_to_group: a new group starts from
      an empty accumulator, an existing one from its current member list. */
  function AddFile(s: AccountState, kind: Kind, recs: seq<Record>, name: string, env: Env): (r: (AccountState, bool))
    ensures s.nextId <= r.0.nextId
    ensures |s.groups| <= |r.0.groups| <= |s.groups| + 1
  {
    var (created, s1) := CreateGroup(s, name, env);
    if created.Some? then
      var r := AddAll(s1, kind, created.value.id, [], recs, env);
      (r.state, r.ok)
    else
      match FirstGroupNamed(s1.groups, name)
      case None => (s1, false)
      case Some(g) =>
        var r := AddAll(s1, kind, g.id, g.members, recs, env);
        (r.state, r.ok)
  }

  /** Opening the file first: a name missing from the working set raises. */
  function ProcessFile(s: AccountState, kind: Kind, file: string, name: string, ws: map<string, seq<Record>>, env: Env): (AccountState, bool) {
    if file !in ws then (s, false) else AddFile(s, kind, ws[file], name, env)
  }

  /** How process_files ends: normally, with an exception it caught and logged, or
      through `exit(99)`. */
  datatype Outcome = Completed | Logged | Exited

  function Process(s: AccountState, matching: seq<string>, name: string, ws: map<string, seq<Record>>, env: Env): (r: (AccountState, Outcome))
    ensures r.1 == Exited <==> PlanFor(matching).Exit99?
    ensures s.nextId <= r.0.nextId
  {
    match PlanFor(matching)
    case Exit99 => (s, Exited)
    case Dispatch(u, sp, indexError) =>
      var (s1, ok1) := if u.Some? then ProcessFile(s, Users, u.value, name, ws, env) else (s, true);
      var (s2, ok2) := if ok1 && sp.Some? then ProcessFile(s1, ServicePrincipals, sp.value, name, ws, env) else (s1, ok1);
      (s2, if ok2 && !indexError then Completed else Logged)
  }

  // ---------------------------------------------------------------------------
  // The account, updated in place
  // ---------------------------------------------------------------------------

  class Account {
    var users: seq<Identity>
    var sps: seq<Identity>
    var groups: seq<AccountGroup>
    var nextId: Id

    function State(): AccountState
      reads this
    {
      AccountState(users, sps, groups, nextId)
    }

    constructor (s: AccountState)
      ensures State() == s
    {
      users, sps, groups, nextId := s.users, s.sps, s.groups, s.nextId;
    }

    method CreateIdentity(kind: Kind, rec: Record) returns (id: Id)
      modifies this
      ensures id == old(nextId)
      ensures State() == Created(old(State()), kind, rec)
    {
      id := nextId;
      var identity := NewIdentity(kind, id, rec);
      if kind == Users {
        users := users + [identity];
      } else {
        sps := sps + [identity];
      }
      nextId := nextId + 1;
    }

    method UpdateGroup(gid: Id, ms: seq<Member>)
      modifies this
      ensures State() == old(State()).(groups := Publish(old(groups), gid, ms))
    {
      groups := Publish(groups, gid, ms);
    }

    /** The record loop of create_users_add_to_groups / create_sps_add_to_groups. */
    method AddMembers(kind: Kind, gid: Id, acc0: seq<Member>, recs: seq<Record>, env: Env)
      returns (acc: seq<Member>, ok: bool)
      modifies this
      ensures StepResult(State(), acc, ok) == AddAll(old(State()), kind, gid, acc0, recs, env)
    {
      acc, ok := acc0, true;
      var i := 0;
      while i < |recs|
        invariant 0 <= i <= |recs|
        invariant AddAll(State(), kind, gid, acc, recs[i..], env) == AddAll(old(State()), kind, gid, acc0, recs, env)
      {
        var rec := recs[i];
        AddAllUnfold(State(), kind, gid, acc, recs, i, env);
        var display := DisplayName(rec);
        var found := FirstId(if kind == Users then users else sps, display);
        if found.Some? {
          acc := acc + [Member(display, found.value)];
          UpdateGroup(gid, acc);
        } else {
          if display in env.refusedIdentities {
            ok := false;
            return;
          }
          var newId := CreateIdentity(kind, rec);
          var m := Member(display, newId);
          if acc != [] {
            acc := acc + [m];
            UpdateGroup(gid, acc);
          } else {
            UpdateGroup(gid, [m]);
          }
        }
        i := i + 1;
      }
    }

    method CreateAccountGroup(name: string, env: Env) returns (created: Option<AccountGroup>)
      modifies this
      ensures (created, State()) == CreateGroup(old(State()), name, env)
    {
      if env.refuseGroupCreate || FirstGroupNamed(groups, name).Some? {
        created := None;
      } else {
        var g := AccountGroup(nextId, name, []);
        groups := groups + [g];
        nextId := nextId + 1;
        created := Some(g);
      }
    }

    method AddFileToGroup(kind: Kind, recs: seq<Record>, name: string, env: Env) returns (ok: bool)
      modifies this
      ensures (State(), ok) == AddFile(old(State()), kind, recs, name, env)
    {
      var created := CreateAccountGroup(name, env);
      var acc;
      if created.Some? {
        acc, ok := AddMembers(kind, created.value.id, [], recs, env);
      } else {
        var existing := FirstGroupNamed(groups, name);
        if existing.None? {
          ok := false;
        } else {
          acc, ok := AddMembers(kind, existing.value.id, existing.value.members, recs, env);
        }
      }
    }

    method ProcessOneFile(kind: Kind, file: string, name: string, ws: map<string, seq<Record>>, env: Env) returns (ok: bool)
      modifies this
      ensures (State(), ok) == ProcessFile(old(State()), kind, file, name, ws, env)
    {
      if file !in ws {
        ok := false;
      } else {
        ok := AddFileToGroup(kind, ws[file], name, env);
      }
    }

    /** process_files for one destination group. */
    method ProcessFiles(matching: seq<string>, name: string, ws: map<string, seq<Record>>, env: Env) returns (outcome: Outcome)
      modifies this
      ensures (State(), outcome) == Process(old(State()), matching, name, ws, env)
    {
      match PlanFor(matching)
      case Exit99 =>
        outcome := Exited;
      case Dispatch(u, sp, indexError) =>
        var ok := true;
        if u.Some? {
          ok := ProcessOneFile(Users, u.value, name, ws, env);
        }
        if ok && sp.Some? {
          ok := ProcessOneFile(ServicePrincipals, sp.value, name, ws, env);
        }
        outcome := if ok && !indexError then Completed else Logged;
    }
  }

  // ---------------------------------------------------------------------------
  // One record
  // ---------------------------------------------------------------------------

  /** An identity whose display name is already in the account is not created again;
      the accumulator grows by one entry for the first match, and the whole accumulator
      is published. */
  lemma StepOnExisting(s: AccountState, kind: Kind, gid: Id, acc: seq<Member>, rec: Record, env: Env, id: Id)
    requires FirstId(Roster(s, kind), DisplayName(rec)) == Some(id)
    ensures var r := Step(s, kind, gid, acc, rec, env);
      && r.ok
      && r.state.users == s.users && r.state.sps == s.sps && r.state.nextId == s.nextId
      && r.acc == acc + [Member(DisplayName(rec), id)]
      && r.state.groups == Publish(s.groups, gid, r.acc)
  {
  }

  /** An absent identity is created once, active, with the next id; a non-empty
      accumulator is extended and published whole, while an empty one stays empty and
      only the new entry is published. */
  lemma StepOnNew(s: AccountState, kind: Kind, gid: Id, acc: seq<Member>, rec: Record, env: Env)
    requires FirstId(Roster(s, kind), DisplayName(rec)).None?
    requires DisplayName(rec) !in env.refusedIdentities
    ensures var r := Step(s, kind, gid, acc, rec, env);
      var m := Member(DisplayName(rec), s.nextId);
      && r.ok
      && Roster(r.state, kind) == Roster(s, kind) + [NewIdentity(kind, s.nextId, rec)]
      && NewIdentity(kind, s.nextId, rec).active
      && NewIdentity(kind, s.nextId, rec).displayName == DisplayName(rec)
      && r.state.nextId == s.nextId + 1
      && (acc != [] ==> r.acc == acc + [m] && r.state.groups == Publish(s.groups, gid, acc + [m]))
      && (acc == [] ==> r.acc == [] && r.state.groups == Publish(s.groups, gid, [m]))
  {
  }

  /** A creation that raises leaves account and accumulator as they were. */
  lemma StepOnRefused(s: AccountState, kind: Kind, gid: Id, acc: seq<Member>, rec: Record, env: Env)
    requires FirstId(Roster(s, kind), DisplayName(rec)).None?
    requires DisplayName(rec) in env.refusedIdentities
    ensures Step(s, kind, gid, acc, rec, env) == StepResult(s, acc, false)
  {
  }

  /** The user record written during resolution becomes a user whose user name is its
      display name ("None" when the directory gave none). */
  lemma UserRecordIdentity(e: Record, id: Id)
    ensures var dn := if "displayName" in e then e["displayName"] else "None";
      NewIdentity(Users, id, Project(e, Directory.USER_KEYS)) == User(id, dn, dn, true)
  {
  }

  /** The service-principal record written during discovery becomes a service
      principal whose application id is the directory member's id. */
  lemma SpRecordIdentity(accountNumber: string, m: Record, id: Id)
    requires "id" in m && "displayName" in m
    ensures NewIdentity(ServicePrincipals, id, Directory.SpRecord(accountNumber, m)) ==
            ServicePrincipal(id, m["displayName"], m["id"], true)
  {
  }

  // ---------------------------------------------------------------------------
  // A whole file
  // ---------------------------------------------------------------------------

  lemma {:induction false} PublishMembersOf(groups: seq<AccountGroup>, gid: Id, ms: seq<Member>, other: Id)
    ensures MembersOf(Publish(groups, gid, ms), gid) == if MembersOf(groups, gid).Some? then Some(ms) else None
    ensures other != gid ==> MembersOf(Publish(groups, gid, ms), other) == MembersOf(groups, other)
  {
    if groups != [] {
      PublishMembersOf(groups[1..], gid, ms, other);
      var p := Publish(groups, gid, ms);
      assert p[1..] == Publish(groups[1..], gid, ms);
    }
  }

  /** A step keeps the account well formed. */
  lemma StepValid(s: AccountState, kind: Kind, gid: Id, acc: seq<Member>, rec: Record, env: Env)
    requires ValidState(s)
    ensures ValidState(Step(s, kind, gid, acc, rec, env).state)
  {
    CreatedValid(s, kind, rec);
    PublishValid(s, gid, acc + [Member(DisplayName(rec), s.nextId)]);
    PublishValid(s, gid, [Member(DisplayName(rec), s.nextId)]);
    var c := Created(s, kind, rec);
    PublishValid(c, gid, acc + [Member(DisplayName(rec), s.nextId)]);
    PublishValid(c, gid, [Member(DisplayName(rec), s.nextId)]);
    match FirstId(Roster(s, kind), DisplayName(rec))
    case Some(id) =>
      PublishValid(s, gid, acc + [Member(DisplayName(rec), id)]);
    case None =>
  }

  /** Creating an identity keeps the account well formed. */
  lemma CreatedValid(s: AccountState, kind: Kind, rec: Record)
    requires ValidState(s)
    ensures ValidState(Created(s, kind, rec))
  {
  }

  /** Republishing a member list keeps the account well formed. */
  lemma PublishValid(s: AccountState, gid: Id, ms: seq<Member>)
    requires ValidState(s)
    ensures ValidState(s.(groups := Publish(s.groups, gid, ms)))
  {
  }

  /** Reconciling a file keeps the account well formed. */
  lemma {:induction false} AddAllValid(s: AccountState, kind: Kind, gid: Id, acc: seq<Member>, recs: seq<Record>, env: Env)
    requires ValidState(s)
    ensures ValidState(AddAll(s, kind, gid, acc, recs, env).state)
    decreases |recs|
  {
    if recs != [] {
      var r := Step(s, kind, gid, acc, recs[0], env);
      StepValid(s, kind, gid, acc, recs[0], env);
      if r.ok {
        AddAllValid(r.state, kind, gid, r.acc, recs[1..], env);
      }
    }
  }

  /** What reconciling a file never undoes: the accumulator only grows, both rosters
      only grow (the other kind's not at all), the groups keep their ids and names, and
      groups other than the target keep their members. */
  predicate Grows(s: AccountState, kind: Kind, gid: Id, acc: seq<Member>, r: StepResult) {
    && acc <= r.acc
    && Roster(s, kind) <= Roster(r.state, kind)
    && (kind == Users ==> r.state.sps == s.sps)
    && (kind == ServicePrincipals ==> r.state.users == s.users)
    && s.nextId <= r.state.nextId
    && |r.state.groups| == |s.groups|
    && (forall i :: 0 <= i < |s.groups| ==>
          r.state.groups[i].id == s.groups[i].id && r.state.groups[i].displayName == s.groups[i].displayName &&
          (s.groups[i].id != gid ==> r.state.groups[i] == s.groups[i]))
  }

  lemma {:induction false} AddAllGrows(s: AccountState, kind: Kind, gid: Id, acc: seq<Member>, recs: seq<Record>, env: Env)
    ensures Grows(s, kind, gid, acc, AddAll(s, kind, gid, acc, recs, env))
    decreases |recs|
  {
    if recs != [] {
      var r := Step(s, kind, gid, acc, recs[0], env);
      assert Grows(s, kind, gid, acc, r);
      if r.ok {
        AddAllGrows(r.state, kind, gid, r.acc, recs[1..], env);
      }
    }
  }

  predicate DistinctNames(roster: seq<Identity>) {
    forall i, j :: 0 <= i < j < |roster| ==> roster[i].displayName != roster[j].displayName
  }

  /** Create-if-absent never introduces a second identity of the same display name. */
  lemma {:induction false} AddAllDistinct(s: AccountState, kind: Kind, gid: Id, acc: seq<Member>, recs: seq<Record>, env: Env)
    requires DistinctNames(Roster(s, kind))
    ensures DistinctNames(Roster(AddAll(s, kind, gid, acc, recs, env).state, kind))
    decreases |recs|
  {
    if recs != [] {
      var r := Step(s, kind, gid, acc, recs[0], env);
      assert DistinctNames(Roster(r.state, kind));
      if r.ok {
        AddAllDistinct(r.state, kind, gid, r.acc, recs[1..], env);
      }
    }
  }

  /** A membership entry refers to an identity of the account with that id and name. */
  predicate Backed(roster: seq<Identity>, m: Member) {
    exists i :: 0 <= i < |roster| && roster[i].id == m.value && roster[i].displayName == m.display
  }

  /** Every entry came with the starting accumulator or refers to an identity. */
  predicate Sound(ms: seq<Member>, acc0: seq<Member>, roster: seq<Identity>) {
    forall m :: m in ms ==> m in acc0 || Backed(roster, m)
  }

  predicate GroupSound(s: AccountState, kind: Kind, gid: Id, acc0: seq<Member>) {
    MembersOf(s.groups, gid).Some? && Sound(MembersOf(s.groups, gid).value, acc0, Roster(s, kind))
  }

  lemma SoundExtends(ms: seq<Member>, acc0: seq<Member>, roster: seq<Identity>, x: Identity)
    requires Sound(ms, acc0, roster)
    ensures Sound(ms, acc0, roster + [x])
  {
    forall m | m in ms && m !in acc0
      ensures Backed(roster + [x], m)
    {
      var i :| 0 <= i < |roster| && roster[i].id == m.value && roster[i].displayName == m.display;
      assert (roster + [x])[i] == roster[i];
    }
  }

  lemma StepSound(s: AccountState, kind: Kind, gid: Id, acc0: seq<Member>, acc: seq<Member>, rec: Record, env: Env)
    requires Sound(acc, acc0, Roster(s, kind)) && GroupSound(s, kind, gid, acc0)
    ensures var r := Step(s, kind, gid, acc, rec, env);
      Sound(r.acc, acc0, Roster(r.state, kind)) && GroupSound(r.state, kind, gid, acc0)
  {
    var r := Step(s, kind, gid, acc, rec, env);
    var display := DisplayName(rec);
    var roster := Roster(s, kind);
    PublishMembersOf(s.groups, gid, r.acc, gid);
    match FirstId(roster, display)
    case Some(id) =>
      FirstIdSpec(roster, display);
      var i :| 0 <= i < |roster| && roster[i].id == id && roster[i].displayName == display;
      assert Backed(roster, Member(display, id));
    case None =>
      if display !in env.refusedIdentities {
        var x := NewIdentity(kind, s.nextId, rec);
        var roster' := roster + [x];
        assert Roster(r.state, kind) == roster';
        SoundExtends(acc, acc0, roster, x);
        SoundExtends(MembersOf(s.groups, gid).value, acc0, roster, x);
        assert roster'[|roster|] == x;
        assert Backed(roster', Member(display, s.nextId));
        PublishMembersOf(s.groups, gid, [Member(display, s.nextId)], gid);
        PublishMembersOf(s.groups, gid, acc + [Member(display, s.nextId)], gid);
      }
  }

  /** Every entry added to the accumulator or to the group's published list refers to an
      identity that exists in the account, with that id and display name. */
  lemma {:induction false} AddAllSound(s: AccountState, kind: Kind, gid: Id, acc0: seq<Member>, acc: seq<Member>, recs: seq<Record>, env: Env)
    requires Sound(acc, acc0, Roster(s, kind)) && GroupSound(s, kind, gid, acc0)
    ensures var r := AddAll(s, kind, gid, acc, recs, env);
      Sound(r.acc, acc0, Roster(r.state, kind)) && GroupSound(r.state, kind, gid, acc0)
    decreases |recs|
  {
    if recs != [] {
      var r := Step(s, kind, gid, acc, recs[0], env);
      StepSound(s, kind, gid, acc0, acc, recs[0], env);
      if r.ok {
        AddAllSound(r.state, kind, gid, acc0, r.acc, recs[1..], env);
      }
    }
  }

  /** The display names of a member list, in order. */
  function Displays(ms: seq<Member>): (ds: seq<string>)
    ensures |ds| == |ms|
  {
    if ms == [] then [] else Displays(ms[..|ms| - 1]) + [ms[|ms| - 1].display]
  }

  /** The display names of a file's records, in order. */
  function Names(recs: seq<Record>): (ns: seq<string>)
    ensures |ns| == |recs|
  {
    if recs == [] then [] else [DisplayName(recs[0])] + Names(recs[1..])
  }

  lemma NamesSplit(prefix: seq<string>, recs: seq<Record>)
    requires recs != []
    ensures prefix + [DisplayName(recs[0])] + Names(recs[1..]) == prefix + Names(recs)
  {
  }

  /** One step with a non-empty accumulator either fails or appends exactly one entry
      for the record's display name and publishes the whole accumulator. */
  lemma StepAccumulates(s: AccountState, kind: Kind, gid: Id, acc: seq<Member>, rec: Record, env: Env)
    requires acc != [] && MembersOf(s.groups, gid).Some?
    ensures var r := Step(s, kind, gid, acc, rec, env);
      r.ok ==>
        && acc <= r.acc
        && Displays(r.acc) == Displays(acc) + [DisplayName(rec)]
        && MembersOf(r.state.groups, gid) == Some(r.acc)
  {
    var r := Step(s, kind, gid, acc, rec, env);
    if r.ok {
      var m := r.acc[|acc|];
      assert r.acc == acc + [m];
      assert r.acc[..|acc|] == acc;
      assert r.state.groups == Publish(s.groups, gid, r.acc);
      PublishMembersOf(s.groups, gid, r.acc, gid);
    }
  }

  /** Once the accumulator is non-empty, every record adds exactly one entry carrying
      its display name, in file order. */
  lemma {:induction false} AddAllAccumulates(s: AccountState, kind: Kind, gid: Id, acc: seq<Member>, recs: seq<Record>, env: Env)
    requires acc != [] && MembersOf(s.groups, gid).Some?
    ensures var r := AddAll(s, kind, gid, acc, recs, env);
      r.ok ==> Displays(r.acc) == Displays(acc) + Names(recs)
    decreases |recs|
  {
    if recs != [] {
      var step := Step(s, kind, gid, acc, recs[0], env);
      StepAccumulates(s, kind, gid, acc, recs[0], env);
      if step.ok {
        var r := AddAll(step.state, kind, gid, step.acc, recs[1..], env);
        assert AddAll(s, kind, gid, acc, recs, env) == r;
        AddAllAccumulates(step.state, kind, gid, step.acc, recs[1..], env);
        NamesSplit(Displays(acc), recs);
      }
    }
  }

  /** ... and the group then publishes the whole accumulator. */
  lemma {:induction false} AddAllPublishesAccumulator(s: AccountState, kind: Kind, gid: Id, acc: seq<Member>, recs: seq<Record>, env: Env)
    requires acc != [] && MembersOf(s.groups, gid).Some? && recs != []
    ensures var r := AddAll(s, kind, gid, acc, recs, env);
      r.ok ==> MembersOf(r.state.groups, gid) == Some(r.acc)
    decreases |recs|
  {
    var step := Step(s, kind, gid, acc, recs[0], env);
    StepAccumulates(s, kind, gid, acc, recs[0], env);
    if step.ok && |recs| > 1 {
      AddAllPublishesAccumulator(step.state, kind, gid, step.acc, recs[1..], env);
    }
  }

  lemma AbsentAfterAppend(roster: seq<Identity>, x: Identity, name: string)
    requires Absent(roster, name) && x.displayName != name
    ensures Absent(roster + [x], name)
  {
    forall j | 0 <= j < |roster + [x]|
      ensures (roster + [x])[j].displayName != name
    {
      if j < |roster| {
        assert (roster + [x])[j] == roster[j];
      }
    }
  }

  /** One step on a new, accepted identity with an empty accumulator: the identity is
      appended, the accumulator stays empty and only the new entry is published. */
  lemma StepNewWithEmpty(s: AccountState, kind: Kind, gid: Id, rec: Record, env: Env)
    requires MembersOf(s.groups, gid).Some?
    requires Absent(Roster(s, kind), DisplayName(rec))
    requires DisplayName(rec) !in env.refusedIdentities
    ensures var r := Step(s, kind, gid, [], rec, env);
      && r.ok && r.acc == []
      && Roster(r.state, kind) == Roster(s, kind) + [NewIdentity(kind, s.nextId, rec)]
      && r.state.nextId == s.nextId + 1
      && MembersOf(r.state.groups, gid) == Some([Member(DisplayName(rec), s.nextId)])
  {
    assert FirstId(Roster(s, kind), DisplayName(rec)).None?;
    PublishMembersOf(s.groups, gid, [Member(DisplayName(rec), s.nextId)], gid);
  }

  /** The records after the first keep the preconditions of AddAllNewOnlyLastRemains
      once the first has been created. */
  lemma RestStaysFresh(roster: seq<Identity>, x: Identity, recs: seq<Record>, env: Env)
    requires recs != [] && x.displayName == DisplayName(recs[0])
    requires forall i :: 0 <= i < |recs| ==> Absent(roster, DisplayName(recs[i]))
    requires forall i, j :: 0 <= i < j < |recs| ==> DisplayName(recs[i]) != DisplayName(recs[j])
    requires forall i :: 0 <= i < |recs| ==> DisplayName(recs[i]) !in env.refusedIdentities
    ensures var rest := recs[1..];
      && (forall i :: 0 <= i < |rest| ==> Absent(roster + [x], DisplayName(rest[i])))
      && (forall i, j :: 0 <= i < j < |rest| ==> DisplayName(rest[i]) != DisplayName(rest[j]))
      && (forall i :: 0 <= i < |rest| ==> DisplayName(rest[i]) !in env.refusedIdentities)
  {
    var rest := recs[1..];
    forall i | 0 <= i < |rest|
      ensures Absent(roster + [x], DisplayName(rest[i]))
    {
      assert rest[i] == recs[i + 1];
      AbsentAfterAppend(roster, x, DisplayName(rest[i]));
    }
    forall i, j | 0 <= i < j < |rest|
      ensures DisplayName(rest[i]) != DisplayName(rest[j])
    {
      assert rest[i] == recs[i + 1] && rest[j] == recs[j + 1];
    }
    forall i | 0 <= i < |rest|
      ensures DisplayName(rest[i]) !in env.refusedIdentities
    {
      assert rest[i] == recs[i + 1];
    }
  }

  /** The observable consequence of the empty-accumulator branch: reconciling N
      identities that are all new, starting from an empty accumulator, creates all N
      but leaves the group publishing only the last one. */
  lemma {:induction false} AddAllNewOnlyLastRemains(s: AccountState, kind: Kind, gid: Id, recs: seq<Record>, env: Env)
    requires recs != [] && MembersOf(s.groups, gid).Some?
    requires forall i :: 0 <= i < |recs| ==> Absent(Roster(s, kind), DisplayName(recs[i]))
    requires forall i, j :: 0 <= i < j < |recs| ==> DisplayName(recs[i]) != DisplayName(recs[j])
    requires forall i :: 0 <= i < |recs| ==> DisplayName(recs[i]) !in env.refusedIdentities
    ensures var r := AddAll(s, kind, gid, [], recs, env);
      && r.ok
      && r.acc == []
      && |Roster(r.state, kind)| == |Roster(s, kind)| + |recs|
      && MembersOf(r.state.groups, gid) == Some([Member(DisplayName(recs[|recs| - 1]), s.nextId + |recs| - 1)])
    decreases |recs|
  {
    var step := Step(s, kind, gid, [], recs[0], env);
    StepNewWithEmpty(s, kind, gid, recs[0], env);
    var rest := recs[1..];
    assert AddAll(s, kind, gid, [], recs, env) == AddAll(step.state, kind, gid, [], rest, env);
    if rest != [] {
      RestStaysFresh(Roster(s, kind), NewIdentity(kind, s.nextId, recs[0]), recs, env);
      AddAllNewOnlyLastRemains(step.state, kind, gid, rest, env);
      assert rest[|rest| - 1] == recs[|recs| - 1];
    } else {
      assert recs == [recs[0]];
    }
  }

  // ---------------------------------------------------------------------------
  // The destination group
  // ---------------------------------------------------------------------------

  /** Creating a group whose name is taken answers "Exists" and changes nothing. */
  lemma CreateGroupWhenTaken(s: AccountState, name: string, env: Env)
    requires FirstGroupNamed(s.groups, name).Some?
    ensures CreateGroup(s, name, env) == (None, s)
  {
  }

  /** Ensuring the destination group is idempotent on its display name: once created,
      the name query finds that very group and a second creation answers "Exists"
      without creating a duplicate. */
  lemma CreateGroupIdempotent(s: AccountState, name: string, env: Env, env2: Env)
    requires CreateGroup(s, name, env).0.Some?
    ensures var (g, s1) := CreateGroup(s, name, env);
      && FirstGroupNamed(s1.groups, name) == g
      && g.value.members == []
      && CreateGroup(s1, name, env2) == (None, s1)
  {
    var (g, s1) := CreateGroup(s, name, env);
    assert forall j :: 0 <= j < |s.groups| ==> s1.groups[j] == s.groups[j] && s1.groups[j].displayName != name;
    assert s1.groups[|s.groups|] == g.value;
  }

  /** Ensuring the group either appends a fresh group or leaves the groups as they
      were; the accumulator run then keeps every group's id and name. */
  lemma AddFileKeepsNames(s: AccountState, kind: Kind, recs: seq<Record>, name: string, env: Env)
    ensures var s1 := AddFile(s, kind, recs, name, env).0;
      && |s.groups| <= |s1.groups|
      && forall i :: 0 <= i < |s.groups| ==> s1.groups[i].id == s.groups[i].id && s1.groups[i].displayName == s.groups[i].displayName
  {
    var (created, s0) := CreateGroup(s, name, env);
    assert forall i :: 0 <= i < |s.groups| ==> s0.groups[i] == s.groups[i];
    if created.Some? {
      AddAllGrows(s0, kind, created.value.id, [], recs, env);
    } else if FirstGroupNamed(s0.groups, name).Some? {
      var g := FirstGroupNamed(s0.groups, name).value;
      AddAllGrows(s0, kind, g.id, g.members, recs, env);
    }
  }

  /** A file reconciled without an exception leaves a group of the destination name. */
  lemma AddFileEstablishesGroup(s: AccountState, kind: Kind, recs: seq<Record>, name: string, env: Env)
    requires AddFile(s, kind, recs, name, env).1
    ensures FirstGroupNamed(AddFile(s, kind, recs, name, env).0.groups, name).Some?
  {
    var (created, s0) := CreateGroup(s, name, env);
    if created.Some? {
      assert s0.groups[|s.groups|].displayName == name;
    }
    var i :| 0 <= i < |s0.groups| && s0.groups[i].displayName == name;
    AddFileKeepsNames(s0, kind, recs, name, env);
    var gid := if created.Some? then created.value.id else FirstGroupNamed(s0.groups, name).value.id;
    var acc := if created.Some? then [] else FirstGroupNamed(s0.groups, name).value.members;
    AddAllGrows(s0, kind, gid, acc, recs, env);
    assert AddFile(s, kind, recs, name, env).0.groups[i].displayName == name;
  }

  /** After a file has been reconciled successfully the destination group exists, so the
      next file for the same group (the service-principal file after the users file)
      joins that group and starts from its published member list. */
  lemma SecondFileJoinsGroup(s: AccountState, kind: Kind, recs: seq<Record>, kind2: Kind, recs2: seq<Record>, name: string, env: Env, env2: Env)
    requires AddFile(s, kind, recs, name, env).1
    ensures var s1 := AddFile(s, kind, recs, name, env).0;
      && FirstGroupNamed(s1.groups, name).Some?
      && var g := FirstGroupNamed(s1.groups, name).value;
         var r := AddAll(s1, kind2, g.id, g.members, recs2, env2);
         AddFile(s1, kind2, recs2, name, env2) == (r.state, r.ok)
  {
    AddFileEstablishesGroup(s, kind, recs, name, env);
  }

  /** Group creation keeps the account well formed: the new id is fresh. */
  lemma CreateGroupValid(s: AccountState, name: string, env: Env)
    requires ValidState(s)
    ensures ValidState(CreateGroup(s, name, env).1)
  {
  }

  /** Reconciling a file keeps the account well formed. */
  lemma AddFileValid(s: AccountState, kind: Kind, recs: seq<Record>, name: string, env: Env)
    requires ValidState(s)
    ensures ValidState(AddFile(s, kind, recs, name, env).0)
  {
    var (created, s0) := CreateGroup(s, name, env);
    CreateGroupValid(s, name, env);
    if created.Some? {
      AddAllValid(s0, kind, created.value.id, [], recs, env);
    } else if FirstGroupNamed(s0.groups, name).Some? {
      var g := FirstGroupNamed(s0.groups, name).value;
      AddAllValid(s0, kind, g.id, g.members, recs, env);
    }
  }

  /** Reconciling a file never creates a second identity with a display name already
      present, in either roster. */
  lemma AddFileDistinct(s: AccountState, kind: Kind, recs: seq<Record>, name: string, env: Env)
    requires DistinctNames(s.users) && DistinctNames(s.sps)
    ensures var s1 := AddFile(s, kind, recs, name, env).0;
      DistinctNames(s1.users) && DistinctNames(s1.sps)
  {
    var (created, s0) := CreateGroup(s, name, env);
    if created.Some? || FirstGroupNamed(s0.groups, name).Some? {
      var gid := if created.Some? then created.value.id else FirstGroupNamed(s0.groups, name).value.id;
      var acc := if created.Some? then [] else FirstGroupNamed(s0.groups, name).value.members;
      AddAllDistinct(s0, kind, gid, acc, recs, env);
      AddAllGrows(s0, kind, gid, acc, recs, env);
    }
  }

  /** A whole process_files run keeps the account well formed and display names
      distinct in both rosters. */
  lemma ProcessKeepsInvariants(s: AccountState, matching: seq<string>, name: string, ws: map<string, seq<Record>>, env: Env)
    requires ValidState(s) && DistinctNames(s.users) && DistinctNames(s.sps)
    ensures var s2 := Process(s, matching, name, ws, env).0;
      ValidState(s2) && DistinctNames(s2.users) && DistinctNames(s2.sps)
  {
    match PlanFor(matching)
    case Exit99 =>
    case Dispatch(u, sp, indexError) =>
      var (s1, ok1) := if u.Some? then ProcessFile(s, Users, u.value, name, ws, env) else (s, true);
      if u.Some? && u.value in ws {
        AddFileValid(s, Users, ws[u.value], name, env);
        AddFileDistinct(s, Users, ws[u.value], name, env);
      }
      if ok1 && sp.Some? && sp.value in ws {
        AddFileValid(s1, ServicePrincipals, ws[sp.value], name, env);
        AddFileDistinct(s1, ServicePrincipals, ws[sp.value], name, env);
      }
  }

  /** A process_files run that completes leaves a group of the destination name. */
  lemma ProcessCompletedHasGroup(s: AccountState, matching: seq<string>, name: string, ws: map<string, seq<Record>>, env: Env)
    requires Process(s, matching, name, ws, env).1 == Completed
    ensures FirstGroupNamed(Process(s, matching, name, ws, env).0.groups, name).Some?
  {
    match PlanFor(matching)
    case Dispatch(u, sp, indexError) =>
      var (s1, ok1) := if u.Some? then ProcessFile(s, Users, u.value, name, ws, env) else (s, true);
      if u.Some? {
        AddFileEstablishesGroup(s, Users, ws[u.value], name, env);
      }
      if sp.Some? {
        AddFileEstablishesGroup(s1, ServicePrincipals, ws[sp.value], name, env);
      } else {
        assert u.Some?;
      }
  }

  /** A process_files run that exits with 99 leaves the account untouched. */
  lemma ExitLeavesAccount(s: AccountState, matching: seq<string>, name: string, ws: map<string, seq<Record>>, env: Env)
    requires PlanFor(matching).Exit99?
    ensures Process(s, matching, name, ws, env) == (s, Exited)
  {
  }
}
