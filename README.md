# Directory-to-account group sync, modelled in Dafny

The program copies groups from a cloud directory (Microsoft Entra ID, queried via
Microsoft Graph) into a Databricks account. Each run has three parts:

1. **Resolve.** For each configured directory group, fetch its transitive members,
   split them by their `@odata.type` tag and keep only whitelisted keys. Then scan each
   listed group's direct members for service principals. The results go into a working
   set of per-group files.
2. **Select.** List the working set, filter the file names for one group id, and
   derive the group ids from the file names.
3. **Reconcile.** Feed each users or service-principal file into the account, one
   record at a time: look the identity up by display name, create it when absent, and
   republish the destination group's member list.

This project models those three parts as four modules over two helper modules:

- `Seqs` holds string and sequence helpers: `startswith`, `endswith`, substring `in`,
  filters and first-match lookups.
- `Records` holds payload records, which are maps from string to string, and a
  KeyError result.
- `Directory` models part 1. The partition and projection are pure functions. The
  service-principal scan is a method with nested loops, proved against a specification
  function.
- `WorkingSet` models part 2. The listing filter is a method with a loop. Id
  derivation, configuration-key selection and the case split of `process_files` are
  functions.
- `Reconcile` models part 3. The account is a class whose fields are the user roster,
  the service-principal roster, the groups and an id counter. The record loop is a
  method proved against the function `AddAll`. The lemmas state what one record does
  and what a whole file does.

### How the model maps the source

- **Remote calls become values.** HTTP responses are given sequences. The account's
  SDK is the abstract state of `Reconcile.Account`.
- **Service failures are parameters.** Two outcomes the service decides out of sight
  are inputs in `Reconcile.Env`: a group creation that raises, and an identity creation
  that raises.
- **New identity and group ids come from a counter.**
- **Exceptions that end a loop are results.** They become the `KeyError` result, the
  `ok` flag of a scan, or the `ok` flag of a reconciliation. The state reached before
  the exception is kept, because the source has already appended to its file or
  updated the account by then.

The code's own behaviour is modelled wherever it differs from what its comments and
docstrings suggest:

- **The accumulator quirk** (main.py:562-565). With an empty accumulator, a newly
  created identity is published alone and the accumulator stays empty. So a brand-new
  group that receives N new users ends up with one member, the last one
  (`Reconcile.AddAllNewOnlyLastRemains`). The model keeps this behaviour, which is how
  the code reads, although the design intent is a group of N members.
- **The dispatch tests disagree** (main.py:776-798). `process_files` decides which
  kinds are present with a substring test but picks the file with a suffix test. When
  some name contains the users suffix but no name ends in it, the later `[0]` raises
  IndexError, and the `except` at main.py:807 logs it (`WorkingSet.UsersMismatchRaises`,
  with the witness `WorkingSet.SubstringTestMismatch`). More generally, IndexError is
  raised exactly when a kind passes the substring test and no name ends in its suffix
  (`WorkingSet.PlanForIndexError`).
- **`exit(99)` is not caught** (main.py:805). The call is inside the `try`, but the
  `SystemExit` it raises is not an `Exception`, so the run really exits (`Outcome.Exited`).

A consequence of the code that its docstring states, but that is easy to overlook:

- **The listing filter matches a prefix** (main.py:451). A group id that is a prefix of
  another group id also selects that other group's files
  (`WorkingSet.PrefixIdSelectsOtherGroup`).

## Model

| member | source | states |
|---|---|---|
| Directory.GroupDetails | main.py:155-177 | Succeeds exactly when every payload entry has `@odata.type` (otherwise KeyError on that key); the list starts with the originating group's record and has one more entry than there are group-tagged entries |
| Directory.UserDetails | main.py:198-215 | Succeeds exactly when every entry is tagged (otherwise KeyError); one output record per user-tagged entry |
| Directory.OfKind | main.py:156 | `[d for d in groups_users if d['@odata.type'] == tag]`: no longer than the payload, and every kept entry carries the tag |
| Directory.OfKindSpec | main.py:156 | The tag filter keeps exactly the entries with that tag, each as many times as it occurs in the payload, as a subsequence of the payload |
| Directory.GroupDetailsSpec | main.py:156-166 | The group list is the origin record followed by, in input order, the display-name projection of every group-tagged entry; each later record has at most the key `displayName`, comes from a group-tagged entry, and every group-tagged entry is represented |
| Directory.UserDetailsSpec | main.py:199-205 | Exactly the user-tagged entries, each as often as in the payload, in order; each output record has a key iff the key is whitelisted and present in the entry (absent keys omitted, not defaulted), with the entry's value |
| Directory.PartitionByTag | main.py:156-199 | No entry is both a group and a user; the group, user and service-principal kinds together hold at most as many entries as the payload |
| Directory.FirstNamed | main.py:338-341 | The name query plus `value[0]`: None iff no directory group has that display name, otherwise the first such group |
| Directory.GroupIdFromName | main.py:866-880 | The `startswith` query plus `value[0]['id']`: None (the source's False) iff no display name starts with the name, otherwise the id of the first group whose name does |
| Directory.ScanMember | main.py:351-366 | One direct member: raises exactly when a subscript it reads is missing; emits at most one record, and only for a service principal, with the fixed record shape |
| Directory.ScanMembers | main.py:349-366 | The member loop emits at most one record per member |
| Directory.ScanGroup | main.py:338-368 | One listed group: it completes only if the name query found a directory group, and emits at most one record per direct member of that group |
| Directory.ScanGroups | main.py:336-368 | The group loop: a scan that runs to the end found a directory group for every listed group |
| Directory.ScanGroupSound | main.py:338-362 | Every record emitted for one listed group has the fixed service-principal shape and comes from a service-principal member of the directory group it resolves to |
| Directory.ScanMembersInto | main.py:349-366 | The member loop appends to the file exactly what the specification scan emits, and reports whether it ran to the end |
| Directory.ScanServicePrincipals | main.py:336-368 | The group-and-member loops produce exactly the output and completion flag of the specification scan over all listed groups |
| Directory.ScanMembersStops | main.py:349-372 | After the first member that raises, the remaining members change neither the output nor the outcome |
| Directory.ScanGroupsStops | main.py:338-372 | After the first group that raises, the remaining groups change neither the output nor the outcome |
| Directory.ScanMembersComplete | main.py:351-364 | When every member can be handled, the scan emits, in member order, one record per member whose values include the service-principal tag, with `id` = `applicationId` = the member's id, its display name, `account_id`, and `active` = "true"; other members emit nothing |
| Directory.ScanMembersFirstFailure | main.py:351-366 | At the first member missing a key the scan raises, and the file holds the records of the service principals before that member |
| Directory.ScanMembersSound | main.py:351-362 | Every emitted record comes from a service-principal member of that member list |
| Directory.ScanGroupsSound | main.py:338-362 | Every emitted record has the fixed service-principal shape and comes from a direct service-principal member of the directory group found for a listed group |
| WorkingSet.FilteredNames | main.py:451 | The filtered list is no longer than the listing, and every name in it passes the prefix and suffix test |
| WorkingSet.FilterTmpFiles | main.py:448-454 | The listing loop returns exactly the filtered name list |
| WorkingSet.FilteredNamesSpec | main.py:451-452 | A name is returned iff it is in the listing, starts with the group id, and ends in `_tmp_sp.txt` or `_tmp_users.txt`; no `_tmp_groups.txt` name is returned; the result is a subsequence of the listing |
| WorkingSet.ConventionNamesSelected | main.py:451 | A group's users and service-principal file names are selected for it; its groups file name is not |
| WorkingSet.PrefixIdSelectsOtherGroup | main.py:451 | A group id that is a prefix of another id also selects that other group's users and service-principal files |
| WorkingSet.FirstSegment | main.py:1113 | `split('_')[0]` is the longest underscore-free prefix of the name |
| WorkingSet.FirstSegmentOfFileName | main.py:1113 | For an id without underscores, every working-set file name gives back its id |
| WorkingSet.GroupIds | main.py:1113 | `{file.split('_')[0] for file in file_names}`: every id is underscore-free and begins some file name |
| WorkingSet.GroupIdsOfWorkingSet | main.py:1113 | For a working set written for ids without underscores, the derived id set is exactly the set of those ids |
| WorkingSet.GroupIdsOfOneGroup | main.py:1113 | The three files of one group contribute exactly one id |
| WorkingSet.SelectedKeys | main.py:913 | At most one key per configuration entry |
| WorkingSet.SelectedKeysSpec | main.py:913 | A configuration key is processed iff its value is a non-empty list |
| WorkingSet.PlanFor | main.py:774-805 | The dispatch plan of process_files: a users file it hands on is in the list and ends in `_tmp_users.txt`, a service-principal file it hands on is in the list and ends in `_tmp_sp.txt` |
| WorkingSet.FirstEndingWith | main.py:782-798 | `[f for f … if f.endswith(s)][0]`: None (IndexError) iff no name ends with the suffix, otherwise the first that does |
| WorkingSet.AnyContainsIsSome | main.py:776-777 | Where substring and suffix tests agree on every name, the `any(...)` test holds iff there is a first file of that kind |
| WorkingSet.PlanForExit | main.py:776-805 | process_files exits with 99 exactly when no name contains either suffix |
| WorkingSet.PlanForSpec | main.py:776-805 | With consistent names: exit 99 iff there is neither kind; otherwise no IndexError, and the users file and the service-principal file processed are the first of each kind (absent kinds skipped) |
| WorkingSet.FilteredListNeverExits | main.py:1140-1141 | A non-empty filtered list never leads to exit 99 |
| WorkingSet.UsersMismatchRaises | main.py:776-798 | When some name contains the users suffix but no name ends in it, process_files processes nothing and raises IndexError |
| WorkingSet.PlanForIndexError | main.py:776-798 | process_files raises IndexError exactly when a kind passes the substring test and no name ends in its suffix |
| WorkingSet.SubstringTestMismatch | main.py:776-783 | A witness: for the one-name list holding a service-principal file whose name also contains the users suffix, process_files raises IndexError before processing anything |
| Reconcile.FirstId | main.py:510-512 | Identity lookup by display name: None exactly when no identity of the roster has that name |
| Reconcile.FirstIdSpec | main.py:518-526 | The id found is the id of the first identity with that display name |
| Reconcile.FirstGroupNamed | main.py:702-707 | Group lookup by display name: None (where `[0]` raises) iff no group has that name, otherwise the first one |
| Reconcile.Publish | main.py:538-540 | `groups.update` keeps the number of groups and every group's id and display name, and leaves groups with another id unchanged |
| Reconcile.Account.CreateIdentity | main.py:547 | Appends the new identity to its roster with the next id, which it returns, and advances the counter |
| Reconcile.Account.UpdateGroup | main.py:538-540 | Replaces the target group's member list, nothing else |
| Reconcile.Account.AddMembers | main.py:507-568 | The record loop (and the same loop at main.py:594-664 for service principals) leaves the account, the accumulator and the outcome that the specification function gives |
| Reconcile.Account.CreateAccountGroup | main.py:476-483 | The created group, or None ("Exists") with the account unchanged |
| Reconcile.Account.AddFileToGroup | main.py:687-708 | Group selection then the record loop, as specified by AddFile (and main.py:730-752 for service principals) |
| Reconcile.Account.ProcessOneFile | main.py:687 | Opening a file that is not in the working set raises and changes nothing |
| Reconcile.Account.ProcessFiles | main.py:774-808 | The dispatch runs the users file, then the service-principal file unless the first raised, and reports completed, logged, or exit 99 as specified |
| Reconcile.Step | main.py:507-565 | One record: a creation that raises leaves account and accumulator unchanged; at most one identity id is handed out; the number of groups is unchanged |
| Reconcile.AddAll | main.py:505-565 | The record loop over a whole file: at most one identity created per record, and the number of groups unchanged |
| Reconcile.CreateGroup | main.py:476-483 | `create_db_account_group`: "Exists" (None) leaves the account unchanged; a created group has the requested name, no members, and is appended, and only when no group had that name |
| Reconcile.AddFile | main.py:687-708 | Group selection then the record loop: the id counter never goes back, and at most one group is added |
| Reconcile.Process | main.py:774-808 | process_files ends with exit 99 exactly when the plan says so; the id counter never goes back |
| Reconcile.StepOnExisting | main.py:510-542 | An identity already present is not created; the accumulator grows by exactly the entry for the first match's id; the whole accumulator is published |
| Reconcile.StepOnNew | main.py:543-565 | An absent identity is created once, active, with the record's display name; non-empty accumulator: entry appended and whole accumulator published; empty accumulator: only the new entry published, accumulator stays empty |
| Reconcile.StepOnRefused | main.py:547 | A creation that raises leaves account and accumulator unchanged and stops the file |
| Reconcile.UserRecordIdentity | main.py:508-547 | A resolved user record becomes an active user whose user name equals its display name ("None" when absent) |
| Reconcile.SpRecordIdentity | main.py:595-643 | A discovered service-principal record becomes an active service principal whose application id is the directory member's id |
| Reconcile.StepValid | main.py:507-565 | One record keeps the account well formed |
| Reconcile.CreatedValid | main.py:547 | Creating an identity with the next id keeps the account well formed |
| Reconcile.PublishValid | main.py:538-540 | Republishing a member list keeps the account well formed |
| Reconcile.AddAllValid | main.py:507-565 | A whole file keeps the account well formed: ids below the counter, rosters hold their own kind, group ids distinct |
| Reconcile.AddAllGrows | main.py:507-565 | A file only extends the accumulator, its own roster and the counter, leaves the other roster alone, keeps every group's id and name, and leaves other groups' members untouched |
| Reconcile.AddAllDistinct | main.py:510-547 | Create-if-absent never introduces a second identity with the same display name |
| Reconcile.AddAllSound | main.py:531-565 | Every entry added to the accumulator or the published member list refers to an identity of the account with that id and display name |
| Reconcile.StepAccumulates | main.py:531-561 | With a non-empty accumulator a successful step extends the accumulator by exactly one entry carrying the record's display name and publishes the whole accumulator |
| Reconcile.AddAllAccumulates | main.py:531-561 | With a non-empty starting accumulator the display names of the final accumulator are those of the starting one followed by the file's display names, one per record, in file order |
| Reconcile.AddAllPublishesAccumulator | main.py:538-561 | With a non-empty starting accumulator and at least one record, the group ends up publishing the whole final accumulator |
| Reconcile.StepNewWithEmpty | main.py:562-565 | Empty accumulator, new identity: the identity is created, only it is published, the accumulator stays empty |
| Reconcile.AddAllNewOnlyLastRemains | main.py:562-565 | From an empty accumulator, N distinct new identities are all created but the group ends up publishing only the last one |
| Reconcile.CreateGroupWhenTaken | main.py:476-483 | Creating a group whose name is taken answers "Exists" and changes nothing |
| Reconcile.CreateGroupIdempotent | main.py:476-483 | After creation the name query finds exactly the new, empty group, and a second creation answers "Exists" without a duplicate |
| Reconcile.AddFileKeepsNames | main.py:687-708 | Reconciling a file keeps every existing group's id and name |
| Reconcile.AddFileEstablishesGroup | main.py:687-708 | A file reconciled without an exception leaves a group of the destination name |
| Reconcile.SecondFileJoinsGroup | main.py:779-788 | After the users file succeeds, the service-principal file joins the same group and starts from its published member list |
| Reconcile.CreateGroupValid | main.py:477 | Group creation keeps the account well formed (the new group id is fresh) |
| Reconcile.AddFileValid | main.py:687-708 | Group selection plus the record loop keeps the account well formed |
| Reconcile.AddFileDistinct | main.py:687-708 | Reconciling a file keeps display names distinct in both rosters |
| Reconcile.ProcessKeepsInvariants | main.py:774-808 | A whole process_files run keeps the account well formed and display names distinct |
| Reconcile.ProcessCompletedHasGroup | main.py:774-808 | A process_files run that completes leaves a group of the destination name |
| Reconcile.ExitLeavesAccount | main.py:800-805 | A run that exits with 99 leaves the account untouched |

## Left out

- Token acquisition (main.py:67-92) and every HTTP call to Microsoft Graph. Their responses are given input sequences: a transitive-member payload, and the directory's groups with their direct members, in the order the service returns them.
- The Databricks SDK is not modelled. Its users, service principals and groups are the fields of `Reconcile.Account`.
- Which operations raise inside the service is an input (`Reconcile.Env`), not a model of the service: a group creation beyond a taken name, and an identity creation. In the model, `users.list`, `service_principals.list` and `groups.update` never raise. So the end state where an identity was created but the following `groups.update` failed, leaving it unpublished and stopping the file, cannot be reached in the model.
- The model assumes that group creation also fails when the name is already taken.
- Reconcile.FirstId: the existence check uses a quoted filter and the id lookup an unquoted one (main.py:510, main.py:518). Both are modelled as the same lookup, so the IndexError that a differing unquoted query could cause at `idd[0]` is not modelled.
- Reconcile.FirstGroupNamed: the service's filtering is modelled as an exact display-name comparison, so `groups.list` under an unquoted filter is taken to find the group the creation reported as existing.
- Directory.FirstNamed: the source takes `value[0]` of the response to the service-side query `$filter=displayName eq '<name>'` (main.py:238-242, main.py:338-341). The model performs that query itself as an exact display-name comparison over the directory's groups, so any other matching rule of the service (case, quoting) is not modelled.
- Directory.GroupIdFromName: likewise, the source takes `value[0]['id']` of the service-side query `$filter=startswith(displayName,'<name>')` (main.py:868-875). The model performs that query itself as an exact prefix test.
- Reconcile.AddFile: an existing group whose SDK member list is `None` (no members) is modelled as an empty list. In the source, the later `append` on `None` would raise.
- The `primary` and `type` fields the source copies between membership entries are not modelled; an entry is its display name and value.
- Files, `str()` and `ast.literal_eval` serialisation, and the `groups_users_sps/` path prefix are not modelled. The working set is a map from file name to its records.
- Directory.UserDetails: returns the records the source appends to the users file. The function itself returns None.
- Directory.GroupDetails: does not model the write of the list to the groups file.
- `clean_up_files` (main.py:811-840) is filesystem deletion with logging.
- `check_db_group_existence` (main.py:402-426) is left out. The second pass of the driver (main.py:1116-1169) takes the same action in both of its branches: filter the listing, then call process_files when the list is non-empty.
- `create_databricks_group` (main.py:377-399) is never called.
- The driver loops in `__main__` are orchestration: the group-id and group-name paths, the users-key path, and the repeated inner loop at main.py:996. Only the id derivation (main.py:1113) and the key selection (main.py:913) are modelled.
- The order of `unique_ids`, which comes from a set, is not modelled; `GroupIds` is a set.
- Logging and the module-level configuration parsing are left out.
