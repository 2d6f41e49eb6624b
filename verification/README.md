# A verified model of the AWX core algorithms

AWX is a web application for running automation jobs. Between its framework code sit a number of small
algorithms that other parts rely on without checking. This project models them in Dafny and proves what they
keep, over every input and every run:

- **Inventory groups** (`GroupGraph`). Deleting a group hands its hosts and child groups to its surviving
  parents: vertex elimination on a directed graph that may have cycles.
- **Role hierarchy** (`RoleGraph`, `RoleAncestors`, `RoleStore`, `RoleParents`, `RolePaths`). Access checks read a stored
  table of every role's ancestors. The table is maintained by sweeps of delete and insert statements, one layer
  of children at a time; implicit parents are resolved along declared paths,
  recorded on the role and resynchronised on every save.
- **Settings** (`SettingValues`, `SettingsRegistry`, `SettingsCache`, `SettingsCoherence`, `SettingsLimits`,
  `SettingsIds`, `SettingsSecrecy`, `SettingsRefills`, `SettingsWrapper`, `CacheProcesses`, `CacheRaces`, `CacheShapes`,
  `CacheChains`). A cache with marker strings, a preload, time-outs, invalidation by signal, a reverse dependency index,
  and encrypted entries keyed by a row id that is cached separately.
  `SettingsCache` holds the operations as functions of the state, `SettingsWrapper` the object that updates its fields
  in place and is proved to do exactly that, and the other modules what follows over whole runs of one process or
  several. In the model of several processes every value carries its provenance, since a default may be computed from
  other cached settings; no operation takes longer than a given patience.
- **IP addresses** (`Cidr`, `Aggregates`, `Prefixes`, `IpAllocation`, `Utilization`): CIDR blocks (section 3.1 of
  RFC 4632), non-overlap of aggregates, validation of prefixes, address allocation, and utilization.
- **Deep copy** (`ObjectForest`, `CopyLinks`, `DeepCopy`): the recursive copy of an object tree below a new root, and
  the second pass that repairs many-to-many links and foreign keys among the copies.
- **Capacity** (`Capacity`): overlapping instance groups and the impact of tasks on them.
- **Event output** (`SgrTruncation`): truncation that does not split SGR sequences (ECMA-48 section 8.3.117).
- **Redaction** (`TextScan`, `UriRedaction`, `UriSecrets`): the loop that finds URIs and hides their user names and passwords.
- **Websockets** (`ChannelGroups`): which groups a channel is in, and which its session remembers.
- **Filters** (`LookupPath`): the traversal of lookup paths over related models.

Objects that the program updates in place are classes here; each of their methods is proved to produce exactly the
state that a specification function or predicate describes, and the lemmas are about those.

## Properties that turned out false

Each is shown by a concrete input and replaced by the exact condition.

- *The ancestor table reflects the hierarchy, loops included* (comment at `awx/main/models/rbac.py:213-288`). A loop
  whose roles support each other keeps an ancestor that has been taken away (`RoleGraph.LoopKeepsRemovedAncestor`).
  After a removal the table is exact if and only if no remaining loop has lost an ancestor
  (`RoleGraph.RemovalExactlyWhen`); without loops it is exact whatever happened before, and adding parents is always
  exact.
- *The cache agrees with the database.* It does for every choice of defaults if and only if `depends_on` names every
  assignable setting that can influence a default, directly or not (`SettingsLimits.CoverageExact`). A stored null is
  read as the field default by the preload and as "not set" by the direct path
  (`SettingsLimits.StoredNullReadsTwoWays`); the two agree exactly as `SettingsLimits.PreloadMatchesDirectRead` says.
- *With several processes too.* A fill overtaken by a write goes stale (`CacheChains.OvertakenFill`). A run is coherent
  throughout, whatever it writes and whatever the defaults, if and only if no process stores a value that is out of
  date, which is told by what was read and written when and not by the values
  (`CacheShapes.CoherentExactlyByEvents`). One time-out after the last write does not do when a default reads other
  settings: for a setting of any rank r, r + 1 of them, less a second each, leave a live entry wrong
  (`CacheChains.StaleThroughInputs`); r + 1 in full do (`CacheProcesses.EventuallyCoherent`).
- *An encrypted setting is stored encrypted.* It is, under its own row's id, unless its row holds that very text in clear
  already: then assigning it saves nothing (`SettingsSecrecy.AssignedHiddenExactly`, `SettingsSecrecy.ClearTextStays`).
  From a state with nothing in clear no run leads to one with anything in clear (`SettingsSecrecy.RunSealed`,
  `SettingsSecrecy.RunHidesAll`).
- *The id in use for an encrypted entry is the one it was encrypted under.* It is if and only if every assignable
  encrypted setting has a default (`SettingsIds.TokensReadableExact`, with the failing run in
  `SettingsIds.MissingDefaultLosesId`).
- *100 percent utilization means no address is available.* It does for pools and for IPv4 prefixes shorter than /31,
  and for no others (`Utilization.FullExactlyWhen`, with the failing tables in `Utilization.TinyNonPool` and
  `Utilization.UncountedEdges`).
- *Validation keeps prefixes unique.* It compares a prefix as it was given, so one with host bits set passes
  (`Prefixes.TwoSpellings`). Being accepted means being the only one of its kind, in every table, if and only if the
  prefix is given without host bits (`Prefixes.AcceptedAloneExactly`); over runs, tables filled with care stay pairwise
  different (`Prefixes.RunAll`).
- *Balanced SGR counts leave no colour on.* They do exactly when the cut has more sets than exact resets or already ends
  with nothing in force (`SgrTruncation.ClearExactlyWhen`, `SgrTruncation.OpenColourExample`).
- *Redaction hides the user name and the password.* Each is searched for in the whole URI, so a short one may be found
  elsewhere and stay at its place (`UriSecrets.PasswordStays`); the exact condition is
  `UriSecrets.SecretsHiddenExactly`.
- *Every URI with secrets is redacted.* One behind another colon in the same unbroken run of text is missed when the match
  that begins before it is left (`UriRedaction.NestedUriMissed`, `UriRedaction.NestedUriExample`). All are rewritten
  in a text in which none is behind one that is left (`UriRedaction.AllRewritten`), and in a text that is one URI that
  is exact (`UriRedaction.OneUriExactly`).
- *The repair pass redirects foreign keys among the copies.* A key that the first pass already copied is never
  redirected (`CopyLinks.RedirectedExactly`, `CopyLinks.KeyKeepsOriginal`). No model of the program preserves a foreign
  key to a copied row other than its parent, so nothing reaches this at present.
- *A channel is in a restricted group only if access to its object allows it.* A group named as a whole is never checked
  (`ChannelGroups.DisguisedGroup`); the exact condition is `ChannelGroups.GuardedExactly`.
- *A session remembers all groups of its channel.* A message that joins a group and then raises makes it forget, for good
  (`ChannelGroups.ForgetsExactly`, `ChannelGroups.LeaksExactly`, `ChannelGroups.LeakedForGood`). An id that cannot be
  looked up raises, and so does a name or id beyond ASCII, under any name (`ChannelGroups.UnencodableIdLeaks`), or a
  group name that cannot be joined.
- *Implicit parents can come and go without touching explicit grants.* A parent held both ways is lost
  (`RoleParents.RoundTripExactly`, `RoleParents.GrantLost`).
- *The corrected lookup path can be used in place of the original.* Only if the path names an object's type nowhere but
  at its end (`LookupPath.CorrectedReadableExactly`, `LookupPath.TypeInside`).

For a prefix that is a single host, recording an available address would not make it unavailable
(`IpAllocation.RecordingTakesOne`). Validation refuses to store one, so in every stored prefix it does
(`Prefixes.RunAll`); the exception can only arise because the serializers save without calling `clean`.

## Model

| member | source | states |
|---|---|---|
| GroupGraph.Inventory.DeleteGroup | awx/main/signals.py:261-293 | snapshot, removal of the row and the nested loops together turn the graph into exactly its elimination of the group |
| GroupGraph.Inventory.MigrateChildren | awx/main/signals.py:284-293 | the nested loops add exactly the links from every surviving saved parent to every surviving saved host and child |
| GroupGraph.EliminateEdge | awx/main/signals.py:284-293 | a survivor links to x afterwards if and only if it did, or it was a parent of the deleted group and x a member of it |
| GroupGraph.DeletePreservesReachability | awx/main/signals.py:261-293 | one deletion neither creates nor destroys reachability between survivors, cycles included |
| GroupGraph.DeletePreservesAcyclicity | awx/main/signals.py:261-293 | the repair never closes a cycle |
| GroupGraph.EdgesAfterDeletions | awx/main/signals.py:261-293 | after any sequence of deletions, a survivor links to x if and only if the original had a chain to x through deleted groups only |
| GroupGraph.DeletionOrderIrrelevant | awx/main/signals.py:261-293 | the final graph depends on which groups were deleted, never on the order |
| GroupGraph.RunPreservesReachability | awx/main/signals.py:261-293 | any run of deletions preserves reachability between survivors and keeps an acyclic hierarchy acyclic |
| RoleGraph.ClosedIsComplete | awx/main/models/rbac.py:267-288 | a table in which every role has itself and all its parents have misses no ancestor, loops or not |
| RoleGraph.StaleLeadsToLoop | awx/main/models/rbac.py:240-253 | a wrong row of a settled table leads up to a loop whose roles all carry the same wrong ancestor |
| RoleGraph.SettledIsExact | awx/main/models/rbac.py:267-288 | a settled table lists exactly the ancestors, provided no loop has lost one |
| RoleGraph.SettledWithoutLoops | awx/main/models/rbac.py:213-253 | without loops a settled table is exact, whatever the history |
| RoleGraph.ExactIsSettled | awx/main/models/rbac.py:267-288 | an exact table satisfies both conditions the statements establish |
| RoleGraph.RemovalExactlyWhen | awx/main/models/rbac.py:212-402 | after a removal the rebuilt table is exact if and only if no loop that is left has lost an ancestor |
| RoleGraph.SettledExactlyWhen | awx/main/models/rbac.py:212-402 | a rebuilt table is not exact if a loop carried, in the table it was rebuilt from, an ancestor it has lost; if nothing was added that is the only way |
| RoleGraph.LoopKeepsRemovedAncestor | awx/main/models/rbac.py:240-253 | two roles that are each other's parents keep an ancestor that was taken away |
| RoleAncestors.InheritedExactly | awx/main/models/rbac.py:354-374 | the union in the insert statement is a role's own row and whatever a parent has |
| RoleAncestors.PrunedExactly | awx/main/models/rbac.py:332-345 | the delete statement takes away, for the roles named, an ancestor other than the role itself that no parent has |
| RoleAncestors.ChildrenExactly | awx/main/models/rbac.py:386-402 | the next roles are those with a parent among the roles named |
| RoleAncestors.PruneStep | awx/main/models/rbac.py:329-347 | a delete statement makes nothing missing, leaves wrong rows only at later roles and at children, and spares rows that support each other |
| RoleAncestors.ExtendStep | awx/main/models/rbac.py:349-383 | an insert statement makes nothing wrong and leaves missing rows only at later roles and at children |
| RoleAncestors.AncestorTable.DeleteStale | awx/main/models/rbac.py:329-347 | the deleting pass in chunks of 40000; deleting nothing means every row was justified, and an ancestor taken from anyone had lost its support somewhere before the pass |
| RoleAncestors.AncestorTable.InsertMissing | awx/main/models/rbac.py:349-383 | the inserting pass in chunks; inserting nothing means no row was missing |
| RoleAncestors.AncestorTable.SweepOnce | awx/main/models/rbac.py:328-402 | one sweep moves what is pending to the children; one that changes nothing leaves the table settled |
| RoleAncestors.AncestorTable.Rebuild | awx/main/models/rbac.py:311-402 | a rebuild that does not raise leaves a settled table; one that raises leaves it as it was; it does not raise if no role is more than 100 links below the changed ones, nor, whatever the loops, if it only adds or only removes and there are at most 100 roles |
| RoleAncestors.OwedWasNew | awx/main/models/rbac.py:349-402 | whatever an inserting sweep hands on, the sweep before it handed on too |
| RoleAncestors.PaceStep | awx/main/models/rbac.py:323-402 | after k inserting sweeps an ancestor still being handed on has k roles, which bounds the number of sweeps by that of roles |
| RoleAncestors.BaselessWasDropped | awx/main/models/rbac.py:329-347 | whatever a deleting sweep takes away, the sweep before it took away too |
| RoleAncestors.EbbStep | awx/main/models/rbac.py:323-402 | after k deleting sweeps an ancestor still being taken away has lost k roles, which bounds the number of sweeps by that of roles |
| RoleStore.RoleTable.RebuildAncestors | awx/main/models/rbac.py:291-300 | inside a batch the roles go on its lists and nothing else changes; outside, the table is rebuilt at once |
| RoleStore.RoleTable.AddParents | awx/main/signals.py:158-164 | adding parents keeps an exact table exact, loops included, or raises and changes nothing; with at most 100 roles it does not raise |
| RoleStore.RoleTable.AddChildren | awx/main/signals.py:158-164 | the same from the parent's side; inside a batch exactly the children that are new go on its list |
| RoleStore.RoleTable.RemoveParents | awx/main/signals.py:166-170 | removing parents from an exact state leaves an exact table if and only if no loop loses an ancestor; with at most 100 roles it does not raise, loops included |
| RoleStore.RoleTable.RemoveChildren | awx/main/signals.py:166-170 | the same from the parent's side |
| RoleStore.RoleTable.CreateRole | awx/main/models/rbac.py:164-166 | saving a new role keeps an exact table exact; up to 100 roles it does not raise |
| RoleStore.RoleTable.SaveRole | awx/main/models/rbac.py:164-166 | saving an existing role changes nothing in an exact table |
| RoleStore.RoleTable.DeleteRoles | awx/main/fields.py:359-368 | deleting roles with their links and rows, then rebuilding their children, leaves an exact table if and only if no loop loses a surviving ancestor; it does not raise if at most 100 roles are left |
| RoleStore.RoleTable.BeginBatch | awx/main/models/rbac.py:98-116 | only an outermost batch starts empty lists |
| RoleStore.RoleTable.EndBatch | awx/main/models/rbac.py:118-127 | the outermost batch rebuilds all that was put off; the table is then exact unless a loop lost an ancestor meanwhile, it is not exact if a loop carried in the old table an ancestor it has lost, and in a batch that puts off no addition this is an if and only if |
| RoleStore.ConsistentIsExact | awx/main/models/rbac.py:212-402 | with nothing pending the table is exact unless a loop has lost an ancestor since it last was |
| RoleStore.ConsistentWithoutLoops | awx/main/models/rbac.py:212-402 | once there are no loops, what earlier loops left behind has been cleared |
| RoleStore.DeletedConsistent | awx/main/fields.py:364-368 | after a cascade, wrong rows can only be at children of the deleted roles |
| RoleParents.SyncedExactly | awx/main/fields.py:196-199 | a resync leaves all new implicit parents in place if and only if those recorded before had been; other parents stay |
| RoleParents.SyncIsIdempotent | awx/main/fields.py:196-199 | a second resync with the same parents changes nothing |
| RoleParents.RoundTripExactly | awx/main/fields.py:196-199 | changing the implicit parents and back restores the parents if and only if none was held both ways |
| RoleParents.GrantLost | awx/main/fields.py:196-199 | a team held by hand and for a while implicitly is lost when it ceases to be implicit |
| RoleParents.OneSortedList | awx/main/fields.py:200-203 | a set has one sorted list, so comparing the recorded lists compares the sets |
| RoleParents.RevokeKeepsExactly | awx/main/fields.py:189-205 | taking parents away by hand keeps the recorded ones among the parents if and only if none of them is recorded |
| RoleParents.AppliesExactly | awx/main/fields.py:189-205 | link by link, what a grant, a revoke, a creation, a deletion and a resync do |
| RoleParents.ResyncedParents | awx/main/fields.py:198-199 | the removals and additions change the one role's parents as stated and no other role's |
| RoleParents.RunKeeps | awx/main/fields.py:189-205 | over runs of grants, revokes, creations, deletions and resyncs the recorded parents that exist stay parents |
| RoleParents.ResyncAfterAnyRun | awx/main/fields.py:189-205 | after any run, a resync leaves exactly the resolved ones among old and new implicit parents, keeps all else, and is idempotent |
| RoleParents.ImplicitRoles.UpdateRoleParentage | awx/main/fields.py:189-205 | one role's links and recorded list become those of the resync; inside a batch the role goes on the lists exactly if its recorded parents change, or lose one; if a rebuild raises, which it does not with at most 100 roles, all is as before |
| RolePaths.ResolvedExactly | awx/main/fields.py:131-155 | a path yields one role if and only if it can be walked to that role, raises if and only if it can be walked to something else, and yields nothing if it breaks off |
| RolePaths.Resolver.SingletonRole | awx/main/fields.py:343-351 | a singleton's role is the one it had, or a new one recorded for it |
| RolePaths.Resolver.ResolveParentRoles | awx/main/fields.py:335-357 | the result is exactly the set of roles that some declared path names |
| SettingsRegistry.Registry.Register | awx/conf/registry.py:37-55 | registering adds the entry and its place in the index of dependents, or raises, for a key already there, a reserved slug or a missing class, in this order, and changes nothing |
| SettingsRegistry.Registry.Unregister | awx/conf/registry.py:57-60 | unregistering removes the entry and the key from every dependents set |
| SettingsRegistry.RunKeepsInverse | awx/conf/registry.py:37-60 | after any sequence of calls the index is the exact inverse of depends_on |
| SettingsRegistry.StaleKeysExact | awx/conf/signals.py:27-33 | a change drops exactly the changed key and its registered direct dependents |
| SettingsRegistry.UnregisterUndoesRegister | awx/conf/registry.py:37-60 | unregistering restores every dependents set a registration changed |
| SettingsCoherence.CachedAgrees | awx/conf/settings.py:156-213 | in a coherent state a live entry, decrypted under the id in use, is the cached form of what the setting means |
| SettingsCache.EncryptsExactly | awx/main/utils/encryption.py:60-84 | a text is encrypted under the row's id unless it is empty or begins like one that is encrypted |
| SettingsCache.RowCounts | awx/conf/settings.py:388-401 | a row counts for every setting that can be assigned and for the isolated ones, and for no other |
| SettingsIds.ReadableExactly | awx/conf/settings.py:156-213 | a live entry gives back what was stored if and only if it was not encrypted or the id in use is the one it was encrypted under |
| SettingsWrapper.Wrapper.LookupSetting | awx/conf/settings.py:360-410 | a read past the preload: cache, else row, else default, then the fill |
| SettingsWrapper.Wrapper.PreloadCache | awx/conf/settings.py:290-358 | the preload with its two timers |
| SettingsWrapper.Wrapper.SetMany | awx/conf/settings.py:181-188 | the entries of one preload are stored together, each encrypted under its id |
| SettingsWrapper.Wrapper.OnSettingChange | awx/conf/signals.py:24-42 | drops the setting and its dependents, then reads each for the change signal |
| SettingsWrapper.Wrapper.Create | awx/conf/models.py:47-71 | the two-phase save of an encrypted row, invalidating after each phase; a text of an encrypted setting ends encrypted under the row's own id |
| SettingsWrapper.Wrapper.SetLocalValue | awx/conf/settings.py:449-471 | refuses exactly a read-only setting, else creates or changes the row; a text of an encrypted setting ends encrypted under its row's id if and only if the row did not hold it in clear |
| SettingsWrapper.Wrapper.DelLocalValue | awx/conf/settings.py:480-487 | refuses a read-only setting, else deletes its rows one by one |
| SettingsCoherence.LookupAgrees | awx/conf/settings.py:360-432 | from a coherent state a read returns exactly "first row, else default" and leaves the cache coherent |
| SettingsCoherence.PreloadAgrees | awx/conf/settings.py:290-358 | the preload fills the cache with what direct reads would return |
| SettingsRefills.PreloadFills | awx/conf/settings.py:290-358 | a preload that neither timer holds back leaves every setting with rows live, and both timers hold the next one back for 60 seconds |
| SettingsCoherence.ChangeAgrees | awx/conf/signals.py:24-42 | dropping the setting and its direct dependents is enough when depends_on is complete |
| SettingsRefills.ChangeRefills | awx/conf/signals.py:24-42 | once the signal has been handled, the changed setting and all whose depends_on names it are live again and agree with the rows |
| SettingsCoherence.CreateRowAgrees | awx/conf/models.py:47-71 | both phases of the save leave the cache coherent, and the setting then means the assigned value |
| SettingsCoherence.SetLocalAgrees | awx/conf/settings.py:449-471 | after an assignment the setting means the assigned value |
| SettingsCoherence.DeleteRowsAgrees | awx/conf/settings.py:480-487 | deleting the rows keeps the cache coherent and touches no other setting's rows |
| SettingsCoherence.CacheAgreesWithDatabase | awx/conf/settings.py:290-432 | in every run from a cold cache every live entry decodes to the first row or else the default, and every read returns it |
| SettingsCoherence.ReadYourWrites | awx/conf/settings.py:449-471 | whatever happened before, an assigned value is what the next read returns |
| SettingsCoherence.ReadYourDeletes | awx/conf/settings.py:480-487 | after a deletion the next read returns the default |
| SettingsLimits.DecodeExact | awx/conf/settings.py:44-49 | a value survives the cache encoding if and only if it is neither null nor one of the markers |
| SettingValues.EncodesExactly | awx/conf/settings.py:36-41 | null and the empty collections have markers of their own, everything else stands for itself |
| SettingsLimits.PreloadMatchesDirectRead | awx/conf/settings.py:316-345 | preload and direct read cache the same value exactly when the first row is not blank or nothing better exists |
| SettingsLimits.StoredNullReadsTwoWays | awx/conf/settings.py:404-405 | a stored null over a default is read in two ways |
| SettingsLimits.MissedDependencyGoesStale | awx/conf/signals.py:27-33 | a missed dependency lets a read return a value the setting no longer has |
| SettingsLimits.CoverageExact | awx/conf/signals.py:24-42 | the cache serves the truth for every choice of defaults if and only if depends_on is complete |
| SettingsIds.MissingDefaultLosesId | awx/conf/settings.py:388-410 | an encrypted setting without a default has a run that ends in an undecryptable entry |
| SettingsIds.TokensReadableExact | awx/conf/settings.py:190-213 | entries can always be decrypted if and only if every assignable encrypted setting has a default |
| SettingsSecrecy.CreatedHidden | awx/conf/models.py:47-71 | creating the row of an encrypted setting leaves a text encrypted under the new row's id |
| SettingsSecrecy.AssignedHiddenExactly | awx/conf/settings.py:449-471 | assigning a text to an encrypted setting leaves it encrypted under its row's id if and only if its row did not hold that text in clear |
| SettingsSecrecy.ClearTextStays | awx/conf/settings.py:465-471 | a text in clear that is there already is not removed by assigning it again |
| SettingsSecrecy.RunSealed | awx/conf/models.py:47-71 | over every run, nothing comes to be stored in clear for an encrypted setting, in the database or the cache, but texts that begin like encrypted ones |
| SettingsSecrecy.RunHidesAll | awx/conf/settings.py:156-213 | over every run from a cold cache with clean defaults, no row and no live entry of an encrypted setting is any text in clear |
| CacheProcesses.ServedTraceable | awx/conf/settings.py:360-410 | whatever any process serves was computed, through rows and defaults, from versions each of which was the database when it was read; it was cached less than 60 seconds ago, and nothing in it is older than one time-out and the patience for each rank |
| CacheProcesses.SimpleServedWasCurrent | awx/conf/settings.py:360-410 | a setting whose default reads no other is served as it was in one version, read less than a time-out and the patience ago |
| CacheProcesses.OneVersion | awx/conf/settings.py:388-401 | a value all of whose parts were read in one version is what the setting meant in that version |
| CacheProcesses.StepValid | awx/conf/settings.py:290-410 | every step of every process keeps the provenance and the age of all that is cached or under way |
| CacheProcesses.ReusesExactly | awx/conf/settings.py:376-385 | a hit is an entry less than 60 seconds old that is not the not-set marker |
| CacheProcesses.FillsExactly | awx/conf/settings.py:402-410 | a fill stores one value the process has read or computed and changes no other entry |
| CacheProcesses.InvalidatesExactly | awx/conf/signals.py:24-42 | an invalidation drops exactly the setting written and those whose depends_on names it |
| CacheProcesses.WritesExactly | awx/conf/settings.py:449-471 | a write changes the one row and nothing in the cache, and is followed by its invalidation |
| CacheProcesses.EventuallyCoherent | awx/conf/settings.py:390-410 | a time-out and the patience for the setting and for each rank below it after the last write, whatever is live agrees with the database; one of them does for a setting whose default reads no other |
| CacheChains.StaleThroughInputs | awx/conf/settings.py:390-410 | fewer time-outs than settings in a chain do not do: for any rank r, 59 seconds for each of the r + 1 settings after the last write the topmost entry is live and wrong |
| CacheRaces.QuietAgrees | awx/conf/settings.py:390-410 | a value none of whose settings was written after it was read is not out of date, and is what the setting means now |
| CacheRaces.CurrentAgrees | awx/conf/settings.py:388-410 | a value is what the setting means now if the rows it was made of have not come, gone or been assigned again since they were looked up |
| CacheRaces.OutdatedMeansOvertaken | awx/conf/signals.py:24-42 | with complete depends_on, a value out of date was read in part before a write that its setting depends on, and that write's invalidation is done or pending |
| CacheRaces.StepCoherent | awx/conf/signals.py:24-42 | with complete depends_on, only a fill of a value that is out of date, not about to be dropped, can break coherence, and it does if and only if the value differs from the present one |
| CacheRaces.CoherentWithoutOutdatedFills | awx/conf/signals.py:24-42 | a run without fills of values that are out of date stays coherent, up to pending invalidations; with the values given, a run does if and only if no such value differs |
| CacheRaces.CoherentUnlessOvertaken | awx/conf/signals.py:24-42 | in particular a run stays coherent in which nothing is stored that was read, in any part, before a write its setting depends on, once that write's invalidation is done |
| CacheShapes.NextAlike | awx/conf/settings.py:290-410 | what happens when does not depend on the values: equal steps lead worlds equal but for the values to such worlds |
| CacheShapes.OutdatedDiffers | awx/conf/settings.py:388-401 | if every row holds the number of its write and every default the list of its inputs, a value out of date differs from what the setting means now |
| CacheShapes.EchoRun | awx/conf/settings.py:290-410 | every run has a run of the same shape with such values, which is incoherent somewhere if a value out of date is stored |
| CacheShapes.CoherentExactlyByEvents | awx/conf/signals.py:24-42 | every run of a shape is coherent throughout, whatever is written and whatever the defaults, if and only if the shape has no fill of a value out of date that is not about to be dropped |
| CacheChains.OvertakenFill | awx/conf/settings.py:406-410 | a read overtaken by another process's write and invalidation stores a value out of date and leaves a stale entry |
| Cidr.CidrSameAddresses | awx/ipam/models.py:183-185 | clearing the host bits changes no address of the block and is idempotent |
| Cidr.NestedOrDisjoint | awx/ipam/models.py:190-208 | of two blocks of one family the longer lies inside the shorter or shares no address with it, as the leading bits tell |
| Cidr.ContainsMeansInclusion | awx/ipam/models.py:190-199 | the database's containment test is inclusion of addresses |
| Cidr.ContainedMeansStrictInclusion | awx/ipam/models.py:201-208 | the strict containment test is strict inclusion of addresses |
| Cidr.OverlapMeansNested | awx/ipam/models.py:190-208 | two blocks share an address if and only if one contains the other |
| Aggregates.RejectsExactlyConflicts | awx/ipam/models.py:190-208 | the two containment tests reject exactly the prefixes that overlap another aggregate |
| Aggregates.SavingKeepsDisjoint | awx/ipam/models.py:181-214 | storing an accepted prefix, new or changed, keeps all aggregates pairwise disjoint |
| Aggregates.AggregateTable.Clean | awx/ipam/models.py:181-208 | accepts if and only if nothing overlaps, and names an aggregate that covers or is covered otherwise |
| Aggregates.AggregateTable.Store | awx/ipam/models.py:181-214 | clean then save: the row is stored, normalised and with the number of its family, if and only if nothing overlaps; a rejection changes nothing |
| Aggregates.RunAll | awx/ipam/models.py:181-214 | any run of creations, changes and deletions does what the conflicts found on the way allow, and after it an address belongs to at most one aggregate |
| Prefixes.PrefixStore.Store | awx/ipam/models.py:262-293 | clean then save: a row is stored, normalised, if and only if it is neither a /32 of IPv4 nor a /128 of IPv6 and, where uniqueness is enforced, no other of its routing table is written like it; a rejection changes nothing |
| Prefixes.AcceptedAloneExactly | awx/ipam/models.py:275-301 | every table that accepts a prefix keeps its normal form alone in its routing table if and only if the prefix was given without host bits |
| Prefixes.TwoSpellings | awx/ipam/models.py:275-301 | 10.0.0.1/24 is accepted beside 10.0.0.0/24 and stored as the same block |
| Prefixes.RunAll | awx/ipam/models.py:262-340 | any run stores what may be stored on the way; in every stored prefix recording an available address takes exactly that address away; and if every store into a routing table was enforced and given without host bits, its prefixes are pairwise different |
| IpAllocation.AddressTable.GetFirstAvailableIp | awx/ipam/models.py:351-358 | the least available address with the prefix's mask, or None if and only if none is available |
| IpAllocation.AddressTable.Record | awx/ipam/models.py:441-463 | an address is stored if and only if uniqueness is not enforced or no row of its routing table and family has the same host, whatever its mask |
| IpAllocation.RecordingTakesOne | awx/ipam/models.py:309-340 | recording an available address takes exactly that one if and only if the prefix is not a single host |
| IpAllocation.AvailableIsUnique | awx/ipam/models.py:438-454 | an available address never fails validation |
| IpAllocation.AvailableExactly | awx/ipam/models.py:325-340 | which addresses are available, from the prefix, the edges and the rows of its routing table and family |
| IpAllocation.AddressTable.TakeAll | awx/ipam/models.py:325-358 | taking and recording addresses yields, in strictly increasing order, exactly those available at the start, then None |
| IpAllocation.SingleHostPoolNeverUsedUp | awx/ipam/models.py:325-340 | a single-host pool, which only a save without clean can store, would offer its address for ever |
| Utilization.SpaceInside | awx/ipam/models.py:217-222 | all addresses of the child prefixes the containment query returns lie in the block |
| Utilization.ContainerFullExactly | awx/ipam/models.py:217-222 | container utilization is at most 100, because the children lie inside, and 100 if and only if no child space is available |
| Utilization.ContainerFloor | awx/ipam/models.py:217-222 | container utilization is the floor of the exact percentage |
| Utilization.HostFloor | awx/ipam/models.py:368-374 | host utilization is the floor of the exact percentage of the size, which leaves the edges out for IPv4 non-pools shorter than /31 |
| Utilization.MeaningfulPercentage | awx/ipam/models.py:360-374 | for pools and IPv4 prefixes shorter than /31, 100 percent if and only if no address is available |
| Utilization.FullExactlyWhen | awx/ipam/models.py:366-374 | those are exactly the prefixes for which it means that |
| DeepCopy.Store.CreateCopy | awx/api/generics.py:884-924 | the row created is the original with the parent link redirected, preserved fields kept and the rest dropped |
| DeepCopy.Store.CopyModelObj | awx/api/generics.py:884-943 | the recursion ends with a one-to-one map from the object and all below it to fresh rows, each below its parent's copy; no row changes |
| DeepCopy.Store.DeepCopy | awx/main/tasks.py:2443-2474 | the whole deferred copy: the map, where every copy hangs, what it holds, the exact set of links, and no original changed |
| DeepCopy.Store.ReconstructRelationships | awx/main/tasks.py:2422-2439 | repairs every copy once and adds exactly the images of the preserved links, in whatever order |
| DeepCopy.Store.AddLinks | awx/main/tasks.py:2433-2438 | adds the image of every link of one relationship of one row |
| ObjectForest.SubtreesDisjoint | awx/api/generics.py:939-943 | in a forest the subtrees of two children share nothing, so no row is copied twice |
| ObjectForest.KidsExactly | awx/api/generics.py:897-943 | the children copied are the rows whose foreign key names the parent, for each preserved and not excluded one-to-many field, the parent's own model included |
| ObjectForest.CopyExactly | awx/api/generics.py:893-919 | field by field, what a copy holds: links to the old parent turned to the new one, preserved links and values, nothing excluded, and nothing else |
| ObjectForest.CopyIsNobodysChild | awx/api/generics.py:910-911 | a copy is listed by no existing row, so the recursion never meets it |
| ObjectForest.MergeTrees | awx/api/generics.py:940-943 | adding the copied subtree of one more child keeps the map one-to-one and every copy below its parent's |
| ObjectForest.AllFields | awx/api/generics.py:893-919 | the field loop collects exactly the links and values of the copy |
| CopyLinks.RelatedUnchanged | awx/main/tasks.py:2422-2439 | links added to copies never change what is read for the originals |
| CopyLinks.CopiesLinkedAlike | awx/main/tasks.py:2433-2438 | two copies are linked if and only if their originals are and one end preserves the relation |
| CopyLinks.OutsideLinkedAlike | awx/main/tasks.py:2433-2438 | a row not copied is linked to a copy if and only if it is to the original, for relations the original preserves |
| CopyLinks.OldLinksKept | awx/main/tasks.py:2433-2438 | links between rows that are not copies stay as they were |
| CopyLinks.RedirectedExactly | awx/main/tasks.py:2427-2432 | a preserved foreign key to a copied row names that row's copy if and only if it is the parent link or the first pass skipped the field |
| CopyLinks.KeyKeepsOriginal | awx/main/tasks.py:2427-2432 | a schema and rows for which the copy of one row keeps its key to another row that was copied too |
| Capacity.MembershipMaps | awx/main/managers.py:132-146 | both maps list exactly the memberships of instances with nonzero capacity |
| Capacity.GroupOverlaps | awx/main/managers.py:58-68 | each group is mapped to exactly the groups it shares an active instance with, and itself; no lookup fails |
| Capacity.SharesSymmetric | awx/main/managers.py:58-68 | sharing is symmetric |
| Capacity.ImpactedGroups | awx/main/managers.py:177-206 | the groups a task weighs on, by status and node |
| Capacity.HitsExactly | awx/main/managers.py:177-206 | from names, hosts and capacities alone: which groups a task weighs on |
| Capacity.ChargeGroups | awx/main/managers.py:188-193 | adds one task's impact to exactly those groups' consumed counters, and to the committed one if it waits or has no node, else to the running one |
| Capacity.CapacityValues | awx/main/managers.py:159-212 | every group of the graph, and every other that a task hits, ends with the sums of the impacts of the tasks that hit it: all, those that wait or have no node, those that run on one |
| Capacity.WeightByStatus | awx/main/managers.py:177-210 | by status and node alone: what a task weighs on the committed and on the running counter |
| Capacity.LoadOrderIrrelevant | awx/main/managers.py:177-211 | the order of the tasks does not matter |
| Capacity.ConsumedSplits | awx/main/managers.py:188-208 | consumed capacity is committed plus running |
| Capacity.AccountsUnique | awx/main/managers.py:159-212 | two accounts of the same tasks in any order are equal, and add up |
| SgrTruncation.SgrAppend | awx/api/serializers.py:3993-4003 | whatever follows the ellipsis, the sequences of the two parts are found separately |
| SgrTruncation.SgrLengthExactly | awx/main/constants.py:22 | a control sequence is ESC, a bracket, digits and semicolons, and an m |
| SgrTruncation.LeftmostFirst | awx/api/serializers.py:3996-4001 | sequences are found from the left, each search going on behind the last |
| SgrTruncation.ShownBalanced | awx/api/serializers.py:3993-4004 | exactly the limit is visible; the sequences are those of the cut and the resets; resets number max(sets, resets) |
| SgrTruncation.ClearExactlyWhen | awx/api/serializers.py:3996-4003 | nothing is in force at the end of the output, by the parameters of its sequences, if and only if the cut has more sets than exact resets or nothing is in force at its own end |
| SgrTruncation.OpenColourExample | awx/api/serializers.py:3996-4003 | a reset followed by ESC [ 31 m balances by count and leaves the colour on |
| SgrTruncation.OtherResets | awx/main/constants.py:22 | ESC [ m and ESC [ 1 ; 0 m clear everything too, though they are counted as sets |
| SgrTruncation.Tally | awx/api/serializers.py:3996-4001 | the loop over matches counts sets and exact resets |
| SgrTruncation.Represent | awx/api/serializers.py:3985-4004 | detail and playbook views are untouched, all others truncated and balanced |
| TextScan.RewriteAll | awx/main/redact.py:12-60 | the loop ends on every input, what is left beyond the index falling in every branch, with the text rewritten once |
| TextScan.TakeMatch | awx/main/redact.py:22-58 | every branch, the clamp included, keeps the place in the original text and moves on |
| TextScan.PiecesInOrder | awx/main/redact.py:12-60 | what is rewritten is in order and does not overlap: no character is rewritten twice |
| TextScan.PiecesGenuine | awx/main/redact.py:16-26 | only matches are rewritten, each by its own rule |
| TextScan.EveryMatchExamined | awx/main/redact.py:12-60 | the first match of every unbroken run of text is examined |
| TextScan.CleanTextUntouched | awx/main/redact.py:17-19 | a text in which nothing has to be rewritten is returned as it is |
| UriRedaction.FindUriLawful | awx/main/redact.py:9-16 | the pattern finds leftmost matches of three characters or more that end at white space |
| UriRedaction.UriLengthExactly | awx/main/redact.py:9 | a URI is a word, a colon and at least one more character, up to white space or the end |
| UriRedaction.ReplaceFirst | awx/main/redact.py:40-45 | replacement starts at the first occurrence and goes on behind it |
| UriRedaction.RemoveSensitive | awx/main/redact.py:12-60 | the result is the text with each rewritten URI in place and everything else copied |
| UriRedaction.EveryUriRedacted | awx/main/redact.py:12-60 | the first URI of every unbroken run in which the split finds a user name, a password or a colon in the network location, or fails, is rewritten: an invalid one by the marker, any other by searching for exactly the texts found |
| UriRedaction.OnlyUrisRedacted | awx/main/redact.py:12-60 | nothing but such URIs is rewritten |
| UriRedaction.AllRewritten | awx/main/redact.py:12-60 | every URI that must be redacted lies in a rewritten piece, in a text in which none of them is behind one that is left in the same unbroken run |
| UriRedaction.OneUriExactly | awx/main/redact.py:12-60 | in a text that is one URI that condition is exact |
| UriRedaction.NestedUriMissed | awx/main/redact.py:33-34 | a URI behind another colon stays as it is when the match that begins before it is left |
| UriRedaction.NestedUriExample | awx/main/redact.py:33-34 | the credentials in x:http://u:p@h stay |
| UriSecrets.ReplacePatches | awx/main/redact.py:40-45 | replacing changes exactly the picked occurrences and copies everything between them |
| UriSecrets.SecretsHiddenExactly | awx/main/redact.py:35-45 | the user name is hidden where the URI holds it if and only if it occurs nowhere before; the password if and only if its place is among the first two occurrences in what is left |
| UriSecrets.EverySecretAccounted | awx/main/redact.py:12-60 | in a whole text, the first URI of every unbroken run is left if the split finds nothing in it, replaced by the marker if it is invalid, and else replaced by a text in which the user name and password found, or the two sides of the colon, are hidden exactly as SecretsHiddenExactly says at every place where the URI holds them, those where its network location stands included |
| UriSecrets.PasswordStays | awx/main/redact.py:40-45 | the password of http://u:t@h stays at its place |
| ChannelGroups.PassAllExactly | awx/main/consumers.py:69-88 | the loop raises if and only if a name cannot be joined, or an id cannot be put together with its name, looked up or joined; else it joins exactly the whole names and the ids that can be, with access where the name is restricted |
| ChannelGroups.JoinedExactly | awx/main/consumers.py:69-88 | the groups joined, exception or not, are those of the whole names and allowed ids before the first that raises |
| ChannelGroups.GuardedExactly | awx/main/consumers.py:69-88 | a completed message joins restricted groups only with access if and only if no whole name or unrestricted id in it spells one its sender may not join |
| ChannelGroups.MismatchRefused | awx/main/consumers.py:54-66 | a message without a token, or with another than the session's, changes nothing |
| ChannelGroups.DisguisedGroup | awx/main/consumers.py:85-87 | "job_events-5" named as a whole is joined though access to job 5 is denied |
| ChannelGroups.SubscribedExactly | awx/main/consumers.py:65-89 | after a message with the session's token dealt with to its end a channel is in exactly the whole names and the granted ids it asks for, and its session remembers them |
| ChannelGroups.OthersUntouched | awx/main/consumers.py:43-89 | a message changes no other channel's groups or session |
| ChannelGroups.ConnectedExactly | awx/main/consumers.py:31-37 | an authenticated connection's token, unless empty, is kept for its channel and nothing else changes |
| ChannelGroups.ForgetsExactly | awx/main/consumers.py:65-89 | a session forgets a group if and only if the message raises after joining one |
| ChannelGroups.LeaksExactly | awx/main/consumers.py:65-89 | that is so if and only if some item raises and a whole name or an allowed id stands before the first that does |
| ChannelGroups.DisconnectExactly | awx/main/consumers.py:15-18 | a disconnected channel is in no group if and only if its session remembered them all |
| ChannelGroups.RunRemembers | awx/main/consumers.py:15-89 | over every run without such a message sessions remember all groups, so that disconnecting leaves none |
| ChannelGroups.LeakedForGood | awx/main/consumers.py:65-89 | a group joined by a message that raises survives the next message and the disconnect |
| ChannelGroups.UnencodableIdLeaks | awx/main/consumers.py:76 | an id beyond ASCII behind another one, under an unrestricted name, makes the session forget the first |
| ChannelGroups.Consumers.WsReceive | awx/main/consumers.py:48-89 | a message's effect on memberships and session, up to whatever raises first; with no token, an empty one, or another than the session's, none at all |
| LookupPath.GetFieldFromPath | awx/api/filters.py:81-135 | the loop computes the traversal, with its errors in their order |
| LookupPath.ResolvedExactly | awx/api/filters.py:92-128 | a part resolves to the field it names and to no other; a password, a field not to be searched and an unknown name are refused, each for its own reason |
| LookupPath.AcceptedExactly | awx/api/filters.py:92-135 | a path is accepted if and only if it walks over pairwise different fields, each named on the model the last one led to, none a password or, the primary key apart, closed to searches |
| LookupPath.AcceptedIsShort | awx/api/filters.py:129-133 | however cyclic the schema, an accepted path has no more parts than the schema has fields |
| LookupPath.CorrectedSameFields | awx/api/filters.py:98-121 | the corrected path visits the same fields, followed by the type's name where it ends in a type |
| LookupPath.CorrectedReadableExactly | awx/api/filters.py:105-109 | the corrected path can be read by the database layer if and only if a type is named only at the end |
| LookupPath.TypeInside | awx/api/filters.py:105-109 | type__id on a job is accepted and corrected to a path that cannot be read |

## Left out

- Bulk group deletes and the `is_removing` flag (`awx/main/signals.py:263`): all rows are then gone before any handler runs.
- The refresh of computed inventory fields after a group delete (`awx/main/signals.py:294-300`).
- The object-relational mapper, memcached and transactions beyond atomic steps on maps and relations; cache eviction before the time-out.
- Real cryptography: encryption is a function of id and value that decryption under the same id undoes.
- Field validation of settings: values are taken as already converted, so a stored value that fails validation on reading is not modelled.
- Marking settings read-only because a Python file defines them (`awx/conf/settings.py:301-314`), the old decryption fallback (`awx/conf/settings.py:323-328`), and per-user rows.
- Computed defaults are assumed not to depend on each other in a circle; row ids are assumed to be positive.
- Several processes: rows hold values that are neither null nor markers, and there is one per setting; encryption and row ids appear only in the one-process modules.
- Several processes: an operation is assumed to take no longer than the patience from its first read to its last fill.
- The imports of `netaddr` and `settings` that `awx/ipam/models.py` lacks, and the serializers that never call `clean`: the intended step, clean then save, is modelled.
- Free prefixes inside a container as a list of blocks (`awx/ipam/models.py:315-323`, `awx/ipam/models.py:342-349`): the model has the free addresses as a set.
- Rounding in utilization: the model uses exact integer division.
- The first, non-recursive call of the copy (`awx/api/generics.py:914-938`), with its new name, its many-to-many fields and the list of children: the model starts from that list.
- Decryption of copied field values, activity stream records and the permission check at the end of the copy task.
- The branch for many-to-many descriptors in a parent path (`awx/main/fields.py:148-150`): an instance's attribute is a manager, never a descriptor, so the branch is not taken and such a path breaks off at the manager; the model follows the code.
- Recognising an implicit parent (`awx/main/fields.py:158-186`): it walks the same paths for a single role.
- RoleStore.RoleTable.EndBatch: for a batch that puts off additions as well as removals it gives a sufficient and a necessary condition that do not meet, because whether a stale row reaches a new child before it is deleted depends on how many links apart the changes are.
- RoleAncestors.AncestorTable.Rebuild: says when it surely does not raise, not exactly when it does.
- Clearing all parents of a role at once, and the columns of the ancestor table that repeat the role's content type.
- URL splitting is a function parameter, an invalid URL included; where it matters, the user name and password it yields are assumed to stand at the front of a network location that stands in the URL.
- SGR parameters that undo one aspect only, and the extended colours whose arguments are parameters of their own: every parameter but zero counts as setting something.
- SettingsWrapper.Wrapper.Create: leaves out storing, in an encrypted setting, a text that already looks encrypted, because such a row cannot be read back.
- Values other than texts in an encrypted setting: the model stores them as they are, while encryption raises on those that are not blank. The settings that AWX registers as encrypted are text fields.
- SettingsWrapper.Wrapper.SetLocalValue: leaves out storing, in an encrypted setting, a text that already looks encrypted, because such a row cannot be read back.
- The rest of the filter backend: lookups, value conversion and query objects built from the path.
- Reading and writing sessions: a session is what the handler leaves, an exception included.
- The permission tables behind websocket groups, which names and ids Python 2 can put together, and which group names the channel layer takes: parameters.
- UriRedaction.AllRewritten: gives a condition that is exact only in a text that is one URI; where other text precedes a URI that is left, the search resumes inside that URI, and which ones it then finds is told by the scan alone (`TextScan.Pieces`).
