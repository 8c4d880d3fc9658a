# Models and proofs for the plugin installer and the Kuadrant backend

This project models five parts of the repository in Dafny and proves what they guarantee:

- the dynamic-plugin installer (`docker/install-dynamic-plugins.py`): the keys of packages, the
  two-level fold of plugin lists, the conflict-detecting merge of configurations, the reconciliation
  of wanted plugins with the plugins root, and the lock file between concurrent installers;
- the transitive group search (`packages/backend/src/transitiveGroupOwnershipResolver.ts`);
- the menu tree builder (`packages/app/src/utils/dynamicUI/extractDynamicConfigFrontend.ts`);
- the Kuadrant product and approval handlers (`plugins/kuadrant-backend/src/router.ts`);
- the catalog sync (`plugins/kuadrant-backend/src/providers/APIProductEntityProvider.ts`).

`dafny verify dfyconfig.toml` checks the whole project.

## Files

| file | content |
|---|---|
| `Wrappers.dfy`, `Sequences.dfy` | shared datatypes and facts about sequences |
| `ConfigTree.dfy` | configuration trees; when a merge fails and what it yields |
| `ConfigOrder.dfy` | when the order of merges matters: folds over any trees, empty dictionaries included |
| `ConfigHeap.dfy` | the in-place merge over mutable dictionaries, proved against `ConfigTree` |
| `PackageKeys.dfy` | the package patterns as functions on strings; keys |
| `OciForms.dfy` | which packages are accepted as OCI packages, and what is read off them |
| `OciPackages.dfy` | how later string splitting agrees with the OCI pattern |
| `NpmKeys.dfy` | what the keys of all other packages keep and drop |
| `PluginFold.dfy` | the fold of included and main plugin lists, and the mergers that do it in place |
| `Reconcile.dfy` | one run of the installer over disk and `plugin_path_by_hash` |
| `PullPolicies.dfy` | what a run does with a plugin, by its own settings |
| `InstallRuns.dfy` | a whole run: the generated configuration, when a run completes |
| `RepeatedRuns.dfy` | run after run: what the next one skips, fixpoint, convergence, alternation |
| `WantedPlugins.dfy` | from the entries of the configuration files to the disk |
| `InstallerProgram.dfy` | the installer's loops over mutable state, proved against `Reconcile` |
| `LockProtocol.dfy` | the lock file as a state machine over any number of processes |
| `GroupOwnership.dfy` | the depth-first search with its shared visited set |
| `MenuTree.dfy`, `MenuForest.dfy` | the linked menu objects, stable sorting, and the forest theorem |
| `MenuInput.dfy` | the menu described by the list of items that goes in |
| `MergePatch.dfy` | JSON, request schemas and merge patches (section 2 of RFC 7396) |
| `ProductHandlers.dfy` | create, patch and delete of products over whole runs |
| `ProductChanges.dfy` | when those requests succeed and what they then change, place by place |
| `ApprovalHandlers.dfy` | single and bulk reviews of key requests |
| `CatalogSync.dfy` | interleaved catalog refreshes, entity references |
| `ConsumerNamespace.dfy` | the namespace derived from a user |

Where the source changes something step by step, a method does so here and is proved equal to a
function; the lemmas are about that function. Python exceptions and HTTP error answers are values.
Whatever is decided outside (permission decisions, registry contents, failures of the API server)
is a parameter, so every statement is for all of its values. The iteration order of dictionaries is
left open in the merge, the scan and the sweep: the loops pick any remaining key.

## What the code does not guarantee

These statements look natural and are false of the code. For each there is a lemma with a concrete
input, and the exact condition under which the statement holds.

- The order in which plugin configurations are merged does not matter: it can, once one of them holds
  an empty dictionary (`ConfigOrder.EmptyDictOrderMatters`, `ConfigOrder.EveryOrderWorksExactly`).
  Two orders that both work always give the same tree (`ConfigOrder.FoldDetermined`).
- A run keeps what it installs: it can delete a plugin it has just installed, because the NPM installer
  does not drop what is tracked at the directory it replaces, as the OCI installer does
  (`RepeatedRuns.ForcedPluginLost`, `Reconcile.AllInPlaceExactly`). A second run skips everything and
  changes nothing only if the first lost nothing (`RepeatedRuns.SecondRun`); without plugins that
  force their download, two runs always suffice (`RepeatedRuns.Converges`); a plugin that forces
  it is on disk after every other run only (`RepeatedRuns.ForcedNpmAlternates`,
  `RepeatedRuns.ComesToRestExactly`).
- The lock excludes: it does not when an installer that still waits is terminated, since its exit hook
  removes the file of the one that works (`LockProtocol.ThreeProcesses`, `LockProtocol.StepSafeExactly`).
- What the merge accepts can be installed: the installer splits an OCI package at every `!`
  (`OciPackages.BangInPath`, `OciPackages.InstallPathExactly`).
- Bulk reviews and the single endpoints agree: not for callers with update-all
  (`ApprovalHandlers.BulkDiffers`, `ApprovalHandlers.BulkApproveAgreesExactly`,
  `ApprovalHandlers.BulkRejectAgreesExactly`).
- A product is never both retired and published: it is after a patch that says nothing about the lifecycle
  (`ProductHandlers.RetiredThenPublished`, `ProductHandlers.RetiredAndPublishedExactly`).
- After all refreshes the catalog is up to date: an older refresh can put an outdated catalog back
  (`CatalogSync.OlderRefreshWins`, `CatalogSync.UpToDateExactly`).
- Entities of the catalog have their own references: products of one name in two namespaces share one
  (`CatalogSync.SharedReference`, `CatalogSync.RefsApartExactly`).

## Model

| member | source | states |
|---|---|---|
| ConfigTree.MergeableAt | docker/install-dynamic-plugins.py:104-117 | a merge that raises nothing passes the local check at every path that both trees have |
| ConfigTree.MergeableFromPaths | docker/install-dynamic-plugins.py:104-117 | conversely, if the local check passes at every path, the merge raises nothing |
| ConfigTree.MergedAt | docker/install-dynamic-plugins.py:104-117 | where a merged tree gets each of its nodes from: from the one tree that has the path, or from merging both nodes |
| ConfigTree.MergedLeaves | docker/install-dynamic-plugins.py:104-117 | the leaves of a merged tree are exactly the leaves of the two trees, empty dictionaries or not |
| ConfigTree.MergeTwice | docker/install-dynamic-plugins.py:104-117 | merging the same configuration again raises nothing and changes nothing |
| ConfigTree.MergeableIffNoConflict | docker/install-dynamic-plugins.py:104-117 | without empty dictionaries, a merge raises nothing exactly when no leaf path equals another's with a different value or is a proper prefix of another's |
| ConfigTree.FoldCharacterized | docker/install-dynamic-plugins.py:907-913 | folding any number of configurations succeeds exactly when no two of them conflict, and the result's leaves are exactly the union of all leaves |
| ConfigTree.LeavesDetermine | docker/install-dynamic-plugins.py:104-117 | trees without empty dictionaries that have the same leaves are equal |
| ConfigTree.FoldOrderIrrelevant | docker/install-dynamic-plugins.py:907-913 | for two lists with the same members, in any order, both folds fail or both give the same tree |
| ConfigOrder.MergeableExactly | docker/install-dynamic-plugins.py:104-115 | for all trees: a merge raises nothing exactly when there is no hard clash and no leaf is put onto an empty dictionary |
| ConfigOrder.TwoOrdersAgree | docker/install-dynamic-plugins.py:106-115 | for all pairs of configurations, empty dictionaries included, exactly when the two orders have the same outcome |
| ConfigOrder.FoldSucceedsExactly | docker/install-dynamic-plugins.py:104-117 | folding any trees onto any starting tree raises nothing exactly when no two clash in both directions and nowhere an empty dictionary comes first and a leaf later |
| ConfigOrder.FoldDetermined | docker/install-dynamic-plugins.py:907-913 | for all trees: two orders that both succeed give the same tree |
| ConfigOrder.EveryOrderWorksExactly | docker/install-dynamic-plugins.py:907-913 | exactly when every order of the configurations succeeds: no hard clash, and no place where a leaf can follow an empty dictionary |
| ConfigOrder.EmptyDictOrderMatters | docker/install-dynamic-plugins.py:106-115 | two concrete configurations that merge in one order and fail in the other |
| ConfigHeap.DictNode.SetDefault | docker/install-dynamic-plugins.py:108 | setdefault on a dictionary of the heap: an existing node is kept, a missing one becomes a fresh empty dictionary |
| ConfigHeap.Merge | docker/install-dynamic-plugins.py:104-117 | the recursive in-place merge, keys visited in any order: it succeeds exactly when the trees are mergeable, leaves the merged tree, never changes its source and shares no dictionary with it |
| ConfigHeap.MergeConfigs | docker/install-dynamic-plugins.py:119-124 | after any number of merges every plugin's configuration is unchanged and shares no dictionary with the global configuration, which is the fold of the trees |
| PackageKeys.ParseOci | docker/install-dynamic-plugins.py:326-366 | what the OCI pattern captures is valid, and the package is the rendering of it, up to a final newline |
| PackageKeys.ParseRender | docker/install-dynamic-plugins.py:326-366 | parsing inverts rendering for every valid reference |
| PackageKeys.OciKeyIdentifies | docker/install-dynamic-plugins.py:354-366 | two OCI packages share a key exactly when registry and path are equal |
| PackageKeys.KeyIgnoresVersion | docker/install-dynamic-plugins.py:354-368 | replacing the tag or digest by any other keeps the key |
| PackageKeys.InheritText | docker/install-dynamic-plugins.py:364-365 | only the tag `{{inherit}}` has that text, never a digest |
| OciForms.AcceptedExactly | docker/install-dynamic-plugins.py:326-334 | an OCI package is accepted exactly if it has the form host, tag or digest, path, each without the characters the pattern excludes, with or without a final newline |
| OciForms.ReadOff | docker/install-dynamic-plugins.py:350-368 | the key is host and path, the version the tag or digest, and it is inherited exactly if the tag is `{{inherit}}` |
| PackageKeys.StripVersion | docker/install-dynamic-plugins.py:289-298 | the key without version is a prefix of the package; `NpmKeys` says which |
| PackageKeys.StripTwice | docker/install-dynamic-plugins.py:274-276 | what the alias branch strips again is stripped already |
| PackageKeys.NpmKey | docker/install-dynamic-plugins.py:246-287 | the key of every NPM, alias, git, local or tarball package is a prefix of the package; `NpmKeys` says which |
| PackageKeys.KindsNeverCollide | docker/install-dynamic-plugins.py:126-135 | an OCI plugin and any other plugin never have the same key |
| NpmKeys.RegisteredKey | docker/install-dynamic-plugins.py:289-298 | a package `[@scope/]name[@version]` is filed under scope and name, whatever its version |
| NpmKeys.RegisteredKeysIdentify | docker/install-dynamic-plugins.py:289-298 | two such packages share a key exactly if scope and name agree |
| NpmKeys.VersionsMeet | docker/install-dynamic-plugins.py:289-298 | two concrete versions of one scoped package share a key |
| NpmKeys.StandardKeyIs | docker/install-dynamic-plugins.py:286-295 | the key of a package of the NPM form that is neither local, tarball, alias nor git address drops exactly the version |
| NpmKeys.AliasKeyIs | docker/install-dynamic-plugins.py:267-276 | the key of an alias drops exactly the version of its target |
| NpmKeys.GitKeyIs | docker/install-dynamic-plugins.py:278-285 | the key of a git address is the part in front of its first `#` |
| NpmKeys.WholeKey | docker/install-dynamic-plugins.py:259-265 | local packages and tarballs are their own keys |
| NpmKeys.OtherKey | docker/install-dynamic-plugins.py:297-298 | a package of none of the forms is its own key |
| NpmKeys.AliasIs | docker/install-dynamic-plugins.py:191 | the alias pattern matches exactly the packages of the form `alias@npm:[@scope/]name[@version]` |
| NpmKeys.GitIs | docker/install-dynamic-plugins.py:196-241 | the git patterns match exactly the addresses of the seven forms, with or without a reference |
| OciPackages.DefaultPolicyExactly | docker/install-dynamic-plugins.py:507-511 | a package without a pull policy is always checked for updates exactly if its tag or hash reads `latest` or its path has `:latest!` in it |
| OciPackages.DefaultPolicyOfInstallable | docker/install-dynamic-plugins.py:507 | of the packages that can be unpacked, exactly those whose tag or hash reads `latest` are checked for updates by default |
| OciPackages.InstallPathExactly | docker/install-dynamic-plugins.py:480-484 | the installer unpacks the path that the key records exactly if neither host nor path contains a `!` and no newline ends the package |
| OciPackages.BangInPath | docker/install-dynamic-plugins.py:480-484 | a concrete package that the merge accepts and the installer cannot split |
| PluginFold.MainOverInclude | docker/install-dynamic-plugins.py:147-174 | field by field, main wins over include, except that an inheriting entry leaves package and version alone; what a new entry stores |
| PluginFold.MergeKeepsConsistent | docker/install-dynamic-plugins.py:154-174 | every merge keeps that each stored package re-parses to its key and that a stored OCI version is the one in the package |
| PluginFold.FoldConsistent | docker/install-dynamic-plugins.py:538-539 | after every successful fold each OCI plugin has a version that is not `{{inherit}}`, so the missing-version error cannot occur |
| PluginFold.FoldExactly | docker/install-dynamic-plugins.py:846-878 | the fold succeeds exactly when packages parse, keys are distinct per level, no include inherits and each inheriting main entry has an include with its key; the table then holds main over include |
| PluginFold.OrderWithinLevels | docker/install-dynamic-plugins.py:846-878 | reordering the entries of a level changes neither success nor the resulting map |
| PluginFold.PackagesDiffer | docker/install-dynamic-plugins.py:881-894 | two plugins of one table have different packages |
| PluginFold.AllPlugins.CopyFields | docker/install-dynamic-plugins.py:150-153 | the override loop writes exactly the fields that are not skipped |
| PluginFold.AllPlugins.MergeOci | docker/install-dynamic-plugins.py:369-420 | the in-place OCI merger equals its functional step and leaves the table alone when it raises |
| PluginFold.AllPlugins.MergeNpm | docker/install-dynamic-plugins.py:147-174 | the in-place merger of all other packages equals its functional step and leaves the table alone when it raises |
| PluginFold.AllPlugins.MergeFiles | docker/install-dynamic-plugins.py:846-878 | the loops over included files and main list compute the two-level fold, stopping at the first exception |
| Reconcile.SkipDecisionStable | docker/install-dynamic-plugins.py:307-319 | earlier turns of a run never change whether a later plugin is skipped |
| Reconcile.LoopInvariants | docker/install-dynamic-plugins.py:656-688 | after any number of turns: which directories have changed and how, and exactly which recorded hashes are still to be swept |
| Reconcile.ReconcileExact | docker/install-dynamic-plugins.py:896-921 | a completed run leaves each enabled plugin's directory with its hash, except victims (NPM plugins unpacked into a directory still on record), and otherwise exactly the directories without a hash, untouched |
| Reconcile.AllInPlaceExactly | docker/install-dynamic-plugins.py:565-593 | all enabled plugins are in place after a completed run if and only if their directories differ and no NPM plugin was unpacked into a directory on record |
| InstallRuns.LoopConfig | docker/install-dynamic-plugins.py:907-913 | the generated configuration is the fold of the enabled plugins' configurations, whatever was skipped or installed |
| InstallRuns.ConfigIndependentOfDisk | docker/install-dynamic-plugins.py:907-915 | two completed runs from any two disks generate the same configuration, even if they merge the plugins' configurations in different orders |
| InstallRuns.GlobalConfigSolid | docker/install-dynamic-plugins.py:814-818 | the configuration every run starts from has no empty dictionary |
| InstallRuns.LoopCompletes | docker/install-dynamic-plugins.py:907-913 | a run completes if each enabled plugin can be skipped or fetched and the configurations merge |
| InstallRuns.RootDirectoryKept | docker/install-dynamic-plugins.py:814-818 | whatever the plugins bring along, the generated configuration keeps the root directory |
| PullPolicies.TargetIs | docker/install-dynamic-plugins.py:480-493 | the directory an installation unpacks into: the part after the only `!`, or what the archive yields |
| PullPolicies.KeptIfPresent | docker/install-dynamic-plugins.py:307-319 | a plugin on record that needs no check and no forced download keeps its directory untouched |
| PullPolicies.CurrentIfChecked | docker/install-dynamic-plugins.py:513-533 | an OCI plugin with policy Always, or `latest` and no policy, ends up with the digest of its image in the registry, untouched if it had it |
| PullPolicies.UnpackedOtherwise | docker/install-dynamic-plugins.py:316-317 | any other plugin, and any plugin not on record, is unpacked, and nothing is on record for it elsewhere |
| PullPolicies.RecordedAreEnabled | docker/install-dynamic-plugins.py:896-921 | after a completed run every hash on record is that of the enabled plugin in that directory |
| Reconcile.RecordsStayDistinct | docker/install-dynamic-plugins.py:896-921 | a completed run leaves distinct records, the condition under which the next one is described |
| RepeatedRuns.NextDecision | docker/install-dynamic-plugins.py:307-319 | the next run looks for each plugin at the same directory, and skips it exactly if it settles and the run before did not lose it |
| RepeatedRuns.RunAgain | docker/install-dynamic-plugins.py:896-921 | after a completed run the next one completes and generates the same configuration |
| RepeatedRuns.LostNext | docker/install-dynamic-plugins.py:917-921 | the next run loses exactly the forced NPM plugins that the run before did not lose |
| RepeatedRuns.SecondRun | docker/install-dynamic-plugins.py:896-921 | the second run completes; it skips all enabled plugins if and only if all settle and the first lost none, and leaves the disk alone if and only if no enabled NPM plugin forces its download and the first lost none |
| RepeatedRuns.AfterRuns | docker/install-dynamic-plugins.py:896-921 | any number of further runs complete and generate the same configuration |
| RepeatedRuns.Converges | docker/install-dynamic-plugins.py:896-921 | without forced NPM plugins the disk is the same after every number of runs from two on, with every enabled plugin in place |
| RepeatedRuns.ForcedNpmAlternates | docker/install-dynamic-plugins.py:316-317 | over any number of runs, a forced NPM plugin is on disk after every other one, the first included exactly if its directory was not on record |
| RepeatedRuns.ComesToRestExactly | docker/install-dynamic-plugins.py:896-921 | some run leaves the disk as it found it if and only if no enabled NPM plugin forces its download |
| RepeatedRuns.ForcedPluginLost | docker/install-dynamic-plugins.py:917-921 | a concrete run that deletes the plugin it has just installed |
| WantedPlugins.TableHashesDistinct | docker/install-dynamic-plugins.py:880-894 | plugins of one table get distinct hashes, given an injective digest |
| WantedPlugins.SameHashExactly | docker/install-dynamic-plugins.py:881-894 | two entries get one hash exactly if they agree in all fields but configuration and version and, if local, their packages look the same on disk |
| WantedPlugins.EntryObeyed | docker/install-dynamic-plugins.py:656-688 | for an entry of the folded table, from its own fields: disabled entries are not on record after a run, and pull policy and forced download are obeyed |
| WantedPlugins.GeneratedLeaves | docker/install-dynamic-plugins.py:907-915 | the leaves of the generated configuration are exactly those it starts with and those that enabled entries bring |
| WantedPlugins.FoldedPluginsReconciled | docker/install-dynamic-plugins.py:846-921 | for the plugins that the configuration files fold to: a completed run leaves all in place exactly if directories differ and no NPM plugin was unpacked into one on record; if directories differ, the outcome is as described and the next run completes |
| WantedPlugins.EntryOrderIrrelevant | docker/install-dynamic-plugins.py:846-915 | reordering the entries within a level does not change the generated configuration, from any disks |
| InstallerProgram.Installer.Scan | docker/install-dynamic-plugins.py:896-905 | the scan tracks every recorded hash at a directory that records it; with distinct records, exactly that directory |
| InstallerProgram.Installer.PopPath | docker/install-dynamic-plugins.py:549-551 | exactly the hashes tracked at the directory are dropped |
| InstallerProgram.Installer.InstallPlugin | docker/install-dynamic-plugins.py:656-688 | the in-place installation of one plugin equals its functional step |
| InstallerProgram.Installer.Sweep | docker/install-dynamic-plugins.py:917-921 | exactly the tracked directories are removed |
| InstallerProgram.Installer.Run | docker/install-dynamic-plugins.py:896-921 | the whole run, started from the scan of the disk, equals loop and sweep of the model; one that raises never reaches the sweep; records stay distinct |
| LockProtocol.StepSafeExactly | docker/install-dynamic-plugins.py:769-799 | one step keeps exclusion and the meaning of the file if and only if it is neither a premature exit nor the killing of the holder |
| LockProtocol.LockSafe | docker/install-dynamic-plugins.py:769-799 | for any number of processes and any interleaving without such steps, at most one works and the file exists exactly while one does |
| LockProtocol.ExclusionSurvivesKills | docker/install-dynamic-plugins.py:797-799 | killed processes never cost the exclusion |
| LockProtocol.StaleLockBlocks | docker/install-dynamic-plugins.py:784-790 | once a killed holder has left its file, no process gets the lock any more |
| LockProtocol.KilledHolderBlocks | docker/install-dynamic-plugins.py:797-799 | killing the holder leaves such a file, so nobody gets the lock until a waiting process exits |
| LockProtocol.LockPassesOn | docker/install-dynamic-plugins.py:769-790 | once the holder exits, a waiting process can get the lock |
| LockProtocol.LockedOut | docker/install-dynamic-plugins.py:769-790 | while the file exists, a process that tries for the lock waits |
| LockProtocol.PrematureExitBreaksExclusion | docker/install-dynamic-plugins.py:797-799 | whenever the lock is held, the exit of a waiting process lets the next process that starts work at the same time as the holder |
| LockProtocol.ThreeProcesses | docker/install-dynamic-plugins.py:797-799 | a concrete interleaving from the start with two processes at work |
| GroupOwnership.ClosedContainsPath | packages/backend/src/transitiveGroupOwnershipResolver.ts:69-75 | a set closed under parents contains everything reachable from its members |
| GroupOwnership.Parents | packages/backend/src/transitiveGroupOwnershipResolver.ts:58-67 | exactly the targets of child-of relations of an entity whose kind reads "group" in any letter case |
| GroupOwnership.TransitiveGroupOwnershipResolver.ResolveParentGroups | packages/backend/src/transitiveGroupOwnershipResolver.ts:31-79 | every nested call returns, without repeats, exactly what it newly marks, looks each up once, marks only reachable groups and all their parents, and terminates on cyclic graphs |
| GroupOwnership.TransitiveGroupOwnershipResolver.ResolveAll | packages/backend/src/transitiveGroupOwnershipResolver.ts:31-79 | the top-level call returns exactly the reachable references, each once and looked up once |
| GroupOwnership.TransitiveGroupOwnershipResolver.ResolveOwnershipEntityRefs | packages/backend/src/transitiveGroupOwnershipResolver.ts:89-111 | the entity first, then exactly its direct groups or, if configured, all groups above them, without repeats |
| GroupOwnership.Memberships | packages/backend/src/transitiveGroupOwnershipResolver.ts:92-98 | exactly the targets of member-of relations that are groups |
| MenuTree.StableSortIs | packages/app/src/utils/dynamicUI/extractDynamicConfigFrontend.ts:24-26 | the sort gives descending priorities and keeps the order within each priority |
| MenuTree.StableSortUnique | packages/app/src/utils/dynamicUI/extractDynamicConfigFrontend.ts:24-26 | a list has only one stable sort |
| MenuTree.PushAndSort | packages/app/src/utils/dynamicUI/extractDynamicConfigFrontend.ts:67-68 | sorting after every push equals sorting once at the end |
| MenuTree.MergedItemsAre | packages/app/src/utils/dynamicUI/extractDynamicConfigFrontend.ts:44-54 | merging by name gives each name one item, spread from exactly the items of that name in order |
| MenuInput.MergedAreLatest | packages/app/src/utils/dynamicUI/extractDynamicConfigFrontend.ts:44-54 | there is one merged item for each name, and each of its properties is as the last item of the name that has the property gives it, a present `undefined` included |
| MenuTree.CollectItems | packages/app/src/utils/dynamicUI/extractDynamicConfigFrontend.ts:42-54 | the first loop creates fresh objects for exactly the merged items |
| MenuTree.LinkItems | packages/app/src/utils/dynamicUI/extractDynamicConfigFrontend.ts:56-75 | after the second loop each children list is the stable sort of the visible items that name that parent, and the roots that of the parentless ones |
| MenuTree.BuildTree | packages/app/src/utils/dynamicUI/extractDynamicConfigFrontend.ts:41-76 | both loops together, for every list of items |
| MenuForest.OnePath | packages/app/src/utils/dynamicUI/extractDynamicConfigFrontend.ts:62-75 | no item is reached along two different paths |
| MenuForest.PathBounded | packages/app/src/utils/dynamicUI/extractDynamicConfigFrontend.ts:62-75 | no path below the roots is longer than the list of items |
| MenuForest.Forest | packages/app/src/utils/dynamicUI/extractDynamicConfigFrontend.ts:41-76 | an item occurs below the roots, at exactly one place, if and only if it and all its ancestors exist and are visible and their chain ends at a parentless item |
| MenuForest.SiblingsSorted | packages/app/src/utils/dynamicUI/extractDynamicConfigFrontend.ts:68-75 | siblings are in descending priority, equal priorities in the order of the items |
| MenuInput.InMenuExactly | packages/app/src/utils/dynamicUI/extractDynamicConfigFrontend.ts:41-76 | from the list of items: a name is in the menu exactly if a chain of parents leads from it, through names with a title and not disabled, to one without parent |
| MenuInput.SiblingsExactly | packages/app/src/utils/dynamicUI/extractDynamicConfigFrontend.ts:62-75 | from the list of items: children and roots are exactly the shown items that belong there, by descending priority and then by first occurrence |
| MergePatch.ParsedFits | plugins/kuadrant-backend/src/router.ts:515-547 | a parsed body has no members but those of the schema |
| MergePatch.ParseAcceptsExactly | plugins/kuadrant-backend/src/router.ts:515-547 | a body is accepted exactly if it has the right shape at every place that the schema names |
| MergePatch.ParseKeeps | plugins/kuadrant-backend/src/router.ts:515-547 | a parsed body has at those places just what the body had |
| MergePatch.PatchLeavesUncovered | plugins/kuadrant-backend/src/router.ts:606-613 | a patch that fits a schema changes nothing at a place the schema does not cover, for every target |
| MergePatch.PatchSets | plugins/kuadrant-backend/src/router.ts:606-613 | a plain value in the patch is what its place holds afterwards |
| MergePatch.PatchRemoves | plugins/kuadrant-backend/src/k8s-client.ts:299-325 | a null in a merge patch removes the place |
| MergePatch.PatchTwice | plugins/kuadrant-backend/src/k8s-client.ts:299-325 | applying a merge patch twice is applying it once |
| ProductHandlers.NewProductOwned | plugins/kuadrant-backend/src/router.ts:319-328 | a created product carries its creator's identity, whatever annotations the body had |
| ProductHandlers.PatchKeepsOwner | plugins/kuadrant-backend/src/router.ts:515-613 | no patch by anyone changes the owner of any product |
| ProductHandlers.OwnerIsCreator | plugins/kuadrant-backend/src/router.ts:298-440 | over every run of create, patch and delete requests each product's owner is the identity that created it |
| ProductHandlers.OnlyOwnAltered | plugins/kuadrant-backend/src/router.ts:366-390 | without an all-permission a caller alters or deletes only products with the caller's identity |
| ProductHandlers.OnlyCreatorAlters | plugins/kuadrant-backend/src/router.ts:366-390 | over every run, whoever alters a product without the all-permission created it |
| ProductChanges.CreateSucceedsExactly | plugins/kuadrant-backend/src/router.ts:298-337 | exactly when a product is created |
| ProductChanges.CreateDoes | plugins/kuadrant-backend/src/router.ts:319-337 | it is filed under its name in its target's namespace, owned by the caller, with everything else as in the body, and nothing else changes |
| ProductChanges.PlacesExactly | plugins/kuadrant-backend/src/router.ts:517-540 | all the places that a patch can set, and the values it can put there |
| ProductChanges.PatchSucceedsExactly | plugins/kuadrant-backend/src/router.ts:542-613 | exactly when a patch succeeds; otherwise it changes nothing |
| ProductChanges.PatchDoes | plugins/kuadrant-backend/src/router.ts:590-613 | a successful patch puts each plain value of the parsed body in its place and leaves what the body misses, except that a published product that is retired becomes a draft; nothing else changes |
| ProductChanges.DeleteSucceedsExactly | plugins/kuadrant-backend/src/router.ts:360-440 | exactly when a product is deleted; otherwise all products stay |
| ProductHandlers.RetiredAndPublishedExactly | plugins/kuadrant-backend/src/router.ts:590-604 | exactly when a successful patch leaves a product both retired and published |
| ProductHandlers.RetiredThenPublished | plugins/kuadrant-backend/src/router.ts:590-604 | a concrete creation and patch that end with a product both retired and published |
| ProductHandlers.ProductRouter.PostProduct | plugins/kuadrant-backend/src/router.ts:298-358 | the create handler equals its functional step |
| ProductHandlers.ProductRouter.PatchProduct | plugins/kuadrant-backend/src/router.ts:515-634 | the patch handler equals its functional step |
| ProductHandlers.ProductRouter.DeleteProduct | plugins/kuadrant-backend/src/router.ts:360-457 | the delete handler equals its functional step, removes only that product, leaves all keys that do not refer to it in its namespace, and none that do if nothing fails |
| ApprovalHandlers.BulkApproveAgreesExactly | plugins/kuadrant-backend/src/router.ts:1230-1296 | exactly when approving an entry in bulk and through the single endpoint agree |
| ApprovalHandlers.BulkRejectAgreesExactly | plugins/kuadrant-backend/src/router.ts:1353-1410 | exactly when rejecting an entry in bulk and through the single endpoint agree |
| ApprovalHandlers.BulkDiffers | plugins/kuadrant-backend/src/router.ts:1230-1296 | concrete requests on which bulk and single reviews differ, in both directions |
| ApprovalHandlers.BulkIsSingles | plugins/kuadrant-backend/src/router.ts:1196-1308 | for a caller without update-all, a bulk request over any list creates the approvals that the single endpoint creates entry by entry, in list order |
| ApprovalHandlers.SuccessesAreApprovals | plugins/kuadrant-backend/src/router.ts:1226-1308 | one result per entry, and as many successes as approvals created |
| ApprovalHandlers.SingleSucceedsExactly | plugins/kuadrant-backend/src/router.ts:122-171 | exactly when the single endpoint creates an approval, in terms of request, permissions and owner annotation, and which approval that is |
| ApprovalHandlers.BulkApprovalsOwned | plugins/kuadrant-backend/src/router.ts:1230-1296 | every approval a bulk request creates is the caller's, for one of its entries; without update-all the product carries the caller's identity |
| ApprovalHandlers.ApprovedByCreator | plugins/kuadrant-backend/src/router.ts:122-171 | over every run of the product handlers, without update-all an approval is created only by whoever created the product |
| ApprovalHandlers.ReviewRouter.PostReview | plugins/kuadrant-backend/src/router.ts:1042-1113 | the single endpoint equals its functional step |
| ApprovalHandlers.ReviewRouter.ApproveEntry | plugins/kuadrant-backend/src/router.ts:1230-1305 | one turn of the bulk approval loop |
| ApprovalHandlers.ReviewRouter.RejectEntry | plugins/kuadrant-backend/src/router.ts:1353-1419 | one turn of the bulk rejection loop |
| ApprovalHandlers.ReviewRouter.BulkReview | plugins/kuadrant-backend/src/router.ts:1196-1431 | the bulk loops give the results and approvals of all entries, or are forbidden and do nothing |
| CatalogSync.ViewShowsExactly | plugins/kuadrant-backend/src/providers/APIProductEntityProvider.ts:106-179 | exactly the published products with an owner are shown, each with name, owner, and title, description and lifecycle as given or by default |
| CatalogSync.NothingUnconnected | plugins/kuadrant-backend/src/providers/APIProductEntityProvider.ts:90-93 | without a connection nothing is listed or submitted |
| CatalogSync.FailureIsolated | plugins/kuadrant-backend/src/providers/APIProductEntityProvider.ts:131-133 | a refresh that fails leaves catalog, cluster and all other refreshes alone |
| CatalogSync.CatalogIsPastView | plugins/kuadrant-backend/src/providers/APIProductEntityProvider.ts:88-134 | however refreshes and handlers interleave, the catalog is the view of the state in which the list submitted last was made, or empty if none was; and each entity is owned by whoever had created its product |
| CatalogSync.SubmittedIs | plugins/kuadrant-backend/src/providers/APIProductEntityProvider.ts:94-128 | which listing that is: the latest one of the refresh that was the last to submit |
| CatalogSync.UpToDateExactly | plugins/kuadrant-backend/src/providers/APIProductEntityProvider.ts:88-134 | after any run the catalog is up to date exactly if the state in which the last submitted list was made has the view of the current one |
| CatalogSync.ViewChangesExactly | plugins/kuadrant-backend/src/providers/APIProductEntityProvider.ts:103-118 | a request changes the view exactly if it succeeds and creates a published product for a named caller, deletes a shown product or alters what is shown of one |
| CatalogSync.SettledStepExactly | plugins/kuadrant-backend/src/providers/APIProductEntityProvider.ts:88-134 | an up-to-date catalog with nothing stale under way stays so exactly through steps that serve no such request |
| CatalogSync.RefreshSettles | plugins/kuadrant-backend/src/router.ts:339-342 | a refresh that lists while nothing stale is under way makes the catalog the view of the current state, from its submission on and until a request changes the view, whatever other refreshes do |
| CatalogSync.OlderRefreshWins | plugins/kuadrant-backend/src/providers/APIProductEntityProvider.ts:88-134 | a concrete run in which an older refresh submits last and replaces an up-to-date catalog by an outdated one |
| CatalogSync.RefsApartExactly | plugins/kuadrant-backend/src/providers/APIProductEntityProvider.ts:173-179 | after any run two products share a reference in the catalog exactly if two exposed products of one name were in the list submitted last |
| CatalogSync.RefsStayApart | plugins/kuadrant-backend/src/providers/APIProductEntityProvider.ts:173-179 | as long as no requests create products of one name in two namespaces, references stay apart over every run |
| CatalogSync.SharedReference | plugins/kuadrant-backend/src/providers/APIProductEntityProvider.ts:173-179 | a concrete run that ends with two products under one reference |
| ConsumerNamespace.ExtractNameFromEntityRef | plugins/kuadrant-backend/src/router.ts:43-46 | the longest end of the reference without a slash |
| ConsumerNamespace.Sanitize | plugins/kuadrant-backend/src/router.ts:53 | each UTF-16 unit outside the alphabet becomes a hyphen, all others stay |
| ConsumerNamespace.NamespaceIsKubernetesName | plugins/kuadrant-backend/src/router.ts:48-61 | every namespace matches the pattern of Kubernetes names |
| ConsumerNamespace.NamespaceExactly | plugins/kuadrant-backend/src/router.ts:48-57 | exactly which references have a namespace |
| ConsumerNamespace.DecodeInverts | plugins/kuadrant-backend/src/router.ts:59-60 | the sanitized lower-case name and the first eight digits of the whole reference's digest can be read back from the namespace |
| ConsumerNamespace.SharedExactly | plugins/kuadrant-backend/src/router.ts:48-61 | two users share a namespace exactly when sanitized names and the first eight digits of their references' digests agree |

## Left out

- Files, archives, `npm pack`, `skopeo`, `openssl`, integrity verification, YAML and JSON reading: the disk is a map from directory name to recorded hash and digest, with flat names, and a fetch either yields a directory or raises. What an installation that raises leaves on disk is not described.
- The early exits of the installer's `main` for a missing or empty configuration file, and its type checks of the file contents other than a plugin's package.
- The digest of plugin records is an arbitrary injective function; the contents of local packages enter it unchanged.
- Python's equality across types, keys that are not strings, YAML aliases, and entries that carry `last_modified_level` themselves: leaves of configurations are compared as opaque values.
- InstallerProgram.Installer.Run: the global configuration is a value here; that the dictionaries are merged in place without sharing is stated by `ConfigHeap.MergeConfigs`.
- Reconcile.ReconcileExact: assumes that no two directories record the same hash, which every run keeps (`Reconcile.RecordsStayDistinct`), and that enabled plugins have distinct hashes, which `WantedPlugins.TableHashesDistinct` gives, and directories.
- RepeatedRuns.SecondRun: assumes that registry, archives and local packages are the same in all runs, and that enabled plugins have directories of their own.
- `NPMPackageMerger.parse_plugin_key` is not claimed to be idempotent: it is not for git addresses with a `#` before the last slash.
- The waiting loop of the lock has no time bound, and no fairness is stated.
- JavaScript's reordering of integer-like keys and prototype keys; menu names are ordinary. `extractMenuItems` and `getNameFromPath` only prepare the item list that `buildTree` takes.
- Failures of the catalog client during the group search; the letter case of an entity kind is folded for ASCII letters.
- HTTP, Express, details of zod, Kubernetes transport and admission, generated names, and the Kuadrant controller. Random suffixes of approvals only matter in that a creation can fail.
- Listing endpoints, secrets, plan and rate-limit policies, key creation and key deletion by their requester.
- Keys of a deleted product in other namespaces: the cascade lists only the product's own namespace.
- The length of a consumer namespace, and the concurrent creation of one: `ensureConsumerNamespace` is not part of this model.
- Entity fields that do not identify a product: tags, links, the API definition and annotations copied from documentation and contact.
- The user interface, translations, authentication providers, dynamic-plugin wrappers, end-to-end tests and the remaining backends.
