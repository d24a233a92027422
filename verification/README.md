# CentralCore: a verified model

CentralCore is a Rust library that installs, updates, verifies and repairs game instances and keeps
their on-disk state usable across crashes. This project models the parts that decide that state and
proves what they promise. `dafny verify dfyconfig.toml` checks everything.

| file | contents |
|---|---|
| `Base.dfy` | `Option`/`Result`, file contents with an injective digest, string order |
| `Components.dfy`, `ComponentResolver.dfy`, `ComponentLaws.dfy` | the component graph, the resolver, its algebraic laws |
| `Disk.dfy`, `Restore.dfy`, `Recovery.dfy` | a file tree that changes one step at a time, what rolling back means, the rollback code |
| `Replace.dfy`, `Lifecycle.dfy` | replacing by renaming, the persisted status and index of an instance, startup reconciliation |
| `Lock.dfy` | the two-layer lock as interleaved steps of many workers in many processes |
| `Download.dfy` | the resumable download |
| `Verification.dfy`, `Prune.dfy` | quick and full verification, cache eviction |
| `Loader.dfy`, `InstallPlan.dfy` | incremental processor runs, plan assembly and the download loop |
| `RepairPlan.dfy`, `Repair.dfy`, `RepairConvergence.dfy`, `RepairTheorem.dfy` | the repair planner, its executor, restoration phase by phase, convergence |
| `Arguments.dfy` | the legacy argument scanner and variable substitution |
| `Auth.dfy` | account sessions split between a document and a secret vault |

Operations that change state in the source are methods of classes (or methods on values for local
loops), each proved equal to a specification function; the properties are lemmas about those functions.
A crash is a budget of steps that runs out; the network, external programs, clocks and other workers
are parameters.

## What the code does not keep

Some promises hold only under conditions the code does not establish. The model keeps the code as it is,
proves the condition, and refutes the promise without it:

- A repair rewrites the index while the status still says `Installed`; a crash between removal and rename
  leaves an installed instance without an index, which recovery then skips (`RepairBreaksThePromiseIff`,
  `RecoverySkipsStranded`).
- A library and its native archive share an id, and repair looks files up by id and location. It fails exactly
  when a damaged file is shadowed by an earlier one (`DownloadsRepairIffUnshadowed`, `SharedKeyDefeatsRepair`).
- Damaged processors run in the order of their checks. A repair fails exactly when one of them is not fed at its
  turn, or a damaged file is out of reach of the plan (`RepairSucceedsIff`, `QueueOrderMatters`).
- Repair stamps the index before its final verification, so a refused repair fools quick verification
  (`RefusedRepairFoolsQuickVerification`, `RefreshedQuickSeesOnlySizes`).
- Several crashes can lose a document that is replaced by renaming (`NothingWholeIffLost`).
- Account ids with two dots in a row pass validation but have no usable vault keys, and reloading fails exactly
  while one is listed (`ReloadRebuildsSessions`, `DottedAccountBlocksReload`); an interrupted logout can also
  block it, or hide every account (`InterruptedLogout`, `CutSaveHidesEveryone`).
- Temporary-looking names are pruned although referenced, and the index keeps them
  (`ReferencedFilesGoOnlyIfTemporary`, `PruneKeepsIndexInAgreement`).
- Local recovery of a download leaves a stale destination alone (`RecoveryIsSoundIff`), and the size limit does not
  bind at the largest 64-bit number (`LimitBindsIff`).
- A value that holds, or may complete to, the placeholder of a later variable is disturbed by that variable's pass
  (`EveryPassIsSimultaneousIffUndisturbed`); dollar signs that cannot do so, as in `$HOME`, are harmless.
- Lists with repeated component ids, which parsed manifests reject, are resolved differently once their defaults are
  stored, exactly when the defaults of one id differ (`InitializationIsInvisibleIff`).

The exact law of substitution is stated for names without dollar signs and closing braces; the names the launcher
substitutes are fixed literals without either (`crates/centralcore/src/minecraft/launch.rs:206-250`). It is a law
about every pass of the loop. For the final text alone the condition is sufficient, and necessary when no pass follows
the disturbing one (`FinalTextIffUndisturbed`); otherwise a later pass can restore by chance what an earlier one
disturbed (`ALaterPassMayUndo`).

Preconditions kept explicit: recovery requires that nothing stands where a backup has to go and that no
backup lies inside an update directory (`Restorable`, `NoNesting`); the order in which the system lists
the update directories is fixed over a sequence of crashes; incremental loader runs require processors
with disjoint writes that do not read what they or later ones write (`Separated`); repair requires the
conditions gathered in `Planned`, `Unshadowed` and `Independent`; prune requires that no
other process registers files meanwhile.

## Model

| member | source | states |
|---|---|---|
| `ComponentResolver.ValidateDependencyGraph` | crates/centralcore/src/providers/components.rs:149-200 | succeeds iff every reference resolves and `requires` is acyclic; otherwise names the first dangling reference in id order, or exactly the components that reach a cycle, in id order |
| `ComponentResolver.CountDependencies` | crates/centralcore/src/providers/components.rs:152-167 | the counters start at the number of entries in `requires`, repetitions included; dependents are recorded as often as they list a dependency |
| `ComponentResolver.Release` | crates/centralcore/src/providers/components.rs:176-187 | telling the dependents of one resolved component keeps every counter equal to its unresolved entries, never below zero, and queues each id at most once |
| `ComponentResolver.Drain` | crates/centralcore/src/providers/components.rs:168-199 | the queue terminates; the ids with a positive counter are exactly those from which a cycle is reachable; all are resolved iff there are none |
| `ComponentResolver.StuckReachCycles` | crates/centralcore/src/providers/components.rs:189-198 | when the queue is empty, a counter is positive iff its component reaches a cycle |
| `ComponentResolver.KahnResult` | crates/centralcore/src/providers/components.rs:173-198 | the final counters and the resolved count decide acyclicity |
| `ComponentGraph.TopologicalIsAcyclic` | crates/centralcore/src/providers/components.rs:174-188 | a component resolved after all its dependencies reaches no cycle |
| `ComponentGraph.WalkClosesCycle` | crates/centralcore/src/providers/components.rs:189-198 | a set in which everything keeps a dependency inside the set leads into a cycle |
| `ComponentGraph.AcyclicMeansNoCycleIds` | crates/centralcore/src/providers/components.rs:189-199 | the reported set is empty iff the graph is acyclic |
| `ComponentGraph.ReachableIsLeast` | crates/centralcore/src/providers/components.rs:85-110 | reachability over `requires` is the least set that holds the seeds and is closed |
| `ComponentResolver.EnableReachable` | crates/centralcore/src/providers/components.rs:98-110 | the worklist enables exactly the components reachable from the seeds, and `enabled_by` holds exactly the enabled direct dependents |
| `ComponentResolver.FindConflict` | crates/centralcore/src/providers/components.rs:111-124 | reports the first conflict in id order, then list order, or none when there is none |
| `ComponentResolver.StatusLines` | crates/centralcore/src/providers/components.rs:125-145 | one line per list entry; a repeated id gets its `enabled_by` only the first time |
| `ComponentResolver.ResolveComponents` | crates/centralcore/src/providers/components.rs:76-147 | the whole resolution equals its declarative meaning: graph errors, least enabled set, conflicts, status lines |
| `ComponentResolver.ResolutionIsLeast` | crates/centralcore/src/providers/components.rs:85-110 | on success the enabled set is the least one that holds the required and selected components and is closed under `requires`; the graph is closed and acyclic |
| `ComponentResolver.ResolutionHasNoConflict` | crates/centralcore/src/providers/components.rs:111-124 | on success no enabled component lists an enabled one, itself included, as a conflict |
| `ComponentResolver.FailuresAreExact` | crates/centralcore/src/providers/components.rs:84-124 | each kind of failure occurs iff its cause is present, in the order reference, cycle, conflict; the cycle error names exactly the ids that reach a cycle |
| `ComponentLaws.OutcomeIgnoresListOrder` | crates/centralcore/src/providers/components.rs:76-147 | with unique ids the outcome does not depend on list order |
| `ComponentLaws.EnabledIsMonotone` | crates/centralcore/src/providers/components.rs:85-110 | selecting more never disables anything |
| `ComponentLaws.ComponentSelections.Initialize` | crates/centralcore/src/providers/components.rs:61-73 | the in-place loop stores the defaults of the optional components without a local choice |
| `ComponentLaws.DefaultsFillGaps` | crates/centralcore/src/providers/components.rs:65-72 | local choices survive, exactly the optional components gain an entry, the first of each id decides |
| `ComponentLaws.InitializationIsInvisible` | crates/centralcore/src/providers/components.rs:61-147 | with unique ids storing the defaults leaves every resolution unchanged |
| `ComponentLaws.InitializationIsInvisibleIff` | crates/centralcore/src/providers/components.rs:61-147 | for any list, repeated ids included, storing the defaults leaves a successful resolution unchanged iff every optional entry without a choice has the default of the first optional entry of its id |
| `ComponentLaws.RepeatedIdsBreakInitialization` | crates/centralcore/src/providers/components.rs:61-147 | two optional entries of one id, the first off and the second on by default, resolve differently once the defaults are stored |
| `Recovery.RecoverThroughCrashes` | crates/centralcore/src/minecraft/recovery.rs:117-155 | crash idempotence: cut after any number of steps any number of times and then finished, recovery leaves every instance file as one uninterrupted run would, and no update directory |
| `Recovery.RestoreAbandonedUpdates` | crates/centralcore/src/minecraft/recovery.rs:117-155 | every run, finished, refused or killed, only moves the tree towards the same outcome; a finished one reaches it; a refusal means something stood in the way |
| `Recovery.RestoreUpdate` | crates/centralcore/src/minecraft/recovery.rs:140-152 | one update: backups, instance document, index document, then removal |
| `Recovery.RestoreBackupTree` | crates/centralcore/src/minecraft/recovery.rs:157-213 | the directory stack visits every backup and moves it home |
| `Recovery.VisitDirectory` | crates/centralcore/src/minecraft/recovery.rs:162-211 | one directory of the stack: files move back, subdirectories are pushed |
| `Recovery.RestoreBackup` | crates/centralcore/src/minecraft/recovery.rs:190-209 | one backed-up file: parents, removal of what is there, rename; each cut leads to the same outcome |
| `Recovery.EnsureParents` | crates/centralcore/src/minecraft/recovery.rs:243-268 | creates the missing directories of a target one by one |
| `Recovery.RestoreSaved` | crates/centralcore/src/minecraft/recovery.rs:215-241 | a saved document replaces the current one, or nothing happens when none was saved |
| `Restore.RemovingATargetIsHarmless` | crates/centralcore/src/minecraft/recovery.rs:198-207 | deleting a file that is about to be restored changes no outcome |
| `Restore.MovingBackIsHarmless` | crates/centralcore/src/minecraft/recovery.rs:209-209 | moving a source home changes no outcome |
| `Restore.DroppingAnEmptiedUpdateIsHarmless` | crates/centralcore/src/minecraft/recovery.rs:152-152 | removing an update without sources, even half removed, changes no outcome |
| `Restore.OneUpdateGivesBackWhatItSaved` | crates/centralcore/src/minecraft/recovery.rs:138-152 | the outcome of one update: every backed-up path has its old content, both documents their previous version, everything else is untouched |
| `Restore.AgreeingUpdatesCommute` | crates/centralcore/src/minecraft/recovery.rs:119-130 | the listing order of several updates is irrelevant where they agree |
| `Restore.DisagreeingUpdatesDoNotCommute` | crates/centralcore/src/minecraft/recovery.rs:119-130 | and for two updates it matters exactly for the paths they hold with different contents |
| `LockProtocol.RunsKeepInvariant` | crates/centralcore/src/lock/mod.rs:124-199 | every step of every worker in every process, process deaths included, keeps reservations exact and file locks compatible |
| `LockProtocol.ExclusiveExcludesEveryone` | crates/centralcore/src/lock/mod.rs:154-198 | an exclusive holder excludes every other holder of the resource in any process |
| `LockProtocol.ClonesNeverShare` | crates/centralcore/src/lock/mod.rs:141-153 | two guards of clones of one manager never coexist, even in shared mode |
| `LockProtocol.ReservedExactlyWhileInUse` | crates/centralcore/src/lock/mod.rs:107-176 | a resource is in `held` iff one of that manager's workers is between reservation and release |
| `LockProtocol.NothingLeaks` | crates/centralcore/src/lock/mod.rs:149-176 | no path, failure included, leaves a reservation or a file lock behind |
| `LockProtocol.FreeResourceIsGranted` | crates/centralcore/src/lock/mod.rs:141-199 | a resource nobody works on is granted at the first attempt |
| `LockProtocol.World.AcquireBlocking` | crates/centralcore/src/lock/mod.rs:124-199 | the polling code run among arbitrary steps of the others: a guard iff the worker is reserved and locked, otherwise nothing of it remains |
| `LockProtocol.World.DropGuard` | crates/centralcore/src/lock/mod.rs:107-114 | dropping a guard removes exactly its reservation and its file lock, also when the explicit unlock fails |
| `Download.DownloadFiles.DownloadOnce` | crates/centralcore/src/download/mod.rs:672-749 | one attempt: request offset, status and range checks, append or truncate, chunk loop with saturating count, limit and cancellation |
| `Download.DownloadFiles.Download` | crates/centralcore/src/download/mod.rs:396-484 | the retry loop over destination and part file, changed in place |
| `Download.DownloadFiles.RecoverLocal` | crates/centralcore/src/download/mod.rs:507-546 | the offline path over the same two files |
| `Download.ResumeIsCorrect` | crates/centralcore/src/download/mod.rs:678-748 | against an honest server (RFC 9110 sections 14.2, 14.4, 15.3.7, 15.5.17) a part that is a prefix of the content stays one; a clean end means it is the content |
| `Download.RetriesAreCorrect` | crates/centralcore/src/download/mod.rs:444-477 | through any chunks, breakdowns, cancellations and retries the part stays a prefix, and the loop succeeds iff a round ends cleanly and the content is acceptable |
| `Download.DownloadDeliversContent` | crates/centralcore/src/download/mod.rs:396-484 | a successful download leaves exactly the server's bytes, a failed one no destination |
| `Download.StalePartIsHealed` | crates/centralcore/src/download/mod.rs:444-477 | however wrong the part file, with a hash in the request the loop ends in the right content iff a clean round is good or a second clean one follows, with any failed rounds before and between |
| `Download.OnlyAcceptedBytesSucceed` | crates/centralcore/src/download/mod.rs:449-465 | whatever the server does, success means verified bytes |
| `Download.CallsLeaveSoundDestinations` | crates/centralcore/src/download/mod.rs:415-484 | after a download the destination is absent or verified, success iff present, with its length reported |
| `Download.DestinationStaysSound` | crates/centralcore/src/download/mod.rs:396-546 | over any sequence of downloads and local recoveries that starts with a download the destination stays absent or verified |
| `Download.RecoveryIsSoundIff` | crates/centralcore/src/download/mod.rs:507-546 | local recovery alone leaves a sound destination iff it found one, or a complete part file to put in its place |
| `Download.PartStaysWithinLimit` | crates/centralcore/src/download/mod.rs:727-733 | a part within the size limit never grows past it, for every limit below the largest 64-bit number |
| `Download.LimitBindsIff` | crates/centralcore/src/download/mod.rs:727-732 | the size limit binds for every body iff it is below the largest 64-bit number, where the count saturates |
| `Verification.BuildReport` | crates/centralcore/src/cache/mod.rs:650-670 | the counters of the report are the counts per state and the sum of the sizes |
| `Verification.HealthyMeansAllValid` | crates/centralcore/src/cache/mod.rs:650-670 | a report is healthy iff every check is valid; the four counters partition the checks |
| `Verification.CountersIgnoreOrder` | crates/centralcore/src/cache/mod.rs:520-537 | the completion order of concurrent checks does not influence the counters |
| `Verification.QuickAgreesIffStampSound` | crates/centralcore/src/cache/mod.rs:593-636 | both modes give the same check for a file iff its stamp does not vouch for wrong content |
| `Verification.QuickReportIsFullReport` | crates/centralcore/src/cache/mod.rs:506-538 | both modes give the same report iff every stamp is sound |
| `Verification.ValidStampsStaySound` | crates/centralcore/src/cache/mod.rs:489-504 | a stamp taken over valid content stays sound while every change shows in size or time |
| `Verification.RefreshIndex` | crates/centralcore/src/minecraft/repair.rs:722-737 | stamps every entry, fails iff one is no regular file, changes nothing else |
| `Verification.RefreshIsSoundIffContentIs` | crates/centralcore/src/minecraft/repair.rs:584-595 | refreshing leaves sound stamps iff every file of the right size verifies in full; a healthy full verification afterwards suffices |
| `Verification.InstallEstablishesSoundStamp` | crates/centralcore/src/minecraft/install.rs:945-972 | what an installation records for a verified file is stamped over valid content and pins exactly that content |
| `Verification.QuickRefinesFull` | crates/centralcore/src/cache/mod.rs:489-538 | stamps taken over accepted content give the same report in both modes on every later disk whose changes show in size or modification time |
| `Verification.QuickRefinesFullAfterInstall` | crates/centralcore/src/minecraft/install.rs:945-972 | so after an installation of verified downloads quick verification refines full verification |
| `Verification.RefreshedQuickSeesOnlySizes` | crates/centralcore/src/minecraft/repair.rs:584-587 | right after stamps were taken quick verification looks at nothing but sizes, full verification also at contents |
| `Prune.CacheManager.PruneCache` | crates/centralcore/src/cache/mod.rs:305-392 | candidates, dry run, deletions, counters and index update; skips exactly the locked candidates |
| `Prune.RetainMeetsBudget` | crates/centralcore/src/cache/mod.rs:339-350 | the retained candidates free at least the excess whenever all candidates together could |
| `Prune.RetainDecides` | crates/centralcore/src/cache/mod.rs:342-349 | a candidate is retained iff it is temporary or the earlier ones had freed less than the excess |
| `Prune.CandidateMeaning` | crates/centralcore/src/cache/mod.rs:308-337 | a candidate is temporary by name and not evictable, or indexed, unreferenced, present and old enough |
| `Prune.ReferencedFilesGoOnlyIfTemporary` | crates/centralcore/src/cache/mod.rs:310-335 | a referenced file is deleted iff its name looks temporary, it exists and its lock is free |
| `Prune.PruneKeepsIndexInAgreement` | crates/centralcore/src/cache/mod.rs:310-390 | the index loses exactly the indexed files that are deleted and no indexed file goes missing iff no indexed file is temporary-named, present, unlocked and not evictable; no locked file is deleted |
| `Prune.PartSharesLock` | crates/centralcore/src/cache/mod.rs:817-820 | a part file is pruned under the lock of the download that writes it |
| `LoaderPlans.LoaderRun.ExtractEntries` | crates/centralcore/src/loaders/executor.rs:58-66 | the extraction loop on the cache in place, with the cancellation check before each entry |
| `LoaderPlans.LoaderRun.ExecuteProcessors` | crates/centralcore/src/loaders/executor.rs:79-97 | the processor loop: skip, run, pin, stop at the first failure or cancellation; the plan is pinned in place |
| `LoaderPlans.PinIsExact` | crates/centralcore/src/loaders/executor.rs:177-204 | a recorded pin accepts the recorded bytes and no others |
| `LoaderPlans.StepRestores` | crates/centralcore/src/loaders/executor.rs:83-91 | one incremental step gives back the outputs of that processor whatever state they were in |
| `LoaderPlans.IncrementalEqualsFull` | crates/centralcore/src/loaders/executor.rs:79-134 | with pins from a successful run and separated processors, skipping intact ones from any damaged-output state ends in the cache and the plan of the full run |
| `LoaderPlans.SecondRunOnlyRunsUndeclared` | crates/centralcore/src/loaders/executor.rs:83-85 | an immediate second run executes exactly the processors without declared outputs |
| `LoaderPlans.ExtractionRestores` | crates/centralcore/src/loaders/executor.rs:58-66 | extracting again gives back every destination whatever state it was in |
| `LoaderPlans.PlanRestoresCache` | crates/centralcore/src/loaders/executor.rs:49-98 | archive entries and processors together restore every destination and declared output |
| `InstallPlans.InstallPlan.Finish` | crates/centralcore/src/minecraft/install.rs:492-577 | the assembled plan lists, in destination order, the first offer for each destination, except that the logging file replaces what it finds; the total is exact |
| `InstallPlans.InstallPlan.AttachLoader` | crates/centralcore/src/minecraft/install.rs:447-487 | attaching fails iff the merged list has two entries for one destination that disagree on source or hash; otherwise it appends exactly the new destinations |
| `InstallPlans.DeduplicateDownloads` | crates/centralcore/src/loaders/forge.rs:567-583 | keeps the first entry per destination in destination order, or fails naming the first clash and leaves the list empty |
| `InstallPlans.ClashIffDisagreement` | crates/centralcore/src/loaders/forge.rs:571-577 | merging fails iff two entries for one destination disagree |
| `InstallPlans.EarlierEntryWins` | crates/centralcore/src/loaders/forge.rs:569-580 | an entry is kept iff no earlier one has its destination |
| `InstallPlans.DeduplicatedIsDistinct` | crates/centralcore/src/loaders/forge.rs:567-583 | the result has distinct destinations, all from the input, and loses none |
| `InstallPlans.FinishedPlanIsDistinct` | crates/centralcore/src/minecraft/install.rs:503-560 | a finished plan has distinct destinations |
| `InstallPlans.AttachedIsDistinct` | crates/centralcore/src/minecraft/install.rs:461-482 | attaching keeps destinations distinct and covers exactly those of both lists |
| `InstallPlans.ComputeTotal` | crates/centralcore/src/minecraft/install.rs:483-487 | the total is the exact sum iff every size is known |
| `InstallPlans.InstallDownloads` | crates/centralcore/src/minecraft/install.rs:708-767 | the phase and chunk loop: chunks are bounded, the counted downloads are a prefix of the phase order, all of it unless the loop stops at the first cancellation or failing chunk |
| `InstallPlans.EveryDownloadVisitedOnce` | crates/centralcore/src/minecraft/install.rs:708-767 | each download of a visited phase is visited as often as it is planned; the counter reaches the total iff every phase is visited |
| `InstallPlans.CompletedReachesTotal` | crates/centralcore/src/minecraft/install.rs:492-767 | for every finished plan, with or without loader, the completed count ends at the total |
| `LegacyArguments.SplitLegacyArguments` | crates/centralcore/src/minecraft/arguments.rs:103-139 | the scanner loop computes the state machine of quotes, escapes and gaps |
| `LegacyArguments.SplitFollowsGrammar` | crates/centralcore/src/minecraft/arguments.rs:103-139 | the scanner accepts exactly the lines of an independent grammar and gives each its meaning; the grammar is unambiguous in meaning |
| `LegacyArguments.QuoteThenSplit` | crates/centralcore/src/minecraft/arguments.rs:103-139 | quoting any argument list and splitting the line returns the list without its empty members |
| `LegacyArguments.RoundTripIsExactWithoutEmptyArguments` | crates/centralcore/src/minecraft/arguments.rs:124-137 | the round trip is exact iff no argument is empty |
| `Substitution.Substitute` | crates/centralcore/src/minecraft/arguments.rs:95-101 | one replacement pass per variable in map order |
| `Substitution.ReplaceFillsHoles` | crates/centralcore/src/minecraft/arguments.rs:97-99 | one pass fills exactly the placeholders of its name |
| `Substitution.UndisturbedIsSimultaneous` | crates/centralcore/src/minecraft/arguments.rs:95-101 | sequential replacement equals simultaneous substitution on every template whose dollar signs only begin placeholders, when no value is disturbed by the pass of a name that sorts after its own |
| `Substitution.EveryPassIsSimultaneousIffUndisturbed` | crates/centralcore/src/minecraft/arguments.rs:95-101 | every pass keeps the text equal to the simultaneous substitution so far, on every such template, iff no value is disturbed by a later pass |
| `Substitution.FinalTextIffUndisturbed` | crates/centralcore/src/minecraft/arguments.rs:95-101 | when no pass follows the one that may disturb, as with any two variables, the final text is right for every template iff no value is disturbed |
| `Substitution.SequentialIsSimultaneous` | crates/centralcore/src/minecraft/arguments.rs:95-101 | in particular for values without dollar signs |
| `Substitution.ALaterPassMayUndo` | crates/centralcore/src/minecraft/arguments.rs:97-99 | the final text alone does not tell: with three concrete variables it is right for every template although a pass in between goes wrong |
| `Substitution.DollarInValueBreaksIt` | crates/centralcore/src/minecraft/arguments.rs:97-99 | without that condition it fails: with two concrete variables, the first value being the placeholder of the second, the result is not the simultaneous one |
| `Substitution.BraceInNameBreaksIt` | crates/centralcore/src/minecraft/arguments.rs:97-99 | and so it does for a name with a closing brace, which the launcher does not have: concrete map |
| `AuthSessions.KeyInjective` | crates/centralcore/src/auth/mod.rs:1594-1596 | vault keys are injective in account id and secret name, slashes in ids included |
| `AuthSessions.KeyValidIff` | crates/centralcore/src/auth/mod.rs:1554-1578 | the keys of an id that passes session validation are usable iff the id has no two dots in a row |
| `AuthSessions.AuthManager.KeepSession` | crates/centralcore/src/auth/mod.rs:1199-1207 | the common tail of login, refresh and verification: validate, store present secrets, insert, save, with a storage failure after any step |
| `AuthSessions.AuthManager.PersistSecrets` | crates/centralcore/src/auth/mod.rs:1222-1246 | stores the present secrets in order and leaves absent ones alone |
| `AuthSessions.AuthManager.Refresh` | crates/centralcore/src/auth/mod.rs:1048-1090 | refuses unknown, non-refreshable and mismatching accounts without any change |
| `AuthSessions.AuthManager.IdentityForLaunch` | crates/centralcore/src/auth/mod.rs:1092-1130 | an identity is returned only when the verified session of that account is in the table and in the document, and no other account changed |
| `AuthSessions.AuthManager.LogOut` | crates/centralcore/src/auth/mod.rs:1132-1160 | removes the session, its four secrets and its document entry, in that order, or nothing when the provider refuses |
| `AuthSessions.AuthManager.LoadSessions` | crates/centralcore/src/auth/mod.rs:778-852 | restores every listed account or changes nothing |
| `AuthSessions.VaultHoldsLastPresent` | crates/centralcore/src/auth/mod.rs:1222-1246 | after any run the vault holds, per account and name, the last secret presented since the account's last logout |
| `AuthSessions.ReloadRebuildsSessions` | crates/centralcore/src/auth/mod.rs:778-1270 | after any run that ends in a success, reloading works iff no listed id has two dots in a row, and then rebuilds every session with the last presented secrets |
| `AuthSessions.ReloadIsExactIffNothingBecameAbsent` | crates/centralcore/src/auth/mod.rs:778-1270 | the reloaded table equals the saved one iff no secret became absent after having been present |
| `AuthSessions.LogoutErasesOneAccount` | crates/centralcore/src/auth/mod.rs:1145-1154 | a successful logout removes every vault key of that account and of no other |
| `AuthSessions.DottedAccountBlocksReload` | crates/centralcore/src/auth/mod.rs:1486-1506 | a secretless session whose id has two dots in a row is saved, and no reload succeeds while it is listed |
| `AuthSessions.InterruptedLogout` | crates/centralcore/src/auth/mod.rs:1145-1268 | a logout cut after any number of steps goes through iff it got eight; a reload afterwards works iff the game token is still in the vault, or the old document is gone, or the account is offline; between removal and rename of the document it finds no account |
| `AuthSessions.InterruptedLogoutBlocksReload` | crates/centralcore/src/auth/mod.rs:1145-1154 | in particular, cut between vault and document it leaves an official account that no reload can restore |
| `AuthSessions.CutSaveHidesEveryone` | crates/centralcore/src/auth/mod.rs:1248-1270 | a save cut anywhere leaves no document iff it is cut between removal and rename; then a reload works and finds no account, while the temporary file holds the complete list |
| `Replacing.Document.Replace` | crates/centralcore/src/instance/mod.rs:712-741 | write the temporary file, remove the destination, rename, with a crash after any step |
| `Replacing.DestinationIsNeverTorn` | crates/centralcore/src/instance/mod.rs:712-741 | over any number of interrupted replacements the destination is absent, the original or one of the new documents in full |
| `Replacing.OneReplacementLosesNothing` | crates/centralcore/src/cache/mod.rs:840-854 | one interrupted replacement of an existing document leaves a complete document in the destination or the temporary file |
| `Replacing.NothingWholeIffLost` | crates/centralcore/src/instance/mod.rs:712-741 | over several, nothing complete is left iff one died after the removal and a later one while writing its temporary file |
| `Replacing.TwoCrashesLoseADocument` | crates/centralcore/src/instance/mod.rs:712-741 | two crashes suffice: concrete run |
| `Replacing.NativesSwap.Reextract` | crates/centralcore/src/minecraft/install.rs:872-902 | the natives are wholly old, wholly new or absent after any cut; when absent, old and new are whole beside them; a cancellation leaves them alone |
| `Replacing.NativesSwap.ReextractThroughCrashes` | crates/centralcore/src/minecraft/install.rs:872-902 | the same over any number of interrupted transactions, each with directories of its own: the tree last in place is whole there or in a backup as long as no backup is swept away |
| `Lifecycle.InstanceDocuments.InstallMode` | crates/centralcore/src/minecraft/install.rs:621-687 | the status and index writes of an installation, in order, cut after any step |
| `Lifecycle.InstanceDocuments.RecoverOne` | crates/centralcore/src/minecraft/recovery.rs:55-77 | the writes of recovering one unlocked instance, cut after any step |
| `Lifecycle.InstanceDocuments.RepairMode` | crates/centralcore/src/minecraft/repair.rs:195-258 | the status and index writes of a repair, cut after any step |
| `Lifecycle.InstalledImpliesIndex` | crates/centralcore/src/minecraft/install.rs:627-686 | in every run of installs, cancellations, failures, crashes and recoveries, status `Installed` implies a complete index on disk |
| `Lifecycle.RepairBreaksThePromiseIff` | crates/centralcore/src/minecraft/repair.rs:584-587 | a repair breaks that promise iff the status was `Installed` and it dies between removing the old index and renaming the new one |
| `Lifecycle.RecoverySkipsStranded` | crates/centralcore/src/minecraft/recovery.rs:36-41 | such an instance is not considered by recovery and stays as it is |
| `Lifecycle.RecoverySettles` | crates/centralcore/src/minecraft/recovery.rs:55-77 | an uninterrupted recovery ends `Installed` iff the index loads and verifies, otherwise recoverable, with the saved index back in place |
| `Lifecycle.RecoverInstances` | crates/centralcore/src/minecraft/recovery.rs:33-87 | every unlocked instance that was installing, updating or recoverable is settled, all others are untouched, and the three counters sum to the instances considered |
| `RepairPlanning.ResolveRepairPlan` | crates/centralcore/src/minecraft/repair.rs:286-439 | the pass over the checks builds the plan check by check, stopping at the first one without a source |
| `RepairPlanning.PlanSucceedsIff` | crates/centralcore/src/minecraft/repair.rs:302-415 | planning succeeds iff every check that needs an indexed file finds one with a route |
| `RepairPlanning.PlanAnswersEveryCheck` | crates/centralcore/src/minecraft/repair.rs:302-415 | in whatever order the checks arrive, every invalid one is answered by a download, copy, processor, archive entry or removal |
| `RepairPlanning.PlanIsJustified` | crates/centralcore/src/minecraft/repair.rs:302-415 | nothing is planned without an indexed file or an unexpected native behind it |
| `RepairPlanning.LookupsFaithfulIffUniqueKeys` | crates/centralcore/src/minecraft/repair.rs:315-321 | with distinct places, every file is found again from its own check iff no two files share id and location |
| `Repairing.RepairRun.DownloadAll` | crates/centralcore/src/minecraft/repair.rs:481-493 | every request of the batch is carried out, and the first failure is reported afterwards |
| `Repairing.RepairRun.CopyInto` | crates/centralcore/src/minecraft/repair.rs:519-532 | copies into one managed root, sources verified first |
| `Repairing.RepairRun.LoaderSteps` | crates/centralcore/src/minecraft/repair.rs:494-518 | queued archive entries and processors through the loader executor |
| `Repairing.RepairRun.ExecutePlan` | crates/centralcore/src/minecraft/repair.rs:481-576 | downloads, loader steps, cache copies, instance copies, then removals or a fresh extraction of the natives |
| `Repairing.RepairRun.Repair` | crates/centralcore/src/minecraft/repair.rs:481-602 | no error iff the execution succeeds and the full verification afterwards is healthy; then every stamp was taken over accepted content |
| `Repairing.QuickRefinesFullAfterRepair` | crates/centralcore/src/minecraft/repair.rs:584-602 | so after a successful repair quick verification refines full verification on every later disk whose changes show |
| `RepairConvergence.RepairIsFramed` | crates/centralcore/src/minecraft/repair.rs:481-576 | however it ends, a repair changes nothing outside its destinations, removals, processor outputs and the natives |
| `RepairConvergence.DownloadsRestore` | crates/centralcore/src/minecraft/repair.rs:481-493 | downloads from sources that serve the recorded content restore their destinations and spoil nothing |
| `RepairConvergence.LoaderRestores` | crates/centralcore/src/minecraft/repair.rs:494-518 | loader steps restore their destinations and outputs and spoil nothing when each finds its inputs right at its turn, from the start or from the steps before it |
| `RepairConvergence.UnfedLoaderFails` | crates/centralcore/src/minecraft/repair.rs:494-518 | steps that accept nothing but the recorded inputs fail when one of them is not fed |
| `RepairConvergence.CopiesRestore` | crates/centralcore/src/minecraft/repair.rs:519-532 | copies from right sources restore their destinations and spoil nothing |
| `RepairTheorem.PlanCovers` | crates/centralcore/src/minecraft/repair.rs:302-415 | when no damaged file is shadowed by an earlier one with its id and location, the plan reaches every damaged file |
| `RepairTheorem.RepairConverges` | crates/centralcore/src/minecraft/repair.rs:302-602 | with unshadowed damage and loader steps that are fed at their turn, a repair succeeds, every indexed file has its recorded content, and nothing outside the plan changes |
| `RepairTheorem.RepairSucceedsIffTargeted` | crates/centralcore/src/minecraft/repair.rs:302-602 | with loader steps that are fed, a repair succeeds iff its plan reaches every damaged file |
| `RepairTheorem.RepairSucceedsIff` | crates/centralcore/src/minecraft/repair.rs:302-602 | for loader steps that fail on anything but the recorded inputs, a repair succeeds iff its plan reaches every damaged file and every queued step is fed at its turn |
| `RepairTheorem.DownloadsRepairIffUnshadowed` | crates/centralcore/src/minecraft/repair.rs:302-602 | when every file has a source that serves it, a repair succeeds iff no damaged file is shadowed |
| `RepairTheorem.OneMissingFileComesBack` | crates/centralcore/src/minecraft/repair.rs:302-602 | the conditions are met by any single missing cache file whose source serves its content: it is planned, fetched and verified |
| `RepairTheorem.ShadowedStaysDamaged` | crates/centralcore/src/minecraft/repair.rs:315-321 | a damaged cache file shadowed among downloaded ones defeats the repair whatever the sources serve |
| `RepairTheorem.SharedKeyDefeatsRepair` | crates/centralcore/src/minecraft/install.rs:508-524 | in particular the second of two files with one id, as a library and its native archive get |
| `RepairTheorem.RefusedRepairFoolsQuickVerification` | crates/centralcore/src/minecraft/repair.rs:584-602 | such a repair executes without error and is refused; a corrupted file of the right size, noticed by quick verification before, is valid to it under the stamps the refused repair took |
| `RepairTheorem.QueueOrderMatters` | crates/centralcore/src/minecraft/repair.rs:350-361 | two dependent damaged processors on an empty disk: with the checks in plan order the repair succeeds, in the other order it fails |

## Left out

- HTTP clients, redirect and URL policy, OAuth and console sign-in, JSON encoding and decoding: foreign libraries; replies and parsed documents are inputs.
- The command-line tools and the signing crate: plumbing and real cryptography.
- The provider update executor and the trust store: not part of this model, so `Updating` occurs only as a state that recovery finds.
- Process launching, Java discovery, archive extraction, events, configuration, identifier and path validators, version rules: short bounded checks; validated paths are plain strings or sequences of names.
- Symbolic links and special files, permissions, and the checks against them, except that a path may hold something that is no regular file.
- Real hashing: digests are injective in the bytes.
- Asynchronous scheduling outside the lock protocol: concurrent downloads and checks are sequential, with the order of checks arbitrary.
- A poisoned reservation mutex, which makes a manager refuse every later acquisition, and the contents of the lock file.
- Temporary files of repair copies and archive entries (`*.centralcore-repair.tmp`, `*.loader.tmp`), the creation of parent directories and the transaction journal in the repair and lifecycle models.
- Repair without a managed index, which first resolves an installation plan, the offline repair path with its second planning pass, and cancellation between repair phases.
- `cleanup_abandoned_staging` and the creation of a new instance: a sweep and a fixed sequence of writes.
- Pending authentication flows, their expiry and the checks on user names and UUIDs: a map with one removal per continuation and two format checks; sessions range over all identities.
- `resolve_arguments`: flattening and filtering by rules.
- The `register` and `scan_status` operations of the cache: one map update per file and a directory sum, used here as the total of all file lengths.
- RepairSucceedsIff: assumes loader steps that fail on anything but recorded inputs; a program that tolerates other inputs may still happen to produce the recorded outputs.
- DownloadAll: failures are reported in the order of the requests; the code reports the one that completes first.
- RepairMode: a repair that finds no index fails here; the code first resolves an installation plan and writes an index for it when it is online.
- ResolveRepairPlan: the sum of the download sizes in the plan is not modelled.
- AttachLoader: what the list holds after a refused merge is not stated, since the caller drops the plan.
- LookupsFaithfulIffUniqueKeys: assumes distinct places, which every plan has.
- EnabledIsMonotone: compares two resolutions that both succeed, since a larger selection may newly run into a conflict.
- RecoverInstances: covers runs of `recover` without I/O errors; an error stops the loop where it occurs.
- Temporary files of `atomic_json`: their name carries the process id, so the loss described by `NothingWholeIffLost` needs one process there, while status and instance documents share one temporary file.
- How long an acquisition waits, and fairness between waiting workers, are not modelled; the timeout is the number of sleeps.
