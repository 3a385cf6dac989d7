# Verified model of mgw-module-manager

mgw-module-manager installs modules from repositories, deploys them as containers and keeps the
containers in the state users want. This project models the parts of it that decide something and
proves what they keep, over every input, every run and every order in which Go may range over a map.
`dafny verify dfyconfig.toml` checks it.

## What is modelled

| file | part of the program |
|---|---|
| `Modfiles.dfy`, `ModuleStore.dfy`, `ModuleImages.dfy` | rows, directories, modfile cache and images of installed modules, with rollback; which images stay over runs |
| `InstalledClosure.dfy` | reading installed modules with everything they depend on, on that store |
| `RepoDependencies.dfy`, `ModuleSelection.dfy`, `SelectionOrder.dfy` | choosing repository variants for a change request, in two passes over possibly cyclic and incomplete graphs, and what the order of the second pass decides |
| `ChangePlan.dfy`, `PlanExecution.dfy`, `ChangeService.dfy`, `ChangeRuns.dfy`, `StalePlans.dfy` | validating and planning a change request, carrying it out on the store, what happens when it is cancelled or replaced on the way, and when the pending one is out of date |
| `RuntimeMonitor.dfy`, `MonitorRuns.dfy`, `DeploymentMonitor.dfy`, `AuxMonitor.dfy` | the two monitors that start and stop containers, as step relations over database rows, engine state, in-flight ids and running jobs |
| `ConfigValues.dfy`, `ConfigRows.dfy`, `ConfigReading.dfy`, `SparseData.dfy`, `StoredData.dfy` | typed config values, their rows and the fold that reads them back, sparse storage and merging, and user data over creates, updates, deletes and recreates |
| `Slices.dfy`, `SubSelects.dfy`, `FilterText.dfy`, `FilterCompiler.dfy` | filters compiled to WHERE clauses with sub-selects, as text, how the text is read, and what it means |
| `AuxDelete.dfy`, `DeploymentRemoval.dfy`, `DeploymentDelete.dfy` | deleting auxiliary deployments, volumes and deployments with everything they have |
| `Aliases.dfy`, `AliasRuns.dfy` | network aliases in batches of creates, updates, recreates and deletes, and over runs of such batches |
| `Volumes.dfy` | reconciling volumes with the container engine |
| `JobSlots.dfy` | jobs, slots and the guards of the service |
| `NestedMaps.dfy`, `RepoIndex.dfy`, `RepoRefresh.dfy`, `RepoQueries.dfy` | the index of all module variants, which repositories get into it, and what is asked of it |

How it is modelled:

- The database, the container engine, the file system and every other call to the outside may fail
  at every single step. `Environment.Fails` decides that, and `reliable` is the assumption that it never does;
  clauses that say when an operation succeeds use it, all others hold under any failures. Where an operation
  goes on or cleans up after a failure, the calls that failed are recorded, and clauses say what holds
  unless a certain call failed, or that no more is left than calls failed.
- A table is a map, a transaction is one step. A failed copy, pull or removal may have done part of its work.
- Ranging over a Go map is a loop that picks any element of what is left.
- Goroutines are modelled as step relations whose steps are the critical sections of the code; methods
  that run under one lock are methods. The goroutine of a modules change reads the pending request
  without the lock; each of these reads is one atomic step.
- UUIDs are fresh numbers; names that are hashes of ids and references are injective.
- A record that is only read is a value; what the code updates in place is a field of a class, and the
  maps that recursions fill are fields as well.

## Where the code departs from what one would expect

The model follows the code. These departures are carried as exact conditions or counterexamples:

- A modfile that cannot be read makes a module without dependencies, not an error, so the modules it
  depends on can be missing in a successful result (`InstalledClosure.ExactIffNothingHidden`,
  `InstalledClosure.UnreadModfileHidesDependency`).
- The second pass of the selection does not revisit modules the first pass took from the main channel
  (`ModuleSelection.ClosedIffGapsFilled`, `ModuleSelection.SecondPassDoesNotRevisitExample`).
- It visits the requested modules in the order of a Go map, which decides the source of an id that two
  of them reach, and even whether it succeeds (`SelectionOrder.OrderIndependentIff`,
  `SelectionOrder.OrderDecidesVersion`, `SelectionOrder.OrdersAgreeIff`, `SelectionOrder.OrderDecidesSuccess`).
- A change request that changes nothing leaves an older pending one in place
  (`ChangeService.Service.CreateModulesChangeRequest`).
- A request that is under way can be cancelled, cleared by a refresh or replaced by an update-all; what
  was not read by then is not carried out (`ChangeRuns.CarriedOutIffUndisturbed`,
  `ChangeRuns.CancelledAfterRemoves`). An update-all that assigns its plan during an execution is forgotten at
  its end; one that has read the modules by then and assigns afterwards leaves a plan for modules that may
  have changed (`StalePlans.FreshIffNothingLate`, `StalePlans.LateUpdate`).
- A failed copy leaves its new directory behind, a failed pull the images pulled so far; a module whose
  directory has no readable modfile and that is not cached cannot be deleted (`ModuleStore.Handler`).
- Deleting or updating a module removes its images even if another installed module uses them
  (`ModuleImages.RunKeepsImagesIff`, `ModuleImages.SharedImageIsLost`). A delete that fails after the images
  went leaves the module installed without them (`ModuleImages.FailedDeleteLosesImages`).
- An enabled deployment without containers gets a job at every tick, and a disabled one that runs
  with an unhealthy container is not stopped (`DeploymentMonitor.NextTickLaunches`,
  `DeploymentMonitor.DisabledConverges`, `DeploymentMonitor.UnhealthyKeepsRunning`).
- Negative floats with a fraction are accepted as integers (`ConfigValues.OnlyPositiveFractionsAreRefused`).
- A stored empty list makes every query that includes it fail (`ConfigReading.ReadDeploymentsConfigs`).
- The secrets filter names a column that the table does not have (`FilterCompiler.GenDeploymentsSecretsFilter`).
- An empty list of deleted ids deletes every row: all auxiliary deployments of all deployments, or all
  volume rows of a deployment. Deleting a deployment that has no auxiliary deployments is enough
  (`AuxDelete.NothingDeletedDeletesAll`, `AuxDelete.NoVolumeDeletedDeletesAll`,
  `DeploymentDelete.OthersKeepTheirs`, `DeploymentDelete.OthersLoseTheirs`).
- A container that asks for a module that is not deployed keeps an alias that no later create of this
  module has: after a create that failed, and after a delete (`AliasRuns.CreateKeepsSoundIff`,
  `AliasRuns.TargetCreatedAgain`). A recreate changes no alias rows, so a container that it makes with an
  alias generated for a row without one asks for an alias that is never saved
  (`AliasRuns.RecreatedWithoutAlias`); and a service that one update drops and another one brings back has a
  generated alias, whatever it had before (`AliasRuns.DroppedAndBroughtBack`).
- A job that called Done twice would free the slot of another job (`JobSlots.Handler.Done`,
  `JobSlots.DoneTwice`); the cleanup forgets running jobs, since their zero end time is infinitely old
  (`JobSlots.Handler.Cleanup`).
- `Init` never records priorities (`RepoRefresh.InitKeepsPriorities`, `RepoRefresh.InitAcceptsEqualPriorities`).
- Of two source filters for one source, one without channels is lost (`RepoQueries.MergedFilterIsStricter`,
  `RepoQueries.WholeSourceIsLost`).

## Model

| member | source | states |
|---|---|---|
| InstalledClosure.GetModules | pkg/components/handler/modules/handler.go:58-74 | with dependencies and at least one id, whatever comes back is as the store has it, up to modfiles that could not be read just then, and is reachable through the modules whose modfiles could be read; without failures it is exactly the installed modules reachable from the ids, for every graph and map order; otherwise what the id filter selects; at most 2n + 1 queries; it fails only if a query failed |
| InstalledClosure.CollectedIsReached | pkg/components/handler/modules/handler.go:293-360 | with any failures: the result is exactly what can be reached from the ids through the modules that were read with their modfiles at least once |
| InstalledClosure.ExactIffNothingHidden | pkg/components/handler/modules/handler.go:293-360 | it is the whole closure if and only if no unread modfile hides anything: every installed module that one of them depends on is reached through others that were read; so it is if all were read |
| InstalledClosure.UnreadModfileHidesDependency | pkg/components/handler/modules/handler.go:349-355 | a concrete store: one module comes back without its modfile, so the module it depends on is missing in a successful result |
| InstalledClosure.GetModulesWithDependencies | pkg/components/handler/modules/handler.go:293-325 | the recursion terminates by `Measure`, keeps what was collected, and on success collects what the batch reaches through the modfiles that it saw |
| InstalledClosure.ReadRound | pkg/components/handler/modules/handler.go:293-320 | one query on the module store, and what it collects |
| InstalledClosure.Collect | pkg/components/handler/modules/handler.go:299-320 | one round: adds the modules read, and every dependency of them is collected or in the next batch, which holds nothing that was collected before the round |
| InstalledClosure.RoundsCompose | pkg/components/handler/modules/handler.go:293-325 | one round and a correct rest of the recursion make a correct whole: the recursion invariant gives closedness, and reachability through what was read |
| InstalledClosure.MeasureDecreases | pkg/components/handler/modules/handler.go:305-319 | 2·(installed, not collected) + (1 if the batch meets the collected set) strictly decreases from call to call, although a batch may ask again for modules of the same round |
| InstalledClosure.QueriesAreLinear | pkg/components/handler/modules/handler.go:293-325 | the depth of the recursion is at most 2n + 1 for n installed modules |
| InstalledClosure.ClosedHoldsReachable | pkg/components/handler/modules/handler.go:293-325 | a closed collection that holds the installed roots holds everything reachable |
| RepoDependencies.Repositories.AddRepoModDepsToMap | pkg/service/repository.go:258-292 | at a fixed source and channel: terminates on cyclic graphs; whatever fails, only reachable variants are added and old entries stay; on success every dependency of the root and of every new entry is there (or not found, if that may be skipped); without failures it succeeds if and only if no id that must be looked up is unusable |
| RepoDependencies.Repositories.AddDependency | pkg/service/repository.go:266-289 | the same for one dependency, with the entry that is visited but not finished during the descent |
| RepoDependencies.ExtendsExactly | pkg/service/repository.go:258-292 | the walk adds exactly the ids reachable from the roots around the old entries, so the result does not depend on the map order |
| RepoDependencies.WalkIsDetermined | pkg/service/repository.go:258-292 | two finished walks from the same entries have the same result |
| RepoDependencies.ExtendsUnblocked | pkg/service/repository.go:270-281 | a walk that succeeded met no unusable id: the other half of the success condition |
| RepoDependencies.DescentExtends | pkg/service/repository.go:282-287 | a finished descent settles the entry it was started for |
| RepoDependencies.ExtendsCompose | pkg/service/repository.go:265-290 | walks for parts of the roots, one after the other on the same map, are a walk for all |
| RepoDependencies.BlockedPart | pkg/service/repository.go:270-281 | an unusable id met from some of the roots, around more entries, is one for all roots |
| ModuleSelection.SelectByPriority | pkg/service/repository.go:394-405 | the last of the elements with the highest priority, or the zero value of an empty list |
| ModuleSelection.Selector.RequestedVariants | pkg/service/repository.go:190-222 | for every id the first item that asks for it decides; update items take source and channel from the installed module and nothing if the version stays; fails exactly if an item asks for a variant that is not available |
| ModuleSelection.RequestedOfItem | pkg/service/repository.go:190-222 | for a module that one item is about: an item that installs gets the variant of its own source and channel, whatever is installed; an item that updates gets that of the installed source and channel, if and only if it has another version; a removal, or an update of what is not installed, gets none |
| ModuleSelection.RequestedIsMentioned | pkg/service/repository.go:190-222 | nothing is requested for a module that no item is about |
| ModuleSelection.UnavailableIff | pkg/service/repository.go:190-222 | an item cannot be met exactly if it installs what its own place lacks, or updates an installed module that the installed place lacks |
| ModuleSelection.FirstChoicesAreUnique | pkg/service/repository.go:190-222 | the items determine the requested variants |
| ModuleSelection.Selector.FirstPass | pkg/service/repository.go:236-242 | dependencies of all requested modules from the main channel, skipping what it does not have |
| ModuleSelection.FirstPassIsUnique | pkg/service/repository.go:236-242 | the requested variants and the main channel determine the result of the first pass, in whatever order the modules are visited |
| ModuleSelection.Selector.SecondPass | pkg/service/repository.go:243-248 | the modules are visited in some order, and that order decides both the result, which is `PassIn` of it, and whether the pass fails |
| ModuleSelection.Selector.SelectRepoModules | pkg/service/repository.go:188-256 | the result is a selection made in some order of the second pass; without external failures it fails only if an item asks for a variant that is not available or a pass meets an unusable id |
| ModuleSelection.Selector.SelectionFollowsItem | pkg/service/repository.go:188-256 | in every selection an item that installs shows with the variant of its own place, and one that updates with that of the installed place if it has another version |
| ModuleSelection.BothPassesSelect | pkg/service/repository.go:188-256 | a selection made in some order lets requested variants win over dependencies and holds every dependency of a requested module; the rest is exactly accounted for by the two passes |
| ModuleSelection.Selector.SelectedMeansSelectable | pkg/service/repository.go:188-256 | the converse of the failure clause: a selection shows that every item is available, that the first pass is not blocked, and that no requested modules hold each other up; that nothing at all stood in the way it shows if and only if every order of the second pass would have succeeded, as it does with modules that neither compete nor help each other out |
| ModuleSelection.Selector.SelectableIff | pkg/service/repository.go:225-256 | after the first pass there is a selection only if no requested modules hold each other up, and where no two of them compete for an id, if and only if |
| ModuleSelection.ClosedIffGapsFilled | pkg/service/repository.go:225-256 | the selection is dependency-closed if and only if every dependency that the main channel demands of its own modules but does not offer is selected for another reason |
| ModuleSelection.ClosedMainGivesClosed | pkg/service/repository.go:225-256 | it is closed if the main channel offers what its own modules depend on |
| ModuleSelection.MissingIsMainGap | pkg/service/repository.go:225-256 | the only missing ids are dependencies of first-pass modules that the main channel lacks |
| ModuleSelection.MainGapIsSelected | pkg/service/repository.go:225-256 | each such module is selected, so each such gap is one of the selection |
| ModuleSelection.SecondPassDoesNotRevisit | pkg/service/repository.go:267 | the second pass does not look behind what the first one selected, even where the channel of the requested module has what is missing |
| ModuleSelection.SecondPassDoesNotRevisitExample | pkg/service/repository.go:267 | a concrete catalog and its selection, which is not dependency-closed although the channel of the requested module offers what is missing |
| SelectionOrder.OrderIndependentIff | pkg/service/repository.go:243-248 | for every catalog: the second pass has the same result in every order if and only if no id is within reach of two requested modules of different source or channel |
| SelectionOrder.ConflictShows | pkg/service/repository.go:243-248 | an id that two requested modules compete for comes from the one that is visited first, so two orders give two variants |
| SelectionOrder.EveryOrderSucceedsIff | pkg/service/repository.go:243-292 | the pass succeeds in every order if and only if no requested module is blocked when it comes first |
| SelectionOrder.EveryOrderFailsIff | pkg/service/repository.go:243-292 | every order fails if some requested modules hold each other up: each lacks something even around all that the others reach; and without competition only then |
| SelectionOrder.OrdersAgreeIff | pkg/service/repository.go:243-292 | all orders agree on success if and only if no module is blocked when it comes first or every order fails; without competition: or some modules hold each other up |
| SelectionOrder.SuccessIsOrderIndependent | pkg/service/repository.go:243-292 | if no modules compete and none brings in what another one lacks in its own channel, every order succeeds if no module is blocked when it comes first, and every order fails otherwise |
| SelectionOrder.SelectionOrder | pkg/service/repository.go:243-256 | the final selection, in which requested variants replace what the pass found, is the same for every order if each other id that a module reaches has a way to it that is free of what the other channels reach; for requested modules of two channels if and only if; competition for an id that is not requested always shows |
| SelectionOrder.OrderDecidesVersion | pkg/service/repository.go:243-248 | two modules of two sources that both offer x in different versions: every order succeeds, and the order decides the version of x |
| SelectionOrder.OrderDecidesSuccess | pkg/service/repository.go:243-281 | x unreadable in the first source: the pass fails or succeeds depending on which module is visited first |
| SelectionOrder.RequestedConflictNeedNotShow | pkg/service/repository.go:249-256 | competition for a requested id does not show in the final selection |
| SelectionOrder.CompetitionThwarts | pkg/service/repository.go:243-292 | a concrete catalog with competition: every order fails although no modules hold each other up |
| ChangePlan.ValidateReqItems | pkg/service/module.go:319-336 | succeeds if and only if no item is malformed and no two different items share an id; the result has each item once, in order |
| ChangePlan.ValidatedIdsAreDistinct | pkg/service/module.go:319-336 | after validation every module id occurs once |
| ChangePlan.NewModulesChangeRequest | pkg/service/module.go:338-384 | installs are the selected modules that are not installed, changes those installed differently, removes the installed unselected ones of the list; each exactly once |
| ChangePlan.PlanItemsAre | pkg/service/module.go:338-391 | a plan installs exactly what is selected and not installed, changes what is installed from another source or channel or in another version, and removes what is to be removed, installed and not selected |
| PlanExecution.PlanIsDisjoint | pkg/service/module.go:338-384 | no module occurs twice in install, change and remove together |
| PlanExecution.PlanIsComplete | pkg/service/module.go:338-384 | nothing that has to be installed, changed or removed is missing from the plan |
| PlanExecution.StepsAreSound | pkg/service/module.go:338-384 | every step of the plan is about a module that needs that step |
| PlanExecution.Executor.ExecModulesChangeRequest | pkg/service/module.go:247-317 | with any failures, on the module store: the installed modules go through one state per plan item, in the order remove, install, change, each item succeeding or failing exactly as deleting, adding or updating a module of the store does, and the report lists the successful and the failed ones; no more possible steps fail than there are steps in which a call failed |
| PlanExecution.Executor.RemoveUnlessDeployed | pkg/service/module.go:257-273 | the delete of the store, unless the module is deployed |
| PlanExecution.PossibleFromTheStart | pkg/service/module.go:247-317 | without external failures a step succeeds if and only if it was possible before the first step |
| PlanExecution.ReportPartitionsPlan | pkg/service/module.go:247-317 | success and failed together contain each plan item exactly once |
| PlanExecution.ItemsOfPlan | pkg/service/module.go:247-317 | these are a removal for each id to be removed, an installation for each module to be installed and a change for each module to be changed |
| PlanExecution.DeployedModulesStay | pkg/service/module.go:257-273 | whatever fails, a deployed module stays installed, and only a change of its own touches it |
| PlanExecution.RunByTarget | pkg/service/module.go:247-317 | every module ends up as its own plan item left it, whatever failed, and all others are left alone |
| PlanExecution.ReliableStepsSucceed | pkg/service/module.go:247-317 | without external failures every step succeeds if and only if nothing that is to go is deployed or has lost its modfile, everything to be replaced still has its modfile, and every file system holds the module it is for |
| PlanExecution.ExecutionGivesWanted | pkg/service/module.go:247-391 | the modules are exactly as wanted afterwards if and only if every step succeeded and copied the version that was selected; wanted means that every selected module has its selected source, channel and version, the planned ids are gone and the rest is as before |
| PlanExecution.ReliableExecutionGivesWanted | pkg/service/module.go:247-391 | the same as a condition on the start: the plan is feasible and every file system still holds the selected version |
| ChangePlan.ReplanningIsEmpty | pkg/service/module.go:338-391 | and planning the same request again gives an empty plan |
| ChangeService.Service.CreateModulesChangeRequest | pkg/service/module.go:100-133 | refused while a module or repository job runs; otherwise the request answers the items with a plan for the modules as far as they could be read; a request that changes nothing leaves an earlier one pending; the plan removes exactly the installed modules that an item removes and that are not selected |
| ChangeService.RemovalIdsAre | pkg/service/module.go:122-127 | the ids collected for removal are those of the items that remove |
| ChangeService.PlanRemoves | pkg/service/module.go:122-133 | hence the plan removes what such an item names, is installed and is not selected, and nothing else |
| ChangeService.ReadingSees | pkg/components/handler/modules/handler.go:327-370 | what a read of the store gives to planning is what is installed, except for modfiles that could not be read |
| ChangeService.Service.ExecModulesChangeRequest | pkg/service/module.go:135-176 | without interference: refused while any slot is taken or nothing is pending; otherwise the pending request is carried out and forgotten and the report accounts for every item; deployed modules stay; without external failures nothing fails if and only if the plan is feasible, and the modules are as wanted if and only if besides the file systems hold the selected versions |
| ChangeService.Service.CancelModulesChangeRequest | pkg/service/module.go:178-186 | nothing is pending afterwards, and it is told whether something was |
| ChangeRuns.CarriedOutIffReadsAreGood | pkg/service/module.go:247-298 | in every run of the execution step by step, with cancels, refreshes, updates of all in their two steps and new requests in between: the plan is carried out completely if and only if at each of its three reads a request with the list of the plan is pending |
| ChangeRuns.CarriedOutIffUndisturbed | pkg/service/module.go:178-298 | it is carried out if and only if no cancel, refresh or assignment by an update-all falls between the start and the last read, given that an update-all that does plans something else for the next list |
| ChangeRuns.UndisturbedExecutionFulfils | pkg/service/module.go:135-317 | undisturbed, the interleaved execution fulfils its request exactly as the one that runs alone |
| ChangeRuns.CancelledAfterRemoves | pkg/service/module.go:178-298 | a concrete run: cancelled after the removes, the execution panics at its next read and installs nothing |
| ChangeRuns.SamePlanIsHarmless | pkg/service/module.go:198-209 | a concrete run: an update-all that plans the same as what is under way disturbs nothing |
| StalePlans.FreshIffNothingLate | pkg/service/module.go:198-250 | in every run whose pending request is a plan for the modules of now at its start: it is one whenever nothing is being carried out if no update-all assigns late, and without external failures only then; late is an assignment when nothing is being carried out and the modules are no longer those that were read |
| StalePlans.LateReadsDuringExecution | pkg/service/module.go:198-250 | a late update-all read the modules while an execution was under way, and assigns after its end |
| StalePlans.LateUpdate | pkg/service/module.go:198-250 | a concrete run: what is pending in the end was planned for a module that is gone |
| ChangeService.SelectionIsFiledById | pkg/service/repository.go:188-256 | an index that files variants under the id of their modfile gives a selection that is filed by id, which planning relies on |
| ModuleStore.Handler.AddModule | pkg/components/handler/modules/handler.go:96-171 | with any failures: a failed add changes neither rows nor cache nor any existing directory and loses no image; a successful one adds exactly the row, the directory, the cache entry and the images; without failures it succeeds if and only if the module is new and the directory has its modfile; after a failure the directories are as before unless a copy or the removal of a directory failed, and the images unless a check, a pull or the removal of an image failed, so both are if only the row could not be written |
| ModuleStore.Handler.UpdateModule | pkg/components/handler/modules/handler.go:173-251 | the same for updates; afterwards all images of the new version are there, old ones only if the new version or nobody removed them, and the old directory is gone unless its removal failed; after a failure directories and images are as before under the same conditions |
| ModuleStore.Handler.DeleteModule | pkg/components/handler/modules/handler.go:253-291 | exactly the row, cache entry, directory and own images go; without failures it fails if and only if the module is not cached and its directory has no readable modfile; the directory is not touched before all images are gone |
| ModuleStore.Handler.GetModules | pkg/components/handler/modules/handler.go:327-370 | reading returns every selected row with its modfile, unless reading a modfile failed, and changes nothing but the cache, which only grows and stays right; it fails only if the rows cannot be read |
| ModuleStore.Handler.PullImages | pkg/components/handler/modules/handler.go:391-414 | only wanted images are added, the result lists those that were not there, and on success all are there; one that cannot be pulled does not keep the others from being pulled |
| ModuleStore.Handler.RemoveImages | pkg/components/handler/modules/handler.go:431-446 | no other image is removed, and every unwanted one is gone unless its own removal failed |
| ModuleStore.Handler.RemoveOldImages | pkg/components/handler/modules/handler.go:448-465 | old images go unless the new version uses them |
| ModuleStore.Handler.Install | pkg/components/handler/modules/handler.go:109-171 | what adding and updating share: all or nothing for rows, cache and existing directories; a failure is cleaned up unless the calls for that failed |
| ModuleStore.Handler.Stage | pkg/components/handler/modules/handler.go:117-151 | copy, read back, compare ids, pull images: touches nothing but the new directory and images; after a failed pull the new directory is gone unless its removal failed |
| ModuleStore.Handler.Rollback | pkg/components/handler/modules/handler.go:131-164 | the new directory is gone unless its removal failed, the newly pulled images are unless the removal of one failed, and nothing else is touched |
| ModuleImages.Apply | pkg/components/handler/modules/handler.go:96-291 | adding, updating and deleting on the store are the steps of the runs below: what they may do whatever fails, and what they do without external failures |
| ModuleImages.StepKeepsImagesIff | pkg/components/handler/modules/handler.go:253-291 | without external failures: one step keeps all images of all installed modules if and only if it removes none that another one uses |
| ModuleImages.RunKeepsImagesIff | pkg/components/handler/modules/handler.go:96-291 | without external failures: along a run of adds, updates and deletes every installed module keeps all its images if and only if no step takes one that another module uses at that time |
| ModuleImages.KeepsImagesWhateverFailsIff | pkg/components/handler/modules/handler.go:96-291 | whatever fails: one step surely keeps all images if and only if it is harmless: an add, an update that takes nothing from others, or a delete of a module without images |
| ModuleImages.RunKeepsImagesWhateverFails | pkg/components/handler/modules/handler.go:96-291 | over runs with any failures: every installed module surely keeps all its images if and only if no run comes to a step that is not harmless |
| ModuleImages.FailedDeleteLosesImages | pkg/components/handler/modules/handler.go:253-291 | a delete that fails after the images went: the module is still installed and lacks its own |
| ModuleImages.SharedImageIsLost | pkg/components/handler/modules/handler.go:253-291 | two modules with one image: deleting the first takes the image from the second |
| RuntimeMonitor.NoUnitHasTwoJobs | pkg/components/handler/deployments/runtime_monitor.go:45-72 | in every interleaving of ticks, jobs, engine calls and outside changes no unit has two jobs, and the guarded set is exactly the ids of running jobs and the one being launched |
| RuntimeMonitor.InvIsInductive | pkg/components/handler/deployments/runtime_monitor.go:212-235 | each step keeps that, although filtering and adding are separate critical sections |
| RuntimeMonitor.RoundCompletes | pkg/components/handler/deployments/runtime_monitor.go:45-72 | for any decision: however the check loop of one tick, its jobs and engine calls interleave, every container ends where one decision per unit on the state at the start puts it (for any number of ticks: `MonitorRuns.TicksSettle`) |
| RuntimeMonitor.RoundInvIsInductive | pkg/components/handler/aux_deployments/runtime_monitor.go:45-95 | the invariant of a round that is under way, kept by each step |
| MonitorRuns.TicksSettle | pkg/components/handler/aux_deployments/runtime_monitor.go:45-95 | over runs with any number of ticks, each reading engine data while jobs of earlier ticks still run and filtering after they may have ended: once a tick has ended and no job is left, every unit is where its first decision puts it |
| MonitorRuns.RunInvIsInductive | pkg/components/handler/deployments/runtime_monitor.go:45-72 | the invariant of such runs, kept by each step |
| DeploymentMonitor.GetContainersCombinedState | pkg/components/handler/deployments/list.go:328-356 | counting running and unhealthy containers gives the combined state |
| DeploymentMonitor.CombinedStateMeans | pkg/components/handler/deployments/list.go:328-356 | what each combined state says of the containers: broken that one is missing, stopped that none runs, partial that some run and some do not, unhealthy or running that all run and one is unhealthy or none is |
| DeploymentMonitor.DecisionIs | pkg/components/handler/deployments/runtime_monitor.go:45-72 | there is a job exactly if all containers exist and, for an enabled deployment, one does not run or there is none, for a disabled one, one runs, unless all do and one is unhealthy; it starts all or stops all |
| DeploymentMonitor.CountingIsEnough | pkg/components/handler/deployments/list.go:328-356 | as many running containers as containers means all of them |
| DeploymentMonitor.Monitor.RuntimeMonitorJobsFilter | pkg/components/handler/deployments/runtime_monitor.go:212-223 | the deployments that are not in flight |
| DeploymentMonitor.Monitor.CheckDeployments | pkg/components/handler/deployments/runtime_monitor.go:45-72 | a tick launches exactly the jobs decided on, for exactly the deployments that are not in flight, and adds their ids |
| DeploymentMonitor.EnabledConverges | pkg/components/handler/deployments/runtime_monitor.go:45-72 | after a round all containers of an enabled deployment run if and only if all existed; its combined state is running if and only if, besides, there is one and none is unhealthy |
| DeploymentMonitor.DisabledConverges | pkg/components/handler/deployments/runtime_monitor.go:45-72 | no container of a disabled deployment runs afterwards if and only if none ran before, or all existed and they were not all running with one of them unhealthy |
| DeploymentMonitor.UnhealthyKeepsRunning | pkg/components/handler/deployments/runtime_monitor.go:45-72 | a disabled deployment that is not stopped: its only container runs and is unhealthy |
| DeploymentMonitor.NextTickLaunches | pkg/components/handler/deployments/runtime_monitor.go:45-72 | the next tick launches a job if and only if the deployment is enabled and has no container, which repeats at every tick |
| DeploymentMonitor.OneRoundSettles | pkg/components/handler/deployments/runtime_monitor.go:45-153 | over runs: a tick and the completion of its jobs carry out exactly the decision for each deployment |
| DeploymentMonitor.ManyTicksSettle | pkg/components/handler/deployments/runtime_monitor.go:45-153 | over runs with any number of overlapping ticks: every deployment ends where the first decision about it puts it |
| DeploymentMonitor.ManyTicksConverge | pkg/components/handler/deployments/runtime_monitor.go:45-153 | over runs with any number of overlapping ticks, whatever the containers are: all containers of an enabled deployment run in the end if and only if all existed, and none of a disabled one does if and only if none did before, or all existed and they were not all running with one unhealthy |
| DeploymentMonitor.SoundSystemConverges | pkg/components/handler/deployments/runtime_monitor.go:45-72 | with sound containers, after any run of ticks every container of an enabled deployment runs and none of a disabled one does, and the next tick finds nothing to do |
| AuxMonitor.GetContainerState | pkg/components/handler/aux_deployments/runtime_monitor.go:174-190 | which states count as up, as down and as neither |
| AuxMonitor.CheckParent | pkg/components/handler/aux_deployments/runtime_monitor.go:57-95 | the start and stop lists of a parent are exactly the containers that are down but meant to be up, and the other way round |
| AuxMonitor.StartAndStopAreDisjoint | pkg/components/handler/aux_deployments/runtime_monitor.go:57-95 | no container is in both lists, not even one shared by two auxiliary deployments |
| AuxMonitor.OneRoundSettles | pkg/components/handler/aux_deployments/runtime_monitor.go:45-99 | over runs: afterwards every existing container in a known state is up exactly if parent and auxiliary deployment are enabled, and the next tick leaves the parent alone |
| AuxMonitor.ManyTicksSettle | pkg/components/handler/aux_deployments/runtime_monitor.go:45-99 | the same over runs with any number of overlapping ticks |
| ConfigValues.EqualMeansSameNormalForm | pkg/components/helper/configs/configs.go:33-63 | equality compares exactly what data type and slice flag make count |
| ConfigValues.GetValue | pkg/components/helper/configs/configs.go:65-142 | succeeds if and only if every element converts to the data type, and gives the converted elements in order |
| ConfigValues.ConvertsIff | pkg/components/helper/configs/configs.go:65-142 | what can be converted at all: a string to a string, a boolean to a boolean, a float to a float, and to an integer an integer or a float that is not refused |
| ConfigValues.OnlyPositiveFractionsAreRefused | pkg/components/helper/configs/configs.go:296-302 | a float is refused as an integer if and only if it is positive and has a fraction; a negative one loses its fraction |
| ConfigRows.Database.CreateUserConfigs | pkg/components/handler/database/deployments_create.go:125-142 | the rows in the two tables encode exactly the stored and the new configs; it succeeds without failures if and only if ids are new and every value has a column; a failure stores nothing |
| ConfigRows.Database.UpdateUserConfigs | pkg/components/handler/database/deployments_update.go:62-119 | the delete and insert of an update in one transaction: the configs of the deployment are replaced, or nothing changes |
| ConfigRows.Database.CreateConfigValues | pkg/components/handler/database/configs.go:66-126 | one row per element, in order, in the column of the type |
| ConfigRows.CellHasOneColumn | pkg/components/handler/database/configs.go:66-126 | in such a row exactly the column of the type has a value |
| ConfigRows.ConfigIdsAreInjective | pkg/components/handler/deployments/configs.go:191-196 | ids made of a deployment id of fixed length and a reference are distinct for distinct pairs |
| ConfigReading.ReadDeploymentsConfigs | pkg/components/handler/database/deployments_read.go:259-320 | folding the joined rows gives back exactly the stored configs of the selected deployments, lists in order; it fails if and only if one of them is an empty list |
| ConfigReading.RowsComeInOrder | pkg/components/handler/database/configs.go:30-64 | ordered by is_list, id and ord, each row continues its config at its next element, none missing |
| ConfigReading.EverySelectedIsComplete | pkg/components/handler/database/configs.go:30-64 | at the end every selected config was read completely |
| ConfigReading.FoldIsComplete | pkg/components/handler/database/deployments_read.go:259-320 | a fold over all rows that met no empty list has every selected config as it was stored |
| SparseData.GetDefaultConfigs | pkg/components/handler/deployments/configs.go:131-153 | the decoded defaults, or an error if one cannot be decoded |
| SparseData.GetProvidedConfigs | pkg/components/handler/deployments/configs.go:175-199 | the declared inputs that differ from the defaults |
| SparseData.ProvidedAre | pkg/components/handler/deployments/configs.go:175-199 | an input is stored if and only if it is declared and not equal to the default |
| SparseData.MergeConfigs | pkg/components/handler/deployments/configs.go:86-100 | user configs override defaults, globals override both |
| SparseData.CheckConfigs | pkg/components/handler/deployments/configs.go:69-84 | succeeds if and only if every required config has a value |
| SparseData.SparseConfigsLoseNothing | pkg/components/handler/deployments/configs.go:86-199 | merging with only the stored differences has the same keys as, and equal values to, overriding the defaults with all declared inputs and then the globals |
| SparseData.SparseCanonicalConfigs | pkg/components/handler/deployments/configs.go:86-199 | for values as they are decoded the two are the same |
| SparseData.GetDefaultFiles | pkg/components/handler/deployments/files.go:33-41 | the files with default data |
| SparseData.GetProvidedFiles | pkg/components/handler/deployments/files.go:43-66 | the declared, non-empty files that differ from the defaults |
| SparseData.MergeFiles | pkg/components/handler/deployments/files.go:68-78 | user files override defaults |
| SparseData.CheckFiles | pkg/components/handler/deployments/files.go:80-95 | succeeds if and only if every required file is there |
| SparseData.SparseFilesLoseNothing | pkg/components/handler/deployments/files.go:43-78 | storing the differences gives the same files as overriding with all non-empty declared ones |
| SparseData.UpdateGlobalConfigsCache | pkg/components/handler/deployments/configs.go:33-67 | the cache holds nothing but stored configs; it succeeds without failures if and only if all selected ones are stored |
| SparseData.GetGlobalConfigs | pkg/components/handler/deployments/configs.go:102-129 | the cached selected configs of declared references, or an error if one is not valid for its config |
| SparseData.GlobalsAreTheStoredOnes | pkg/components/handler/deployments/configs.go:33-129 | with an up-to-date cache these are exactly the stored ones, for every declared and selected reference |
| SparseData.MergeDefaultAndUserData | pkg/components/handler/deployments/recreate.go:435-453 | succeeds if and only if every required config and file has a value, and gives the merged data |
| StoredData.StorableIffWritable | pkg/components/handler/deployments/configs.go:175-196 | storing the configs of a deployment succeeds if and only if each value has a column; the ids made of deployment and reference never collide |
| StoredData.WriteStores | pkg/components/handler/database/deployments_create.go:125-142 | after the inserts, in whatever order, the rows of the deployment are those of its configs and the rows of all others are as before |
| StoredData.Store.WriteUserData | pkg/components/handler/database/deployments_update.go:62-119 | configs and files of a create or update: all or nothing, the rows of the deployment are exactly those given and no other row changes |
| StoredData.Store.DeleteDeployment | pkg/components/handler/database/deployments_delete.go:26-41 | exactly the rows of the deployment go |
| StoredData.DeletedIsGone | pkg/components/handler/database/deployments_delete.go:26-41 | after that the deployment has neither configs nor files, and the rows of all others are as before |
| StoredData.ReadDeploymentsFiles | pkg/components/handler/database/deployments_read.go:374-400 | the fold over the file rows, in any order, gives each selected deployment the files that are stored for it |
| StoredData.ConfigsComeBack | pkg/components/handler/database/deployments_read.go:259-320 | what is read for a deployment is what was written for it |
| StoredData.RunKeepsRows | pkg/components/handler/database/deployments_update.go:62-119 | after a create or update of a deployment, its rows stay as written through any creates, updates and deletes of other deployments and any failed ones of its own |
| StoredData.RecreateMergesTheSame | pkg/components/handler/deployments/recreate.go:163-169 | whatever was attempted since its last successful create or update, failed attempts on the deployment itself included, recreating it from its rows merges to the same configs and files |
| SparseData.EmptyListsAreStoredWithoutRows | pkg/components/handler/deployments/configs.go:175-199 | the exception: a config without value rows is stored if and only if a declared input is an empty list that is not the default |
| Slices.RemoveDuplicates | pkg/components/helper/slices/slices.go:59-72 | the elements at their first occurrence |
| Slices.UniqueElements | pkg/components/helper/slices/slices.go:59-72 | nothing is lost, added or left twice |
| Slices.UniqueOrder | pkg/components/helper/slices/slices.go:59-72 | the order of first occurrences is kept |
| FilterCompiler.GenAuxiliaryDeploymentsFilter | pkg/components/handler/database/aux_deployments_read.go:370-422 | for every filter the written clause with its arguments selects exactly the auxiliary deployments that match it; as many question marks as arguments; only existing columns |
| FilterCompiler.ChainMeansAllLabels | pkg/components/handler/database/aux_deployments_read.go:377-390 | the query that is read from the sub-selects yields an id if and only if all wanted labels with their values are there, in whatever order the map is ranged over |
| FilterCompiler.LabelChain | pkg/components/handler/database/aux_deployments_read.go:378-389 | one sub-select per label, with its two arguments at its place |
| FilterCompiler.ChainText | pkg/components/handler/database/aux_deployments_read.go:378-389 | what is written for n labels reads as the query that compares name and value in each sub-select and joins each to the one before by the id |
| FilterCompiler.LabelQueryIsLegal | pkg/components/handler/database/aux_deployments_read.go:378-389 | that query names only aliases, columns and tables that there are |
| FilterCompiler.AddIn | pkg/components/handler/database/aux_deployments_read.go:391-397 | an id list after removing duplicates narrows the clause to members of the list, an empty one not at all |
| FilterCompiler.AddFlag | pkg/components/handler/database/aux_deployments_read.go:398-413 | a three-valued flag narrows it to false, to true, or not at all |
| FilterCompiler.Compiled | pkg/components/handler/database/aux_deployments_read.go:418-421 | the joined text is accepted if the columns exist, and means the conjunction of its conditions |
| FilterCompiler.JoinIsConds | pkg/components/handler/database/aux_deployments_read.go:418-421 | joining the conditions gives the text of a clause with AND between any two |
| FilterCompiler.GenAuxiliaryDeploymentsIdsFilter | pkg/components/handler/database/aux_deployments_delete.go:55-61 | the ids in the list, or every row for an empty one |
| FilterCompiler.GenAuxiliaryDeploymentVolumesFilter | pkg/components/handler/database/aux_deployments_read.go:432-450 | deployment and references, each without effect if empty |
| FilterCompiler.GenDeploymentsFilter | pkg/components/handler/database/deployments_read.go:601-630 | ids, module ids and the enabled flag |
| FilterCompiler.GenModulesFilter | pkg/components/handler/database/modules.go:104-126 | ids, source and channel |
| FilterCompiler.GenDeploymentsSecretsFilter | pkg/components/handler/database/deployments_read.go:491-528 | deployment ids and flags; the database accepts the clause if and only if no secret ids are given, because the column it names for them does not exist |
| FilterText.OneReading | pkg/components/handler/database/aux_deployments_read.go:370-422 | no two clauses are written alike: the text tells columns, comparisons, lists, sub-selects and whether AND or OR is between them |
| FilterText.OneMeaning | pkg/components/handler/database/aux_deployments_read.go:370-422 | so a text has one meaning |
| SubSelects.SameQuery | pkg/components/handler/database/aux_deployments_read.go:378-389 | the text of a sub-select tells what it yields, from which table, what it compares, with which connective, and how the others are joined to it |
| FilterText.MarksOfClause | pkg/components/handler/database/handler.go:78-86 | a clause has as many question marks as its conditions take arguments |
| FilterText.MarksOfQuestionMarks | pkg/components/handler/database/handler.go:78-86 | n question marks for n |
| AuxDelete.Handler.DeleteDeployments | pkg/components/handler/aux_deployments/delete.go:27-91 | containers first, then the rows of those removed; one result for each selected one; with an empty filter only if all is allowed; if none was removed, all rows of all deployments go |
| AuxDelete.NothingDeletedDeletesAll | pkg/components/handler/database/aux_deployments_delete.go:29-61 | exactly the removed ones are deleted from the table if and only if at least one was removed or the table is empty |
| AuxDelete.Handler.DeleteRows | pkg/components/handler/database/aux_deployments_delete.go:29-61 | deletes what the generated clause selects: the rows with the ids of the list, or all rows for an empty list |
| AuxDelete.Handler.DeleteWhere | pkg/components/handler/database/aux_deployments_delete.go:31-36 | executing the statement deletes exactly the rows whose columns satisfy the text of the clause with its arguments |
| AuxDelete.EmptyFilterSelectsAll | pkg/components/handler/aux_deployments/delete.go:97-113 | what counts as an empty filter selects all of a deployment |
| AuxDelete.Handler.Select | pkg/components/handler/aux_deployments/recreate.go:255-279 | the rows that the clause generated from the filter selects, and of those the ones whose container is in the wanted state |
| AuxDelete.Handler.RemoveContainers | pkg/components/handler/aux_deployments/delete.go:57-75 | every selected one has a result, the removed ones are gone, and no other container is touched; no more are left than calls failed |
| AuxDelete.Handler.DeleteFoundVolumes | pkg/components/handler/aux_deployments/volumes.go:107-129 | volumes first, then the rows of those removed, or all rows of the deployment if none was; no more volumes are left in the engine than calls failed |
| AuxDelete.NoVolumeDeletedDeletesAll | pkg/components/handler/database/aux_deployments_delete.go:42-53 | exactly the removed ones are deleted from the table if and only if at least one was removed or there are none |
| AuxDelete.Handler.DeleteVolumeRows | pkg/components/handler/database/aux_deployments_delete.go:42-53 | deletes what the clause generated for deployment and references selects |
| AuxDelete.Handler.DeleteVolumes | pkg/components/handler/aux_deployments/volumes.go:64-81 | the volumes the references select, or nothing if there are none and not all is allowed |
| AuxDelete.Handler.DeleteUnusedVolumes | pkg/components/handler/aux_deployments/volumes.go:83-105 | in the engine only volumes go that nobody mounts and that are not excluded |
| AuxDelete.Handler.ReadVolumesWithMounts | pkg/components/handler/database/aux_deployments_read.go:229-268 | the joined rows, in any order, collected by reference |
| AuxDelete.CollectedIsExact | pkg/components/handler/database/aux_deployments_read.go:229-268 | within a deployment each entry is the volume of its reference with exactly those who mount it |
| DeploymentDelete.Service.DeleteDeployments | pkg/service/deployment.go:302-412 | with any failures: a deployment goes only if its auxiliary deployments and volumes went without any error and nothing that it had itself is left (containers, volumes, secret mounts, directories, endpoints); the report says of each whether it is gone; nothing that belongs to other deployments is lost outside the database; without failures exactly the selected ones go, the auxiliary rows left are those of `AuxRowsAfter`, and if each had some, nothing of them is left in the engine; if every volume row had its volume and the job itself did not fail, no more of the deployments are still there than calls failed |
| DeploymentDelete.Service.DeleteAllAux | pkg/service/deployment.go:347-368 | whatever the order: what is lost belongs to these deployments, and the list of deployments to delete is exactly those with a clean result; no more results are not clean than calls failed, if every volume row had its volume |
| DeploymentDelete.Service.DeleteAuxDeployments | pkg/service/deployment.go:446-464 | all auxiliary deployments and volumes of one deployment: a clean result means that nothing of it is left in the engine, and nothing of another one is lost there |
| DeploymentRemoval.Handler.DeleteByIds | pkg/components/handler/deployments/delete.go:32-84 | an empty id list deletes nothing here; whatever fails, each row goes or stays as its result says, a deployment whose row goes has nothing left outside the database, and nothing of another deployment is lost; no more deployments are left than calls failed |
| DeploymentRemoval.Handler.DeleteDeployment | pkg/components/handler/deployments/delete.go:86-116 | containers, secret mounts, directories, volumes, endpoints and at last the row, each only after the one before succeeded |
| DeploymentRemoval.Handler.RemoveContainers | pkg/components/handler/deployments/containers.go:98-113 | goes on after a failure and reports it: no more containers are left than calls failed; on success all containers of the deployment are gone, and no others |
| DeploymentRemoval.SweptOneMore | pkg/components/handler/deployments/delete.go:67-81 | what is cleared stays cleared while other deployments are deleted |
| DeploymentDelete.AuxRowsOneMore | pkg/service/deployment.go:347-368 | the rows that are left do not depend on the order of the deployments |
| DeploymentDelete.OthersKeepTheirs | pkg/service/deployment.go:302-412 | other deployments keep their auxiliary rows if and only if every deleted one has some, or there are no others |
| DeploymentDelete.OthersLoseTheirs | pkg/service/deployment.go:347-368 | deleting a deployment without auxiliary deployments loses the one of another deployment |
| Aliases.SetExternalDependencyEnvVariables | pkg/components/handler/deployments/containers.go:245-260 | a variable for every target that is in the cache, with its alias |
| Aliases.Handler.UpdateDeploymentsCache | pkg/components/handler/deployments/dependencies.go:30-75 | what is in the cache stays, what is added is what is stored; without failures it succeeds if and only if every dependency is cached or deployed |
| Aliases.Handler.InitDeploymentsCacheFromModules | pkg/components/handler/deployments/create.go:343-367 | fresh distinct ids and generated aliases for all modules of a batch |
| Aliases.Handler.CreateContainers | pkg/components/handler/deployments/containers.go:38-96 | new containers have what the cache says, others are untouched; no more services are without their container than calls failed |
| Aliases.Handler.CreateDeployment | pkg/components/handler/deployments/create.go:87-216 | with a failure at any stage: stored as generated or not at all; on success every service has its container |
| Aliases.Handler.CreateDeployments | pkg/components/handler/deployments/create.go:41-85 | for any order and mutually dependent modules, with any failures: every variable of a new container has the alias that is stored for its target in the end, unless the target is a module of the batch that was not stored; if all succeed every variable for a service of a dependency resolves exactly if there is such a service; if all dependencies are deployed or selected, no more results are bad than calls failed |
| Aliases.Handler.InitDeploymentsCacheFromModulesAndDeployments | pkg/components/handler/deployments/update.go:335-371 | the stored alias, or a generated one if there is none |
| Aliases.Handler.RenewDeployment | pkg/components/handler/deployments/update.go:101-333 | with a failure at any stage: the rows are as before or renewed, a recreate leaves them |
| Aliases.Handler.RenewDeployments | pkg/components/handler/deployments/update.go:36-99 | a batch of updates or recreates, in any order and with any failures: rows are as before or renewed, and variables have the aliases that are stored; no more renewals that were possible are missing than calls failed |
| Aliases.RetainedServicesKeepTheirAlias | pkg/components/handler/deployments/update.go:335-371 | deployment ids stay, and so does the alias of every service that stays in the module |
| Aliases.RenewalIff | pkg/components/handler/deployments/update.go:335-371 | after an update the rows are exactly the services of the module, each with the alias it had, or with the generated one if it had none |
| Aliases.GivenIsStored | pkg/components/handler/deployments/update.go:36-99 | what a container of the batch was given is what is stored in the end, whether or not the update of its target got through |
| Aliases.Handler.DeleteDeployments | pkg/components/handler/deployments/delete.go:31-82 | a batch of deletes: rows and containers of the given modules go, whatever fails no others, and each result says whether its row is gone; no more of them are left than calls failed |
| AliasRuns.RenewKeepsSound | pkg/components/handler/deployments/update.go:36-371 | updates and recreates, with any failures, keep a sound state sound |
| AliasRuns.CreateKeepsSoundIff | pkg/components/handler/deployments/create.go:41-85 | a batch create keeps it if and only if it stores no module that a container was asking for in vain |
| AliasRuns.SoundMeansValid | pkg/components/handler/deployments/containers.go:245-260 | in a sound state a variable never differs from the stored alias of its target |
| AliasRuns.RunKeepsSoundIff | pkg/components/handler/deployments/create.go:41-85 | over runs of batch creates, updates, recreates and deletes with any failures: all states are sound if and only if no create stores a module that a container was asking for in vain |
| AliasRuns.DeleteKeepsSound | pkg/components/handler/deployments/delete.go:31-82 | deletes keep a sound state sound |
| AliasRuns.BatchKeepsValidIff | pkg/components/handler/deployments/containers.go:245-260 | whatever aliases are stored, older ones included: one batch keeps every variable valid if and only if the condition of its kind does not occur: that of `RenewBreaksIff` for updates and recreates, that of `CreateBreaksIff` for creates, none for deletes |
| AliasRuns.RunKeepsValidIff | pkg/components/handler/deployments/containers.go:245-260 | over runs of all batches from any valid state: aliases stay valid all along if and only if none of these conditions occurs |
| AliasRuns.RenewBreaksIff | pkg/components/handler/deployments/update.go:335-371 | an update or recreate breaks exactly: a container that stays and asks by another alias for a service that had none and is given one, and a new container that was given an alias for a service whose row stays without one |
| AliasRuns.CreateBreaksIff | pkg/components/handler/deployments/create.go:343-367 | a create breaks exactly the surviving containers that ask for a service it stores |
| AliasRuns.DeletesNeverBreak | pkg/components/handler/deployments/delete.go:31-82 | deletes never break a variable |
| AliasRuns.TargetCreatedAgain | pkg/components/handler/deployments/create.go:343-367 | a concrete run: the target is deleted and created again, and the variable of the container that stayed is wrong |
| AliasRuns.RecreatedWithoutAlias | pkg/components/handler/deployments/recreate.go:34-99 | a concrete run: a service stored without an alias; after a recreate a container asks for one that no row has |
| AliasRuns.DroppedAndBroughtBack | pkg/components/handler/deployments/update.go:335-371 | a concrete run: one update drops a service with an older alias, another brings it back, and a container still asks for the older one |
| Volumes.UpdateVolumes | pkg/components/handler/deployments/update.go:385-404 | the name a reference has, or a generated one |
| Volumes.NewNamesDiffer | pkg/components/handler/deployments/create.go:369-379 | a new deployment has its own volume name for each of its references |
| Volumes.SharedNameIff | pkg/components/handler/deployments/update.go:385-404 | after an update two references share a name exactly if they did before, or if one had the name that is generated for the other, which had none |
| Volumes.Handler.GetContainerVolumes | pkg/components/handler/deployments/volumes.go:105-139 | the existing volumes with the label of the deployment or one of the names |
| Volumes.Handler.EnsureContainerVolumes | pkg/components/handler/deployments/volumes.go:35-69 | on success exactly the reconciled engine; whatever fails, only labelled unwanted volumes are removed and only missing wanted ones created; if the volumes could be listed, no more is left to remove or create than calls failed |
| Volumes.ReconciledMeans | pkg/components/handler/deployments/volumes.go:35-69 | that is: every wanted volume exists, the label is on wanted volumes only, and no other volume is touched |
| Volumes.Handler.CreateDeployment | pkg/components/handler/deployments/create.go:369-379 | generated names, rows first |
| Volumes.Handler.UpdateDeployment | pkg/components/handler/deployments/update.go:216-300 | kept names, rows first, then the engine |
| Volumes.Handler.RecreateDeployment | pkg/components/handler/deployments/recreate.go:230-262 | the stored names, and only the engine |
| Volumes.StepKeepsVolume | pkg/components/handler/deployments/update.go:216-300 | one create, update or recreate of any deployment, with any failure, keeps name and volume of a reference that stays |
| Volumes.RunKeepsVolume | pkg/components/handler/deployments/update.go:385-404 | over any run a reference that stays in the module keeps its name, and its volume is never removed |
| Volumes.DroppedVolumeIsRemoved | pkg/components/handler/deployments/volumes.go:46-55 | the volume of a reference that is dropped is there afterwards if and only if another reference has its name |
| JobSlots.Handler.CreateJob | pkg/components/handler/jobs/handler.go:56-74 | a new job without a slot |
| JobSlots.Handler.CreateSlotJob | pkg/components/handler/jobs/handler.go:76-103 | takes the slot if and only if it is free |
| JobSlots.Handler.CurrentSlotJobs | pkg/components/handler/jobs/handler.go:112-126 | the jobs in the listed slots, or in all |
| JobSlots.Handler.Done | pkg/components/handler/jobs/job.go:50-68 | ends the job and frees its slot number; no other job loses its slot if and only if the job is in its slot or the slot is free |
| JobSlots.DoneTwice | pkg/components/handler/jobs/job.go:50-68 | a job that is done twice, with another one in its slot in between: that one runs on without a slot |
| JobSlots.Handler.Cleanup | pkg/components/handler/jobs/handler.go:172-188 | keeps exactly the jobs that ended less than the maximal age ago, so it drops every running one |
| JobSlots.Start | pkg/service/deployment.go:73-83 | the guard of the service: a job starts only if all slots it looks at are free, and always then without failures |
| JobSlots.RefusedIff | pkg/service/deployment.go:73-83 | which running jobs keep a job from starting: one in its own slot, for a modules change any, and a modules change for creating, updating and recreating deployments |
| JobSlots.StepKeepsInv | pkg/service/module.go:135-148 | every running job owns its slot, and what the holder of the lock has checked stays true while others release |
| JobSlots.SlotsAreExclusive | pkg/components/handler/jobs/handler.go:76-103 | in every run two running jobs are in different slots, each owning its own |
| JobSlots.FinishFreesOwnSlot | pkg/components/handler/jobs/handler.go:190-203 | a job that finishes frees its own slot and no other |
| JobSlots.OverlapIff | pkg/service/deployment.go:302-318 | two kinds of jobs run together in some run if and only if their slots differ and one does not look at the slot of the other |
| JobSlots.ModulesChangeOverlaps | pkg/service/module.go:135-148 | a modules change never overlaps a create, update or recreate of deployments; a delete or a refresh it may |
| RepoRefresh.Handler.RefreshRepositories | pkg/components/handler/repositories/handler.go:65-136 | every repository has one result; accepted ones have distinct sources and priorities, every other one collides with an accepted one and is reported with an error; an accepted one tells whether the filter had it refreshed, whether that failed, in which case it is as it was, and how many of its channels and file systems cannot be read; the index is that of the accepted ones with the contents they have after their refresh; no more accepted repositories that should have been refreshed lack what their source has than calls failed |
| RepoRefresh.Handler.Init | pkg/components/handler/repositories/handler.go:36-63 | the types are taken in some order, and the first type that offers a source delivers its repository, whatever its priority; no error if and only if all can be listed and no source occurs twice |
| RepoRefresh.InitKeepsPriorities | pkg/components/handler/repositories/handler.go:39-57 | priorities are distinct in every order of the types if and only if any two repositories with the same priority keep each other out: their types differ and each offers the source of the other |
| RepoRefresh.InitAcceptsEqualPriorities | pkg/components/handler/repositories/handler.go:39-57 | two types with one repository each and the same priority: Init accepts both |
| RepoRefresh.Handler.DoRepoRefresh | pkg/components/handler/repositories/handler.go:423-428 | refreshed is what the filter names by type or source, or everything without a filter; a repository the filter does not want is as it was, a refreshed one has what its source has by now, and a failed refresh changes nothing |
| RepoRefresh.Handler.Refresh | pkg/components/handler/repositories/github/repository.go:117-163 | all channels have what the source has by now or, after a failure, none; type, priority and channels stay; directories that are not valid modules make it fail |
| RepoRefresh.Handler.UpdateLookupMap | pkg/components/handler/repositories/handler.go:299-378 | the index has an entry for id, source and channel if and only if an accepted repository has a file system in that channel with a modfile of that id; the number of errors of a source is that of channels and file systems that cannot be read |
| RepoIndex.AddFiles | pkg/components/handler/repositories/handler.go:322-371 | the same for the file systems of one channel; the last one with an id wins |
| RepoIndex.ErrorCountIs | pkg/components/handler/repositories/handler.go:299-378 | the number of errors of a source is the number of channels and file systems that cannot be read |
| RepoQueries.NewSourceFilterMap | pkg/components/handler/repositories/handler.go:396-409 | filters of the same source are merged |
| RepoQueries.FilterMeaning | pkg/components/handler/repositories/handler.go:411-421 | a merged filter lets a source through as a whole if all its filters are without channels, otherwise the named channels only |
| RepoQueries.MergedFilterIsStricter | pkg/components/handler/repositories/handler.go:396-421 | the merged filter lets through what one of the filters lets through, unless a source is listed both with and without channels |
| RepoQueries.WholeSourceIsLost | pkg/components/handler/repositories/handler.go:396-421 | a source listed as a whole and once more for one channel: its other channels are dropped |
| RepoQueries.GetModules | pkg/components/handler/repositories/handler.go:196-221 | exactly the entries that pass the filter, each once, in any order |
| RepoQueries.FilteredIsFlatFiltered | pkg/components/handler/repositories/handler.go:196-221 | filtering while listing is listing everything and filtering |
| RepoQueries.BuildRepoModsTree | pkg/service/repository.go:305-325 | a tree with the places of the list |
| RepoQueries.TreeIsIndex | pkg/service/repository.go:305-325 | the tree built from the flat list is the index again |
| RepoQueries.VariantIsListed | pkg/components/handler/repositories/handler.go:380-394 | a single lookup finds exactly what the list has at that place |

## Left out

- HTTP handlers, the client library, wiring, logging, time zones, migrations, translating results for the API, and job result maps.
- The SQL driver and the server: collations, column lengths, SMALLINT and BIGINT ranges, floating-point rounding and NaN; numbers are mathematical integers and reals.
- Modfile parsing and the validation of modules and config values by external libraries: a directory has a modfile or not, and value validation is an arbitrary predicate.
- Filters by name and author, which compare lower-case substrings.
- Secrets, host resources, file groups, endpoints, directories of deployments and mounts of containers: when a deployment is created or changed they are steps that may fail; deleting one removes its secret mounts, directories and endpoints.
- Environment variables other than those for services of other modules, and the alias a container is created with.
- How an update-all makes its items from the index before it selects and plans as any other request does (reading the installed modules is one step of it, assigning the plan another) and the merged top-level data of repository modules, which depends on map order.
- The filter generators for global configs, host resources, containers, volumes and files of deployments: each is a shorter combination of the conditions proved here.
- Deleting in `Volumes`: a deployment that is deleted and created again has a new id and new volume names.
- ModuleStore.Handler.GetModules: does not model concurrent readers that fill the cache at the same time, because each of them writes the same modfile.
- RuntimeMonitor.RoundCompletes: covers the jobs of one tick, because it holds for any decision; `MonitorRuns.TicksSettle` has any number of ticks for decisions that look at the own containers of a unit.
- MonitorRuns.TicksSettle: rows, engine calls from elsewhere and failing calls are excluded while ticks settle, because each of them starts the convergence anew.
- AuxDelete.Handler.DeleteDeployments: does not model the mutex per deployment, because all that it guards happens in one call.
- Aliases.Handler.RenewDeployment: updates and recreates are one method with a flag, because they differ in whether the rows are replaced; the check that a recreate finds the module unchanged is one of its possible failures.
- RepoRefresh.Handler.Refresh: what a source has by now is given, because what GitHub delivers is outside; the archive, its directories by commit and the file that names the commit are one step.
- SelectionOrder.SelectionOrder: with requested modules of three or more channels a free way is sufficient only, because the other channels also compete among themselves for what could block the ways, and only their orders tell which of them they block.
- SelectionOrder.EveryOrderFailsIff: with competition modules that hold each other up are sufficient only, because what one module brings in depends on who came before (`SelectionOrder.CompetitionThwarts`).
- ChangeRuns.CarriedOutIffUndisturbed: the "only if" asks that an update-all that falls into an execution plans something else, because one that plans the same does no harm (`ChangeRuns.SamePlanIsHarmless`); `ChangeRuns.CarriedOutIffReadsAreGood` has no such premise.
