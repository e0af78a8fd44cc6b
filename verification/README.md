# Model server: verified model

A Dafny 4.11 model of the parts of the model server that carry its hardest guarantees, with
proofs. `dafny verify dfyconfig.toml` checks all of it.

| File | Subject |
|---|---|
| `Common.dfy`, `Iteration.dfy` | option values, 32-bit integers; repeating a step until it stops |
| `Vectors.dfy` | sorted lists: sort, set_difference, set_intersection, binary_search, remove |
| `VersionPolicy.dfy`, `ModelConfig.dfy`, `ModelVersionStatus.dfy` | policies, reload decisions, states |
| `ModelInstance.dfy`, `Model.dfy`, `ModelManager.dfy` | the classes and the reconcile call, each method proved against a function on the abstract state |
| `Reconciliation.dfy` | what a reconcile call guarantees: serving, policy safety, convergence |
| `FallbackOptimality.dfy`, `FallbackLimits.dfy` | the fallback loop: optimality, and exactly for which listings |
| `FallbackTermination.dfy` | exactly when the fallback loop ends, for every policy, listing and state |
| `RepeatedVersions.dfy` | listings with a repeated version: serving and convergence, exactly |
| `CallOutcome.dfy` | the whole call: its code, what serves after a success, its early answers |
| `DefaultVersion.dfy` | the default version |
| `UnloadProtocol.dfy` | requests, writers and callbacks around one instance, as interleaved steps |
| `Executor.dfy` | the executor queue with its condition variable |
| `Layout.dfy` | layout validation and merging |
| `RawContents.dfy`, `BinaryInputs.dfy`, `UrlDecode.dfy` | binary tensors and request paths |
| `CustomLoaders.dfy` | the swap of custom loaders |

## How to read it

Objects that the source updates in place are classes (`ModelInstance`, `Model`,
`CustomLoaders`); `View()` is the abstract value of an object, and each method states the
whole new view as a function of the old one. Loads are decided by an arbitrary function of
the attempt and the version (`Oracle`), so every theorem holds for every pattern of
successes and failures. Algorithms of the C++ standard library, which the source only
calls, are functions with their own laws; binary search is the usual lower-bound algorithm
and is also defined on lists that are not sorted, because the source calls it on such lists.

The two concurrent parts are state machines. A step is one atomic action of one thread; any
number of threads may be at any place. In `UnloadProtocol` a writer carries the rest of its
program as a value (`Prog`), and a thread that has been told AVAILABLE and still has its
guard is a `Holder`. The phase stored with a writer is bookkeeping: no step depends on it.

## Where the code does less than its documentation suggests

* The list of versions is built from a set of directory names, so it is in lexicographic
  order (src/filesystem/filesystem.hpp:36, src/filesystem/localfilesystem.cpp:91-108), but failed
  versions are looked up with a binary search. `FallbackLimits.FallbackExact` gives the
  exact condition, `LexicographicListing` an everyday input.
* Directory names such as 2 and 02 give the same version twice. The fallback loop may then
  run forever: `FallbackTermination.ReturnsExactly` says exactly when, `FallbackEndsExactly`
  in closed form for the all-versions policy. A repeated version is started again in every
  call, under latest-k also when the failure of another version makes room for a copy of it
  (`RepeatedVersions.ServingExact`, `ServingLatest`, `ConvergenceExact`), and a failure of
  that load can take it down (`RepetitionTakesDown`).
* On a listing that is not ascending, such as 10, 2, a failed reload can leave a default
  version that does not serve (`DefaultVersion.DefaultKeptExact`, `TenAndTwo`).
* `updateDefaultVersion` takes a 32-bit integer (`DefaultVersion.UnloadExact`), and
  `retireAllVersions` updates the default only after each retirement
  (`RetireAllUnloadsDefault`).
* A merged layout keeps the batch index of the receiver, which can be missing
  (`Layout.BatchIndexExact`, `BatchIndexLost`).
* A custom loader whose name is listed twice is created and initialised a second time,
  then dropped without being de-initialised (`CustomLoaders.RepeatedLoaderIsLost`,
  `NothingLost`).
* A body of 2^31 bytes or more without the header for the JSON length is refused or misread
  (`BinaryInputs.EndOfJsonExact`).

## Model

| member | source | states |
|---|---|---|
| `FallbackOptimality.FallbackOptimal` | src/modelmanager.cpp:1391-1460 | From an empty model, for an ascending list without duplicates, any policy and any load outcome per version: the AVAILABLE versions at the end are exactly those the policy selects from the loadable ones (for latest-k the k greatest); every other registered version failed and is LOADING with error UNKNOWN |
| `FallbackLimits.FallbackExact` | src/modelmanager.cpp:1401-1409 | For a list without duplicates, the previous result holds for every latest-k and every outcome if and only if the list is ascending: the binary search decides |
| `FallbackLimits.LexicographicListing` | src/modelmanager.cpp:1403 | A concrete failure: directories 1, 2 and 10 are listed as 1, 10, 2; under latest-2, with only version 2 failing, version 1 is never started |
| `FallbackTermination.ReturnsExactly` | src/modelmanager.cpp:1397-1413 | For every policy, listing, registered state and custom loader: the call comes back for every outcome of its loads if and only if no choice of failing versions, round by round, among those each round starts leads to a registered version that is started again and that binary search misses. The condition speaks of the list and the registered versions alone |
| `FallbackTermination.StuckSoon` | src/modelmanager.cpp:1397-1413 | If a choice of failing versions gets stuck, one with at most as many rounds as there are listed versions to register and to remove does, so the condition can be checked |
| `FallbackTermination.FallbackEndsExactly` | src/modelmanager.cpp:1397-1413 | Under the all-versions policy and without a custom loader, in closed form: every call for the listing, from every registered state, comes back for every outcome of its loads if and only if no removal of some listed versions in ascending order, followed by removals of versions that are still listed twice, leaves a version that is listed twice and that binary search misses; calls from an empty model decide it |
| `FallbackTermination.SpecificReturns` | src/modelmanager.cpp:1397-1413 | Under a specific policy that names no version twice every call returns, for every listing, state and outcome |
| `FallbackTermination.Diverges` | src/modelmanager.cpp:1397-1413 | If some choice of failing versions gets stuck, there are load outcomes for which the loop never ends |
| `FallbackTermination.EndsUnlessStuck` | src/modelmanager.cpp:1397-1413 | If none does, the loop ends for every outcome |
| `FallbackTermination.CaughtSettles` | src/modelmanager.cpp:1397-1413 | Under the all-versions policy and once all listed versions are registered, a list whose repeated versions can be removed in any order without one being missed does not get stuck |
| `FallbackTermination.LoopsForever` | src/modelmanager.cpp:1397-1413 | A round that starts a registered version again which is missed by binary search and never loads is followed by such rounds for ever |
| `FallbackTermination.SameRemoval` | src/modelmanager.cpp:1401-1407 | Of an ascending list of failed versions only the set matters for what is removed |
| `FallbackTermination.TwiceTwo` | src/modelmanager.cpp:1403 | Directories 02, 1, 10 and 2 make a listing on which the loop need not end |
| `FallbackTermination.StuckAfterRemoval` | src/modelmanager.cpp:1403 | On listing 1, 3, 1, 2, 2 both repeated versions are found, but once 1 is removed 2 is missed, so the loop need not end |
| `RepeatedVersions.ServingExact` | src/modelmanager.cpp:1397-1453 | Under the all-versions and the specific policy, for any listing: a version that is AVAILABLE, selected, not blacklisted and needs no reload is left alone by every call that returns, whatever loads fail, if and only if the policy does not take it twice |
| `RepeatedVersions.ServingLatest` | src/modelmanager.cpp:1397-1453 | Under latest-k, for any listing: it is left alone by every call that returns, whatever loads fail, if and only if it is listed once, or the policy takes it once and binary search misses every version that the first round starts |
| `RepeatedVersions.InterruptedIfOneDrops` | src/modelmanager.cpp:1397-1413 | Otherwise a version that the first round starts can fail and leave the list, which makes room for a second copy of the serving version, and that is started again |
| `VersionPolicy.OneMoreTaken` | src/model_version_policy.cpp:54-61 | When a taken version leaves the list, latest-n takes one more copy of each taken version of which it had left copies out |
| `RepeatedVersions.RepetitionTakesDown` | src/modelmanager.cpp:1397-1447 | A serving version that the policy takes twice and that binary search finds ends as failed if its second load fails |
| `RepeatedVersions.ConvergenceExact` | src/modelmanager.cpp:1391-1457 | Without a custom loader, after a call in which every load succeeded, a second call does nothing and returns OK if and only if the policy takes no listed version twice |
| `RepeatedVersions.RepeatedNeverSettles` | src/modelmanager.cpp:1391-1457 | While a registered version is taken twice no later call returns OK; it returns OK_RELOADED if all loads succeed |
| `Vectors.MissedUnlessAscending` | src/modelmanager.cpp:1403 | A list without duplicates in which binary search finds every element is ascending |
| `Reconciliation.ServingNotInterrupted` | src/modelmanager.cpp:1397-1453 | For any listing for which the call returns: a version that is AVAILABLE, taken once by the policy (under latest-k also listed once), not blacklisted and in no need of a reload is named by no start, reload, retirement or cleanup, and its instance is unchanged, whatever loads fail |
| `Reconciliation.ServingWithoutRepetition` | src/modelmanager.cpp:1397-1453 | For a listing without duplicates every call returns and does so for each such version that the policy selects |
| `VersionPolicy.SelectedStable` | src/model_version_policy.cpp:35-61 | A version that a policy selects stays selected when other versions disappear, for all three policies |
| `VersionPolicy.TakenStays` | src/model_version_policy.cpp:35-61 | The same for the filters on lists with repetitions: what is taken stays taken when all copies of another version are removed |
| `VersionPolicy.DropUnselected` | src/model_version_policy.cpp:35-61 | Removing only unselected versions does not change the selection |
| `Reconciliation.PolicySafety` | src/modelmanager.cpp:1429-1453 | For any listing for which the call returns, any registered state and any failures: every AVAILABLE version is in the filter of the remaining versions and not blacklisted, every registered version outside it has ended, is ending or failed to load, only versions with a failed load left the list, and retirement never fails |
| `CallOutcome.SuccessServes` | src/modelmanager.cpp:1391-1460 | For any listing for which the call returns, and a model whose versions serve, have ended or failed: if the call does not report a failed load, exactly the versions that the policy takes from the remaining list, without blacklisted ones, are AVAILABLE, each with the compared fields of the configuration |
| `CallOutcome.SuccessIsCurrent` | src/modelmanager.cpp:1415-1460 | Each such version is registered, needs no reload and has the compared fields, from any registered state |
| `CallOutcome.LoadsServe` | src/modelmanager.cpp:1391-1460 | Without a custom loader, after a call in which every load succeeded exactly the versions the policy takes from the listing are AVAILABLE with the compared fields of the configuration, whatever was loaded before |
| `CallOutcome.FailedReloadReported` | src/modelmanager.cpp:1415-1459 | If the call reloaded a version that ends as failed to load, it reports LOAD_FAILED, for any listing for which it returns |
| `CallOutcome.CodeExact` | src/modelmanager.cpp:1396-1459 | LOAD_FAILED is reported if and only if the last starts of the fallback loop failed or a reload failed; otherwise OK or OK_RELOADED |
| `CallOutcome.OkMeansNothingDone` | src/modelmanager.cpp:1391-1459 | OK rather than OK_RELOADED is the answer if and only if the call started, reloaded, retired and cleaned up nothing; the model is then the same |
| `CallOutcome.ReconcileAnswers` | src/modelmanager.cpp:1351-1460 | The whole call with its early answers: dynamic parameters on a subscribed model and unreadable versions are refused without effect; without the loader it needs every version ends; otherwise only listed versions serve, none that the loader blacklists, and the code is as above |
| `Reconciliation.Convergence` | src/modelmanager.cpp:1391-1457 | Without a custom loader and for a listing of which the policy takes no version twice: after a call in which every load succeeded a second call changes nothing and returns OK, not OK_RELOADED |
| `Reconciliation.SettledCall` | src/modelmanager.cpp:1391-1457 | A model with nothing to start, reload or retire, for a listing of which the policy takes no version twice, is a fixed point of the call |
| `Reconciliation.ExecuteEffect` | src/modelmanager.cpp:1432-1459 | The final step retires or cleans up exactly the planned versions, touches no other, its internal error codes cannot occur, and its result code follows from the loads |
| `ModelManager.FallbackProgress` | src/modelmanager.cpp:1397-1413 | Every failing round on a list that no removal gets stuck decreases the number of available unregistered versions plus the length of the list; for a list without duplicates that number decreases by itself, although the requested set changes |
| `ModelManager.NeverStuckReturns` | src/modelmanager.cpp:1397-1413 | A call for a listing that no removal gets stuck on a repeated version returns, for every policy, state and outcome |
| `ModelManager.NoDupNeverStuck` | src/modelmanager.cpp:1401-1407 | A list without duplicates never gets stuck |
| `ModelManager.AscendingNeverStuck` | src/modelmanager.cpp:1401-1407 | An ascending list never gets stuck |
| `ModelManager.StillNeverStuck` | src/modelmanager.cpp:1401-1407 | Removing failed versions keeps a list from getting stuck |
| `ModelManager.StartedAgain` | src/modelmanager.cpp:1204-1209 | A registered version is planned to start if and only if it is requested more than once and not blacklisted |
| `ModelManager.PlanCorrect` | src/modelmanager.cpp:1135-1213 | The plan as sets: start = wanted minus registered, reload = both and in need of it, retire = registered, not wanted and not ending; all three ascending, duplicate-free where the request is, blacklisted registered versions not wanted |
| `ModelManager.WantedMembers` | src/modelmanager.cpp:1143-1162 | What is wanted is the request without the blacklisted registered versions, in ascending order |
| `ModelManager.GetVersionsToChange` | src/modelmanager.cpp:1128-1214 | The method computes the specified plan and, of the instances, changes only the custom-loader flag of versions to reload |
| `ModelManager.PlanReload` | src/modelmanager.cpp:1171-1185 | One round of the reload loop, including the flag it may set |
| `ModelManager.FlagExact` | src/modelmanager.cpp:1171-1181 | After planning the custom-loader flag of a version is set if and only if it was set before or the version is to be reloaded with other loader options; status and configuration are the same |
| `ModelManager.RemoveBlacklisted` | src/modelmanager.cpp:1153-1160 | The loop over registered versions removes the blacklisted ones from the request |
| `ModelManager.KeepNotEnding` | src/modelmanager.cpp:1193-1202 | The retire list loses the versions that are ending already |
| `ModelManager.StartWithFallback` | src/modelmanager.cpp:1396-1413 | The fallback loop, if it ends, refines its recursive specification: remaining list, plan, failed and all failed versions, status and model |
| `ModelManager.OneRound` | src/modelmanager.cpp:1398-1412 | One pass through the body of the loop |
| `ModelManager.RemoveFailedVersions` | src/modelmanager.cpp:1401-1407 | Failed versions that binary search finds are removed from the list, all copies of them |
| `ModelManager.RemoveFailedAscending` | src/modelmanager.cpp:1401-1407 | On an ascending list every failed version is found and removed |
| `ModelManager.PartitionFailed` | src/modelmanager.cpp:1432-1434 | The retire list is split into versions to clean up and versions to retire |
| `ModelManager.ExecuteFinalPlan` | src/modelmanager.cpp:1435-1459 | Retirement, cleanup and the result code |
| `ModelManager.ReloadAndRetire` | src/modelmanager.cpp:1415-1459 | Reloads after the loop, the removal of versions whose reload failed, and the final plan; a failure before or in the reloads is never answered with success |
| `CallOutcome.ReloadModelWithVersions` | src/modelmanager.cpp:1351-1460 | The whole call ends in the state and with the code of the specification, whenever its fallback loop ends, and answers as above: failed reloads are reported, OK means nothing was done, what serves after a success has the configuration |
| `VersionPolicy.FilterMeaning` | src/model_version_policy.hpp:74-76 | On a list without duplicates the three filters compute their reference meaning: everything; the listed versions; those with fewer than n greater ones |
| `VersionPolicy.LatestTakesGreatest` | src/model_version_policy.cpp:54-61 | latest-n takes min(n, size) versions, each greater than every version it leaves out |
| `VersionPolicy.FilterLatest` | src/model_version_policy.cpp:54-61 | The loop computes the specified prefix of the descending order |
| `VersionPolicy.FilterSubset` | src/model_version_policy.cpp:35-61 | A filter invents no version |
| `Vectors.DifferenceLaw` | src/modelmanager.cpp:1204-1209 | set_difference on sorted lists keeps, of each value, the surplus of copies in the first list |
| `Vectors.IntersectionLaw` | src/modelmanager.cpp:1164-1169 | set_intersection on sorted lists keeps, of each value, the smaller number of copies |
| `Vectors.BinarySearchAscending` | src/modelmanager.cpp:1403 | On an ascending list binary search finds exactly the members |
| `ModelConfig.IsReloadRequired` | src/modelconfig.cpp:89-133 | True if and only if one of the compared fields differs: name, base path, target device, batching mode, batch size, nireq, plugin configuration, layouts, shapes, custom-loader options, cache |
| `ModelConfig.ReloadRequiredLaws` | src/modelconfig.cpp:89-133 | "No reload required" is an equivalence relation and does not depend on the version |
| `ModelConfig.IsLayoutConfigurationEqual` | src/modelconfig.cpp:159-177 | Comparing sizes and then looking up every element of one map decides equality of both |
| `ModelConfig.IsShapeConfigurationEqual` | src/modelconfig.cpp:179-193 | The same for the shape maps |
| `ModelConfig.IsBatchSizeConfigurationEqual` | src/modelconfig.cpp:149-157 | Equality of optional batch sizes |
| `ModelConfig.IsCustomLoaderConfigChanged` | src/modelconfig.cpp:135-147 | True exactly if the custom-loader options differ |
| `ModelConfig.SameSizeSubMap` | src/modelconfig.cpp:164-175 | A map contained in another of the same size equals it |
| `Model.Model.AddVersion` | src/model.cpp:120-134 | A new instance is registered unless the version exists; it is loaded either way, and only a success updates the default version |
| `Model.Model.AddVersions` | src/model.cpp:136-156 | The batch of loads: final model, failed versions in order, overall result |
| `Model.Model.RetireVersion` | src/model.cpp:179-180 | The default moves off the version (as far as 32 bits go), then the instance is retired |
| `Model.Model.RetireVersions` | src/model.cpp:164-184 | The batch of retirements, unknown versions skipped with an error |
| `Model.UnknownReported` | src/model.cpp:164-206 | A reload, retirement or cleanup of a version that is not registered makes its batch report an error |
| `Model.Model.CleanupFailedLoad` | src/model.cpp:186-206 | The batch of cleanups |
| `Model.Model.RetireAllVersions` | src/model.cpp:208-226 | All versions in order, the default updated after each |
| `Model.Model.ReloadVersions` | src/model.cpp:248-287 | The batch of reloads, failed versions appended to those of the caller |
| `Model.Model.FindDefaultVersion` | src/model.cpp:85-93 | The loop finds the greatest positive AVAILABLE version other than the ignored one, 0 if there is none |
| `Model.Model.UpdateDefaultVersion` | src/model.cpp:85-101 | The default becomes that version and nothing else changes |
| `DefaultVersion.DefaultVersionKept` | src/model.cpp:85-101 | For versions below 2^31 and an ascending listing, with or without repetitions: every call returns, and if the default is the greatest AVAILABLE version (0 if none) before it, it is so after it, for any failures, and no version starts unloading while it is the default |
| `DefaultVersion.DefaultKeptExact` | src/modelmanager.cpp:1422-1431 | For a duplicate-free listing of such versions every call, for every policy, registered state and outcome, keeps the default right if and only if the listing is ascending |
| `DefaultVersion.MissedStaysDefault` | src/modelmanager.cpp:1422-1431 | A version that binary search misses stays the default after its reload failed |
| `DefaultVersion.TenAndTwo` | src/modelmanager.cpp:1424 | Directories 10 and 2, listed in this order, are such a listing |
| `DefaultVersion.UnloadMakesGreatest` | src/model.cpp:179-180 | Unloading a version repairs even a stale default, before the unloading starts |
| `DefaultVersion.FailedReloadIsUnloaded` | src/modelmanager.cpp:1422-1431 | A failed reload, which may leave a stale default, is always unloaded by the final plan on an ascending list |
| `DefaultVersion.UnloadExact` | src/model.cpp:85-101 | For versions of any size, unloading v keeps the default right if and only if the conversion to 32 bits keeps v, or neither v nor its converted value is the default, or there is no default |
| `DefaultVersion.LargeVersion` | src/model.cpp:179 | A single AVAILABLE version 2^31 is still the default after it was retired |
| `DefaultVersion.RetireAllUnloadsDefault` | src/model.cpp:208-226 | Retiring all versions ends with default 0 and nothing AVAILABLE, but some version starts unloading while it is the default if and only if anything was AVAILABLE |
| `ModelInstance.ModelInstance.LoadModelImpl` | src/modelinstance.cpp:1234-1309 | Stores the configuration and ends AVAILABLE with components built, or LOADING with error UNKNOWN without them |
| `ModelInstance.ModelInstance.LoadModel` | src/modelinstance.cpp:1330-1342 | START, LOADING, then the load |
| `ModelInstance.ModelInstance.ReloadModel` | src/modelinstance.cpp:1344-1358 | LOADING, unloading first if the custom loader changed, then the load |
| `ModelInstance.ModelInstance.RetireModel` | src/modelinstance.cpp:1497-1508 | Components torn down; END if permanent, LOADING otherwise |
| `ModelInstance.ModelInstance.CleanupFailedLoad` | src/modelinstance.cpp:1510-1514 | LOADING with error UNKNOWN, components torn down |
| `ModelInstance.ModelInstance.RecoverFromReloadingError` | src/modelinstance.cpp:1360-1372 | The stored configuration is loaded again without the parameter |
| `ModelInstance.ModelInstance.ReshapeWithFullReload` | src/modelinstance.cpp:1374-1386 | The stored configuration is loaded again with the parameter after an unload |
| `ModelInstance.ModelInstance.ReloadForRequest` | src/modelinstance.cpp:1388-1415 | For every pattern of its up to three loads: success if and only if one of the first two succeeds, then AVAILABLE with the parameter and the guard held; otherwise no guard, and AVAILABLE without the parameter or LOADING with an error, by the third load; refused if and only if nothing was requested, without any change |
| `UnloadProtocol.UnloadSafety` | src/modelinstance.cpp:1447-1523 | In every run of any number of threads: while a thread that was told AVAILABLE holds its guard, or a callback in its place, no writer is at a step that tears down or builds, the components exist, and its stream id belongs to the existing queue |
| `UnloadProtocol.SameBuildWhileHeld` | src/modelinstance.cpp:1447-1523 | As long as there is always some holder, whoever it is, the components stay the ones of one build |
| `UnloadProtocol.StreamFindsItsQueue` | src/executingstreamidguard.cpp:44-53 | A returned stream id goes back to the queue it was taken from, which still exists and does not have it |
| `UnloadProtocol.HandleConservation` | src/modelinstance.hpp:407-423 | In every reachable state the counter is the number of live guards, a writer that polls or destroys holds none, a thread that has returned holds none; waitForLoaded makes at most 1 + timeout/100 guards, and exactly that many before it answers "not loaded yet" |
| `UnloadProtocol.AdmittedWhenAvailable` | src/modelinstance.cpp:1447-1495 | In every run: a request that arrives while the instance is AVAILABLE and stays so is not refused, however short its timeout; its second step admits it with its guard held |
| `UnloadProtocol.WhichRefusal` | src/modelinstance.cpp:1483-1494 | A refused request is told NOT_LOADED_ANYMORE if and only if the version was unloading or had ended when it took its last step, otherwise NOT_LOADED_YET |
| `UnloadProtocol.DynamicReloadOutcome` | src/modelinstance.cpp:1388-1415 | In every interleaving: a successful dynamic reload unlocks with the guard and AVAILABLE on the stored configuration with the parameter, a failed one without guard and AVAILABLE without the parameter or LOADING with an error, a refused one without guard |
| `UnloadProtocol.OperationLeaves` | src/modelinstance.cpp:1330-1514 | In every interleaving an operation that got the mutex unlocks with one of the endings of its program: status, stored configuration, components and outcome |
| `UnloadProtocol.OperationEndings` | src/modelinstance.cpp:1344-1514 | A retirement ends in END without components; a cleanup in LOADING with an error without components; a reload of the manager stores its configuration and ends AVAILABLE with components, or in LOADING with an error without them |
| `UnloadProtocol.DynamicReloadEndings` | src/modelinstance.cpp:1360-1415 | A dynamic reload never changes the stored configuration and ends AVAILABLE with the parameter on success, otherwise AVAILABLE without it or in LOADING with an error; without a parameter it changes nothing |
| `UnloadProtocol.EndingReached` | src/modelinstance.cpp:1344-1514 | These endings are exact: while nobody holds a guard, the owner of the mutex can reach each of them by its own steps |
| `UnloadProtocol.ProgramsPollFirst` | src/modelinstance.cpp:1344-1514 | The programs of all operations and of the dynamic reload are such that this applies: none polls after it took a guard |
| `UnloadProtocol.RequestChoices` | src/modelinstance.cpp:1417-1445 | An admitted request may be found invalid, may ask for a reload unless it had one, and may take any idle stream id |
| `UnloadProtocol.InferenceChoices` | src/inference_executor.hpp:136-139 | An inference may finish, or hand its guard and stream id to a callback |
| `UnloadProtocol.UnlockAnswers` | src/modelinstance.cpp:1388-1415 | The request goes on with its guard after a successful reload and is told of a failed or refused one, without guard |
| `UnloadProtocol.NoNewHolder` | src/modelinstance.cpp:1516-1522 | While a writer polls no thread becomes a holder, except a callback in place of the request that started it |
| `UnloadProtocol.PollEnds` | src/modelinstance.cpp:1516-1522 | Without new requests the other threads take finitely many steps while a writer polls, and when none can move the counter is zero |
| `UnloadProtocol.DrainDecreases` | src/modelinstance.cpp:1516-1522 | Every step of another thread during a poll decreases the rank |
| `UnloadProtocol.DrainContinues` | src/executingstreamidguard.cpp:44-53 | While the counter is not zero some other thread can move: one waiting for a stream id waits for a thread that has one |
| `UnloadProtocol.RestIsDone` | src/modelinstance.cpp:1330-1523 | No deadlock: when no thread can move every request has its result, every operation is done, the mutex is free and the counter is zero |
| `UnloadProtocol.ComesToRest` | src/modelinstance.cpp:1330-1523 | Without new requests and operations every run is finite, so all requests are answered and no retirement or reload waits for ever |
| `UnloadProtocol.NextInv` | src/modelinstance.cpp:1330-1523 | The invariant of the protocol is kept by every step of every thread and by every arrival |
| `UnloadProtocol.DynamicReloadSafe` | src/modelinstance.cpp:1360-1415 | The program of a dynamic reload, with both fallbacks, marks, polls and only then destroys, on every path |
| `UnloadProtocol.ProgramSafe` | src/modelinstance.cpp:1344-1523 | So do retirement, cleanup and the reload of the manager |
| `UnloadProtocol.FirstLoadSafe` | src/modelinstance.cpp:1330-1342 | The first load may skip the poll because nobody has seen the instance AVAILABLE |
| `UnloadProtocol.StartAsyncInv` | src/inference_executor.hpp:136-139 | The callback takes over guard and stream id from the request in one step; counts and ownership are kept |
| `UnloadProtocol.PollInv` | src/modelinstance.hpp:525-527 | When the poll ends there is no guard and therefore no holder |
| `Executor.NoLostWakeUp` | src/executor_base.hpp:51-78 | The executor is never asleep while the queue is not empty, unless the producer that filled it is about to notify under the mutex, and never after the destructor has notified |
| `Executor.FirstInFirstOut` | src/executor_base.hpp:59-78 | Requests are completed in the order of acceptance, none twice, none lost; processRequest never meets an empty queue |
| `Executor.AcceptedUnlessStopped` | src/executor_base.hpp:105-110 | In every run a producer is turned away only when the stop flag is set; what is accepted is, with multiplicity, the requests of the producers that got past the queue |
| `Executor.RefusedAfterStop` | src/executor_base.hpp:105-110 | A producer that begins after the stop flag was set is turned away |
| `Executor.RestIsComplete` | src/executor_base.hpp:105-118 | When nothing can move, every producer has returned; without a stop none was turned away and every request of every producer is completed, with multiplicity; after a stop the executor has ended and was joined |
| `Executor.ComesToRest` | src/executor_base.hpp:59-118 | Without spurious wake-ups every run from a reachable state is finite, so neither the loop nor the join hangs |
| `Executor.StepDecreases` | src/executor_base.hpp:59-118 | Every step of executor, producers or destructor decreases one rank |
| `Executor.NextInv` | src/executor_base.hpp:38-118 | The invariant is kept by every step, spurious wake-ups included |
| `Layout.Validate` | src/layout.cpp:74-107 | The scan accepts exactly the strings over NCHWD, ? and dots with each letter at most once and no dots or one run of exactly three |
| `Layout.Alphabet` | src/layout.cpp:30-33 | The single characters that are layouts, and NCDHW |
| `Layout.LettersOnce` | src/layout.cpp:78-82 | Counting each letter decides that none is repeated |
| `Layout.DotsOnce` | src/layout.cpp:84-104 | The flags and the counter decide that there are no dots or one run of three |
| `Layout.Make` | src/layout.cpp:46-72 | The batch index is k if and only if the layout is valid, has N at k and no dots before it |
| `Layout.ExpandValid` | src/layout.cpp:113-127 | Expansion of a valid layout to n dimensions: when it exists, its length, and where every dimension ends up |
| `Layout.MergeLoop` | src/layout.cpp:132-144 | The loop that rewrites the left layout computes the overlay if the dimensions agree and no letter is repeated, and fails otherwise |
| `Layout.CreateIntersection` | src/layout.cpp:109-147 | Succeeds exactly if the merge exists, with its text and with the batch index of the receiver; says when that is the one of the text |
| `Layout.MergeIsMeet` | src/layout.cpp:109-147 | The merge exists if and only if some layout of n dimensions refines both sides, and each such layout refines the merge |
| `Layout.MergeRefines` | src/layout.cpp:109-147 | The merge is a valid layout of n dimensions that keeps every known dimension of both sides |
| `Layout.MergeCommutes` | src/layout.cpp:109-147 | Commutative, definedness included |
| `Layout.MergeAssociates` | src/layout.cpp:109-147 | Associative as a partial operation |
| `Layout.MergeIdempotent` | src/layout.cpp:109-147 | Merging a layout with itself gives its expansion, if that has n dimensions |
| `Layout.CompatibleIsMergeable` | src/layout.cpp:163-172 | A valid layout is compatible with a shape if and only if merging it with "..." over its dimensions succeeds |
| `Layout.MergeKeepsBatchIndex` | src/layout.cpp:109-147 | A batch index of the receiver points at N in every merge result and is the one its text has |
| `Layout.BatchIndexExact` | src/layout.cpp:109-147 | For a receiver with the batch index of its text, the result has the batch index of its text if and only if the receiver has one or neither side has an N |
| `Layout.BatchIndexLost` | src/layout.cpp:109-147 | Merging "..." with NCHW gives NCHW without its batch index |
| `RawContents.GetRawInputContentsBatchSizeAndWidth` | src/inference_request_common.hpp:31-51 | Accepts exactly the buffers that are a concatenation of length-prefixed strings; batch size is their number converted to 32 bits, width the greatest length plus one; on an error both keep their values |
| `RawContents.LittleEndian` | src/inference_request_common.hpp:35-36 | The length prefix has its least significant byte first |
| `RawContents.UniqueDecomposition` | src/inference_request_common.hpp:35-40 | A buffer can be read as length-prefixed strings in one way only |
| `RawContents.DecodeEncode` | src/inference_request_common.hpp:35-40 | Reading undoes the encoder |
| `RawContents.EncodeDecode` | src/inference_request_common.hpp:35-40 | What can be read is the encoding of what was read |
| `RawContents.BatchSizeExact` | src/inference_request_common.hpp:48 | The batch size is the number of strings if and only if that is below 2^31 |
| `RawContents.MaxLengthIsGreatest` | src/inference_request_common.hpp:37 | The maximum is attained and bounds every length |
| `BinaryInputs.HandleBinaryInputs` | src/http_rest_api_handler.cpp:300-344 | The result is that of the first input that is refused or does not fit; on success the raw buffers, one per input not filled from JSON and in order, are consecutive slices from the end of the JSON part, each as long as its parameter says, or the whole part for a BYTES input alone, or the number of elements times the width of its datatype |
| `BinaryInputs.DemandMeaning` | src/http_rest_api_handler.cpp:306-333 | Which inputs are skipped, refused with which error, and how many bytes the others take |
| `BinaryInputs.EmptyMeans` | src/http_rest_api_handler.cpp:244-270 | Which JSON field holds the values of each datatype |
| `BinaryInputs.HandleBinaryInput` | src/http_rest_api_handler.cpp:272-285 | The unsigned subtraction does not wrap around; success exactly if the slice fits |
| `BinaryInputs.OutcomeMeaning` | src/http_rest_api_handler.cpp:300-344 | Success if and only if no input is refused and the sizes add up to at most the binary part |
| `BinaryInputs.CalculateBinaryDataSize` | src/http_rest_api_handler.cpp:287-298 | The number of elements times 1, 2, 4 or 8 by datatype, 0 for an unknown one; refused if and only if one of the two products overflows |
| `BinaryInputs.TensorSizeIs` | src/kfs_frontend/kfs_utils.cpp:57-77 | The widths of all datatypes |
| `BinaryInputs.ElementCount` | src/predict_request_validation_utils.hpp:362-376 | The product of the dimensions in front of the first zero must fit a size; a zero makes the count zero; a negative dimension counts modulo 2^64 |
| `BinaryInputs.PrepareGrpcRequest` | src/http_rest_api_handler.cpp:346-370 | Which part is JSON, the three kinds of errors, and the slices of the rest |
| `BinaryInputs.EndOfJsonExact` | src/http_rest_api_handler.cpp:349 | Without the header the whole body is JSON if and only if its length is below 2^31; a negative header is always refused |
| `UrlDecode.Decode` | src/http_rest_api_handler.cpp:1171-1196 | The loop computes the specified decoding |
| `UrlDecode.HexDigits` | src/http_rest_api_handler.cpp:1171-1196 | The hexadecimal digits are 0-9, A-F and a-f, with their values; of two digits the first is the more significant |
| `UrlDecode.DecodeInverts` | src/http_rest_api_handler.cpp:1171-1196 | Decoding inverts every percent-encoding of every byte string: each byte literal or escaped, digits in either case (section 2.1 of RFC 3986) |
| `UrlDecode.WellFormedEncodes` | src/http_rest_api_handler.cpp:1171-1196 | Every string whose percent signs all start escapes is an encoding of what it decodes to |
| `UrlDecode.EncodingExists` | src/http_rest_api_handler.cpp:1171-1196 | Every byte string has a percent-encoding |
| `UrlDecode.NeverLonger` | src/http_rest_api_handler.cpp:1171-1196 | Decoding never lengthens; it is the identity without escapes and strictly shortens with one |
| `CustomLoaders.CustomLoaders.LoadCustomLoadersConfig` | src/modelmanager.cpp:622-653 | Without a list nothing changes. For every list of entries, repetitions included: listed old loaders stay the same instance, a new name is bound to the first loader created for it, nothing else is registered, each unlisted old loader is de-initialised exactly once and no other, and the first error is returned |
| `CustomLoaders.FirstErrorIs` | src/modelmanager.cpp:622-653 | The code is that of the first entry that cannot be parsed or that has to create a loader and cannot; OK if and only if there is none |
| `CustomLoaders.NothingLost` | src/modelmanager.cpp:576-617 | With distinct instances, every loader initialised by the call is registered afterwards if and only if each entry that creates one has a name that was neither registered before nor given a loader by an earlier entry |
| `CustomLoaders.RepeatedLoaderIsLost` | src/modelmanager.cpp:576-617 | A registered loader listed twice: the second entry initialises an instance that is neither registered nor de-initialised |
| `CustomLoaders.CustomLoaders.CreateCustomLoader` | src/modelmanager.cpp:572-620 | A registered loader is moved, otherwise one is created, initialised and added; a repeated name creates one that is dropped |
| `CustomLoaders.CustomLoaders.Add` | src/customloaders.cpp:25-34 | Adding does not replace |
| `CustomLoaders.CustomLoaders.Find` | src/customloaders.cpp:48-57 | Looks only at the serviced map |
| `CustomLoaders.CustomLoaders.Move` | src/customloaders.cpp:59-70 | Moves the instance from the serviced to the new map |
| `CustomLoaders.CustomLoaders.Finalize` | src/customloaders.cpp:72-88 | De-initialises each remaining loader exactly once and swaps the maps |

## Left out

- CallOutcome.ReloadModelWithVersions: promises nothing about a call whose fallback loop does not end (predicate Returns); FallbackTermination.ReturnsExactly says when every outcome of the loads lets it end.
- UnloadProtocol.PollEnds: speaks of runs without new requests, and so does ComesToRest; with requests arriving for ever a writer may poll for ever.
- UnloadProtocol.FirstLoadSafe: the creating thread owns the mutex from the start; operations of the manager on an instance follow its first load, as they do in the source.
- UnloadProtocol.NextInv: a failed load counts as leaving nothing usable behind, although parts of the old components may survive it.
- Executor.RestIsComplete: requests accepted after the stop flag was set may stay in the queue, as in the source.
- Everything behind loading a model (compilation, reshaping, preprocessing, tensors, the plugin) is one success or failure per load.
- Directory listing, cloud download and cleanup of temporary files: the list of versions is an input, None if it cannot be read.
- Exceptions caught around addVersions and reloadVersions, and an asynchronous start that throws.
- Subscriptions and their notifications, except the check that refuses dynamic parameters on a subscribed model.
- The name of the custom loader stored in a model and the loader's own retireModel and unloadModel calls; of the loader only presence and blacklist count.
- Gated configurations, pipelines and graph loading.
- The memory model and time: each status access and counter operation is one atomic step, a timed wait may end at any time.
- Fields that isReloadRequired does not compare: mean, scale, color format, precision.
- The JSON parser is a function of the bytes it is given; shapes and parameters are what it delivers. Tensor datatype names are an enumeration with a case for every other string.
- Metrics, logging, servers, command line, regular expressions for routes.
