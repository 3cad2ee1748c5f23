# Kernel Module Management: a verified model of its controllers

Kernel Module Management (KMM) is a set of Kubernetes controllers that build, sign, load and unload
kernel modules on nodes. The controllers share state only through API objects, so what matters is
what holds over whole runs: passes of several controllers, pods changing phase, users editing
objects and nodes rebooting, in any order. This project models the decisions of those controllers
in Dafny and proves such run-level properties.

The API server is a record of objects. A reconcile pass is a function on that record, or a sequence
of steps where other actors may come in between. Pods, users and nodes are environment steps. Where
the operator mutates lists, maps and objects in loops, a class or a method does the same and is
proved equal to the function that describes the pass; the function is then what the run-level lemmas
are about. API calls that fail are parameters of a pass.

## Files

| file | part of the operator |
|---|---|
| `NodeModules`, `NmcPass`, `NmcReconciler`, `NodeRuns`, `PassDecisions`, `RecordedItems`, `OrphanRuns`, `WorkerExclusion` | the per-node load/unload machine: spec, status and worker pods of a NodeModulesConfig (NMC) |
| `UnloadBeforeDelete` | in-use labels and the Module finalizer over all NMCs |
| `OrderedUpgrade`, `VersionLabelPass`, `Scheduling` | version labels of an ordered upgrade, the batch pass over a node's label map, the scheduling decision that consumes them |
| `KernelNames`, `ImagePipeline`, `ImageRuns`, `ImageReadings`, `ImageProgress`, `ImageReconcilers`, `SharedKernel` | pull, build and sign through ModuleImagesConfig (MIC), ModuleBuildSignConfig (MBSC) and pods, with rebuild generations |
| `Finalizers`, `DraFinalizer`, `DevicePluginFinalizer`, `DeviceClasses` | one finalizer list under optimistic locking, what the DRA and device-plugin finalizers cover, DeviceClass convergence |
| `KernelMapper`, `KernelTemplates`, `KernelClaim`, `HubToSpoke` | kernel mappings, what templates resolve to, the kernel-version claim, the rewrite of a hub Module for a spoke |
| `LabelCodecs`, `LoadOrder`, `Paths`, `ShellQuoting` | label printers and parsers, softdep lines and unload arguments, the path check of the webhook, shell quoting |
| `Basics`, `Strings` | shared vocabulary |

`dafny verify dfyconfig.toml` checks the whole project.

## Main results

- A node whose spec entry is fixed and whose pods succeed converges after at most three worker pods, whatever optional fields a decode kept and whatever API calls fail on the way (`NodeRuns.ConvergesWithinThreePods`). It then has the whole item of its spec on record (`RecordedItems.ConvergedRecordsItem`).
- A module taken out of the spec is gone from the node after exactly one unloader pod and at most three steps that move the unloading on, two passes from an entry without a pod (`OrphanRuns.UnloadsWithOnePod`); the unloader carries what the loader ran with (`OrphanRuns.UnloaderCarriesLoadedItem`).
- Two consecutive successful loads of a module for one kernel are separated by a successful unload or a reboot (`NodeRuns.LoadsSeparatedInEveryRun`). The separation holds for equal configurations too.
- In every run the API server holds at most one worker pod per module on a node, and refuses no creation for a taken name (`WorkerExclusion.OneWorkerPodPerModule`).
- The Module finalizer is released only when no node has the module in spec, status or a worker pod (`UnloadBeforeDelete.ReleasedOnlyWhenUnloaded`). A pass keeps the in-use labels exactly when it strands nothing (`UnloadBeforeDelete.PassKeepsLabelledIff`). Each of the three ways to strand something has an input: a name shared by two namespaces, a refused deletion and a refused removal. With conditions known before the run, distinct names among the modules enabled on a node and no such call refused, nothing is ever stranded (`UnloadBeforeDelete.CarefulRunUnloadsFirst`).
- A schedule pod of version v means the worker-pod label is v, whenever the user edits the module label (`OrderedUpgrade.UpgradeSafety`), and the scheduling decision respects that (`Scheduling.SchedulePodKeepsItsVersion`). A node gets a worker label only when no kernel module was loaded as the decision was taken (`OrderedUpgrade.WorkerLabelChangesWhenClear`).
- For a fixed image list an image reads `Exists` only for a cause (`ImageRuns.ExistsHasACause`), and in every run no result crosses a rebuild generation (`ImageRuns.GenerationsAreIsolated`). The first holds for a filtered list if and only if no image's pod can pass for another's (`SharedKernel.CausesHoldIff`): a pod is found by its action and the DNS-safe form of its kernel, which two images may share.
- An image that can be built or signed comes to exist after at most thirteen steps that move it on, with any API calls failing and other images faring as they like (`ImageProgress.ImageComesToExist`), and there is always a next such step (`ImageProgress.NeverStuck`).
- Interleaved whole-list finalizer patches are exactly atomic operations on the list (`Finalizers.InterleavingsAreAtomic`, `Finalizers.AtomicRunsAreInterleavings`), and the DRA finalizer outlives what it protects (`DraFinalizer.FinalizerCoversResources`). The device-plugin finalizer does so except for node labels whose value drifted (`DevicePluginFinalizer.FinalizerCoversUndrifted`).
- Unloading names the modules in the opposite order of loading, exactly when no raw arguments are given (`LoadOrder.OrdersMirror`).
- A spoke resolves every claimed kernel as the hub does (`HubToSpoke.SpokeResolvesLikeHub`). This is false for in-tree lists when the deprecated fields disagree; the lemma gives the exact condition and `HubToSpoke.DeprecatedFieldsCanDisagree` an input.

## Where the code and its description differ

- The comment on the rewrite for spokes speaks of dropping builds and signatures. The code also makes a kernel resolve that the hub rejects because of its sign templates: `HubToSpoke.OnlySignFails` is that case and `HubToSpoke.SpokeCanResolveMore` an input.
- The webhook accepts empty raw arguments beside a module name and a loading order, and the worker then calls modprobe with no arguments at all (`LoadOrder.EmptyRawArgsNameNothing`).
- `GarbageCollectInUseLabels` derives a label key from a pod's name instead of its namespace; the model does the same.
- An image in state `DoesNotExist` that has only a sign section is handed to the MBSC as a build; its template then dereferences a missing section. The model keeps that as the `MissingSection` outcome, which ends the pass.

## Model

| member | source | states |
|---|---|---|
| `NodeModules.DecodeIntoZeroIsExact` | internal/controllers/nmc_reconciler.go:545-561 | decoding a config annotation into a fresh entry gives back the annotation |
| `NodeModules.DecodeIsIdempotent` | internal/controllers/nmc_reconciler.go:545-561 | decoding the same annotation again changes nothing |
| `NodeModules.DecodeExactIff` | internal/controllers/nmc_reconciler.go:545-561 | decoding into an existing entry is exact if and only if the document writes every optional field the entry had |
| `NmcPass.SyncListLookup` | internal/controllers/nmc_reconciler.go:490-603 | with one pod per module, folding a pod list gives each module an entry that depends only on its own pod and entry |
| `NmcPass.SyncStatusConfluent` | internal/controllers/nmc_reconciler.go:490-603 | any two orders of the same pods give the same statuses |
| `NmcPass.LoaderRecordsItem` | internal/controllers/nmc_reconciler.go:545-582 | a finished loader pod of a spec records the spec's whole item and this boot; an older image secret stays only where the spec names none |
| `NmcPass.UndecodableRecordsNothing` | internal/controllers/nmc_reconciler.go:545-561 | annotations that do not decode add no entry and change of one only the configuration, when that part decoded |
| `NmcPass.SyncModuleIdempotent` | internal/controllers/nmc_reconciler.go:490-603 | a pod applied twice to an entry leaves what it left the first time |
| `NmcPass.SyncStatusRetrySafe` | internal/controllers/nmc_reconciler.go:490-603 | any subset of the pods left over by failed deletions changes nothing when synced again |
| `NmcPass.SyncRetried` | internal/controllers/nmc_reconciler.go:490-603 | a decode or patch error leaves every pod where it was; running again after any failure, failed deletions included, ends with the statuses a clean first run would have written |
| `NmcPass.ReconcileKeepsKeyed` | internal/controllers/nmc_reconciler.go:65-167 | a whole pass, with any faults, keeps every entry and pod under its own module's key |
| `NmcPass.ProcessSpecMeaning` | internal/controllers/nmc_reconciler.go:335-400 | without a worker pod, one is created exactly when the entry is not up to date; a loader never over another configuration recorded for its kernel, an unloader only to take such a one away; calling again before the pod moves changes nothing |
| `NmcPass.ProcessSpecKeepsPod` | internal/controllers/nmc_reconciler.go:370-400 | an existing pod stays, except a restarted loader of an outdated template, which goes |
| `NmcReconciler.StatusList.FindModuleStatus` | internal/nmc/helper.go:104-114 | finds the first entry of the module or reports that there is none |
| `NmcReconciler.StatusList.RemoveModuleStatus` | internal/nmc/helper.go:116-130 | removes exactly the module's entries from the map view and keeps keys distinct |
| `NmcReconciler.StatusList.SetModuleStatus` | internal/nmc/helper.go:132-144 | sets exactly the module's entry in the map view and keeps keys distinct |
| `NmcReconciler.SpecList.GetModuleSpecEntry` | internal/nmc/helper.go:86-93 | finds the first spec entry of the module or reports that there is none |
| `NmcReconciler.SpecList.SetModuleConfig` | internal/nmc/helper.go:46-76 | sets exactly the module's spec entry, with the default service account, and leaves the others in place |
| `NmcReconciler.SpecList.RemoveModuleConfig` | internal/nmc/helper.go:78-84 | removes exactly the module's spec entry; without an entry the list stays as it is |
| `NmcReconciler.NmcReconciler.SyncLoaderPod` | internal/controllers/nmc_reconciler.go:545-582 | a succeeded loader pod changes the status map as `SyncModule` says, of which `NmcPass.LoaderRecordsItem` states what is recorded, and a malformed annotation is an error |
| `NmcReconciler.NmcReconciler.SyncPod` | internal/controllers/nmc_reconciler.go:516-584 | one pod changes the status map as `SyncStep` says and is retired exactly when its phase and its module's record ask for it |
| `NmcReconciler.NmcReconciler.SyncPods` | internal/controllers/nmc_reconciler.go:516-584 | the loop over the listed pods leaves the statuses of the order-free sync and retires exactly the pods it should |
| `NmcReconciler.NmcReconciler.SyncStatus` | internal/controllers/nmc_reconciler.go:490-603 | equals the sync phase of the pass: pods are deleted only after the status patch went through |
| `NmcReconciler.NmcReconciler.DeletePods` | internal/controllers/nmc_reconciler.go:596-602 | removes exactly the doomed pods whose deletion is not refused, in any order |
| `NmcReconciler.NmcReconciler.ProcessUnconfiguredModuleStatus` | internal/controllers/nmc_reconciler.go:409-460 | drops an orphaned entry after a reboot, otherwise leaves the pod as `ProcessOrphan` decides, of which `PassDecisions.CreatesIff` and `OrphanRuns.UnloadsWithOnePod` state what it comes to |
| `NmcReconciler.NmcReconciler.ProcessSpecs` | internal/controllers/nmc_reconciler.go:104-128 | the loop over the spec leaves each module's pod as decided for it alone, skips entries the node does not admit and reports whether there was one, and returns exactly the entries without a spec |
| `NmcReconciler.NmcReconciler.ProcessOrphans` | internal/controllers/nmc_reconciler.go:133-142 | in any order, the loop over the orphans leaves each module's pod and entry as decided for it alone |
| `NmcReconciler.NmcReconciler.GarbageCollectInUseLabels` | internal/controllers/nmc_reconciler.go:277-323 | the in-use labels kept are exactly those that spec, status or a pod name account for; a failing patch keeps all, and a patch that goes through brings the stored statuses back into the object |
| `NmcReconciler.NmcReconciler.GarbageCollectWorkerPods` | internal/controllers/nmc_reconciler.go:240-275 | removes exactly the pods whose module name is nowhere in the NMC and whose deletion goes through |
| `NmcReconciler.NmcReconciler.Reconcile` | internal/controllers/nmc_reconciler.go:65-167 | one pass over the API objects, in its loops and any map order, is the pass function that the run lemmas are about; pods are collected against the statuses the object holds after the label patch |
| `NodeRuns.SyncSucceedsIff` | internal/controllers/nmc_reconciler.go:490-603 | the sync reports success exactly when there was no pod, or every finished loader decodes, the patch is accepted and no pod to delete is refused |
| `PassDecisions.CreatesIff` | internal/controllers/nmc_reconciler.go:335-460 | a pass makes a pod for a module without one exactly when a configured module the node admits is not up to date, or an unconfigured one has an entry not of an earlier boot, and the calls go through; and whether that pod loads the spec or unloads the entry |
| `PassDecisions.WorkingPodGoesIff` | internal/controllers/nmc_reconciler.go:335-460 | a pod at work goes exactly when it is an outdated restarted one, or a loader of a module to be unloaded, and the calls go through |
| `PassDecisions.EntryGoesIff` | internal/controllers/nmc_reconciler.go:409-430 | an entry without a pod goes exactly when it is unconfigured, of an earlier boot of a Ready node, and its removal goes through |
| `PassDecisions.DonePodStaysIff` | internal/controllers/nmc_reconciler.go:516-602 | a finished pod, or a running one neither spec nor status knows, stays exactly when the sync does not get to delete it |
| `PassDecisions.UnknownPodGoesIff` | internal/controllers/nmc_reconciler.go:240-275 | a waiting pod of an unknown module name goes exactly when the collection is reached, on a node that admits all configured modules, and the deletion goes through |
| `PassDecisions.DroppedEntrySparesPodIff` | internal/controllers/nmc_reconciler.go:240-323 | the waiting pod of an entry whose removal was refused is spared exactly when the label patch brought the entry back |
| `PassDecisions.LabelGoesIff` | internal/controllers/nmc_reconciler.go:277-323 | the in-use label of a module without a pod goes exactly when the collection is reached, the patch is accepted and neither spec, nor an entry of this boot, nor a pod named like its namespace speaks for it |
| `RecordedItems.ConvergedRecordsItem` | internal/controllers/nmc_reconciler.go:545-582 | in every run, with any calls failing, a module that converges by a pod created on the way has the spec's whole item on record, and one that had no entry has exactly the spec's item and configuration and this boot |
| `OrphanRuns.PassClears` | internal/controllers/nmc_reconciler.go:409-460 | whatever calls fail, a pod created for an orphan is one fewer to come, and a pass that moves the unloading on is one step fewer to come |
| `OrphanRuns.UnloadsWithOnePod` | internal/controllers/nmc_reconciler.go:409-460 | in every run a module outside the spec with an entry of this boot is gone exactly when the steps to come have been taken, two passes without a pod at the start; by then exactly one pod was created, none after it, and on a reachable node the kernel module is out of the kernel |
| `OrphanRuns.UnloaderCarriesLoadedItem` | internal/controllers/nmc_reconciler.go:432-460 | every pod made for a module that was loaded from nothing and then unconfigured unloads what its loader loaded, with the same item and no version |
| `NodeRuns.StepKeepsNodeInv` | internal/controllers/nmc_reconciler.go:65-167 | every step keeps the live configuration on record and the log separated |
| `NodeRuns.LoadsSeparatedInEveryRun` | internal/controllers/nmc_reconciler.go:335-460 | in every run two consecutive successful loads of a module for one kernel have a successful unload of it or a reboot between them |
| `NodeRuns.PassOnModule` | internal/controllers/nmc_reconciler.go:65-167 | what a pass, whatever calls fail, makes of one module's entry and pod, through all phases |
| `NodeRuns.SlotPass` | internal/controllers/nmc_reconciler.go:335-603 | whether the status patch, the deletion of a finished pod and the processing happen or not, one created pod is one fewer to come and a pass with the needed calls is one fewer to come |
| `NodeRuns.PassAdvances` | internal/controllers/nmc_reconciler.go:335-400 | for every set of failing calls, a created pod lowers the pods left by one, and a pass with work to do whose calls for the module go through lowers the passes left by one; nothing else changes either |
| `NodeRuns.BenignRunConserves` | internal/controllers/nmc_reconciler.go:335-603 | over any run in which API calls may fail, pods created plus pods left and advancing passes plus passes left stay constant |
| `NodeRuns.ConvergesWithinThreePods` | internal/controllers/nmc_reconciler.go:335-603 | from a state without a worker pod at most three pods are ever created, with any API calls failing; the run has converged exactly when the passes left have been taken, and a converged module gets no further pod |
| `WorkerExclusion.WorkerPodNameIsInjective` | internal/pod/workerpodmanager.go:657-659 | on one node a worker pod's name determines its module's name |
| `WorkerExclusion.NodesCanShareAName` | internal/pod/workerpodmanager.go:657-659 | on two nodes two modules can have one worker pod name |
| `WorkerExclusion.PassNeverReplaces` | internal/controllers/nmc_reconciler.go:335-460 | in every phase of a pass a module's pod is created where there is none, deleted, or left, never edited |
| `WorkerExclusion.CallsKeepMatch` | internal/pod/workerpodmanager.go:101-148 | carrying out a phase's creations and deletions by name, in any order, keeps store and module view alike, and no creation finds its name taken |
| `WorkerExclusion.StoreStepKeepsMatch` | internal/controllers/nmc_reconciler.go:65-167 | every step of a run keeps the store, keyed by namespace and pod name, equal to the pods by module |
| `WorkerExclusion.StoreRunExists` | internal/controllers/nmc_reconciler.go:65-167 | every run of the node can be followed by the store |
| `WorkerExclusion.OneWorkerPodPerModule` | internal/controllers/nmc_reconciler.go:335-460 | in every run, with any failing calls, the store holds at most one worker pod per module, no two modules share one, and no creation was refused |
| `WorkerExclusion.NoCreationRefused` | internal/pod/workerpodmanager.go:101-148 | along every run from a matching store, whatever order a phase's calls come in, every creation finds its name free |
| `UnloadBeforeDelete.CollectKeepsLabelledIff` | internal/controllers/nmc_reconciler.go:240-323 | garbage collection keeps the labels of everything present if and only if nothing is stranded |
| `UnloadBeforeDelete.PassKeepsLabelledIff` | internal/controllers/nmc_reconciler.go:65-167 | the same for a whole pass with any faults |
| `UnloadBeforeDelete.DistinctNamesStrandNothing` | internal/controllers/nmc_reconciler.go:240-323 | with names distinct on the node and no lost deletion or removal, a pass strands nothing |
| `UnloadBeforeDelete.SharedNameLosesLabel` | internal/controllers/nmc_reconciler.go:240-323 | with a name shared by two namespaces a pass takes the label of a module whose pod is still there |
| `UnloadBeforeDelete.RefusedDeletionLosesLabel` | internal/controllers/nmc_reconciler.go:240-323 | a deletion refused to the collection takes the label of a pod that stays |
| `UnloadBeforeDelete.RefusedRemovalLosesLabel` | internal/controllers/nmc_reconciler.go:409-430 | a refused status patch takes the label of an orphaned entry that stays |
| `UnloadBeforeDelete.RunKeepsLabelled` | internal/controllers/module_reconciler.go:246-291 | over runs of both reconcilers on all NMCs, in which NMC passes may have any faults that strand nothing, the labels cover every module present |
| `UnloadBeforeDelete.ReleasedOnlyWhenUnloaded` | internal/controllers/module_reconciler.go:246-291 | in such runs, when the finalizer is released no NMC has the module in spec, status or a worker pod |
| `UnloadBeforeDelete.CarefulRunIsRun` | internal/controllers/nmc_reconciler.go:65-167 | when only planned modules are enabled, with distinct names per node, and no removal or collected deletion is lost, no pass of the run strands anything and nothing unplanned appears on a node |
| `UnloadBeforeDelete.CarefulRunUnloadsFirst` | internal/controllers/module_reconciler.go:246-291 | in every such run from no NMCs the labels cover every module present and the finalizer is released only when no NMC has the module |
| `UnloadBeforeDelete.ModuleReconciler.EnableModuleOnNode` | internal/controllers/module_reconciler.go:392-440 | editing the spec list and labels of the API object adds exactly that module to the map view of one NMC, with the service account defaulted, keeps list keys distinct and every module present labelled; nothing changes when the image does not exist |
| `UnloadBeforeDelete.ModuleReconciler.RemoveModuleFromNmc` | internal/controllers/module_reconciler.go:450-468 | editing the spec list takes exactly that module out of the map view; it stays present only by its status or a worker pod, and every module present stays labelled |
| `UnloadBeforeDelete.ModuleReconciler.RemoveFromConfigured` | internal/controllers/module_reconciler.go:246-269 | takes the module out of every NMC that lists it, except where the patch is refused, and reports exactly those |
| `UnloadBeforeDelete.ModuleReconciler.FinalizeModule` | internal/controllers/module_reconciler.go:246-291 | takes the module out of every NMC it can and releases the finalizer exactly when all removals went through and no NMC is in use, and then nothing of the module is left |
| `OrderedUpgrade.UnguardedStepLowersRank` | internal/controllers/module_version_label_action_table.go:26-66 | on consistent labels an unguarded step keeps them consistent and lowers a rank of at most four; the table does nothing exactly at the fixpoint |
| `OrderedUpgrade.SettlesAfterRankPasses` | internal/controllers/module_version_label_action_table.go:26-66 | both labels equal the module label, or all are absent, after exactly rank many passes and not before |
| `OrderedUpgrade.DecisionIff` | internal/controllers/node_label_module_version_reconciler.go:178-266 | on any labels, exactly when each label is set or removed and exactly when a module has to wait, read off the label values, the pods and the ready label |
| `OrderedUpgrade.DecisionFits` | internal/controllers/node_label_module_version_reconciler.go:178-228 | from consistent labels the worker label is removed only with no schedule label and no pod, and set only where it is absent, to the module label, with no ready label |
| `OrderedUpgrade.StepKeepsUpgradeInv` | internal/controllers/node_label_module_version_reconciler.go:155-266 | every step, also between reading and patching, keeps the pods on the worker label and a pending patch fitting |
| `OrderedUpgrade.UpgradeSafety` | internal/controllers/node_label_module_version_reconciler.go:155-266 | in every run a schedule pod of version v implies the worker-pod label is v, and the table has a row for the labels |
| `OrderedUpgrade.WorkerLabelChangesWhenClear` | internal/controllers/node_label_module_version_reconciler.go:178-228 | in every run a patch that sets the worker label was decided from a reading without the ready label, for the module label read, and finds no worker label; one that removes it finds no schedule label and no versioned pod |
| `OrderedUpgrade.TableIsExact` | internal/controllers/module_version_label_action_table.go:26-66 | the eight table keys are exactly the label states of reachable worlds |
| `VersionLabelPass.GetLabelsPerModules` | internal/controllers/node_label_module_version_reconciler.go:92-120 | on any labels and in any map order, one entry per map key, for a module with that key, each value from a label of that key; without collisions, one entry per module with exactly its three labels |
| `VersionLabelPass.GatheredIsPerModule` | internal/controllers/node_label_module_version_reconciler.go:92-120 | on printed labels of dot-free modules with distinct map keys every such entry is one module's own |
| `VersionLabelPass.VersionLabelParses` | internal/utils/kmmlabels.go:30-52 | every version label parses, so the error path of the loop is never taken |
| `VersionLabelPass.CollidingModulesShareAnEntry` | internal/controllers/node_label_module_version_reconciler.go:104-107 | of two modules with one map key, such as a-b/c and a/b-c, the loop leaves an entry for only one |
| `VersionLabelPass.MapKeysCanCollide` | internal/controllers/node_label_module_version_reconciler.go:104-107 | on a node with a version label for each of a-b/c and a/b-c no map the loop can leave is per module |
| `VersionLabelPass.GetLoadedKernelModules` | internal/controllers/node_label_module_version_reconciler.go:144-153 | lists exactly the modules with a kernel-module-ready label |
| `VersionLabelPass.ReconcileLabels` | internal/controllers/node_label_module_version_reconciler.go:178-205 | additions and deletions are exactly those the modules' own decisions ask for, and it requeues exactly when some module's worker label is due to go while it has schedule pods or due to come while its kernel module is ready |
| `VersionLabelPass.UpdateNodeLabels` | internal/controllers/node_label_module_version_reconciler.go:155-176 | the patched map has the additions, lacks the deletions and is otherwise what it was |
| `VersionLabelPass.ExtractWithLabel` | internal/utils/kmmlabels.go:18-52 | writing one version label changes the labels of its own module only |
| `VersionLabelPass.AddsAndDeletesAreDisjoint` | internal/controllers/node_label_module_version_reconciler.go:178-205 | no label is both added and deleted |
| `VersionLabelPass.Reconcile` | internal/controllers/node_label_module_version_reconciler.go:51-72 | on every module the batch pass is the single-module step applied to the labels as they are at patch time, requeued exactly when some module has to wait for schedule pods to go or its kernel module to be unloaded; on any labels at all only worker-pod and schedule-pod labels of modules named on the node are touched, a worker label is set only without a ready label and removed only without schedule pods |
| `Scheduling.NodeActionMeaning` | internal/controllers/module_reconciler.go:632-659 | exactly when the module is added and when deleted; it ends up configured exactly where its version may run or is still being moved off |
| `Scheduling.PrepareSchedulingData` | internal/controllers/module_reconciler.go:323-350 | errored nodes are never touched, every other targeted node gets its own action, every NMC outside the targeted nodes gets a delete |
| `Scheduling.SchedulePodKeepsItsVersion` | internal/controllers/module_reconciler.go:632-659 | after any upgrade run, with a schedule pod of version v on the node a versioned mapping is never deleted and is added only for v |
| `KernelNames.DnsSafeIsCanonical` | internal/kernel/kernel.go:5-21 | every kernel version becomes a DNS name and DNS names are fixed, so normalising again changes nothing |
| `KernelNames.DnsSafeIsCharwise` | internal/kernel/kernel.go:5-21 | a version that starts and ends with a letter or digit keeps its length; upper case is lowered and all but letters and digits becomes a dash |
| `ImagePipeline.SpecOfIsFirst` | internal/mic/mic.go:90-97 | the first spec of the image in the list is returned, or none when there is none |
| `ImagePipeline.SetStateReads` | internal/mic/mic.go:99-111 | afterwards the image reads the new state and every other image reads as before |
| `ImagePipeline.SetTaskReads` | internal/mbsc/mbsc.go:112-124 | afterwards the image has the new task and every other image the one it had |
| `ImagePipeline.SetResultReads` | internal/mbsc/mbsc.go:88-101 | afterwards the image has the new result and every other image the one it had |
| `ImagePipeline.SyncPodMeaning` | internal/buildsign/manager.go:69-121 | a sync touches no pod but its own and never another owner's, a pod it makes is owned, unfinished and for its own image, an owned pod goes exactly when its template changed and its deletion does not linger, and repeating the sync under an unchanged template changes nothing |
| `ImageRuns.StepKeepsGenInv` | internal/controllers/mic_reconciler.go:134-164 | every step keeps the MBSC in the current generation and its results its own |
| `ImageRuns.GenerationsAreIsolated` | internal/controllers/mic_reconciler.go:134-268 | in every run a build or sign result is used only in the generation its MBSC was created in |
| `ImageRuns.StepExtendsLog` | internal/controllers/mic_reconciler.go:66-101 | the history the isolation is stated on only grows |
| `ImageRuns.AdoptedExactlyOnce` | internal/controllers/mic_reconciler.go:134-164 | a changed trigger is adopted by the first pass that can and never again until it changes |
| `ImageRuns.AdoptingPassStartsOver` | internal/controllers/mic_reconciler.go:134-164 | the new trigger is on record only with no MBSC and no image state left, the MBSC goes first, and until then a pass uses no result and starts nothing, whatever fails |
| `ImageRuns.PulledStateOf` | internal/controllers/mic_reconciler.go:166-207 | with one pull pod per image an image reads what its own pod makes of it, or what it read before |
| `ImageRuns.PullPodsConfluent` | internal/controllers/mic_reconciler.go:166-207 | the states do not depend on the order in which the pull pods are listed |
| `ImageRuns.ResultStatesOk` | internal/controllers/mic_reconciler.go:225-268 | results turned into states give `Exists` only to justified images and `NeedsSigning` only to images with a sign section |
| `ImageRuns.CollectedOk` | internal/controllers/mbsc_reconciler.go:117-134 | with one spec per image and no pod that can pass for another's, a finished pod found by action and DNS-safe kernel for an image's last action was made for that very image, so a collected success was really made |
| `ImageRuns.StepKeepsProvInv` | internal/controllers/mic_reconciler.go:166-308 | every step of MIC, MBSC and pods keeps the provenance invariant |
| `ImageRuns.ExistsHasACause` | internal/controllers/mic_reconciler.go:166-308 | in every run of a fixed image list with one spec per image and no pod that can pass for another's, `Exists` only after a successful pull, or a sign pod of the current generation when the image has Sign, or a build pod of it when not |
| `SharedKernel.PassingPodForgesExists` | internal/buildsign/resource/resourcemanager.go:76-96 | for any filtered list in which one image's pod can pass for another's last build or signature, a run from the start after which the other reads `Exists` without a pull or a pod of its own having finished that action |
| `SharedKernel.CausesHoldIff` | internal/buildsign/resource/resourcemanager.go:76-96 | for a filtered list, `Exists` has a cause in all its runs if and only if no image's pod can pass for another's |
| `ImageRuns.FailedPullIsHandled` | internal/controllers/mic_reconciler.go:183-205 | for a fixed image list pull pods are one-time pods exactly when there is a build, a signature or leave to skip, so the branch for a failed pull without any is never taken |
| `ImageReadings.StateAfterPass` | internal/controllers/mic_reconciler.go:166-268 | what an image reads after a pass: `Exists` for a successful pull, the section to fall back on for one given up on, then what its build or sign result says, as far as the patches are accepted |
| `ImageReadings.CauseIsRead` | internal/controllers/mic_reconciler.go:202-263 | the converse of provenance: a successful pull patched in, and a success of the image's last action that is read, make it read `Exists` |
| `ImageReadings.AskedAfterPass` | internal/controllers/mic_reconciler.go:270-308 | which action and which pull pod a pass asks for on behalf of an image, the pod one-time exactly when there is something to fall back on; pull pods that are over go |
| `ImageReadings.ResultAfterPass` | internal/controllers/mbsc_reconciler.go:117-134 | an image's result is how its task's own pod ended, as far as it can be listed, or what it was |
| `ImageReadings.PodAfterPass` | internal/controllers/mbsc_reconciler.go:136-154 | a task's pod is made, kept or dropped for a changed template unless the action succeeded or nothing can be made; only a succeeded pod is collected |
| `ImageReadings.SucceededPodsGo` | internal/buildsign/manager.go:123-152 | after a pass without errors the only succeeded pods left are those whose deletion is not carried out yet |
| `ImageReadings.ErrorsCollectNothing` | internal/controllers/mbsc_reconciler.go:66-94 | a pass in which a task cannot be prepared collects nothing |
| `ImageProgress.StepMoves` | internal/controllers/mic_reconciler.go:66-308 | no step sets an image back, and one that it waits for, with its calls going through, brings it at least one step nearer |
| `ImageProgress.ImageComesToExist` | internal/controllers/mic_reconciler.go:66-308 | in every run of passes of both controllers, with any calls failing, at most thirteen steps move an image on; after as many as its rank it exists, and it stays |
| `ImageProgress.NeverStuck` | internal/controllers/mbsc_reconciler.go:66-154 | while it does not exist, some pass or pod finishing moves it on, as long as no task of another image ends the MBSC pass |
| `ImageReconcilers.FilterDuplicateImages` | internal/mic/mic.go:139-149 | one spec per image remains, the first of each image |
| `ImageReconcilers.FilteredIsSeparate` | internal/mic/mic.go:139-149 | a filtered list has one spec per image, and meets the hypothesis of the provenance lemmas when images of one DNS-safe kernel are one image |
| `ImageReconcilers.MicReconciler.CreateOrPatch` | internal/mic/mic.go:43-78 | writes the filtered image list and the trigger as the two spec edits of the runs |
| `ImageReconcilers.MicReconciler.SetImageStatus` | internal/mic/mic.go:99-111 | the search loop overwrites or appends as `SetState` |
| `ImageReconcilers.MicReconciler.UpdateStatusByPullPods` | internal/controllers/mic_reconciler.go:166-223 | the states become those of the pods in list order, and pods are deleted only after the patch |
| `ImageReconcilers.MicReconciler.UpdateStatusByMbsc` | internal/controllers/mic_reconciler.go:225-268 | the states become those of the results in list order, or stay when the patch fails |
| `ImageReconcilers.MicReconciler.CreateOrPatchMbsc` | internal/mbsc/mbsc.go:63-77 | one task per image, in a new MBSC with a fresh identity when there is none |
| `ImageReconcilers.MicReconciler.ProcessImagesSpecs` | internal/controllers/mic_reconciler.go:270-308 | the loop over the images creates pull pods and tasks as the images phase says |
| `ImageReconcilers.MicReconciler.Reconcile` | internal/controllers/mic_reconciler.go:66-101 | one pass is the pass function of the runs |
| `ImageReconcilers.MbscReconciler.UpdateStatus` | internal/controllers/mbsc_reconciler.go:117-134 | results become those of the owned pods that could be listed; a failed listing or an unknown phase fails the pass after the patch |
| `ImageReconcilers.MbscReconciler.ProcessImagesSpecs` | internal/controllers/mbsc_reconciler.go:136-154 | tasks that succeeded are skipped, a missing section ends the loop, failing templates, listings and creations do not |
| `ImageReconcilers.MbscReconciler.GarbageCollect` | internal/buildsign/manager.go:123-152 | removes exactly the owned pods that succeeded and whose deletion is carried out |
| `ImageReconcilers.MbscReconciler.Reconcile` | internal/controllers/mbsc_reconciler.go:66-94 | one pass is the pass function of the runs |
| `Finalizers.InterleavingsAreAtomic` | internal/controllers/dra_reconciler.go:195-236 | every interleaving of read, whole-list patch, conflict and foreign writes has the list of a run of atomic add-own, remove-own and foreign changes |
| `Finalizers.AtomicRunsAreInterleavings` | internal/controllers/module_reconciler.go:223-243 | every run of such atomic changes is produced by an interleaving |
| `Finalizers.OpTouchesOwnOnly` | internal/controllers/device_plugin_reconciler.go:185-219 | an operation leaves all other finalizers in place and in order, and its own is there afterwards exactly when it was an addition |
| `Finalizers.NobodyTouchesAnothers` | internal/controllers/device_plugin_reconciler.go:185-219 | while a controller does not patch, its finalizer is neither dropped nor restored, and the foreign part of the list is what the last foreign writer wrote |
| `Finalizers.BlindPatchUndoes` | internal/controllers/module_reconciler.go:230-234 | of two controllers that read the same version, the second undoes the first without the version check and changes nothing with it |
| `DraFinalizer.FinalizerCoversResources` | internal/controllers/dra_reconciler.go:102-160 | in every run, with passes ending after any call and deletion at any time, a label, DaemonSet or DeviceClass implies the Module exists and holds the finalizer |
| `DraFinalizer.ReleasedOnlyWhenClean` | internal/controllers/dra_reconciler.go:214-236 | the finalizer is lost only by the release patch and only with nothing left behind |
| `DraFinalizer.DeletingIsNeverTakenUp` | internal/controllers/dra_reconciler.go:102-160 | in every run a Module being deleted is never given the finalizer |
| `DraFinalizer.StalePatchChangesNothing` | internal/controllers/dra_reconciler.go:195-236 | a pass that read another version neither sets nor releases it |
| `DraFinalizer.DraReconciler.SetFinalizer` | internal/controllers/dra_reconciler.go:198-206 | after success the Module is held before anything is written; a conflict ends the pass with nothing changed |
| `DraFinalizer.DraReconciler.HandleTargetLabels` | internal/controllers/dra_reconciler.go:243-271 | schedulable nodes get the label, the other selected nodes lose it, failing and unselected nodes stay |
| `DraFinalizer.DraReconciler.RemoveTargetLabels` | internal/controllers/dra_reconciler.go:277-294 | every labelled node loses the label whatever its value, except where the patch fails |
| `DraFinalizer.DraReconciler.FinalizeModule` | internal/controllers/dra_reconciler.go:214-236 | the Module is released exactly when no DaemonSet and no DeviceClass was left and no call failed |
| `DevicePluginFinalizer.FinalizerCoversUndrifted` | internal/controllers/device_plugin_reconciler.go:92-147 | in every run a DaemonSet, and a label on any node whose label never got another value, implies the Module exists and holds the finalizer |
| `DevicePluginFinalizer.ReleaseLeavesSkipped` | internal/controllers/device_plugin_reconciler.go:195-219 | the finalizer is lost only by the release patch, with no DaemonSet left and labels only on nodes the listing skipped |
| `DevicePluginFinalizer.DeletingIsNeverTakenUp` | internal/controllers/device_plugin_reconciler.go:92-147 | in every run a Module being deleted is never given the finalizer |
| `DevicePluginFinalizer.StalePatchChangesNothing` | internal/controllers/device_plugin_reconciler.go:185-219 | a pass that read another version neither sets nor releases it |
| `DevicePluginFinalizer.DevicePluginReconciler.RemoveTargetLabels` | internal/controllers/device_plugin_reconciler.go:303-320 | exactly the labels with the empty value go, except where the patch fails |
| `DevicePluginFinalizer.DevicePluginReconciler.FinalizeModule` | internal/controllers/device_plugin_reconciler.go:195-219 | the Module is released exactly when no DaemonSet was left and no call failed, and the labels left behind are exactly those with another value |
| `DevicePluginFinalizer.DriftedLabelOutlivesModule` | internal/controllers/device_plugin_reconciler.go:303-320 | a run in which a label whose value drifted stays on its node after the Module is gone |
| `DeviceClasses.DraReconciler.HandleDeviceClasses` | internal/controllers/dra_reconciler.go:517-564 | each class ends as its outcome says: desired, deleted because stale, or untouched; failing calls leave it |
| `DeviceClasses.WantedIsLast` | internal/controllers/dra_reconciler.go:517-564 | of several desired entries of one name the last one counts |
| `DeviceClasses.PassConverges` | internal/controllers/dra_reconciler.go:512-564 | the Module owns exactly the desired classes with the desired specs, others are untouched, and a second pass changes nothing |
| `KernelClaim.ClusterClaim` | internal/controllers/node_kernel_clusterclaim.go:47-73 | the value lists the distinct kernels of the nodes in order |
| `KernelClaim.SortedIsUnique` | internal/controllers/node_kernel_clusterclaim.go:53-62 | two sorted lists of the same strings are equal |
| `KernelClaim.CanonicalIsUnique` | internal/controllers/node_kernel_clusterclaim.go:53-62 | the list does not depend on the order or number of the nodes |
| `KernelClaim.KernelVersions` | internal/cluster/cluster.go:64-76 | the hub's list is the value of the first claim of that name, split and sorted; without the claim there is an error |
| `KernelClaim.HubReadsClaim` | internal/cluster/cluster.go:64-76 | for newline-free kernels the hub reads back the spoke's list exactly |
| `KernelClaim.HubSeesKernel` | internal/cluster/cluster.go:64-76 | a newline-free kernel reaches the hub whatever the other nodes report |
| `KernelMapper.FirstVerdictDecides` | internal/module/kernelmapper.go:68-86 | the first mapping that matches or is malformed decides, and no mapping when all say no |
| `KernelMapper.CompleteMappingOverrides` | internal/module/kernelmapper.go:88-149 | a mapping that sets image and in-tree list decides the resolution whatever the container names, the deprecated field excepted where the mapping leaves its own empty |
| `KernelMapper.LiteralDecides` | internal/module/kernelmapper.go:68-86 | a mapping that names the kernel matches whatever its pattern; without a pattern it does not match otherwise |
| `KernelTemplates.VariablesHoldParts` | internal/utils/replaceStrings.go:19-36 | for a version read as x, y and z between separators, the variables are exactly x, y, z, their dotted join and the version, each under its name |
| `KernelTemplates.VariablesIff` | internal/utils/replaceStrings.go:19-36 | there are variables exactly for versions with two separators or more |
| `KernelTemplates.NormalizeChars` | internal/kernel/kernel.go:5-15 | normalising replaces every character but letters, digits, dash, dot and underscore by an underscore, and nothing else |
| `KernelTemplates.ShortKernelNeverResolves` | internal/utils/replaceStrings.go:19-36 | a kernel version with fewer than two dots and dashes resolves nowhere |
| `KernelTemplates.ResolvesIff` | internal/module/kernelmapper.go:88-229 | a kernel resolves exactly when image, unsigned image and files can be filled in; the mapping's image and unsigned image win, the files are the container's followed by the mapping's, a build may come from either, the deprecated in-tree field wins over the lists |
| `KernelTemplates.ImageResolves` | internal/module/kernelmapper.go:151-165 | under substitution by name, an image template resolves to its text with x, y, z, the version and the Module's names in place of the variables |
| `HubToSpoke.ManagedClusterKernelMappings` | internal/manifestwork/manifestwork.go:204-243 | one literal mapping per kernel that resolves, in list order |
| `HubToSpoke.SetManifestWorkAsDesired` | internal/manifestwork/manifestwork.go:122-187 | the spoke Module is built from the loader at entry, and the shared loader itself is overwritten |
| `HubToSpoke.LiteralsFind` | internal/manifestwork/manifestwork.go:204-251 | looking up a listed kernel among the literals finds exactly what the hub resolved it to |
| `HubToSpoke.StrippingKeepsMeaning` | internal/module/kernelmapper.go:88-165 | dropping builds and signatures changes neither image nor in-tree list, and helps a kernel resolve exactly when its sign templates were at fault |
| `HubToSpoke.SpokeFollowsStripped` | internal/manifestwork/manifestwork.go:122-251 | on the stripped Module hub and spoke agree, with the exact condition for in-tree lists |
| `HubToSpoke.SpokeResolvesLikeHub` | internal/manifestwork/manifestwork.go:122-251 | every newline-free node kernel, a plus sign at its end left out, resolves on the spoke to the hub's image, with nothing to build or sign, and to its in-tree list if and only if the deprecated fields agree; or neither resolves |
| `HubToSpoke.NothingToBuildOrSign` | internal/manifestwork/manifestwork.go:131-136 | no build section, sign section or pattern reaches the spoke |
| `HubToSpoke.DeprecatedFieldsCanDisagree` | internal/module/kernelmapper.go:118-134 | with different deprecated in-tree fields the spoke removes another module than the hub |
| `HubToSpoke.SpokeCanResolveMore` | internal/manifestwork/manifestwork.go:131-136 | a kernel the hub rejects because of the container's sign templates resolves on the spoke |
| `LabelCodecs.VersionLabelRoundTripIff` | internal/utils/kmmlabels.go:18-36 | the parser inverts the three printers if and only if namespace and name are dot-free |
| `LabelCodecs.KindsAreDisjoint` | internal/utils/kmmlabels.go:38-52 | no label is of two version kinds |
| `LabelCodecs.VersionLabelsInjective` | internal/utils/kmmlabels.go:18-28 | printed version labels of different kinds or different dot-free modules differ |
| `LabelCodecs.MatchPairIff` | internal/utils/kmmlabels.go:107-124 | the matcher finds exactly the namespace and name groups of the pattern |
| `LabelCodecs.ReadyLabelRoundTripIff` | internal/utils/kmmlabels.go:75-124 | the ready-label parser returns what was printed if and only if both parts are well formed and the name does not end in `.version` after a non-empty prefix |
| `LabelCodecs.NmcLabelsRoundTripIff` | internal/nmc/labels.go:8-39 | configured and in-use labels round-trip exactly on well-formed parts and never coincide |
| `LoadOrder.ValidateModprobe` | internal/webhook/module.go:313-358 | accepts exactly consistent arguments with a loading order that is absent, or starts with the module name, has two or more entries and no duplicate, and a modprobe.d directory that is absent or a plain absolute path |
| `Paths.WellFormedIff` | internal/webhook/module.go:360-369 | the check accepts exactly rooted paths without empty, `.` or `..` components, one slash at the end allowed |
| `Paths.JoinPathAppends` | internal/worker/worker.go:93-162 | joining a plain directory, with or without a slash in front, appends it to the base |
| `Paths.CleanIsSameIff` | internal/webhook/module.go:360-369 | a rooted path passes exactly when it is the root or has no empty, `.` or `..` component |
| `LoadOrder.GetModulesOrderAnnotationValue` | internal/pod/workerpodmanager.go:661-667 | emits one softdep line per adjacent pair, in order |
| `LoadOrder.SoftdepsReadBack` | internal/pod/workerpodmanager.go:661-667 | what modprobe reads from the lines is that each module waits for the next one |
| `LoadOrder.LoadsInReverse` | internal/pod/workerpodmanager.go:661-667 | following the lines of an accepted order from the module name ends and loads each listed module once, last first |
| `LoadOrder.UnloadArgs` | internal/worker/worker.go:141-162 | the directory joined to the shared one and the other options first, then the loading order as listed, or the module alone |
| `LoadOrder.CommandsUseDifferentParts` | internal/worker/worker.go:93-162 | two configurations that differ only in order and parameters: the load arguments do not depend on the order, name the module just before the parameters and end with them; the unload arguments do not depend on the parameters |
| `LoadOrder.OrdersMirror` | internal/worker/worker.go:141-162 | for every accepted order, the names in the unload arguments are the reverse of what the softdep lines load from the module name, if and only if no raw arguments are given |
| `LoadOrder.AcceptedCommandsSaySomething` | internal/worker/worker.go:93-162 | both commands of an accepted configuration get arguments exactly when it has no name or no raw arguments |
| `LoadOrder.EmptyRawArgsNameNothing` | internal/webhook/module.go:313-327 | empty raw arguments beside a module name and an order are accepted, and both commands then name no module |
| `ShellQuoting.QuotedIsLiteral` | internal/pod/workerpodmanager.go:571-575 | in any context a quoted string adds its own characters, all quoted, to the current word |
| `ShellQuoting.QuotingRoundTrip` | internal/pod/workerpodmanager.go:571-575 | for every string the lexer yields one word equal to it with nothing unquoted, and quoting is injective |
| `ShellQuoting.QuotedArguments` | internal/pod/workerpodmanager.go:558-569 | two quoted arguments separated by a blank stay two arguments |

## Left out

- The Kubernetes client, watches, predicates and caches: reads are consistent and passes have the atomicity each module states.
- Pod, DaemonSet and volume templates, probes, security contexts and hash values: equal hashes stand for equal templates, and a changed build template is a parameter of the pass.
- YAML and JSON codecs, the regular expression engine and template substitution: decode is a field-wise model, the other two are function parameters.
- A config annotation that fails to decode half-way: the model takes it to write nothing into the entry.
- Ready labels, events and metrics of the NMC reconciler: they follow spec and status and feed nothing back into the pass.
- Taint and toleration matching: a node carries the toleration lists it admits.
- Deletion of an NMC with its node, and removal of pod finalizers: single guards.
- Worker pods of other nodes: pod names are injective in the module only for one node, so one node is modelled.
- VersionLabelPass.Reconcile: stated for version labels printed for dot-free modules whose `ns-name` map keys do not collide, because colliding modules share one entry (`VersionLabelPass.CollidingModulesShareAnEntry`).
- ImageProgress.ImageComesToExist: the image's own pull and pods do not fail for good, because a pull pod in an unexpected phase, and an image with only a sign section whose signing failed, are never moved on; images with neither section depend on the registry alone.
- Build and sign pods of other modules or of preflight: pods are those with the module's labels, and only the owner is compared; one name holds at most one pod, so the error for several matching pods does not arise.
- `DoAllImagesExist`, preflight validation and its version conversion: used by the preflight controller only.
- The DaemonSet node selector's target-label carry-over and the garbage collection of old DaemonSets: they only remove pods, which the upgrade runs allow at any time.
- Device-plugin DaemonSets without a Module finalizer from before it was introduced: runs start with no such object.
- `modprobe` itself, file copies, firmware and in-tree removal: softdep lines are read by exact names, without wildcards and without treating dash and underscore alike.
- UnloadBeforeDelete.ReleasedOnlyWhenUnloaded: runs are those whose NMC passes strand nothing, because a label is lost exactly otherwise (`UnloadBeforeDelete.PassKeepsLabelledIff`); `UnloadBeforeDelete.CarefulRunUnloadsFirst` gives a condition known before the run.
- LoadOrder.OrdersMirror: names must be non-empty and free of whitespace and backslashes and must not be `pre:` or `post:`, because a modprobe configuration file cannot carry such names.
- Scheduling.PrepareSchedulingData: node names are distinct, as in the API server.
- Webhook checks on image formats, signing paths and version transitions: single-branch validation.
