/**
 A module taken out of the spec while it is loaded: how many worker pods and passes it takes until the
 node has let go of it, with any API calls failing (internal/controllers/nmc_reconciler.go:409-460).
 */
module OrphanRuns {
  import opened Basics
  import opened NodeModules
  import opened NmcPass
  import opened NodeRuns
  import opened RecordedItems

  /** The pod that unloads an entry: its item without the version, its configuration. */
  predicate Unloads(p: WorkerPod, entry: ModuleStatus) {
    p.template == Template(Unload, entry.item.(version := ""), entry.config)
  }

  /**
   The module is not in the spec, and its entry is of this boot. Its pod has not failed: a loader left
   from before, or the unloader of the entry, which alone may outlive the entry.
   */
  ghost predicate Orphaned(w: World, m: Key) {
    && Keyed(w.state) && AllUntouched(w.state) && m !in w.state.spec
    && (m in w.state.status ==> w.state.status[m].bootId == w.node.bootId)
    && (m in w.state.pods ==> OrphanPod(w.state.pods[m], Lookup(w.state.status, m)))
  }

  predicate OrphanPod(p: WorkerPod, entry: Option<ModuleStatus>) {
    && p.phase != Failed
    && if entry.None? then p.template.action == Unload && p.phase == Succeeded
       else p.template.action == Unload ==> Unloads(p, entry.value)
  }

  /** Nothing of the module is left on the node. */
  predicate Gone(w: World, m: Key) { m !in w.state.status && m !in w.state.pods }

  /** Steps that leave the module out of the spec and do not reboot the node or fail its pods; API calls may fail. */
  ghost predicate Sparing(w: World, step: Step, m: Key) {
    && Enabled(w, step)
    && match step
       case PodMoves(k, phase) => k == m ==> phase != Failed
       case EditSpec(s, _) => m !in s
       case Reboot(_) => false
       case _ => true
  }

  /** Worker pods still to be created. */
  function PodsToCome(entry: Option<ModuleStatus>, pod: Option<WorkerPod>): nat {
    if entry.None? || (pod.Some? && pod.value.template.action == Unload) then 0 else 1
  }

  /** Steps still to be taken: deleting an unfinished loader or its finishing, making the unloader, clearing up after it. */
  function StepsToCome(entry: Option<ModuleStatus>, pod: Option<WorkerPod>): nat {
    if entry.None? then if pod.None? then 0 else 1
    else if pod.None? then 2
    else if pod.value.template.action == Unload then 1
    else if pod.value.phase == Succeeded then 2
    else 3
  }

  function Unloaders(w: World, m: Key): nat { PodsToCome(Lookup(w.state.status, m), Lookup(w.state.pods, m)) }

  function Clearing(w: World, m: Key): nat { StepsToCome(Lookup(w.state.status, m), Lookup(w.state.pods, m)) }

  /**
   The step moves the unloading on: a pass that finds no unloader and whose sync and worker calls go
   through, a pass whose status patch and deletion go through when the unloader is done, or an
   unfinished loader finishing.
   */
  ghost predicate Clears(w: World, step: Step, m: Key) {
    var pod := Lookup(w.state.pods, m);
    match step
    case Pass(f) =>
      if pod.Some? && pod.value.template.action == Unload then pod.value.phase == Succeeded && !f.statusPatch && m !in f.syncDelete
      else m in w.state.status && SyncCallsPass(w.state, f) && m !in f.worker
    case PodMoves(k, phase) => k == m && phase == Succeeded && pod.Some? && pod.value.template.action == Load
    case _ => false
  }

  lemma ProcessOnOrphan(s: NodeState, node: Node, f: Faults, m: Key)
    requires m !in s.spec && (m in s.status ==> s.status[m].bootId == node.bootId)
    ensures var s2 := ProcessPhase(s, node, f);
            && Lookup(s2.status, m) == Lookup(s.status, m)
            && (m in s.status && m !in f.worker ==> Lookup(s2.pods, m) == ProcessOrphan(s.status[m], Lookup(s.pods, m)))
            && (m !in s.status || m in f.worker ==> Lookup(s2.pods, m) == Lookup(s.pods, m))
  {
    assert Lookup(ProcessPhase(s, node, f).pods, m) == ProcessedPod(s, node, f, m);
  }

  lemma CollectOnOrphan(s: NodeState, node: Node, f: Faults, m: Key)
    requires m !in s.spec && (m in s.status ==> s.status[m].bootId == node.bootId) && (m !in s.status ==> m !in s.pods)
    ensures var s2 := ProcessPhase(s, node, f);
            var s3 := CollectPhase(s2, LocalStatus(s, node), node, f);
            Lookup(s3.status, m) == Lookup(s2.status, m) && Lookup(s3.pods, m) == Lookup(s2.pods, m)
  {
    ProcessOnOrphan(s, node, f, m);
    var s2, local := ProcessPhase(s, node, f), LocalStatus(s, node);
    if m in s.status {
      assert m in KnownStatus(s2, local, node, f);
      assert m.name in NamesInNmc(s2, KnownStatus(s2, local, node, f));
    }
  }

  /** What a pass makes of the orphan's entry and pod, whatever fails. */
  lemma PassOnOrphan(w: World, f: Faults, m: Key)
    requires Orphaned(w, m)
    ensures var s1 := SyncPhase(w.state, w.node, f).0;
            var s' := Reconcile(w.state, w.node, f);
            && Lookup(s'.status, m) == Lookup(s1.status, m)
            && Lookup(s'.pods, m) == if SyncCallsPass(w.state, f) && m in s1.status && m !in f.worker
                                     then ProcessOrphan(s1.status[m], Lookup(s1.pods, m))
                                     else Lookup(s1.pods, m)
  {
    var (s1, ok) := SyncPhase(w.state, w.node, f);
    SyncOnModule(w.state, w.node, f, m);
    SyncSucceedsIff(w.state, w.node, f);
    if ok {
      ProcessOnOrphan(s1, w.node, f, m);
      CollectOnOrphan(s1, w.node, f, m);
    }
  }

  /** Syncing a finished pod: an unloader takes the entry away, a loader leaves one of this boot. */
  lemma OrphanSynced(p: WorkerPod, entry: Option<ModuleStatus>, bootId: string)
    requires OrphanPod(p, entry) && Untouched(p) && p.phase == Succeeded
    ensures var now := SyncModule(p, entry, bootId);
            if p.template.action == Unload then now == None else now.Some? && now.value.bootId == bootId
  {
  }

  /** One pass on the orphan's entry and pod: the status patch, the deletion of a finished pod and the processing may each not happen. */
  lemma SlotClears(entry: Option<ModuleStatus>, pod: Option<WorkerPod>, bootId: string, patched: bool, deleted: bool, processed: bool)
    requires pod.Some? ==> OrphanPod(pod.value, entry) && Untouched(pod.value)
    requires entry.Some? ==> entry.value.bootId == bootId
    requires processed && pod.Some? && pod.value.phase == Succeeded ==> patched && deleted
    ensures var done := pod.Some? && pod.value.phase == Succeeded;
            var unloads := pod.Some? && pod.value.template.action == Unload;
            var now := if patched && pod.Some? then SyncModule(pod.value, entry, bootId) else entry;
            var pod1 := if done && patched && deleted then None else pod;
            var pod2 := if processed && now.Some? then ProcessOrphan(now.value, pod1) else pod1;
            var clears := if unloads then done && patched && deleted else entry.Some? && processed;
            && (now.Some? ==> now.value.bootId == bootId) && (pod2.Some? ==> OrphanPod(pod2.value, now))
            && PodsToCome(now, pod2) + (if pod2.Some? && pod2 != pod then 1 else 0) == PodsToCome(entry, pod)
            && StepsToCome(now, pod2) + (if clears then 1 else 0) == StepsToCome(entry, pod)
  {
    if pod.Some? && pod.value.phase == Succeeded {
      OrphanSynced(pod.value, entry, bootId);
    }
  }

  lemma PassKeepsOrphaned(w: World, f: Faults, m: Key)
    requires Orphaned(w, m)
    requires var s' := Reconcile(w.state, w.node, f);
             && (m in s'.status ==> s'.status[m].bootId == w.node.bootId)
             && (m in s'.pods ==> OrphanPod(s'.pods[m], Lookup(s'.status, m)))
    ensures Orphaned(Next(w, Pass(f)), m)
  {
    ReconcileKeepsKeyed(w.state, w.node, f);
    ReconcileKeepsUntouched(w.state, w.node, f);
    ReconcileKeepsSpec(w.state, w.node, f);
  }

  /** Any pass: a created pod is one fewer to come, and a pass that moves the unloading on is one step fewer to come. */
  lemma PassClears(w: World, f: Faults, m: Key)
    requires Orphaned(w, m)
    ensures var w' := Next(w, Pass(f));
            && Orphaned(w', m)
            && Unloaders(w', m) + (if Creates(w, Pass(f), m) then 1 else 0) == Unloaders(w, m)
            && Clearing(w', m) + (if Clears(w, Pass(f), m) then 1 else 0) == Clearing(w, m)
  {
    SyncOnModule(w.state, w.node, f, m);
    SyncSucceedsIff(w.state, w.node, f);
    PassOnOrphan(w, f, m);
    SlotClears(Lookup(w.state.status, m), Lookup(w.state.pods, m), w.node.bootId, !f.statusPatch, m !in f.syncDelete,
               SyncCallsPass(w.state, f) && m !in f.worker);
    PassKeepsOrphaned(w, f, m);
  }

  lemma SparingStepConserves(w: World, step: Step, m: Key)
    requires Orphaned(w, m) && Sparing(w, step, m)
    ensures var w' := Next(w, step);
            && Orphaned(w', m)
            && Unloaders(w', m) + (if Creates(w, step, m) then 1 else 0) == Unloaders(w, m)
            && Clearing(w', m) + (if Clears(w, step, m) then 1 else 0) == Clearing(w, m)
  {
    if step.Pass? {
      PassClears(w, step.faults, m);
    } else if step.PodMoves? || step.PodRestarts? {
      PodStepConserves(w, step, m);
    }
  }

  /** Pods that move or restart create nothing; only a loader that finishes moves the unloading on. */
  lemma PodStepConserves(w: World, step: Step, m: Key)
    requires Orphaned(w, m) && Sparing(w, step, m) && (step.PodMoves? || step.PodRestarts?)
    ensures Orphaned(Next(w, step), m) && Unloaders(Next(w, step), m) == Unloaders(w, m)
    ensures Clearing(Next(w, step), m) + (if Clears(w, step, m) then 1 else 0) == Clearing(w, m)
  {
    var k := step.key;
    assert PodKey(w.state.pods[k]) == k;
    assert Lookup(Next(w, step).state.status, m) == Lookup(w.state.status, m);
    assert k != m ==> Lookup(Next(w, step).state.pods, m) == Lookup(w.state.pods, m);
  }

  ghost predicate IsSparingRun(w: World, steps: seq<Step>, m: Key)
    decreases |steps|
  {
    steps == [] || (Sparing(w, steps[0], m) && IsSparingRun(Next(w, steps[0]), steps[1..], m))
  }

  ghost function CountClears(w: World, steps: seq<Step>, m: Key): nat
    requires IsRun(w, steps)
    decreases |steps|
  {
    if steps == [] then 0 else (if Clears(w, steps[0], m) then 1 else 0) + CountClears(Next(w, steps[0]), steps[1..], m)
  }

  lemma {:induction false} SparingRunConserves(w: World, steps: seq<Step>, m: Key)
    requires Orphaned(w, m) && IsSparingRun(w, steps, m)
    ensures IsRun(w, steps) && Orphaned(After(w, steps), m)
    ensures CountCreates(w, steps, m) + Unloaders(After(w, steps), m) == Unloaders(w, m)
    ensures CountClears(w, steps, m) + Clearing(After(w, steps), m) == Clearing(w, m)
    decreases |steps|
  {
    if steps != [] {
      SparingStepConserves(w, steps[0], m);
      SparingRunConserves(Next(w, steps[0]), steps[1..], m);
    }
  }

  /**
   Bounded unloading. With any API calls failing, a run after which nothing of a loaded module is left
   created exactly one worker pod when none was unloading it at the start, and no further one ever.
   Nothing is left exactly when as many steps moved the unloading on as `StepsToCome` says: two passes
   from an entry without a pod. On a reachable node the kernel module is then out of the kernel.
   */
  lemma UnloadsWithOnePod(w: World, steps: seq<Step>, m: Key)
    requires Orphaned(w, m) && IsSparingRun(w, steps, m)
    ensures IsRun(w, steps)
    ensures CountCreates(w, steps, m) <= Unloaders(w, m) <= 1 && CountClears(w, steps, m) <= Clearing(w, m) <= 3
    ensures Gone(After(w, steps), m) <==> CountClears(w, steps, m) == Clearing(w, m)
    ensures Gone(After(w, steps), m) ==> CountCreates(w, steps, m) == Unloaders(w, m)
    ensures Gone(After(w, steps), m) && NodeInv(w) ==> Live(After(w, steps).log, m) == None
    ensures m in w.state.status && m !in w.state.pods ==> Unloaders(w, m) == 1 && Clearing(w, m) == 2
    ensures Gone(w, m) ==> CountCreates(w, steps, m) == 0 && Gone(After(w, steps), m)
  {
    SparingRunConserves(w, steps, m);
    if NodeInv(w) {
      RunKeepsNodeInv(w, steps);
      var w' := After(w, steps);
      assert OnRecord(Live(w'.log, m), Lookup(w'.state.status, m), Lookup(w'.state.pods, m), w'.node.bootId);
    }
  }

  // ----- Loaded and unloaded again -----

  /** The only pods of the module unload what the spec asked for, and an entry is what was specified. */
  ghost predicate UnloadsSpecified(w: World, m: Key, spec: ModuleSpec) {
    && Orphaned(w, m)
    && (m in w.state.pods ==> w.state.pods[m].template == Template(Unload, spec.item.(version := ""), spec.config))
    && (m in w.state.status ==> w.state.status[m] == ModuleStatus(spec.item, spec.config, w.node.bootId))
  }

  lemma StepKeepsSpecified(w: World, step: Step, m: Key, spec: ModuleSpec)
    requires UnloadsSpecified(w, m, spec) && Sparing(w, step, m)
    ensures UnloadsSpecified(Next(w, step), m, spec)
  {
    SparingStepConserves(w, step, m);
    if step.Pass? {
      SyncOnModule(w.state, w.node, step.faults, m);
      PassOnOrphan(w, step.faults, m);
    }
  }

  lemma {:induction false} RunKeepsSpecified(w: World, steps: seq<Step>, m: Key, spec: ModuleSpec)
    requires UnloadsSpecified(w, m, spec) && IsSparingRun(w, steps, m)
    ensures IsRun(w, steps) && UnloadsSpecified(After(w, steps), m, spec)
    decreases |steps|
  {
    if steps != [] {
      StepKeepsSpecified(w, steps[0], m, spec);
      RunKeepsSpecified(Next(w, steps[0]), steps[1..], m, spec);
    }
  }

  /**
   A module that was loaded from nothing and then taken out of the spec: every pod made for it from then
   on unloads exactly the configuration its loader loaded, with the same secret, service account and
   tolerations and no version.
   */
  lemma UnloaderCarriesLoadedItem(w: World, loading: seq<Step>, edited: map<Key, ModuleSpec>, inUse: set<Key>, unloading: seq<Step>, m: Key, spec: ModuleSpec)
    requires Healthy(w, m, spec) && m !in w.state.pods && m !in w.state.status && IsBenignRun(w, loading, m, spec)
    requires IsRun(w, loading) && Converged(After(w, loading), m, spec)
    requires m !in edited && Enabled(After(w, loading), EditSpec(edited, inUse))
    requires IsSparingRun(Next(After(w, loading), EditSpec(edited, inUse)), unloading, m)
    ensures var w1 := Next(After(w, loading), EditSpec(edited, inUse));
            && IsRun(w1, unloading)
            && (m in After(w1, unloading).state.pods ==>
                  After(w1, unloading).state.pods[m].template == Template(Unload, spec.item.(version := ""), spec.config))
  {
    ConvergedRecordsItem(w, loading, m, spec);
    BenignRunConserves(w, loading, m, spec);
    RunKeepsBoot(w, loading, m, spec);
    RunKeepsSpecified(Next(After(w, loading), EditSpec(edited, inUse)), unloading, m, spec);
  }
}
