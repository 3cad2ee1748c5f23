/**
 Whole runs of one node: reconcile passes with failing API calls, pods changing phase between
 passes, edits of the NMC spec, reboots.
 */
module NodeRuns {
  import opened Basics
  import opened NodeModules
  import opened NmcPass

  /** What happened to the node's kernel, oldest first. */
  datatype Event = Loaded(key: Key, config: Config) | Unloaded(key: Key) | Rebooted

  datatype World = World(state: NodeState, node: Node, log: seq<Event>)

  datatype Step =
    | Pass(faults: Faults)
    | PodMoves(key: Key, phase: Phase)
    | PodRestarts(key: Key)
    | EditSpec(spec: map<Key, ModuleSpec>, inUse: set<Key>)
    | Reboot(bootId: string)
    | NodeChanges(ready: bool, admits: set<seq<string>>)

  ghost predicate Enabled(w: World, step: Step) {
    match step
    case PodMoves(k, _) => k in w.state.pods && !IsTerminal(w.state.pods[k])
    case PodRestarts(k) => k in w.state.pods && !IsTerminal(w.state.pods[k])
    case EditSpec(spec, _) => forall k :: k in spec ==> SpecKey(spec[k]) == k
    case _ => true
  }

  function WithPod(s: NodeState, p: WorkerPod): NodeState {
    s.(pods := s.pods[PodKey(p) := p])
  }

  ghost function Next(w: World, step: Step): World
    requires Enabled(w, step)
  {
    match step
    case Pass(f) => w.(state := Reconcile(w.state, w.node, f))
    case PodMoves(k, phase) =>
      var p := w.state.pods[k];
      var events := if phase != Succeeded then [] else if p.template.action == Load then [Loaded(k, p.template.config)] else [Unloaded(k)];
      w.(state := WithPod(w.state, p.(phase := phase)), log := w.log + events)
    case PodRestarts(k) =>
      var p := w.state.pods[k];
      w.(state := WithPod(w.state, p.(restarts := p.restarts + 1)))
    case EditSpec(spec, inUse) => w.(state := w.state.(spec := spec, inUse := inUse))
    case Reboot(bootId) => w.(node := w.node.(bootId := bootId), log := w.log + [Rebooted])
    case NodeChanges(ready, admits) => w.(node := w.node.(ready := ready, admits := admits))
  }

  ghost predicate IsRun(w: World, steps: seq<Step>)
    decreases |steps|
  {
    steps == [] || (Enabled(w, steps[0]) && IsRun(Next(w, steps[0]), steps[1..]))
  }

  ghost function After(w: World, steps: seq<Step>): World
    requires IsRun(w, steps)
    decreases |steps|
  {
    if steps == [] then w else After(Next(w, steps[0]), steps[1..])
  }

  // ----- Load separation -----

  /** The configuration last loaded for `k` with no unload of `k` and no reboot since. */
  function Live(log: seq<Event>, k: Key): Option<Config> {
    if log == [] then None
    else
      match log[|log| - 1]
      case Loaded(j, c) => if j == k then Some(c) else Live(log[..|log| - 1], k)
      case Unloaded(j) => if j == k then None else Live(log[..|log| - 1], k)
      case Rebooted => None
  }

  predicate Separates(e: Event, k: Key) { e == Unloaded(k) || e == Rebooted }

  /** Between two loads of a module for one kernel, with no other load of it between them, it was unloaded or the node rebooted. */
  ghost predicate LoadsSeparated(log: seq<Event>) {
    forall i, j ::
      && 0 <= i < j < |log|
      && log[i].Loaded? && log[j].Loaded? && log[i].key == log[j].key
      && log[i].config.kernelVersion == log[j].config.kernelVersion
      && (forall n :: i < n < j ==> !(log[n].Loaded? && log[n].key == log[i].key))
      ==> exists n :: i < n < j && Separates(log[n], log[i].key)
  }

  lemma {:induction false} LiveMeansUnseparated(log: seq<Event>, i: nat)
    requires i < |log| && log[i].Loaded?
    requires forall n :: i < n < |log| ==> !Separates(log[n], log[i].key) && !(log[n].Loaded? && log[n].key == log[i].key)
    ensures Live(log, log[i].key) == Some(log[i].config)
  {
    if i < |log| - 1 {
      var front := log[..|log| - 1];
      assert front[i] == log[i];
      LiveMeansUnseparated(front, i);
      assert !Separates(log[|log| - 1], log[i].key);
    }
  }

  /** A load keeps the log separated when nothing for its kernel is live. */
  lemma LoadKeepsSeparated(log: seq<Event>, k: Key, c: Config)
    requires LoadsSeparated(log)
    requires Live(log, k).Some? ==> Live(log, k).value.kernelVersion != c.kernelVersion
    ensures LoadsSeparated(log + [Loaded(k, c)])
  {
    var all := log + [Loaded(k, c)];
    forall i, j |
      && 0 <= i < j < |all|
      && all[i].Loaded? && all[j].Loaded? && all[i].key == all[j].key
      && all[i].config.kernelVersion == all[j].config.kernelVersion
      && (forall n :: i < n < j ==> !(all[n].Loaded? && all[n].key == all[i].key))
      ensures exists n :: i < n < j && Separates(all[n], all[i].key)
    {
      if j < |log| {
        assert log[i] == all[i] && log[j] == all[j];
        assert forall n :: i < n < j ==> log[n] == all[n];
        var n :| i < n < j && Separates(log[n], log[i].key);
        assert Separates(all[n], all[i].key);
      } else if forall n :: i < n < j ==> !Separates(all[n], all[i].key) {
        assert forall n :: i < n < |log| ==> log[n] == all[n];
        LiveMeansUnseparated(log, i);
        assert false;
      }
    }
  }

  lemma OtherEventKeepsSeparated(log: seq<Event>, e: Event)
    requires LoadsSeparated(log) && !e.Loaded?
    ensures LoadsSeparated(log + [e])
  {
    var all := log + [e];
    forall i, j |
      && 0 <= i < j < |all|
      && all[i].Loaded? && all[j].Loaded? && all[i].key == all[j].key
      && all[i].config.kernelVersion == all[j].config.kernelVersion
      && (forall n :: i < n < j ==> !(all[n].Loaded? && all[n].key == all[i].key))
      ensures exists n :: i < n < j && Separates(all[n], all[i].key)
    {
      assert log[i] == all[i] && log[j] == all[j];
      assert forall n :: i < n < j ==> log[n] == all[n];
      var n :| i < n < j && Separates(log[n], log[i].key);
      assert Separates(all[n], all[i].key);
    }
  }

  predicate Untouched(p: WorkerPod) {
    p.config == Document(p.template.config) && p.tolerations == Document(p.template.item.tolerations)
  }

  /** The live configuration is on record: in a finished loader pod, or in a status of this boot that no other loader of the kernel bypasses. */
  predicate OnRecord(live: Option<Config>, status: Option<ModuleStatus>, pod: Option<WorkerPod>, bootId: string) {
    live.Some? ==>
      || (pod.Some? && pod.value.template.action == Load && pod.value.phase == Succeeded && pod.value.template.config == live.value)
      || RecordedInStatus(live.value, status, pod, bootId)
  }

  predicate RecordedInStatus(live: Config, status: Option<ModuleStatus>, pod: Option<WorkerPod>, bootId: string) {
    && status.Some? && status.value.config.kernelVersion == live.kernelVersion && status.value.bootId == bootId
    && (pod.Some? ==>
         && pod.value.phase != Succeeded
         && (pod.value.template.action == Load ==> pod.value.template.config.kernelVersion != live.kernelVersion))
  }

  ghost predicate AllUntouched(s: NodeState) {
    forall k :: k in s.pods ==> Untouched(s.pods[k])
  }

  ghost predicate AllOnRecord(s: NodeState, bootId: string, log: seq<Event>) {
    forall k :: OnRecord(Live(log, k), Lookup(s.status, k), Lookup(s.pods, k), bootId)
  }

  ghost predicate NodeInv(w: World) {
    && Keyed(w.state)
    && AllUntouched(w.state)
    && AllOnRecord(w.state, w.node.bootId, w.log)
    && LoadsSeparated(w.log)
  }

  lemma SyncKeepsRecord(s: NodeState, node: Node, f: Faults, log: seq<Event>)
    requires AllUntouched(s) && AllOnRecord(s, node.bootId, log)
    ensures AllOnRecord(SyncPhase(s, node, f).0, node.bootId, log)
  {
    var s1 := SyncPhase(s, node, f).0;
    forall k ensures OnRecord(Live(log, k), Lookup(s1.status, k), Lookup(s1.pods, k), node.bootId) {
      assert OnRecord(Live(log, k), Lookup(s.status, k), Lookup(s.pods, k), node.bootId);
    }
  }

  /** After a sync that reported no error no pod is in a terminal phase. */
  lemma SyncSettles(s: NodeState, node: Node, f: Faults, k: Key)
    requires AllUntouched(s) && SyncPhase(s, node, f).1
    requires k in SyncPhase(s, node, f).0.pods
    ensures !IsTerminal(SyncPhase(s, node, f).0.pods[k])
  {
    assert k !in RetiredPods(s) * f.syncDelete;
  }

  lemma ProcessKeepsRecord(s: NodeState, node: Node, f: Faults, live: Option<Config>, k: Key)
    requires OnRecord(live, Lookup(s.status, k), Lookup(s.pods, k), node.bootId)
    requires k in s.pods ==> !IsTerminal(s.pods[k])
    ensures OnRecord(live, Lookup(ProcessPhase(s, node, f).status, k), Lookup(ProcessPhase(s, node, f).pods, k), node.bootId)
    ensures k in ProcessPhase(s, node, f).pods ==> !IsTerminal(ProcessPhase(s, node, f).pods[k])
  {
    assert Lookup(ProcessPhase(s, node, f).pods, k) == ProcessedPod(s, node, f, k);
    assert Lookup(s.status, k).Some? && !DropsOrphan(s, node, k) ==>
             Lookup(ProcessPhase(s, node, f).status, k) == Lookup(s.status, k);
  }

  /** Collecting garbage drops pods and touches no status; a record in a status survives that. */
  lemma CollectKeepsRecord(s: NodeState, local: map<Key, ModuleStatus>, node: Node, f: Faults, live: Option<Config>, k: Key)
    requires OnRecord(live, Lookup(s.status, k), Lookup(s.pods, k), node.bootId)
    requires k in s.pods ==> !IsTerminal(s.pods[k])
    ensures OnRecord(live, Lookup(CollectPhase(s, local, node, f).status, k), Lookup(CollectPhase(s, local, node, f).pods, k), node.bootId)
  {
    var pods := CollectPhase(s, local, node, f).pods;
    assert Lookup(pods, k) == Lookup(s.pods, k) || Lookup(pods, k) == None;
  }

  lemma ReconcileKeepsRecord(s: NodeState, node: Node, f: Faults, log: seq<Event>)
    requires AllUntouched(s) && AllOnRecord(s, node.bootId, log)
    ensures AllOnRecord(Reconcile(s, node, f), node.bootId, log)
  {
    SyncKeepsRecord(s, node, f, log);
    if SyncPhase(s, node, f).1 {
      var s1 := SyncPhase(s, node, f).0;
      var s2 := ProcessPhase(s1, node, f);
      var s3 := Reconcile(s, node, f);
      forall k ensures OnRecord(Live(log, k), Lookup(s3.status, k), Lookup(s3.pods, k), node.bootId) {
        if k in s1.pods {
          SyncSettles(s, node, f, k);
        }
        ProcessKeepsRecord(s1, node, f, Live(log, k), k);
        CollectKeepsRecord(s2, LocalStatus(s1, node), node, f, Live(log, k), k);
      }
    }
  }

  lemma ProcessKeepsUntouched(s: NodeState, node: Node, f: Faults)
    requires AllUntouched(s)
    ensures AllUntouched(ProcessPhase(s, node, f))
  {
    var pods := ProcessedPods(s, node, f);
    forall k | k in pods ensures Untouched(pods[k]) {
      assert Lookup(pods, k) == ProcessedPod(s, node, f, k);
    }
  }

  lemma ReconcileKeepsUntouched(s: NodeState, node: Node, f: Faults)
    requires AllUntouched(s)
    ensures AllUntouched(Reconcile(s, node, f))
  {
    var s1 := SyncPhase(s, node, f).0;
    assert AllUntouched(s1);
    ProcessKeepsUntouched(s1, node, f);
    var s2 := ProcessPhase(s1, node, f);
    assert AllUntouched(CollectPhase(s2, LocalStatus(s1, node), node, f));
  }

  lemma StepKeepsNodeInv(w: World, step: Step)
    requires NodeInv(w) && Enabled(w, step)
    ensures NodeInv(Next(w, step))
  {
    var w' := Next(w, step);
    match step
    case Pass(f) =>
      ReconcileKeepsKeyed(w.state, w.node, f);
      ReconcileKeepsUntouched(w.state, w.node, f);
      ReconcileKeepsRecord(w.state, w.node, f, w.log);
    case PodMoves(k, phase) =>
      PodMoveKeepsRecord(w, k, phase);
      var p := w.state.pods[k];
      if phase != Succeeded {
        assert w'.log == w.log;
      } else if p.template.action == Load {
        assert OnRecord(Live(w.log, k), Lookup(w.state.status, k), Some(p), w.node.bootId);
        LoadKeepsSeparated(w.log, k, p.template.config);
      } else {
        OtherEventKeepsSeparated(w.log, Unloaded(k));
      }
    case PodRestarts(k) =>
      forall j ensures OnRecord(Live(w'.log, j), Lookup(w'.state.status, j), Lookup(w'.state.pods, j), w'.node.bootId) {
        assert OnRecord(Live(w.log, j), Lookup(w.state.status, j), Lookup(w.state.pods, j), w.node.bootId);
      }
    case EditSpec(spec, inUse) =>
    case Reboot(bootId) =>
      OtherEventKeepsSeparated(w.log, Rebooted);
      assert forall j :: Live(w'.log, j) == None;
    case NodeChanges(ready, admits) =>
  }

  lemma PodMoveKeepsRecord(w: World, k: Key, phase: Phase)
    requires NodeInv(w) && Enabled(w, PodMoves(k, phase))
    ensures AllOnRecord(Next(w, PodMoves(k, phase)).state, w.node.bootId, Next(w, PodMoves(k, phase)).log)
  {
    var w' := Next(w, PodMoves(k, phase));
    forall j ensures OnRecord(Live(w'.log, j), Lookup(w'.state.status, j), Lookup(w'.state.pods, j), w.node.bootId) {
      assert OnRecord(Live(w.log, j), Lookup(w.state.status, j), Lookup(w.state.pods, j), w.node.bootId);
      if |w'.log| > |w.log| {
        assert w'.log[..|w'.log| - 1] == w.log;
      } else {
        assert w'.log == w.log;
      }
    }
  }

  ghost predicate Fresh(w: World) {
    w.state.status == map[] && w.state.pods == map[] && Keyed(w.state) && w.log == []
  }

  lemma {:induction false} RunKeepsNodeInv(w: World, steps: seq<Step>)
    requires NodeInv(w) && IsRun(w, steps)
    ensures NodeInv(After(w, steps))
    decreases |steps|
  {
    if steps != [] {
      StepKeepsNodeInv(w, steps[0]);
      RunKeepsNodeInv(Next(w, steps[0]), steps[1..]);
    }
  }

  /** Load separation, in every run from a node no worker pod has run on. */
  lemma LoadsSeparatedInEveryRun(w: World, steps: seq<Step>)
    requires Fresh(w) && IsRun(w, steps)
    ensures LoadsSeparated(After(w, steps).log)
  {
    assert NodeInv(w);
    RunKeepsNodeInv(w, steps);
  }

  // ----- Bounded convergence -----

  /** The module's entry matches its spec and this boot, and no worker pod is left. */
  predicate Converged(w: World, m: Key, spec: ModuleSpec) {
    && m !in w.state.pods
    && m in w.state.status && w.state.status[m].config == spec.config && w.state.status[m].bootId == w.node.bootId
  }

  /** Worker pods still to be created, with no pod of the module around. */
  function CreatesWithoutPod(status: Option<ModuleStatus>, spec: ModuleSpec, bootId: string): nat {
    match status
    case None => 1
    case Some(s) =>
      if s.config == spec.config then if s.bootId == bootId then 0 else 1
      else if s.config.kernelVersion == spec.config.kernelVersion then 2
      else 1 + CreatesAfterLoader(status, spec)
  }

  /** After a loader: none when decoding its document reproduces the spec, an unloader and a loader when old optional fields stay. */
  function CreatesAfterLoader(status: Option<ModuleStatus>, spec: ModuleSpec): nat {
    var target := if status.Some? then status.value.config else ZERO_CONFIG;
    if Decode(target, spec.config) == spec.config then 0 else 2
  }

  function SlotCreates(status: Option<ModuleStatus>, pod: Option<WorkerPod>, spec: ModuleSpec, bootId: string): nat {
    match pod
    case None => CreatesWithoutPod(status, spec, bootId)
    case Some(p) => if p.template.action == Load then CreatesAfterLoader(status, spec) else 1
  }

  function CreatesLeft(w: World, m: Key, spec: ModuleSpec): nat {
    SlotCreates(Lookup(w.state.status, m), Lookup(w.state.pods, m), spec, w.node.bootId)
  }

  function SlotPasses(status: Option<ModuleStatus>, pod: Option<WorkerPod>, spec: ModuleSpec, bootId: string): nat {
    var creates := SlotCreates(status, pod, spec, bootId);
    if pod.None? && creates == 0 then 0 else creates + 1
  }

  /** Reconciles still needed, each taken when the module's pod is absent or has succeeded. */
  function PassesLeft(w: World, m: Key, spec: ModuleSpec): nat {
    SlotPasses(Lookup(w.state.status, m), Lookup(w.state.pods, m), spec, w.node.bootId)
  }

  /** The node is schedulable and Ready for the module, and its pod, if any, is one the pass created for this spec and has not failed. */
  ghost predicate Healthy(w: World, m: Key, spec: ModuleSpec) {
    && Keyed(w.state) && AllUntouched(w.state)
    && m in w.state.spec && w.state.spec[m] == spec
    && w.node.ready && IsNodeSchedulable(w.node, spec.item.tolerations)
    && (m in w.state.pods ==>
         && w.state.pods[m].phase != Failed
         && (w.state.pods[m].template.action == Load ==> w.state.pods[m].template == LoaderTemplate(spec)))
  }

  /** Steps that leave the module's spec entry, the boot and the node's fitness alone and never fail its pods; API calls may fail. */
  ghost predicate Benign(w: World, step: Step, m: Key, spec: ModuleSpec) {
    && Enabled(w, step)
    && match step
       case Pass(_) => true
       case PodMoves(k, phase) => k == m ==> phase != Failed
       case PodRestarts(_) => true
       case EditSpec(s, _) => m in s && s[m] == spec
       case Reboot(_) => false
       case NodeChanges(ready, admits) => ready && spec.item.tolerations in admits
  }

  predicate PodDone(w: World, m: Key) {
    m in w.state.pods ==> w.state.pods[m].phase == Succeeded
  }

  /** The step created a worker pod for the module. */
  ghost predicate Creates(w: World, step: Step, m: Key)
    requires Enabled(w, step)
  {
    var w' := Next(w, step);
    step.Pass? && m in w'.state.pods && Lookup(w'.state.pods, m) != Lookup(w.state.pods, m)
  }

  /**
   The status sync goes through: there is no pod to sync, or every finished loader's annotations decode,
   the patch is accepted and so is every deletion it asks for, of finished pods and of running ones that
   neither spec nor status knows.
   */
  ghost predicate SyncCallsPass(s: NodeState, f: Faults) {
    || s.pods == map[]
    || (&& !f.statusPatch
        && (forall k :: k in s.pods && s.pods[k].phase == Succeeded && s.pods[k].template.action == Load ==>
              s.pods[k].config.Document? && s.pods[k].tolerations.Document?)
        && (forall k :: k in s.pods && k in f.syncDelete ==>
              !IsTerminal(s.pods[k]) && (s.pods[k].phase == Running ==> k in s.spec || k in s.status)))
  }

  lemma SyncSucceedsIff(s: NodeState, node: Node, f: Faults)
    ensures SyncPhase(s, node, f).1 <==> SyncCallsPass(s, f)
  {
    if s.pods != map[] && !f.statusPatch && !SyncFails(s) {
      assert forall k :: k in RetiredPods(s) * f.syncDelete <==>
                           && k in s.pods && k in f.syncDelete
                           && (IsTerminal(s.pods[k]) || (s.pods[k].phase == Running && k !in s.spec && k !in s.status));
    }
  }

  /**
   The calls the module still needs go through: with no pod to create any more, the status patch and
   the deletion of its finished pod; otherwise the whole sync and the module's own worker call.
   */
  ghost predicate GoesThrough(w: World, f: Faults, m: Key, spec: ModuleSpec) {
    if CreatesLeft(w, m, spec) == 0 then !f.statusPatch && m !in f.syncDelete
    else SyncCallsPass(w.state, f) && m !in f.worker
  }

  /** A pass that has something to do for the module and does it. */
  ghost predicate Advances(w: World, step: Step, m: Key, spec: ModuleSpec) {
    step.Pass? && PodDone(w, m) && !Converged(w, m, spec) && GoesThrough(w, step.faults, m, spec)
  }

  /** What the sync phase does to the entry and the pod of one module the node knows of. */
  lemma SyncOnModule(s: NodeState, node: Node, f: Faults, m: Key)
    requires AllUntouched(s) && (m in s.pods ==> s.pods[m].phase != Failed && (s.pods[m].phase == Running ==> m in s.spec || m in s.status))
    ensures var (s1, ok) := SyncPhase(s, node, f);
            var done := m in s.pods && s.pods[m].phase == Succeeded;
            && s1.spec == s.spec
            && Lookup(s1.status, m) == (if f.statusPatch then Lookup(s.status, m) else SyncedEntry(s.status, s.pods, node.bootId, m))
            && Lookup(s1.pods, m) == (if done && !f.statusPatch && m !in f.syncDelete then None else Lookup(s.pods, m))
            && (ok && done ==> m !in s1.pods)
  {
    assert !SyncFails(s);
    if s.pods != map[] && !f.statusPatch {
      assert SyncPhase(s, node, f).0.status == SyncAll(s.status, s.pods, node.bootId);
      assert m in RetiredPods(s) <==> m in s.pods && s.pods[m].phase == Succeeded;
      assert m in RetiredPods(s) * f.syncDelete <==> m in RetiredPods(s) && m in f.syncDelete;
    }
  }

  lemma CollectKeepsModule(s: NodeState, local: map<Key, ModuleStatus>, node: Node, f: Faults, m: Key)
    requires m in s.spec
    ensures Lookup(CollectPhase(s, local, node, f).pods, m) == Lookup(s.pods, m)
    ensures CollectPhase(s, local, node, f).status == s.status
  {
    assert m.name in NamesInNmc(s, local) by { assert m in s.spec.Keys + local.Keys; }
  }

  /** What the rest of a pass does to them, whatever fails for other modules. */
  lemma PassOnModule(w: World, f: Faults, m: Key, spec: ModuleSpec)
    requires Healthy(w, m, spec)
    ensures var (s1, ok) := SyncPhase(w.state, w.node, f);
            var s' := Reconcile(w.state, w.node, f);
            && Lookup(s'.status, m) == Lookup(s1.status, m)
            && Lookup(s'.pods, m) == if ok && m !in f.worker then ProcessSpec(spec, Lookup(s1.status, m), Lookup(s1.pods, m), w.node)
                                     else Lookup(s1.pods, m)
  {
    var (s1, ok) := SyncPhase(w.state, w.node, f);
    SyncOnModule(w.state, w.node, f, m);
    if ok {
      ProcessOnModule(s1, w.node, f, m, spec);
      CollectKeepsModule(ProcessPhase(s1, w.node, f), LocalStatus(s1, w.node), w.node, f, m);
    }
  }

  lemma ProcessOnModule(s: NodeState, node: Node, f: Faults, m: Key, spec: ModuleSpec)
    requires m in s.spec && s.spec[m] == spec && IsNodeSchedulable(node, spec.item.tolerations)
    ensures var s2 := ProcessPhase(s, node, f);
            && m in s2.spec && Lookup(s2.status, m) == Lookup(s.status, m)
            && Lookup(s2.pods, m) == if m in f.worker then Lookup(s.pods, m) else ProcessSpec(spec, Lookup(s.status, m), Lookup(s.pods, m), node)
  {
    assert Lookup(ProcessPhase(s, node, f).pods, m) == ProcessedPod(s, node, f, m);
  }

  predicate FitPod(pod: Option<WorkerPod>, spec: ModuleSpec) {
    pod.Some? ==>
      && pod.value.phase != Failed && Untouched(pod.value)
      && (pod.value.template.action == Load ==> pod.value.template == LoaderTemplate(spec))
  }

  /** Syncing a finished pod, with or without deleting it, leaves as many pods to come. */
  lemma SlotSynced(status: Option<ModuleStatus>, p: WorkerPod, spec: ModuleSpec, bootId: string)
    requires FitPod(Some(p), spec) && p.phase == Succeeded
    ensures var entry := SyncModule(p, status, bootId);
            && SlotCreates(entry, None, spec, bootId) == SlotCreates(status, Some(p), spec, bootId)
            && SlotCreates(entry, Some(p), spec, bootId) == SlotCreates(status, Some(p), spec, bootId)
  {
    var target := if status.Some? then status.value.config else ZERO_CONFIG;
    DecodeIsIdempotent(target, spec.config);
  }

  /** Without a pod, processing creates one exactly when one is to come, and then one fewer is. */
  lemma SlotProcessed(status: Option<ModuleStatus>, spec: ModuleSpec, node: Node)
    requires node.ready
    ensures var pod := ProcessSpec(spec, status, None, node);
            var left := SlotCreates(status, None, spec, node.bootId);
            && FitPod(pod, spec) && (pod.Some? ==> pod.value.phase == Pending)
            && (pod.Some? <==> left > 0)
            && (pod.Some? ==> SlotCreates(status, pod, spec, node.bootId) == left - 1)
  {
    DecodeIntoZeroIsExact(spec.config);
  }

  /** A pod that has not finished stays, and nothing is created beside it. */
  lemma SlotWaits(status: Option<ModuleStatus>, p: WorkerPod, spec: ModuleSpec, node: Node)
    requires FitPod(Some(p), spec)
    ensures ProcessSpec(spec, status, Some(p), node) == Some(p)
  {
  }

  /** One pass on the module's entry and pod: the status patch, the deletion of a finished pod and the processing may each not happen. */
  lemma SlotPass(status: Option<ModuleStatus>, pod: Option<WorkerPod>, spec: ModuleSpec, node: Node, patched: bool, deleted: bool, processed: bool)
    requires FitPod(pod, spec) && node.ready
    requires processed && pod.Some? && pod.value.phase == Succeeded ==> patched && deleted
    ensures var done := pod.Some? && pod.value.phase == Succeeded;
            var entry := if patched && pod.Some? then SyncModule(pod.value, status, node.bootId) else status;
            var pod1 := if done && patched && deleted then None else pod;
            var pod2 := if processed then ProcessSpec(spec, entry, pod1, node) else pod1;
            var creates := SlotCreates(status, pod, spec, node.bootId);
            var advances := (done || pod.None?) && !(pod.None? && creates == 0) && if creates == 0 then patched && deleted else processed;
            && FitPod(pod2, spec)
            && SlotCreates(entry, pod2, spec, node.bootId) + (if pod2.Some? && pod2 != pod then 1 else 0) == creates
            && SlotPasses(entry, pod2, spec, node.bootId) + (if advances then 1 else 0) == SlotPasses(status, pod, spec, node.bootId)
  {
    if pod.Some? {
      if pod.value.phase == Succeeded {
        SlotSynced(status, pod.value, spec, node.bootId);
        SlotProcessed(SyncModule(pod.value, status, node.bootId), spec, node);
      } else {
        SlotWaits(status, pod.value, spec, node);
      }
    } else {
      SlotProcessed(status, spec, node);
    }
  }

  /** Converged means that nothing is left to do. */
  lemma ConvergedIff(w: World, m: Key, spec: ModuleSpec)
    ensures Converged(w, m, spec) <==> m !in w.state.pods && CreatesLeft(w, m, spec) == 0
    ensures Converged(w, m, spec) <==> PassesLeft(w, m, spec) == 0
  {
  }

  /** At most three pods, and one pass for each and one more. */
  lemma SlotBounds(status: Option<ModuleStatus>, spec: ModuleSpec, bootId: string)
    ensures SlotCreates(status, None, spec, bootId) <= 3 && SlotPasses(status, None, spec, bootId) <= 4
  {
  }

  lemma PassKeepsHealthy(w: World, f: Faults, m: Key, spec: ModuleSpec)
    requires Healthy(w, m, spec)
    requires FitPod(Lookup(Reconcile(w.state, w.node, f).pods, m), spec)
    ensures Healthy(Next(w, Pass(f)), m, spec)
  {
    ReconcileKeepsKeyed(w.state, w.node, f);
    ReconcileKeepsUntouched(w.state, w.node, f);
    ReconcileKeepsSpec(w.state, w.node, f);
    StateIsHealthy(w, Reconcile(w.state, w.node, f), m, spec);
  }

  lemma ReconcileKeepsSpec(s: NodeState, node: Node, f: Faults)
    ensures Reconcile(s, node, f).spec == s.spec
  {
  }

  lemma StateIsHealthy(w: World, s: NodeState, m: Key, spec: ModuleSpec)
    requires Healthy(w, m, spec) && Keyed(s) && AllUntouched(s) && s.spec == w.state.spec && FitPod(Lookup(s.pods, m), spec)
    ensures Healthy(w.(state := s), m, spec)
  {
  }

  /** Any pass: one created pod is one fewer to come, and a pass that goes through with work to do is one fewer to come. */
  lemma PassAdvances(w: World, f: Faults, m: Key, spec: ModuleSpec)
    requires Healthy(w, m, spec)
    ensures var w' := Next(w, Pass(f));
            && Healthy(w', m, spec)
            && CreatesLeft(w', m, spec) + (if Creates(w, Pass(f), m) then 1 else 0) == CreatesLeft(w, m, spec)
            && PassesLeft(w', m, spec) + (if Advances(w, Pass(f), m, spec) then 1 else 0) == PassesLeft(w, m, spec)
  {
    var status, pod := Lookup(w.state.status, m), Lookup(w.state.pods, m);
    var processed := SyncCallsPass(w.state, f) && m !in f.worker;
    SyncSucceedsIff(w.state, w.node, f);
    SyncOnModule(w.state, w.node, f, m);
    PassOnModule(w, f, m, spec);
    SlotPass(status, pod, spec, w.node, !f.statusPatch, m !in f.syncDelete, processed);
    PassKeepsHealthy(w, f, m, spec);
    ConvergedIff(w, m, spec);
  }

  lemma BenignStepConserves(w: World, step: Step, m: Key, spec: ModuleSpec)
    requires Healthy(w, m, spec) && Benign(w, step, m, spec)
    ensures Healthy(Next(w, step), m, spec)
    ensures CreatesLeft(Next(w, step), m, spec) + (if Creates(w, step, m) then 1 else 0) == CreatesLeft(w, m, spec)
    ensures PassesLeft(Next(w, step), m, spec) + (if Advances(w, step, m, spec) then 1 else 0) == PassesLeft(w, m, spec)
  {
    if step.Pass? {
      PassAdvances(w, step.faults, m, spec);
    } else {
      OtherStepConserves(w, step, m, spec);
    }
  }

  /** Only passes create pods or advance. */
  lemma OtherStepConserves(w: World, step: Step, m: Key, spec: ModuleSpec)
    requires Healthy(w, m, spec) && Benign(w, step, m, spec) && !step.Pass?
    ensures Healthy(Next(w, step), m, spec) && !Creates(w, step, m)
    ensures CreatesLeft(Next(w, step), m, spec) == CreatesLeft(w, m, spec)
    ensures PassesLeft(Next(w, step), m, spec) == PassesLeft(w, m, spec)
  {
  }

  ghost predicate IsBenignRun(w: World, steps: seq<Step>, m: Key, spec: ModuleSpec)
    decreases |steps|
  {
    steps == [] || (Benign(w, steps[0], m, spec) && IsBenignRun(Next(w, steps[0]), steps[1..], m, spec))
  }

  /** Worker pods created for the module along a run. */
  ghost function CountCreates(w: World, steps: seq<Step>, m: Key): nat
    requires IsRun(w, steps)
    decreases |steps|
  {
    if steps == [] then 0
    else (if Creates(w, steps[0], m) then 1 else 0) + CountCreates(Next(w, steps[0]), steps[1..], m)
  }

  ghost function CountAdvances(w: World, steps: seq<Step>, m: Key, spec: ModuleSpec): nat
    requires IsBenignRun(w, steps, m, spec)
    decreases |steps|
  {
    if steps == [] then 0
    else (if Advances(w, steps[0], m, spec) then 1 else 0) + CountAdvances(Next(w, steps[0]), steps[1..], m, spec)
  }

  lemma {:induction false} BenignRunConserves(w: World, steps: seq<Step>, m: Key, spec: ModuleSpec)
    requires Healthy(w, m, spec) && IsBenignRun(w, steps, m, spec)
    ensures IsRun(w, steps)
    ensures Healthy(After(w, steps), m, spec)
    ensures CountCreates(w, steps, m) + CreatesLeft(After(w, steps), m, spec) == CreatesLeft(w, m, spec)
    ensures CountAdvances(w, steps, m, spec) + PassesLeft(After(w, steps), m, spec) == PassesLeft(w, m, spec)
    decreases |steps|
  {
    if steps != [] {
      BenignStepConserves(w, steps[0], m, spec);
      BenignRunConserves(Next(w, steps[0]), steps[1..], m, spec);
    }
  }

  /**
   Bounded convergence. From a state without a worker pod of the module, every run of benign steps,
   in whose passes any API calls may fail, creates at most three worker pods and holds at most four
   passes that find the module's pod absent or done before the module has converged and whose calls
   for it go through. A run has converged exactly when it has as many such passes as `PassesLeft`,
   and a converged module gets no further pod.
   */
  lemma ConvergesWithinThreePods(w: World, steps: seq<Step>, m: Key, spec: ModuleSpec)
    requires Healthy(w, m, spec) && m !in w.state.pods
    requires IsBenignRun(w, steps, m, spec)
    ensures IsRun(w, steps)
    ensures CountCreates(w, steps, m) <= CreatesLeft(w, m, spec) <= 3
    ensures CountAdvances(w, steps, m, spec) <= PassesLeft(w, m, spec) <= 4
    ensures CountAdvances(w, steps, m, spec) == PassesLeft(w, m, spec) <==> Converged(After(w, steps), m, spec)
    ensures Converged(w, m, spec) ==> CountCreates(w, steps, m) == 0 && Converged(After(w, steps), m, spec)
  {
    BenignRunConserves(w, steps, m, spec);
    SlotBounds(Lookup(w.state.status, m), spec, w.node.bootId);
    ConvergedIff(w, m, spec);
    ConvergedIff(After(w, steps), m, spec);
  }
}
