/**
 One pass of the NMC reconciler over one node, as a function of the API objects it reads
 (internal/controllers/nmc_reconciler.go:65-167). `NmcReconciler` proves the imperative pass
 against these functions, and the run theorems are stated over them.
 */
module NmcPass {
  import opened Basics
  import opened NodeModules

  /** The API objects of one node. `inUse` holds the modules with a module-in-use label. */
  datatype NodeState = NodeState(
    spec: map<Key, ModuleSpec>,
    status: map<Key, ModuleStatus>,
    pods: map<Key, WorkerPod>,
    inUse: set<Key>)

  ghost predicate Keyed(s: NodeState) {
    && (forall k :: k in s.spec ==> SpecKey(s.spec[k]) == k)
    && (forall k :: k in s.status ==> StatusKey(s.status[k]) == k)
    && (forall k :: k in s.pods ==> PodKey(s.pods[k]) == k)
  }

  /** API calls that fail during a pass; the sets hold the modules whose call fails. */
  datatype Faults = Faults(
    statusPatch: bool,
    syncDelete: set<Key>,
    worker: set<Key>,
    orphanPatch: set<Key>,
    labelPatch: bool,
    gcDelete: set<Key>)

  const NO_FAULTS := Faults(false, {}, {}, {}, false, {})

  // ----- SyncStatus -----

  function BlankStatus(k: Key): ModuleStatus {
    ModuleStatus(Item(k, None, "", [], ""), ZERO_CONFIG, "")
  }

  /** The entry of the pod's module after the pod has been synced. */
  function SyncModule(p: WorkerPod, was: Option<ModuleStatus>, bootId: string): Option<ModuleStatus> {
    if p.phase != Succeeded then was
    else if p.template.action == Unload then None
    else if p.config.Malformed? then was
    else
      var base := if was.Some? then was.value else BlankStatus(PodKey(p));
      var config := Decode(base.config, p.config.content);
      if p.tolerations.Malformed? then
        // the decoder has already written through the pointer into an existing entry
        if was.Some? then Some(base.(config := config)) else None
      else
        var secret := if p.template.item.secret.Some? then p.template.item.secret else base.item.secret;
        var item := Item(base.item.key, secret, p.template.item.serviceAccount,
                         p.tolerations.content, p.template.item.version);
        Some(ModuleStatus(item, config, bootId))
  }

  /** Decoding the pod's annotations is an error. */
  predicate Undecodable(p: WorkerPod) {
    p.phase == Succeeded && p.template.action == Load && (p.config.Malformed? || p.tolerations.Malformed?)
  }

  /** The pod is put on the list of pods to delete. */
  predicate Retires(p: WorkerPod, inSpec: bool, was: Option<ModuleStatus>) {
    match p.phase
    case Running => !inSpec && was.None?
    case Failed => true
    case Succeeded => !Undecodable(p)
    case _ => false
  }

  function SyncStep(m: map<Key, ModuleStatus>, p: WorkerPod, bootId: string): map<Key, ModuleStatus> {
    Put(m, PodKey(p), SyncModule(p, Lookup(m, PodKey(p)), bootId))
  }

  /** The statuses after the pods of a list, in list order. */
  function SyncList(m: map<Key, ModuleStatus>, pods: seq<WorkerPod>, bootId: string): map<Key, ModuleStatus> {
    if pods == [] then m
    else SyncStep(SyncList(m, pods[..|pods| - 1], bootId), pods[|pods| - 1], bootId)
  }

  /** The entry of one module, knowing only that module's pod and its entry before. */
  function SyncedEntry(m: map<Key, ModuleStatus>, pods: map<Key, WorkerPod>, bootId: string, k: Key): Option<ModuleStatus> {
    if k in pods then SyncModule(pods[k], Lookup(m, k), bootId) else Lookup(m, k)
  }

  /** The statuses after a set of pods: no order involved. */
  function SyncAll(m: map<Key, ModuleStatus>, pods: map<Key, WorkerPod>, bootId: string): (r: map<Key, ModuleStatus>)
    ensures forall k :: Lookup(r, k) == SyncedEntry(m, pods, bootId, k)
  {
    map k | k in m.Keys + pods.Keys && SyncedEntry(m, pods, bootId, k).Some? :: SyncedEntry(m, pods, bootId, k).value
  }

  lemma {:induction false} SyncListLookup(m: map<Key, ModuleStatus>, pods: seq<WorkerPod>, bootId: string, k: Key)
    requires DistinctKeys(pods, PodKey)
    ensures Lookup(SyncList(m, pods, bootId), k) == SyncedEntry(m, FirstByKey(pods, PodKey), bootId, k)
  {
    if pods != [] {
      var front, last := pods[..|pods| - 1], pods[|pods| - 1];
      assert front + [last] == pods;
      FirstByKeyAppend(front, PodKey, last);
      FirstByKeyLookup(front, PodKey, PodKey(last), |front|);
      SyncListLookup(m, front, bootId, k);
      if k == PodKey(last) {
        assert SyncedEntry(m, FirstByKey(front, PodKey), bootId, k) == Lookup(m, k);
      } else {
        assert SyncedEntry(m, FirstByKey(front, PodKey), bootId, k) == SyncedEntry(m, FirstByKey(pods, PodKey), bootId, k);
      }
    }
  }

  /** Confluence: with one pod per module the statuses do not depend on the order of the pod list. */
  lemma SyncStatusConfluent(m: map<Key, ModuleStatus>, pods: seq<WorkerPod>, pods': seq<WorkerPod>, bootId: string)
    requires DistinctKeys(pods, PodKey) && DistinctKeys(pods', PodKey)
    requires multiset(pods) == multiset(pods')
    ensures SyncList(m, pods, bootId) == SyncList(m, pods', bootId)
  {
    SamePodsSameMap(pods, pods');
    forall k ensures Lookup(SyncList(m, pods, bootId), k) == Lookup(SyncList(m, pods', bootId), k) {
      SyncListLookup(m, pods, bootId, k);
      SyncListLookup(m, pods', bootId, k);
    }
    MapsEqualByLookup(SyncList(m, pods, bootId), SyncList(m, pods', bootId));
  }

  lemma SamePodsSameMap(pods: seq<WorkerPod>, pods': seq<WorkerPod>)
    requires DistinctKeys(pods, PodKey) && DistinctKeys(pods', PodKey)
    requires multiset(pods) == multiset(pods')
    ensures FirstByKey(pods, PodKey) == FirstByKey(pods', PodKey)
  {
    forall k ensures Lookup(FirstByKey(pods, PodKey), k) == Lookup(FirstByKey(pods', PodKey), k) {
      PodOfKey(pods, k);
      PodOfKey(pods', k);
      assert forall p :: p in pods <==> p in multiset(pods);
      assert forall p :: p in pods' <==> p in multiset(pods');
    }
    MapsEqualByLookup(FirstByKey(pods, PodKey), FirstByKey(pods', PodKey));
  }

  /** With distinct keys a lookup finds the one pod of that key. */
  lemma PodOfKey(pods: seq<WorkerPod>, k: Key)
    requires DistinctKeys(pods, PodKey)
    ensures forall p :: p in pods && PodKey(p) == k ==> Lookup(FirstByKey(pods, PodKey), k) == Some(p)
    ensures (forall p :: p in pods ==> PodKey(p) != k) ==> Lookup(FirstByKey(pods, PodKey), k) == None
  {
    if i :| 0 <= i < |pods| && PodKey(pods[i]) == k {
      FirstByKeyLookup(pods, PodKey, k, i);
    } else {
      FirstByKeyLookup(pods, PodKey, k, |pods|);
    }
  }

  /** A pod applied twice to an entry leaves what it left the first time. */
  lemma SyncModuleIdempotent(p: WorkerPod, was: Option<ModuleStatus>, bootId: string)
    ensures SyncModule(p, SyncModule(p, was, bootId), bootId) == SyncModule(p, was, bootId)
  {
    if p.config.Document? {
      var base := if was.Some? then was.value else BlankStatus(PodKey(p));
      DecodeIsIdempotent(base.config, p.config.content);
    }
  }

  /**
   A finished loader pod of a spec puts the spec's whole item on record, of this boot, with an older
   image secret kept only where the spec names none.
   */
  lemma LoaderRecordsItem(p: WorkerPod, spec: ModuleSpec, was: Option<ModuleStatus>, bootId: string)
    requires p.template == LoaderTemplate(spec) && p.config == Document(spec.config) && p.tolerations == Document(spec.item.tolerations)
    requires p.phase == Succeeded && (was.Some? ==> StatusKey(was.value) == SpecKey(spec))
    ensures var entry := SyncModule(p, was, bootId);
            && entry.Some? && entry.value.bootId == bootId
            && entry.value.item == spec.item.(secret := if spec.item.secret.None? && was.Some? then was.value.item.secret else spec.item.secret)
            && (was.None? ==> entry.value.config == spec.config)
  {
    DecodeIntoZeroIsExact(spec.config);
  }

  /** Annotations that do not decode add no entry, and change of one only the configuration, when that part decoded. */
  lemma UndecodableRecordsNothing(p: WorkerPod, was: Option<ModuleStatus>, bootId: string)
    requires p.phase == Succeeded && p.template.action == Load && (p.config.Malformed? || p.tolerations.Malformed?)
    ensures var entry := SyncModule(p, was, bootId);
            if was.None? then entry == None
            else entry.Some? && entry.value == was.value.(config := if p.config.Malformed? then was.value.config else Decode(was.value.config, p.config.content))
  {
  }

  /** Retry safety: any pods left over by failed deletions change nothing when they are synced again. */
  lemma SyncStatusRetrySafe(m: map<Key, ModuleStatus>, pods: map<Key, WorkerPod>, left: map<Key, WorkerPod>, bootId: string)
    requires forall k :: k in left ==> k in pods && left[k] == pods[k]
    ensures SyncAll(SyncAll(m, pods, bootId), left, bootId) == SyncAll(m, pods, bootId)
  {
    var once := SyncAll(m, pods, bootId);
    forall k ensures Lookup(SyncAll(once, left, bootId), k) == Lookup(once, k) {
      if k in left {
        SyncModuleIdempotent(pods[k], Lookup(m, k), bootId);
      }
    }
    MapsEqualByLookup(SyncAll(once, left, bootId), once);
  }

  /** Some pod's annotations do not decode. */
  predicate SyncFails(s: NodeState) {
    exists k :: k in s.pods && Undecodable(s.pods[k])
  }

  function RetiredPods(s: NodeState): set<Key> {
    set k | k in s.pods && Retires(s.pods[k], k in s.spec, Lookup(s.status, k))
  }

  /** SyncStatus: the new state, and whether it returned without an error. */
  function SyncPhase(s: NodeState, node: Node, f: Faults): (NodeState, bool) {
    if s.pods == map[] then (s, true)
    else if f.statusPatch then (s, false)
    else
      var s1 := s.(status := SyncAll(s.status, s.pods, node.bootId));
      if SyncFails(s) then (s1, false)
      else (s1.(pods := s.pods - (RetiredPods(s) - f.syncDelete)), RetiredPods(s) * f.syncDelete == {})
  }

  /**
   Retrying SyncStatus after any failure ends with the statuses a first clean run would have
   written, and a decoding or patching error has left every pod where it was.
   */
  lemma SyncRetried(s: NodeState, node: Node, f: Faults, again: Faults)
    requires !again.statusPatch
    ensures SyncPhase(SyncPhase(s, node, f).0, node, again).0.status == SyncPhase(s, node, NO_FAULTS).0.status
    ensures f.statusPatch || SyncFails(s) ==> SyncPhase(s, node, f).0.pods == s.pods
  {
    var s1 := SyncPhase(s, node, f).0;
    if s.pods != map[] && !f.statusPatch {
      SyncStatusRetrySafe(s.status, s.pods, s1.pods, node.bootId);
    }
  }

  // ----- ProcessModuleSpec and ProcessUnconfiguredModuleStatus -----

  /** The module's pod after ProcessModuleSpec, when its API call goes through. */
  function ProcessSpec(spec: ModuleSpec, status: Option<ModuleStatus>, pod: Option<WorkerPod>, node: Node): Option<WorkerPod> {
    match pod
    case None =>
      if status.None? then Some(NewPod(LoaderTemplate(spec)))
      else if spec.config != status.value.config then
        if spec.config.kernelVersion == status.value.config.kernelVersion then Some(NewPod(UnloaderTemplate(status.value)))
        else Some(NewPod(LoaderTemplate(spec)))
      else if IsNodeRebooted(node, status.value.bootId) then Some(NewPod(LoaderTemplate(spec)))
      else None
    case Some(p) =>
      if p.template.action != Load || p.restarts == 0 then pod
      else if p.template != LoaderTemplate(spec) then None
      else pod
  }

  /** The entry records the spec's configuration, and of this boot as far as the node can tell. */
  predicate UpToDate(spec: ModuleSpec, status: Option<ModuleStatus>, node: Node) {
    status.Some? && status.value.config == spec.config && !IsNodeRebooted(node, status.value.bootId)
  }

  /**
   What a call leaves: no pod appears for an entry that is up to date and one always does otherwise;
   a loader never appears over another configuration recorded for its kernel, an unloader only to
   take such a one away; and a second call before the pod moves changes nothing.
   */
  lemma ProcessSpecMeaning(spec: ModuleSpec, status: Option<ModuleStatus>, node: Node)
    ensures var pod := ProcessSpec(spec, status, None, node);
            && (pod.None? <==> UpToDate(spec, status, node))
            && (pod.Some? && pod.value.template.action == Load ==>
                  && pod.value.config == Document(spec.config)
                  && (status.Some? && status.value.config.kernelVersion == spec.config.kernelVersion ==> status.value.config == spec.config))
            && (pod.Some? && pod.value.template.action == Unload ==>
                  && status.Some? && pod.value.config == Document(status.value.config) && status.value.config != spec.config)
            && ProcessSpec(spec, status, pod, node) == pod
  {
  }

  /** A pod that is there stays or goes; it goes only as a restarted loader of an outdated template, and the next call makes the new one. */
  lemma ProcessSpecKeepsPod(spec: ModuleSpec, status: Option<ModuleStatus>, p: WorkerPod, node: Node)
    ensures var pod := ProcessSpec(spec, status, Some(p), node);
            && (pod == Some(p) || pod == None)
            && (pod == None <==> p.restarts > 0 && p.template.action == Load && p.template != LoaderTemplate(spec))
  {
  }

  /** The pod of a status without a spec entry, when its API call goes through; the node was not rebooted. */
  function ProcessOrphan(status: ModuleStatus, pod: Option<WorkerPod>): Option<WorkerPod> {
    match pod
    case None => Some(NewPod(UnloaderTemplate(status)))
    case Some(p) =>
      if p.template.action == Load then None
      else if p.restarts == 0 then pod
      else if p.template != UnloaderTemplate(status) then None
      else pod
  }

  predicate DropsOrphan(s: NodeState, node: Node, k: Key) {
    k !in s.spec && k in s.status && IsNodeRebooted(node, s.status[k].bootId)
  }

  function ProcessedPod(s: NodeState, node: Node, f: Faults, k: Key): Option<WorkerPod> {
    var pod := Lookup(s.pods, k);
    if k in f.worker then pod
    else if k in s.spec then
      if IsNodeSchedulable(node, s.spec[k].item.tolerations)
      then ProcessSpec(s.spec[k], Lookup(s.status, k), pod, node)
      else pod
    else if k in s.status && !DropsOrphan(s, node, k) then ProcessOrphan(s.status[k], pod)
    else pod
  }

  function ProcessedPods(s: NodeState, node: Node, f: Faults): (r: map<Key, WorkerPod>)
    ensures forall k :: Lookup(r, k) == ProcessedPod(s, node, f, k)
  {
    map k | k in s.pods.Keys + s.spec.Keys + s.status.Keys && ProcessedPod(s, node, f, k).Some? ::
      ProcessedPod(s, node, f, k).value
  }

  /** The status list the pass carries on with: dropped orphans are gone even if the patch failed. */
  function LocalStatus(s: NodeState, node: Node): map<Key, ModuleStatus> {
    map k | k in s.status && !DropsOrphan(s, node, k) :: s.status[k]
  }

  function StoredStatus(s: NodeState, node: Node, f: Faults): map<Key, ModuleStatus> {
    map k | k in s.status && (k in f.orphanPatch || !DropsOrphan(s, node, k)) :: s.status[k]
  }

  /** Both processing loops. */
  function ProcessPhase(s: NodeState, node: Node, f: Faults): NodeState {
    s.(status := StoredStatus(s, node, f), pods := ProcessedPods(s, node, f))
  }

  /** Some spec entry cannot run on the node: the pass only drops ready labels and returns. */
  predicate HeldBack(s: NodeState, node: Node) {
    exists k :: k in s.spec && !IsNodeSchedulable(node, s.spec[k].item.tolerations)
  }

  // ----- GarbageCollectInUseLabels and GarbageCollectWorkerPods -----

  /** The label key GarbageCollectInUseLabels derives from a pod: the pod's name stands for its namespace. */
  function PodLabelKey(nodeName: string, k: Key): Key {
    Key(WorkerPodName(nodeName, k.name), k.name)
  }

  function PodLabelKeys(pods: map<Key, WorkerPod>, nodeName: string): set<Key> {
    set k | k in pods :: PodLabelKey(nodeName, k)
  }

  function DesiredLabels(s: NodeState, local: map<Key, ModuleStatus>, nodeName: string): set<Key> {
    s.spec.Keys + local.Keys + PodLabelKeys(s.pods, nodeName)
  }

  function NamesInNmc(s: NodeState, local: map<Key, ModuleStatus>): set<string> {
    set k | k in s.spec.Keys + local.Keys :: k.name
  }

  /** The statuses the pod collection sees: a label patch that is needed and goes through brings the stored ones back. */
  function KnownStatus(s: NodeState, local: map<Key, ModuleStatus>, node: Node, f: Faults): map<Key, ModuleStatus> {
    if f.labelPatch || s.inUse <= DesiredLabels(s, local, node.name) then local else s.status
  }

  function CollectPhase(s: NodeState, local: map<Key, ModuleStatus>, node: Node, f: Faults): NodeState {
    var names := NamesInNmc(s, KnownStatus(s, local, node, f));
    s.(inUse := if f.labelPatch then s.inUse else s.inUse * DesiredLabels(s, local, node.name),
       pods := map k | k in s.pods && (k.name in names || k in f.gcDelete) :: s.pods[k])
  }

  // ----- The whole pass -----

  function Reconcile(s: NodeState, node: Node, f: Faults): NodeState {
    var (s1, ok) := SyncPhase(s, node, f);
    if !ok then s1
    else
      var s2 := ProcessPhase(s1, node, f);
      if HeldBack(s1, node) then s2 else CollectPhase(s2, LocalStatus(s1, node), node, f)
  }

  lemma SyncKeepsKeyed(s: NodeState, node: Node, f: Faults)
    requires Keyed(s)
    ensures Keyed(SyncPhase(s, node, f).0)
  {
    var status := SyncAll(s.status, s.pods, node.bootId);
    forall k | k in status ensures StatusKey(status[k]) == k {
      SyncedEntryIsKeyed(s.status, s.pods, node.bootId, k);
    }
  }

  lemma SyncedEntryIsKeyed(m: map<Key, ModuleStatus>, pods: map<Key, WorkerPod>, bootId: string, k: Key)
    requires k in m ==> StatusKey(m[k]) == k
    requires k in pods ==> PodKey(pods[k]) == k
    ensures k in SyncAll(m, pods, bootId) ==> StatusKey(SyncAll(m, pods, bootId)[k]) == k
  {
    assert Lookup(SyncAll(m, pods, bootId), k) == SyncedEntry(m, pods, bootId, k);
  }

  lemma ProcessKeepsKeyed(s: NodeState, node: Node, f: Faults)
    requires Keyed(s)
    ensures Keyed(ProcessPhase(s, node, f))
  {
    var pods := ProcessedPods(s, node, f);
    forall k | k in pods ensures PodKey(pods[k]) == k {
      assert Lookup(pods, k) == ProcessedPod(s, node, f, k);
    }
  }

  lemma ReconcileKeepsKeyed(s: NodeState, node: Node, f: Faults)
    requires Keyed(s)
    ensures Keyed(Reconcile(s, node, f))
  {
    SyncKeepsKeyed(s, node, f);
    ProcessKeepsKeyed(SyncPhase(s, node, f).0, node, f);
  }
}
