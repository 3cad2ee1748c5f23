/**
 Exactly when a pass makes a worker pod, takes one away, drops an entry or an in-use label, read off the
 API objects, the node and the calls that fail (internal/controllers/nmc_reconciler.go:65-167, 240-460).
 */
module PassDecisions {
  import opened Basics
  import opened NodeModules
  import opened NmcPass
  import opened NodeRuns

  /** The node came up again since the entry was written, and says so only once it is Ready. */
  predicate FromEarlierBoot(entry: ModuleStatus, node: Node) { node.ready && entry.bootId != node.bootId }

  /** Without a worker pod: a configured module the node admits needs one unless its entry is current, an unconfigured one while its entry is not of an earlier boot. */
  predicate NeedsPod(spec: Option<ModuleSpec>, entry: Option<ModuleStatus>, node: Node) {
    if spec.Some? then
      && spec.value.item.tolerations in node.admits
      && (entry.Some? && entry.value.config == spec.value.config ==> FromEarlierBoot(entry.value, node))
    else entry.Some? && !FromEarlierBoot(entry.value, node)
  }

  /** Another configuration is on record for the spec's kernel, or the module is no longer configured. */
  predicate UnloadsFirst(spec: Option<ModuleSpec>, entry: Option<ModuleStatus>) {
    entry.Some? && (spec.None? || (entry.value.config != spec.value.config && entry.value.config.kernelVersion == spec.value.config.kernelVersion))
  }

  /** A fresh pod that unloads the entry when that comes first and loads the spec otherwise. */
  predicate IsNext(p: WorkerPod, spec: Option<ModuleSpec>, entry: Option<ModuleStatus>) {
    && p.phase == Pending && p.restarts == 0
    && p.config == Document(p.template.config) && p.tolerations == Document(p.template.item.tolerations)
    && if UnloadsFirst(spec, entry) then p.template == Template(Unload, entry.value.item.(version := ""), entry.value.config)
       else spec.Some? && p.template == Template(Load, spec.value.item, spec.value.config)
  }

  /** A pod at work: it stays, unless it is a loader of a module that is to be unloaded or was restarted with an outdated template. */
  predicate IsOutdated(p: WorkerPod, spec: Option<ModuleSpec>, entry: Option<ModuleStatus>, node: Node) {
    if spec.Some? then
      spec.value.item.tolerations in node.admits && p.template.action == Load && p.restarts > 0 && p.template != Template(Load, spec.value.item, spec.value.config)
    else
      && entry.Some? && !FromEarlierBoot(entry.value, node)
      && (p.template.action == Load || (p.restarts > 0 && p.template != Template(Unload, entry.value.item.(version := ""), entry.value.config)))
  }

  // ----- One module through a pass -----

  /** The module after the sync phase, if the sync did nothing to it. */
  predicate SyncLeaves(s: NodeState, s1: NodeState, m: Key) {
    s1.spec == s.spec && s1.inUse == s.inUse && Lookup(s1.pods, m) == Lookup(s.pods, m) && Lookup(s1.status, m) == Lookup(s.status, m)
  }

  predicate AtWork(p: WorkerPod, known: bool) { !IsTerminal(p) && (p.phase == Running ==> known) }

  lemma SyncLeavesWaiting(s: NodeState, node: Node, f: Faults, m: Key)
    requires m in s.pods ==> AtWork(s.pods[m], m in s.spec || m in s.status)
    ensures SyncLeaves(s, SyncPhase(s, node, f).0, m)
  {
    if s.pods != map[] && !f.statusPatch {
      assert Lookup(SyncAll(s.status, s.pods, node.bootId), m) == SyncedEntry(s.status, s.pods, node.bootId, m);
      assert m !in RetiredPods(s);
    }
  }

  lemma ProcessedPodIs(s: NodeState, node: Node, f: Faults, m: Key)
    ensures var pod, pod' := Lookup(s.pods, m), Lookup(ProcessPhase(s, node, f).pods, m);
            var spec, entry := Lookup(s.spec, m), Lookup(s.status, m);
            && (m in f.worker ==> pod' == pod)
            && (m !in f.worker && pod.None? ==>
                  (pod'.Some? <==> NeedsPod(spec, entry, node)) && (pod'.Some? ==> IsNext(pod'.value, spec, entry)))
            && (m !in f.worker && pod.Some? ==> pod' == if IsOutdated(pod.value, spec, entry, node) then None else pod)
  {
    assert Lookup(ProcessPhase(s, node, f).pods, m) == ProcessedPod(s, node, f, m);
  }

  lemma ProcessedEntryIs(s: NodeState, node: Node, f: Faults, m: Key)
    ensures var drops := m !in s.spec && m in s.status && FromEarlierBoot(s.status[m], node);
            && Lookup(ProcessPhase(s, node, f).status, m) == (if drops && m !in f.orphanPatch then None else Lookup(s.status, m))
            && Lookup(LocalStatus(s, node), m) == (if drops then None else Lookup(s.status, m))
  {
  }

  /** The pass carries on with the module: it is configured, or its entry is not of an earlier boot. */
  predicate Carries(spec: Option<ModuleSpec>, entry: Option<ModuleStatus>, node: Node) {
    spec.Some? || (entry.Some? && !FromEarlierBoot(entry.value, node))
  }

  lemma CollectKeepsKnown(s: NodeState, node: Node, f: Faults, m: Key)
    requires Carries(Lookup(s.spec, m), Lookup(s.status, m), node) || m !in ProcessPhase(s, node, f).pods
    ensures var s2 := ProcessPhase(s, node, f);
            Lookup(CollectPhase(s2, LocalStatus(s, node), node, f).pods, m) == Lookup(s2.pods, m)
  {
    var s2 := ProcessPhase(s, node, f);
    var known := KnownStatus(s2, LocalStatus(s, node), node, f);
    if Carries(Lookup(s.spec, m), Lookup(s.status, m), node) {
      ProcessedEntryIs(s, node, f, m);
      assert m in s2.spec.Keys + known.Keys;
      assert m.name in NamesInNmc(s2, known);
    }
  }

  /** What is left of the module when the sync left it alone and the collection has nothing of it to collect. */
  lemma PassIs(w: World, f: Faults, m: Key)
    requires var s1 := SyncPhase(w.state, w.node, f).0;
             Carries(Lookup(s1.spec, m), Lookup(s1.status, m), w.node) || m !in ProcessPhase(s1, w.node, f).pods
    ensures var s1 := SyncPhase(w.state, w.node, f).0;
            var w' := Next(w, Pass(f));
            if SyncCallsPass(w.state, f)
            then Lookup(w'.state.pods, m) == Lookup(ProcessPhase(s1, w.node, f).pods, m) && w'.state.status == ProcessPhase(s1, w.node, f).status
            else w'.state == s1
  {
    SyncSucceedsIff(w.state, w.node, f);
    CollectKeepsKnown(SyncPhase(w.state, w.node, f).0, w.node, f, m);
  }

  /**
   A pass makes a worker pod for a module that has none exactly when it needs one and the sync and the
   module's own call go through; what it makes is a loader of the spec or an unloader of the entry.
   */
  lemma CreatesIff(w: World, f: Faults, m: Key)
    requires m !in w.state.pods
    ensures var pod := Lookup(Next(w, Pass(f)).state.pods, m);
            var spec, entry := Lookup(w.state.spec, m), Lookup(w.state.status, m);
            && (pod.Some? <==> SyncCallsPass(w.state, f) && m !in f.worker && NeedsPod(spec, entry, w.node))
            && (pod.Some? ==> IsNext(pod.value, spec, entry))
  {
    SyncLeavesWaiting(w.state, w.node, f, m);
    ProcessedPodIs(SyncPhase(w.state, w.node, f).0, w.node, f, m);
    PassIs(w, f, m);
  }

  /** A pod at work for a module the pass carries on with goes exactly when it is outdated and the calls go through; otherwise it stays as it is. */
  lemma WorkingPodGoesIff(w: World, f: Faults, m: Key)
    requires m in w.state.pods && AtWork(w.state.pods[m], true)
    requires Carries(Lookup(w.state.spec, m), Lookup(w.state.status, m), w.node)
    ensures var p := w.state.pods[m];
            var goes := SyncCallsPass(w.state, f) && m !in f.worker && IsOutdated(p, Lookup(w.state.spec, m), Lookup(w.state.status, m), w.node);
            Lookup(Next(w, Pass(f)).state.pods, m) == if goes then None else Some(p)
  {
    SyncLeavesWaiting(w.state, w.node, f, m);
    ProcessedPodIs(SyncPhase(w.state, w.node, f).0, w.node, f, m);
    PassIs(w, f, m);
  }

  /** An entry without a worker pod goes exactly when its module is not configured, it is of an earlier boot of a Ready node and its removal goes through. */
  lemma EntryGoesIff(w: World, f: Faults, m: Key)
    requires m !in w.state.pods && m in w.state.status
    ensures var entry := w.state.status[m];
            var goes := m !in w.state.spec && FromEarlierBoot(entry, w.node) && SyncCallsPass(w.state, f) && m !in f.orphanPatch;
            Lookup(Next(w, Pass(f)).state.status, m) == if goes then None else Some(entry)
  {
    SyncLeavesWaiting(w.state, w.node, f, m);
    var s1 := SyncPhase(w.state, w.node, f).0;
    ProcessedPodIs(s1, w.node, f, m);
    ProcessedEntryIs(s1, w.node, f, m);
    PassIs(w, f, m);
  }

  // ----- Pods that are done or unknown -----

  /** Every finished loader's annotations decode and the status patch is accepted. */
  ghost predicate SyncReachesDeletes(s: NodeState, f: Faults) {
    && !f.statusPatch
    && forall k :: k in s.pods && s.pods[k].phase == Succeeded && s.pods[k].template.action == Load ==>
         s.pods[k].config.Document? && s.pods[k].tolerations.Document?
  }

  /** A finished pod, or a running one of a module neither spec nor status knows, stays exactly when the sync does not get to delete it. */
  lemma DonePodStaysIff(w: World, f: Faults, m: Key)
    requires m in w.state.pods && !AtWork(w.state.pods[m], m in w.state.spec || m in w.state.status)
    ensures Lookup(Next(w, Pass(f)).state.pods, m) == Some(w.state.pods[m]) <==> !SyncReachesDeletes(w.state, f) || m in f.syncDelete
  {
    var s1 := SyncPhase(w.state, w.node, f).0;
    SyncSucceedsIff(w.state, w.node, f);
    assert m in RetiredPods(w.state) || Undecodable(w.state.pods[m]);
    if SyncCallsPass(w.state, f) {
      assert m !in s1.pods;
      ProcessedPodIs(s1, w.node, f, m);
    }
  }

  /** The collection is reached: the sync goes through and the node admits every configured module. */
  ghost predicate Reaches(w: World, f: Faults) {
    SyncCallsPass(w.state, f) && forall k :: k in w.state.spec ==> w.state.spec[k].item.tolerations in w.node.admits
  }

  /** Where a pass ends. */
  lemma PassEnds(w: World, f: Faults)
    ensures var s1 := SyncPhase(w.state, w.node, f).0;
            var s2 := ProcessPhase(s1, w.node, f);
            Next(w, Pass(f)).state ==
            if Reaches(w, f) then CollectPhase(s2, LocalStatus(s1, w.node), w.node, f) else if SyncCallsPass(w.state, f) then s2 else s1
  {
    SyncSucceedsIff(w.state, w.node, f);
  }

  /** No phase brings up another module of the name. */
  lemma OnlyOneOfItsName(w: World, f: Faults, m: Key)
    requires forall k :: k in w.state.spec || k in w.state.status || k in w.state.pods ==> k == m || k.name != m.name
    ensures var s1 := SyncPhase(w.state, w.node, f).0;
            forall k :: k in s1.spec || k in s1.status || k in ProcessPhase(s1, w.node, f).pods ==> k == m || k.name != m.name
  {
    var s1 := SyncPhase(w.state, w.node, f).0;
    forall k | k in s1.status ensures k in w.state.status || k in w.state.pods {
      assert s1.status != w.state.status ==> Lookup(s1.status, k) == SyncedEntry(w.state.status, w.state.pods, w.node.bootId, k);
    }
  }

  /** A pod that has not started and that neither spec nor status knows, not even by name, goes exactly when the collection is reached and its deletion goes through. */
  lemma UnknownPodGoesIff(w: World, f: Faults, m: Key)
    requires m in w.state.pods && (w.state.pods[m].phase == Pending || w.state.pods[m].phase == Unknown)
    requires forall k :: k in w.state.spec || k in w.state.status || k in w.state.pods ==> k == m || k.name != m.name
    requires m !in w.state.spec && m !in w.state.status
    ensures Lookup(Next(w, Pass(f)).state.pods, m) == if Reaches(w, f) && m !in f.gcDelete then None else Some(w.state.pods[m])
  {
    var s1 := SyncPhase(w.state, w.node, f).0;
    SyncLeavesWaiting(w.state, w.node, f, m);
    PassEnds(w, f);
    ProcessedPodIs(s1, w.node, f, m);
    OnlyOneOfItsName(w, f, m);
    var s2, local := ProcessPhase(s1, w.node, f), LocalStatus(s1, w.node);
    assert m.name !in NamesInNmc(s2, KnownStatus(s2, local, w.node, f));
  }

  /**
   An entry that was to be dropped but is still stored: when its label had to go and that patch is
   accepted, the object comes back with the entry and its waiting pod is spared; otherwise the pod goes.
   */
  lemma DroppedEntrySparesPodIff(w: World, f: Faults, m: Key)
    requires m in w.state.pods && (w.state.pods[m].phase == Pending || w.state.pods[m].phase == Unknown)
    requires m !in w.state.spec && m in w.state.status && FromEarlierBoot(w.state.status[m], w.node) && m in f.orphanPatch && m !in f.gcDelete
    requires forall k :: k in w.state.spec || k in w.state.status || k in w.state.pods ==> k == m || k.name != m.name
    requires Reaches(w, f) && m in w.state.inUse && "kmm-worker-" + w.node.name + "-" + m.name != m.namespace
    ensures Lookup(Next(w, Pass(f)).state.pods, m) == if f.labelPatch then None else Some(w.state.pods[m])
  {
    var s1 := SyncPhase(w.state, w.node, f).0;
    SyncLeavesWaiting(w.state, w.node, f, m);
    PassEnds(w, f);
    ProcessedPodIs(s1, w.node, f, m);
    ProcessedEntryIs(s1, w.node, f, m);
    OnlyOneOfItsName(w, f, m);
    var s2, local := ProcessPhase(s1, w.node, f), LocalStatus(s1, w.node);
    if !f.labelPatch {
      assert m !in DesiredLabels(s2, local, w.node.name);
      assert m in KnownStatus(s2, local, w.node, f);
      assert m.name in NamesInNmc(s2, KnownStatus(s2, local, w.node, f));
    } else {
      assert m.name !in NamesInNmc(s2, local);
    }
  }

  // ----- In-use labels -----

  /** A pod on the node whose own name stands where the label has the module's namespace. */
  ghost predicate SpokenForByPod(pods: map<Key, WorkerPod>, node: Node, m: Key) {
    exists k :: k in pods && k.name == m.name && "kmm-worker-" + node.name + "-" + k.name == m.namespace
  }

  /**
   The in-use label of a module without a worker pod goes exactly when every configured module is
   admitted, the calls go through, and it is neither configured nor in an entry of this boot; nothing
   but a pod that happens to have the namespace for its name can speak for it then.
   */
  lemma LabelGoesIff(w: World, f: Faults, m: Key)
    requires m in w.state.inUse && m !in w.state.pods
    ensures var w' := Next(w, Pass(f));
            var pods := ProcessPhase(SyncPhase(w.state, w.node, f).0, w.node, f).pods;
            m !in w'.state.inUse <==>
              Reaches(w, f) && !f.labelPatch && !Carries(Lookup(w.state.spec, m), Lookup(w.state.status, m), w.node) && !SpokenForByPod(pods, w.node, m)
  {
    var s1 := SyncPhase(w.state, w.node, f).0;
    SyncLeavesWaiting(w.state, w.node, f, m);
    PassEnds(w, f);
    ProcessedEntryIs(s1, w.node, f, m);
    var pods := ProcessPhase(s1, w.node, f).pods;
    assert m in PodLabelKeys(pods, w.node.name) <==> SpokenForByPod(pods, w.node, m);
  }
}
