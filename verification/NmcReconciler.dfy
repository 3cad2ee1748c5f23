/**
 The NMC reconciler in the form the operator has it: status lists edited in place, worker pods
 created and deleted one by one, loops over lists and maps in whatever order they come
 (internal/controllers/nmc_reconciler.go, internal/nmc/helper.go). Every method is proved against
 the functions of `NmcPass`.
 */
module NmcReconciler {
  import opened Basics
  import opened NodeModules
  import opened NmcPass

  /** A status list handed around by pointer. */
  class StatusList {
    var modules: seq<ModuleStatus>

    constructor (modules: seq<ModuleStatus>)
      ensures this.modules == modules
    {
      this.modules := modules;
    }

    ghost function View(): map<Key, ModuleStatus>
      reads this
    {
      FirstByKey(modules, StatusKey)
    }

    /** The index of the entry, or the length of the list. */
    method FindModuleStatus(k: Key) returns (i: nat)
      ensures FirstAt(modules, StatusKey, k, i)
    {
      i := 0;
      while i < |modules| && modules[i].item.key != k
        invariant i <= |modules|
        invariant forall j :: 0 <= j < i ==> StatusKey(modules[j]) != k
      {
        i := i + 1;
      }
    }

    method RemoveModuleStatus(k: Key)
      modifies this
      ensures View() == old(View()) - {k}
      ensures old(DistinctKeys(modules, StatusKey)) ==> DistinctKeys(modules, StatusKey)
    {
      var kept: seq<ModuleStatus> := [];
      for i := 0 to |modules|
        invariant modules == old(modules)
        invariant KeptSoFar(kept, modules, i, k)
      {
        KeepStep(kept, modules, i, k);
        if modules[i].item.key != k {
          kept := kept + [modules[i]];
        }
      }
      assert modules[..|modules|] == modules;
      modules := kept;
    }

    method SetModuleStatus(status: ModuleStatus)
      modifies this
      ensures View() == old(View())[StatusKey(status) := status]
      ensures old(DistinctKeys(modules, StatusKey)) ==> DistinctKeys(modules, StatusKey)
    {
      var i := FindModuleStatus(status.item.key);
      if i < |modules| {
        FirstByKeyUpdate(modules, StatusKey, i, status);
        modules := modules[i := status];
      } else {
        FirstByKeyLookup(modules, StatusKey, StatusKey(status), i);
        FirstByKeyAppend(modules, StatusKey, status);
        modules := modules + [status];
      }
    }
  }

  /** The spec entries of an NMC, as the Module reconciler edits them. */
  class SpecList {
    var modules: seq<ModuleSpec>

    constructor (modules: seq<ModuleSpec>)
      ensures this.modules == modules
    {
      this.modules := modules;
    }

    ghost function View(): map<Key, ModuleSpec>
      reads this
    {
      FirstByKey(modules, SpecKey)
    }

    method GetModuleSpecEntry(k: Key) returns (i: nat)
      ensures FirstAt(modules, SpecKey, k, i)
    {
      i := 0;
      while i < |modules| && modules[i].item.key != k
        invariant i <= |modules|
        invariant forall j :: 0 <= j < i ==> SpecKey(modules[j]) != k
      {
        i := i + 1;
      }
    }

    /** Overwrites the entry of the module, or appends one; an unset service account becomes "default". */
    method SetModuleConfig(mld: Item, config: Config)
      modifies this
      ensures View() == old(View())[mld.key := ModuleSpec(WithDefaultAccount(mld), config)]
      ensures mld.serviceAccount == "" ==> View()[mld.key] == ModuleSpec(mld.(serviceAccount := "default"), config)
      ensures mld.serviceAccount != "" ==> View()[mld.key] == ModuleSpec(mld, config)
      ensures old(DistinctKeys(modules, SpecKey)) ==> DistinctKeys(modules, SpecKey)
      ensures |old(modules)| <= |modules| <= |old(modules)| + 1
      ensures forall i :: 0 <= i < |old(modules)| && SpecKey(old(modules)[i]) != mld.key ==> modules[i] == old(modules)[i]
    {
      var entry := ModuleSpec(WithDefaultAccount(mld), config);
      var i := GetModuleSpecEntry(mld.key);
      if i == |modules| {
        FirstByKeyLookup(modules, SpecKey, mld.key, i);
        FirstByKeyAppend(modules, SpecKey, entry);
        modules := modules + [entry];
      } else {
        FirstByKeyUpdate(modules, SpecKey, i, entry);
        modules := modules[i := entry];
      }
    }

    method RemoveModuleConfig(k: Key)
      modifies this
      ensures k !in old(View()) ==> modules == old(modules)
      ensures old(DistinctKeys(modules, SpecKey)) ==> View() == old(View()) - {k} && DistinctKeys(modules, SpecKey)
    {
      var i := GetModuleSpecEntry(k);
      FirstByKeyLookup(modules, SpecKey, k, i);
      if i < |modules| {
        if DistinctKeys(modules, SpecKey) {
          RemoveAt(modules, i);
        }
        modules := modules[..i] + modules[i + 1..];
      }
    }
  }

  /** How far the filter has come. */
  ghost predicate KeptSoFar(kept: seq<ModuleStatus>, modules: seq<ModuleStatus>, i: nat, k: Key) {
    && i <= |modules|
    && FirstByKey(kept, StatusKey) == FirstByKey(modules[..i], StatusKey) - {k}
    && (forall x :: x in kept ==> x in modules[..i])
    && (DistinctKeys(modules, StatusKey) ==> DistinctKeys(kept, StatusKey))
  }

  lemma KeepStep(kept: seq<ModuleStatus>, modules: seq<ModuleStatus>, i: nat, k: Key)
    requires i < |modules| && KeptSoFar(kept, modules, i, k)
    ensures KeptSoFar(if StatusKey(modules[i]) == k then kept else kept + [modules[i]], modules, i + 1, k)
  {
    FirstByKeyAppend(modules[..i], StatusKey, modules[i]);
    FirstByKeyAppend(kept, StatusKey, modules[i]);
    PrefixStep(modules, i);
    if DistinctKeys(modules, StatusKey) {
      KeptIsDistinct(kept, modules, i);
    }
  }

  lemma KeptIsDistinct(kept: seq<ModuleStatus>, modules: seq<ModuleStatus>, i: nat)
    requires i < |modules| && DistinctKeys(modules, StatusKey) && DistinctKeys(kept, StatusKey)
    requires forall x :: x in kept ==> x in modules[..i]
    ensures DistinctKeys(kept + [modules[i]], StatusKey)
  {
    forall a | 0 <= a < |kept|
      ensures StatusKey(kept[a]) != StatusKey(modules[i])
    {
      assert kept[a] in modules[..i];
      var b :| 0 <= b < i && modules[..i][b] == kept[a];
    }
  }

  function WithDefaultAccount(mld: Item): Item {
    if mld.serviceAccount == "" then mld.(serviceAccount := "default") else mld
  }

  lemma {:induction false} RemoveAt(s: seq<ModuleSpec>, i: nat)
    requires i < |s| && DistinctKeys(s, SpecKey)
    ensures FirstByKey(s[..i] + s[i + 1..], SpecKey) == FirstByKey(s, SpecKey) - {SpecKey(s[i])}
  {
    if i == 0 {
      assert s[..0] + s[1..] == s[1..];
      FirstByKeyLookup(s[1..], SpecKey, SpecKey(s[0]), |s| - 1);
    } else {
      var rest := s[..i] + s[i + 1..];
      assert rest[1..] == s[1..][..i - 1] + s[1..][i..];
      RemoveAt(s[1..], i - 1);
    }
  }

  /** The list names every stored worker pod once. */
  ghost predicate Lists(list: seq<WorkerPod>, pods: map<Key, WorkerPod>) {
    DistinctKeys(list, PodKey) && FirstByKey(list, PodKey) == pods
  }

  class NmcReconciler {
    var spec: seq<ModuleSpec>
    var status: seq<ModuleStatus>
    var pods: map<Key, WorkerPod>
    var inUse: set<Key>

    ghost function State(): NodeState
      reads this
    {
      NodeState(FirstByKey(spec, SpecKey), FirstByKey(status, StatusKey), pods, inUse)
    }

    ghost predicate Valid()
      reads this
    {
      && DistinctKeys(spec, SpecKey)
      && DistinctKeys(status, StatusKey)
      && Keyed(State())
    }

    /** One succeeded loader pod: decode its annotations into the entry and stamp the boot ID. */
    method SyncLoaderPod(nmc: StatusList, p: WorkerPod, bootId: string) returns (failed: bool)
      requires p.phase == Succeeded && p.template.action == Load
      requires DistinctKeys(nmc.modules, StatusKey)
      modifies nmc
      ensures nmc.View() == SyncStep(old(nmc.View()), p, bootId)
      ensures failed == Undecodable(p)
      ensures DistinctKeys(nmc.modules, StatusKey)
    {
      var k := PodKey(p);
      var at := nmc.FindModuleStatus(k);
      FirstByKeyLookup(nmc.modules, StatusKey, k, at);
      FirstByKeyOwnKeys(nmc.modules, StatusKey);
      ghost var was := nmc.View();
      var entry := if at < |nmc.modules| then nmc.modules[at] else BlankStatus(k);
      if p.config.Malformed? {
        MapsEqualByLookup(nmc.View(), SyncStep(was, p, bootId));
        return true;
      }
      entry := entry.(config := Decode(entry.config, p.config.content));
      if at < |nmc.modules| {
        FirstByKeyUpdate(nmc.modules, StatusKey, at, entry);
        nmc.modules := nmc.modules[at := entry];
      }
      if p.tolerations.Malformed? {
        MapsEqualByLookup(nmc.View(), SyncStep(was, p, bootId));
        return true;
      }
      var secret := if p.template.item.secret.Some? then p.template.item.secret else entry.item.secret;
      entry := entry.(item := Item(entry.item.key, secret, p.template.item.serviceAccount,
                                   p.tolerations.content, p.template.item.version),
                      bootId := bootId);
      nmc.SetModuleStatus(entry);
      MapsEqualByLookup(nmc.View(), SyncStep(was, p, bootId));
      failed := false;
    }

    /** One pod of the list: its effect on the status list, and whether it goes on the list of pods to delete. */
    method SyncPod(nmc: StatusList, p: WorkerPod, bootId: string) returns (retired: bool, failed: bool)
      requires DistinctKeys(nmc.modules, StatusKey)
      modifies nmc
      ensures nmc.View() == SyncStep(old(nmc.View()), p, bootId)
      ensures DistinctKeys(nmc.modules, StatusKey)
      ensures retired == Retires(p, PodKey(p) in State().spec, Lookup(old(nmc.View()), PodKey(p)))
      ensures failed == Undecodable(p)
    {
      var k := PodKey(p);
      ghost var was := nmc.View();
      retired, failed := false, false;
      match p.phase {
        case Running =>
          var at := nmc.FindModuleStatus(k);
          FirstByKeyLookup(nmc.modules, StatusKey, k, at);
          var inSpec := HasSpec(k);
          retired := !inSpec && at == |nmc.modules|;
        case Failed =>
          retired := true;
        case Succeeded =>
          if p.template.action == Unload {
            retired := true;
            nmc.RemoveModuleStatus(k);
          } else {
            failed := SyncLoaderPod(nmc, p, bootId);
            retired := !failed;
            return;
          }
        case _ =>
      }
      MapsEqualByLookup(nmc.View(), SyncStep(was, p, bootId));
    }

    /** Deletes the pods one by one, in any order, and goes on after a failure. */
    method DeletePods(doomed: set<Key>, refused: set<Key>) returns (ok: bool)
      modifies this`pods
      ensures pods == old(pods) - (doomed - refused)
      ensures ok <==> doomed * refused == {}
    {
      ok := true;
      var rest := doomed;
      while rest != {}
        invariant rest <= doomed
        invariant pods == old(pods) - (doomed - rest - refused)
        invariant ok <==> (doomed - rest) * refused == {}
        decreases rest
      {
        var k :| k in rest;
        rest := rest - {k};
        if k in refused {
          ok := false;
          assert k in (doomed - rest) * refused;
        } else {
          pods := pods - {k};
        }
      }
    }

    /** The loop over the pods of the node: the statuses they leave, and the pods to delete. */
    method SyncPods(nmc: StatusList, list: seq<WorkerPod>, bootId: string) returns (doomed: set<Key>, failed: bool)
      requires Valid() && Lists(list, pods) && nmc.modules == status
      modifies nmc
      ensures nmc.View() == SyncAll(State().status, pods, bootId)
      ensures DistinctKeys(nmc.modules, StatusKey)
      ensures doomed == RetiredPods(State())
      ensures failed == SyncFails(State())
    {
      ghost var s := State();
      ListedPods(list, pods);
      doomed, failed := {}, false;
      for i := 0 to |list|
        invariant DistinctKeys(nmc.modules, StatusKey)
        invariant SyncedSoFar(s, list, i, bootId, nmc.View(), doomed, failed)
      {
        SyncPrefixStep(s, list, i, bootId, nmc.View(), doomed, failed);
        var retired, bad := SyncPod(nmc, list[i], bootId);
        if retired {
          doomed := doomed + {PodKey(list[i])};
        }
        failed := failed || bad;
      }
      SyncedByList(s, list, bootId, nmc.View(), doomed, failed);
    }

    method SyncStatus(nmc: StatusList, list: seq<WorkerPod>, node: Node, f: Faults) returns (ok: bool)
      requires Valid() && Lists(list, pods) && nmc.modules == status
      modifies this`status, this`pods, nmc
      ensures Valid()
      ensures (State(), ok) == SyncPhase(old(State()), node, f)
      ensures ok ==> nmc.modules == status
    {
      ListedPods(list, pods);
      SyncKeepsKeyed(State(), node, f);
      if |list| == 0 {
        return true;
      }
      var doomed, failed := SyncPods(nmc, list, node.bootId);
      if f.statusPatch {
        return false;
      }
      status := nmc.modules;
      if failed {
        return false;
      }
      ok := DeletePods(doomed, f.syncDelete);
    }

    method HasSpec(k: Key) returns (found: bool)
      ensures found <==> k in State().spec
    {
      FirstByKeyOwnKeys(spec, SpecKey);
      found := false;
      for i := 0 to |spec|
        invariant found <==> exists j :: 0 <= j < i && SpecKey(spec[j]) == k
      {
        if spec[i].item.key == k {
          found := true;
        }
      }
    }

    // ----- Worker pods -----

    /** The pod calls go through unless `f` refuses them for this module. */
    method ProcessModuleSpec(spec: ModuleSpec, status: Option<ModuleStatus>, node: Node, f: Faults) returns (err: bool)
      modifies this`pods
      ensures var k := SpecKey(spec);
              pods == if k in f.worker then old(pods) else Put(old(pods), k, ProcessSpec(spec, status, Lookup(old(pods), k), node))
      ensures err <==> SpecKey(spec) in f.worker
    {
      var k := spec.item.key;
      if k in f.worker {
        return true;
      }
      err := false;
      if k !in pods {
        if status.None? {
          pods := pods[k := NewPod(LoaderTemplate(spec))];
        } else if spec.config != status.value.config {
          if spec.config.kernelVersion == status.value.config.kernelVersion {
            pods := pods[k := NewPod(UnloaderTemplate(status.value))];
          } else {
            pods := pods[k := NewPod(LoaderTemplate(spec))];
          }
        } else if IsNodeRebooted(node, status.value.bootId) {
          pods := pods[k := NewPod(LoaderTemplate(spec))];
        }
        return;
      }
      var p := pods[k];
      if p.template.action != Load || p.restarts == 0 {
        return;
      }
      if p.template != LoaderTemplate(spec) {
        pods := pods - {k};
      }
    }

    /** A status entry without a spec entry: drop it after a reboot, otherwise see that it is unloaded. */
    method ProcessUnconfiguredModuleStatus(nmc: StatusList, entry: ModuleStatus, node: Node, f: Faults) returns (err: bool)
      requires DistinctKeys(nmc.modules, StatusKey)
      modifies this`status, this`pods, nmc
      ensures DistinctKeys(nmc.modules, StatusKey)
      ensures var k := StatusKey(entry);
              if IsNodeRebooted(node, entry.bootId) then
                && nmc.View() == old(nmc.View()) - {k}
                && status == (if k in f.orphanPatch then old(status) else nmc.modules)
                && pods == old(pods)
              else
                && nmc.modules == old(nmc.modules) && status == old(status)
                && pods == if k in f.worker then old(pods) else Put(old(pods), k, ProcessOrphan(entry, Lookup(old(pods), k)))
    {
      var k := entry.item.key;
      err := false;
      if IsNodeRebooted(node, entry.bootId) {
        nmc.RemoveModuleStatus(k);
        if k in f.orphanPatch {
          return true;
        }
        status := nmc.modules;
        return;
      }
      if k in f.worker {
        return true;
      }
      if k !in pods {
        pods := pods[k := NewPod(UnloaderTemplate(entry))];
        return;
      }
      var p := pods[k];
      if p.template.action == Load {
        pods := pods - {k};
        return;
      }
      if p.restarts == 0 {
        return;
      }
      if p.template != UnloaderTemplate(entry) {
        pods := pods - {k};
      }
    }

    // ----- Garbage collection -----

    /** The modules of the NMC's spec and status. */
    method ModulesInNmc(nmc: StatusList) returns (modules: set<Key>)
      ensures modules == State().spec.Keys + nmc.View().Keys
    {
      modules := {};
      FirstByKeyOwnKeys(spec, SpecKey);
      FirstByKeyOwnKeys(nmc.modules, StatusKey);
      for i := 0 to |spec|
        invariant forall k :: k in modules <==> exists j :: 0 <= j < i && SpecKey(spec[j]) == k
      {
        modules := modules + {spec[i].item.key};
      }
      assert modules == State().spec.Keys;
      for i := 0 to |nmc.modules|
        invariant forall k :: k in modules <==> k in State().spec || exists j :: 0 <= j < i && StatusKey(nmc.modules[j]) == k
      {
        modules := modules + {nmc.modules[i].item.key};
      }
    }

    method GarbageCollectInUseLabels(nmc: StatusList, list: seq<WorkerPod>, node: Node, f: Faults)
      requires Lists(list, pods)
      modifies this`inUse, nmc
      ensures inUse == if f.labelPatch then old(inUse) else old(inUse) * DesiredLabels(old(State()), old(nmc.View()), node.name)
      ensures nmc.View() == KnownStatus(old(State()), old(nmc.View()), node, f)
    {
      var desired := ModulesInNmc(nmc);
      ghost var named := desired;
      ListedPods(list, pods);
      for i := 0 to |list|
        invariant forall k :: k in desired <==> k in named || exists j :: 0 <= j < i && PodLabelKey(node.name, PodKey(list[j])) == k
      {
        desired := desired + {PodLabelKey(node.name, PodKey(list[i]))};
      }
      assert desired == DesiredLabels(State(), nmc.View(), node.name);
      var diff := inUse - desired;
      assert inUse - diff == inUse * desired;
      assert forall k :: k in inUse && k !in desired ==> k in diff;
      if diff != {} && !f.labelPatch {
        inUse := inUse - diff;
        nmc.modules := status;
      }
    }

    method GarbageCollectWorkerPods(nmc: StatusList, list: seq<WorkerPod>, f: Faults)
      requires Lists(list, pods)
      modifies this`pods
      ensures pods == map k | k in old(pods) && (k.name in NamesInNmc(old(State()), nmc.View()) || k in f.gcDelete) :: old(pods)[k]
    {
      var modules := ModulesInNmc(nmc);
      var names := set k | k in modules :: k.name;
      ghost var before := pods;
      for i := 0 to |list|
        invariant CollectedSoFar(pods, before, list, i, names, f.gcDelete)
      {
        CollectStep(pods, before, list, i, names, f.gcDelete);
        var k := PodKey(list[i]);
        if k.name !in names && k !in f.gcDelete {
          pods := pods - {k};
        }
      }
      AllCollected(pods, before, list, names, f.gcDelete);
    }

    // ----- The pass -----

    /** The worker pods of the node, in the order the API happens to return them. */
    method ListWorkerPods() returns (list: seq<WorkerPod>)
      requires forall k :: k in pods ==> PodKey(pods[k]) == k
      ensures Lists(list, pods)
    {
      list := [];
      var rest := pods.Keys;
      while rest != {}
        invariant rest <= pods.Keys
        invariant DistinctKeys(list, PodKey)
        invariant forall p :: p in list ==> PodKey(p) in pods.Keys - rest
        invariant forall k :: Lookup(FirstByKey(list, PodKey), k) == if k in rest then None else Lookup(pods, k)
        decreases rest
      {
        var k :| k in rest;
        FirstByKeyAppend(list, PodKey, pods[k]);
        assert Lookup(FirstByKey(list, PodKey), k) == None;
        list := list + [pods[k]];
        rest := rest - {k};
      }
      MapsEqualByLookup(FirstByKey(list, PodKey), pods);
    }

    /** The loop over the spec entries; what it leaves of the status map are the orphans. */
    method ProcessSpecs(statusMap: map<Key, ModuleStatus>, node: Node, f: Faults)
      returns (orphans: map<Key, ModuleStatus>, heldBack: bool)
      requires Valid() && statusMap == State().status
      modifies this`pods
      ensures orphans == statusMap - State().spec.Keys
      ensures heldBack == HeldBack(old(State()), node)
      ensures forall k :: Lookup(pods, k) == if k in State().spec then ProcessedPod(old(State()), node, f, k) else Lookup(old(pods), k)
    {
      ghost var s := State();
      orphans, heldBack := statusMap, false;
      for i := 0 to |spec|
        invariant SpecsDone(s, spec, i, node, f, orphans, heldBack, pods)
      {
        ghost var was := pods;
        var k := SpecKey(spec[i]);
        SpecStep(s, spec, i, node, f, orphans, heldBack, was);
        if !IsNodeSchedulable(node, spec[i].item.tolerations) {
          heldBack := true;
        } else {
          var err := ProcessModuleSpec(spec[i], Lookup(orphans, k), node, f);
        }
        orphans := orphans - {k};
      }
      SpecsAllDone(s, spec, node, f, orphans, heldBack, pods);
    }

    /** One orphaned entry of those still to do. */
    method ProcessOneOrphan(nmc: StatusList, entry: ModuleStatus, node: Node, f: Faults, ghost s: NodeState, ghost rest: set<Key>, ghost left: set<Key>)
      returns (ghost left': set<Key>)
      requires StatusKey(entry) in rest && rest <= s.status.Keys - s.spec.Keys && s.status[StatusKey(entry)] == entry
      requires left <= f.orphanPatch && State().spec == s.spec
      requires DistinctKeys(nmc.modules, StatusKey) && DistinctKeys(status, StatusKey)
      requires OrphansDone(s, node, f, rest, left, nmc.View(), FirstByKey(status, StatusKey), pods)
      modifies this`status, this`pods, nmc
      ensures left' <= f.orphanPatch
      ensures DistinctKeys(nmc.modules, StatusKey) && DistinctKeys(status, StatusKey)
      ensures OrphansDone(s, node, f, rest - {StatusKey(entry)}, left', nmc.View(), FirstByKey(status, StatusKey), pods)
    {
      ghost var k := StatusKey(entry);
      ghost var local, stored, was := nmc.View(), FirstByKey(status, StatusKey), pods;
      var err := ProcessUnconfiguredModuleStatus(nmc, entry, node, f);
      left' := left;
      if IsNodeRebooted(node, entry.bootId) {
        DroppedStep(s, node, f, rest, left, local, stored, was, k);
        left' := if k in f.orphanPatch then left + {k} else {};
      } else {
        OrphanStep(s, node, f, rest, left, local, stored, was, pods, k);
      }
    }

    /** The loop over the orphaned entries, in any order. `left` holds the dropped entries that no status patch carried to the server. */
    method ProcessOrphans(nmc: StatusList, orphans: map<Key, ModuleStatus>, node: Node, f: Faults, ghost s: NodeState)
      returns (ghost left: set<Key>)
      requires s.spec == State().spec && s.status == State().status == nmc.View() && s.inUse == inUse
      requires DistinctKeys(nmc.modules, StatusKey) && DistinctKeys(status, StatusKey) && Keyed(s)
      requires orphans == s.status - s.spec.Keys
      requires forall k :: Lookup(pods, k) == if k in s.spec then ProcessedPod(s, node, f, k) else Lookup(s.pods, k)
      modifies this`status, this`pods, nmc
      ensures left <= f.orphanPatch
      ensures DistinctKeys(nmc.modules, StatusKey) && DistinctKeys(status, StatusKey)
      ensures nmc.View() == LocalStatus(s, node)
      ensures State() == ProcessPhase(s, node, f.(orphanPatch := left))
    {
      left := {};
      var rest := orphans.Keys;
      while rest != {}
        invariant rest <= orphans.Keys && left <= f.orphanPatch
        invariant DistinctKeys(nmc.modules, StatusKey) && DistinctKeys(status, StatusKey)
        invariant OrphansDone(s, node, f, rest, left, nmc.View(), FirstByKey(status, StatusKey), pods)
        decreases rest
      {
        var k :| k in rest;
        left := ProcessOneOrphan(nmc, orphans[k], node, f, s, rest, left);
        rest := rest - {k};
      }
      OrphansAllDone(s, node, f, left, nmc.View(), FirstByKey(status, StatusKey), pods);
    }

    method CollectGarbage(nmc: StatusList, node: Node, f: Faults)
      requires forall k :: k in pods ==> PodKey(pods[k]) == k
      modifies this`pods, this`inUse, nmc
      ensures State() == CollectPhase(old(State()), old(nmc.View()), node, f)
    {
      var list := ListWorkerPods();
      GarbageCollectInUseLabels(nmc, list, node, f);
      GarbageCollectWorkerPods(nmc, list, f);
    }

    /** What follows a status sync without errors. */
    method ProcessAndCollect(nmc: StatusList, node: Node, f: Faults) returns (ghost left: set<Key>)
      requires Valid() && nmc.View() == State().status && DistinctKeys(nmc.modules, StatusKey)
      modifies this`status, this`pods, this`inUse, nmc
      ensures left <= f.orphanPatch && DistinctKeys(status, StatusKey)
      ensures State() == AfterSync(old(State()), node, f.(orphanPatch := left))
    {
      ghost var s := State();
      var orphans, heldBack := ProcessSpecs(FirstByKey(nmc.modules, StatusKey), node, f);
      left := ProcessOrphans(nmc, orphans, node, f, s);
      ProcessKeepsKeyed(s, node, f.(orphanPatch := left));
      if !heldBack {
        CollectGarbage(nmc, node, f);
      }
    }

    /** One reconcile pass. */
    method Reconcile(node: Node, f: Faults) returns (ghost left: set<Key>)
      requires Valid()
      modifies this`status, this`pods, this`inUse
      ensures Valid()
      ensures left <= f.orphanPatch
      ensures State() == NmcPass.Reconcile(old(State()), node, f.(orphanPatch := left))
    {
      left := {};
      var nmc := new StatusList(status);
      var list := ListWorkerPods();
      var ok := SyncStatus(nmc, list, node, f);
      ghost var s1 := State();
      if ok {
        left := ProcessAndCollect(nmc, node, f);
      }
      PhasesMakePass(old(State()), node, f, left, s1, ok);
    }
  }

  ghost predicate PodBefore(list: seq<WorkerPod>, i: nat, k: Key) {
    exists j :: 0 <= j < i && j < |list| && PodKey(list[j]) == k
  }

  /** How far the collection of worker pods has come. */
  ghost predicate CollectedSoFar(pods: map<Key, WorkerPod>, before: map<Key, WorkerPod>, list: seq<WorkerPod>, i: nat,
                                 names: set<string>, refused: set<Key>) {
    forall k :: Lookup(pods, k) ==
      if PodBefore(list, i, k) && k.name !in names && k !in refused then None else Lookup(before, k)
  }

  lemma CollectStep(pods: map<Key, WorkerPod>, before: map<Key, WorkerPod>, list: seq<WorkerPod>, i: nat, names: set<string>, refused: set<Key>)
    requires i < |list| && CollectedSoFar(pods, before, list, i, names, refused)
    ensures var k := PodKey(list[i]);
            CollectedSoFar(if k.name !in names && k !in refused then pods - {k} else pods, before, list, i + 1, names, refused)
  {
    forall k
      ensures PodBefore(list, i + 1, k) <==> PodBefore(list, i, k) || PodKey(list[i]) == k
    {
      assert PodKey(list[i]) == k ==> PodBefore(list, i + 1, k);
    }
  }

  lemma AllCollected(pods: map<Key, WorkerPod>, before: map<Key, WorkerPod>, list: seq<WorkerPod>, names: set<string>, refused: set<Key>)
    requires Lists(list, before) && CollectedSoFar(pods, before, list, |list|, names, refused)
    ensures pods == map k | k in before && (k.name in names || k in refused) :: before[k]
  {
    var kept := map k | k in before && (k.name in names || k in refused) :: before[k];
    ListedPods(list, before);
    forall k
      ensures Lookup(pods, k) == Lookup(kept, k)
    {
      assert k in before ==> PodBefore(list, |list|, k);
    }
    MapsEqualByLookup(pods, kept);
  }

  /** The pass after its sync phase. */
  function AfterSync(s: NodeState, node: Node, f: Faults): NodeState {
    var s2 := ProcessPhase(s, node, f);
    if HeldBack(s, node) then s2 else CollectPhase(s2, LocalStatus(s, node), node, f)
  }

  lemma PhasesMakePass(s: NodeState, node: Node, f: Faults, left: set<Key>, s1: NodeState, ok: bool)
    requires Keyed(s) && (s1, ok) == SyncPhase(s, node, f)
    ensures var f' := f.(orphanPatch := left);
            var s3 := NmcPass.Reconcile(s, node, f');
            s3 == (if ok then AfterSync(s1, node, f') else s1) && Keyed(s3)
  {
    ReconcileKeepsKeyed(s, node, f.(orphanPatch := left));
  }

  ghost predicate KeyBefore(spec: seq<ModuleSpec>, i: nat, k: Key) {
    exists j :: 0 <= j < i && j < |spec| && SpecKey(spec[j]) == k
  }

  ghost predicate BlockedBefore(s: NodeState, spec: seq<ModuleSpec>, i: nat, node: Node) {
    exists k :: k in s.spec && KeyBefore(spec, i, k) && !IsNodeSchedulable(node, s.spec[k].item.tolerations)
  }

  /** How far the loop over the spec entries has come. */
  ghost predicate SpecsDone(s: NodeState, spec: seq<ModuleSpec>, i: nat, node: Node, f: Faults,
                            orphans: map<Key, ModuleStatus>, heldBack: bool, pods: map<Key, WorkerPod>)
  {
    && (forall k :: Lookup(orphans, k) == if KeyBefore(spec, i, k) then None else Lookup(s.status, k))
    && heldBack == BlockedBefore(s, spec, i, node)
    && (forall k :: Lookup(pods, k) == if KeyBefore(spec, i, k) then ProcessedPod(s, node, f, k) else Lookup(s.pods, k))
  }

  lemma BlockedStep(s: NodeState, spec: seq<ModuleSpec>, i: nat, node: Node)
    requires i < |spec| && DistinctKeys(spec, SpecKey) && s.spec == FirstByKey(spec, SpecKey)
    ensures Lookup(s.spec, SpecKey(spec[i])) == Some(spec[i])
    ensures !KeyBefore(spec, i, SpecKey(spec[i]))
    ensures forall k :: KeyBefore(spec, i + 1, k) <==> KeyBefore(spec, i, k) || k == SpecKey(spec[i])
    ensures BlockedBefore(s, spec, i + 1, node) <==>
            BlockedBefore(s, spec, i, node) || !IsNodeSchedulable(node, spec[i].item.tolerations)
  {
    FirstByKeyLookup(spec, SpecKey, SpecKey(spec[i]), i);
  }

  lemma SpecStep(s: NodeState, spec: seq<ModuleSpec>, i: nat, node: Node, f: Faults,
                 orphans: map<Key, ModuleStatus>, heldBack: bool, pods: map<Key, WorkerPod>)
    requires i < |spec| && DistinctKeys(spec, SpecKey) && s.spec == FirstByKey(spec, SpecKey)
    requires SpecsDone(s, spec, i, node, f, orphans, heldBack, pods)
    ensures var k := SpecKey(spec[i]);
            if IsNodeSchedulable(node, spec[i].item.tolerations) then
              var pods' := if k in f.worker then pods else Put(pods, k, ProcessSpec(spec[i], Lookup(orphans, k), Lookup(pods, k), node));
              SpecsDone(s, spec, i + 1, node, f, orphans - {k}, heldBack, pods')
            else
              SpecsDone(s, spec, i + 1, node, f, orphans - {k}, true, pods)
  {
    BlockedStep(s, spec, i, node);
    var k := SpecKey(spec[i]);
    forall j ensures Lookup(orphans - {k}, j) == if j == k then None else Lookup(orphans, j) {}
  }

  lemma SpecsAllDone(s: NodeState, spec: seq<ModuleSpec>, node: Node, f: Faults,
                     orphans: map<Key, ModuleStatus>, heldBack: bool, pods: map<Key, WorkerPod>)
    requires s.spec == FirstByKey(spec, SpecKey)
    requires SpecsDone(s, spec, |spec|, node, f, orphans, heldBack, pods)
    ensures orphans == s.status - s.spec.Keys
    ensures heldBack == HeldBack(s, node)
    ensures forall k :: Lookup(pods, k) == if k in s.spec then ProcessedPod(s, node, f, k) else Lookup(s.pods, k)
  {
    FirstByKeyOwnKeys(spec, SpecKey);
    assert forall k :: KeyBefore(spec, |spec|, k) <==> k in s.spec;
    MapsEqualByLookup(orphans, s.status - s.spec.Keys);
  }

  /** How far the loop over the orphans has come: `rest` is still to do. */
  ghost predicate OrphansDone(s: NodeState, node: Node, f: Faults, rest: set<Key>, left: set<Key>,
                              local: map<Key, ModuleStatus>, stored: map<Key, ModuleStatus>, pods: map<Key, WorkerPod>)
  {
    && (forall k :: Lookup(local, k) == if k !in rest && DropsOrphan(s, node, k) then None else Lookup(s.status, k))
    && (forall k :: Lookup(stored, k) == if k !in rest && k !in left && DropsOrphan(s, node, k) then None else Lookup(s.status, k))
    && (forall k :: Lookup(pods, k) == if k in rest then Lookup(s.pods, k) else ProcessedPod(s, node, f, k))
  }

  lemma DroppedStep(s: NodeState, node: Node, f: Faults, rest: set<Key>, left: set<Key>,
                    local: map<Key, ModuleStatus>, stored: map<Key, ModuleStatus>, pods: map<Key, WorkerPod>, k: Key)
    requires OrphansDone(s, node, f, rest, left, local, stored, pods)
    requires k in rest && DropsOrphan(s, node, k)
    ensures OrphansDone(s, node, f, rest - {k}, left + {k}, local - {k}, stored, pods)
    ensures OrphansDone(s, node, f, rest - {k}, {}, local - {k}, local - {k}, pods)
  {
    forall j ensures Lookup(local - {k}, j) == if j == k then None else Lookup(local, j) {}
  }

  lemma OrphanStep(s: NodeState, node: Node, f: Faults, rest: set<Key>, left: set<Key>,
                   local: map<Key, ModuleStatus>, stored: map<Key, ModuleStatus>,
                   pods: map<Key, WorkerPod>, pods': map<Key, WorkerPod>, k: Key)
    requires OrphansDone(s, node, f, rest, left, local, stored, pods)
    requires k in rest && k !in s.spec && k in s.status && !DropsOrphan(s, node, k)
    requires pods' == if k in f.worker then pods else Put(pods, k, ProcessOrphan(s.status[k], Lookup(pods, k)))
    ensures OrphansDone(s, node, f, rest - {k}, left, local, stored, pods')
  {
    forall j ensures Lookup(pods', j) == if j in rest - {k} then Lookup(s.pods, j) else ProcessedPod(s, node, f, j) {
      assert Lookup(pods, j) == if j in rest then Lookup(s.pods, j) else ProcessedPod(s, node, f, j);
    }
  }

  lemma OrphansAllDone(s: NodeState, node: Node, f: Faults, left: set<Key>,
                       local: map<Key, ModuleStatus>, stored: map<Key, ModuleStatus>, pods: map<Key, WorkerPod>)
    requires OrphansDone(s, node, f, {}, left, local, stored, pods)
    ensures local == LocalStatus(s, node)
    ensures s.(status := stored, pods := pods) == ProcessPhase(s, node, f.(orphanPatch := left))
  {
    MapsEqualByLookup(local, LocalStatus(s, node));
    MapsEqualByLookup(stored, StoredStatus(s, node, f.(orphanPatch := left)));
    MapsEqualByLookup(pods, ProcessedPods(s, node, f.(orphanPatch := left)));
  }

  function RetiredIn(s: NodeState, list: seq<WorkerPod>): set<Key> {
    if list == [] then {}
    else
      var p := list[|list| - 1];
      RetiredIn(s, list[..|list| - 1])
      + if Retires(p, PodKey(p) in s.spec, Lookup(s.status, PodKey(p))) then {PodKey(p)} else {}
  }

  predicate AnyUndecodable(list: seq<WorkerPod>) {
    exists p :: p in list && Undecodable(p)
  }

  /** How far the loop over the pods has come. */
  ghost predicate SyncedSoFar(s: NodeState, list: seq<WorkerPod>, i: nat, bootId: string,
                              view: map<Key, ModuleStatus>, doomed: set<Key>, failed: bool) {
    && i <= |list|
    && view == SyncList(s.status, list[..i], bootId)
    && doomed == RetiredIn(s, list[..i])
    && (failed <==> AnyUndecodable(list[..i]))
  }

  /** What the next pod of the list adds. */
  lemma SyncPrefixStep(s: NodeState, list: seq<WorkerPod>, i: nat, bootId: string, view: map<Key, ModuleStatus>, doomed: set<Key>, failed: bool)
    requires i < |list| && Lists(list, s.pods) && SyncedSoFar(s, list, i, bootId, view, doomed, failed)
    ensures var p := list[i];
            SyncedSoFar(s, list, i + 1, bootId, SyncStep(view, p, bootId),
                        if Retires(p, PodKey(p) in s.spec, Lookup(view, PodKey(p))) then doomed + {PodKey(p)} else doomed,
                        failed || Undecodable(p))
  {
    PrefixStep(list, i);
    var front, k := list[..i], PodKey(list[i]);
    assert forall j :: 0 <= j < i ==> front[j] == list[j];
    SyncListLookup(s.status, front, bootId, k);
    FirstByKeyLookup(front, PodKey, k, i);
    assert Lookup(view, k) == Lookup(s.status, k);
  }

  lemma {:induction false} RetiredInMembers(s: NodeState, list: seq<WorkerPod>, k: Key)
    ensures k in RetiredIn(s, list) <==> exists p :: p in list && PodKey(p) == k && Retires(p, k in s.spec, Lookup(s.status, k))
  {
    if list != [] {
      var front, last := list[..|list| - 1], list[|list| - 1];
      assert list == front + [last];
      RetiredInMembers(s, front, k);
    }
  }

  lemma RetiredInList(s: NodeState, list: seq<WorkerPod>)
    requires Lists(list, s.pods)
    ensures RetiredIn(s, list) == RetiredPods(s)
    ensures SyncFails(s) <==> AnyUndecodable(list)
  {
    ListedPods(list, s.pods);
    forall k ensures k in RetiredIn(s, list) <==> k in RetiredPods(s) {
      RetiredInMembers(s, list, k);
    }
  }

  lemma ListedPods(list: seq<WorkerPod>, pods: map<Key, WorkerPod>)
    requires Lists(list, pods)
    ensures forall k :: k in pods ==> exists i :: 0 <= i < |list| && PodKey(list[i]) == k && list[i] == pods[k]
    ensures forall i :: 0 <= i < |list| ==> PodKey(list[i]) in pods && pods[PodKey(list[i])] == list[i]
    ensures |list| == 0 <==> pods == map[]
  {
    FirstByKeyOwnKeys(list, PodKey);
    forall i | 0 <= i < |list| ensures PodKey(list[i]) in pods && pods[PodKey(list[i])] == list[i] {
      FirstByKeyLookup(list, PodKey, PodKey(list[i]), i);
    }
    if |list| > 0 {
      assert PodKey(list[0]) in pods;
    }
  }

  lemma SyncedByList(s: NodeState, list: seq<WorkerPod>, bootId: string, view: map<Key, ModuleStatus>, doomed: set<Key>, failed: bool)
    requires Lists(list, s.pods) && SyncedSoFar(s, list, |list|, bootId, view, doomed, failed)
    ensures view == SyncAll(s.status, s.pods, bootId) && doomed == RetiredPods(s) && failed == SyncFails(s)
  {
    assert list[..|list|] == list;
    RetiredInList(s, list);
    forall k ensures Lookup(SyncList(s.status, list, bootId), k) == Lookup(SyncAll(s.status, s.pods, bootId), k) {
      SyncListLookup(s.status, list, bootId, k);
    }
    MapsEqualByLookup(SyncList(s.status, list, bootId), SyncAll(s.status, s.pods, bootId));
  }
}
