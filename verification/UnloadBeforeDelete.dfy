/**
 The module-in-use labels hold a Module back until no node has it configured, loaded or being
 worked on (internal/controllers/module_reconciler.go:246-291, 392-468;
 internal/controllers/nmc_reconciler.go:240-323).
 */
module UnloadBeforeDelete {
  import opened Basics
  import opened NodeModules
  import opened NmcPass
  import NmcReconciler

  function Present(s: NodeState): set<Key> {
    s.spec.Keys + s.status.Keys + s.pods.Keys
  }

  /** Every module the node knows in any way has its in-use label. */
  ghost predicate Labelled(s: NodeState) {
    Present(s) <= s.inUse
  }

  lemma SyncAddsNoModule(s: NodeState, node: Node, f: Faults)
    ensures Present(SyncPhase(s, node, f).0) <= Present(s)
    ensures SyncPhase(s, node, f).0.inUse == s.inUse
  {
    var s1 := SyncPhase(s, node, f).0;
    forall k | k in s1.status ensures k in Present(s) {
      assert s1.status != s.status ==> Lookup(s1.status, k) == SyncedEntry(s.status, s.pods, node.bootId, k);
    }
  }

  lemma ProcessAddsNoModule(s: NodeState, node: Node, f: Faults)
    ensures Present(ProcessPhase(s, node, f)) <= Present(s)
  {
  }

  /** The module names the pod collection goes by. */
  function NamesAtCollection(s: NodeState, node: Node, f: Faults): set<string> {
    NamesInNmc(s, KnownStatus(ProcessPhase(s, node, f), LocalStatus(s, node), node, f))
  }

  /**
   After a sync, `k` loses its label although something of it stays: an orphaned entry of a rebooted
   node whose removal did not reach the server, or a pod with neither spec nor status that outlives
   the collection because its deletion fails or another namespace's module has its name.
   */
  ghost predicate Stranded(s: NodeState, node: Node, f: Faults, k: Key) {
    && k !in s.spec && k !in LocalStatus(s, node)
    && k !in PodLabelKeys(ProcessPhase(s, node, f).pods, node.name)
    && (|| (k in s.status && k in f.orphanPatch)
        || (k in s.pods && (k.name in NamesAtCollection(s, node, f) || k in f.gcDelete)))
  }

  lemma CollectKeepsLabelledIff(s: NodeState, node: Node, f: Faults)
    requires Labelled(s) && !f.labelPatch
    ensures Labelled(CollectPhase(ProcessPhase(s, node, f), LocalStatus(s, node), node, f))
       <==> forall k :: !Stranded(s, node, f, k)
  {
    ProcessAddsNoModule(s, node, f);
    var s2, local := ProcessPhase(s, node, f), LocalStatus(s, node);
    var s3 := CollectPhase(s2, local, node, f);
    forall k ensures k in Present(s3) && k !in s3.inUse <==> Stranded(s, node, f, k) {
      assert Lookup(s2.pods, k) == ProcessedPod(s, node, f, k);
    }
  }

  /** The pass does not reach its label collection, or strands nothing there. */
  ghost predicate StrandsNothing(s: NodeState, node: Node, f: Faults) {
    var (s1, ok) := SyncPhase(s, node, f);
    ok && !HeldBack(s1, node) && !f.labelPatch ==> forall k :: !Stranded(s1, node, f, k)
  }

  /** A pass keeps every label that is still needed exactly when it strands nothing. */
  lemma PassKeepsLabelledIff(s: NodeState, node: Node, f: Faults)
    requires Labelled(s)
    ensures Labelled(Reconcile(s, node, f)) <==> StrandsNothing(s, node, f)
  {
    SyncAddsNoModule(s, node, f);
    var (s1, ok) := SyncPhase(s, node, f);
    if ok {
      ProcessAddsNoModule(s1, node, f);
      if !f.labelPatch {
        CollectKeepsLabelledIff(s1, node, f);
      }
    }
  }

  /** No two modules of the node share a name across namespaces. */
  ghost predicate NamesDistinct(s: NodeState) {
    forall j, k :: j in Present(s) && k in Present(s) && j.name == k.name ==> j == k
  }

  /** With distinct names and no lost deletion or removal, a pass strands nothing. */
  lemma DistinctNamesStrandNothing(s: NodeState, node: Node, f: Faults)
    requires NamesDistinct(s) && f.orphanPatch == {} && f.gcDelete == {}
    ensures StrandsNothing(s, node, f)
  {
    SyncAddsNoModule(s, node, f);
    var s1 := SyncPhase(s, node, f).0;
    forall k ensures !Stranded(s1, node, f, k) {
      if k in s1.pods && k.name in NamesAtCollection(s1, node, f) {
        var known := KnownStatus(ProcessPhase(s1, node, f), LocalStatus(s1, node), node, f);
        var j :| j in s1.spec.Keys + known.Keys && j.name == k.name;
        assert j in Present(s1) && k in Present(s1);
      }
    }
  }

  const RED := Key("red", "kmod")
  const BLUE := Key("blue", "kmod")
  const ANY_NODE := Node("worker", "boot", true, {[]})

  /** blue/kmod is loaded; red/kmod was taken out of the spec while its loader pod was pending. */
  function TwoNamespaces(config: Config): NodeState {
    NodeState(map[BLUE := ModuleSpec(Item(BLUE, None, "default", [], ""), config)],
              map[BLUE := ModuleStatus(Item(BLUE, None, "default", [], ""), config, "boot")],
              map[RED := NewPod(Template(Load, Item(RED, None, "default", [], ""), config))],
              {RED, BLUE})
  }

  lemma TwoNamespacesSynced(config: Config)
    ensures SyncPhase(TwoNamespaces(config), ANY_NODE, NO_FAULTS) == (TwoNamespaces(config), true)
  {
    var s := TwoNamespaces(config);
    assert RED in s.pods;
    assert forall k :: k in s.pods ==> k == RED && s.pods[k].phase == Pending;
    assert !SyncFails(s) && RetiredPods(s) == {};
    var status := SyncAll(s.status, s.pods, ANY_NODE.bootId);
    forall k ensures Lookup(status, k) == Lookup(s.status, k) {
      assert Lookup(status, k) == SyncedEntry(s.status, s.pods, ANY_NODE.bootId, k);
    }
    MapsEqualByLookup(status, s.status);
    assert s.pods - (RetiredPods(s) - NO_FAULTS.syncDelete) == s.pods;
  }

  /** The hypothesis on names is needed: a pending pod survives under the name of another namespace's module and loses its label. */
  lemma SharedNameLosesLabel(config: Config)
    ensures Labelled(TwoNamespaces(config))
    ensures !Labelled(Reconcile(TwoNamespaces(config), ANY_NODE, NO_FAULTS))
  {
    var s, node := TwoNamespaces(config), ANY_NODE;
    TwoNamespacesSynced(config);
    PassKeepsLabelledIff(s, node, NO_FAULTS);
    assert BLUE in s.spec.Keys + LocalStatus(s, node).Keys;
    assert RED.name in NamesAtCollection(s, node, NO_FAULTS);
    assert forall j :: PodLabelKey(node.name, j).namespace[0] == 'k';
    assert RED.namespace[0] == 'r';
    assert Stranded(s, node, NO_FAULTS, RED);
  }

  /** A deletion refused to the collection does the same to a pod that nothing else speaks for. */
  lemma RefusedDeletionLosesLabel(config: Config)
    ensures var s := NodeState(map[], map[], map[RED := NewPod(Template(Load, Item(RED, None, "default", [], ""), config))], {RED});
            Labelled(s) && NamesDistinct(s) && !Labelled(Reconcile(s, ANY_NODE, NO_FAULTS.(gcDelete := {RED})))
  {
    var pods := map[RED := NewPod(Template(Load, Item(RED, None, "default", [], ""), config))];
    var s, node, f := NodeState(map[], map[], pods, {RED}), ANY_NODE, NO_FAULTS.(gcDelete := {RED});
    PendingPodSynced(s, node, f, RED);
    PassKeepsLabelledIff(s, node, f);
    assert forall j :: PodLabelKey(node.name, j).namespace[0] == 'k';
    assert RED.namespace[0] == 'r';
    assert Lookup(ProcessPhase(s, node, f).pods, RED) == ProcessedPod(s, node, f, RED);
    assert Stranded(s, node, f, RED);
  }

  /** A single pending pod of a module without an entry leaves the sync phase as it came. */
  lemma PendingPodSynced(s: NodeState, node: Node, f: Faults, k: Key)
    requires s.pods.Keys == {k} && s.pods[k].phase == Pending && !f.statusPatch
    ensures SyncPhase(s, node, f) == (s, true)
  {
    assert k in s.pods;
    assert !SyncFails(s) && RetiredPods(s) == {};
    var status := SyncAll(s.status, s.pods, node.bootId);
    forall j ensures Lookup(status, j) == Lookup(s.status, j) {
      assert Lookup(status, j) == SyncedEntry(s.status, s.pods, node.bootId, j);
    }
    MapsEqualByLookup(status, s.status);
    assert s.pods - (RetiredPods(s) - f.syncDelete) == s.pods;
  }

  /** A status patch refused while an orphaned entry of an earlier boot is dropped takes the label of the entry that stays. */
  lemma RefusedRemovalLosesLabel(config: Config)
    ensures var s := NodeState(map[], map[BLUE := ModuleStatus(Item(BLUE, None, "default", [], ""), config, "earlier")], map[], {BLUE});
            Labelled(s) && NamesDistinct(s) && !Labelled(Reconcile(s, ANY_NODE, NO_FAULTS.(orphanPatch := {BLUE})))
  {
    var status := map[BLUE := ModuleStatus(Item(BLUE, None, "default", [], ""), config, "earlier")];
    var s, node, f := NodeState(map[], status, map[], {BLUE}), ANY_NODE, NO_FAULTS.(orphanPatch := {BLUE});
    assert SyncPhase(s, node, f) == (s, true);
    PassKeepsLabelledIff(s, node, f);
    assert |"earlier"| != |"boot"|;
    assert DropsOrphan(s, node, BLUE);
    assert ProcessPhase(s, node, f).pods == map[] by {
      forall k ensures k !in ProcessPhase(s, node, f).pods {
        assert Lookup(ProcessPhase(s, node, f).pods, k) == ProcessedPod(s, node, f, k);
      }
    }
    assert Stranded(s, node, f, BLUE);
  }

  // ----- The cluster -----

  datatype Nmc = Nmc(state: NodeState, configured: set<Key>)

  const EMPTY_NMC := Nmc(NodeState(map[], map[], map[], {}), {})

  /** CreateOrPatch starts from the stored object, or from an empty one. */
  function NmcOf(nmcs: map<string, Nmc>, node: string): Nmc {
    if node in nmcs then nmcs[node] else EMPTY_NMC
  }

  function WithModule(nmc: Nmc, spec: ModuleSpec): Nmc {
    var k := SpecKey(spec);
    nmc.(state := nmc.state.(spec := nmc.state.spec[k := spec], inUse := nmc.state.inUse + {k}),
         configured := nmc.configured + {k})
  }

  function WithoutModule(nmc: Nmc, k: Key): Nmc {
    nmc.(state := nmc.state.(spec := nmc.state.spec - {k}), configured := nmc.configured - {k})
  }

  datatype Step =
    | Enable(name: string, spec: ModuleSpec)
    | Disable(name: string, key: Key)
    | NmcReconciled(node: Node, faults: Faults)
    | PodMoves(name: string, key: Key, pod: WorkerPod)
    | Finalized(key: Key, refused: set<string>)

  /** The objects the step is about exist. */
  predicate IsPossible(nmcs: map<string, Nmc>, step: Step) {
    match step
    case NmcReconciled(node, _) => node.name in nmcs
    case PodMoves(node, k, pod) => node in nmcs && k in nmcs[node].state.pods && PodKey(pod) == k
    case _ => true
  }

  ghost predicate Enabled(nmcs: map<string, Nmc>, step: Step) {
    IsPossible(nmcs, step) && (step.NmcReconciled? ==> StrandsNothing(nmcs[step.node.name].state, step.node, step.faults))
  }

  /** The NMCs after finalizeModule has taken the module out of every NMC that lists it as configured. */
  function Unconfigured(nmcs: map<string, Nmc>, k: Key, refused: set<string>): map<string, Nmc> {
    map n | n in nmcs :: if k in nmcs[n].configured && n !in refused then WithoutModule(nmcs[n], k) else nmcs[n]
  }

  ghost function Next(nmcs: map<string, Nmc>, step: Step): map<string, Nmc>
    requires IsPossible(nmcs, step)
  {
    match step
    case Enable(n, spec) => nmcs[n := WithModule(NmcOf(nmcs, n), spec)]
    case Disable(n, k) => nmcs[n := WithoutModule(NmcOf(nmcs, n), k)]
    case NmcReconciled(node, f) =>
      nmcs[node.name := nmcs[node.name].(state := Reconcile(nmcs[node.name].state, node, f))]
    case PodMoves(n, k, pod) =>
      nmcs[n := nmcs[n].(state := nmcs[n].state.(pods := nmcs[n].state.pods[k := pod]))]
    case Finalized(k, refused) => Unconfigured(nmcs, k, refused)
  }

  ghost predicate AllLabelled(nmcs: map<string, Nmc>) {
    forall n :: n in nmcs ==> Labelled(nmcs[n].state)
  }

  lemma StepKeepsLabelled(nmcs: map<string, Nmc>, step: Step)
    requires AllLabelled(nmcs) && Enabled(nmcs, step)
    ensures AllLabelled(Next(nmcs, step))
  {
    match step
    case NmcReconciled(node, f) =>
      PassKeepsLabelledIff(nmcs[node.name].state, node, f);
    case _ =>
  }

  ghost predicate IsRun(nmcs: map<string, Nmc>, steps: seq<Step>)
    decreases |steps|
  {
    steps == [] || (Enabled(nmcs, steps[0]) && IsRun(Next(nmcs, steps[0]), steps[1..]))
  }

  ghost function After(nmcs: map<string, Nmc>, steps: seq<Step>): map<string, Nmc>
    requires IsRun(nmcs, steps)
    decreases |steps|
  {
    if steps == [] then nmcs else After(Next(nmcs, steps[0]), steps[1..])
  }

  lemma {:induction false} RunKeepsLabelled(nmcs: map<string, Nmc>, steps: seq<Step>)
    requires AllLabelled(nmcs) && IsRun(nmcs, steps)
    ensures AllLabelled(After(nmcs, steps))
    decreases |steps|
  {
    if steps != [] {
      StepKeepsLabelled(nmcs, steps[0]);
      RunKeepsLabelled(Next(nmcs, steps[0]), steps[1..]);
    }
  }

  /** finalizeModule releases the Module: every removal went through and no NMC lists it as in use. */
  predicate Releases(nmcs: map<string, Nmc>, k: Key, refused: set<string>) {
    && (forall n :: n in nmcs && k in nmcs[n].configured ==> n !in refused)
    && (forall n :: n in nmcs ==> k !in nmcs[n].state.inUse)
  }

  /** Unload before delete: in every run whose NMC passes strand nothing, when the finalizer is released no node has the module in its spec, its status or a worker pod. */
  lemma ReleasedOnlyWhenUnloaded(steps: seq<Step>, k: Key, refused: set<string>)
    requires IsRun(map[], steps)
    requires Releases(After(map[], steps), k, refused)
    ensures var nmcs := After(map[], steps);
            forall n :: n in nmcs ==> k !in Present(nmcs[n].state)
  {
    RunKeepsLabelled(map[], steps);
  }

  // ----- Runs that are careful from the start -----

  /** Which modules may ever be enabled on which nodes. */
  type Plan = set<(string, Key)>

  /** No two modules planned for one node share a name. */
  ghost predicate PlansDistinctNames(plan: Plan) {
    forall n, j, k :: (n, j) in plan && (n, k) in plan && j.name == k.name ==> j == k
  }

  /** Known before the run: only planned modules are enabled, and no removal of an orphaned entry and no collected deletion is lost. */
  ghost predicate IsCareful(step: Step, plan: Plan) {
    match step
    case Enable(n, spec) => (n, SpecKey(spec)) in plan
    case NmcReconciled(_, f) => f.orphanPatch == {} && f.gcDelete == {}
    case _ => true
  }

  ghost predicate IsCarefulRun(nmcs: map<string, Nmc>, steps: seq<Step>, plan: Plan)
    decreases |steps|
  {
    steps == [] || (IsPossible(nmcs, steps[0]) && IsCareful(steps[0], plan) && IsCarefulRun(Next(nmcs, steps[0]), steps[1..], plan))
  }

  /** Nothing is on a node that was not planned for it. */
  ghost predicate Follows(nmcs: map<string, Nmc>, plan: Plan) {
    forall n, k :: n in nmcs && k in Present(nmcs[n].state) ==> (n, k) in plan
  }

  lemma ReconcileAddsNoModule(s: NodeState, node: Node, f: Faults)
    ensures Present(Reconcile(s, node, f)) <= Present(s)
  {
    SyncAddsNoModule(s, node, f);
    var (s1, ok) := SyncPhase(s, node, f);
    ProcessAddsNoModule(s1, node, f);
    var s2 := ProcessPhase(s1, node, f);
    assert Present(CollectPhase(s2, LocalStatus(s1, node), node, f)) <= Present(s2);
  }

  lemma StepFollowsPlan(nmcs: map<string, Nmc>, step: Step, plan: Plan)
    requires Follows(nmcs, plan) && IsPossible(nmcs, step) && IsCareful(step, plan)
    ensures Follows(Next(nmcs, step), plan)
  {
    if step.NmcReconciled? {
      ReconcileAddsNoModule(nmcs[step.node.name].state, step.node, step.faults);
    }
  }

  lemma CarefulStepIsEnabled(nmcs: map<string, Nmc>, step: Step, plan: Plan)
    requires PlansDistinctNames(plan) && Follows(nmcs, plan) && IsPossible(nmcs, step) && IsCareful(step, plan)
    ensures Enabled(nmcs, step)
  {
    if step.NmcReconciled? {
      var s := nmcs[step.node.name].state;
      assert NamesDistinct(s) by {
        forall j, k | j in Present(s) && k in Present(s) && j.name == k.name ensures j == k {
          assert (step.node.name, j) in plan && (step.node.name, k) in plan;
        }
      }
      DistinctNamesStrandNothing(s, step.node, step.faults);
    }
  }

  /** Names stay distinct along a careful run, so it strands nothing anywhere. */
  lemma {:induction false} CarefulRunIsRun(nmcs: map<string, Nmc>, steps: seq<Step>, plan: Plan)
    requires PlansDistinctNames(plan) && Follows(nmcs, plan) && IsCarefulRun(nmcs, steps, plan)
    ensures IsRun(nmcs, steps) && Follows(After(nmcs, steps), plan)
    decreases |steps|
  {
    if steps != [] {
      CarefulStepIsEnabled(nmcs, steps[0], plan);
      StepFollowsPlan(nmcs, steps[0], plan);
      CarefulRunIsRun(Next(nmcs, steps[0]), steps[1..], plan);
    }
  }

  /**
   Unload before delete for conditions known up front: distinct names among the modules ever enabled
   on a node, and no lost removal or collected deletion. The labels then cover everything throughout,
   and the finalizer is released only when no node has the module in any way.
   */
  lemma CarefulRunUnloadsFirst(steps: seq<Step>, plan: Plan, k: Key, refused: set<string>)
    requires PlansDistinctNames(plan) && IsCarefulRun(map[], steps, plan)
    ensures IsRun(map[], steps) && AllLabelled(After(map[], steps))
    ensures Releases(After(map[], steps), k, refused) ==> forall n :: n in After(map[], steps) ==> k !in Present(After(map[], steps)[n].state)
  {
    CarefulRunIsRun(map[], steps, plan);
    RunKeepsLabelled(map[], steps);
  }

  // ----- The Module reconciler -----

  /** An NMC as the API holds it: the spec is a list. */
  datatype NmcObject = NmcObject(spec: seq<ModuleSpec>, status: map<Key, ModuleStatus>, pods: map<Key, WorkerPod>, inUse: set<Key>, configured: set<Key>)

  function ObjectView(o: NmcObject): Nmc {
    Nmc(NodeState(FirstByKey(o.spec, SpecKey), o.status, o.pods, o.inUse), o.configured)
  }

  function ObjectsView(objects: map<string, NmcObject>): map<string, Nmc> {
    map n | n in objects :: ObjectView(objects[n])
  }

  lemma ViewOfUpdate(objects: map<string, NmcObject>, n: string, o: NmcObject)
    ensures ObjectsView(objects[n := o]) == ObjectsView(objects)[n := ObjectView(o)]
  {
  }

  /** A module taken out of the spec stays present only by its status or a worker pod. */
  lemma PresentAfterRemoval(nmc: Nmc, k: Key)
    ensures k in Present(WithoutModule(nmc, k).state) <==> k in nmc.state.status || k in nmc.state.pods
  {
  }

  /** Removing the module from specs leaves the in-use labels of every NMC. */
  lemma InUseAfterRemoval(objects: map<string, NmcObject>, before: map<string, Nmc>, k: Key, refused: set<string>)
    requires ObjectsView(objects) == Unconfigured(before, k, refused)
    ensures (exists n :: n in objects && k in objects[n].inUse) <==> exists n :: n in before && k in before[n].state.inUse
  {
    forall n
      ensures n in objects <==> n in before
      ensures n in objects ==> objects[n].inUse == before[n].state.inUse
    {
      assert n in objects <==> n in ObjectsView(objects);
      assert n in before <==> n in Unconfigured(before, k, refused);
      assert n in objects ==> ObjectsView(objects)[n].state.inUse == objects[n].inUse;
    }
  }

  /** How far the removal has come: `rest` is still to do. */
  ghost predicate RemovedSoFar(now: map<string, Nmc>, before: map<string, Nmc>, k: Key, refused: set<string>, rest: set<string>, failed: bool) {
    && now.Keys == before.Keys
    && (forall n :: n in rest ==> n in before && k in before[n].configured)
    && (forall n :: n in before ==> now[n] == if n in rest then before[n] else Unconfigured(before, k, refused)[n])
    && (failed <==> exists n :: n in before && k in before[n].configured && n !in rest && n in refused)
  }

  lemma RemovalStep(now: map<string, Nmc>, before: map<string, Nmc>, k: Key, refused: set<string>, rest: set<string>, failed: bool, n: string)
    requires RemovedSoFar(now, before, k, refused, rest, failed) && n in rest
    ensures RemovedSoFar(if n in refused then now else now[n := WithoutModule(NmcOf(now, n), k)], before, k, refused, rest - {n}, failed || n in refused)
  {
  }

  lemma AllRemoved(now: map<string, Nmc>, before: map<string, Nmc>, k: Key, refused: set<string>, failed: bool)
    requires RemovedSoFar(now, before, k, refused, {}, failed)
    ensures now == Unconfigured(before, k, refused)
    ensures failed <==> exists n :: n in before && k in before[n].configured && n in refused
  {
    assert now.Keys == Unconfigured(before, k, refused).Keys;
  }

  /** It edits the spec lists and labels of NMCs in place and releases the Module. */
  class ModuleReconciler {
    var objects: map<string, NmcObject>
    var released: bool

    ghost function Nmcs(): map<string, Nmc>
      reads this
    {
      ObjectsView(objects)
    }

    ghost predicate Valid()
      reads this
    {
      forall n :: n in objects ==> DistinctKeys(objects[n].spec, SpecKey)
    }

    /** The list edit adds exactly the module with both labels to one NMC, and every module present stays labelled. */
    method EnableModuleOnNode(node: string, mld: Item, config: Config, imageExists: bool)
      requires Valid()
      modifies this`objects
      ensures Valid()
      ensures Nmcs() == if imageExists then Next(old(Nmcs()), Enable(node, ModuleSpec(NmcReconciler.WithDefaultAccount(mld), config)))
                        else old(Nmcs())
      ensures old(AllLabelled(Nmcs())) ==> AllLabelled(Nmcs())
      ensures imageExists ==> node in Nmcs() && mld.key in Nmcs()[node].configured && mld.key in Nmcs()[node].state.inUse && mld.key in Nmcs()[node].state.spec
      ensures imageExists ==> Nmcs()[node].state.spec[mld.key] ==
                              ModuleSpec(if mld.serviceAccount == "" then mld.(serviceAccount := "default") else mld, config)
    {
      if !imageExists {
        return;
      }
      var o := if node in objects then objects[node] else NmcObject([], map[], map[], {}, {});
      var list := new NmcReconciler.SpecList(o.spec);
      list.SetModuleConfig(mld, config);
      o := o.(spec := list.modules);
      o := o.(configured := o.configured + {mld.key});
      o := o.(inUse := o.inUse + {mld.key});
      ghost var spec := ModuleSpec(NmcReconciler.WithDefaultAccount(mld), config);
      if old(AllLabelled(Nmcs())) {
        StepKeepsLabelled(Nmcs(), Enable(node, spec));
      }
      assert ObjectView(o) == WithModule(NmcOf(Nmcs(), node), spec);
      ViewOfUpdate(objects, node, o);
      objects := objects[node := o];
    }

    /** The list edit takes exactly the module out of one NMC's spec; its in-use label stays until the node has let go of it. */
    method RemoveModuleFromNmc(node: string, k: Key)
      requires Valid()
      modifies this`objects
      ensures Valid() && Nmcs() == Next(old(Nmcs()), Disable(node, k))
      ensures old(AllLabelled(Nmcs())) ==> AllLabelled(Nmcs())
      ensures node in Nmcs() && k !in Nmcs()[node].state.spec && k !in Nmcs()[node].configured
      ensures k in Present(Nmcs()[node].state) ==> k in Nmcs()[node].state.status || k in Nmcs()[node].state.pods
      ensures node in old(Nmcs()) ==> Nmcs()[node].state.inUse == old(Nmcs())[node].state.inUse
    {
      var o := if node in objects then objects[node] else NmcObject([], map[], map[], {}, {});
      var list := new NmcReconciler.SpecList(o.spec);
      list.RemoveModuleConfig(k);
      o := o.(spec := list.modules);
      o := o.(configured := o.configured - {k});
      if old(AllLabelled(Nmcs())) {
        StepKeepsLabelled(Nmcs(), Disable(node, k));
      }
      assert ObjectView(o) == WithoutModule(NmcOf(Nmcs(), node), k);
      PresentAfterRemoval(NmcOf(Nmcs(), node), k);
      ViewOfUpdate(objects, node, o);
      objects := objects[node := o];
    }

    /** Takes the module out of the NMCs that list it as configured, one by one; a refused patch does not stop the others. */
    method RemoveFromConfigured(k: Key, refused: set<string>) returns (failed: bool)
      requires Valid()
      modifies this`objects
      ensures Valid() && Nmcs() == Unconfigured(old(Nmcs()), k, refused)
      ensures failed <==> exists n :: n in old(Nmcs()) && k in old(Nmcs())[n].configured && n in refused
    {
      var rest := set n | n in objects && k in objects[n].configured;
      failed := false;
      ghost var before := Nmcs();
      while rest != {}
        invariant Valid() && RemovedSoFar(Nmcs(), before, k, refused, rest, failed)
        decreases rest
      {
        var n :| n in rest;
        RemovalStep(Nmcs(), before, k, refused, rest, failed, n);
        if n in refused {
          failed := true;
        } else {
          RemoveModuleFromNmc(n, k);
        }
        rest := rest - {n};
      }
      AllRemoved(Nmcs(), before, k, refused, failed);
    }

    /** finalizeModule. */
    method FinalizeModule(k: Key, refused: set<string>)
      requires Valid()
      modifies this
      ensures Valid() && Nmcs() == Unconfigured(old(Nmcs()), k, refused)
      ensures !old(released) ==>
                (released <==> forall n :: n in old(Nmcs()) ==> k !in old(Nmcs())[n].state.inUse && (k in old(Nmcs())[n].configured ==> n !in refused))
      ensures released == (old(released) || Releases(old(Nmcs()), k, refused))
      ensures forall n :: n in Nmcs() && n !in refused ==> k !in Nmcs()[n].configured
      ensures old(AllLabelled(Nmcs())) && !old(released) && released ==> forall n :: n in Nmcs() ==> k !in Present(Nmcs()[n].state)
    {
      ghost var before := Nmcs();
      if AllLabelled(before) {
        StepKeepsLabelled(before, Finalized(k, refused));
      }
      var failed := RemoveFromConfigured(k, refused);
      InUseAfterRemoval(objects, before, k, refused);
      if failed || exists n :: n in objects && k in objects[n].inUse {
        return;
      }
      released := true;
    }
  }
}
