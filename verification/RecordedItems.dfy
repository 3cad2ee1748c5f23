/**
 What a converged module has on record besides its configuration: the image secret, service account,
 tolerations and version its loader pod ran with (internal/controllers/nmc_reconciler.go:545-582).
 */
module RecordedItems {
  import opened Basics
  import opened NodeModules
  import opened NmcPass
  import opened NodeRuns

  /** The spec's item, except that an older image secret stays where the spec names none. */
  predicate ItemFits(item: Item, spec: ModuleSpec) {
    item == spec.item.(secret := if spec.item.secret.Some? then spec.item.secret else item.secret)
  }

  /** Once pods have been created: a pod is still at work, there is no entry, or the entry has the spec's item. */
  predicate Recorded(w: World, m: Key, spec: ModuleSpec) {
    m in w.state.pods || m !in w.state.status || ItemFits(w.state.status[m].item, spec)
  }

  lemma PassKeepsRecorded(w: World, f: Faults, m: Key, spec: ModuleSpec)
    requires Healthy(w, m, spec) && SpecKey(spec) == m
    ensures Recorded(w, m, spec) || Creates(w, Pass(f), m) ==> Recorded(Next(w, Pass(f)), m, spec)
  {
    SyncOnModule(w.state, w.node, f, m);
    PassOnModule(w, f, m, spec);
    if m in w.state.pods && w.state.pods[m].phase == Succeeded && w.state.pods[m].template.action == Load {
      LoaderRecordsItem(w.state.pods[m], spec, Lookup(w.state.status, m), w.node.bootId);
    }
  }

  /** From a state without an entry: only loaders of the spec are around, and an entry is exactly what was specified. */
  predicate AsSpecified(w: World, m: Key, spec: ModuleSpec) {
    && (m in w.state.pods ==> w.state.pods[m].template == LoaderTemplate(spec))
    && (m in w.state.status ==> w.state.status[m] == ModuleStatus(spec.item, spec.config, w.node.bootId))
  }

  lemma PassKeepsAsSpecified(w: World, f: Faults, m: Key, spec: ModuleSpec)
    requires Healthy(w, m, spec) && SpecKey(spec) == m && AsSpecified(w, m, spec)
    ensures AsSpecified(Next(w, Pass(f)), m, spec)
  {
    SyncOnModule(w.state, w.node, f, m);
    PassOnModule(w, f, m, spec);
    if m in w.state.pods && w.state.pods[m].phase == Succeeded {
      LoaderRecordsItem(w.state.pods[m], spec, Lookup(w.state.status, m), w.node.bootId);
      DecodeIsIdempotent(ZERO_CONFIG, spec.config);
      DecodeIntoZeroIsExact(spec.config);
    }
  }

  lemma StepKeepsItems(w: World, step: Step, m: Key, spec: ModuleSpec)
    requires Healthy(w, m, spec) && SpecKey(spec) == m && Benign(w, step, m, spec)
    ensures Recorded(w, m, spec) || Creates(w, step, m) ==> Recorded(Next(w, step), m, spec)
    ensures AsSpecified(w, m, spec) ==> AsSpecified(Next(w, step), m, spec)
  {
    if step.Pass? {
      PassKeepsRecorded(w, step.faults, m, spec);
      if AsSpecified(w, m, spec) {
        PassKeepsAsSpecified(w, step.faults, m, spec);
      }
    }
  }

  lemma {:induction false} RunKeepsItems(w: World, steps: seq<Step>, m: Key, spec: ModuleSpec)
    requires Healthy(w, m, spec) && SpecKey(spec) == m && IsBenignRun(w, steps, m, spec)
    ensures IsRun(w, steps)
    ensures Recorded(w, m, spec) || CountCreates(w, steps, m) > 0 ==> Recorded(After(w, steps), m, spec)
    ensures AsSpecified(w, m, spec) ==> AsSpecified(After(w, steps), m, spec)
    decreases |steps|
  {
    if steps != [] {
      BenignStepConserves(w, steps[0], m, spec);
      StepKeepsItems(w, steps[0], m, spec);
      RunKeepsItems(Next(w, steps[0]), steps[1..], m, spec);
    }
  }

  /**
   Whatever calls fail on the way, a module that converges by a pod created on the way has the whole
   item of its spec on record, an older image secret kept only where the spec names none; and one that
   had no entry has exactly the spec's item and configuration and this boot on record.
   */
  lemma ConvergedRecordsItem(w: World, steps: seq<Step>, m: Key, spec: ModuleSpec)
    requires Healthy(w, m, spec) && m !in w.state.pods && IsBenignRun(w, steps, m, spec)
    ensures IsRun(w, steps)
    ensures Converged(After(w, steps), m, spec) && CountCreates(w, steps, m) > 0 ==> ItemFits(After(w, steps).state.status[m].item, spec)
    ensures Converged(After(w, steps), m, spec) && m !in w.state.status ==>
              After(w, steps).state.status[m] == ModuleStatus(spec.item, spec.config, w.node.bootId)
  {
    RunKeepsItems(w, steps, m, spec);
    RunKeepsBoot(w, steps, m, spec);
  }

  lemma {:induction false} RunKeepsBoot(w: World, steps: seq<Step>, m: Key, spec: ModuleSpec)
    requires IsBenignRun(w, steps, m, spec) && IsRun(w, steps)
    ensures After(w, steps).node.bootId == w.node.bootId
    decreases |steps|
  {
    if steps != [] {
      RunKeepsBoot(Next(w, steps[0]), steps[1..], m, spec);
    }
  }
}
