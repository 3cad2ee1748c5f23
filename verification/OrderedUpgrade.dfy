/**
 The ordered-upgrade protocol of one module on one node: three version labels moved by an action
 table under two guards, while the administrator edits the module label and DaemonSet pods come and
 go (internal/controllers/module_version_label_action_table.go,
 internal/controllers/node_label_module_version_reconciler.go:155-266).
 */
module OrderedUpgrade {
  import opened LabelCodecs

  /** The values of the module, worker-pod and schedule-pod version labels; "" when a label is not set. */
  datatype Labels = Labels(mod: string, worker: string, schedule: string)

  datatype Presence = Missing | Present | Different

  datatype TableKey = TableKey(mod: Presence, worker: Presence, schedule: Presence)

  datatype TableAction = NoAction | DeleteLabel(kind: Kind) | AddLabel(kind: Kind)

  const LABEL_ACTION_TABLE: map<TableKey, TableAction> := map[
    TableKey(Missing, Missing, Missing) := NoAction,
    TableKey(Missing, Present, Present) := DeleteLabel(SchedulePodVersion),
    TableKey(Missing, Present, Missing) := DeleteLabel(WorkerPodVersion),
    TableKey(Present, Missing, Missing) := AddLabel(WorkerPodVersion),
    TableKey(Present, Present, Missing) := AddLabel(SchedulePodVersion),
    TableKey(Present, Present, Present) := NoAction,
    TableKey(Present, Different, Different) := DeleteLabel(SchedulePodVersion),
    TableKey(Present, Different, Missing) := DeleteLabel(WorkerPodVersion)]

  function PresenceOf(mod: string, value: string): Presence {
    if value == "" then Missing
    else if mod != "" && value != mod then Different
    else Present
  }

  function StateOf(l: Labels): TableKey {
    TableKey(if l.mod == "" then Missing else Present, PresenceOf(l.mod, l.worker), PresenceOf(l.mod, l.schedule))
  }

  /** What a pass does to the module's labels. */
  datatype Decision = Keep | Remove(kind: Kind) | Set(kind: Kind, value: string)

  function LabelAndAction(l: Labels): Decision {
    if StateOf(l) !in LABEL_ACTION_TABLE then Keep
    else
      match LABEL_ACTION_TABLE[StateOf(l)]
      case NoAction => Keep
      case DeleteLabel(kind) => Remove(kind)
      case AddLabel(kind) => Set(kind, l.mod)
  }

  /** A guard holds the action back: worker label removal while schedule pods exist, worker label addition while the kernel module is ready. */
  predicate Guarded(d: Decision, hasPods: bool, ready: bool) {
    || (d == Remove(WorkerPodVersion) && hasPods)
    || (d.Set? && d.kind == WorkerPodVersion && ready)
  }

  function Decide(l: Labels, hasPods: bool, ready: bool): Decision {
    var d := LabelAndAction(l);
    if Guarded(d, hasPods, ready) then Keep else d
  }

  /** The worker label names a version the node is to leave, and no schedule label is in the way. */
  predicate LeavesVersion(l: Labels) { l.worker != "" && l.worker != l.mod && l.schedule == "" }

  /** The node is to take up a version, and no other is recorded on it. */
  predicate TakesVersion(l: Labels) { l.mod != "" && l.worker == "" && l.schedule == "" }

  /** A module that has to wait: its worker label is due to go while it has schedule pods, or due to come while its kernel module is loaded. */
  predicate Waits(l: Labels, hasPods: bool, ready: bool) {
    (LeavesVersion(l) && hasPods) || (TakesVersion(l) && ready)
  }

  /** Exactly when each label is written or removed, on any labels, read off their values, the pods and the ready label. */
  lemma DecisionIff(l: Labels, hasPods: bool, ready: bool)
    ensures var d := Decide(l, hasPods, ready);
            && (d == Remove(WorkerPodVersion) <==> LeavesVersion(l) && !hasPods)
            && (d == Set(WorkerPodVersion, l.mod) <==> TakesVersion(l) && !ready)
            && (d == Remove(SchedulePodVersion) <==> l.schedule != "" && l.worker != "" && (l.mod == "" || (l.schedule != l.mod && l.worker != l.mod)))
            && (d == Set(SchedulePodVersion, l.mod) <==> l.mod != "" && l.worker == l.mod && l.schedule == "")
            && (d == Keep || d == Remove(WorkerPodVersion) || d == Set(WorkerPodVersion, l.mod)
                || d == Remove(SchedulePodVersion) || d == Set(SchedulePodVersion, l.mod))
    ensures Guarded(LabelAndAction(l), hasPods, ready) <==> Waits(l, hasPods, ready)
  {
  }

  function WithLabel(l: Labels, kind: Kind, value: string): Labels {
    match kind
    case ModuleVersion => l.(mod := value)
    case WorkerPodVersion => l.(worker := value)
    case SchedulePodVersion => l.(schedule := value)
  }

  function Apply(l: Labels, d: Decision): Labels {
    match d
    case Keep => l
    case Remove(kind) => WithLabel(l, kind, "")
    case Set(kind, value) => WithLabel(l, kind, value)
  }

  // ----- Totality and termination of the table -----

  /** A set schedule label repeats the worker label. */
  predicate Consistent(l: Labels) {
    l.schedule != "" ==> l.worker == l.schedule
  }

  lemma TableCoversConsistent(l: Labels)
    requires Consistent(l)
    ensures StateOf(l) in LABEL_ACTION_TABLE
  {
  }

  /** Steps to go before the labels settle. */
  function Rank(l: Labels): nat {
    if l.mod == "" then (if l.schedule != "" then 2 else if l.worker != "" then 1 else 0)
    else if l.worker == l.mod then (if l.schedule == l.mod then 0 else 1)
    else if l.worker == "" then 2
    else if l.schedule == "" then 3
    else 4
  }

  predicate IsSettled(l: Labels) { l.worker == l.mod && l.schedule == l.mod }

  /** Each unguarded step stays consistent and lowers the rank by one, down to the fixpoint where both labels follow the module label. */
  lemma UnguardedStepLowersRank(l: Labels)
    requires Consistent(l)
    ensures Rank(l) <= 4
    ensures Rank(l) == 0 <==> IsSettled(l)
    ensures LabelAndAction(l) == Keep <==> IsSettled(l)
    ensures var l' := Apply(l, LabelAndAction(l));
            Consistent(l') && l'.mod == l.mod && (Rank(l) > 0 ==> Rank(l') == Rank(l) - 1)
  {
    TableCoversConsistent(l);
  }

  function Iterated(l: Labels, n: nat): Labels
    decreases n
  {
    if n == 0 then l else Iterated(Apply(l, LabelAndAction(l)), n - 1)
  }

  /** For a fixed module label, four unguarded passes settle any consistent labels, and `Rank` passes are needed. */
  lemma {:induction false} SettlesAfterRankPasses(l: Labels, n: nat)
    requires Consistent(l)
    ensures n >= Rank(l) ==> Iterated(l, n) == Labels(l.mod, l.mod, l.mod)
    ensures n < Rank(l) ==> !IsSettled(Iterated(l, n))
    decreases n
  {
    UnguardedStepLowersRank(l);
    if n > 0 {
      SettlesAfterRankPasses(Apply(l, LabelAndAction(l)), n - 1);
    }
  }

  // ----- Runs -----

  /** A reconcile between its API calls: the node as it was read, and what it is about to patch. */
  datatype Progress = Idle | HasRead(labels: Labels, ready: bool) | HasDecided(decision: Decision, labels: Labels, ready: bool)

  /** `pods` holds the versions of the module's device-plugin and DRA pods on the node, "" for an unversioned pod. */
  datatype World = World(labels: Labels, ready: bool, pods: multiset<string>, progress: Progress)

  datatype Step =
    | EditModuleLabel(value: string)
    | ReadNode
    | ListPods
    | PatchNode
    | PodStarts(version: string)
    | PodStops(version: string)
    | ReadyChanges(ready: bool)

  /** A versioned DaemonSet's node selector asks for its version in the schedule label; an unversioned one does not look. */
  ghost predicate Enabled(w: World, step: Step) {
    match step
    case ReadNode => w.progress == Idle
    case ListPods => w.progress.HasRead?
    case PatchNode => w.progress.HasDecided?
    case PodStarts(v) => v == "" || w.labels.schedule == v
    case PodStops(v) => v in w.pods
    case _ => true
  }

  ghost function Next(w: World, step: Step): World
    requires Enabled(w, step)
  {
    match step
    case EditModuleLabel(v) => w.(labels := w.labels.(mod := v))
    case ReadNode => w.(progress := HasRead(w.labels, w.ready))
    case ListPods => w.(progress := HasDecided(Decide(w.progress.labels, w.pods != multiset{}, w.progress.ready), w.progress.labels, w.progress.ready))
    case PatchNode => w.(labels := Apply(w.labels, w.progress.decision), progress := Idle)
    case PodStarts(v) => w.(pods := w.pods + multiset{v})
    case PodStops(v) => w.(pods := w.pods - multiset{v})
    case ReadyChanges(ready) => w.(ready := ready)
  }

  const START := World(Labels("", "", ""), false, multiset{}, Idle)

  ghost predicate IsRun(w: World, steps: seq<Step>)
    decreases |steps|
  {
    steps == [] || (Enabled(w, steps[0]) && IsRun(Next(w, steps[0]), steps[1..]))
  }

  ghost function After(w: World, steps: seq<Step>): World
    requires IsRun(w, steps)
    decreases |steps|
  {
    if steps == [] then w else After(Next(w, steps[0]), steps[1..])
  }

  ghost predicate Unversioned(pods: multiset<string>) { forall v :: v in pods ==> v == "" }

  /** A pending patch still fits the labels, which only this reconcile writes. */
  ghost predicate ProgressFits(w: World) {
    match w.progress
    case Idle => true
    case HasRead(l, _) => l.worker == w.labels.worker && l.schedule == w.labels.schedule
    case HasDecided(d, l, ready) =>
      match d
      case Keep => true
      case Remove(kind) => kind == SchedulePodVersion || (kind == WorkerPodVersion && w.labels.schedule == "" && Unversioned(w.pods))
      case Set(kind, value) =>
        || (kind == WorkerPodVersion && w.labels.worker == "" && value == l.mod && !ready)
        || (kind == SchedulePodVersion && value == w.labels.worker)
  }

  ghost predicate PodsMatchWorker(w: World) {
    forall v :: v in w.pods && v != "" ==> v == w.labels.worker
  }

  ghost predicate UpgradeInv(w: World) {
    Consistent(w.labels) && PodsMatchWorker(w) && ProgressFits(w)
  }

  /** What the table can ask for, read off a consistent snapshot. */
  lemma DecisionFits(l: Labels, hasPods: bool, ready: bool)
    requires Consistent(l)
    ensures var d := Decide(l, hasPods, ready);
            && (d.Remove? ==> d.kind == SchedulePodVersion || (d.kind == WorkerPodVersion && l.schedule == "" && !hasPods))
            && (d.Set? ==> (d.kind == WorkerPodVersion && l.worker == "" && d.value == l.mod && !ready) || (d.kind == SchedulePodVersion && d.value == l.worker))
  {
    DecisionIff(l, hasPods, ready);
  }

  lemma PatchKeepsUpgradeInv(w: World)
    requires UpgradeInv(w) && w.progress.HasDecided?
    ensures UpgradeInv(w.(labels := Apply(w.labels, w.progress.decision), progress := Idle))
  {
    assert w.labels.worker == "" ==> Unversioned(w.pods);
  }

  lemma StepKeepsUpgradeInv(w: World, step: Step)
    requires UpgradeInv(w) && Enabled(w, step)
    ensures UpgradeInv(Next(w, step))
  {
    match step
    case ListPods =>
      DecisionFits(w.progress.labels, w.pods != multiset{}, w.progress.ready);
    case PatchNode =>
      PatchKeepsUpgradeInv(w);
    case _ =>
  }

  lemma {:induction false} RunKeepsUpgradeInv(w: World, steps: seq<Step>)
    requires UpgradeInv(w) && IsRun(w, steps)
    ensures UpgradeInv(After(w, steps))
    decreases |steps|
  {
    if steps != [] {
      StepKeepsUpgradeInv(w, steps[0]);
      RunKeepsUpgradeInv(Next(w, steps[0]), steps[1..]);
    }
  }

  /**
   Upgrade safety: whatever the administrator does to the module label between the reads and the
   patch, a schedule pod of version v on the node means the worker-pod label there is v; and the
   table always has a row for the labels.
   */
  lemma UpgradeSafety(steps: seq<Step>)
    requires IsRun(START, steps)
    ensures var w := After(START, steps);
            && (forall v :: v in w.pods && v != "" ==> w.labels.worker == v)
            && Consistent(w.labels) && StateOf(w.labels) in LABEL_ACTION_TABLE
  {
    RunKeepsUpgradeInv(START, steps);
    TableCoversConsistent(After(START, steps).labels);
  }

  /**
   Ordered loading: in every run, a patch that gives the node a worker label found the label missing
   and was decided from a reading of the node without the kernel-module-ready label, for the version
   the module label had there; and one that takes the worker label away finds no versioned schedule
   pod and no schedule label.
   */
  lemma WorkerLabelChangesWhenClear(steps: seq<Step>)
    requires IsRun(START, steps) && Enabled(After(START, steps), PatchNode)
    ensures var w := After(START, steps);
            var worker := Next(w, PatchNode).labels.worker;
            && (worker != w.labels.worker && worker != "" ==> w.labels.worker == "" && !w.progress.ready && worker == w.progress.labels.mod)
            && (worker != w.labels.worker && worker == "" ==> w.labels.schedule == "" && Unversioned(w.pods))
  {
    RunKeepsUpgradeInv(START, steps);
  }

  // ----- Every row of the table is used -----

  ghost predicate Reachable(w: World) {
    exists steps :: IsRun(START, steps) && After(START, steps) == w
  }

  lemma {:induction false} RunExtends(w: World, steps: seq<Step>, step: Step)
    requires IsRun(w, steps) && Enabled(After(w, steps), step)
    ensures IsRun(w, steps + [step]) && After(w, steps + [step]) == Next(After(w, steps), step)
    decreases |steps|
  {
    var all := steps + [step];
    if steps == [] {
      assert all == [step];
      assert all[1..] == [];
    } else {
      assert all[1..] == steps[1..] + [step];
      RunExtends(Next(w, steps[0]), steps[1..], step);
    }
  }

  lemma ReachableNext(w: World, step: Step)
    requires Reachable(w) && Enabled(w, step)
    ensures Reachable(Next(w, step))
  {
    var steps :| IsRun(START, steps) && After(START, steps) == w;
    RunExtends(START, steps, step);
  }

  /** A whole reconcile with nobody in between. */
  lemma ReachablePass(l: Labels)
    requires Reachable(World(l, false, multiset{}, Idle))
    ensures Reachable(World(Apply(l, LabelAndAction(l)), false, multiset{}, Idle))
  {
    var w := World(l, false, multiset{}, Idle);
    ReachableNext(w, ReadNode);
    var w1 := Next(w, ReadNode);
    ReachableNext(w1, ListPods);
    var w2 := Next(w1, ListPods);
    ReachableNext(w2, PatchNode);
  }

  lemma ReachableEdit(l: Labels, v: string)
    requires Reachable(World(l, false, multiset{}, Idle))
    ensures Reachable(World(l.(mod := v), false, multiset{}, Idle))
  {
    ReachableNext(World(l, false, multiset{}, Idle), EditModuleLabel(v));
  }

  /** The table's keys are exactly the label states of reachable worlds. */
  lemma TableIsExact(key: TableKey)
    ensures key in LABEL_ACTION_TABLE <==> exists w :: Reachable(w) && StateOf(w.labels) == key
  {
    if w :| Reachable(w) && StateOf(w.labels) == key {
      var steps :| IsRun(START, steps) && After(START, steps) == w;
      UpgradeSafety(steps);
    }
    if key in LABEL_ACTION_TABLE {
      var l := RowReached(key);
      assert Reachable(World(l, false, multiset{}, Idle));
    }
  }

  /** Labels of a reachable world for each row: first install, upgrade to a second version, removal. */
  lemma RowReached(key: TableKey) returns (l: Labels)
    requires key in LABEL_ACTION_TABLE
    ensures Reachable(World(l, false, multiset{}, Idle)) && StateOf(l) == key
  {
    l := Labels("", "", "");
    assert Reachable(World(l, false, multiset{}, Idle)) by {
      assert IsRun(START, []) && After(START, []) == START;
    }
    if key.mod == Missing && key.worker == Missing { return; }
    ReachableEdit(l, "v1");
    l := l.(mod := "v1");
    if key.worker == Missing { return; }
    ReachablePass(l);
    l := Labels("v1", "v1", "");
    if key == TableKey(Present, Present, Missing) { return; }
    ReachablePass(l);
    l := Labels("v1", "v1", "v1");
    if key == TableKey(Present, Present, Present) { return; }
    var next := if key.mod == Missing then "" else "v2";
    ReachableEdit(l, next);
    l := l.(mod := next);
    if key.schedule != Missing { return; }
    ReachablePass(l);
    l := Labels(next, "v1", "");
  }
}
