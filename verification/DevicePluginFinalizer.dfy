/**
 The device-plugin controller's finalizer and what it protects: device-plugin-target node labels and
 device-plugin DaemonSets (internal/controllers/device_plugin_reconciler.go:92-147, 185-219, 274-320).
 Unlike the DRA controller it finds the labels to remove by their empty value, so a label whose value
 has drifted outlives the finalizer. A pass is a sequence of API calls, any of which may be its last.
 */
module DevicePluginFinalizer {
  import opened Basics

  datatype Snapshot = Snapshot(version: nat, held: bool, deleting: bool, plugin: bool)

  /** Where a pass is; `skipped` holds the labelled nodes its listing did not return. */
  datatype Pass =
    | Idle
    | HasRead(snapshot: Snapshot)
    | Writing
    | Unlabelling(snapshot: Snapshot, nodes: set<string>, skipped: set<string>, failed: bool)
    | ListingSets(snapshot: Snapshot, skipped: set<string>)
    | Releasing(snapshot: Snapshot, skipped: set<string>)

  /** `drifted` holds the nodes whose label ever got another value than the empty one; no pass reads it. */
  datatype World = World(exists_: bool, held: bool, deleting: bool, plugin: bool, version: nat,
                         labels: map<string, string>, sets: set<string>, drifted: set<string>, pass: Pass)

  datatype Step =
    // the user and the other controllers
    | Create(plugin: bool)
    | EditSpec(plugin: bool)
    | Delete
    | Vanish
    | OtherWrite
    | DriftLabel(node: string, value: string)
    | LabelGone(node: string)
    | SetGone(name: string)
    // the pass
    | ReadModule
    | PatchFinalizer
    | SkipFinalizer
    | WriteLabel(node: string)
    | DropLabel(node: string)
    | WriteSet(name: string)
    | ListLabels
    | RemoveLabel(node: string, fails: bool)
    | LabelsDone
    | ListSets
    | PatchRelease
    | EndPass

  predicate Finalizes(s: Snapshot) { s.deleting || !s.plugin }

  predicate Enabled(w: World, step: Step) {
    match step
    case Create(_) => !w.exists_
    case EditSpec(_) => w.exists_
    case Delete => w.exists_
    case Vanish => w.exists_ && w.deleting && !w.held
    case OtherWrite => w.exists_
    case DriftLabel(n, _) => n in w.labels
    case LabelGone(n) => n in w.labels
    case SetGone(n) => n in w.sets
    case ReadModule => w.exists_ && w.pass == Idle
    case PatchFinalizer => w.pass.HasRead? && !Finalizes(w.pass.snapshot) && !w.pass.snapshot.held
    case SkipFinalizer => w.pass.HasRead? && !Finalizes(w.pass.snapshot) && w.pass.snapshot.held
    case WriteLabel(_) => w.pass == Writing
    case DropLabel(n) => w.pass == Writing && n in w.labels
    case WriteSet(_) => w.pass == Writing
    case ListLabels => w.pass.HasRead? && Finalizes(w.pass.snapshot)
    case RemoveLabel(n, _) => w.pass.Unlabelling? && n in w.pass.nodes
    case LabelsDone => w.pass.Unlabelling? && w.pass.nodes == {} && !w.pass.failed
    case ListSets => w.pass.ListingSets?
    case PatchRelease => w.pass.Releasing?
    case EndPass => w.pass != Idle
  }

  function Bumped(w: World): World { w.(version := w.version + 1) }

  function WithValue(labels: map<string, string>, empty: bool): set<string> {
    set n | n in labels && (labels[n] == "") == empty
  }

  /** Deletion requests have no effect of their own: the DaemonSet goes, if it goes, by a later `SetGone`. */
  function Next(w: World, step: Step): World
    requires Enabled(w, step)
  {
    match step
    case Create(plugin) => Bumped(w.(exists_ := true, held := false, deleting := false, plugin := plugin))
    case EditSpec(plugin) => Bumped(w.(plugin := plugin))
    case Delete => Bumped(w.(deleting := true))
    case Vanish => Bumped(w.(exists_ := false))
    case OtherWrite => Bumped(w)
    case DriftLabel(n, v) => w.(labels := w.labels[n := v], drifted := if v == "" then w.drifted else w.drifted + {n})
    case LabelGone(n) => w.(labels := w.labels - {n})
    case SetGone(n) => w.(sets := w.sets - {n})
    case ReadModule => w.(pass := HasRead(Snapshot(w.version, w.held, w.deleting, w.plugin)))
    case PatchFinalizer =>
      if w.exists_ && w.version == w.pass.snapshot.version then Bumped(w.(held := true, pass := Writing)) else w.(pass := Idle)
    case SkipFinalizer => w.(pass := Writing)
    case WriteLabel(n) => w.(labels := w.labels[n := ""])
    case DropLabel(n) => w.(labels := w.labels - {n})
    case WriteSet(n) => w.(sets := w.sets + {n})
    case ListLabels => w.(pass := Unlabelling(w.pass.snapshot, WithValue(w.labels, true), WithValue(w.labels, false), false))
    case RemoveLabel(n, fails) =>
      w.(pass := w.pass.(nodes := w.pass.nodes - {n}, failed := w.pass.failed || fails),
         labels := if fails then w.labels else w.labels - {n})
    case LabelsDone => w.(pass := ListingSets(w.pass.snapshot, w.pass.skipped))
    case ListSets => w.(pass := if w.sets != {} || !w.pass.snapshot.held then Idle else Releasing(w.pass.snapshot, w.pass.skipped))
    case PatchRelease =>
      if w.exists_ && w.version == w.pass.snapshot.version then Bumped(w.(held := false, pass := Idle)) else w.(pass := Idle)
    case EndPass => w.(pass := Idle)
  }

  ghost predicate IsRun(w: World, steps: seq<Step>)
    decreases |steps|
  {
    steps == [] || (Enabled(w, steps[0]) && IsRun(Next(w, steps[0]), steps[1..]))
  }

  ghost function After(w: World, steps: seq<Step>): World
    requires IsRun(w, steps)
    decreases |steps|
  {
    if steps == [] then w else After(Next(w, steps[0]), steps[1..])
  }

  const START := World(false, false, false, false, 0, map[], {}, {}, Idle)

  ghost predicate HasResources(w: World) { w.labels != map[] || w.sets != {} }

  ghost predicate IsHeld(w: World) { w.exists_ && w.held }

  ghost predicate PassFits(w: World) {
    match w.pass
    case Idle => true
    case HasRead(s) =>
      && s.version <= w.version
      && (s.held ==> IsHeld(w))
      && (w.exists_ && s.version == w.version ==> s.held == w.held && s.deleting == w.deleting)
    case Writing => IsHeld(w)
    case Unlabelling(s, nodes, skipped, failed) =>
      (s.held ==> IsHeld(w)) && skipped <= w.drifted && (!failed && s.held ==> w.labels.Keys <= nodes + skipped)
    case ListingSets(s, skipped) => (s.held ==> IsHeld(w)) && skipped <= w.drifted && (s.held ==> w.labels.Keys <= skipped)
    case Releasing(s, skipped) => IsHeld(w) && skipped <= w.drifted && w.labels.Keys <= skipped && w.sets == {}
  }

  /** Without the finalizer there is no DaemonSet, and only labels that drifted at some time. */
  ghost predicate PluginInv(w: World) {
    && PassFits(w)
    && (forall n :: n in w.labels && w.labels[n] != "" ==> n in w.drifted)
    && (!IsHeld(w) ==> w.sets == {} && w.labels.Keys <= w.drifted)
  }

  /** The calls that remove labels and release the Module. */
  predicate IsFinalizing(step: Step) {
    step.ListLabels? || step.RemoveLabel? || step.LabelsDone? || step.ListSets? || step.PatchRelease?
  }

  lemma FinalizingKeepsPluginInv(w: World, step: Step)
    requires PluginInv(w) && Enabled(w, step) && IsFinalizing(step)
    ensures PluginInv(Next(w, step))
  {
  }

  lemma OtherStepKeepsPluginInv(w: World, step: Step)
    requires PluginInv(w) && Enabled(w, step) && !IsFinalizing(step)
    ensures PluginInv(Next(w, step))
  {
  }

  lemma StepKeepsPluginInv(w: World, step: Step)
    requires PluginInv(w) && Enabled(w, step)
    ensures PluginInv(Next(w, step))
  {
    if IsFinalizing(step) {
      FinalizingKeepsPluginInv(w, step);
    } else {
      OtherStepKeepsPluginInv(w, step);
    }
  }

  lemma {:induction false} RunKeepsPluginInv(w: World, steps: seq<Step>)
    requires PluginInv(w) && IsRun(w, steps)
    ensures PluginInv(After(w, steps))
    decreases |steps|
  {
    if steps != [] {
      StepKeepsPluginInv(w, steps[0]);
      RunKeepsPluginInv(Next(w, steps[0]), steps[1..]);
    }
  }

  predicate Drifts(step: Step) { step.DriftLabel? && step.value != "" }

  lemma {:induction false} DriftedByStep(w: World, steps: seq<Step>, n: string)
    requires IsRun(w, steps) && n in After(w, steps).drifted && n !in w.drifted
    ensures exists s :: s in steps && Drifts(s) && s.node == n
    decreases |steps|
  {
    if n in Next(w, steps[0]).drifted {
      assert steps[0] in steps && Drifts(steps[0]) && steps[0].node == n;
    } else {
      DriftedByStep(Next(w, steps[0]), steps[1..], n);
      var s :| s in steps[1..] && Drifts(s) && s.node == n;
      assert s in steps;
    }
  }

  /**
   In every run a DaemonSet implies that the Module is there and holds the finalizer, and so does a
   label on every node except those whose label somebody gave another value.
   */
  lemma FinalizerCoversUndrifted(steps: seq<Step>)
    requires IsRun(START, steps)
    ensures var w := After(START, steps);
            && (w.sets != {} ==> IsHeld(w))
            && (forall n :: n in w.labels && !(exists s :: s in steps && Drifts(s) && s.node == n) ==> IsHeld(w))
  {
    var w := After(START, steps);
    RunKeepsPluginInv(START, steps);
    forall n | n in w.labels && !IsHeld(w)
      ensures exists s :: s in steps && Drifts(s) && s.node == n
    {
      DriftedByStep(START, steps, n);
    }
  }

  /** The finalizer goes only with no DaemonSet left; labels are left behind only on nodes the pass's listing skipped. */
  lemma ReleaseLeavesSkipped(steps: seq<Step>, step: Step)
    requires IsRun(START, steps) && Enabled(After(START, steps), step)
    requires var w := After(START, steps); IsHeld(w) && !IsHeld(Next(w, step))
    ensures var w, w' := After(START, steps), Next(After(START, steps), step);
            step == PatchRelease && w'.sets == {} && w'.labels.Keys <= w.pass.skipped
  {
    RunKeepsPluginInv(START, steps);
  }

  /** A Module that is being deleted is never taken up: no step gives it the finalizer. */
  lemma DeletingIsNeverTakenUp(steps: seq<Step>, step: Step)
    requires IsRun(START, steps) && Enabled(After(START, steps), step)
    ensures var w := After(START, steps); w.exists_ && w.deleting && !w.held ==> !Next(w, step).held
  {
    RunKeepsPluginInv(START, steps);
  }

  /** A pass that read another version of the Module, or one that is gone, neither sets nor releases the finalizer: its patch only ends it. */
  lemma StalePatchChangesNothing(w: World, step: Step)
    requires Enabled(w, step) && (step.PatchFinalizer? || step.PatchRelease?)
    requires w.pass.snapshot.version != w.version || !w.exists_
    ensures Next(w, step) == w.(pass := Idle)
  {
  }

  // ----- The pass as it runs -----

  lemma {:induction false} RunExtends(w: World, steps: seq<Step>, step: Step)
    requires IsRun(w, steps) && Enabled(After(w, steps), step)
    ensures IsRun(w, steps + [step]) && After(w, steps + [step]) == Next(After(w, steps), step)
    decreases |steps|
  {
    var all := steps + [step];
    if steps == [] {
      assert all == [step] && all[1..] == [];
    } else {
      assert all[1..] == steps[1..] + [step];
      RunExtends(Next(w, steps[0]), steps[1..], step);
    }
  }

  /** API calls of a pass that fail. */
  datatype Faults = Faults(conflict: bool, nodes: set<string>)

  function ReadNow(w: World): Pass { HasRead(Snapshot(w.version, w.held, w.deleting, w.plugin)) }

  /** The reconciler with nobody in between: each API call it makes is a step of the machine above. */
  class DevicePluginReconciler {
    var world: World
    ghost var start: World
    ghost var trace: seq<Step>

    ghost predicate Valid()
      reads this
    {
      IsRun(start, trace) && After(start, trace) == world
    }

    method Call(step: Step)
      requires Valid() && Enabled(world, step)
      modifies this`world, this`trace
      ensures Valid() && world == Next(old(world), step)
    {
      RunExtends(start, trace, step);
      trace := trace + [step];
      world := Next(world, step);
    }

    /** Removes the label from the nodes that carry it with the empty value. */
    method RemoveTargetLabels(f: Faults) returns (failed: bool)
      requires Valid() && world.exists_ && world.pass == ReadNow(world) && Finalizes(world.pass.snapshot)
      modifies this`world, this`trace
      ensures Valid()
      ensures world == old(world).(labels := world.labels,
                                   pass := Unlabelling(old(world.pass.snapshot), {}, WithValue(old(world.labels), false), failed))
      ensures failed <==> exists n :: n in old(world.labels) && old(world.labels)[n] == "" && n in f.nodes
      ensures forall n :: Lookup(world.labels, n) == LabelAfter(old(world.labels), f.nodes, n)
      ensures forall n :: n in world.labels <==> n in old(world.labels) && (old(world.labels)[n] != "" || n in f.nodes)
    {
      ghost var s, labels := world.pass.snapshot, world.labels;
      Call(ListLabels);
      var rest := WithValue(world.labels, true);
      failed := false;
      while rest != {}
        invariant Valid() && rest <= WithValue(labels, true)
        invariant world == old(world).(labels := world.labels, pass := Unlabelling(s, rest, WithValue(labels, false), failed))
        invariant failed <==> exists n :: n in labels && labels[n] == "" && n !in rest && n in f.nodes
        invariant UnlabelledSoFar(world.labels, labels, f.nodes, rest)
        decreases rest
      {
        var n :| n in rest;
        UnlabelStep(world.labels, labels, f.nodes, rest, n);
        Call(RemoveLabel(n, n in f.nodes));
        failed := failed || n in f.nodes;
        rest := rest - {n};
      }
      forall n ensures n in world.labels <==> n in labels && (labels[n] != "" || n in f.nodes) {
        assert Lookup(world.labels, n) == LabelAfter(labels, f.nodes, n);
      }
    }

    /**
     Releases the Module exactly when it held it, found no DaemonSet and had no failure; the labels
     then left behind are exactly those that did not have the empty value.
     */
    method FinalizeModule(f: Faults)
      requires Valid() && world.exists_ && world.pass == ReadNow(world) && Finalizes(world.pass.snapshot)
      modifies this`world, this`trace
      ensures Valid() && world.pass == Idle && world.sets == old(world.sets)
      ensures old(world.held) ==>
                (!world.held <==> old(world.sets) == {} && !f.conflict && forall n :: n in old(world.labels) && old(world.labels)[n] == "" ==> n !in f.nodes)
      ensures !old(world.held) ==> !world.held
      ensures old(world.held) && !world.held ==> world.sets == {} && world.labels.Keys == WithValue(old(world.labels), false)
    {
      var failed := RemoveTargetLabels(f);
      if failed {
        Call(EndPass);
        return;
      }
      OnlyOthersLeft(world.labels, old(world.labels), f.nodes);
      Call(LabelsDone);
      ListAndRelease(f);
    }

    /** Releases the Module when it was held and no DaemonSet is left. */
    method ListAndRelease(f: Faults)
      requires Valid() && world.exists_ && world.pass.ListingSets? && world.pass.snapshot.version == world.version && world.pass.snapshot.held == world.held
      modifies this`world, this`trace
      ensures Valid() && world.pass == Idle && world.labels == old(world.labels) && world.sets == old(world.sets)
      ensures !world.held <==> !old(world.held) || (world.sets == {} && !f.conflict)
    {
      Call(ListSets);
      if world.pass == Idle {
        return;
      }
      if f.conflict {
        Call(EndPass);
        return;
      }
      Call(PatchRelease);
    }
  }

  function LabelAfter(labels: map<string, string>, failing: set<string>, n: string): Option<string> {
    if n in labels && labels[n] == "" && n !in failing then None else Lookup(labels, n)
  }

  ghost predicate UnlabelledSoFar(now: map<string, string>, before: map<string, string>, failing: set<string>, rest: set<string>) {
    forall n :: Lookup(now, n) == if n in rest then Lookup(before, n) else LabelAfter(before, failing, n)
  }

  lemma UnlabelStep(now: map<string, string>, before: map<string, string>, failing: set<string>, rest: set<string>, n: string)
    requires UnlabelledSoFar(now, before, failing, rest) && n in rest && n in before && before[n] == ""
    ensures UnlabelledSoFar(if n in failing then now else now - {n}, before, failing, rest - {n})
  {
  }

  lemma OnlyOthersLeft(now: map<string, string>, before: map<string, string>, failing: set<string>)
    requires forall n :: Lookup(now, n) == LabelAfter(before, failing, n)
    requires !(exists n :: n in before && before[n] == "" && n in failing)
    ensures now.Keys == WithValue(before, false)
  {
    forall n
      ensures n in now <==> n in WithValue(before, false)
    {
      assert Lookup(now, n) == LabelAfter(before, failing, n);
    }
  }

  // ----- A label that outlives the finalizer -----

  const LABELLED := World(true, true, true, true, 3, map["node" := "x"], {}, {"node"}, Idle)

  /** The Module is created, held and its node labelled; the label's value drifts and the Module is deleted. */
  const DRIFTING := [Create(true), ReadModule, PatchFinalizer, WriteLabel("node"), EndPass, DriftLabel("node", "x"), Delete]

  /** The next pass finds nothing to remove and releases the Module, which goes. */
  const RELEASING := [ReadModule, ListLabels, LabelsDone, ListSets, PatchRelease, Vanish]

  lemma {:induction false} Joined(w: World, first: seq<Step>, second: seq<Step>)
    requires IsRun(w, first) && IsRun(After(w, first), second)
    ensures IsRun(w, first + second) && After(w, first + second) == After(After(w, first), second)
    decreases |first|
  {
    if first == [] {
      assert first + second == second;
    } else {
      assert (first + second)[1..] == first[1..] + second;
      Joined(Next(w, first[0]), first[1..], second);
    }
  }

  /** The run so far, one step longer. */
  lemma Extended(steps: seq<Step>, w: World, start: World, step: Step, longer: seq<Step>, w': World)
    requires IsRun(start, steps) && After(start, steps) == w && Enabled(w, step) && Next(w, step) == w' && longer == steps + [step]
    ensures IsRun(start, longer) && After(start, longer) == w'
  {
    RunExtends(start, steps, step);
  }

  lemma DriftingRuns()
    ensures IsRun(START, DRIFTING) && After(START, DRIFTING) == LABELLED
  {
    var w1 := World(true, false, false, true, 1, map[], {}, {}, Idle);
    var w2 := w1.(pass := HasRead(Snapshot(1, false, false, true)));
    var w3 := World(true, true, false, true, 2, map[], {}, {}, Writing);
    var w4 := w3.(labels := map["node" := ""]);
    var w5 := w4.(pass := Idle);
    var w6 := w5.(labels := map["node" := "x"], drifted := {"node"});
    Extended([], START, START, Create(true), DRIFTING[..1], w1);
    Extended(DRIFTING[..1], w1, START, ReadModule, DRIFTING[..2], w2);
    Extended(DRIFTING[..2], w2, START, PatchFinalizer, DRIFTING[..3], w3);
    Extended(DRIFTING[..3], w3, START, WriteLabel("node"), DRIFTING[..4], w4);
    Extended(DRIFTING[..4], w4, START, EndPass, DRIFTING[..5], w5);
    Extended(DRIFTING[..5], w5, START, DriftLabel("node", "x"), DRIFTING[..6], w6);
    Extended(DRIFTING[..6], w6, START, Delete, DRIFTING, LABELLED);
  }

  const SEEN := Snapshot(3, true, true, true)

  /** The listing by the empty value does not return the node. */
  lemma ListingSkips()
    ensures IsRun(LABELLED, RELEASING[..3])
    ensures After(LABELLED, RELEASING[..3]) == LABELLED.(pass := ListingSets(SEEN, {"node"}))
  {
    var w1 := LABELLED.(pass := HasRead(SEEN));
    var w2 := LABELLED.(pass := Unlabelling(SEEN, {}, {"node"}, false));
    assert WithValue(LABELLED.labels, true) == {};
    assert WithValue(LABELLED.labels, false) == {"node"};
    Extended([], LABELLED, LABELLED, ReadModule, RELEASING[..1], w1);
    Extended(RELEASING[..1], w1, LABELLED, ListLabels, RELEASING[..2], w2);
    Extended(RELEASING[..2], w2, LABELLED, LabelsDone, RELEASING[..3], LABELLED.(pass := ListingSets(SEEN, {"node"})));
  }

  lemma ReleasingRuns()
    ensures IsRun(LABELLED, RELEASING)
    ensures After(LABELLED, RELEASING) == LABELLED.(exists_ := false, held := false, version := 5)
  {
    var w4 := LABELLED.(pass := Releasing(SEEN, {"node"}));
    var w5 := LABELLED.(held := false, version := 4);
    ListingSkips();
    Extended(RELEASING[..3], LABELLED.(pass := ListingSets(SEEN, {"node"})), LABELLED, ListSets, RELEASING[..4], w4);
    Extended(RELEASING[..4], w4, LABELLED, PatchRelease, RELEASING[..5], w5);
    Extended(RELEASING[..5], w5, LABELLED, Vanish, RELEASING, w5.(exists_ := false, version := 5));
  }

  /** With no call failing, a label whose value drifted stays on its node after the Module is gone. */
  lemma DriftedLabelOutlivesModule()
    ensures IsRun(START, DRIFTING + RELEASING)
    ensures var w := After(START, DRIFTING + RELEASING); "node" in w.labels && !w.exists_
  {
    DriftingRuns();
    ReleasingRuns();
    Joined(START, DRIFTING, RELEASING);
  }
}
