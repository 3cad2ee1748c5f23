/**
 The DRA controller's finalizer and what it protects: dra-target node labels, DRA DaemonSets and
 DeviceClasses (internal/controllers/dra_reconciler.go:102-160, 198-294, 406-455). A pass is a
 sequence of API calls, any of which may be its last; one pass runs at a time.
 */
module DraFinalizer {
  import opened Basics

  /** The Module as the pass read it. */
  datatype Snapshot = Snapshot(version: nat, held: bool, deleting: bool, dra: bool)

  /** Where a pass is. Labels, DaemonSets and DeviceClasses are listed one after the other when finalizing. */
  datatype Pass =
    | Idle
    | HasRead(snapshot: Snapshot)
    | Writing
    | Unlabelling(snapshot: Snapshot, nodes: set<string>, failed: bool)
    | DeletingSets(snapshot: Snapshot)
    | DeletingClasses(snapshot: Snapshot, setsSeen: nat)
    | Releasing(snapshot: Snapshot)

  /** `held`: the Module carries the DRA finalizer. `labels` maps labelled nodes to the label's value. */
  datatype World = World(exists_: bool, held: bool, deleting: bool, dra: bool, version: nat,
                         labels: map<string, string>, sets: set<string>, classes: set<string>, pass: Pass)

  datatype Step =
    // the user and the other controllers
    | Create(dra: bool)
    | EditSpec(dra: bool)
    | Delete
    | Vanish
    | OtherWrite
    | DriftLabel(node: string, value: string)
    | LabelGone(node: string)
    | SetGone(name: string)
    | ClassGone(name: string)
    // the pass
    | ReadModule
    | PatchFinalizer
    | SkipFinalizer
    | WriteLabel(node: string)
    | DropLabel(node: string)
    | WriteSet(name: string)
    | WriteClass(name: string)
    | ListLabels
    | RemoveLabel(node: string, fails: bool)
    | LabelsDone
    | ListSets
    | ListClasses
    | PatchRelease
    | EndPass

  predicate Enabled(w: World, step: Step) {
    match step
    case Create(_) => !w.exists_
    case EditSpec(_) => w.exists_
    case Delete => w.exists_
    case Vanish => w.exists_ && w.deleting && !w.held
    case OtherWrite => w.exists_
    case DriftLabel(n, _) => n in w.labels
    case LabelGone(n) => n in w.labels
    case SetGone(n) => n in w.sets
    case ClassGone(n) => n in w.classes
    case ReadModule => w.exists_ && w.pass == Idle
    case PatchFinalizer => w.pass.HasRead? && !w.pass.snapshot.deleting && w.pass.snapshot.dra && !w.pass.snapshot.held
    case SkipFinalizer => w.pass.HasRead? && !w.pass.snapshot.deleting && w.pass.snapshot.dra && w.pass.snapshot.held
    case WriteLabel(_) => w.pass == Writing
    case DropLabel(n) => w.pass == Writing && n in w.labels
    case WriteSet(_) => w.pass == Writing
    case WriteClass(_) => w.pass == Writing
    case ListLabels => w.pass.HasRead? && (w.pass.snapshot.deleting || !w.pass.snapshot.dra) && w.pass.snapshot.held
    case RemoveLabel(n, _) => w.pass.Unlabelling? && n in w.pass.nodes
    case LabelsDone => w.pass.Unlabelling? && w.pass.nodes == {} && !w.pass.failed
    case ListSets => w.pass.DeletingSets?
    case ListClasses => w.pass.DeletingClasses?
    case PatchRelease => w.pass.Releasing?
    case EndPass => w.pass != Idle
  }

  function Bumped(w: World): World { w.(version := w.version + 1) }

  /** Deletion requests have no effect of their own: the object goes, if it goes, by a later `SetGone` or `ClassGone`. */
  function Next(w: World, step: Step): World
    requires Enabled(w, step)
  {
    match step
    case Create(dra) => Bumped(w.(exists_ := true, held := false, deleting := false, dra := dra))
    case EditSpec(dra) => Bumped(w.(dra := dra))
    case Delete => Bumped(w.(deleting := true))
    case Vanish => Bumped(w.(exists_ := false))
    case OtherWrite => Bumped(w)
    case DriftLabel(n, v) => w.(labels := w.labels[n := v])
    case LabelGone(n) => w.(labels := w.labels - {n})
    case SetGone(n) => w.(sets := w.sets - {n})
    case ClassGone(n) => w.(classes := w.classes - {n})
    case ReadModule => w.(pass := HasRead(Snapshot(w.version, w.held, w.deleting, w.dra)))
    case PatchFinalizer =>
      if w.exists_ && w.version == w.pass.snapshot.version then Bumped(w.(held := true, pass := Writing)) else w.(pass := Idle)
    case SkipFinalizer => w.(pass := Writing)
    case WriteLabel(n) => w.(labels := w.labels[n := ""])
    case DropLabel(n) => w.(labels := w.labels - {n})
    case WriteSet(n) => w.(sets := w.sets + {n})
    case WriteClass(n) => w.(classes := w.classes + {n})
    case ListLabels => w.(pass := Unlabelling(w.pass.snapshot, w.labels.Keys, false))
    case RemoveLabel(n, fails) =>
      w.(pass := w.pass.(nodes := w.pass.nodes - {n}, failed := w.pass.failed || fails),
         labels := if fails then w.labels else w.labels - {n})
    case LabelsDone => w.(pass := DeletingSets(w.pass.snapshot))
    case ListSets => w.(pass := DeletingClasses(w.pass.snapshot, |w.sets|))
    case ListClasses => w.(pass := if w.pass.setsSeen + |w.classes| > 0 then Idle else Releasing(w.pass.snapshot))
    case PatchRelease =>
      if w.exists_ && w.version == w.pass.snapshot.version then Bumped(w.(held := false, pass := Idle)) else w.(pass := Idle)
    case EndPass => w.(pass := Idle)
  }

  ghost predicate IsRun(w: World, steps: seq<Step>)
    decreases |steps|
  {
    steps == [] || (Enabled(w, steps[0]) && IsRun(Next(w, steps[0]), steps[1..]))
  }

  ghost function After(w: World, steps: seq<Step>): World
    requires IsRun(w, steps)
    decreases |steps|
  {
    if steps == [] then w else After(Next(w, steps[0]), steps[1..])
  }

  const START := World(false, false, false, false, 0, map[], {}, {}, Idle)

  ghost predicate HasResources(w: World) {
    w.labels != map[] || w.sets != {} || w.classes != {}
  }

  ghost predicate IsHeld(w: World) { w.exists_ && w.held }

  /** What a pass may rely on at each point. */
  ghost predicate PassFits(w: World) {
    match w.pass
    case Idle => true
    case HasRead(s) =>
      && s.version <= w.version
      && (s.held ==> IsHeld(w))
      && (w.exists_ && s.version == w.version ==> s.held == w.held && s.deleting == w.deleting)
    case Writing => IsHeld(w)
    case Unlabelling(s, nodes, failed) => IsHeld(w) && (!failed ==> w.labels.Keys <= nodes)
    case DeletingSets(s) => IsHeld(w) && w.labels == map[]
    case DeletingClasses(s, seen) => IsHeld(w) && w.labels == map[] && (seen == 0 ==> w.sets == {})
    case Releasing(s) => IsHeld(w) && !HasResources(w)
  }

  ghost predicate DraInv(w: World) {
    PassFits(w) && (HasResources(w) ==> IsHeld(w))
  }

  lemma StepKeepsDraInv(w: World, step: Step)
    requires DraInv(w) && Enabled(w, step)
    ensures DraInv(Next(w, step))
  {
  }

  lemma {:induction false} RunKeepsDraInv(w: World, steps: seq<Step>)
    requires DraInv(w) && IsRun(w, steps)
    ensures DraInv(After(w, steps))
    decreases |steps|
  {
    if steps != [] {
      StepKeepsDraInv(w, steps[0]);
      RunKeepsDraInv(Next(w, steps[0]), steps[1..]);
    }
  }

  /**
   In every run, with passes cut short after any API call and deletion starting at any time, a node
   label, DaemonSet or DeviceClass of the Module means the Module is there and holds the finalizer.
   */
  lemma FinalizerCoversResources(steps: seq<Step>)
    requires IsRun(START, steps)
    ensures var w := After(START, steps); HasResources(w) ==> w.exists_ && w.held
  {
    RunKeepsDraInv(START, steps);
  }

  /** The finalizer goes, and the Module can vanish, only with nothing left behind. */
  lemma ReleasedOnlyWhenClean(steps: seq<Step>, step: Step)
    requires IsRun(START, steps) && Enabled(After(START, steps), step)
    ensures var w, w' := After(START, steps), Next(After(START, steps), step);
            IsHeld(w) && !IsHeld(w') ==> step == PatchRelease && !HasResources(w')
  {
    RunKeepsDraInv(START, steps);
    StepKeepsDraInv(After(START, steps), step);
  }

  /** A Module that is being deleted is never taken up: no step gives it the finalizer. */
  lemma DeletingIsNeverTakenUp(steps: seq<Step>, step: Step)
    requires IsRun(START, steps) && Enabled(After(START, steps), step)
    ensures var w := After(START, steps); w.exists_ && w.deleting && !w.held ==> !Next(w, step).held
  {
    RunKeepsDraInv(START, steps);
  }

  /** A pass that read another version of the Module, or one that is gone, neither sets nor releases the finalizer: its patch only ends it. */
  lemma StalePatchChangesNothing(w: World, step: Step)
    requires Enabled(w, step) && (step.PatchFinalizer? || step.PatchRelease?)
    requires w.pass.snapshot.version != w.version || !w.exists_
    ensures Next(w, step) == w.(pass := Idle)
  {
  }

  // ----- The pass as it runs -----

  lemma {:induction false} RunExtends(w: World, steps: seq<Step>, step: Step)
    requires IsRun(w, steps) && Enabled(After(w, steps), step)
    ensures IsRun(w, steps + [step]) && After(w, steps + [step]) == Next(After(w, steps), step)
    decreases |steps|
  {
    var all := steps + [step];
    if steps == [] {
      assert all == [step] && all[1..] == [];
    } else {
      assert all[1..] == steps[1..] + [step];
      RunExtends(Next(w, steps[0]), steps[1..], step);
    }
  }

  /** API calls of a pass that fail. */
  datatype Faults = Faults(conflict: bool, nodes: set<string>, deletes: bool)

  /** The reconciler with nobody in between: each API call it makes is a step of the machine above. */
  class DraReconciler {
    var world: World
    ghost var start: World
    ghost var trace: seq<Step>

    ghost predicate Valid()
      reads this
    {
      IsRun(start, trace) && After(start, trace) == world
    }

    method Call(step: Step)
      requires Valid() && Enabled(world, step)
      modifies this`world, this`trace
      ensures Valid() && world == Next(old(world), step)
    {
      RunExtends(start, trace, step);
      trace := trace + [step];
      world := Next(world, step);
    }

    method SetFinalizer(f: Faults) returns (failed: bool)
      requires Valid() && world.exists_ && world.pass == ReadNow(world) && !world.deleting && world.dra
      modifies this`world, this`trace
      ensures Valid() && world.labels == old(world.labels)
      ensures failed <==> f.conflict && !old(world.held)
      ensures if failed then world == old(world).(pass := Idle) else world.pass == Writing && IsHeld(world)
    {
      if world.held {
        Call(SkipFinalizer);
        return false;
      }
      if f.conflict {
        Call(EndPass);
        return true;
      }
      Call(PatchFinalizer);
      return false;
    }

    method UpdateLabel(n: string, wanted: bool)
      requires Valid() && world.pass == Writing
      modifies this`world, this`trace
      ensures Valid() && world == old(world).(labels := Put(old(world.labels), n, if wanted then Some("") else None))
    {
      if wanted {
        Call(WriteLabel(n));
      } else if n in world.labels {
        Call(DropLabel(n));
      } else {
        assert world.labels - {n} == world.labels;
      }
    }

    /** Labels the schedulable nodes of the selector and unlabels the others; a failing node does not stop the rest. */
    method HandleTargetLabels(nodes: map<string, bool>, f: Faults) returns (failed: bool)
      requires Valid() && world.pass == Writing
      modifies this`world, this`trace
      ensures Valid() && world == old(world).(labels := world.labels)
      ensures failed <==> exists n :: n in nodes && n in f.nodes
      ensures forall n :: n in nodes && n !in f.nodes ==> Lookup(world.labels, n) == if nodes[n] then Some("") else None
      ensures forall n :: n !in nodes || n in f.nodes ==> Lookup(world.labels, n) == Lookup(old(world.labels), n)
    {
      var rest := nodes.Keys;
      failed := false;
      ghost var labels := world.labels;
      while rest != {}
        invariant Valid() && world == old(world).(labels := world.labels) && rest <= nodes.Keys
        invariant failed <==> exists n :: n in nodes && n !in rest && n in f.nodes
        invariant LabelledSoFar(world.labels, labels, nodes, f.nodes, rest)
        decreases rest
      {
        var n :| n in rest;
        LabelStep(world.labels, labels, nodes, f.nodes, rest, n);
        if n in f.nodes {
          failed := true;
        } else {
          UpdateLabel(n, nodes[n]);
        }
        rest := rest - {n};
      }
    }

    /** Removes the label from every node that carries it, whatever its value. */
    method RemoveTargetLabels(f: Faults) returns (failed: bool)
      requires Valid() && world.exists_ && world.pass == ReadNow(world) && (world.deleting || !world.dra) && world.held
      modifies this`world, this`trace
      ensures Valid() && world == old(world).(labels := world.labels, pass := Unlabelling(old(world.pass.snapshot), {}, failed))
      ensures failed <==> exists n :: n in old(world.labels) && n in f.nodes
      ensures forall n :: n in world.labels <==> n in old(world.labels) && n in f.nodes
    {
      ghost var s := world.pass.snapshot;
      ghost var labels := world.labels;
      var rest := world.labels.Keys;
      failed := false;
      Call(ListLabels);
      while rest != {}
        invariant Valid() && rest <= labels.Keys
        invariant world == old(world).(labels := world.labels, pass := Unlabelling(s, rest, failed))
        invariant failed <==> exists n :: n in labels && n !in rest && n in f.nodes
        invariant forall n :: n in world.labels <==> n in labels && (n in rest || n in f.nodes)
        decreases rest
      {
        var n :| n in rest;
        Call(RemoveLabel(n, n in f.nodes));
        failed := failed || n in f.nodes;
        rest := rest - {n};
      }
    }

    /** Counts what is still there and releases the Module when that is nothing. */
    method DeleteAndRelease(f: Faults)
      requires Valid() && world.exists_ && world.held && world.pass.DeletingSets? && world.pass.snapshot.version == world.version
      modifies this`world, this`trace
      ensures Valid() && world.labels == old(world.labels) && world.sets == old(world.sets) && world.classes == old(world.classes)
      ensures world.pass == Idle
      ensures !world.held <==> world.sets == {} && world.classes == {} && !f.deletes && !f.conflict
    {
      Call(ListSets);
      if f.deletes {
        Call(EndPass);
        return;
      }
      Call(ListClasses);
      if world.pass == Idle {
        return;
      }
      Release(f);
    }

    method Release(f: Faults)
      requires Valid() && world.exists_ && world.held && world.pass.Releasing? && world.pass.snapshot.version == world.version
      modifies this`world, this`trace
      ensures Valid() && world == (if f.conflict then old(world).(pass := Idle) else old(world).(held := false, pass := Idle, version := old(world.version) + 1))
    {
      if f.conflict {
        Call(EndPass);
        return;
      }
      Call(PatchRelease);
    }

    /** Releases the Module exactly when it finds no DaemonSet and no DeviceClass left and no call failed. */
    method FinalizeModule(f: Faults)
      requires Valid() && world.exists_ && world.pass == ReadNow(world) && (world.deleting || !world.dra)
      modifies this`world, this`trace
      ensures Valid() && world.pass == Idle && world.sets == old(world.sets) && world.classes == old(world.classes)
      ensures !old(world.held) ==> world == old(world).(pass := Idle)
      ensures old(world.held) ==>
                (!world.held <==> old(world.sets) == {} && old(world.classes) == {} && !f.deletes && !f.conflict && forall n :: n in old(world.labels) ==> n !in f.nodes)
      ensures old(world.held) && !world.held ==> !HasResources(world)
    {
      if !world.held {
        Call(EndPass);
        return;
      }
      var failed := RemoveTargetLabels(f);
      if failed {
        Call(EndPass);
        return;
      }
      assert world.labels == map[];
      Call(LabelsDone);
      DeleteAndRelease(f);
    }
  }

  function ReadNow(w: World): Pass { HasRead(Snapshot(w.version, w.held, w.deleting, w.dra)) }

  function TargetLabel(labels: map<string, string>, nodes: map<string, bool>, failing: set<string>, n: string): Option<string> {
    if n !in nodes || n in failing then Lookup(labels, n) else if nodes[n] then Some("") else None
  }

  ghost predicate LabelledSoFar(now: map<string, string>, before: map<string, string>, nodes: map<string, bool>, failing: set<string>, rest: set<string>) {
    forall n :: Lookup(now, n) == if n in rest then Lookup(before, n) else TargetLabel(before, nodes, failing, n)
  }

  lemma LabelStep(now: map<string, string>, before: map<string, string>, nodes: map<string, bool>, failing: set<string>, rest: set<string>, n: string)
    requires LabelledSoFar(now, before, nodes, failing, rest) && n in rest && n in nodes
    ensures LabelledSoFar(if n in failing then now else Put(now, n, if nodes[n] then Some("") else None), before, nodes, failing, rest - {n})
  {
  }
}
