/**
 One finalizer list shared by three controllers, each of which reads the Module and later patches
 the whole list back under an optimistic lock (internal/controllers/module_reconciler.go:223-243,
 286-290, internal/controllers/dra_reconciler.go:195-236,
 internal/controllers/device_plugin_reconciler.go:185-219).
 */
module Finalizers {
  datatype Controller = ModuleController | DevicePluginController | DraController

  function Own(c: Controller): string {
    match c
    case ModuleController => "kmm.node.kubernetes.io/module-finalizer"
    case DevicePluginController => "kmm.node.kubernetes.io/device-plugin-finalizer"
    case DraController => "kmm.node.kubernetes.io/dra-finalizer"
  }

  lemma OwnIsInjective(c: Controller, d: Controller)
    requires Own(c) == Own(d)
    ensures c == d
  {
    assert |Own(ModuleController)| == 39 && |Own(DevicePluginController)| == 46 && |Own(DraController)| == 36;
  }

  // ----- Atomic specification -----

  datatype Op = AddOwn(controller: Controller) | RemoveOwn(controller: Controller)

  function Without(list: seq<string>, f: string): (r: seq<string>)
    ensures f !in r && forall g :: g != f ==> (g in r <==> g in list)
  {
    if list == [] then [] else if list[0] == f then Without(list[1..], f) else [list[0]] + Without(list[1..], f)
  }

  function Applied(list: seq<string>, op: Op): seq<string> {
    match op
    case AddOwn(c) => if Own(c) in list then list else list + [Own(c)]
    case RemoveOwn(c) => Without(list, Own(c))
  }

  /** What happens to the list: one of our operations, or anybody else rewriting the rest of it. */
  datatype Change = Ours(op: Op) | Theirs(list: seq<string>)

  function Changed(list: seq<string>, c: Change): seq<string> {
    match c
    case Ours(op) => Applied(list, op)
    case Theirs(l) => l
  }

  function ChangedAll(list: seq<string>, changes: seq<Change>): seq<string>
    decreases |changes|
  {
    if changes == [] then list else ChangedAll(Changed(list, changes[0]), changes[1..])
  }

  /** Others neither add nor drop our finalizers; everything else in the list is theirs to change. */
  ghost predicate LeavesOurs(list: seq<string>, list': seq<string>) {
    forall c :: Own(c) in list' <==> Own(c) in list
  }

  ghost predicate CanChange(list: seq<string>, changes: seq<Change>)
    decreases |changes|
  {
    changes == [] || ((changes[0].Theirs? ==> LeavesOurs(list, changes[0].list)) && CanChange(Changed(list, changes[0]), changes[1..]))
  }

  // ----- Read and patch -----

  /** What a controller has read and what it means to write. */
  datatype Pending = Pending(version: nat, list: seq<string>, op: Op)

  datatype World = World(list: seq<string>, version: nat, pending: map<Controller, Pending>)

  datatype Step =
    | Read(op: Op)
    | Patch(controller: Controller)
    | GiveUp(controller: Controller)
    | OtherWrite(list: seq<string>)

  ghost predicate Enabled(w: World, step: Step) {
    match step
    case Read(op) => op.controller !in w.pending
    case Patch(c) => c in w.pending
    case GiveUp(c) => c in w.pending
    case OtherWrite(list) => LeavesOurs(w.list, list)
  }

  /** The whole list as read, edited, replaces the server's list if no write came in between; otherwise the patch is a conflict. */
  ghost function Next(w: World, step: Step): World
    requires Enabled(w, step)
  {
    match step
    case Read(op) => w.(pending := w.pending[op.controller := Pending(w.version, w.list, op)])
    case GiveUp(c) => w.(pending := w.pending - {c})
    case OtherWrite(list) => w.(list := list, version := w.version + 1)
    case Patch(c) =>
      var p := w.pending[c];
      if p.version == w.version then World(Applied(p.list, p.op), w.version + 1, w.pending - {c})
      else w.(pending := w.pending - {c})
  }

  ghost predicate IsRun(w: World, steps: seq<Step>)
    decreases |steps|
  {
    steps == [] || (Enabled(w, steps[0]) && IsRun(Next(w, steps[0]), steps[1..]))
  }

  ghost function After(w: World, steps: seq<Step>): World
    requires IsRun(w, steps)
    decreases |steps|
  {
    if steps == [] then w else After(Next(w, steps[0]), steps[1..])
  }

  /** The atomic change a step amounts to, if any. */
  ghost function Effect(w: World, step: Step): seq<Change>
    requires Enabled(w, step)
  {
    if step.OtherWrite? then [Theirs(step.list)]
    else if step.Patch? && w.pending[step.controller].version == w.version then [Ours(w.pending[step.controller].op)]
    else []
  }

  ghost function Effects(w: World, steps: seq<Step>): seq<Change>
    requires IsRun(w, steps)
    decreases |steps|
  {
    if steps == [] then [] else Effect(w, steps[0]) + Effects(Next(w, steps[0]), steps[1..])
  }

  /** A snapshot of the current version is the current list. */
  ghost predicate SnapshotsFit(w: World) {
    forall c :: c in w.pending ==>
      && w.pending[c].op.controller == c
      && w.pending[c].version <= w.version
      && (w.pending[c].version == w.version ==> w.pending[c].list == w.list)
  }

  lemma StepIsAtomic(w: World, step: Step)
    requires SnapshotsFit(w) && Enabled(w, step)
    ensures SnapshotsFit(Next(w, step))
    ensures Next(w, step).list == ChangedAll(w.list, Effect(w, step)) && CanChange(w.list, Effect(w, step))
  {
    var effect := Effect(w, step);
    if effect != [] {
      assert effect[1..] == [];
      assert ChangedAll(w.list, effect) == ChangedAll(Changed(w.list, effect[0]), []);
    }
  }

  lemma {:induction false} ChangedAllConcat(list: seq<string>, a: seq<Change>, b: seq<Change>)
    ensures ChangedAll(list, a + b) == ChangedAll(ChangedAll(list, a), b)
    ensures CanChange(list, a) && CanChange(ChangedAll(list, a), b) ==> CanChange(list, a + b)
    decreases |a|
  {
    if a == [] {
      assert a + b == b;
    } else {
      assert (a + b)[1..] == a[1..] + b;
      ChangedAllConcat(Changed(list, a[0]), a[1..], b);
    }
  }

  /** Every interleaving is a run of atomic changes, ours on the real list at the time of each. */
  lemma {:induction false} InterleavingsAreAtomic(w: World, steps: seq<Step>)
    requires SnapshotsFit(w) && IsRun(w, steps)
    ensures After(w, steps).list == ChangedAll(w.list, Effects(w, steps)) && CanChange(w.list, Effects(w, steps))
    decreases |steps|
  {
    if steps != [] {
      var w1 := Next(w, steps[0]);
      StepIsAtomic(w, steps[0]);
      InterleavingsAreAtomic(w1, steps[1..]);
      ChangedAllConcat(w.list, Effect(w, steps[0]), Effects(w1, steps[1..]));
    }
  }

  /** The interleaving that performs the changes one after the other. */
  function Sequential(changes: seq<Change>): seq<Step> {
    if changes == [] then []
    else
      (match changes[0]
       case Ours(op) => [Read(op), Patch(op.controller)]
       case Theirs(list) => [OtherWrite(list)])
      + Sequential(changes[1..])
  }

  /** Every run of atomic changes is an interleaving. */
  lemma {:induction false} AtomicRunsAreInterleavings(w: World, changes: seq<Change>)
    requires w.pending == map[] && CanChange(w.list, changes)
    ensures IsRun(w, Sequential(changes)) && Effects(w, Sequential(changes)) == changes
    decreases |changes|
  {
    if changes != [] {
      var steps, rest := Sequential(changes), Sequential(changes[1..]);
      match changes[0]
      case Ours(op) =>
        var w1 := Next(w, Read(op));
        var w2 := Next(w1, Patch(op.controller));
        assert steps[1..][1..] == rest && w2.pending == map[];
        AtomicRunsAreInterleavings(w2, changes[1..]);
        assert Effects(w, steps) == Effect(w, steps[0]) + Effects(w1, steps[1..]);
        assert Effects(w1, steps[1..]) == [changes[0]] + Effects(w2, rest);
      case Theirs(list) =>
        var w1 := Next(w, OtherWrite(list));
        assert steps[1..] == rest;
        AtomicRunsAreInterleavings(w1, changes[1..]);
        assert Effects(w, steps) == [changes[0]] + Effects(w1, rest);
    }
  }

  // ----- Nobody touches another's finalizer -----

  lemma {:induction false} WithoutCommutes(list: seq<string>, f: string, g: string)
    ensures Without(Without(list, f), g) == Without(Without(list, g), f)
  {
    if list != [] {
      WithoutCommutes(list[1..], f, g);
    }
  }

  lemma {:induction false} WithoutTwice(list: seq<string>, f: string)
    ensures Without(Without(list, f), f) == Without(list, f)
  {
    if list != [] {
      WithoutTwice(list[1..], f);
    }
  }

  lemma {:induction false} WithoutAppended(list: seq<string>, f: string, g: string)
    ensures Without(list + [g], f) == Without(list, f) + if f == g then [] else [g]
  {
    if list == [] {
      assert list + [g] == [g];
    } else {
      assert (list + [g])[1..] == list[1..] + [g];
      WithoutAppended(list[1..], f, g);
    }
  }

  /** An operation leaves everybody else's finalizers as they are, in the same order; afterwards its own is there exactly when it was an addition. */
  lemma OpTouchesOwnOnly(list: seq<string>, op: Op)
    ensures Own(op.controller) in Applied(list, op) <==> op.AddOwn?
    ensures Without(Applied(list, op), Own(op.controller)) == Without(list, Own(op.controller))
  {
    var f := Own(op.controller);
    WithoutAppended(list, f, f);
    WithoutTwice(list, f);
  }

  /** The list without the finalizers of all three controllers. */
  function Foreign(list: seq<string>): seq<string> {
    Without(Without(Without(list, Own(ModuleController)), Own(DevicePluginController)), Own(DraController))
  }

  lemma OpKeepsForeign(list: seq<string>, op: Op)
    ensures Foreign(Applied(list, op)) == Foreign(list)
  {
    var list' := Applied(list, op);
    OpTouchesOwnOnly(list, op);
    var m, p, d := Own(ModuleController), Own(DevicePluginController), Own(DraController);
    ForeignAnyOrder(list, m, p, d);
    ForeignAnyOrder(list', m, p, d);
  }

  lemma ForeignAnyOrder(list: seq<string>, m: string, p: string, d: string)
    ensures Without(Without(Without(list, m), p), d) == Without(Without(Without(list, p), m), d)
    ensures Without(Without(Without(list, m), p), d) == Without(Without(Without(list, d), m), p)
  {
    WithoutCommutes(list, m, p);
    WithoutCommutes(Without(list, m), p, d);
    WithoutCommutes(list, m, d);
  }

  /** The foreign part of the list as the last foreign writer left it. */
  function LastForeign(list: seq<string>, changes: seq<Change>): seq<string>
    decreases |changes|
  {
    if changes == [] then Foreign(list) else LastForeign(if changes[0].Theirs? then changes[0].list else list, changes[1..])
  }

  lemma {:induction false} ChangesOnOwnOnly(list: seq<string>, changes: seq<Change>, c: Controller)
    requires CanChange(list, changes) && (forall ch :: ch in changes && ch.Ours? ==> ch.op.controller != c)
    ensures Own(c) in ChangedAll(list, changes) <==> Own(c) in list
    decreases |changes|
  {
    if changes != [] {
      var ch := changes[0];
      assert ch in changes;
      if ch.Ours? && Own(c) == Own(ch.op.controller) {
        OwnIsInjective(c, ch.op.controller);
      }
      ChangesOnOwnOnly(Changed(list, ch), changes[1..], c);
    }
  }

  lemma {:induction false} ForeignIsTheirs(list: seq<string>, other: seq<string>, changes: seq<Change>)
    requires Foreign(list) == Foreign(other)
    ensures Foreign(ChangedAll(list, changes)) == LastForeign(other, changes)
    decreases |changes|
  {
    if changes != [] {
      var ch := changes[0];
      if ch.Ours? {
        OpKeepsForeign(list, ch.op);
        ForeignIsTheirs(Changed(list, ch), other, changes[1..]);
      } else {
        ForeignIsTheirs(ch.list, ch.list, changes[1..]);
      }
    }
  }

  lemma {:induction false} EffectsAreOwn(w: World, steps: seq<Step>, c: Controller)
    requires SnapshotsFit(w) && IsRun(w, steps) && Patch(c) !in steps
    ensures forall ch :: ch in Effects(w, steps) && ch.Ours? ==> ch.op.controller != c
    decreases |steps|
  {
    if steps != [] {
      StepIsAtomic(w, steps[0]);
      assert steps[0] in steps;
      EffectsAreOwn(Next(w, steps[0]), steps[1..], c);
    }
  }

  /**
   However the others interleave, and whatever foreign writers do to their part of the list, a
   finalizer is neither dropped nor restored while its own controller does not patch, and the foreign
   part is what the last foreign writer wrote.
   */
  lemma NobodyTouchesAnothers(w: World, steps: seq<Step>, c: Controller)
    requires SnapshotsFit(w) && IsRun(w, steps) && Patch(c) !in steps
    ensures Own(c) in After(w, steps).list <==> Own(c) in w.list
    ensures Foreign(After(w, steps).list) == LastForeign(w.list, Effects(w, steps))
  {
    InterleavingsAreAtomic(w, steps);
    EffectsAreOwn(w, steps, c);
    ChangesOnOwnOnly(w.list, Effects(w, steps), c);
    ForeignIsTheirs(w.list, w.list, Effects(w, steps));
  }

  // ----- Without the lock -----

  /** The patch as it would be without the version check. */
  ghost function BlindPatch(w: World, c: Controller): World
    requires c in w.pending
  {
    World(Applied(w.pending[c].list, w.pending[c].op), w.version + 1, w.pending - {c})
  }

  /**
   The lock matters: of two controllers that read the same version, the second to patch undoes the
   first when it does not check the version, and changes nothing when it does.
   */
  lemma BlindPatchUndoes(w: World, c: Controller, d: Controller)
    requires SnapshotsFit(w) && c != d && c in w.pending && d in w.pending
    requires w.pending[c].version == w.version == w.pending[d].version
    ensures var first := Next(w, Patch(c));
            && (Own(c) in BlindPatch(first, d).list <==> Own(c) in w.list)
            && Next(first, Patch(d)).list == first.list == Applied(w.list, w.pending[c].op)
  {
    if Own(c) == Own(d) {
      OwnIsInjective(c, d);
    }
    StepIsAtomic(w, Patch(c));
  }
}
