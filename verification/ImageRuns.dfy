/** What every run of the image pipeline keeps: generations are isolated, and `Exists` has a cause. */
module ImageRuns {
  import opened Basics
  import opened KernelNames
  import opened ImagePipeline

  // ----- Generation isolation -----

  ghost predicate MbscIsCurrent(mbsc: Option<Mbsc>, log: History) {
    mbsc.Some? ==>
      && Lookup(log.births, mbsc.value.uid) == Some(log.adoptions)
      && forall e :: e in mbsc.value.results ==> e.owner == mbsc.value.uid
  }

  ghost predicate UsesAreCurrent(log: History) {
    forall u :: u in log.uses ==> u.birth == Some(u.adoption)
  }

  ghost predicate GenInv(w: World) {
    && (forall u :: u in w.log.births ==> u < w.nextUid)
    && MbscIsCurrent(w.mbsc, w.log)
    && UsesAreCurrent(w.log)
  }

  lemma {:induction false} ImagesKeepGenInv(w: World, images: seq<ImageSpec>, listed: seq<PullPod>, refused: set<string>)
    requires GenInv(w)
    ensures GenInv(ImagesPhase(w, images, listed, refused))
    decreases |images|
  {
    if images != [] {
      ImagesKeepGenInv(ImageStep(w, images[0], listed, refused), images[1..], listed, refused);
    }
  }

  lemma {:induction false} CollectedOwners(pods: map<PodName, BuildPod>, uid: nat, tasks: seq<Task>, results: seq<ResultEntry>)
    requires forall e :: e in results ==> e.owner == uid
    ensures forall e :: e in Collected(pods, uid, tasks, results) ==> e.owner == uid
    decreases |tasks|
  {
    if tasks != [] {
      CollectedOwners(pods, uid, tasks[1..], CollectStep(pods, uid, tasks[0], results));
    }
  }

  lemma MicKeepsGenInv(w: World, f: MicFaults)
    requires GenInv(w)
    ensures GenInv(MicPass(w, f))
  {
    if w.mic.trigger == w.mic.adopted && !PullsFail(w, f) {
      var w2 := AfterResults(AfterPulls(w, f), f);
      assert GenInv(w2);
      ImagesKeepGenInv(w2, w2.mic.images, w.pullPods, f.calls);
    }
  }

  lemma StepKeepsGenInv(w: World, step: Step)
    requires GenInv(w) && Enabled(w, step)
    ensures GenInv(Next(w, step))
  {
    match step
    case MicReconcile(f) =>
      MicKeepsGenInv(w, f);
    case MbscReconcile(f) =>
      if w.mbsc.Some? {
        var m := w.mbsc.value;
        CollectedOwners(w.pods - f.lists, m.uid, m.tasks, m.results);
      }
    case _ =>
  }

  lemma {:induction false} RunKeepsGenInv(w: World, steps: seq<Step>)
    requires GenInv(w) && IsRun(w, steps)
    ensures GenInv(After(w, steps))
    decreases |steps|
  {
    if steps != [] {
      StepKeepsGenInv(w, steps[0]);
      RunKeepsGenInv(Next(w, steps[0]), steps[1..]);
    }
  }

  /**
   In every run, edits of the image list and failures between the MBSC deletion and the status patch
   included, a build or sign result reaches the MIC status only in the generation in which the MBSC
   that owns the pod was created.
   */
  lemma GenerationsAreIsolated(images: seq<ImageSpec>, trigger: Option<int>, steps: seq<Step>)
    requires IsRun(Start(images, trigger), steps)
    ensures forall u :: u in After(Start(images, trigger), steps).log.uses ==> u.birth == Some(u.adoption)
  {
    RunKeepsGenInv(Start(images, trigger), steps);
  }

  /** The history only grows: a birth is never rewritten and a use never forgotten. */
  ghost predicate Extends(log: History, log': History) {
    && log.pulled <= log'.pulled && log.made <= log'.made && log.uses <= log'.uses && log.adoptions <= log'.adoptions
    && forall u :: u in log.births ==> Lookup(log'.births, u) == Some(log.births[u])
  }

  lemma {:induction false} ImagesExtendLog(w: World, images: seq<ImageSpec>, listed: seq<PullPod>, refused: set<string>)
    requires forall u :: u in w.log.births ==> u < w.nextUid
    ensures Extends(w.log, ImagesPhase(w, images, listed, refused).log)
    decreases |images|
  {
    if images != [] {
      ImagesExtendLog(ImageStep(w, images[0], listed, refused), images[1..], listed, refused);
    }
  }

  lemma StepExtendsLog(w: World, step: Step)
    requires GenInv(w) && Enabled(w, step)
    ensures Extends(w.log, Next(w, step).log)
  {
    if step.MicReconcile? && w.mic.trigger == w.mic.adopted && !PullsFail(w, step.micFaults) {
      var f := step.micFaults;
      var w2 := AfterResults(AfterPulls(w, f), f);
      ImagesExtendLog(w2, w2.mic.images, w.pullPods, f.calls);
    }
  }

  /** A pass in which neither the MBSC deletion nor the adopting patch fails. */
  predicate CanAdopt(step: Step) {
    step.MicReconcile? && !step.micFaults.mbscDelete && !step.micFaults.adoptPatch
  }

  lemma {:induction false} ImagesKeepTrigger(w: World, images: seq<ImageSpec>, listed: seq<PullPod>, refused: set<string>)
    ensures var w' := ImagesPhase(w, images, listed, refused);
            w'.log.adoptions == w.log.adoptions && w'.mic == w.mic
    decreases |images|
  {
    if images != [] {
      ImagesKeepTrigger(ImageStep(w, images[0], listed, refused), images[1..], listed, refused);
    }
  }

  lemma StepOnTrigger(w: World, step: Step)
    requires Enabled(w, step) && !step.SetTrigger?
    ensures var w' := Next(w, step);
            var adopts := w.mic.trigger != w.mic.adopted && CanAdopt(step);
            && w'.mic.trigger == w.mic.trigger
            && w'.mic.adopted == (if adopts then w.mic.trigger else w.mic.adopted)
            && w'.log.adoptions == w.log.adoptions + if adopts then 1 else 0
  {
    if step.MicReconcile? && w.mic.trigger == w.mic.adopted && !PullsFail(w, step.micFaults) {
      var f := step.micFaults;
      var w2 := AfterResults(AfterPulls(w, f), f);
      ImagesKeepTrigger(w2, w2.mic.images, w.pullPods, f.calls);
    }
  }

  /** While the trigger stays put, it is adopted by the first pass that can, and never again. */
  lemma {:induction false} AdoptedExactlyOnce(w: World, steps: seq<Step>)
    requires IsRun(w, steps) && (forall s :: s in steps ==> !s.SetTrigger?)
    ensures var w' := After(w, steps);
            var adopts := w.mic.trigger != w.mic.adopted && exists s :: s in steps && CanAdopt(s);
            && w'.mic.trigger == w.mic.trigger
            && w'.mic.adopted == (if adopts then w.mic.trigger else w.mic.adopted)
            && w'.log.adoptions == w.log.adoptions + if adopts then 1 else 0
    decreases |steps|
  {
    if steps != [] {
      StepOnTrigger(w, steps[0]);
      AdoptedExactlyOnce(Next(w, steps[0]), steps[1..]);
      assert steps == [steps[0]] + steps[1..];
      assert (exists s :: s in steps && CanAdopt(s)) <==> CanAdopt(steps[0]) || exists s :: s in steps[1..] && CanAdopt(s);
    }
  }

  /**
   The new trigger is on record only with no MBSC and no image state left. The MBSC goes first, so a
   failing patch leaves the old states without it; and whatever fails, no result is used and nothing is
   started.
   */
  lemma AdoptingPassStartsOver(w: World, f: MicFaults)
    requires w.mic.trigger != w.mic.adopted
    ensures var w' := MicPass(w, f);
            && (w'.mic.adopted != w.mic.adopted ==> w'.mic.adopted == w.mic.trigger && w'.mbsc == None && w'.mic.states == [])
            && (w'.mic.adopted == w.mic.adopted ==> w'.mic == w.mic && (f.mbscDelete ==> w'.mbsc == w.mbsc))
            && (!f.mbscDelete ==> w'.mbsc == None)
            && w'.log.uses == w.log.uses && w'.pullPods == w.pullPods && w'.pods == w.pods && w'.nextUid == w.nextUid
  {
  }

  // ----- Order of pull pods -----

  ghost predicate DistinctPulls(pods: seq<PullPod>) {
    forall i, j :: 0 <= i < j < |pods| ==> pods[i].image != pods[j].image
  }

  lemma PullPodStepReads(images: seq<ImageSpec>, pod: PullPod, states: seq<StateEntry>, other: string)
    ensures var r := SpecOf(images, pod.image);
            var state := if r.None? then None else PullPodState(r.value, GetPullPodStatus(pod));
            StateOf(PullPodStep(images, pod, states), other) == if other == pod.image && state.Some? then state else StateOf(states, other)
  {
    var r := SpecOf(images, pod.image);
    if r.Some? && PullPodState(r.value, GetPullPodStatus(pod)).Some? {
      SetStateReads(states, pod.image, PullPodState(r.value, GetPullPodStatus(pod)).value, other);
    }
  }

  /** With one pod per image, an image reads what its own pod makes of it, or what it read before. */
  lemma {:induction false} PulledStateOf(images: seq<ImageSpec>, pods: seq<PullPod>, states: seq<StateEntry>, image: string)
    requires DistinctPulls(pods)
    ensures forall p :: p in pods && p.image == image ==>
              StateOf(PulledStates(images, pods, states), image) == StateOf(PullPodStep(images, p, states), image)
    ensures !HasPullPod(pods, image) ==> StateOf(PulledStates(images, pods, states), image) == StateOf(states, image)
    decreases |pods|
  {
    if pods != [] {
      var p, rest := pods[0], pods[1..];
      var states' := PullPodStep(images, p, states);
      assert pods == [p] + rest;
      PulledStateOf(images, rest, states', image);
      PullPodStepReads(images, p, states, image);
      if p.image == image {
        assert !HasPullPod(rest, image);
      }
      forall q | q in rest && q.image == image
        ensures StateOf(PullPodStep(images, q, states'), image) == StateOf(PullPodStep(images, q, states), image)
      {
        assert p.image != image;
        PullPodStepReads(images, q, states', image);
        PullPodStepReads(images, q, states, image);
      }
    }
  }

  /** The states do not depend on the order in which pull pods of distinct images are listed. */
  lemma PullPodsConfluent(images: seq<ImageSpec>, pods: seq<PullPod>, pods': seq<PullPod>, states: seq<StateEntry>, image: string)
    requires DistinctPulls(pods) && DistinctPulls(pods') && (forall p :: p in pods <==> p in pods')
    ensures StateOf(PulledStates(images, pods, states), image) == StateOf(PulledStates(images, pods', states), image)
  {
    PulledStateOf(images, pods, states, image);
    PulledStateOf(images, pods', states, image);
  }

  // ----- Provenance -----

  /** What makes an image exist when it is not pulled: signing when it has a sign section, building otherwise. */
  function LastAction(spec: ImageSpec): Action { if spec.sign.Some? then SignImage else BuildImage }

  /** A pod made for `other` has the name of `spec`'s pod for its last action. */
  predicate CanPassFor(other: ImageSpec, spec: ImageSpec) {
    && other.image != spec.image && DnsSafe(other.kernel) == DnsSafe(spec.kernel)
    && (spec.build || spec.sign.Some?) && MakeTemplate(Task(other, LastAction(spec))) == Template
  }

  /** One spec per image, as filtering leaves the list. */
  ghost predicate OneSpecEach(images: seq<ImageSpec>) {
    forall s, t :: s in images && t in images && s.image == t.image ==> s == t
  }

  /** No image's pod can pass for another's; distinct DNS-safe kernels are enough. */
  ghost predicate NonePasses(images: seq<ImageSpec>) {
    forall s, t :: s in images && t in images ==> !CanPassFor(t, s)
  }

  ghost predicate ImagesSeparate(images: seq<ImageSpec>) { OneSpecEach(images) && NonePasses(images) }

  ghost predicate HasSign(images: seq<ImageSpec>, image: string) {
    exists s :: s in images && s.image == image && s.sign.Some?
  }

  ghost predicate HasBuild(images: seq<ImageSpec>, image: string) {
    exists s :: s in images && s.image == image && s.build
  }

  /** A pod of the current generation finished the image's last action. */
  ghost predicate MadeFor(spec: ImageSpec, u: nat, log: History) {
    Made(LastAction(spec), u, spec.image) in log.made && Lookup(log.births, u) == Some(log.adoptions)
  }

  ghost predicate Justified(images: seq<ImageSpec>, log: History, image: string) {
    image in log.pulled || exists s, u :: s in images && s.image == image && MadeFor(s, u, log)
  }

  ghost predicate StatesOk(states: seq<StateEntry>, images: seq<ImageSpec>, log: History) {
    forall e :: e in states ==>
      && (e.state == Exists ==> Justified(images, log, e.image))
      && (e.state == NeedsSigning ==> HasSign(images, e.image))
      && (e.state == NeedsBuilding ==> HasBuild(images, e.image))
  }

  ghost predicate PullPodsOk(pods: seq<PullPod>, log: History) {
    forall p :: p in pods && p.phase == Succeeded ==> p.image in log.pulled
  }

  ghost predicate PodOk(n: PodName, pod: BuildPod, images: seq<ImageSpec>, log: History) {
    && (pod.phase == Succeeded ==> Made(n.action, pod.owner, pod.image) in log.made)
    && exists s :: s in images && s.image == pod.image && DnsSafe(s.kernel) == n.kernel && MakeTemplate(Task(s, n.action)) == Template
  }

  ghost predicate PodsOk(pods: map<PodName, BuildPod>, images: seq<ImageSpec>, log: History) {
    forall n :: n in pods ==> PodOk(n, pods[n], images, log)
  }

  ghost predicate TasksOk(tasks: seq<Task>, images: seq<ImageSpec>) {
    forall t :: t in tasks ==> t.spec in images && (t.action == SignImage ==> t.spec.sign.Some?) && (t.spec.build || t.spec.sign.Some?)
  }

  ghost predicate ResultOk(e: ResultEntry, images: seq<ImageSpec>, log: History) {
    && (forall s :: s in images && s.image == e.image && e.outcome == Success && e.action == LastAction(s) ==>
          Made(e.action, e.owner, e.image) in log.made)
    && (e.action == SignImage ==> HasSign(images, e.image))
  }

  ghost predicate ResultsOk(results: seq<ResultEntry>, images: seq<ImageSpec>, log: History) {
    forall e :: e in results ==> ResultOk(e, images, log)
  }

  ghost predicate ProvInv(w: World) {
    && GenInv(w) && ImagesSeparate(w.mic.images)
    && StatesOk(w.mic.states, w.mic.images, w.log)
    && PullPodsOk(w.pullPods, w.log)
    && PodsOk(w.pods, w.mic.images, w.log)
    && (w.mbsc.Some? ==> TasksOk(w.mbsc.value.tasks, w.mic.images) && ResultsOk(w.mbsc.value.results, w.mic.images, w.log))
  }

  lemma {:induction false} PulledStatesOk(images: seq<ImageSpec>, pods: seq<PullPod>, states: seq<StateEntry>, log: History)
    requires StatesOk(states, images, log) && PullPodsOk(pods, log)
    ensures StatesOk(PulledStates(images, pods, states), images, log)
    decreases |pods|
  {
    if pods != [] {
      var pod := pods[0];
      assert pod in pods;
      assert GetPullPodStatus(pod) == PullSuccess ==> pod.image in log.pulled;
      PulledStatesOk(images, pods[1..], PullPodStep(images, pod, states), log);
    }
  }

  lemma ResultStepOk(images: seq<ImageSpec>, e: ResultEntry, states: seq<StateEntry>, log: History)
    requires OneSpecEach(images) && StatesOk(states, images, log) && ResultOk(e, images, log)
    requires Lookup(log.births, e.owner) == Some(log.adoptions)
    ensures StatesOk(ResultStep(images, e, states), images, log)
  {
    var spec := SpecOf(images, e.image);
    if spec.Some? && e.outcome == Success {
      assert e.action == SignImage ==> spec.value.sign.Some?;
      if ResultState(spec.value, e) == Exists {
        assert MadeFor(spec.value, e.owner, log);
        assert Justified(images, log, e.image);
      }
    }
  }

  lemma {:induction false} ResultStatesOk(images: seq<ImageSpec>, results: seq<ResultEntry>, states: seq<StateEntry>, log: History)
    requires OneSpecEach(images) && StatesOk(states, images, log) && ResultsOk(results, images, log)
    requires forall e :: e in results ==> Lookup(log.births, e.owner) == Some(log.adoptions)
    ensures StatesOk(ResultStates(images, results, states), images, log)
    decreases |results|
  {
    if results != [] {
      assert results[0] in results;
      ResultStepOk(images, results[0], states, log);
      ResultStatesOk(images, results[1..], ResultStep(images, results[0], states), log);
    }
  }

  /** A fresh MBSC uid takes no earlier cause away. */
  lemma BirthKeepsStates(states: seq<StateEntry>, images: seq<ImageSpec>, log: History, uid: nat)
    requires StatesOk(states, images, log) && uid !in log.births
    ensures StatesOk(states, images, log.(births := log.births[uid := log.adoptions]))
  {
    var log' := log.(births := log.births[uid := log.adoptions]);
    forall image | Justified(images, log, image)
      ensures Justified(images, log', image)
    {
      if image !in log.pulled {
        var s, u :| s in images && s.image == image && MadeFor(s, u, log);
        assert MadeFor(s, u, log');
      }
    }
  }

  lemma ImageStepOk(w: World, spec: ImageSpec, listed: seq<PullPod>, refused: set<string>)
    requires ProvInv(w) && spec in w.mic.images
    ensures ProvInv(ImageStep(w, spec, listed, refused))
  {
    if w.mbsc.None? {
      BirthKeepsStates(w.mic.states, w.mic.images, w.log, w.nextUid);
    }
    var state := StateOf(w.mic.states, spec.image);
    if state == Some(NeedsSigning) {
      assert HasSign(w.mic.images, spec.image);
    }
    if state == Some(NeedsBuilding) {
      assert HasBuild(w.mic.images, spec.image);
    }
  }

  lemma {:induction false} ImagesPhaseOk(w: World, images: seq<ImageSpec>, listed: seq<PullPod>, refused: set<string>)
    requires ProvInv(w) && (forall s :: s in images ==> s in w.mic.images)
    ensures ProvInv(ImagesPhase(w, images, listed, refused))
    decreases |images|
  {
    if images != [] {
      assert images[0] in images;
      ImageStepOk(w, images[0], listed, refused);
      ImagesPhaseOk(ImageStep(w, images[0], listed, refused), images[1..], listed, refused);
    }
  }

  lemma MicKeepsProvInv(w: World, f: MicFaults)
    requires ProvInv(w)
    ensures ProvInv(MicPass(w, f))
  {
    if w.mic.trigger == w.mic.adopted {
      PulledStatesOk(w.mic.images, w.pullPods, w.mic.states, w.log);
      var w1 := AfterPulls(w, f);
      assert ProvInv(w1);
      if w1.mbsc.Some? {
        ResultStatesOk(w1.mic.images, w1.mbsc.value.results, w1.mic.states, w1.log);
      }
      var w2 := AfterResults(w1, f);
      UsesChangeNothing(w1, w2);
      ImagesPhaseOk(w2, w2.mic.images, w.pullPods, f.calls);
    }
  }

  lemma UsesChangeNothing(w1: World, w2: World)
    requires ProvInv(w1) && GenInv(w2)
    requires w2 == w1.(mic := w1.mic.(states := w2.mic.states), log := w1.log.(uses := w2.log.uses))
    requires StatesOk(w2.mic.states, w1.mic.images, w1.log)
    ensures ProvInv(w2)
  {
    forall image | Justified(w1.mic.images, w1.log, image)
      ensures Justified(w2.mic.images, w2.log, image)
    {
      if image !in w1.log.pulled {
        var s, u :| s in w1.mic.images && s.image == image && MadeFor(s, u, w1.log);
        assert MadeFor(s, u, w2.log);
      }
    }
  }

  lemma CollectStepOk(pods: map<PodName, BuildPod>, uid: nat, t: Task, results: seq<ResultEntry>, images: seq<ImageSpec>, log: History)
    requires ImagesSeparate(images) && PodsOk(pods, images, log) && TasksOk([t], images) && ResultsOk(results, images, log)
    ensures ResultsOk(CollectStep(pods, uid, t, results), images, log)
  {
    assert t in [t];
    if OwnedPod(pods, uid, NameOf(t)).Some? && StatusOf(pods[NameOf(t)]).Some? {
      var pod := pods[NameOf(t)];
      CollectedEntryOk(t, pod, images, log);
      assert ResultOk(ResultEntry(t.spec.image, t.action, StatusOf(pod).value, pod.owner), images, log);
    }
  }

  /** A finished pod found for an image's last action was made for that image: no other's can pass for it. */
  lemma CollectedEntryOk(t: Task, pod: BuildPod, images: seq<ImageSpec>, log: History)
    requires ImagesSeparate(images) && PodOk(NameOf(t), pod, images, log) && TasksOk([t], images) && StatusOf(pod).Some?
    ensures ResultOk(ResultEntry(t.spec.image, t.action, StatusOf(pod).value, pod.owner), images, log)
  {
    assert t in [t];
    var s :| s in images && s.image == pod.image && DnsSafe(s.kernel) == NameOf(t).kernel && MakeTemplate(Task(s, t.action)) == Template;
    if t.action == LastAction(t.spec) {
      assert !CanPassFor(s, t.spec);
      assert s.image == t.spec.image;
    }
  }

  lemma {:induction false} CollectedOk(pods: map<PodName, BuildPod>, uid: nat, tasks: seq<Task>, results: seq<ResultEntry>,
                                       images: seq<ImageSpec>, log: History)
    requires ImagesSeparate(images) && PodsOk(pods, images, log) && TasksOk(tasks, images) && ResultsOk(results, images, log)
    ensures ResultsOk(Collected(pods, uid, tasks, results), images, log)
    decreases |tasks|
  {
    if tasks != [] {
      assert tasks[0] in tasks;
      CollectStepOk(pods, uid, tasks[0], results, images, log);
      CollectedOk(pods, uid, tasks[1..], CollectStep(pods, uid, tasks[0], results), images, log);
    }
  }

  lemma {:induction false} SyncTasksOk(pods: map<PodName, BuildPod>, uid: nat, tasks: seq<Task>, results: seq<ResultEntry>, f: MbscFaults,
                                       end: SyncEnd, images: seq<ImageSpec>, log: History)
    requires PodsOk(pods, images, log) && TasksOk(tasks, images)
    ensures PodsOk(SyncTasks(pods, uid, tasks, results, f, end).0, images, log)
    decreases |tasks|
  {
    if tasks != [] {
      var t := tasks[0];
      assert t in tasks;
      assert TasksOk(tasks[1..], images);
      if OutcomeOf(results, t.spec.image, t.action) == Some(Success) {
        SyncTasksOk(pods, uid, tasks[1..], results, f, end, images, log);
      } else if MakeTemplate(t) == NoUnsignedImage || (MakeTemplate(t) == Template && NameOf(t) in f.prepares) {
        SyncTasksOk(pods, uid, tasks[1..], results, f, Errors, images, log);
      } else if MakeTemplate(t) == Template {
        assert PodOk(NameOf(t), BuildPod(uid, t.spec.image, Pending(false, None)), images, log);
        SyncTasksOk(SyncPod(pods, uid, t, f), uid, tasks[1..], results, f, if CreateFails(pods, uid, t, f) then Errors else end, images, log);
      }
    }
  }

  lemma MbscKeepsProvInv(w: World, f: MbscFaults)
    requires ProvInv(w)
    ensures ProvInv(MbscPass(w, f))
  {
    StepKeepsGenInv(w, MbscReconcile(f));
    if w.mbsc.Some? {
      var m := w.mbsc.value;
      CollectedOk(w.pods - f.lists, m.uid, m.tasks, m.results, w.mic.images, w.log);
      var results := Collected(w.pods - f.lists, m.uid, m.tasks, m.results);
      SyncTasksOk(w.pods, m.uid, m.tasks, results, f, Clean, w.mic.images, w.log);
    }
  }

  /** More pulls and more finished pods take no cause away. */
  lemma EventsKeepStates(states: seq<StateEntry>, images: seq<ImageSpec>, log: History, log': History)
    requires StatesOk(states, images, log)
    requires log.pulled <= log'.pulled && log.made <= log'.made && log.births == log'.births && log.adoptions == log'.adoptions
    ensures StatesOk(states, images, log')
  {
    forall image | Justified(images, log, image)
      ensures Justified(images, log', image)
    {
      if image !in log.pulled {
        var s, u :| s in images && s.image == image && MadeFor(s, u, log);
        assert MadeFor(s, u, log');
      }
    }
  }

  lemma PodMovesKeepsPods(w: World, n: PodName, phase: PullPhase)
    requires n in w.pods && PodsOk(w.pods, w.mic.images, w.log)
    ensures var w' := MovePod(w, n, phase); PodsOk(w'.pods, w'.mic.images, w'.log)
  {
    var w' := MovePod(w, n, phase);
    forall k | k in w'.pods
      ensures PodOk(k, w'.pods[k], w'.mic.images, w'.log)
    {
      assert PodOk(k, w.pods[k], w.mic.images, w.log);
    }
  }

  lemma StepKeepsProvInv(w: World, step: Step)
    requires ProvInv(w) && Enabled(w, step) && !step.SetImages?
    ensures ProvInv(Next(w, step))
  {
    StepKeepsGenInv(w, step);
    match step
    case MicReconcile(f) =>
      MicKeepsProvInv(w, f);
    case MbscReconcile(f) =>
      MbscKeepsProvInv(w, f);
    case PullPodMoves(i, phase) =>
      EventsKeepStates(w.mic.states, w.mic.images, w.log, Next(w, step).log);
    case PodMoves(n, phase) =>
      EventsKeepStates(w.mic.states, w.mic.images, w.log, Next(w, step).log);
      PodMovesKeepsPods(w, n, phase);
    case _ =>
  }

  lemma {:induction false} RunKeepsProvInv(w: World, steps: seq<Step>)
    requires ProvInv(w) && IsRun(w, steps) && (forall s :: s in steps ==> !s.SetImages?)
    ensures ProvInv(After(w, steps)) && After(w, steps).mic.images == w.mic.images
    decreases |steps|
  {
    if steps != [] {
      assert steps[0] in steps;
      StepKeepsProvInv(w, steps[0]);
      StepKeepsImages(w, steps[0]);
      RunKeepsProvInv(Next(w, steps[0]), steps[1..]);
    }
  }

  lemma StepKeepsImages(w: World, step: Step)
    requires Enabled(w, step) && !step.SetImages?
    ensures Next(w, step).mic.images == w.mic.images
  {
    if step.MicReconcile? && w.mic.trigger == w.mic.adopted && !PullsFail(w, step.micFaults) {
      var f := step.micFaults;
      var w2 := AfterResults(AfterPulls(w, f), f);
      ImagesKeepTrigger(w2, w2.mic.images, w.pullPods, f.calls);
    }
  }

  /**
   For a fixed image list with one spec per image, in which no pod can pass for another's, in every run an image reads
   `Exists` only after a pull of it succeeded, or a pod owned by an MBSC of the current generation
   finished its last action: signing when it has a sign section, building otherwise.
   */
  lemma ExistsHasACause(images: seq<ImageSpec>, trigger: Option<int>, steps: seq<Step>, image: string)
    requires ImagesSeparate(images) && IsRun(Start(images, trigger), steps) && (forall s :: s in steps ==> !s.SetImages?)
    requires StateOf(After(Start(images, trigger), steps).mic.states, image) == Some(Exists)
    ensures Justified(images, After(Start(images, trigger), steps).log, image)
  {
    RunKeepsProvInv(Start(images, trigger), steps);
  }

  // ----- Failed pulls -----

  /** A pull pod is a one-time pod exactly when its image has something to fall back on. */
  ghost predicate OneTimeFits(pods: seq<PullPod>, images: seq<ImageSpec>) {
    forall p, s :: p in pods && s in images && p.image == s.image ==> (p.oneTime <==> s.build || s.sign.Some? || s.skipWait)
  }

  lemma {:induction false} ImagesKeepOneTime(w: World, images: seq<ImageSpec>, listed: seq<PullPod>, refused: set<string>)
    requires OneTimeFits(w.pullPods, w.mic.images) && OneSpecEach(w.mic.images) && (forall s :: s in images ==> s in w.mic.images)
    ensures OneTimeFits(ImagesPhase(w, images, listed, refused).pullPods, w.mic.images)
    decreases |images|
  {
    if images != [] {
      assert images[0] in images;
      ImagesKeepOneTime(ImageStep(w, images[0], listed, refused), images[1..], listed, refused);
    }
  }

  lemma StepKeepsOneTime(w: World, step: Step)
    requires OneTimeFits(w.pullPods, w.mic.images) && OneSpecEach(w.mic.images) && Enabled(w, step) && !step.SetImages?
    ensures OneTimeFits(Next(w, step).pullPods, w.mic.images)
  {
    if step.MicReconcile? && w.mic.trigger == w.mic.adopted {
      var f := step.micFaults;
      var w1 := AfterPulls(w, f);
      assert OneTimeFits(w1.pullPods, w.mic.images);
      var w2 := AfterResults(w1, f);
      ImagesKeepOneTime(w2, w2.mic.images, w.pullPods, f.calls);
    }
    if step.PullPodMoves? {
      var moved := w.pullPods[step.index].(phase := step.phase);
      assert forall p :: p in Next(w, step).pullPods ==> p in w.pullPods || p == moved;
    }
  }

  /**
   For a fixed image list a pull pod that reports failure always moves its image on: there is a build, a
   signature or leave to skip it; and pods of images without any of these are never one-time pods.
   */
  lemma {:induction false} FailedPullIsHandled(w: World, steps: seq<Step>)
    requires OneTimeFits(w.pullPods, w.mic.images) && OneSpecEach(w.mic.images)
    requires IsRun(w, steps) && (forall s :: s in steps ==> !s.SetImages?)
    ensures forall p, s :: p in After(w, steps).pullPods && s in w.mic.images && p.image == s.image && GetPullPodStatus(p) == PullFailed ==>
              s.build || s.sign.Some? || s.skipWait
    ensures OneTimeFits(After(w, steps).pullPods, w.mic.images)
    decreases |steps|
  {
    if steps != [] {
      assert steps[0] in steps;
      StepKeepsOneTime(w, steps[0]);
      StepKeepsImages(w, steps[0]);
      FailedPullIsHandled(Next(w, steps[0]), steps[1..]);
    }
  }
}
