/**
 What one pass of each controller makes of one image, read off the pods, the results and the sections
 of its spec (internal/controllers/mic_reconciler.go:166-308, internal/controllers/mbsc_reconciler.go:117-154,
 internal/buildsign/manager.go:69-152).
 */
module ImageReadings {
  import opened Basics
  import opened KernelNames
  import opened ImagePipeline
  import opened ImageRuns

  ghost predicate Deduped(images: seq<ImageSpec>) {
    forall i, j :: 0 <= i < j < |images| ==> images[i].image != images[j].image
  }

  lemma DedupedIsOneEach(images: seq<ImageSpec>)
    requires Deduped(images)
    ensures OneSpecEach(images)
  {
  }

  function Tasks(w: World): seq<Task> { if w.mbsc.None? then [] else w.mbsc.value.tasks }

  function Results(w: World): seq<ResultEntry> { if w.mbsc.None? then [] else w.mbsc.value.results }

  // ----- What results make of states -----

  ghost predicate OneResultEach(results: seq<ResultEntry>) {
    forall i, j :: 0 <= i < j < |results| ==> results[i].image != results[j].image
  }

  lemma {:induction false} SetResultKeepsOneEach(results: seq<ResultEntry>, e: ResultEntry)
    requires OneResultEach(results)
    ensures OneResultEach(SetResult(results, e))
    ensures forall x :: x in SetResult(results, e) ==> x.image == e.image || exists y :: y in results && y.image == x.image
  {
    if results != [] && results[0].image != e.image {
      var rest, rest' := results[1..], SetResult(results[1..], e);
      SetResultKeepsOneEach(rest, e);
      assert results == [results[0]] + rest;
      assert SetResult(results, e) == [results[0]] + rest';
      forall j | 0 <= j < |rest'|
        ensures rest'[j].image != results[0].image
      {
        assert rest'[j] in rest';
        if rest'[j].image != e.image {
          var y :| y in rest && y.image == rest'[j].image;
        }
      }
    }
  }

  lemma {:induction false} NoResultFor(results: seq<ResultEntry>, image: string)
    ensures ResultFor(results, image).None? <==> forall e :: e in results ==> e.image != image
  {
    if results != [] {
      assert results == [results[0]] + results[1..];
      NoResultFor(results[1..], image);
    }
  }

  /** An image reads what its own result makes of it, or what it read before. */
  lemma {:induction false} ResultStateOf(images: seq<ImageSpec>, results: seq<ResultEntry>, states: seq<StateEntry>, spec: ImageSpec)
    requires OneResultEach(results) && OneSpecEach(images) && spec in images
    ensures var r := ResultFor(results, spec.image);
            StateOf(ResultStates(images, results, states), spec.image) ==
            if r.None? then StateOf(states, spec.image) else Some(ResultState(spec, r.value))
    decreases |results|
  {
    if results != [] {
      var e, rest := results[0], results[1..];
      assert results == [e] + rest;
      ResultStateOf(images, rest, ResultStep(images, e, states), spec);
      NoResultFor(rest, spec.image);
      var r := SpecOf(images, e.image);
      if r.Some? {
        SetStateReads(states, e.image, ResultState(r.value, e), spec.image);
      }
    }
  }

  lemma OutcomeAfterSet(results: seq<ResultEntry>, e: ResultEntry)
    requires OneResultEach(results)
    ensures OutcomeOf(SetResult(results, e), e.image, e.action) == Some(e.outcome)
    ensures forall a :: a != e.action ==> OutcomeOf(SetResult(results, e), e.image, a) == None
  {
    SetResultReads(results, e, e.image);
    SetResultKeepsOneEach(results, e);
    OutcomeByResult(SetResult(results, e), e.image, e.action);
    forall a | a != e.action ensures OutcomeOf(SetResult(results, e), e.image, a) == None {
      OutcomeByResult(SetResult(results, e), e.image, a);
    }
  }

  lemma {:induction false} OutcomeByResult(results: seq<ResultEntry>, image: string, action: Action)
    requires OneResultEach(results)
    ensures var r := ResultFor(results, image);
            OutcomeOf(results, image, action) == if r.Some? && r.value.action == action then Some(r.value.outcome) else None
  {
    if results != [] {
      assert results == [results[0]] + results[1..];
      OutcomeByResult(results[1..], image, action);
      NoResultFor(results[1..], image);
    }
  }


  // ----- What a MIC pass makes of an image's state -----

  /** The pull pod reports that the image cannot be pulled; only a one-time pod ever does. */
  predicate GaveUp(p: PullPod) {
    && p.oneTime && p.phase.Pending? && p.phase.started
    && (p.phase.waiting == Some("ImagePullBackOff") || p.phase.waiting == Some("ErrImagePull"))
  }

  predicate HasFallback(spec: ImageSpec) { spec.build || spec.sign.Some? || spec.skipWait }

  /** What comes next for an image that cannot be pulled. */
  function Fallback(spec: ImageSpec, before: Option<ImageState>): Option<ImageState> {
    if spec.build then Some(NeedsBuilding) else if spec.sign.Some? then Some(NeedsSigning) else if spec.skipWait then Some(DoesNotExist) else before
  }

  /** The pass is done with the pull pod. */
  predicate IsOver(images: seq<ImageSpec>, p: PullPod) {
    p.phase == Succeeded || GaveUp(p) || forall s :: s in images ==> s.image != p.image
  }

  function PullPodOf(pods: seq<PullPod>, image: string): Option<PullPod> {
    if pods == [] then None else if pods[0].image == image then Some(pods[0]) else PullPodOf(pods[1..], image)
  }

  /** The patch is accepted and so is every deletion it asks for. */
  ghost predicate PullsPass(w: World, f: MicFaults) {
    w.pullPods == [] || (!f.pullPatch && forall p :: p in w.pullPods && IsOver(w.mic.images, p) ==> p.uid !in f.podDeletes)
  }

  /** An image reads its pull pod as found, or not at all. */
  function Pulled(spec: ImageSpec, pod: Option<PullPod>, before: Option<ImageState>): Option<ImageState> {
    if pod.None? then before
    else if pod.value.phase == Succeeded then Some(Exists)
    else if GaveUp(pod.value) then Fallback(spec, before)
    else before
  }

  /** A failure undoes it, the success of the last action makes it exist, that of a build before a signature asks for the signature. */
  function Read(spec: ImageSpec, r: Option<ResultEntry>, before: Option<ImageState>): Option<ImageState> {
    if r.None? then before
    else if r.value.outcome == Failure then Some(DoesNotExist)
    else if r.value.action == BuildImage && LastAction(spec) == SignImage then Some(NeedsSigning)
    else Some(Exists)
  }

  lemma IsDoneIff(images: seq<ImageSpec>, p: PullPod)
    ensures IsDone(images, p) <==> IsOver(images, p)
  {
  }

  lemma PullsPassIff(w: World, f: MicFaults)
    ensures PullsFail(w, f) <==> !PullsPass(w, f)
  {
    forall p ensures IsDone(w.mic.images, p) <==> IsOver(w.mic.images, p) {
      IsDoneIff(w.mic.images, p);
    }
  }

  lemma {:induction false} PullPodIsFirst(pods: seq<PullPod>, image: string)
    ensures var p := PullPodOf(pods, image);
            && (p.None? <==> forall q :: q in pods ==> q.image != image)
            && (p.Some? ==> p.value in pods && p.value.image == image)
  {
    if pods != [] {
      assert pods == [pods[0]] + pods[1..];
      PullPodIsFirst(pods[1..], image);
    }
  }

  lemma StatePulled(w: World, f: MicFaults, spec: ImageSpec)
    requires OneSpecEach(w.mic.images) && spec in w.mic.images && DistinctPulls(w.pullPods)
    ensures var before := StateOf(w.mic.states, spec.image);
            StateOf(AfterPulls(w, f).mic.states, spec.image) ==
            if f.pullPatch then before else Pulled(spec, PullPodOf(w.pullPods, spec.image), before)
  {
    var p := PullPodOf(w.pullPods, spec.image);
    PullPodIsFirst(w.pullPods, spec.image);
    PulledStateOf(w.mic.images, w.pullPods, w.mic.states, spec.image);
    if p.Some? {
      PullPodStepReads(w.mic.images, p.value, w.mic.states, spec.image);
      assert SpecOf(w.mic.images, spec.image) == Some(spec);
    }
  }

  lemma StateRead(w: World, f: MicFaults, spec: ImageSpec)
    requires OneSpecEach(w.mic.images) && spec in w.mic.images && OneResultEach(Results(w))
    ensures var before := StateOf(w.mic.states, spec.image);
            StateOf(AfterResults(w, f).mic.states, spec.image) == if f.resultPatch then before else Read(spec, ResultFor(Results(w), spec.image), before)
  {
    ResultStateOf(w.mic.images, Results(w), w.mic.states, spec);
  }

  /** The states a MIC pass leaves are those after pull pods and results. */
  lemma StatesOfPass(w: World, f: MicFaults)
    requires w.mic.trigger == w.mic.adopted
    ensures MicPass(w, f).mic.states == if PullsPass(w, f) then AfterResults(AfterPulls(w, f), f).mic.states else AfterPulls(w, f).mic.states
  {
    PullsPassIff(w, f);
    var w2 := AfterResults(AfterPulls(w, f), f);
    ImagesKeepTrigger(w2, w2.mic.images, w.pullPods, f.calls);
  }

  /**
   What an image reads after a MIC pass: its pull pod as found if that patch is accepted, then its build
   or sign result if the pass gets to it and that patch is accepted.
   */
  lemma StateAfterPass(w: World, f: MicFaults, spec: ImageSpec)
    requires Deduped(w.mic.images) && spec in w.mic.images && DistinctPulls(w.pullPods) && OneResultEach(Results(w))
    requires w.mic.trigger == w.mic.adopted
    ensures var before := StateOf(w.mic.states, spec.image);
            var pulled := if f.pullPatch then before else Pulled(spec, PullPodOf(w.pullPods, spec.image), before);
            StateOf(MicPass(w, f).mic.states, spec.image) ==
            if PullsPass(w, f) && !f.resultPatch then Read(spec, ResultFor(Results(w), spec.image), pulled) else pulled
  {
    DedupedIsOneEach(w.mic.images);
    StatePulled(w, f, spec);
    StateRead(AfterPulls(w, f), f, spec);
    StatesOfPass(w, f);
  }

  /** The converse of provenance: a successful pull that was patched in, and the success of an image's last action that was read, make it exist. */
  lemma CauseIsRead(w: World, f: MicFaults, spec: ImageSpec)
    requires Deduped(w.mic.images) && spec in w.mic.images && DistinctPulls(w.pullPods) && OneResultEach(Results(w))
    requires w.mic.trigger == w.mic.adopted
    ensures var r := ResultFor(Results(w), spec.image);
            var isRead := r.Some? && PullsPass(w, f) && !f.resultPatch;
            var state := StateOf(MicPass(w, f).mic.states, spec.image);
            && (isRead && r.value.outcome == Success && r.value.action == LastAction(spec) ==> state == Some(Exists))
            && (!isRead && !f.pullPatch && (exists p :: p in w.pullPods && p.image == spec.image && p.phase == Succeeded) ==> state == Some(Exists))
  {
    StateAfterPass(w, f, spec);
    PullPodIsFirst(w.pullPods, spec.image);
    if p :| p in w.pullPods && p.image == spec.image && p.phase == Succeeded {
      assert PullPodOf(w.pullPods, spec.image) == Some(p);
    }
  }

  // ----- What a MIC pass asks for -----

  /** The pass gets to its image specs. */
  ghost predicate Proceeds(w: World, f: MicFaults) {
    w.mic.trigger == w.mic.adopted && PullsPass(w, f) && (w.mbsc.Some? ==> !f.resultPatch)
  }

  /** The action the state calls for; an image that failed is built again if there is anything to make it from. */
  function Wanted(spec: ImageSpec, state: Option<ImageState>): Option<Action> {
    if state == Some(NeedsSigning) then Some(SignImage)
    else if state == Some(NeedsBuilding) || (state == Some(DoesNotExist) && (spec.build || spec.sign.Some?)) then Some(BuildImage)
    else None
  }

  /** The image's pull pods are those it had, and `more`. */
  ghost predicate PullPodsAre(w: World, w': World, image: string, more: set<PullPod>) {
    forall p: PullPod :: p.image == image ==> (p in w'.pullPods <==> p in w.pullPods || p in more)
  }

  /** What one image's turn leaves of its task and its pull pods; `made` says whether the new pull pod is a one-time pod. */
  ghost predicate TurnsTo(w: World, w': World, image: string, task: Option<Task>, made: Option<bool>) {
    && TaskFor(Tasks(w'), image) == (if task.Some? then task else TaskFor(Tasks(w), image))
    && (made.None? ==> PullPodsAre(w, w', image, {}))
    && (made.Some? ==> exists uid :: w.nextUid <= uid < w'.nextUid && PullPodsAre(w, w', image, {PullPod(uid, image, made.value, Pending(false, None))}))
  }

  function TaskWanted(spec: ImageSpec, state: Option<ImageState>): Option<Task> {
    if Wanted(spec, state).Some? then Some(Task(spec, Wanted(spec, state).value)) else None
  }

  /** Whether a pull pod is made for the image, and if so whether it is a one-time pod. */
  function PodWanted(spec: ImageSpec, state: Option<ImageState>, listed: seq<PullPod>): Option<bool> {
    if state.None? && !HasPullPod(listed, spec.image) then Some(HasFallback(spec)) else None
  }

  /** A new pull pod is a one-time pod exactly when there is something to fall back on. */
  lemma TurnOf(w: World, spec: ImageSpec, listed: seq<PullPod>, refused: set<string>)
    requires spec.image !in refused
    ensures var state := StateOf(w.mic.states, spec.image);
            TurnsTo(w, ImageStep(w, spec, listed, refused), spec.image, TaskWanted(spec, state), PodWanted(spec, state, listed))
  {
    var state := StateOf(w.mic.states, spec.image);
    var wanted := Wanted(spec, state);
    assert ActionFor(spec, state) == wanted;
    if wanted.Some? {
      SetTaskReads(Tasks(w), Task(spec, wanted.value), spec.image);
    }
    if state.None? && !HasPullPod(listed, spec.image) {
      var w' := ImageStep(w, spec, listed, refused);
      assert PullPodsAre(w, w', spec.image, {PullPod(w.nextUid, spec.image, HasFallback(spec), Pending(false, None))});
    }
  }

  /** The turns of other images leave an image's task and pull pods alone. */
  lemma {:induction false} OthersTurns(w: World, todo: seq<ImageSpec>, listed: seq<PullPod>, refused: set<string>, image: string)
    requires forall s :: s in todo && s.image == image ==> s.image in refused
    ensures TurnsTo(w, ImagesPhase(w, todo, listed, refused), image, None, None) && w.nextUid <= ImagesPhase(w, todo, listed, refused).nextUid
    decreases |todo|
  {
    if todo != [] {
      assert todo == [todo[0]] + todo[1..];
      var w1 := ImageStep(w, todo[0], listed, refused);
      if todo[0].image != image {
        var a := ActionFor(todo[0], StateOf(w.mic.states, todo[0].image));
        if a.Some? {
          SetTaskReads(Tasks(w), Task(todo[0], a.value), image);
        }
        assert TurnsTo(w, w1, image, None, None);
      }
      OthersTurns(w1, todo[1..], listed, refused, image);
    }
  }

  /** Turns of other images before or after it change nothing about an image's turn. */
  lemma TurnAmongOthers(w: World, w1: World, w2: World, image: string, task: Option<Task>, made: Option<bool>)
    requires || (TurnsTo(w, w1, image, None, None) && TurnsTo(w1, w2, image, task, made) && w.nextUid <= w1.nextUid)
             || (TurnsTo(w, w1, image, task, made) && TurnsTo(w1, w2, image, None, None) && w1.nextUid <= w2.nextUid)
    ensures TurnsTo(w, w2, image, task, made)
  {
    if made.Some? {
      if TurnsTo(w1, w2, image, task, made) && TurnsTo(w, w1, image, None, None) && w.nextUid <= w1.nextUid {
        var uid :| w1.nextUid <= uid < w2.nextUid && PullPodsAre(w1, w2, image, {PullPod(uid, image, made.value, Pending(false, None))});
        assert PullPodsAre(w, w2, image, {PullPod(uid, image, made.value, Pending(false, None))});
      } else {
        var uid :| w.nextUid <= uid < w1.nextUid && PullPodsAre(w, w1, image, {PullPod(uid, image, made.value, Pending(false, None))});
        assert PullPodsAre(w, w2, image, {PullPod(uid, image, made.value, Pending(false, None))});
      }
    }
  }

  lemma {:induction false} TurnInPhase(w: World, todo: seq<ImageSpec>, listed: seq<PullPod>, refused: set<string>, spec: ImageSpec)
    requires Deduped(todo) && spec in todo && spec.image !in refused
    ensures var state := StateOf(w.mic.states, spec.image);
            TurnsTo(w, ImagesPhase(w, todo, listed, refused), spec.image, TaskWanted(spec, state), PodWanted(spec, state, listed))
    decreases |todo|
  {
    var first, rest := todo[0], todo[1..];
    assert todo == [first] + rest;
    var w1, w2 := ImageStep(w, first, listed, refused), ImagesPhase(w, todo, listed, refused);
    var state := StateOf(w.mic.states, spec.image);
    if first == spec {
      assert forall s :: s in rest ==> s.image != spec.image;
      TurnOf(w, spec, listed, refused);
      OthersTurns(w1, rest, listed, refused, spec.image);
    } else {
      assert first.image != spec.image by {
        var k :| 0 <= k < |todo| && todo[k] == spec;
      }
      OthersTurns(w, [first], listed, refused, spec.image);
      assert [first][1..] == [] && ImagesPhase(w1, [], listed, refused) == w1;
      TurnInPhase(w1, rest, listed, refused, spec);
    }
    TurnAmongOthers(w, w1, w2, spec.image, TaskWanted(spec, state), PodWanted(spec, state, listed));
  }

  /** The pull pod outlives the pass: its deletion was not asked for or not carried out. */
  ghost predicate Stays(w: World, f: MicFaults, p: PullPod) {
    p in w.pullPods && (f.pullPatch || !IsOver(w.mic.images, p) || p.uid in f.podDeletes)
  }

  ghost predicate IsOnlyPullPod(w: World, p: PullPod) {
    forall q: PullPod :: q.image == p.image ==> (q in w.pullPods <==> q == p)
  }

  lemma {:induction false} PodsLeftIff(images: seq<ImageSpec>, pods: seq<PullPod>, refused: set<nat>, p: PullPod)
    ensures p in PodsLeft(images, pods, refused) <==> p in pods && (!IsOver(images, p) || p.uid in refused)
  {
    if pods != [] {
      assert pods == [pods[0]] + pods[1..];
      PodsLeftIff(images, pods[1..], refused, p);
      IsDoneIff(images, pods[0]);
    }
  }

  lemma PullPodsAfterPulls(w: World, f: MicFaults)
    ensures forall p: PullPod :: p in AfterPulls(w, f).pullPods <==> Stays(w, f, p)
  {
    forall p: PullPod ensures p in AfterPulls(w, f).pullPods <==> Stays(w, f, p) {
      PodsLeftIff(w.mic.images, w.pullPods, f.podDeletes, p);
    }
  }

  /** The part of a MIC pass that goes through the images. */
  lemma TurnInPass(w: World, f: MicFaults, spec: ImageSpec)
    requires Deduped(w.mic.images) && spec in w.mic.images && w.mic.trigger == w.mic.adopted
    ensures var w1, w' := AfterPulls(w, f), MicPass(w, f);
            var state := StateOf(w'.mic.states, spec.image);
            if Proceeds(w, f) && spec.image !in f.calls
            then TurnsTo(w1, w', spec.image, TaskWanted(spec, state), PodWanted(spec, state, w.pullPods))
            else TurnsTo(w1, w', spec.image, None, None)
  {
    PullsPassIff(w, f);
    var w2 := AfterResults(AfterPulls(w, f), f);
    ImagesKeepTrigger(w2, w2.mic.images, w.pullPods, f.calls);
    if Proceeds(w, f) {
      if spec.image in f.calls {
        OthersTurns(w2, w2.mic.images, w.pullPods, f.calls, spec.image);
      } else {
        TurnInPhase(w2, w2.mic.images, w.pullPods, f.calls, spec);
      }
    }
  }

  /**
   What a MIC pass asks for on behalf of an image, once its state is known: the action that state calls
   for, and a pull pod when it has no state and no pull pod was there. Pull pods that are over go.
   */
  lemma AskedAfterPass(w: World, f: MicFaults, spec: ImageSpec)
    requires Deduped(w.mic.images) && spec in w.mic.images && w.mic.trigger == w.mic.adopted
    ensures var w' := MicPass(w, f);
            var state := StateOf(w'.mic.states, spec.image);
            var turn := Proceeds(w, f) && spec.image !in f.calls;
            var makes := turn && state.None? && forall p :: p in w.pullPods ==> p.image != spec.image;
            && TaskFor(Tasks(w'), spec.image) ==
               (if turn && Wanted(spec, state).Some? then Some(Task(spec, Wanted(spec, state).value)) else TaskFor(Tasks(w), spec.image))
            && (!makes ==> forall p: PullPod :: p.image == spec.image ==> (p in w'.pullPods <==> Stays(w, f, p)))
            && (makes ==> exists uid :: uid >= w.nextUid && IsOnlyPullPod(w', PullPod(uid, spec.image, HasFallback(spec), Pending(false, None))))
  {
    PullPodsAfterPulls(w, f);
    TurnInPass(w, f, spec);
    var w', w1 := MicPass(w, f), AfterPulls(w, f);
    var state := StateOf(w'.mic.states, spec.image);
    if Proceeds(w, f) && spec.image !in f.calls && state.None? && !HasPullPod(w.pullPods, spec.image) {
      var uid :| w1.nextUid <= uid < w'.nextUid && PullPodsAre(w1, w', spec.image, {PullPod(uid, spec.image, HasFallback(spec), Pending(false, None))});
      assert IsOnlyPullPod(w', PullPod(uid, spec.image, HasFallback(spec), Pending(false, None)));
    }
  }

  lemma {:induction false} ImagesKeepRest(w: World, todo: seq<ImageSpec>, listed: seq<PullPod>, refused: set<string>)
    ensures var w' := ImagesPhase(w, todo, listed, refused); Results(w') == Results(w) && w'.pods == w.pods
    ensures w.mbsc.Some? ==> ImagesPhase(w, todo, listed, refused).mbsc.Some? && ImagesPhase(w, todo, listed, refused).mbsc.value.uid == w.mbsc.value.uid
    decreases |todo|
  {
    if todo != [] {
      ImagesKeepRest(ImageStep(w, todo[0], listed, refused), todo[1..], listed, refused);
    }
  }

  /** A MIC pass that adopts nothing leaves results and build pods alone and keeps the MBSC. */
  lemma MicKeepsRest(w: World, f: MicFaults)
    requires w.mic.trigger == w.mic.adopted
    ensures var w' := MicPass(w, f);
            && Results(w') == Results(w) && w'.pods == w.pods && w'.mic.images == w.mic.images && w'.mic.trigger == w'.mic.adopted
            && (w.mbsc.Some? ==> w'.mbsc.Some? && w'.mbsc.value.uid == w.mbsc.value.uid)
  {
    var w2 := AfterResults(AfterPulls(w, f), f);
    ImagesKeepTrigger(w2, w2.mic.images, w.pullPods, f.calls);
    ImagesKeepRest(w2, w2.mic.images, w.pullPods, f.calls);
  }

  // ----- What an MBSC pass makes of a task -----

  ghost predicate OneTaskEach(tasks: seq<Task>) {
    forall i, j :: 0 <= i < j < |tasks| ==> tasks[i].spec.image != tasks[j].spec.image
  }

  /** How the MBSC's own pod for an action on an image ended. */
  function EndOf(pods: map<PodName, BuildPod>, uid: nat, t: Task): Option<Outcome> {
    var name := PodName(t.action, DnsSafe(t.spec.kernel));
    if name !in pods || pods[name].owner != uid then None
    else if pods[name].phase == Succeeded then Some(Success)
    else if pods[name].phase == Failed then Some(Failure)
    else None
  }

  lemma CollectStepFor(pods: map<PodName, BuildPod>, uid: nat, t: Task, results: seq<ResultEntry>, image: string)
    requires OneResultEach(results)
    ensures OneResultEach(CollectStep(pods, uid, t, results))
    ensures var end := EndOf(pods, uid, t);
            ResultFor(CollectStep(pods, uid, t, results), image) ==
            if end.Some? && t.spec.image == image then Some(ResultEntry(image, t.action, end.value, uid)) else ResultFor(results, image)
  {
    if EndOf(pods, uid, t).Some? {
      var e := ResultEntry(t.spec.image, t.action, EndOf(pods, uid, t).value, uid);
      SetResultKeepsOneEach(results, e);
      SetResultReads(results, e, image);
    }
  }

  lemma {:induction false} CollectedOthers(pods: map<PodName, BuildPod>, uid: nat, tasks: seq<Task>, results: seq<ResultEntry>, image: string)
    requires OneResultEach(results) && forall t :: t in tasks ==> t.spec.image != image
    ensures OneResultEach(Collected(pods, uid, tasks, results))
    ensures ResultFor(Collected(pods, uid, tasks, results), image) == ResultFor(results, image)
    decreases |tasks|
  {
    if tasks != [] {
      var t := tasks[0];
      assert t in tasks && tasks == [t] + tasks[1..];
      CollectStepFor(pods, uid, t, results, image);
      CollectedOthers(pods, uid, tasks[1..], CollectStep(pods, uid, t, results), image);
    }
  }

  /** The result of a task's image is how its pod ended, or what it was. */
  lemma {:induction false} CollectedFor(pods: map<PodName, BuildPod>, uid: nat, tasks: seq<Task>, results: seq<ResultEntry>, t: Task)
    requires OneResultEach(results) && OneTaskEach(tasks) && t in tasks
    ensures OneResultEach(Collected(pods, uid, tasks, results))
    ensures var end := EndOf(pods, uid, t);
            ResultFor(Collected(pods, uid, tasks, results), t.spec.image) ==
            if end.Some? then Some(ResultEntry(t.spec.image, t.action, end.value, uid)) else ResultFor(results, t.spec.image)
    decreases |tasks|
  {
    var first, rest := tasks[0], tasks[1..];
    assert tasks == [first] + rest;
    var results' := CollectStep(pods, uid, first, results);
    CollectStepFor(pods, uid, first, results, t.spec.image);
    if first == t {
      assert forall x :: x in rest ==> x.spec.image != t.spec.image;
      CollectedOthers(pods, uid, rest, results', t.spec.image);
    } else {
      assert first.spec.image != t.spec.image by {
        var k :| 0 <= k < |tasks| && tasks[k] == t;
      }
      CollectedFor(pods, uid, rest, results', t);
    }
  }

  /** Nothing is missing that the pod is made from: the section for its action, and something to sign. */
  predicate CanBeMade(t: Task) {
    if t.action == BuildImage then t.spec.build else t.spec.sign.Some? && (t.spec.build || t.spec.sign.value != "")
  }

  /** The section for its action is missing altogether, which ends the pass. */
  predicate LacksSection(t: Task) {
    if t.action == BuildImage then !t.spec.build else t.spec.sign.None?
  }

  lemma TemplateIff(t: Task)
    ensures MakeTemplate(t) == Template <==> CanBeMade(t)
    ensures MakeTemplate(t) == MissingSection <==> LacksSection(t)
  {
  }

  /**
   A pod after its sync: an owned pod stays unless its template changed, in which case it goes
   as soon as its deletion is carried out; without one, a new pod appears unless the name is taken or
   the creation fails.
   */
  function Synced(pod: Option<BuildPod>, uid: nat, t: Task, f: MbscFaults): Option<BuildPod> {
    var name := PodName(t.action, DnsSafe(t.spec.kernel));
    if pod.Some? then if pod.value.owner == uid && name in f.changed && name !in f.lingering then None else pod
    else if name in f.creates then None
    else Some(BuildPod(uid, t.spec.image, Pending(false, None)))
  }

  lemma SyncPodIs(pods: map<PodName, BuildPod>, uid: nat, t: Task, f: MbscFaults, n: PodName)
    ensures Lookup(SyncPod(pods, uid, t, f), n) == if n == NameOf(t) then Synced(Lookup(pods, n), uid, t, f) else Lookup(pods, n)
  {
  }

  /** Tasks that do not touch the pod name leave it alone. */
  lemma {:induction false} SyncOthers(pods: map<PodName, BuildPod>, uid: nat, tasks: seq<Task>, results: seq<ResultEntry>, f: MbscFaults, end: SyncEnd, n: PodName)
    requires forall t :: t in tasks ==> NameOf(t) != n || !CanBeMade(t)
    ensures Lookup(SyncTasks(pods, uid, tasks, results, f, end).0, n) == Lookup(pods, n)
    decreases |tasks|
  {
    if tasks != [] {
      var t := tasks[0];
      assert t in tasks && tasks == [t] + tasks[1..];
      TemplateIff(t);
      SyncPodIs(pods, uid, t, f, n);
      if OutcomeOf(results, t.spec.image, t.action) == Some(Success) {
        SyncOthers(pods, uid, tasks[1..], results, f, end, n);
      } else if MakeTemplate(t) == NoUnsignedImage || (MakeTemplate(t) == Template && NameOf(t) in f.prepares) {
        SyncOthers(pods, uid, tasks[1..], results, f, Errors, n);
      } else if MakeTemplate(t) == Template {
        SyncOthers(SyncPod(pods, uid, t, f), uid, tasks[1..], results, f, if CreateFails(pods, uid, t, f) then Errors else end, n);
      }
    }
  }

  /** No other entry that a pod can be made for has the same pod name. */
  ghost predicate OwnsName(tasks: seq<Task>, t: Task) {
    forall o :: o in tasks && o != t ==> NameOf(o) != NameOf(t) || !CanBeMade(o)
  }

  ghost predicate NoneLacksSection(tasks: seq<Task>) { forall t :: t in tasks ==> !LacksSection(t) }

  /** Its turn changes nothing: the action has succeeded, its pod cannot be made or its template cannot be had. */
  predicate SkipsTurn(results: seq<ResultEntry>, t: Task, f: MbscFaults) {
    OutcomeOf(results, t.spec.image, t.action) == Some(Success) || !CanBeMade(t) || NameOf(t) in f.prepares
  }

  /** The pod of a task after the loop over all tasks, which a missing section may have cut short. */
  lemma {:induction false} SyncedInLoop(pods: map<PodName, BuildPod>, uid: nat, tasks: seq<Task>, results: seq<ResultEntry>, f: MbscFaults, end: SyncEnd, t: Task)
    requires OneTaskEach(tasks) && t in tasks && OwnsName(tasks, t)
    ensures var pod, pod' := Lookup(pods, NameOf(t)), Lookup(SyncTasks(pods, uid, tasks, results, f, end).0, NameOf(t));
            && (pod' == pod || (!SkipsTurn(results, t, f) && pod' == Synced(pod, uid, t, f)))
            && (NoneLacksSection(tasks) && !SkipsTurn(results, t, f) ==> pod' == Synced(pod, uid, t, f))
    decreases |tasks|
  {
    var first, rest := tasks[0], tasks[1..];
    assert first in tasks && tasks == [first] + rest;
    TemplateIff(first);
    SyncPodIs(pods, uid, first, f, NameOf(t));
    var skips := OutcomeOf(results, first.spec.image, first.action) == Some(Success);
    if skips || MakeTemplate(first) != MissingSection {
      var errs := MakeTemplate(first) == NoUnsignedImage || NameOf(first) in f.prepares;
      var pods' := if skips || errs then pods else SyncPod(pods, uid, first, f);
      var end' := if skips then end else if errs || CreateFails(pods, uid, first, f) then Errors else end;
      assert SyncTasks(pods, uid, tasks, results, f, end) == SyncTasks(pods', uid, rest, results, f, end');
      if first == t {
        assert forall x :: x in rest ==> x.spec.image != t.spec.image;
        SyncOthers(pods', uid, rest, results, f, end', NameOf(t));
      } else {
        SyncedInLoop(pods', uid, rest, results, f, end', t);
      }
    }
  }

  /** The status of every task can be had, so the pass goes on to its pods. */
  ghost predicate StatusesHad(w: World, f: MbscFaults)
    requires w.mbsc.Some?
  {
    && !f.statusPatch
    && forall t :: t in Tasks(w) ==>
         && NameOf(t) !in f.lists
         && !(NameOf(t) in w.pods && w.pods[NameOf(t)].owner == w.mbsc.value.uid && w.pods[NameOf(t)].phase == Unknown)
  }

  lemma StatusesHadIff(w: World, f: MbscFaults)
    requires w.mbsc.Some? && !f.statusPatch
    ensures StatusFails(w.pods, w.mbsc.value.uid, Tasks(w), f.lists) <==> !StatusesHad(w, f)
  {
  }

  /** A pod after the collection of finished ones: gone only if it is owned, has succeeded and its deletion is carried out. */
  ghost predicate MayBeCollected(pod: Option<BuildPod>, pod': Option<BuildPod>, uid: nat, lingers: bool) {
    pod' == pod || (pod' == None && pod.Some? && pod.value.owner == uid && pod.value.phase == Succeeded && !lingers)
  }

  /** What an MBSC pass records for an image: how its task's own pod ended, as far as it can be listed, or what was there. */
  lemma ResultAfterPass(w: World, f: MbscFaults, t: Task)
    requires w.mbsc.Some? && OneTaskEach(Tasks(w)) && OneResultEach(Results(w)) && t in Tasks(w)
    ensures var uid := w.mbsc.value.uid;
            var end := if f.statusPatch || NameOf(t) in f.lists then None else EndOf(w.pods, uid, t);
            ResultFor(Results(MbscPass(w, f)), t.spec.image) ==
            if end.Some? then Some(ResultEntry(t.spec.image, t.action, end.value, uid)) else ResultFor(Results(w), t.spec.image)
  {
    if !f.statusPatch {
      CollectedFor(w.pods - f.lists, w.mbsc.value.uid, Tasks(w), Results(w), t);
    }
  }

  lemma {:induction false} CollectedOneEach(pods: map<PodName, BuildPod>, uid: nat, tasks: seq<Task>, results: seq<ResultEntry>)
    requires OneResultEach(results)
    ensures OneResultEach(Collected(pods, uid, tasks, results))
    decreases |tasks|
  {
    if tasks != [] {
      CollectStepFor(pods, uid, tasks[0], results, tasks[0].spec.image);
      CollectedOneEach(pods, uid, tasks[1..], CollectStep(pods, uid, tasks[0], results));
    }
  }

  /**
   What an MBSC pass makes of one task's pod: it is made, kept or dropped for a changed template, unless
   the action has succeeded or nothing can be made; and only a pod that has succeeded is collected. A
   task before it that lacks its section may end the pass first.
   */
  lemma PodAfterPass(w: World, f: MbscFaults, t: Task)
    requires w.mbsc.Some? && OneTaskEach(Tasks(w)) && OneResultEach(Results(w)) && t in Tasks(w) && OwnsName(Tasks(w), t)
    ensures var w' := MbscPass(w, f);
            var uid, name := w.mbsc.value.uid, NameOf(t);
            var pod, pod' := Lookup(w.pods, name), Lookup(w'.pods, name);
            var skips := SkipsTurn(Results(w'), t, f);
            && (!StatusesHad(w, f) ==> w'.pods == w.pods)
            && (MayBeCollected(pod, pod', uid, name in f.lingering)
                || (!skips && MayBeCollected(Synced(pod, uid, t, f), pod', uid, name in f.lingering)))
            && (StatusesHad(w, f) && NoneLacksSection(Tasks(w)) && !skips ==> MayBeCollected(Synced(pod, uid, t, f), pod', uid, name in f.lingering))
  {
    if !f.statusPatch {
      var m := w.mbsc.value;
      var results := Collected(w.pods - f.lists, m.uid, m.tasks, m.results);
      StatusesHadIff(w, f);
      SyncedInLoop(w.pods, m.uid, m.tasks, results, f, Clean, t);
    }
  }

  /** A pod no task can touch stays, or is collected. */
  lemma OtherPodAfterPass(w: World, f: MbscFaults, n: PodName)
    requires w.mbsc.Some? && forall t :: t in Tasks(w) ==> NameOf(t) != n || !CanBeMade(t)
    ensures MayBeCollected(Lookup(w.pods, n), Lookup(MbscPass(w, f).pods, n), w.mbsc.value.uid, n in f.lingering)
  {
    if !f.statusPatch {
      var m := w.mbsc.value;
      SyncOthers(w.pods, m.uid, m.tasks, Collected(w.pods - f.lists, m.uid, m.tasks, m.results), f, Clean, n);
    }
  }

  // ----- Collecting finished pods -----

  /** Nothing goes wrong in the loop over the tasks. */
  ghost predicate AllGoWell(w: World, f: MbscFaults)
    requires w.mbsc.Some?
  {
    StatusesHad(w, f) && f.prepares == {} && f.creates == {} && forall t :: t in Tasks(w) ==> CanBeMade(t)
  }

  lemma {:induction false} LoopEndsClean(pods: map<PodName, BuildPod>, uid: nat, tasks: seq<Task>, results: seq<ResultEntry>, f: MbscFaults)
    requires f.prepares == {} && f.creates == {} && forall t :: t in tasks ==> CanBeMade(t)
    ensures SyncTasks(pods, uid, tasks, results, f, Clean).1 == Clean
    decreases |tasks|
  {
    if tasks != [] {
      assert tasks[0] in tasks && tasks == [tasks[0]] + tasks[1..];
      TemplateIff(tasks[0]);
      if OutcomeOf(results, tasks[0].spec.image, tasks[0].action) == Some(Success) {
        LoopEndsClean(pods, uid, tasks[1..], results, f);
      } else {
        LoopEndsClean(SyncPod(pods, uid, tasks[0], f), uid, tasks[1..], results, f);
      }
    }
  }

  /** An error in the loop stays one to its end. */
  lemma {:induction false} ErrorsStay(pods: map<PodName, BuildPod>, uid: nat, tasks: seq<Task>, results: seq<ResultEntry>, f: MbscFaults, end: SyncEnd)
    requires end == Errors || exists t :: t in tasks && OutcomeOf(results, t.spec.image, t.action) != Some(Success) && (!CanBeMade(t) || NameOf(t) in f.prepares)
    ensures SyncTasks(pods, uid, tasks, results, f, end).1 != Clean
    decreases |tasks|
  {
    if tasks != [] {
      var t := tasks[0];
      assert tasks == [t] + tasks[1..];
      TemplateIff(t);
      if OutcomeOf(results, t.spec.image, t.action) == Some(Success) {
        ErrorsStay(pods, uid, tasks[1..], results, f, end);
      } else if MakeTemplate(t) == NoUnsignedImage || (MakeTemplate(t) == Template && NameOf(t) in f.prepares) {
        ErrorsStay(pods, uid, tasks[1..], results, f, Errors);
      } else if MakeTemplate(t) == Template {
        ErrorsStay(SyncPod(pods, uid, t, f), uid, tasks[1..], results, f, if CreateFails(pods, uid, t, f) then Errors else end);
      }
    }
  }

  /** A pass in which some task cannot be prepared collects nothing: a succeeded pod that no task touches stays. */
  lemma ErrorsCollectNothing(w: World, f: MbscFaults, t: Task, n: PodName)
    requires w.mbsc.Some? && t in Tasks(w) && (!CanBeMade(t) || NameOf(t) in f.prepares)
    requires OutcomeOf(Results(MbscPass(w, f)), t.spec.image, t.action) != Some(Success)
    requires forall o :: o in Tasks(w) ==> NameOf(o) != n || !CanBeMade(o)
    ensures Lookup(MbscPass(w, f).pods, n) == Lookup(w.pods, n)
  {
    if !f.statusPatch {
      var m := w.mbsc.value;
      var results := Collected(w.pods - f.lists, m.uid, m.tasks, m.results);
      ErrorsStay(w.pods, m.uid, m.tasks, results, f, Clean);
      SyncOthers(w.pods, m.uid, m.tasks, results, f, Clean, n);
    }
  }

  /** After a pass in which nothing goes wrong the MBSC has no succeeded pod left but those whose deletion is not carried out yet. */
  lemma SucceededPodsGo(w: World, f: MbscFaults, n: PodName)
    requires w.mbsc.Some? && AllGoWell(w, f)
    requires n in MbscPass(w, f).pods && MbscPass(w, f).pods[n].owner == w.mbsc.value.uid && MbscPass(w, f).pods[n].phase == Succeeded
    ensures n in f.lingering
  {
    var m := w.mbsc.value;
    StatusesHadIff(w, f);
    LoopEndsClean(w.pods, m.uid, m.tasks, Collected(w.pods - f.lists, m.uid, m.tasks, m.results), f);
  }
}
