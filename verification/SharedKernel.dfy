/**
 The provenance of `Exists` needs its hypothesis: for any image list in which one image's pod can pass
 for another's, a run in which the other image reads `Exists` without having been pulled and without a
 pod of its own having finished its last action. The two pods have one name, so the success of the
 first is collected for both.
 */
module SharedKernel {
  import opened Basics
  import opened ImagePipeline
  import opened ImageRuns
  import opened ImageReadings

  // ----- Reaching worlds -----

  ghost predicate KeepsImages(steps: seq<Step>) { forall s :: s in steps ==> !s.SetImages? }

  ghost predicate Reached(images: seq<ImageSpec>, w: World) {
    exists steps :: IsRun(Start(images, None), steps) && KeepsImages(steps) && After(Start(images, None), steps) == w
  }

  lemma {:induction false} RunExtends(w: World, steps: seq<Step>, step: Step)
    requires IsRun(w, steps) && Enabled(After(w, steps), step)
    ensures IsRun(w, steps + [step]) && After(w, steps + [step]) == Next(After(w, steps), step)
    decreases |steps|
  {
    var all := steps + [step];
    if steps == [] {
      assert all == [step] && all[1..] == [];
    } else {
      assert all[1..] == steps[1..] + [step];
      RunExtends(Next(w, steps[0]), steps[1..], step);
    }
  }

  lemma ReachedNext(images: seq<ImageSpec>, w: World, step: Step)
    requires Reached(images, w) && Enabled(w, step) && !step.SetImages?
    ensures Reached(images, Next(w, step))
  {
    var steps :| IsRun(Start(images, None), steps) && KeepsImages(steps) && After(Start(images, None), steps) == w;
    RunExtends(Start(images, None), steps, step);
    assert KeepsImages(steps + [step]);
  }

  // ----- Passes on one image -----

  function NamesBut(images: seq<ImageSpec>, image: string): set<string> {
    set s | s in images && s.image != image :: s.image
  }

  /** A MIC pass in which all calls for images other than `image` fail. */
  function Only(images: seq<ImageSpec>, image: string): MicFaults {
    MicFaults(false, false, false, {}, false, NamesBut(images, image))
  }

  lemma {:induction false} RefusedStay(w: World, todo: seq<ImageSpec>, listed: seq<PullPod>, refused: set<string>)
    requires forall s :: s in todo ==> s.image in refused
    ensures ImagesPhase(w, todo, listed, refused) == w
    decreases |todo|
  {
    if todo != [] {
      assert todo[0] in todo;
      RefusedStay(w, todo[1..], listed, refused);
    }
  }

  lemma {:induction false} OneStep(w: World, todo: seq<ImageSpec>, i: ImageSpec, listed: seq<PullPod>, refused: set<string>)
    requires Deduped(todo) && i in todo && forall s :: s in todo && s.image != i.image ==> s.image in refused
    ensures ImagesPhase(w, todo, listed, refused) == ImageStep(w, i, listed, refused)
    decreases |todo|
  {
    var first, rest := todo[0], todo[1..];
    assert todo == [first] + rest;
    if first == i {
      assert forall s :: s in rest ==> s.image != i.image;
      RefusedStay(ImageStep(w, i, listed, refused), rest, listed, refused);
    } else {
      assert first.image != i.image by {
        var k :| 0 <= k < |todo| && todo[k] == i;
      }
      OneStep(w, rest, i, listed, refused);
    }
  }

  // ----- Between passes -----

  ghost predicate Stage(w: World, images: seq<ImageSpec>) {
    && w.mic.images == images && w.mic.trigger == None == w.mic.adopted && w.pullPods == [] && w.log.pulled == {}
    && (w.mbsc.Some? ==> OneResultEach(w.mbsc.value.results))
  }

  lemma MicOnly(w: World, images: seq<ImageSpec>, i: ImageSpec)
    requires Stage(w, images) && Deduped(images) && i in images
    ensures var f := Only(images, i.image); MicPass(w, f) == ImageStep(AfterResults(w, f), i, [], f.calls)
  {
    var f := Only(images, i.image);
    OneStep(AfterResults(w, f), images, i, [], f.calls);
  }

  lemma StateAfterResults(w: World, images: seq<ImageSpec>, f: MicFaults, spec: ImageSpec)
    requires Stage(w, images) && Deduped(images) && spec in images && !f.resultPatch
    ensures var r := ResultFor(Results(w), spec.image);
            StateOf(AfterResults(w, f).mic.states, spec.image) ==
            if r.None? then StateOf(w.mic.states, spec.image) else Some(ResultState(spec, r.value))
    ensures Stage(AfterResults(w, f), images)
  {
    DedupedIsOneEach(images);
    ResultStateOf(images, Results(w), w.mic.states, spec);
  }

  /** Reading results leaves an image without one as it was. */
  lemma ResultsKeepStates(w: World, images: seq<ImageSpec>, f: MicFaults)
    requires Stage(w, images) && Deduped(images) && !f.resultPatch
    ensures Stage(AfterResults(w, f), images)
    ensures forall j :: j in images && ResultFor(Results(w), j.image).None? ==>
              StateOf(AfterResults(w, f).mic.states, j.image) == StateOf(w.mic.states, j.image)
  {
    forall j | j in images && ResultFor(Results(w), j.image).None?
      ensures StateOf(AfterResults(w, f).mic.states, j.image) == StateOf(w.mic.states, j.image)
    {
      StateAfterResults(w, images, f, j);
    }
  }

  /** A task handed to the MBSC. */
  lemma TaskHandedOver(w: World, images: seq<ImageSpec>, t: Task)
    requires Stage(w, images)
    ensures var w' := WithTask(w, t);
            && Stage(w', images) && w'.mbsc.Some? && Tasks(w') == SetTask(Tasks(w), t) && Results(w') == Results(w)
            && w'.pods == w.pods && w'.log.made == w.log.made && w'.mic == w.mic && (w.mbsc.Some? ==> w'.mbsc.value.uid == w.mbsc.value.uid)
  {
  }

  // ----- Bringing an image to its first task -----

  const MISSING := Pending(true, Some("ErrImagePull"))

  function FirstAction(i: ImageSpec): Action { if i.build then BuildImage else SignImage }

  function FirstState(i: ImageSpec): ImageState { if i.build then NeedsBuilding else NeedsSigning }

  ghost predicate IsFresh(w: World, i: ImageSpec) {
    StateOf(w.mic.states, i.image) == None && ResultFor(Results(w), i.image) == None
  }

  /** What else may matter later is as it was. */
  ghost predicate SameRest(w: World, w': World) {
    w'.pods == w.pods && w'.log.made == w.log.made && Results(w') == Results(w) && (w.mbsc.Some? ==> w'.mbsc.Some? && w'.mbsc.value.uid == w.mbsc.value.uid)
  }

  /** Another image that has no result and no state keeps it so. */
  ghost predicate KeepsFresh(w: World, w': World, images: seq<ImageSpec>, i: ImageSpec) {
    forall j :: j in images && j.image != i.image && IsFresh(w, j) ==> IsFresh(w', j)
  }

  /** The pull pod is made. */
  lemma PullMade(images: seq<ImageSpec>, w: World, i: ImageSpec) returns (w': World)
    requires Reached(images, w) && Stage(w, images) && Deduped(images) && i in images && (i.build || i.sign.Some?) && IsFresh(w, i)
    ensures Reached(images, w') && w'.pullPods == [PullPod(w.nextUid, i.image, true, Pending(false, None))]
    ensures Stage(w'.(pullPods := []), images) && SameRest(w, w') && Tasks(w') == Tasks(w) && w'.mbsc == w.mbsc
    ensures IsFresh(w', i) && KeepsFresh(w, w', images, i)
  {
    var f := Only(images, i.image);
    MicOnly(w, images, i);
    ResultsKeepStates(w, images, f);
    ReachedNext(images, w, MicReconcile(f));
    w' := MicPass(w, f);
  }

  /** It fails, and the next pass hands the image to the MBSC. */
  lemma PullGivenUp(images: seq<ImageSpec>, w: World, i: ImageSpec, uid: nat) returns (w': World)
    requires Reached(images, w) && w.pullPods == [PullPod(uid, i.image, true, Pending(false, None))] && Stage(w.(pullPods := []), images)
    requires Deduped(images) && i in images && (i.build || i.sign.Some?) && IsFresh(w, i)
    ensures Reached(images, w') && Stage(w', images) && SameRest(w, w')
    ensures Tasks(w') == SetTask(Tasks(w), Task(i, FirstAction(i))) && w'.mbsc.Some?
    ensures KeepsFresh(w, w', images, i)
  {
    var p := PullPod(uid, i.image, true, MISSING);
    var w1 := MovePullPod(w, 0, MISSING);
    assert w1 == w.(pullPods := [p]);
    ReachedNext(images, w, PullPodMoves(0, MISSING));
    w' := AfterFailedPull(images, w1, i, p);
  }

  /** A pass that finds the one pull pod given up on asks for the image's first action and drops the pod. */
  lemma FailedPullRead(images: seq<ImageSpec>, w: World, i: ImageSpec, p: PullPod)
    requires w.pullPods == [p] && p.image == i.image && p.oneTime && p.phase == MISSING && w.mic.images == images
    requires Deduped(images) && i in images && (i.build || i.sign.Some?)
    ensures var f := Only(images, i.image);
            && AfterPulls(w, f) == w.(mic := w.mic.(states := SetState(w.mic.states, i.image, FirstState(i))), pullPods := [])
            && !PullsFail(w, f)
  {
    DedupedIsOneEach(images);
    assert SpecOf(images, i.image) == Some(i);
    assert GetPullPodStatus(p) == PullFailed;
    assert [p][1..] == [];
    assert PulledStates(images, [p], w.mic.states) == PulledStates(images, [], PullPodStep(images, p, w.mic.states));
    assert PodsLeft(images, [p], {}) == PodsLeft(images, [], {}) == [];
  }

  /** The pass goes on to hand the image to the MBSC. */
  lemma FirstActionAsked(images: seq<ImageSpec>, w: World, i: ImageSpec, listed: seq<PullPod>)
    requires Stage(w, images) && Deduped(images) && i in images && ResultFor(Results(w), i.image) == None
    requires (i.build || i.sign.Some?) && StateOf(w.mic.states, i.image) == Some(FirstState(i))
    ensures var f := Only(images, i.image);
            var w2 := AfterResults(w, f);
            ImagesPhase(w2, images, listed, f.calls) == WithTask(w2, Task(i, FirstAction(i)))
  {
    var f := Only(images, i.image);
    var w2 := AfterResults(w, f);
    ResultsKeepStates(w, images, f);
    OneStep(w2, images, i, listed, f.calls);
  }

  lemma AfterFailedPull(images: seq<ImageSpec>, w: World, i: ImageSpec, p: PullPod) returns (w': World)
    requires Reached(images, w) && w.pullPods == [p] && p.image == i.image && p.oneTime && p.phase == MISSING && Stage(w.(pullPods := []), images)
    requires Deduped(images) && i in images && (i.build || i.sign.Some?) && IsFresh(w, i)
    ensures Reached(images, w') && Stage(w', images) && SameRest(w, w')
    ensures Tasks(w') == SetTask(Tasks(w), Task(i, FirstAction(i))) && w'.mbsc.Some?
    ensures KeepsFresh(w, w', images, i)
  {
    var f := Only(images, i.image);
    var w1 := w.(mic := w.mic.(states := SetState(w.mic.states, i.image, FirstState(i))), pullPods := []);
    FailedPullRead(images, w, i, p);
    forall j | j in images
      ensures StateOf(w1.mic.states, j.image) == if j.image == i.image then Some(FirstState(i)) else StateOf(w.mic.states, j.image)
    {
      SetStateReads(w.mic.states, i.image, FirstState(i), j.image);
    }
    ResultsKeepStates(w1, images, f);
    FirstActionAsked(images, w1, i, [p]);
    TaskHandedOver(AfterResults(w1, f), images, Task(i, FirstAction(i)));
    ReachedNext(images, w, MicReconcile(f));
    w' := MicPass(w, f);
  }

  // ----- MBSC passes -----

  const MBSC_OK := MbscFaults({}, false, {}, {}, {}, {})
  const UNFINISHED := Pending(false, None)

  /** A pod for the action and kernel is there, owned and not finished. */
  ghost predicate IsBusy(pods: map<PodName, BuildPod>, uid: nat, t: Task) {
    && MakeTemplate(t) == Template
    && NameOf(t) in pods && pods[NameOf(t)].owner == uid && pods[NameOf(t)].phase == UNFINISHED
  }

  ghost predicate AreBusy(pods: map<PodName, BuildPod>, uid: nat, tasks: seq<Task>) {
    forall t :: t in tasks ==> IsBusy(pods, uid, t)
  }

  lemma {:induction false} BusyCollectNothing(pods: map<PodName, BuildPod>, uid: nat, front: seq<Task>, back: seq<Task>, results: seq<ResultEntry>)
    requires AreBusy(pods, uid, front)
    ensures Collected(pods, uid, front + back, results) == Collected(pods, uid, back, results)
    decreases |front|
  {
    if front == [] {
      assert front + back == back;
    } else {
      assert front[0] in front && (front + back)[1..] == front[1..] + back;
      BusyCollectNothing(pods, uid, front[1..], back, results);
    }
  }

  lemma {:induction false} BusySyncNothing(pods: map<PodName, BuildPod>, uid: nat, front: seq<Task>, back: seq<Task>, results: seq<ResultEntry>)
    requires AreBusy(pods, uid, front)
    ensures SyncTasks(pods, uid, front + back, results, MBSC_OK, Clean) == SyncTasks(pods, uid, back, results, MBSC_OK, Clean)
    decreases |front|
  {
    if front == [] {
      assert front + back == back;
    } else {
      var t := front[0];
      assert t in front && (front + back)[1..] == front[1..] + back;
      assert SyncPod(pods, uid, t, MBSC_OK) == pods;
      BusySyncNothing(pods, uid, front[1..], back, results);
    }
  }

  ghost predicate NoneFinished(pods: map<PodName, BuildPod>) {
    forall n :: n in pods ==> pods[n].phase == UNFINISHED
  }

  /** A pass makes the pod of the last entry and nothing else. */
  lemma PodMade(images: seq<ImageSpec>, w: World, front: seq<Task>, t: Task) returns (w': World)
    requires Reached(images, w) && w.mbsc.Some? && Tasks(w) == front + [t] && AreBusy(w.pods, w.mbsc.value.uid, front)
    requires NoneFinished(w.pods) && NameOf(t) !in w.pods && MakeTemplate(t) == Template
    requires OutcomeOf(Results(w), t.spec.image, t.action) != Some(Success)
    ensures w' == w.(pods := w.pods[NameOf(t) := BuildPod(w.mbsc.value.uid, t.spec.image, UNFINISHED)]) && Reached(images, w')
  {
    var m := w.mbsc.value;
    w' := w.(pods := w.pods[NameOf(t) := BuildPod(m.uid, t.spec.image, UNFINISHED)]);
    assert w.pods - {} == w.pods && [t][1..] == [];
    BusyCollectNothing(w.pods, m.uid, front, [t], m.results);
    assert Collected(w.pods, m.uid, [t], m.results) == Collected(w.pods, m.uid, [], CollectStep(w.pods, m.uid, t, m.results));
    assert !StatusFails(w.pods, m.uid, m.tasks, {});
    BusySyncNothing(w.pods, m.uid, front, [t], m.results);
    assert SyncTasks(w.pods, m.uid, [t], m.results, MBSC_OK, Clean) == SyncTasks(w'.pods, m.uid, [], m.results, MBSC_OK, Clean);
    assert GarbageCollected(w'.pods, m.uid, {}) == w'.pods;
    ReachedNext(images, w, MbscReconcile(MBSC_OK));
  }

  /** A pass that finds the pod of the last entry finished records its success and removes it. */
  lemma FinishedPodCollected(w: World, front: seq<Task>, t: Task)
    requires w.mbsc.Some? && Tasks(w) == front + [t] && OneResultEach(Results(w)) && NameOf(t) in w.pods
    requires w.pods[NameOf(t)].owner == w.mbsc.value.uid && w.pods[NameOf(t)].phase == Succeeded
    requires AreBusy(w.pods, w.mbsc.value.uid, front) && NoneFinished(w.pods - {NameOf(t)})
    ensures var m := w.mbsc.value;
            MbscPass(w, MBSC_OK) ==
            w.(pods := w.pods - {NameOf(t)}, mbsc := Some(m.(results := SetResult(m.results, ResultEntry(t.spec.image, t.action, Success, m.uid)))))
  {
    var m := w.mbsc.value;
    var e := ResultEntry(t.spec.image, t.action, Success, m.uid);
    var results := SetResult(m.results, e);
    assert w.pods - {} == w.pods && [t][1..] == [];
    BusyCollectNothing(w.pods, m.uid, front, [t], m.results);
    assert Collected(w.pods, m.uid, [t], m.results) == Collected(w.pods, m.uid, [], results);
    OutcomeAfterSet(m.results, e);
    BusySyncNothing(w.pods, m.uid, front, [t], results);
    assert SyncTasks(w.pods, m.uid, [t], results, MBSC_OK, Clean) == SyncTasks(w.pods, m.uid, [], results, MBSC_OK, Clean);
    FinishedPodGoes(w.pods, m.uid, NameOf(t));
  }

  lemma FinishedPodGoes(pods: map<PodName, BuildPod>, uid: nat, n: PodName)
    requires n in pods && pods[n].owner == uid && pods[n].phase == Succeeded && NoneFinished(pods - {n})
    ensures GarbageCollected(pods, uid, {}) == pods - {n}
  {
    assert forall k :: k in pods && k != n ==> (pods - {n})[k].phase == UNFINISHED;
  }

  /** The pod of the last task succeeds, is collected and goes. */
  lemma PodCollected(images: seq<ImageSpec>, w: World, front: seq<Task>, t: Task) returns (w': World)
    requires Reached(images, w) && w.mbsc.Some? && Tasks(w) == front + [t] && OneResultEach(Results(w))
    requires NameOf(t) in w.pods && w.pods[NameOf(t)] == BuildPod(w.mbsc.value.uid, t.spec.image, UNFINISHED)
    requires AreBusy(w.pods - {NameOf(t)}, w.mbsc.value.uid, front) && NoneFinished(w.pods)
    ensures Reached(images, w')
    ensures var m := w.mbsc.value;
            w' == w.(pods := w.pods - {NameOf(t)},
                     mbsc := Some(m.(results := SetResult(m.results, ResultEntry(t.spec.image, t.action, Success, m.uid)))),
                     log := w.log.(made := w.log.made + {Made(t.action, m.uid, t.spec.image)}))
  {
    var m, n := w.mbsc.value, NameOf(t);
    var w1 := MovePod(w, n, Succeeded);
    ReachedNext(images, w, PodMoves(n, Succeeded));
    assert w1.pods - {n} == w.pods - {n};
    assert AreBusy(w1.pods, m.uid, front) by {
      forall x | x in front ensures IsBusy(w1.pods, m.uid, x) {
        assert IsBusy(w.pods - {n}, m.uid, x);
      }
    }
    FinishedPodCollected(w1, front, t);
    ReachedNext(images, w1, MbscReconcile(MBSC_OK));
    w' := MbscPass(w1, MBSC_OK);
  }

  // ----- Bringing an image to a task of its last action -----

  lemma {:induction false} SetTaskAtEnd(front: seq<Task>, t: Task)
    requires forall x :: x in front ==> x.spec.image != t.spec.image
    ensures SetTask(front, t) == front + [t]
    ensures forall old_: Task :: old_.spec.image == t.spec.image ==> SetTask(front + [old_], t) == front + [t]
  {
    if front == [] {
      forall old_: Task | old_.spec.image == t.spec.image ensures SetTask(front + [old_], t) == front + [t] {
        assert front + [old_] == [old_] && [old_][1..] == [];
      }
    } else {
      assert front[0] in front;
      SetTaskAtEnd(front[1..], t);
      assert front == [front[0]] + front[1..];
      forall old_: Task | old_.spec.image == t.spec.image ensures SetTask(front + [old_], t) == front + [t] {
        assert (front + [old_])[1..] == front[1..] + [old_];
        assert [front[0]] + (front[1..] + [t]) == front + [t];
      }
    }
  }

  /** What is known once the last task is for `i` and `action`. */
  ghost predicate AtTask(w: World, images: seq<ImageSpec>, front: seq<Task>, i: ImageSpec, action: Action) {
    && Reached(images, w) && Stage(w, images) && w.mbsc.Some? && Tasks(w) == front + [Task(i, action)]
    && OutcomeOf(Results(w), i.image, action) != Some(Success)
  }

  lemma AsksForSignature(w: World, images: seq<ImageSpec>, i: ImageSpec)
    requires Stage(w, images) && Deduped(images) && i in images && i.sign.Some?
    requires var r := ResultFor(Results(w), i.image); r.Some? && r.value.outcome == Success && r.value.action == BuildImage
    ensures var f := Only(images, i.image); MicPass(w, f) == WithTask(AfterResults(w, f), Task(i, SignImage))
  {
    var f := Only(images, i.image);
    StateAfterResults(w, images, f, i);
    MicOnly(w, images, i);
    SignatureStep(AfterResults(w, f), i, f.calls);
  }

  lemma SignatureStep(w: World, i: ImageSpec, refused: set<string>)
    requires StateOf(w.mic.states, i.image) == Some(NeedsSigning) && i.image !in refused
    ensures ImageStep(w, i, [], refused) == WithTask(w, Task(i, SignImage))
  {
  }

  /** A MIC pass that finds the build's success asks for the signature. */
  lemma SignatureAsked(images: seq<ImageSpec>, w: World, front: seq<Task>, i: ImageSpec) returns (w': World)
    requires Reached(images, w) && Stage(w, images) && w.mbsc.Some? && Tasks(w) == front + [Task(i, BuildImage)]
    requires Deduped(images) && i in images && i.sign.Some? && (forall x :: x in front ==> x.spec.image != i.image)
    requires var r := ResultFor(Results(w), i.image); r.Some? && r.value.outcome == Success && r.value.action == BuildImage
    ensures AtTask(w', images, front, i, SignImage)
    ensures SameRest(w, w') && KeepsFresh(w, w', images, i)
  {
    var f := Only(images, i.image);
    ResultsKeepStates(w, images, f);
    AsksForSignature(w, images, i);
    SetTaskAtEnd(front, Task(i, SignImage));
    TaskHandedOver(AfterResults(w, f), images, Task(i, SignImage));
    OutcomeByResult(Results(w), i.image, SignImage);
    ReachedNext(images, w, MicReconcile(f));
    w' := MicPass(w, f);
  }

  lemma FreshAfterResult(w: World, w': World, images: seq<ImageSpec>, i: ImageSpec, e: ResultEntry)
    requires w'.mic == w.mic && Results(w') == SetResult(Results(w), e) && e.image == i.image
    ensures KeepsFresh(w, w', images, i)
  {
    forall j | j in images && j.image != i.image && IsFresh(w, j)
      ensures IsFresh(w', j)
    {
      SetResultReads(Results(w), e, j.image);
    }
  }

  /** A built image goes on to signing: its pod is made, succeeds and is collected, and the MIC asks for the signature. */
  lemma BuiltThenSigned(images: seq<ImageSpec>, w: World, front: seq<Task>, i: ImageSpec) returns (w': World)
    requires AtTask(w, images, front, i, BuildImage) && Deduped(images) && i in images && i.build && i.sign.Some?
    requires AreBusy(w.pods, w.mbsc.value.uid, front) && NoneFinished(w.pods) && NameOf(Task(i, BuildImage)) !in w.pods
    requires forall x :: x in front ==> x.spec.image != i.image
    ensures AtTask(w', images, front, i, SignImage) && w'.pods == w.pods && w'.mbsc.value.uid == w.mbsc.value.uid
    ensures w'.log.made == w.log.made + {Made(BuildImage, w.mbsc.value.uid, i.image)}
    ensures KeepsFresh(w, w', images, i)
  {
    var t, uid := Task(i, BuildImage), w.mbsc.value.uid;
    var w1 := PodMade(images, w, front, t);
    assert w1.pods - {NameOf(t)} == w.pods;
    var w2 := PodCollected(images, w1, front, t);
    var e := ResultEntry(i.image, BuildImage, Success, uid);
    SetResultKeepsOneEach(Results(w), e);
    SetResultReads(Results(w), e, i.image);
    FreshAfterResult(w, w2, images, i, e);
    w' := SignatureAsked(images, w2, front, i);
  }

  /** From nothing to a task for `action`, which is the image's first action or, after its build, signing. */
  lemma BroughtTo(images: seq<ImageSpec>, w: World, front: seq<Task>, i: ImageSpec, action: Action) returns (w': World)
    requires Reached(images, w) && Stage(w, images) && Deduped(images) && i in images && Tasks(w) == front && IsFresh(w, i)
    requires if action == BuildImage then i.build else i.sign.Some?
    requires forall x :: x in front ==> x.spec.image != i.image
    requires NoneFinished(w.pods) && (w.mbsc.Some? ==> AreBusy(w.pods, w.mbsc.value.uid, front)) && (w.mbsc.None? ==> front == [])
    requires action == SignImage && i.build ==> NameOf(Task(i, BuildImage)) !in w.pods
    ensures AtTask(w', images, front, i, action) && w'.pods == w.pods && (w.mbsc.Some? ==> w'.mbsc.value.uid == w.mbsc.value.uid)
    ensures forall x :: x in w'.log.made && x !in w.log.made ==> x.image == i.image && x.action == BuildImage && action == SignImage
    ensures KeepsFresh(w, w', images, i)
  {
    var w1 := PullMade(images, w, i);
    var w2 := PullGivenUp(images, w1, i, w.nextUid);
    SetTaskAtEnd(front, Task(i, FirstAction(i)));
    OutcomeByResult(Results(w2), i.image, FirstAction(i));
    w' := w2;
    if action == SignImage && i.build {
      w' := BuiltThenSigned(images, w2, front, i);
    }
  }

  // ----- The forged success -----

  lemma BothCollected(pods: map<PodName, BuildPod>, uid: nat, a: Task, b: Task, results: seq<ResultEntry>)
    requires NameOf(a) == NameOf(b) && NameOf(a) in pods && pods[NameOf(a)].owner == uid && pods[NameOf(a)].phase == Succeeded
    requires OneResultEach(results)
    ensures var r := Collected(pods, uid, [a, b], results);
            OneResultEach(r) && ResultFor(r, b.spec.image) == Some(ResultEntry(b.spec.image, b.action, Success, uid))
  {
    var ea, eb := ResultEntry(a.spec.image, a.action, Success, uid), ResultEntry(b.spec.image, b.action, Success, uid);
    var r1 := SetResult(results, ea);
    assert [a, b][1..] == [b] && [b][1..] == [];
    assert Collected(pods, uid, [a, b], results) == Collected(pods, uid, [b], r1) == Collected(pods, uid, [], SetResult(r1, eb));
    SetResultKeepsOneEach(results, ea);
    SetResultKeepsOneEach(r1, eb);
    SetResultReads(r1, eb, b.spec.image);
  }

  /** Whatever it does to pods, a pass without faults leaves the collected results. */
  lemma PassCollects(w: World)
    requires w.mbsc.Some?
    ensures var m, w' := w.mbsc.value, MbscPass(w, MBSC_OK);
            w' == w.(pods := w'.pods, mbsc := Some(m.(results := Collected(w.pods, m.uid, m.tasks, m.results))))
  {
    assert w.pods - {} == w.pods;
  }

  /** The shared pod succeeds, and its success is collected for both. */
  lemma SuccessShared(images: seq<ImageSpec>, w: World, to: Task, tv: Task) returns (w': World)
    requires Reached(images, w) && Stage(w, images) && w.mbsc.Some? && Tasks(w) == [to, tv] && NameOf(to) == NameOf(tv)
    requires NameOf(to) in w.pods && w.pods[NameOf(to)].owner == w.mbsc.value.uid
    ensures Reached(images, w') && Stage(w', images) && w'.mbsc.Some?
    ensures ResultFor(Results(w'), tv.spec.image) == Some(ResultEntry(tv.spec.image, tv.action, Success, w.mbsc.value.uid))
    ensures w'.log.made == w.log.made + {Made(to.action, w.mbsc.value.uid, w.pods[NameOf(to)].image)}
  {
    var m := w.mbsc.value;
    var w1 := MovePod(w, NameOf(to), Succeeded);
    ReachedNext(images, w, PodMoves(NameOf(to), Succeeded));
    BothCollected(w1.pods, m.uid, to, tv, m.results);
    PassCollects(w1);
    ReachedNext(images, w1, MbscReconcile(MBSC_OK));
    w' := MbscPass(w1, MBSC_OK);
  }

  /** The MIC reads it. */
  lemma ReadAsExists(images: seq<ImageSpec>, w: World, v: ImageSpec) returns (w': World)
    requires Reached(images, w) && Stage(w, images) && Deduped(images) && v in images
    requires var r := ResultFor(Results(w), v.image); r.Some? && r.value.outcome == Success && r.value.action == LastAction(v)
    ensures Reached(images, w') && StateOf(w'.mic.states, v.image) == Some(Exists)
    ensures w'.log.pulled == {} && w'.log.made == w.log.made
  {
    var f := Only(images, v.image);
    StateAfterResults(w, images, f, v);
    MicOnly(w, images, v);
    ReachedNext(images, w, MicReconcile(f));
    w' := MicPass(w, f);
  }

  /** No pod of `v` has finished `action`. */
  ghost predicate NotMade(log: History, action: Action, v: ImageSpec) {
    forall m :: m in log.made && m.image == v.image ==> m.action != action
  }

  /** The first image's pod for that action is running. */
  lemma PodRunning(images: seq<ImageSpec>, o: ImageSpec, v: ImageSpec) returns (w: World)
    requires Deduped(images) && o in images && v in images && CanPassFor(o, v)
    ensures var t := Task(o, LastAction(v));
            && Reached(images, w) && Stage(w, images) && w.mbsc.Some? && Tasks(w) == [t]
            && w.pods == map[NameOf(t) := BuildPod(w.mbsc.value.uid, o.image, UNFINISHED)]
            && NotMade(w.log, LastAction(v), v) && IsFresh(w, v)
  {
    var x, w0 := LastAction(v), Start(images, None);
    assert Reached(images, w0) by {
      assert IsRun(w0, []) && After(w0, []) == w0 && KeepsImages([]);
    }
    var w1 := BroughtTo(images, w0, [], o, x);
    assert [] + [Task(o, x)] == [Task(o, x)];
    assert IsFresh(w1, v);
    w := PodMade(images, w1, [], Task(o, x));
  }

  /** For any list with such a pair there is a run after which the second image reads `Exists` with no cause. */
  lemma PassingPodForgesExists(images: seq<ImageSpec>, o: ImageSpec, v: ImageSpec) returns (w: World)
    requires Deduped(images) && o in images && v in images && CanPassFor(o, v)
    ensures Reached(images, w) && StateOf(w.mic.states, v.image) == Some(Exists) && !Justified(images, w.log, v.image)
  {
    var x := LastAction(v);
    var to, tv := Task(o, x), Task(v, x);
    var w2 := PodRunning(images, o, v);
    assert x == SignImage ==> NameOf(Task(v, BuildImage)) !in w2.pods;
    var w3 := BroughtTo(images, w2, [to], v, x);
    assert [to] + [tv] == [to, tv] && NameOf(to) == NameOf(tv);
    var w4 := SuccessShared(images, w3, to, tv);
    w := ReadAsExists(images, w4, v);
    assert NotMade(w.log, x, v);
    NoCause(images, w.log, v);
  }

  lemma NoCause(images: seq<ImageSpec>, log: History, v: ImageSpec)
    requires Deduped(images) && v in images && log.pulled == {} && NotMade(log, LastAction(v), v)
    ensures !Justified(images, log, v.image)
  {
    DedupedIsOneEach(images);
  }

  // ----- The exact condition -----

  /** In every run with this list every image that reads `Exists` has a cause. */
  ghost predicate CausesHold(images: seq<ImageSpec>) {
    forall trigger, steps, image ::
      IsRun(Start(images, trigger), steps) && KeepsImages(steps) && StateOf(After(Start(images, trigger), steps).mic.states, image) == Some(Exists) ==>
        Justified(images, After(Start(images, trigger), steps).log, image)
  }

  /** Provenance holds for a filtered image list if and only if no image's pod can pass for another's. */
  lemma CausesHoldIff(images: seq<ImageSpec>)
    requires Deduped(images)
    ensures CausesHold(images) <==> NonePasses(images)
  {
    DedupedIsOneEach(images);
    if NonePasses(images) {
      forall trigger, steps, image |
        IsRun(Start(images, trigger), steps) && KeepsImages(steps) && StateOf(After(Start(images, trigger), steps).mic.states, image) == Some(Exists)
        ensures Justified(images, After(Start(images, trigger), steps).log, image)
      {
        ExistsHasACause(images, trigger, steps, image);
      }
    } else {
      var v, o :| v in images && o in images && CanPassFor(o, v);
      var w := PassingPodForgesExists(images, o, v);
      var steps :| IsRun(Start(images, None), steps) && KeepsImages(steps) && After(Start(images, None), steps) == w;
      assert StateOf(After(Start(images, None), steps).mic.states, v.image) == Some(Exists);
    }
  }
}
