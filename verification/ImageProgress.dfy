/**
 Bounded progress of the image pipeline: an image that can be built or signed comes to exist after at
 most thirteen steps that move it on, whatever API calls fail in between and whatever happens to the
 other images (internal/controllers/mic_reconciler.go:66-308, internal/controllers/mbsc_reconciler.go:66-154).
 */
module ImageProgress {
  import opened Basics
  import opened KernelNames
  import opened ImagePipeline
  import opened ImageRuns
  import opened ImageReadings

  // ----- What every step keeps of the lists -----

  ghost predicate ListsOk(w: World) {
    && Deduped(w.mic.images) && w.mic.trigger == w.mic.adopted
    && DistinctPulls(w.pullPods) && OneTaskEach(Tasks(w)) && OneResultEach(Results(w))
    && (forall t :: t in Tasks(w) ==> t.spec in w.mic.images)
  }

  lemma {:induction false} SetTaskKeepsOneEach(tasks: seq<Task>, t: Task)
    requires OneTaskEach(tasks)
    ensures OneTaskEach(SetTask(tasks, t))
    ensures forall x :: x in SetTask(tasks, t) ==> x.spec.image == t.spec.image || exists y :: y in tasks && y.spec.image == x.spec.image
  {
    if tasks != [] && tasks[0].spec.image != t.spec.image {
      var rest, rest' := tasks[1..], SetTask(tasks[1..], t);
      SetTaskKeepsOneEach(rest, t);
      assert tasks == [tasks[0]] + rest && SetTask(tasks, t) == [tasks[0]] + rest';
      forall j | 0 <= j < |rest'|
        ensures rest'[j].spec.image != tasks[0].spec.image
      {
        assert rest'[j] in rest';
        if rest'[j].spec.image != t.spec.image {
          var y :| y in rest && y.spec.image == rest'[j].spec.image;
        }
      }
    }
  }

  lemma {:induction false} PodsLeftDistinct(images: seq<ImageSpec>, pods: seq<PullPod>, refused: set<nat>)
    requires DistinctPulls(pods)
    ensures DistinctPulls(PodsLeft(images, pods, refused))
  {
    if pods != [] {
      var rest := PodsLeft(images, pods[1..], refused);
      assert pods == [pods[0]] + pods[1..];
      PodsLeftDistinct(images, pods[1..], refused);
      assert forall p :: p in rest ==> p in pods[1..] && p.image != pods[0].image;
    }
  }

  /** New pull pods are for images that had none when the pass listed them, one each. */
  lemma {:induction false} PhaseKeepsLists(w: World, todo: seq<ImageSpec>, listed: seq<PullPod>, refused: set<string>)
    requires ListsOk(w) && Deduped(todo) && (forall s :: s in todo ==> s in w.mic.images)
    requires forall p, s :: p in w.pullPods && s in todo && p.image == s.image ==> HasPullPod(listed, s.image)
    ensures ListsOk(ImagesPhase(w, todo, listed, refused))
    decreases |todo|
  {
    if todo != [] {
      var s, rest := todo[0], todo[1..];
      assert todo == [s] + rest;
      var w1 := ImageStep(w, s, listed, refused);
      var a := ActionFor(s, StateOf(w.mic.states, s.image));
      if a.Some? {
        SetTaskKeepsOneEach(Tasks(w), Task(s, a.value));
      }
      if w1.pullPods != w.pullPods {
        assert forall p :: p in w.pullPods ==> p.image != s.image;
      }
      assert ListsOk(w1);
      PhaseKeepsLists(w1, rest, listed, refused);
    }
  }

  lemma MicKeepsLists(w: World, f: MicFaults)
    requires ListsOk(w)
    ensures ListsOk(MicPass(w, f))
  {
    PodsLeftDistinct(w.mic.images, w.pullPods, f.podDeletes);
    var w1 := AfterPulls(w, f);
    var w2 := AfterResults(w1, f);
    assert ListsOk(w2);
    assert forall p :: p in w2.pullPods ==> p in w.pullPods;
    PhaseKeepsLists(w2, w2.mic.images, w.pullPods, f.calls);
  }

  lemma MbscKeepsLists(w: World, f: MbscFaults)
    requires ListsOk(w)
    ensures ListsOk(MbscPass(w, f)) && Tasks(MbscPass(w, f)) == Tasks(w) && MbscPass(w, f).mic == w.mic && MbscPass(w, f).pullPods == w.pullPods
    ensures w.mbsc.Some? ==> MbscPass(w, f).mbsc.Some? && MbscPass(w, f).mbsc.value.uid == w.mbsc.value.uid
  {
    if w.mbsc.Some? {
      CollectedOneEach(w.pods - f.lists, w.mbsc.value.uid, w.mbsc.value.tasks, w.mbsc.value.results);
    }
  }

  lemma {:induction false} TaskForIff(tasks: seq<Task>, image: string)
    ensures TaskFor(tasks, image).None? <==> forall t :: t in tasks ==> t.spec.image != image
    ensures TaskFor(tasks, image).Some? ==> TaskFor(tasks, image).value in tasks && TaskFor(tasks, image).value.spec.image == image
  {
    if tasks != [] {
      assert tasks == [tasks[0]] + tasks[1..];
      TaskForIff(tasks[1..], image);
    }
  }

  // ----- One image -----

  /** Everything the two controllers hold about one image; pods only for the actions it has. */
  datatype Slot = Slot(state: Option<ImageState>, pull: Option<PullPod>, task: Option<Action>, result: Option<ResultEntry>,
                       builder: Option<BuildPod>, signer: Option<BuildPod>)

  function ActionOf(t: Option<Task>): Option<Action> { if t.None? then None else Some(t.value.action) }

  function PodNameFor(i: ImageSpec, action: Action): PodName { PodName(action, DnsSafe(i.kernel)) }

  function SlotOf(w: World, i: ImageSpec): Slot {
    Slot(StateOf(w.mic.states, i.image), PullPodOf(w.pullPods, i.image), ActionOf(TaskFor(Tasks(w), i.image)), ResultFor(Results(w), i.image),
         if i.build then Lookup(w.pods, PodNameFor(i, BuildImage)) else None,
         if i.sign.Some? then Lookup(w.pods, PodNameFor(i, SignImage)) else None)
  }

  function PodIn(s: Slot, action: Action): Option<BuildPod> { if action == BuildImage then s.builder else s.signer }

  predicate Ended(p: PullPod) { p.phase == Succeeded || GaveUp(p) }

  /** There is something to make the image from, and for a signature alone something to sign. */
  predicate CanBeHad(i: ImageSpec) { CanBeMade(Task(i, LastAction(i))) }

  predicate ResultIs(r: Option<ResultEntry>, action: Action) { r.Some? && r.value.action == action && r.value.outcome == Success }

  predicate IsHealthy(pod: Option<BuildPod>) { pod.Some? ==> pod.value.phase != Failed && pod.value.phase != Unknown }

  /** How far an image has come, with no pull or pod of its own having failed for good. */
  predicate SlotOk(i: ImageSpec, s: Slot) {
    && (s.pull.Some? ==> s.pull.value.oneTime && s.pull.value.phase != Failed && s.pull.value.phase != Unknown && s.task.None? && s.result.None?)
    && (s.pull.Some? && s.state.Some? ==> Ended(s.pull.value))
    && IsHealthy(s.builder) && IsHealthy(s.signer)
    && (s.result.Some? ==> ResultIs(s.result, BuildImage) || ResultIs(s.result, SignImage))
    && (s.task == Some(BuildImage) ==> i.build) && (s.task == Some(SignImage) ==> i.sign.Some?)
    && match s.state
       case None => s.task.None? && s.result.None?
       case Some(Exists) => (s.pull.Some? ==> s.pull.value.phase == Succeeded) &&
                            if s.task.None? then s.result.None? else s.task == Some(LastAction(i)) && ResultIs(s.result, LastAction(i))
       case Some(DoesNotExist) => false
       case Some(NeedsBuilding) => i.build && s.task != Some(SignImage) && (s.result.Some? ==> s.task.Some? && ResultIs(s.result, BuildImage))
       case Some(NeedsSigning) => i.sign.Some? && (s.pull.Some? ==> !i.build) && (ResultIs(s.result, SignImage) ==> s.task == Some(SignImage))
  }

  datatype Wait = Nothing | ForMic | ForMbsc | ForPull | ForPod

  function WaitsForTask(s: Slot, action: Action): Wait {
    if ResultIs(s.result, action) || s.task != Some(action) then ForMic
    else if PodIn(s, action).Some? && PodIn(s, action).value.phase != Succeeded then ForPod
    else ForMbsc
  }

  /** Who has to move the image on. */
  function WaitsFor(s: Slot): Wait {
    match s.state
    case Some(Exists) => Nothing
    case None => if s.pull.Some? && !Ended(s.pull.value) then ForPull else ForMic
    case _ => if s.pull.Some? then ForMic else WaitsForTask(s, if s.state == Some(NeedsSigning) then SignImage else BuildImage)
  }

  /** Steps to go until an action's success has been read, with `rest` to go after it. */
  function RankOfTask(s: Slot, action: Action, rest: nat): nat {
    if ResultIs(s.result, action) then rest + 1
    else if s.task != Some(action) then rest + 5
    else if PodIn(s, action).None? then rest + 4
    else if PodIn(s, action).value.phase == Succeeded then rest + 2
    else rest + 3
  }

  function RestAfterBuild(i: ImageSpec): nat { if i.sign.Some? then 5 else 0 }

  function RankOfFallback(i: ImageSpec): nat { if i.build then RestAfterBuild(i) + 6 else 6 }

  /** An upper bound on the steps to go until the image exists. */
  function Rank(i: ImageSpec, s: Slot): nat {
    if s.state == Some(Exists) then 0
    else if s.pull.Some? && s.pull.value.phase == Succeeded then 1
    else
      match s.state
      case None => RankOfFallback(i) + if s.pull.None? then 2 else if GaveUp(s.pull.value) then 0 else 1
      case Some(NeedsSigning) => RankOfTask(s, SignImage, 0)
      case _ => RankOfTask(s, BuildImage, RestAfterBuild(i))
  }

  /** What a MIC pass leaves of an image: which patches were accepted, whether the pull pod outlived it and whether the image had its turn. */
  function AfterMic(i: ImageSpec, s: Slot, patched: bool, isRead: bool, turn: bool, stays: bool, newPod: PullPod): Slot {
    var pulled := if patched then Pulled(i, s.pull, s.state) else s.state;
    var state := if isRead then Read(i, s.result, pulled) else pulled;
    s.(state := state,
       pull := if s.pull.Some? then (if stays then s.pull else None) else if turn && state.None? then Some(newPod) else None,
       task := if turn && Wanted(i, state).Some? then Wanted(i, state) else s.task)
  }

  lemma MicMovesOn(i: ImageSpec, s: Slot, patched: bool, isRead: bool, turn: bool, stays: bool, newPod: PullPod)
    requires SlotOk(i, s) && CanBeHad(i) && newPod.oneTime && newPod.phase == Pending(false, None)
    requires s.pull.Some? && !Ended(s.pull.value) ==> stays
    requires s.pull.Some? && Ended(s.pull.value) && turn ==> patched && !stays
    requires !patched ==> stays
    requires turn ==> isRead || s.result.None?
    ensures var s' := AfterMic(i, s, patched, isRead, turn, stays, newPod);
            SlotOk(i, s') && Rank(i, s') <= Rank(i, s) && (turn && WaitsFor(s) == ForMic ==> Rank(i, s') < Rank(i, s))
  {
    assert s.task.Some? ==> s.task.value.BuildImage? || s.task.value.SignImage?;
  }

  predicate KeptOrCollected(pod: Option<BuildPod>, pod': Option<BuildPod>) {
    pod' == pod || (pod' == None && pod.Some? && pod.value.phase == Succeeded)
  }

  /**
   What an MBSC pass leaves of an image. `had`: it got past the statuses; `goes`: the image's task has
   its turn and the calls for it go through. A pod is collected only after its success is on record.
   */
  predicate AfterMbsc(s: Slot, s': Slot, had: bool, goes: bool) {
    && s'.state == s.state && s'.pull == s.pull && s'.task == s.task
    && (s.task.None? ==> s'.result == s.result && KeptOrCollected(s.builder, s'.builder) && KeptOrCollected(s.signer, s'.signer))
    && (s.task.Some? ==>
          var a := s.task.value;
          var pod, pod' := PodIn(s, a), PodIn(s', a);
          var done := pod.Some? && pod.value.phase == Succeeded;
          && KeptOrCollected(PodIn(s, if a == BuildImage then SignImage else BuildImage), PodIn(s', if a == BuildImage then SignImage else BuildImage))
          && (s'.result == s.result || (done && ResultIs(s'.result, a))) && (had && done ==> ResultIs(s'.result, a))
          && (!had ==> pod' == pod)
          && (pod.Some? ==> KeptOrCollected(pod, pod'))
          && (pod.None? ==> pod'.None? || (pod'.value.phase == Pending(false, None) && !ResultIs(s'.result, a)))
          && (pod.None? && had && goes && !ResultIs(s'.result, a) ==> pod'.Some?))
  }

  lemma MbscMovesOn(i: ImageSpec, s: Slot, s': Slot, had: bool, goes: bool)
    requires SlotOk(i, s) && AfterMbsc(s, s', had, goes)
    ensures SlotOk(i, s') && Rank(i, s') <= Rank(i, s) && (had && goes && WaitsFor(s) == ForMbsc ==> Rank(i, s') < Rank(i, s))
  {
    assert s.task.Some? ==> s.task.value.BuildImage? || s.task.value.SignImage?;
  }

  // ----- Images among others -----

  /** The image is among those the MIC is to provide, its pods are the MBSC's own, and nothing of it has failed for good. */
  ghost predicate OnTrack(w: World, i: ImageSpec) {
    && ListsOk(w) && NonePasses(w.mic.images) && i in w.mic.images && CanBeHad(i)
    && (forall a: Action :: CanBeMade(Task(i, a)) && PodNameFor(i, a) in w.pods ==> w.mbsc.Some? && w.pods[PodNameFor(i, a)].owner == w.mbsc.value.uid)
    && SlotOk(i, SlotOf(w, i))
  }

  /** No other image's task can make a pod of the image's names. */
  lemma NamesAreOwn(images: seq<ImageSpec>, i: ImageSpec, t: Task, a: Action)
    requires Deduped(images) && NonePasses(images) && i in images && t.spec in images && t.spec.image != i.image
    requires CanBeHad(i) && CanBeMade(Task(i, a)) && NameOf(t) == PodNameFor(i, a)
    ensures !CanBeMade(t)
  {
    assert !CanPassFor(t.spec, i) && !CanPassFor(i, t.spec);
    TemplateIff(Task(t.spec, LastAction(i)));
    TemplateIff(Task(i, LastAction(t.spec)));
  }

  lemma PullPodOfOne(pods: seq<PullPod>, p: PullPod)
    requires DistinctPulls(pods) && p in pods
    ensures PullPodOf(pods, p.image) == Some(p)
  {
    PullPodIsFirst(pods, p.image);
  }

  // ----- Passes -----

  /** The pass is one that moves on an image waiting for it. */
  ghost predicate MicGetsTo(w: World, f: MicFaults, i: ImageSpec) { Proceeds(w, f) && i.image !in f.calls }

  /** The image's pull pod after the pass, if one is made, one that may be given up on. */
  lemma PullAfterMic(w: World, f: MicFaults, i: ImageSpec) returns (newPod: PullPod)
    requires OnTrack(w, i)
    ensures newPod.oneTime && newPod.phase == Pending(false, None)
    ensures var pull, state := PullPodOf(w.pullPods, i.image), StateOf(MicPass(w, f).mic.states, i.image);
            PullPodOf(MicPass(w, f).pullPods, i.image) ==
            if pull.Some? then (if Stays(w, f, pull.value) then pull else None) else if MicGetsTo(w, f, i) && state.None? then Some(newPod) else None
  {
    var w' := MicPass(w, f);
    var pull := PullPodOf(w.pullPods, i.image);
    MicKeepsLists(w, f);
    AskedAfterPass(w, f, i);
    PullPodIsFirst(w.pullPods, i.image);
    PullPodIsFirst(w'.pullPods, i.image);
    newPod := PullPod(0, i.image, true, Pending(false, None));
    if MicGetsTo(w, f, i) && StateOf(w'.mic.states, i.image).None? && pull.None? {
      var uid :| uid >= w.nextUid && IsOnlyPullPod(w', PullPod(uid, i.image, HasFallback(i), Pending(false, None)));
      newPod := PullPod(uid, i.image, HasFallback(i), Pending(false, None));
      PullPodOfOne(w'.pullPods, newPod);
    } else if pull.Some? && Stays(w, f, pull.value) {
      PullPodOfOne(w'.pullPods, pull.value);
    } else {
      forall p: PullPod ensures !(p in w'.pullPods && p.image == i.image) {
        if p in w.pullPods && p.image == i.image {
          PullPodOfOne(w.pullPods, p);
        }
      }
    }
  }

  lemma SlotAfterMic(w: World, f: MicFaults, i: ImageSpec) returns (newPod: PullPod)
    requires OnTrack(w, i)
    ensures newPod.oneTime && newPod.phase == Pending(false, None)
    ensures var pull := PullPodOf(w.pullPods, i.image);
            SlotOf(MicPass(w, f), i) ==
            AfterMic(i, SlotOf(w, i), !f.pullPatch, PullsPass(w, f) && !f.resultPatch, MicGetsTo(w, f, i), pull.Some? ==> Stays(w, f, pull.value), newPod)
  {
    MicKeepsRest(w, f);
    StateAfterPass(w, f, i);
    AskedAfterPass(w, f, i);
    newPod := PullAfterMic(w, f, i);
  }

  lemma MicMoves(w: World, f: MicFaults, i: ImageSpec)
    requires OnTrack(w, i)
    ensures var w' := MicPass(w, f);
            && OnTrack(w', i) && Rank(i, SlotOf(w', i)) <= Rank(i, SlotOf(w, i))
            && (MicGetsTo(w, f, i) && WaitsFor(SlotOf(w, i)) == ForMic ==> Rank(i, SlotOf(w', i)) < Rank(i, SlotOf(w, i)))
  {
    var newPod := SlotAfterMic(w, f, i);
    MicKeepsLists(w, f);
    MicKeepsRest(w, f);
    var pull := PullPodOf(w.pullPods, i.image);
    PullPodIsFirst(w.pullPods, i.image);
    MicMovesOn(i, SlotOf(w, i), !f.pullPatch, PullsPass(w, f) && !f.resultPatch, MicGetsTo(w, f, i), pull.Some? ==> Stays(w, f, pull.value), newPod);
  }

  /** The pass gets past the statuses and past every task before the image's, and the calls for its pod go through. */
  ghost predicate MbscGetsTo(w: World, f: MbscFaults, i: ImageSpec) {
    && w.mbsc.Some? && StatusesHad(w, f) && NoneLacksSection(Tasks(w))
    && forall a: Action :: PodNameFor(i, a) !in f.prepares && PodNameFor(i, a) !in f.creates
  }

  lemma OwnsItsName(w: World, i: ImageSpec, t: Task)
    requires OnTrack(w, i) && t in Tasks(w) && t.spec.image == i.image
    ensures t.spec == i && CanBeMade(t) && OwnsName(Tasks(w), t)
    ensures forall a: Action, o :: o in Tasks(w) && a != t.action && CanBeMade(Task(i, a)) ==> NameOf(o) != PodNameFor(i, a) || !CanBeMade(o)
  {
    DedupedIsOneEach(w.mic.images);
    OnlyTask(Tasks(w), t);
    forall a: Action, o | o in Tasks(w) && o != t && CanBeMade(Task(i, a)) && NameOf(o) == PodNameFor(i, a)
      ensures !CanBeMade(o)
    {
      assert o.spec.image != i.image;
      NamesAreOwn(w.mic.images, i, o, a);
    }
  }

  lemma OnlyTask(tasks: seq<Task>, t: Task)
    requires OneTaskEach(tasks) && t in tasks
    ensures TaskFor(tasks, t.spec.image) == Some(t)
    ensures forall o :: o in tasks && o != t ==> o.spec.image != t.spec.image
  {
    TaskForIff(tasks, t.spec.image);
  }

  lemma SlotPod(w: World, i: ImageSpec, a: Action)
    requires CanBeHad(i)
    ensures PodIn(SlotOf(w, i), a) == if CanBeMade(Task(i, a)) then Lookup(w.pods, PodNameFor(i, a)) else None
  {
  }

  /** A pod of the image that is not for its current action stays, or is collected. */
  lemma IdlePod(w: World, f: MbscFaults, i: ImageSpec, a: Action)
    requires OnTrack(w, i) && w.mbsc.Some? && ActionOf(TaskFor(Tasks(w), i.image)) != Some(a)
    ensures KeptOrCollected(PodIn(SlotOf(w, i), a), PodIn(SlotOf(MbscPass(w, f), i), a))
  {
    SlotPod(w, i, a);
    SlotPod(MbscPass(w, f), i, a);
    if CanBeMade(Task(i, a)) {
      forall t | t in Tasks(w) ensures NameOf(t) != PodNameFor(i, a) || !CanBeMade(t) {
        if t.spec.image == i.image {
          OnlyTask(Tasks(w), t);
        } else if NameOf(t) == PodNameFor(i, a) {
          NamesAreOwn(w.mic.images, i, t, a);
        }
      }
      OtherPodAfterPass(w, f, PodNameFor(i, a));
    }
  }

  lemma NoTaskNoResult(w: World, f: MbscFaults, image: string)
    requires w.mbsc.Some? && OneResultEach(Results(w)) && TaskFor(Tasks(w), image).None?
    ensures ResultFor(Results(MbscPass(w, f)), image) == ResultFor(Results(w), image)
  {
    TaskForIff(Tasks(w), image);
    if !f.statusPatch {
      CollectedOthers(w.pods - f.lists, w.mbsc.value.uid, Tasks(w), Results(w), image);
    }
  }

  /** The pod and result of the image's current action. */
  lemma BusyPod(w: World, f: MbscFaults, i: ImageSpec, t: Task)
    requires OnTrack(w, i) && w.mbsc.Some? && TaskFor(Tasks(w), i.image) == Some(t) && PodNameFor(i, t.action) !in f.changed
    ensures var s, s' := SlotOf(w, i), SlotOf(MbscPass(w, f), i);
            var pod, pod' := PodIn(s, t.action), PodIn(s', t.action);
            var done := pod.Some? && pod.value.phase == Succeeded;
            && (s'.result == s.result || (done && ResultIs(s'.result, t.action))) && (StatusesHad(w, f) && done ==> ResultIs(s'.result, t.action))
            && (!StatusesHad(w, f) ==> pod' == pod)
            && (pod.Some? ==> KeptOrCollected(pod, pod'))
            && (pod.None? ==> pod'.None? || (pod'.value.phase == Pending(false, None) && !ResultIs(s'.result, t.action)))
            && (pod.None? && MbscGetsTo(w, f, i) && !ResultIs(s'.result, t.action) ==> pod'.Some?)
  {
    var w' := MbscPass(w, f);
    TaskForIff(Tasks(w), i.image);
    OwnsItsName(w, i, t);
    SlotPod(w, i, t.action);
    SlotPod(w', i, t.action);
    ResultAfterPass(w, f, t);
    PodAfterPass(w, f, t);
    MbscKeepsLists(w, f);
    OutcomeByResult(Results(w'), i.image, t.action);
    assert CanBeMade(Task(i, t.action)) && PodNameFor(i, t.action) == NameOf(t);
  }

  lemma SlotAfterMbsc(w: World, f: MbscFaults, i: ImageSpec)
    requires OnTrack(w, i) && (forall a: Action :: PodNameFor(i, a) !in f.changed)
    ensures AfterMbsc(SlotOf(w, i), SlotOf(MbscPass(w, f), i), w.mbsc.Some? && StatusesHad(w, f), MbscGetsTo(w, f, i))
  {
    MbscKeepsLists(w, f);
    if w.mbsc.Some? {
      if TaskFor(Tasks(w), i.image).Some? {
        var t := TaskFor(Tasks(w), i.image).value;
        BusyPod(w, f, i, t);
        IdlePod(w, f, i, if t.action == BuildImage then SignImage else BuildImage);
      } else {
        NoTaskNoResult(w, f, i.image);
        IdlePod(w, f, i, BuildImage);
        IdlePod(w, f, i, SignImage);
      }
    }
  }

  /** A pass makes pods only in its own name. */
  lemma PodsStayOwned(w: World, f: MbscFaults, i: ImageSpec, a: Action)
    requires OnTrack(w, i) && w.mbsc.Some? && CanBeMade(Task(i, a)) && PodNameFor(i, a) in MbscPass(w, f).pods
    ensures MbscPass(w, f).pods[PodNameFor(i, a)].owner == w.mbsc.value.uid
  {
    var n := PodNameFor(i, a);
    TaskForIff(Tasks(w), i.image);
    if TaskFor(Tasks(w), i.image) == Some(Task(i, a)) {
      OwnsItsName(w, i, Task(i, a));
      PodAfterPass(w, f, Task(i, a));
    } else {
      DedupedIsOneEach(w.mic.images);
      SlotPod(w, i, a);
      SlotPod(MbscPass(w, f), i, a);
      IdlePod(w, f, i, a);
    }
  }

  lemma MbscMoves(w: World, f: MbscFaults, i: ImageSpec)
    requires OnTrack(w, i) && (forall a: Action :: PodNameFor(i, a) !in f.changed)
    ensures var w' := MbscPass(w, f);
            && OnTrack(w', i) && Rank(i, SlotOf(w', i)) <= Rank(i, SlotOf(w, i))
            && (MbscGetsTo(w, f, i) && WaitsFor(SlotOf(w, i)) == ForMbsc ==> Rank(i, SlotOf(w', i)) < Rank(i, SlotOf(w, i)))
  {
    var w' := MbscPass(w, f);
    MbscKeepsLists(w, f);
    SlotAfterMbsc(w, f, i);
    MbscMovesOn(i, SlotOf(w, i), SlotOf(w', i), w.mbsc.Some? && StatusesHad(w, f), MbscGetsTo(w, f, i));
    if w.mbsc.Some? {
      forall a: Action | CanBeMade(Task(i, a)) && PodNameFor(i, a) in w'.pods
        ensures w'.pods[PodNameFor(i, a)].owner == w.mbsc.value.uid
      {
        PodsStayOwned(w, f, i, a);
      }
    }
  }

  // ----- Runs -----

  predicate IsPodOf(n: PodName, i: ImageSpec) { CanBeMade(Task(i, n.action)) && n == PodNameFor(i, n.action) }

  /**
   Steps that leave list and trigger alone, do not fail the image's own pull or pods for good or take
   them away, and do not change its pod templates. API calls may fail and other images fare as they like.
   */
  ghost predicate Benign(w: World, step: Step, i: ImageSpec) {
    && Enabled(w, step)
    && match step
       case MicReconcile(_) => true
       case MbscReconcile(f) => forall a: Action :: PodNameFor(i, a) !in f.changed
       case SetTrigger(_) => false
       case SetImages(_) => false
       case PullPodMoves(k, phase) =>
         var p := w.pullPods[k];
         p.image == i.image ==>
           && phase != Failed && phase != Unknown && (p.phase == Succeeded ==> phase == Succeeded)
           && (GaveUp(p) ==> Ended(p.(phase := phase)))
       case PullPodGone(k) => w.pullPods[k].image != i.image
       case PodMoves(n, phase) => IsPodOf(n, i) ==> phase != Failed && phase != Unknown && (w.pods[n].phase == Succeeded ==> phase == Succeeded)
       case PodGone(n) => !IsPodOf(n, i)
  }

  /** The step is the one the image waits for, and its calls for the image go through. */
  ghost predicate Advances(w: World, step: Step, i: ImageSpec)
    requires Enabled(w, step)
  {
    match step
    case MicReconcile(f) => WaitsFor(SlotOf(w, i)) == ForMic && MicGetsTo(w, f, i)
    case MbscReconcile(f) => WaitsFor(SlotOf(w, i)) == ForMbsc && MbscGetsTo(w, f, i)
    case PullPodMoves(k, phase) => WaitsFor(SlotOf(w, i)) == ForPull && w.pullPods[k].image == i.image && Ended(w.pullPods[k].(phase := phase))
    case PodMoves(n, phase) =>
      && WaitsFor(SlotOf(w, i)) == ForPod && phase == Succeeded
      && n == PodNameFor(i, if SlotOf(w, i).state == Some(NeedsSigning) then SignImage else BuildImage)
    case _ => false
  }

  lemma PullPodsMoved(pods: seq<PullPod>, k: nat, phase: PullPhase)
    requires k < |pods| && DistinctPulls(pods)
    ensures DistinctPulls(pods[k := pods[k].(phase := phase)])
    ensures forall image: string :: PullPodOf(pods[k := pods[k].(phase := phase)], image) ==
              if image == pods[k].image then Some(pods[k].(phase := phase)) else PullPodOf(pods, image)
  {
    var pods' := pods[k := pods[k].(phase := phase)];
    PullPodOfOne(pods', pods'[k]);
    forall image: string | image != pods[k].image
      ensures PullPodOf(pods', image) == PullPodOf(pods, image)
    {
      PullPodIsFirst(pods, image);
      PullPodIsFirst(pods', image);
      if p :| p in pods && p.image == image {
        var j :| 0 <= j < |pods| && pods[j] == p;
        assert pods'[j] == p;
        PullPodOfOne(pods, p);
        PullPodOfOne(pods', p);
      }
    }
  }

  /** Which pull pod an image has depends on nothing but which are there. */
  lemma SamePullPod(pods: seq<PullPod>, pods': seq<PullPod>, image: string)
    requires DistinctPulls(pods) && DistinctPulls(pods') && forall p: PullPod :: p.image == image ==> (p in pods <==> p in pods')
    ensures PullPodOf(pods, image) == PullPodOf(pods', image)
  {
    PullPodIsFirst(pods, image);
    PullPodIsFirst(pods', image);
    if PullPodOf(pods, image).Some? {
      PullPodOfOne(pods', PullPodOf(pods, image).value);
    }
  }

  lemma PullPodsGone(pods: seq<PullPod>, k: nat, image: string)
    requires k < |pods| && DistinctPulls(pods) && pods[k].image != image
    ensures DistinctPulls(pods[..k] + pods[k + 1..]) && PullPodOf(pods[..k] + pods[k + 1..], image) == PullPodOf(pods, image)
  {
    var pods' := pods[..k] + pods[k + 1..];
    assert forall j :: 0 <= j < |pods'| ==> pods'[j] == pods[if j < k then j else j + 1];
    assert pods == pods[..k] + [pods[k]] + pods[k + 1..];
    SamePullPod(pods, pods', image);
  }

  lemma PullMovesOn(i: ImageSpec, s: Slot, phase: PullPhase)
    requires SlotOk(i, s) && s.pull.Some? && phase != Failed && phase != Unknown
    requires s.pull.value.phase == Succeeded ==> phase == Succeeded
    requires GaveUp(s.pull.value) ==> Ended(s.pull.value.(phase := phase))
    ensures var p := s.pull.value.(phase := phase);
            var s' := s.(pull := Some(p));
            SlotOk(i, s') && Rank(i, s') <= Rank(i, s) && (WaitsFor(s) == ForPull && Ended(p) ==> Rank(i, s') < Rank(i, s))
  {
  }

  function WithPodIn(s: Slot, a: Action, pod: BuildPod): Slot {
    if a == BuildImage then s.(builder := Some(pod)) else s.(signer := Some(pod))
  }

  lemma PodMovesOn(i: ImageSpec, s: Slot, a: Action, phase: PullPhase)
    requires SlotOk(i, s) && PodIn(s, a).Some? && phase != Failed && phase != Unknown
    requires PodIn(s, a).value.phase == Succeeded ==> phase == Succeeded
    ensures var s' := WithPodIn(s, a, PodIn(s, a).value.(phase := phase));
            && SlotOk(i, s') && Rank(i, s') <= Rank(i, s)
            && (WaitsFor(s) == ForPod && phase == Succeeded && a == (if s.state == Some(NeedsSigning) then SignImage else BuildImage) ==>
                  Rank(i, s') < Rank(i, s))
  {
  }

  lemma PodMoved(w: World, n: PodName, phase: PullPhase, i: ImageSpec)
    requires OnTrack(w, i) && Benign(w, PodMoves(n, phase), i)
    ensures var w' := Next(w, PodMoves(n, phase));
            && OnTrack(w', i) && Rank(i, SlotOf(w', i)) <= Rank(i, SlotOf(w, i))
            && (Advances(w, PodMoves(n, phase), i) ==> Rank(i, SlotOf(w', i)) < Rank(i, SlotOf(w, i)))
  {
    var w' := Next(w, PodMoves(n, phase));
    if IsPodOf(n, i) {
      SlotPod(w, i, n.action);
      assert SlotOf(w', i) == WithPodIn(SlotOf(w, i), n.action, w.pods[n].(phase := phase));
      PodMovesOn(i, SlotOf(w, i), n.action, phase);
    } else {
      assert SlotOf(w', i) == SlotOf(w, i);
    }
  }

  lemma PullPodMoved(w: World, k: nat, phase: PullPhase, i: ImageSpec)
    requires OnTrack(w, i) && Benign(w, PullPodMoves(k, phase), i)
    ensures var w' := Next(w, PullPodMoves(k, phase));
            && OnTrack(w', i) && Rank(i, SlotOf(w', i)) <= Rank(i, SlotOf(w, i))
            && (Advances(w, PullPodMoves(k, phase), i) ==> Rank(i, SlotOf(w', i)) < Rank(i, SlotOf(w, i)))
  {
    var w' := Next(w, PullPodMoves(k, phase));
    PullPodsMoved(w.pullPods, k, phase);
    PullPodOfOne(w.pullPods, w.pullPods[k]);
    if w.pullPods[k].image == i.image {
      assert SlotOf(w', i) == SlotOf(w, i).(pull := Some(w.pullPods[k].(phase := phase)));
      PullMovesOn(i, SlotOf(w, i), phase);
    } else {
      assert SlotOf(w', i) == SlotOf(w, i);
    }
  }

  /** What others do to pods that are not the image's leaves it as it is. */
  lemma PullPodGoesElsewhere(w: World, k: nat, i: ImageSpec)
    requires OnTrack(w, i) && Benign(w, PullPodGone(k), i)
    ensures OnTrack(Next(w, PullPodGone(k)), i) && SlotOf(Next(w, PullPodGone(k)), i) == SlotOf(w, i)
  {
    PullPodsGone(w.pullPods, k, i.image);
  }

  lemma PodGoesElsewhere(w: World, n: PodName, i: ImageSpec)
    requires OnTrack(w, i) && Benign(w, PodGone(n), i)
    ensures OnTrack(Next(w, PodGone(n)), i) && SlotOf(Next(w, PodGone(n)), i) == SlotOf(w, i)
  {
    SlotPod(w, i, BuildImage);
    SlotPod(w, i, SignImage);
  }

  lemma EnvironmentMoves(w: World, step: Step, i: ImageSpec)
    requires OnTrack(w, i) && Benign(w, step, i) && !step.MicReconcile? && !step.MbscReconcile?
    ensures OnTrack(Next(w, step), i) && Rank(i, SlotOf(Next(w, step), i)) <= Rank(i, SlotOf(w, i))
    ensures Advances(w, step, i) ==> Rank(i, SlotOf(Next(w, step), i)) < Rank(i, SlotOf(w, i))
  {
    match step
    case PullPodMoves(k, phase) => PullPodMoved(w, k, phase, i);
    case PodMoves(n, phase) => PodMoved(w, n, phase, i);
    case PullPodGone(k) => PullPodGoesElsewhere(w, k, i);
    case PodGone(n) => PodGoesElsewhere(w, n, i);
    case _ =>
  }

  lemma StepMoves(w: World, step: Step, i: ImageSpec)
    requires OnTrack(w, i) && Benign(w, step, i)
    ensures OnTrack(Next(w, step), i)
    ensures Rank(i, SlotOf(Next(w, step), i)) + (if Advances(w, step, i) then 1 else 0) <= Rank(i, SlotOf(w, i))
  {
    match step
    case MicReconcile(f) => MicMoves(w, f, i);
    case MbscReconcile(f) => MbscMoves(w, f, i);
    case _ => EnvironmentMoves(w, step, i);
  }

  ghost predicate IsBenignRun(w: World, steps: seq<Step>, i: ImageSpec)
    decreases |steps|
  {
    steps == [] || (Benign(w, steps[0], i) && IsBenignRun(Next(w, steps[0]), steps[1..], i))
  }

  ghost function CountAdvances(w: World, steps: seq<Step>, i: ImageSpec): nat
    requires IsRun(w, steps)
    decreases |steps|
  {
    if steps == [] then 0 else (if Advances(w, steps[0], i) then 1 else 0) + CountAdvances(Next(w, steps[0]), steps[1..], i)
  }

  lemma {:induction false} RunMoves(w: World, steps: seq<Step>, i: ImageSpec)
    requires OnTrack(w, i) && IsBenignRun(w, steps, i)
    ensures IsRun(w, steps) && OnTrack(After(w, steps), i)
    ensures CountAdvances(w, steps, i) + Rank(i, SlotOf(After(w, steps), i)) <= Rank(i, SlotOf(w, i))
    decreases |steps|
  {
    if steps != [] {
      StepMoves(w, steps[0], i);
      RunMoves(Next(w, steps[0]), steps[1..], i);
    }
  }

  predicate HasIt(w: World, i: ImageSpec) { StateOf(w.mic.states, i.image) == Some(Exists) }

  /**
   Bounded progress. However passes of both controllers, pods and other images interleave and whatever
   API calls fail, at most thirteen steps move an image on, and once as many have been taken as `Rank`
   says it exists; from then on it stays.
   */
  lemma ImageComesToExist(w: World, steps: seq<Step>, i: ImageSpec)
    requires OnTrack(w, i) && IsBenignRun(w, steps, i)
    ensures IsRun(w, steps)
    ensures CountAdvances(w, steps, i) <= Rank(i, SlotOf(w, i)) <= 13
    ensures CountAdvances(w, steps, i) == Rank(i, SlotOf(w, i)) ==> HasIt(After(w, steps), i)
    ensures HasIt(w, i) ==> HasIt(After(w, steps), i)
  {
    RunMoves(w, steps, i);
  }

  lemma StartIsOnTrack(images: seq<ImageSpec>, i: ImageSpec)
    requires Deduped(images) && NonePasses(images) && i in images && CanBeHad(i)
    ensures OnTrack(Start(images, None), i)
  {
  }

  const MIC_OK := MicFaults(false, false, false, {}, false, {})
  const MBSC_FINE := MbscFaults({}, false, {}, {}, {}, {})

  /** No task of any image ends the MBSC pass before its time. */
  ghost predicate PassesComplete(w: World) {
    w.mbsc.Some? ==> StatusesHad(w, MBSC_FINE) && NoneLacksSection(Tasks(w))
  }

  /** An image that does not exist yet always has a next step that moves it on: a pass of the controller it waits for, or its pod finishing. */
  lemma NeverStuck(w: World, i: ImageSpec) returns (step: Step)
    requires OnTrack(w, i) && !HasIt(w, i) && PassesComplete(w)
    ensures Benign(w, step, i) && Advances(w, step, i)
  {
    var s := SlotOf(w, i);
    match WaitsFor(s)
    case Nothing =>
    case ForMic =>
      step := MicReconcile(MIC_OK);
    case ForMbsc =>
      TaskForIff(Tasks(w), i.image);
      step := MbscReconcile(MBSC_FINE);
    case ForPull =>
      PullPodIsFirst(w.pullPods, i.image);
      var k :| 0 <= k < |w.pullPods| && w.pullPods[k] == s.pull.value;
      step := PullPodMoves(k, Succeeded);
    case ForPod =>
      step := PodMoves(PodNameFor(i, if s.state == Some(NeedsSigning) then SignImage else BuildImage), Succeeded);
  }
}
