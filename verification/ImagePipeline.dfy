/**
 The image pipeline of one Module: the ModuleImagesConfig (MIC) decides per image whether to pull,
 build or sign, the ModuleBuildSignConfig (MBSC) drives build and sign pods, and a rebuild trigger
 starts a new generation (internal/controllers/mic_reconciler.go, internal/controllers/mbsc_reconciler.go,
 internal/buildsign/manager.go, internal/mic/mic.go, internal/mbsc/mbsc.go). Each pass is one function
 on the API objects; faults are parameters of the pass.
 */
module ImagePipeline {
  import opened Basics
  import opened KernelNames

  // ----- API objects -----

  /** `build` and `sign` are the optional sections; `sign` holds the unsigned image, "" when none is given. */
  datatype ImageSpec = ImageSpec(image: string, kernel: string, build: bool, sign: Option<string>, skipWait: bool)

  datatype ImageState = Exists | DoesNotExist | NeedsBuilding | NeedsSigning

  datatype StateEntry = StateEntry(image: string, state: ImageState)

  datatype Mic = Mic(images: seq<ImageSpec>, trigger: Option<int>, states: seq<StateEntry>, adopted: Option<int>)

  datatype Action = BuildImage | SignImage

  datatype Outcome = Success | Failure

  datatype Task = Task(spec: ImageSpec, action: Action)

  /** A build or sign result; `owner` records the owner of the pod it was read from. */
  datatype ResultEntry = ResultEntry(image: string, action: Action, outcome: Outcome, owner: nat)

  datatype Mbsc = Mbsc(uid: nat, tasks: seq<Task>, results: seq<ResultEntry>)

  datatype PullPhase = Pending(started: bool, waiting: Option<string>) | Running | Succeeded | Failed | Unknown

  datatype PullPod = PullPod(uid: nat, image: string, oneTime: bool, phase: PullPhase)

  /** Build and sign pods are named after their action and the DNS-safe kernel. */
  datatype PodName = PodName(action: Action, kernel: string)

  datatype BuildPod = BuildPod(owner: nat, image: string, phase: PullPhase)

  /** A pod of MBSC `owner` finished `action` for `image` successfully. */
  datatype Made = Made(action: Action, owner: nat, image: string)

  /** A result of an MBSC born in generation `birth` was used by the MIC in generation `adoption`. */
  datatype Use = Use(adoption: nat, birth: Option<nat>)

  /** What has happened so far; no pass reads it. */
  datatype History = History(pulled: set<string>, made: set<Made>, adoptions: nat, births: map<nat, nat>, uses: set<Use>)

  datatype World = World(mic: Mic, mbsc: Option<Mbsc>, pullPods: seq<PullPod>, pods: map<PodName, BuildPod>, nextUid: nat, log: History)

  // ----- List edits -----

  function SpecOf(images: seq<ImageSpec>, image: string): (r: Option<ImageSpec>)
    ensures r.Some? ==> r.value in images && r.value.image == image
    ensures r.None? ==> forall s :: s in images ==> s.image != image
  {
    if images == [] then None else if images[0].image == image then Some(images[0]) else SpecOf(images[1..], image)
  }

  /** The first entry of an image. */
  function StateOf(states: seq<StateEntry>, image: string): (r: Option<ImageState>)
    ensures r.Some? ==> StateEntry(image, r.value) in states
  {
    if states == [] then None else if states[0].image == image then Some(states[0].state) else StateOf(states[1..], image)
  }

  /** Overwrites the first entry of an image or appends one. */
  function SetState(states: seq<StateEntry>, image: string, state: ImageState): (r: seq<StateEntry>)
    ensures forall e :: e in r ==> e in states || e == StateEntry(image, state)
  {
    var e := StateEntry(image, state);
    if states == [] then [e]
    else if states[0].image == image then [e] + states[1..]
    else [states[0]] + SetState(states[1..], image, state)
  }

  /** Afterwards that image reads the new state, every other image as before. */
  lemma {:induction false} SetStateReads(states: seq<StateEntry>, image: string, state: ImageState, other: string)
    ensures StateOf(SetState(states, image, state), other) == if other == image then Some(state) else StateOf(states, other)
  {
    if states != [] && states[0].image != image {
      SetStateReads(states[1..], image, state, other);
    }
  }

  function OutcomeOf(results: seq<ResultEntry>, image: string, action: Action): Option<Outcome> {
    if results == [] then None
    else if results[0].image == image && results[0].action == action then Some(results[0].outcome)
    else OutcomeOf(results[1..], image, action)
  }

  lemma {:induction false} SpecOfIsFirst(images: seq<ImageSpec>, image: string, i: nat)
    requires i <= |images| && (forall j :: 0 <= j < i ==> images[j].image != image) && (i < |images| ==> images[i].image == image)
    ensures SpecOf(images, image) == if i < |images| then Some(images[i]) else None
  {
    if i > 0 {
      SpecOfIsFirst(images[1..], image, i - 1);
    }
  }

  /** One result per image: a sign result replaces the build result. */
  function SetResult(results: seq<ResultEntry>, e: ResultEntry): (r: seq<ResultEntry>)
    ensures e in r && forall x :: x in r ==> x in results || x == e
  {
    if results == [] then [e]
    else if results[0].image == e.image then [e] + results[1..]
    else [results[0]] + SetResult(results[1..], e)
  }

  function ResultFor(results: seq<ResultEntry>, image: string): Option<ResultEntry> {
    if results == [] then None else if results[0].image == image then Some(results[0]) else ResultFor(results[1..], image)
  }

  /** Afterwards that image has the new result, every other image the one it had. */
  lemma {:induction false} SetResultReads(results: seq<ResultEntry>, e: ResultEntry, other: string)
    ensures ResultFor(SetResult(results, e), other) == if other == e.image then Some(e) else ResultFor(results, other)
  {
    if results != [] && results[0].image != e.image {
      SetResultReads(results[1..], e, other);
    }
  }

  function SetTask(tasks: seq<Task>, t: Task): (r: seq<Task>)
    ensures t in r && forall x :: x in r ==> x in tasks || x == t
  {
    if tasks == [] then [t]
    else if tasks[0].spec.image == t.spec.image then [t] + tasks[1..]
    else [tasks[0]] + SetTask(tasks[1..], t)
  }

  function TaskFor(tasks: seq<Task>, image: string): Option<Task> {
    if tasks == [] then None else if tasks[0].spec.image == image then Some(tasks[0]) else TaskFor(tasks[1..], image)
  }

  /** Afterwards that image has the new task, every other image the one it had. */
  lemma {:induction false} SetTaskReads(tasks: seq<Task>, t: Task, other: string)
    ensures TaskFor(SetTask(tasks, t), other) == if other == t.spec.image then Some(t) else TaskFor(tasks, other)
  {
    if tasks != [] && tasks[0].spec.image != t.spec.image {
      SetTaskReads(tasks[1..], t, other);
    }
  }

  // ----- MIC pass -----

  datatype PullStatus = InProcess | PullFailed | PullSuccess | UnexpectedErr

  function GetPullPodStatus(pod: PullPod): PullStatus {
    match pod.phase
    case Succeeded => PullSuccess
    case Failed => UnexpectedErr
    case Unknown => UnexpectedErr
    case Running => InProcess
    case Pending(started, waiting) =>
      if !started || waiting.None? || !pod.oneTime then InProcess
      else if waiting.value == "ImagePullBackOff" || waiting.value == "ErrImagePull" then PullFailed
      else UnexpectedErr
  }

  /** API calls of a MIC pass that fail: one flag per status patch, the pull pods whose deletion fails, the images whose calls fail. */
  datatype MicFaults = MicFaults(mbscDelete: bool, adoptPatch: bool, pullPatch: bool, podDeletes: set<nat>, resultPatch: bool, calls: set<string>)

  /** A changed trigger drops the MBSC first and adopts the trigger, with all states cleared, second; the pass ends there. */
  function Adopt(w: World, f: MicFaults): World {
    if f.mbscDelete then w
    else if f.adoptPatch then w.(mbsc := None)
    else w.(mbsc := None,
            mic := w.mic.(states := [], adopted := w.mic.trigger),
            log := w.log.(adoptions := w.log.adoptions + 1))
  }

  function PullPodState(spec: ImageSpec, status: PullStatus): Option<ImageState> {
    match status
    case PullSuccess => Some(Exists)
    case PullFailed =>
      if spec.build then Some(NeedsBuilding)
      else if spec.sign.Some? then Some(NeedsSigning)
      else if spec.skipWait then Some(DoesNotExist)
      else None
    case _ => None
  }

  function Merge(states: seq<StateEntry>, image: string, state: Option<ImageState>): seq<StateEntry> {
    match state
    case None => states
    case Some(s) => SetState(states, image, s)
  }

  function PullPodStep(images: seq<ImageSpec>, pod: PullPod, states: seq<StateEntry>): seq<StateEntry> {
    match SpecOf(images, pod.image)
    case None => states
    case Some(spec) => Merge(states, pod.image, PullPodState(spec, GetPullPodStatus(pod)))
  }

  function PulledStates(images: seq<ImageSpec>, pods: seq<PullPod>, states: seq<StateEntry>): seq<StateEntry>
    decreases |pods|
  {
    if pods == [] then states else PulledStates(images, pods[1..], PullPodStep(images, pods[0], states))
  }

  predicate IsDone(images: seq<ImageSpec>, pod: PullPod) {
    SpecOf(images, pod.image).None? || GetPullPodStatus(pod) == PullFailed || GetPullPodStatus(pod) == PullSuccess
  }

  /** The pull pods left after the done ones are deleted, those whose deletion fails excepted. */
  function PodsLeft(images: seq<ImageSpec>, pods: seq<PullPod>, refused: set<nat>): (r: seq<PullPod>)
    ensures forall p :: p in r ==> p in pods
  {
    if pods == [] then []
    else
      var rest := PodsLeft(images, pods[1..], refused);
      if IsDone(images, pods[0]) && pods[0].uid !in refused then rest else [pods[0]] + rest
  }

  predicate PullsFail(w: World, f: MicFaults) {
    w.pullPods != [] && (f.pullPatch || exists p :: p in w.pullPods && IsDone(w.mic.images, p) && p.uid in f.podDeletes)
  }

  function AfterPulls(w: World, f: MicFaults): World {
    if w.pullPods == [] || f.pullPatch then w
    else w.(mic := w.mic.(states := PulledStates(w.mic.images, w.pullPods, w.mic.states)),
            pullPods := PodsLeft(w.mic.images, w.pullPods, f.podDeletes))
  }

  function ResultState(spec: ImageSpec, e: ResultEntry): ImageState {
    if e.outcome == Failure then DoesNotExist
    else if e.action == SignImage then Exists
    else if spec.sign.Some? then NeedsSigning
    else Exists
  }

  function ResultStep(images: seq<ImageSpec>, e: ResultEntry, states: seq<StateEntry>): seq<StateEntry> {
    match SpecOf(images, e.image)
    case None => states
    case Some(spec) => SetState(states, e.image, ResultState(spec, e))
  }

  function ResultStates(images: seq<ImageSpec>, results: seq<ResultEntry>, states: seq<StateEntry>): seq<StateEntry>
    decreases |results|
  {
    if results == [] then states else ResultStates(images, results[1..], ResultStep(images, results[0], states))
  }

  function UsesOf(images: seq<ImageSpec>, results: seq<ResultEntry>, log: History): set<Use> {
    set e | e in results && SpecOf(images, e.image).Some? :: Use(log.adoptions, Lookup(log.births, e.owner))
  }

  function AfterResults(w: World, f: MicFaults): World {
    if w.mbsc.None? || f.resultPatch then w
    else w.(mic := w.mic.(states := ResultStates(w.mic.images, w.mbsc.value.results, w.mic.states)),
            log := w.log.(uses := w.log.uses + UsesOf(w.mic.images, w.mbsc.value.results, w.log)))
  }

  /** `CreateOrPatch` of the MBSC; a new object gets a fresh uid. */
  function WithTask(w: World, t: Task): World {
    match w.mbsc
    case None =>
      w.(mbsc := Some(Mbsc(w.nextUid, [t], [])), nextUid := w.nextUid + 1,
         log := w.log.(births := w.log.births[w.nextUid := w.log.adoptions]))
    case Some(m) => w.(mbsc := Some(m.(tasks := SetTask(m.tasks, t))))
  }

  function ActionFor(spec: ImageSpec, state: Option<ImageState>): Option<Action> {
    match state
    case None => None
    case Some(Exists) => None
    case Some(DoesNotExist) => if !spec.build && spec.sign.None? then None else Some(BuildImage)
    case Some(NeedsBuilding) => Some(BuildImage)
    case Some(NeedsSigning) => Some(SignImage)
  }

  predicate HasPullPod(pods: seq<PullPod>, image: string) {
    exists p :: p in pods && p.image == image
  }

  function NewPullPod(w: World, spec: ImageSpec): PullPod {
    PullPod(w.nextUid, spec.image, spec.build || spec.sign.Some? || spec.skipWait, Pending(false, None))
  }

  function ImageStep(w: World, spec: ImageSpec, listed: seq<PullPod>, refused: set<string>): World {
    var state := StateOf(w.mic.states, spec.image);
    if spec.image in refused then w
    else if state.None? then
      if HasPullPod(listed, spec.image) then w
      else w.(pullPods := w.pullPods + [NewPullPod(w, spec)], nextUid := w.nextUid + 1)
    else
      match ActionFor(spec, state)
      case None => w
      case Some(action) => WithTask(w, Task(spec, action))
  }

  function ImagesPhase(w: World, images: seq<ImageSpec>, listed: seq<PullPod>, refused: set<string>): World
    decreases |images|
  {
    if images == [] then w else ImagesPhase(ImageStep(w, images[0], listed, refused), images[1..], listed, refused)
  }

  function MicPass(w: World, f: MicFaults): World {
    if w.mic.trigger != w.mic.adopted then Adopt(w, f)
    else
      var w1 := AfterPulls(w, f);
      if PullsFail(w, f) then w1
      else
        var w2 := AfterResults(w1, f);
        if w2.mbsc.Some? && f.resultPatch then w2
        else ImagesPhase(w2, w2.mic.images, w.pullPods, f.calls)
  }

  // ----- MBSC pass -----

  /**
   `lists`: pods that cannot be listed for the status; `prepares`: pods whose template cannot be made
   or which cannot be listed for the sync; `changed`: pods whose template hash differs; `creates`: pods
   whose creation fails; `lingering`: pods whose deletion is not carried out yet.
   */
  datatype MbscFaults = MbscFaults(lists: set<PodName>, statusPatch: bool, prepares: set<PodName>, changed: set<PodName>,
                                   creates: set<PodName>, lingering: set<PodName>)

  function NameOf(t: Task): PodName { PodName(t.action, DnsSafe(t.spec.kernel)) }

  /** The pod of a task, if the MBSC owns it. */
  function OwnedPod(pods: map<PodName, BuildPod>, uid: nat, name: PodName): Option<BuildPod> {
    if name in pods && pods[name].owner == uid then Some(pods[name]) else None
  }

  function StatusOf(pod: BuildPod): Option<Outcome> {
    match pod.phase
    case Succeeded => Some(Success)
    case Failed => Some(Failure)
    case _ => None
  }

  function CollectStep(pods: map<PodName, BuildPod>, uid: nat, t: Task, results: seq<ResultEntry>): seq<ResultEntry> {
    match OwnedPod(pods, uid, NameOf(t))
    case None => results
    case Some(pod) =>
      match StatusOf(pod)
      case None => results
      case Some(outcome) => SetResult(results, ResultEntry(t.spec.image, t.action, outcome, pod.owner))
  }

  function Collected(pods: map<PodName, BuildPod>, uid: nat, tasks: seq<Task>, results: seq<ResultEntry>): seq<ResultEntry>
    decreases |tasks|
  {
    if tasks == [] then results else Collected(pods, uid, tasks[1..], CollectStep(pods, uid, tasks[0], results))
  }

  /** The status of a task cannot be had: its pod cannot be listed or is in an unknown phase. */
  predicate TaskFails(pods: map<PodName, BuildPod>, uid: nat, t: Task, lists: set<PodName>) {
    NameOf(t) in lists || (OwnedPod(pods, uid, NameOf(t)).Some? && pods[NameOf(t)].phase == Unknown)
  }

  predicate StatusFails(pods: map<PodName, BuildPod>, uid: nat, tasks: seq<Task>, lists: set<PodName>) {
    exists t :: t in tasks && TaskFails(pods, uid, t, lists)
  }

  datatype Template = Template | NoUnsignedImage | MissingSection

  /** A missing section is dereferenced; a sign task of an image that is not built needs an unsigned image. */
  function MakeTemplate(t: Task): Template {
    match t.action
    case BuildImage => if t.spec.build then Template else MissingSection
    case SignImage =>
      if t.spec.sign.None? then MissingSection
      else if t.spec.build || t.spec.sign.value != "" then Template
      else NoUnsignedImage
  }

  function SyncPod(pods: map<PodName, BuildPod>, uid: nat, t: Task, f: MbscFaults): map<PodName, BuildPod> {
    var name := NameOf(t);
    if OwnedPod(pods, uid, name).Some? then
      if name in f.changed && name !in f.lingering then pods - {name} else pods
    else if name in pods || name in f.creates then pods
    else pods[name := BuildPod(uid, t.spec.image, Pending(false, None))]
  }

  /**
   A sync touches no pod but its own and never another owner's; a pod it makes is owned, pending and
   for its own image; an owned pod whose template changed is gone unless its deletion lingers; and
   repeating the sync under an unchanged template changes nothing.
   */
  lemma SyncPodMeaning(pods: map<PodName, BuildPod>, uid: nat, t: Task, f: MbscFaults)
    ensures var pods' := SyncPod(pods, uid, t, f);
            var name := NameOf(t);
            && (forall n :: n != name ==> Lookup(pods', n) == Lookup(pods, n))
            && (name in pods && pods[name].owner != uid ==> pods' == pods)
            && (name in pods' && Lookup(pods', name) != Lookup(pods, name) ==>
                  name !in pods && pods'[name].owner == uid && pods'[name].image == t.spec.image && StatusOf(pods'[name]) == None)
            && (name in pods && pods[name].owner == uid ==> (name !in pods' <==> name in f.changed && name !in f.lingering))
            && (name !in pods ==> (name in pods' <==> name !in f.creates))
            && (name !in f.changed ==> SyncPod(pods', uid, t, f) == pods')
  {
  }

  datatype SyncEnd = Clean | Errors | Crashed

  predicate CreateFails(pods: map<PodName, BuildPod>, uid: nat, t: Task, f: MbscFaults) {
    OwnedPod(pods, uid, NameOf(t)).None? && NameOf(t) !in pods && NameOf(t) in f.creates
  }

  function SyncTasks(pods: map<PodName, BuildPod>, uid: nat, tasks: seq<Task>, results: seq<ResultEntry>, f: MbscFaults, end: SyncEnd)
    : (map<PodName, BuildPod>, SyncEnd)
    decreases |tasks|
  {
    if tasks == [] then (pods, end)
    else
      var t := tasks[0];
      if OutcomeOf(results, t.spec.image, t.action) == Some(Success) then SyncTasks(pods, uid, tasks[1..], results, f, end)
      else
        match MakeTemplate(t)
        case MissingSection => (pods, Crashed)
        case NoUnsignedImage => SyncTasks(pods, uid, tasks[1..], results, f, Errors)
        case Template =>
          if NameOf(t) in f.prepares then SyncTasks(pods, uid, tasks[1..], results, f, Errors)
          else SyncTasks(SyncPod(pods, uid, t, f), uid, tasks[1..], results, f, if CreateFails(pods, uid, t, f) then Errors else end)
  }

  function GarbageCollected(pods: map<PodName, BuildPod>, uid: nat, lingering: set<PodName>): map<PodName, BuildPod> {
    map n | n in pods && !(pods[n].owner == uid && pods[n].phase == Succeeded && n !in lingering) :: pods[n]
  }

  function MbscPass(w: World, f: MbscFaults): World {
    match w.mbsc
    case None => w
    case Some(m) =>
      if f.statusPatch then w
      else
        var results := Collected(w.pods - f.lists, m.uid, m.tasks, m.results);
        var w1 := w.(mbsc := Some(m.(results := results)));
        if StatusFails(w.pods, m.uid, m.tasks, f.lists) then w1
        else
          var (pods, end) := SyncTasks(w.pods, m.uid, m.tasks, results, f, Clean);
          if end != Clean then w1.(pods := pods)
          else w1.(pods := GarbageCollected(pods, m.uid, f.lingering))
  }

  // ----- Runs -----

  datatype Step =
    | MicReconcile(micFaults: MicFaults)
    | MbscReconcile(mbscFaults: MbscFaults)
    | SetTrigger(trigger: Option<int>)
    | SetImages(images: seq<ImageSpec>)
    | PullPodMoves(index: nat, phase: PullPhase)
    | PullPodGone(index: nat)
    | PodMoves(name: PodName, phase: PullPhase)
    | PodGone(name: PodName)

  ghost predicate Enabled(w: World, step: Step) {
    match step
    case PullPodMoves(i, _) => i < |w.pullPods|
    case PullPodGone(i) => i < |w.pullPods|
    case PodMoves(n, _) => n in w.pods
    case PodGone(n) => n in w.pods
    case _ => true
  }

  ghost function Next(w: World, step: Step): World
    requires Enabled(w, step)
  {
    match step
    case MicReconcile(f) => MicPass(w, f)
    case MbscReconcile(f) => MbscPass(w, f)
    case SetTrigger(t) => w.(mic := w.mic.(trigger := t))
    case SetImages(images) => w.(mic := w.mic.(images := images))
    case PullPodMoves(i, phase) => MovePullPod(w, i, phase)
    case PullPodGone(i) => w.(pullPods := w.pullPods[..i] + w.pullPods[i + 1..])
    case PodMoves(n, phase) => MovePod(w, n, phase)
    case PodGone(n) => w.(pods := w.pods - {n})
  }

  ghost function MovePullPod(w: World, i: nat, phase: PullPhase): World
    requires i < |w.pullPods|
  {
    var pod := w.pullPods[i];
    w.(pullPods := w.pullPods[i := pod.(phase := phase)],
       log := if phase == Succeeded then w.log.(pulled := w.log.pulled + {pod.image}) else w.log)
  }

  ghost function MovePod(w: World, n: PodName, phase: PullPhase): World
    requires n in w.pods
  {
    var pod := w.pods[n];
    w.(pods := w.pods[n := pod.(phase := phase)],
       log := if phase == Succeeded then w.log.(made := w.log.made + {Made(n.action, pod.owner, pod.image)}) else w.log)
  }

  ghost function Start(images: seq<ImageSpec>, trigger: Option<int>): World {
    World(Mic(images, trigger, [], None), None, [], map[], 0, History({}, {}, 0, map[], {}))
  }

  ghost predicate IsRun(w: World, steps: seq<Step>)
    decreases |steps|
  {
    steps == [] || (Enabled(w, steps[0]) && IsRun(Next(w, steps[0]), steps[1..]))
  }

  ghost function After(w: World, steps: seq<Step>): World
    requires IsRun(w, steps)
    decreases |steps|
  {
    if steps == [] then w else After(Next(w, steps[0]), steps[1..])
  }
}
